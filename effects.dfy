/** What each operation of the record store does to its two sequences: the in-memory list
    `datas` and `store`, the records the persistence context returns when fetched (its pending,
    unsaved changes included).

    Each operation has two definitions here: an `...Effect` function that states the result in
    one piece, and a `...Sweep` function that follows the operation's loop record by record.
    A lemma proves the two equal. The methods of `TodoStore.Observer` are proved against the
    sweeps and promise the effects; the remaining lemmas state what the effects promise. */
module Effects {
  import opened Records

  /** The record store's whole state. */
  datatype Snapshot = Snapshot(store: seq<Type>, datas: seq<Type>)

  /** The in-memory list mirrors the persistent records exactly. */
  predicate Mirrored(s: Snapshot) {
    s.datas == s.store
  }

  /** Construction: `datas` is filled from a fetch of `table`; a failed fetch leaves it empty. */
  function Loaded(table: seq<Type>, fetchOk: bool): Snapshot {
    Snapshot(table, if fetchOk then table else [])
  }

  /** `add`: the record is inserted into the context whether or not the save succeeds;
      it is appended to `datas` only after a successful save. */
  function AddEffect(s: Snapshot, item: Type, saveOk: bool): Snapshot {
    Snapshot(s.store + [item], if saveOk then s.datas + [item] else s.datas)
  }

  /** `delete(id)` as written; the id argument plays no part. A failed fetch changes nothing; a
      failed save ends the call after the first record was deleted. Otherwise the records up to
      and including the first one whose id occurs in `datas` are deleted, and the first entry of
      `datas` with that id is removed; when no stored id occurs in `datas`, every record goes. */
  function DeleteEffect(s: Snapshot, id: string, fetchOk: bool, saveOk: bool): Snapshot {
    if !fetchOk || s.store == [] then s
    else if !saveOk then Snapshot(s.store[1..], s.datas)
    else
      var k := FirstIn(s.store, Ids(s.datas));
      if k == |s.store| then Snapshot([], s.datas)
      else
        FirstInFound(s.datas, s.store[k].id);
        Snapshot(s.store[k + 1..], RemoveAt(s.datas, FirstIn(s.datas, {s.store[k].id})))
  }

  /** The loop of `delete` as written, once the fetch succeeded and with every save succeeding:
      `rest` holds the fetched records not yet visited, each of which is deleted in turn. */
  function DeleteSweep(rest: seq<Type>, datas: seq<Type>): Snapshot
    decreases |rest|
  {
    if rest == [] then Snapshot([], datas)
    else if rest[0].id in Ids(datas) then
      FirstInFound(datas, rest[0].id);
      Snapshot(rest[1..], RemoveAt(datas, FirstIn(datas, {rest[0].id})))
    else DeleteSweep(rest[1..], datas)
  }

  /** `delete(id)` with the comparison against the argument that the code evidently intends:
      only records with that id are deleted. A failed save ends the call after the first of them.
      Otherwise, when `datas` holds the id, the first such record is deleted and the first entry
      with the id removed; when it does not, every record with the id is deleted. */
  function DeleteByIdEffect(s: Snapshot, id: string, fetchOk: bool, saveOk: bool): Snapshot {
    var k := FirstIn(s.store, {id});
    if !fetchOk || k == |s.store| then s
    else if !saveOk then Snapshot(RemoveAt(s.store, k), s.datas)
    else if id in Ids(s.datas) then
      FirstInFound(s.datas, id);
      Snapshot(RemoveAt(s.store, k), RemoveAt(s.datas, FirstIn(s.datas, {id})))
    else Snapshot(Dropped(s.store, id), s.datas)
  }

  /** The loop of the corrected `delete`: `kept` are the visited records that stay in the store,
      `rest` the fetched records not yet visited. */
  function DeleteByIdSweep(rest: seq<Type>, kept: seq<Type>, datas: seq<Type>, id: string, saveOk: bool): Snapshot
    decreases |rest|
  {
    if rest == [] then Snapshot(kept, datas)
    else if rest[0].id != id then DeleteByIdSweep(rest[1..], kept + [rest[0]], datas, id, saveOk)
    else if !saveOk then Snapshot(kept + rest[1..], datas)
    else if id in Ids(datas) then
      FirstInFound(datas, id);
      Snapshot(kept + rest[1..], RemoveAt(datas, FirstIn(datas, {id})))
    else DeleteByIdSweep(rest[1..], kept, datas, id, saveOk)
  }

  /** `update(id, title, msg)`: every stored record with the id is retitled, and so is every
      entry of `datas` with it provided one such record exists. A failed save ends the call after
      the first stored record with the id was retitled, before `datas` is touched. */
  function UpdateEffect(s: Snapshot, id: string, title: string, msg: string, fetchOk: bool, saveOk: bool): Snapshot {
    var k := FirstIn(s.store, {id});
    if !fetchOk then s
    else if saveOk then
      Snapshot(Retitled(s.store, id, title, msg), if id in Ids(s.store) then Retitled(s.datas, id, title, msg) else s.datas)
    else if k == |s.store| then s
    else Snapshot(s.store[k := Edited(s.store[k], title, msg)], s.datas)
  }

  /** The loop of `update`: `done` are the visited records as they now stand in the store, `rest`
      the fetched records not yet visited; each matching record retitles all of `datas`. */
  function UpdateSweep(rest: seq<Type>, done: seq<Type>, datas: seq<Type>, id: string, title: string, msg: string, saveOk: bool): Snapshot
    decreases |rest|
  {
    if rest == [] then Snapshot(done, datas)
    else if rest[0].id != id then UpdateSweep(rest[1..], done + [rest[0]], datas, id, title, msg, saveOk)
    else if !saveOk then Snapshot(done + [Edited(rest[0], title, msg)] + rest[1..], datas)
    else UpdateSweep(rest[1..], done + [Edited(rest[0], title, msg)], Retitled(datas, id, title, msg), id, title, msg, saveOk)
  }

  /** One step of the corrected `delete`'s loop. */
  lemma DeleteByIdSweepStep(rest: seq<Type>, kept: seq<Type>, datas: seq<Type>, id: string, saveOk: bool)
    requires rest != []
    ensures rest[0].id != id ==>
      DeleteByIdSweep(rest, kept, datas, id, saveOk) == DeleteByIdSweep(rest[1..], kept + [rest[0]], datas, id, saveOk)
    ensures rest[0].id == id && !saveOk ==>
      DeleteByIdSweep(rest, kept, datas, id, saveOk) == Snapshot(kept + rest[1..], datas)
    ensures rest[0].id == id && saveOk && FirstIn(datas, {id}) < |datas| ==>
      DeleteByIdSweep(rest, kept, datas, id, saveOk) == Snapshot(kept + rest[1..], RemoveAt(datas, FirstIn(datas, {id})))
    ensures rest[0].id == id && saveOk && FirstIn(datas, {id}) == |datas| ==>
      DeleteByIdSweep(rest, kept, datas, id, saveOk) == DeleteByIdSweep(rest[1..], kept, datas, id, saveOk)
  {
    FirstInFound(datas, id);
  }

  /** The Save button of the edit sheet: an entry that already has an id is updated,
      a blank one (empty id) is added. */
  function SaveEffect(s: Snapshot, selectedId: string, title: string, msg: string, date: Stamp, fetchOk: bool, saveOk: bool): Snapshot {
    if selectedId != "" then UpdateEffect(s, selectedId, title, msg, fetchOk, saveOk)
    else AddEffect(s, NewRecord(title, msg, date), saveOk)
  }

  // ---------------------------------------------------------------------------------------
  // Construction and add

  /** A successful fetch leaves the list mirroring the table, record for record, in fetch order;
      a failed one leaves it empty. */
  lemma LoadedMirrors(table: seq<Type>, fetchOk: bool)
    ensures fetchOk ==> Mirrored(Loaded(table, fetchOk))
    ensures fetchOk ==> |Loaded(table, fetchOk).datas| == |table|
    ensures fetchOk ==> forall i :: 0 <= i < |table| ==> Loaded(table, fetchOk).datas[i] == table[i]
    ensures !fetchOk ==> Loaded(table, fetchOk).datas == []
  {
  }

  /** A successful add appends exactly the new record and keeps every earlier entry. */
  lemma AddAppends(s: Snapshot, title: string, msg: string, date: Stamp)
    ensures var r := AddEffect(s, NewRecord(title, msg, date), true);
      |r.datas| == |s.datas| + 1 && r.datas[..|s.datas|] == s.datas &&
      r.datas[|s.datas|] == Type(date.id, title, msg, date.time, date.day)
  {
  }

  /** A failed save leaves the list as it was, while the inserted record stays in the context. */
  lemma AddFailureKeepsList(s: Snapshot, item: Type)
    ensures AddEffect(s, item, false).datas == s.datas
    ensures AddEffect(s, item, false).store == s.store + [item]
  {
  }

  /** Round trip: after a successful add to a mirrored store, reloading from the store gives back
      the same list, the new record included. */
  lemma AddThenReload(s: Snapshot, item: Type)
    requires Mirrored(s)
    ensures Loaded(AddEffect(s, item, true).store, true) == AddEffect(s, item, true)
    ensures Mirrored(AddEffect(s, item, true))
  {
  }

  // ---------------------------------------------------------------------------------------
  // Delete, as written

  /** The loop of `delete` computes the effect stated for it. */
  lemma {:induction false} DeleteSweepIsEffect(rest: seq<Type>, datas: seq<Type>, id: string)
    ensures DeleteSweep(rest, datas) == DeleteEffect(Snapshot(rest, datas), id, true, true)
    decreases |rest|
  {
    if rest != [] && rest[0].id !in Ids(datas) {
      DeleteSweepIsEffect(rest[1..], datas, id);
      var k := FirstIn(rest, Ids(datas));
      if k < |rest| {
        assert rest[1..][k - 1 + 1..] == rest[k + 1..];
      }
    }
  }

  /** `delete` with a successful fetch and saves, stated without reference to the search
      functions: when the `k`-th stored record is the first whose id occurs in `datas`, the store
      keeps the records after it, and the entry removed from `datas` is the first one with that
      record's id. */
  lemma DeleteRemovesFirstShared(s: Snapshot, id: string, k: nat)
    requires k < |s.store| && s.store[k].id in Ids(s.datas)
    requires forall j :: 0 <= j < k ==> s.store[j].id !in Ids(s.datas)
    ensures exists i :: (0 <= i < |s.datas| && s.datas[i].id == s.store[k].id &&
      (forall j :: 0 <= j < i ==> s.datas[j].id != s.store[k].id) &&
      DeleteEffect(s, id, true, true) == Snapshot(s.store[k + 1..], RemoveAt(s.datas, i)))
  {
    assert FirstIn(s.store, Ids(s.datas)) == k;
    FirstInFound(s.datas, s.store[k].id);
    var i := FirstIn(s.datas, {s.store[k].id});
    assert s.datas[i].id == s.store[k].id;
  }

  /** ... and when no stored id occurs in `datas`, the store loses every record. */
  lemma DeleteNoSharedClearsStore(s: Snapshot, id: string)
    requires forall j :: 0 <= j < |s.store| ==> s.store[j].id !in Ids(s.datas)
    ensures DeleteEffect(s, id, true, true) == Snapshot([], s.datas)
  {
  }

  /** `delete` removes at most one entry, and the remaining entries keep their relative order. */
  lemma DeleteRemovesAtMostOne(s: Snapshot, id: string, fetchOk: bool, saveOk: bool)
    ensures var r := DeleteEffect(s, id, fetchOk, saveOk);
      r.datas == s.datas || exists j :: 0 <= j < |s.datas| && r.datas == RemoveAt(s.datas, j)
  {
    if fetchOk && saveOk && s.store != [] {
      var k := FirstIn(s.store, Ids(s.datas));
      if k < |s.store| {
        FirstInFound(s.datas, s.store[k].id);
      }
    }
  }

  /** The store only ever loses a prefix of its records. */
  lemma DeleteKeepsStoreSuffix(s: Snapshot, id: string, fetchOk: bool, saveOk: bool)
    ensures var r := DeleteEffect(s, id, fetchOk, saveOk);
      exists n :: 0 <= n <= |s.store| && r.store == s.store[n..]
  {
    var r := DeleteEffect(s, id, fetchOk, saveOk);
    if !fetchOk || s.store == [] {
      assert r.store == s.store[0..];
    } else if !saveOk {
      assert r.store == s.store[1..];
    } else {
      var k := FirstIn(s.store, Ids(s.datas));
      if k < |s.store| {
        assert r.store == s.store[k + 1..];
      } else {
        assert r.store == s.store[|s.store|..];
      }
    }
  }

  /** The id argument has no influence on `delete`. */
  lemma DeleteIgnoresId(s: Snapshot, id1: string, id2: string, fetchOk: bool, saveOk: bool)
    ensures DeleteEffect(s, id1, fetchOk, saveOk) == DeleteEffect(s, id2, fetchOk, saveOk)
  {
  }

  /** `delete` on an empty store changes nothing. */
  lemma DeleteEmptyStore(s: Snapshot, id: string, fetchOk: bool, saveOk: bool)
    requires s.store == []
    ensures DeleteEffect(s, id, fetchOk, saveOk) == s
  {
  }

  /** On a mirrored store, `delete` drops the first entry, whatever id it is asked to delete,
      and the store stays mirrored. */
  lemma DeleteMirroredDropsFirst(s: Snapshot, id: string)
    requires Mirrored(s) && s.store != []
    ensures DeleteEffect(s, id, true, true) == Snapshot(s.store[1..], s.datas[1..])
    ensures Mirrored(DeleteEffect(s, id, true, true))
  {
    assert s.store[0].id in Ids(s.datas);
  }

  /** Three mirrored records with ids "1", "2", "3": asked to delete "2", `delete` as written
      removes "1" and keeps "2"; the corrected `delete` removes "2". */
  lemma DeleteTargetCounterexample(a: Type, b: Type, c: Type)
    requires a.id == "1" && b.id == "2" && c.id == "3"
    ensures var s := Snapshot([a, b, c], [a, b, c]);
      DeleteEffect(s, "2", true, true) == Snapshot([b, c], [b, c]) &&
      DeleteByIdEffect(s, "2", true, true) == Snapshot([a, c], [a, c])
  {
    var s := Snapshot([a, b, c], [a, b, c]);
    DeleteMirroredDropsFirst(s, "2");
    assert [a, b, c][1..] == [b, c];
    assert FirstIn([a, b, c], {"2"}) == 1;
    assert "2" in Ids([a, b, c]) by { assert [a, b, c][1].id == "2"; }
    assert RemoveAt([a, b, c], 1) == [a, c];
  }

  // ---------------------------------------------------------------------------------------
  // Delete, corrected

  /** The corrected `delete` on records whose first one carries another id keeps that record in
      front of what it does to the others. */
  lemma DeleteByIdPastOther(rest: seq<Type>, datas: seq<Type>, id: string, saveOk: bool)
    requires rest != [] && rest[0].id != id
    ensures var r := DeleteByIdEffect(Snapshot(rest, datas), id, true, saveOk);
      var t := DeleteByIdEffect(Snapshot(rest[1..], datas), id, true, saveOk);
      r == Snapshot([rest[0]] + t.store, t.datas)
  {
    var tail := rest[1..];
    assert rest == [rest[0]] + tail;
    var k := FirstIn(rest, {id});
    assert k == 1 + FirstIn(tail, {id});
    if k < |rest| {
      assert RemoveAt(rest, k) == [rest[0]] + RemoveAt(tail, k - 1);
    }
  }

  /** The corrected `delete` on records whose first one carries the id, with saves succeeding and
      no entry of `datas` carrying it, drops that record and proceeds as on the others. */
  lemma DeleteByIdAtUnlisted(rest: seq<Type>, datas: seq<Type>, id: string)
    requires rest != [] && rest[0].id == id && id !in Ids(datas)
    ensures DeleteByIdEffect(Snapshot(rest, datas), id, true, true)
         == DeleteByIdEffect(Snapshot(rest[1..], datas), id, true, true)
  {
    FirstInFound(rest[1..], id);
    if id !in Ids(rest[1..]) {
      DroppedAbsent(rest[1..], id);
    }
  }

  /** When the first record carries the id and the call ends there, its loop and its effect
      agree. */
  lemma DeleteByIdAtFirst(rest: seq<Type>, kept: seq<Type>, datas: seq<Type>, id: string, saveOk: bool)
    requires rest != [] && rest[0].id == id && (!saveOk || id in Ids(datas))
    ensures var r := DeleteByIdEffect(Snapshot(rest, datas), id, true, saveOk);
      DeleteByIdSweep(rest, kept, datas, id, saveOk) == Snapshot(kept + r.store, r.datas)
  {
    assert RemoveAt(rest, 0) == rest[1..];
  }

  /** The loop of the corrected `delete` computes the effect stated for it, after the records it
      already kept. */
  lemma {:induction false} DeleteByIdSweepIsEffect(rest: seq<Type>, kept: seq<Type>, datas: seq<Type>, id: string, saveOk: bool)
    ensures var r := DeleteByIdEffect(Snapshot(rest, datas), id, true, saveOk);
      DeleteByIdSweep(rest, kept, datas, id, saveOk) == Snapshot(kept + r.store, r.datas)
    decreases |rest|
  {
    if rest == [] {
      assert kept + [] == kept;
    } else if rest[0].id != id {
      DeleteByIdSweepIsEffect(rest[1..], kept + [rest[0]], datas, id, saveOk);
      DeleteByIdPastOther(rest, datas, id, saveOk);
      var t := DeleteByIdEffect(Snapshot(rest[1..], datas), id, true, saveOk);
      assert kept + [rest[0]] + t.store == kept + ([rest[0]] + t.store);
    } else if !saveOk || id in Ids(datas) {
      DeleteByIdAtFirst(rest, kept, datas, id, saveOk);
    } else {
      DeleteByIdSweepIsEffect(rest[1..], kept, datas, id, saveOk);
      DeleteByIdAtUnlisted(rest, datas, id);
    }
  }

  /** The corrected `delete` on a mirrored store that holds the id removes the first entry with
      that id from both sequences, which stay mirrored, and keeps every other entry in order. */
  lemma DeleteByIdMirrored(s: Snapshot, id: string)
    requires Mirrored(s) && id in Ids(s.datas)
    ensures var r := DeleteByIdEffect(s, id, true, true); var k := FirstIn(s.datas, {id});
      k < |s.datas| && s.datas[k].id == id && (forall j :: 0 <= j < k ==> s.datas[j].id != id) &&
      r == Snapshot(RemoveAt(s.store, k), RemoveAt(s.datas, k)) && Mirrored(r)
  {
    FirstInFound(s.datas, id);
  }

  /** The corrected `delete` only deletes records carrying the id, and leaves `datas` alone when
      no entry carries it. */
  lemma DeleteByIdOnlyTarget(s: Snapshot, id: string, fetchOk: bool, saveOk: bool)
    ensures var r := DeleteByIdEffect(s, id, fetchOk, saveOk);
      Dropped(r.store, id) == Dropped(s.store, id) &&
      (forall t :: t in s.store && t.id != id ==> t in r.store) &&
      (id !in Ids(s.datas) ==> r.datas == s.datas)
  {
    var r := DeleteByIdEffect(s, id, fetchOk, saveOk);
    var k := FirstIn(s.store, {id});
    if fetchOk && k < |s.store| && (!saveOk || id in Ids(s.datas)) {
      DroppedRemoveAt(s.store, k, id);
    } else if fetchOk && k < |s.store| {
      DroppedIdempotent(s.store, id);
    }
    DroppedMembers(s.store, id);
    DroppedMembers(r.store, id);
  }

  /** The corrected `delete` of an id that some stored record carries deletes at least one
      record, whatever the outcome of the save. */
  lemma DeleteByIdRemovesTarget(s: Snapshot, id: string, saveOk: bool)
    requires id in Ids(s.store)
    ensures |DeleteByIdEffect(s, id, true, saveOk).store| < |s.store|
  {
    FirstInFound(s.store, id);
    if saveOk && id !in Ids(s.datas) {
      DroppedShorter(s.store, id);
    }
  }

  // ---------------------------------------------------------------------------------------
  // Update

  /** `update` on records whose first one carries another id keeps that record in front of
      what it does to the others. */
  lemma UpdatePastOther(rest: seq<Type>, datas: seq<Type>, id: string, title: string, msg: string, saveOk: bool)
    requires rest != [] && rest[0].id != id
    ensures var r := UpdateEffect(Snapshot(rest, datas), id, title, msg, true, saveOk);
      var t := UpdateEffect(Snapshot(rest[1..], datas), id, title, msg, true, saveOk);
      r == Snapshot([rest[0]] + t.store, t.datas)
  {
    var tail := rest[1..];
    IdsCons(rest);
    assert rest == [rest[0]] + tail;
    var k := FirstIn(rest, {id});
    assert k == 1 + FirstIn(tail, {id});
    if !saveOk && k < |rest| {
      assert rest[k := Edited(rest[k], title, msg)] == [rest[0]] + tail[k - 1 := Edited(tail[k - 1], title, msg)];
    }
  }

  /** `update` on records whose first one carries the id, with saves succeeding, retitles that
      record and then proceeds as on the others with `datas` already retitled. */
  lemma UpdateAtTarget(rest: seq<Type>, datas: seq<Type>, id: string, title: string, msg: string)
    requires rest != [] && rest[0].id == id
    ensures var r := UpdateEffect(Snapshot(rest, datas), id, title, msg, true, true);
      var t := UpdateEffect(Snapshot(rest[1..], Retitled(datas, id, title, msg)), id, title, msg, true, true);
      r == Snapshot([Edited(rest[0], title, msg)] + t.store, t.datas)
  {
    IdsCons(rest);
    RetitledIdempotent(datas, id, title, msg);
  }

  /** The loop of `update` computes the effect stated for it, after the records it already
      visited. */
  lemma {:induction false} UpdateSweepIsEffect(rest: seq<Type>, done: seq<Type>, datas: seq<Type>, id: string, title: string, msg: string, saveOk: bool)
    ensures var r := UpdateEffect(Snapshot(rest, datas), id, title, msg, true, saveOk);
      UpdateSweep(rest, done, datas, id, title, msg, saveOk) == Snapshot(done + r.store, r.datas)
    decreases |rest|
  {
    if rest == [] {
      assert done + [] == done;
    } else if rest[0].id != id {
      UpdateSweepIsEffect(rest[1..], done + [rest[0]], datas, id, title, msg, saveOk);
      UpdatePastOther(rest, datas, id, title, msg, saveOk);
      var t := UpdateEffect(Snapshot(rest[1..], datas), id, title, msg, true, saveOk);
      assert done + [rest[0]] + t.store == done + ([rest[0]] + t.store);
    } else if saveOk {
      var e := Edited(rest[0], title, msg);
      var d := Retitled(datas, id, title, msg);
      UpdateSweepIsEffect(rest[1..], done + [e], d, id, title, msg, saveOk);
      UpdateAtTarget(rest, datas, id, title, msg);
      var t := UpdateEffect(Snapshot(rest[1..], d), id, title, msg, true, true);
      assert done + [e] + t.store == done + ([e] + t.store);
    } else {
      assert rest == [rest[0]] + rest[1..];
      assert rest[0 := Edited(rest[0], title, msg)] == [Edited(rest[0], title, msg)] + rest[1..];
    }
  }

  /** `update` keeps the length of `datas` and the id, time and day of every entry, leaves the
      entries with another id unchanged, and gives the entries with the id the new title and
      message when the store holds a record with that id (and fetch and save succeed). */
  lemma UpdateShape(s: Snapshot, id: string, title: string, msg: string, fetchOk: bool, saveOk: bool)
    ensures var r := UpdateEffect(s, id, title, msg, fetchOk, saveOk);
      |r.datas| == |s.datas| && |r.store| == |s.store| &&
      (forall i :: 0 <= i < |s.datas| ==>
        r.datas[i].id == s.datas[i].id && r.datas[i].time == s.datas[i].time && r.datas[i].day == s.datas[i].day) &&
      (forall i :: 0 <= i < |s.datas| && s.datas[i].id != id ==> r.datas[i] == s.datas[i]) &&
      (fetchOk && saveOk && id in Ids(s.store) ==>
        forall i :: 0 <= i < |s.datas| && s.datas[i].id == id ==> r.datas[i].title == title && r.datas[i].msg == msg)
  {
    RetitledMeaning(s.datas, id, title, msg);
  }

  /** `update` of an id no stored record carries changes nothing. */
  lemma UpdateAbsentNoop(s: Snapshot, id: string, title: string, msg: string, fetchOk: bool, saveOk: bool)
    requires id !in Ids(s.store)
    ensures UpdateEffect(s, id, title, msg, fetchOk, saveOk) == s
  {
    FirstInFound(s.store, id);
    RetitledAbsent(s.store, id, title, msg);
  }

  /** Calling `update` twice with the same arguments (and outcomes) is calling it once. */
  lemma UpdateIdempotent(s: Snapshot, id: string, title: string, msg: string, fetchOk: bool, saveOk: bool)
    ensures var once := UpdateEffect(s, id, title, msg, fetchOk, saveOk);
      UpdateEffect(once, id, title, msg, fetchOk, saveOk) == once
  {
    var once := UpdateEffect(s, id, title, msg, fetchOk, saveOk);
    if fetchOk && saveOk {
      RetitledIds(s.store, id, title, msg);
      RetitledIdempotent(s.store, id, title, msg);
      RetitledIdempotent(s.datas, id, title, msg);
    } else if fetchOk {
      var k := FirstIn(s.store, {id});
      if k < |s.store| {
        assert forall j :: 0 <= j < |s.store| ==> once.store[j].id == s.store[j].id;
      }
    }
  }

  /** A successful `update` keeps a mirrored store mirrored. */
  lemma UpdateKeepsMirrored(s: Snapshot, id: string, title: string, msg: string)
    requires Mirrored(s)
    ensures Mirrored(UpdateEffect(s, id, title, msg, true, true))
  {
    if id !in Ids(s.store) {
      RetitledAbsent(s.store, id, title, msg);
    }
  }

  // ---------------------------------------------------------------------------------------
  // Save button

  /** Saving an existing entry edits in place: the list keeps its length and its ids. */
  lemma SaveExistingEditsInPlace(s: Snapshot, selectedId: string, title: string, msg: string, date: Stamp, fetchOk: bool, saveOk: bool)
    requires selectedId != ""
    ensures var r := SaveEffect(s, selectedId, title, msg, date, fetchOk, saveOk);
      |r.datas| == |s.datas| && (forall i :: 0 <= i < |s.datas| ==> r.datas[i].id == s.datas[i].id)
  {
    UpdateShape(s, selectedId, title, msg, fetchOk, saveOk);
  }

  /** Saving a blank entry adds one record carrying the typed title and message. */
  lemma SaveBlankAppends(s: Snapshot, title: string, msg: string, date: Stamp, fetchOk: bool)
    ensures var r := SaveEffect(s, "", title, msg, date, fetchOk, true);
      r.datas == s.datas + [Type(date.id, title, msg, date.time, date.day)]
  {
  }
}
