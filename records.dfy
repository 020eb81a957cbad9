/** The to-do record and the sequence operations the record store is specified with. */
module Records {

  /** One to-do entry (Swift's `struct Type`): five strings, all mandatory. */
  datatype Type = Type(id: string, title: string, msg: string, time: string, day: string)

  /** The three strings `add` derives from the current date: the id (the epoch seconds printed
      as a string), the clock time and the calendar day. Their formatting is not modelled. */
  datatype Stamp = Stamp(id: string, time: string, day: string)

  /** The record `add` builds from the user's title and message and the derived stamp. */
  function NewRecord(title: string, msg: string, date: Stamp): Type {
    Type(date.id, title, msg, date.time, date.day)
  }

  /** The ids carried by the records of `s`. */
  function Ids(s: seq<Type>): set<string> {
    set i | 0 <= i < |s| :: s[i].id
  }

  /** The ids of a non-empty sequence are its first id and the ids of the rest. */
  lemma IdsCons(s: seq<Type>)
    requires s != []
    ensures Ids(s) == {s[0].id} + Ids(s[1..])
  {
    forall x | x in Ids(s) ensures x in {s[0].id} + Ids(s[1..]) {
      var i :| 0 <= i < |s| && s[i].id == x;
      if i > 0 {
        assert s[1..][i - 1].id == x;
      }
    }
    forall x | x in Ids(s[1..]) ensures x in Ids(s) {
      var i :| 0 <= i < |s[1..]| && s[1..][i].id == x;
      assert s[i + 1].id == x;
    }
  }

  /** Index of the first record of `s` whose id is in `ids`, or `|s|` when there is none. */
  function FirstIn(s: seq<Type>, ids: set<string>): (k: nat)
    ensures k <= |s|
    ensures forall j :: 0 <= j < k ==> s[j].id !in ids
    ensures k < |s| ==> s[k].id in ids
  {
    if s == [] || s[0].id in ids then 0 else 1 + FirstIn(s[1..], ids)
  }

  /** A record with the given id is found exactly when the id occurs in `s`. */
  lemma FirstInFound(s: seq<Type>, id: string)
    ensures FirstIn(s, {id}) < |s| <==> id in Ids(s)
  {
    var k := FirstIn(s, {id});
    if id in Ids(s) {
      var j :| 0 <= j < |s| && s[j].id == id;
      assert k <= j;
    }
  }

  /** `s` without its `k`-th element; the others keep their order. */
  function RemoveAt(s: seq<Type>, k: nat): seq<Type>
    requires k < |s|
  {
    s[..k] + s[k + 1..]
  }

  /** `t` with its title and message replaced. */
  function Edited(t: Type, title: string, msg: string): Type {
    t.(title := title, msg := msg)
  }

  /** `t` edited when it carries the id, `t` itself otherwise. */
  function Retitle(t: Type, id: string, title: string, msg: string): Type {
    if t.id == id then Edited(t, title, msg) else t
  }

  /** `s` with the title and message of every record whose id is `id` replaced. */
  function Retitled(s: seq<Type>, id: string, title: string, msg: string): (r: seq<Type>)
    ensures |r| == |s|
  {
    if s == [] then [] else [Retitle(s[0], id, title, msg)] + Retitled(s[1..], id, title, msg)
  }

  /** Retitling keeps the length and the id, time and day of every record, leaves the records
      with another id as they are, and gives those with the id the new title and message. */
  lemma {:induction false} RetitledMeaning(s: seq<Type>, id: string, title: string, msg: string)
    ensures var r := Retitled(s, id, title, msg);
      (forall i :: 0 <= i < |s| ==> r[i].id == s[i].id && r[i].time == s[i].time && r[i].day == s[i].day) &&
      (forall i :: 0 <= i < |s| && s[i].id != id ==> r[i] == s[i]) &&
      (forall i :: 0 <= i < |s| && s[i].id == id ==> r[i] == Type(s[i].id, title, msg, s[i].time, s[i].day))
  {
    if s != [] {
      RetitledMeaning(s[1..], id, title, msg);
      var r := Retitled(s, id, title, msg);
      assert forall i :: 1 <= i < |s| ==> r[i] == Retitled(s[1..], id, title, msg)[i - 1];
    }
  }

  /** Retitling one more record of a prefix: the loop step of `update`'s inner loop. */
  lemma RetitledStep(s: seq<Type>, k: nat, id: string, title: string, msg: string)
    requires k < |s|
    ensures Retitled(s[..k + 1], id, title, msg) + s[k + 1..]
         == (Retitled(s[..k], id, title, msg) + s[k..])[k := Retitle(s[k], id, title, msg)]
  {
    RetitledMeaning(s[..k + 1], id, title, msg);
    RetitledMeaning(s[..k], id, title, msg);
    var a := Retitled(s[..k + 1], id, title, msg) + s[k + 1..];
    var b := (Retitled(s[..k], id, title, msg) + s[k..])[k := Retitle(s[k], id, title, msg)];
    forall j | 0 <= j < |s| ensures a[j] == b[j] {
      if j == k && s[k].id == id {
        assert a[j] == Type(s[k].id, title, msg, s[k].time, s[k].day);
      }
    }
  }

  /** Retitling keeps the ids. */
  lemma RetitledIds(s: seq<Type>, id: string, title: string, msg: string)
    ensures Ids(Retitled(s, id, title, msg)) == Ids(s)
  {
    var r := Retitled(s, id, title, msg);
    RetitledMeaning(s, id, title, msg);
    forall x | x in Ids(r) ensures x in Ids(s) {
      var i :| 0 <= i < |r| && r[i].id == x;
      assert s[i].id == x;
    }
    forall x | x in Ids(s) ensures x in Ids(r) {
      var i :| 0 <= i < |s| && s[i].id == x;
      assert r[i].id == x;
    }
  }

  /** Retitling twice with the same arguments is retitling once. */
  lemma RetitledIdempotent(s: seq<Type>, id: string, title: string, msg: string)
    ensures Retitled(Retitled(s, id, title, msg), id, title, msg) == Retitled(s, id, title, msg)
  {
    var r := Retitled(s, id, title, msg);
    var rr := Retitled(r, id, title, msg);
    RetitledMeaning(s, id, title, msg);
    RetitledMeaning(r, id, title, msg);
    forall i | 0 <= i < |s| ensures rr[i] == r[i] {
      if s[i].id == id {
        assert rr[i] == Type(r[i].id, title, msg, r[i].time, r[i].day);
      }
    }
  }

  /** Retitling an id that does not occur changes nothing. */
  lemma RetitledAbsent(s: seq<Type>, id: string, title: string, msg: string)
    requires id !in Ids(s)
    ensures Retitled(s, id, title, msg) == s
  {
    var r := Retitled(s, id, title, msg);
    RetitledMeaning(s, id, title, msg);
    forall i | 0 <= i < |s| ensures r[i] == s[i] {
      assert s[i].id in Ids(s);
    }
  }

  /** `s` without the records whose id is `id`, the others in their order. */
  function Dropped(s: seq<Type>, id: string): (r: seq<Type>)
    ensures |r| <= |s|
  {
    if s == [] then [] else (if s[0].id == id then [] else [s[0]]) + Dropped(s[1..], id)
  }

  /** Dropping an id that does not occur changes nothing. */
  lemma {:induction false} DroppedAbsent(s: seq<Type>, id: string)
    requires id !in Ids(s)
    ensures Dropped(s, id) == s
  {
    if s != [] {
      IdsCons(s);
      DroppedAbsent(s[1..], id);
      assert s == [s[0]] + s[1..];
    }
  }

  /** Dropping keeps exactly the records that carry another id. */
  lemma {:induction false} DroppedMembers(s: seq<Type>, id: string)
    ensures forall t :: t in Dropped(s, id) <==> t in s && t.id != id
  {
    if s != [] {
      DroppedMembers(s[1..], id);
      assert s == [s[0]] + s[1..];
    }
  }

  /** Dropping from a sequence that starts with `t`. */
  lemma DroppedCons(t: Type, rest: seq<Type>, id: string)
    ensures Dropped([t] + rest, id) == (if t.id == id then [] else [t]) + Dropped(rest, id)
  {
    assert ([t] + rest)[0] == t && ([t] + rest)[1..] == rest;
  }

  /** Removing a record that carries the id leaves what dropping the id keeps unchanged. */
  lemma {:induction false} DroppedRemoveAt(s: seq<Type>, k: nat, id: string)
    requires k < |s| && s[k].id == id
    ensures Dropped(RemoveAt(s, k), id) == Dropped(s, id)
    decreases k
  {
    if k == 0 {
      assert RemoveAt(s, 0) == s[1..];
    } else {
      DroppedRemoveAt(s[1..], k - 1, id);
      assert RemoveAt(s, k) == [s[0]] + RemoveAt(s[1..], k - 1);
      DroppedCons(s[0], RemoveAt(s[1..], k - 1), id);
    }
  }

  /** Dropping twice is dropping once. */
  lemma {:induction false} DroppedIdempotent(s: seq<Type>, id: string)
    ensures Dropped(Dropped(s, id), id) == Dropped(s, id)
  {
    if s != [] {
      DroppedIdempotent(s[1..], id);
      if s[0].id != id {
        DroppedCons(s[0], Dropped(s[1..], id), id);
      } else {
        assert Dropped(s, id) == Dropped(s[1..], id);
      }
    }
  }

  /** Dropping an id that occurs removes at least one record. */
  lemma {:induction false} DroppedShorter(s: seq<Type>, id: string)
    requires id in Ids(s)
    ensures |Dropped(s, id)| < |s|
  {
    IdsCons(s);
    if s[0].id != id {
      DroppedShorter(s[1..], id);
    }
  }
}
