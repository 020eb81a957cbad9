/** The record store behind the to-do list (Swift's `class Observer`) and the Save button that
    calls it. The persistence context is the field `store`: what a fetch returns, in fetch order.
    Whether the fetch and the saves of one call succeed is given by the caller. */
module TodoStore {
  import opened Records
  import opened Effects

  class Observer {
    /** The in-memory list shown by the to-do screen. */
    var datas: seq<Type>
    /** The records of the persistence context. */
    var store: seq<Type>

    function State(): Snapshot
      reads this
    {
      Snapshot(store, datas)
    }

    /** Fetches every record of `table` and appends each, in fetch order. */
    constructor (table: seq<Type>, fetchOk: bool)
      ensures State() == Loaded(table, fetchOk)
      ensures fetchOk ==> Mirrored(State())
    {
      store := table;
      datas := [];
      new;
      if fetchOk {
        var res := store;
        for k := 0 to |res|
          invariant store == res && datas == res[..k]
        {
          datas := datas + [res[k]];
        }
      }
    }

    /** Inserts a record built from `title`, `msg` and the stamp derived from the date, saves,
        and appends the record to `datas` once the save succeeded. */
    method Add(title: string, msg: string, date: Stamp, saveOk: bool)
      modifies this
      ensures State() == AddEffect(old(State()), NewRecord(title, msg, date), saveOk)
      ensures saveOk && old(Mirrored(State())) ==> Mirrored(State())
    {
      var entity := Type(date.id, title, msg, date.time, date.day);
      store := store + [entity];
      if saveOk {
        datas := datas + [Type(date.id, title, msg, date.time, date.day)];
      }
    }

    /** `delete(id)` as written: the loop's own `id` hides the argument, so every fetched record
        passes the test; each is deleted and saved, and the first whose id occurs in `datas`
        removes the first entry with that id and ends the call. */
    method Delete(id: string, fetchOk: bool, saveOk: bool)
      modifies this
      ensures State() == DeleteEffect(old(State()), id, fetchOk, saveOk)
      ensures |old(datas)| - 1 <= |datas| <= |old(datas)|
    {
      if !fetchOk {
        return;
      }
      var res := store;
      DeleteSweepIsEffect(res, datas, id);
      for k := 0 to |res|
        invariant store == res[k..]
        invariant datas == old(datas)
        invariant k > 0 ==> saveOk
        invariant DeleteSweep(res, datas) == DeleteSweep(res[k..], datas)
      {
        var id := res[k].id;
        if res[k].id == id {
          store := store[1..];
          if !saveOk {
            return;
          }
          var i := FindEntry(datas, id);
          if i < |datas| {
            datas := datas[..i] + datas[i + 1..];
            return;
          }
        }
      }
    }

    /** `delete(id)` with the comparison against the argument restored: only records with that id
        are deleted; the first of them whose id occurs in `datas` removes the first entry with it
        and ends the call. */
    method DeleteById(id: string, fetchOk: bool, saveOk: bool)
      modifies this
      ensures State() == DeleteByIdEffect(old(State()), id, fetchOk, saveOk)
    {
      if !fetchOk {
        return;
      }
      DeleteByIdSweepIsEffect(store, [], datas, id, saveOk);
      DeleteMatching(id, saveOk);
    }

    /** The loop of the corrected `delete` over the fetched records. */
    method DeleteMatching(id: string, saveOk: bool)
      modifies this
      ensures State() == DeleteByIdSweep(old(store), [], old(datas), id, saveOk)
    {
      var res := store;
      var pos := 0;
      ghost var kept: seq<Type> := [];
      for k := 0 to |res|
        invariant store == kept + res[k..] && pos == |kept|
        invariant datas == old(datas)
        invariant DeleteByIdSweep(res[k..], kept, datas, id, saveOk) == DeleteByIdSweep(res, [], datas, id, saveOk)
      {
        DeleteByIdSweepStep(res[k..], kept, datas, id, saveOk);
        assert res[k..][0] == res[k] && res[k..][1..] == res[k + 1..];
        if res[k].id == id {
          assert store[..pos] == kept && store[pos + 1..] == res[k + 1..];
          store := store[..pos] + store[pos + 1..];
          if !saveOk {
            return;
          }
          var i := FindEntry(datas, id);
          if i < |datas| {
            datas := datas[..i] + datas[i + 1..];
            return;
          }
        } else {
          kept := kept + [res[k]];
          pos := pos + 1;
        }
      }
    }

    /** Gives every entry of `datas` with the id the new title and message, in place. */
    method RetitleEntries(id: string, title: string, msg: string)
      modifies this
      ensures datas == Retitled(old(datas), id, title, msg)
      ensures store == old(store)
    {
      for i := 0 to |datas|
        invariant store == old(store)
        invariant datas == Retitled(old(datas)[..i], id, title, msg) + old(datas)[i..]
      {
        RetitledStep(old(datas), i, id, title, msg);
        ghost var current := datas;
        if datas[i].id == id {
          datas := datas[i := datas[i].(msg := msg)];
          datas := datas[i := datas[i].(title := title)];
        }
        assert datas == current[i := Retitle(old(datas)[i], id, title, msg)];
      }
      assert old(datas)[..|datas|] == old(datas);
    }

    /** Retitles every stored record with the id, saving after each, and after each such record
        gives every entry of `datas` with the id the new title and message. */
    method Update(id: string, title: string, msg: string, date: Stamp, fetchOk: bool, saveOk: bool)
      modifies this
      ensures State() == UpdateEffect(old(State()), id, title, msg, fetchOk, saveOk)
      ensures fetchOk && saveOk && old(Mirrored(State())) ==> Mirrored(State())
    {
      if !fetchOk {
        return;
      }
      UpdateSweepIsEffect(store, [], datas, id, title, msg, saveOk);
      RetitleMatching(id, title, msg, saveOk);
      if old(Mirrored(State())) && saveOk {
        UpdateKeepsMirrored(old(State()), id, title, msg);
      }
    }

    /** The loop of `update` over the fetched records. */
    method RetitleMatching(id: string, title: string, msg: string, saveOk: bool)
      modifies this
      ensures State() == UpdateSweep(old(store), [], old(datas), id, title, msg, saveOk)
    {
      var res := store;
      for k := 0 to |res|
        invariant |store| == |res| && store[k..] == res[k..]
        invariant UpdateSweep(res[k..], store[..k], datas, id, title, msg, saveOk)
               == UpdateSweep(res, [], old(datas), id, title, msg, saveOk)
      {
        assert res[k..][0] == res[k] && res[k..][1..] == res[k + 1..];
        ghost var before := store;
        if res[k].id == id {
          store := store[k := store[k].(msg := msg)];
          store := store[k := store[k].(title := title)];
          assert store[..k + 1] == before[..k] + [Edited(res[k], title, msg)];
          assert store[k + 1..] == res[k + 1..];
          if !saveOk {
            assert store == before[..k] + [Edited(res[k], title, msg)] + res[k + 1..];
            return;
          }
          RetitleEntries(id, title, msg);
        } else {
          assert store[..k + 1] == store[..k] + [res[k]];
        }
      }
      assert store[..|res|] == store;
    }
  }

  /** The search of `delete`'s inner loop: the index of the first entry with the id, `|datas|`
      when there is none. */
  method FindEntry(datas: seq<Type>, id: string) returns (i: nat)
    ensures i <= |datas|
    ensures i < |datas| ==> datas[i].id == id && (forall j :: 0 <= j < i ==> datas[j].id != id)
    ensures i == |datas| <==> id !in Ids(datas)
    ensures i == FirstIn(datas, {id})
  {
    i := 0;
    while i < |datas| && datas[i].id != id
      invariant i <= |datas|
      invariant forall j :: 0 <= j < i ==> datas[j].id != id
    {
      i := i + 1;
    }
    FirstInFound(datas, id);
  }

  /** The Save button of the edit sheet: updates the selected entry when it has an id, and adds
      a new one otherwise. */
  method SaveTapped(obs: Observer, selected: Type, title: string, msg: string, date: Stamp, fetchOk: bool, saveOk: bool)
    modifies obs
    ensures obs.State() == SaveEffect(old(obs.State()), selected.id, title, msg, date, fetchOk, saveOk)
  {
    if selected.id != "" {
      obs.Update(selected.id, title, msg, date, fetchOk, saveOk);
    } else {
      obs.Add(title, msg, date, saveOk);
    }
  }
}
