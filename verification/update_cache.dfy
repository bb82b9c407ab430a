/** The bulk re-sync of `UpdateCacheOperation.main`: given the snapshot of
    items fetched from the backend, flush the local list and then, for each
    snapshot item in order, replace the stored item with that identifier
    or append the item when none is stored.

    Because the list is flushed first, the result depends on the snapshot
    alone: local items whose identifiers the snapshot lacks do not survive. */
module UpdateCache {
  import opened Wrappers
  import opened Uuids
  import opened TodoItems
  import opened FileCache

  /** One loop iteration: update in place, or add when the update failed. */
  function Upsert(items: Items, x: Item): (r: Items)
    ensures x.id in IdSet(items) ==> r == items[FirstIndex(items, x.id).value := x]
    ensures x.id !in IdSet(items) ==> r == items + [x]
  {
    var u := Update(items, x.id, x);
    if u.ok then u.items else Add(items, x)
  }

  /** The loop over the snapshot. */
  function UpsertAll(items: Items, snapshot: Items): (r: Items)
    ensures |items| <= |r| <= |items| + |snapshot|
    ensures |snapshot| == 0 ==> r == items
    decreases |snapshot|
  {
    if |snapshot| == 0 then items
    else UpsertAll(Upsert(items, snapshot[0]), snapshot[1..])
  }

  /** The last item of the snapshot with the identifier: the one whose
      replacement survives the loop. */
  function LastWithId(s: Items, id: Uuid): (r: Option<Item>)
    ensures r.None? <==> id !in IdSet(s)
    ensures r.Some? ==> exists i :: 0 <= i < |s| && s[i] == r.value && r.value.id == id &&
                                    forall j :: i < j < |s| ==> s[j].id != id
    decreases |s|
  {
    if |s| == 0 then None
    else
      IdSetCons(s);
      var later := LastWithId(s[1..], id);
      if later.Some? then
        var i :| 0 <= i < |s[1..]| && s[1..][i] == later.value && later.value.id == id &&
                 forall j :: i < j < |s[1..]| ==> s[1..][j].id != id;
        assert s[i + 1] == later.value;
        later
      else if s[0].id == id then
        assert forall j :: 0 < j < |s| ==> s[j].id in IdSet(s[1..]) by {
          forall j | 0 < j < |s| ensures s[j].id in IdSet(s[1..]) {
            assert s[1..][j - 1] == s[j];
          }
        }
        Some(s[0])
      else None
  }

  /** The outcome of `main()`: the local list afterwards, and whether
      `finish()` was called. */
  datatype Outcome = Outcome(items: Items, finishCalled: bool)

  /** `UpdateCacheOperation.main`. Without a snapshot it returns at once,
      leaving the list alone and without calling `finish()`. With one, the
      list ends up holding each snapshot identifier exactly once, with the
      snapshot's last item for it, and nothing else. */
  function UpdateCacheMain(items: Items, newItems: Option<Items>): (r: Outcome)
    ensures newItems.None? ==> r == Outcome(items, false)
    ensures newItems.Some? ==> r.finishCalled
    ensures newItems.Some? ==> IdSet(r.items) == IdSet(newItems.value)
    ensures newItems.Some? ==> DistinctIds(r.items)
    ensures newItems.Some? ==> forall id :: Get(r.items, id) == LastWithId(newItems.value, id)
  {
    match newItems
    case None => Outcome(items, false)
    case Some(snapshot) =>
      var flushed := Flush(items);
      UpsertAllIds(flushed, snapshot);
      UpsertAllDistinct(flushed, snapshot);
      forall id ensures Get(UpsertAll(flushed, snapshot), id) == LastWithId(snapshot, id) {
        UpsertAllGet(flushed, snapshot, id);
      }
      Outcome(UpsertAll(flushed, snapshot), true)
  }

  lemma UpsertIds(items: Items, x: Item)
    ensures IdSet(Upsert(items, x)) == IdSet(items) + {x.id}
  {
    var u := Update(items, x.id, x);
    if u.ok {
      var i := FirstIndex(items, x.id).value;
      forall id | id in IdSet(u.items) ensures id in IdSet(items) {
        var k :| 0 <= k < |u.items| && u.items[k].id == id;
        assert items[if k == i then i else k].id == id;
      }
      forall id | id in IdSet(items) ensures id in IdSet(u.items) {
        var k :| 0 <= k < |items| && items[k].id == id;
        assert u.items[k].id == id;
      }
    }
  }

  lemma UpsertDistinct(items: Items, x: Item)
    requires DistinctIds(items)
    ensures DistinctIds(Upsert(items, x))
  {
    UpdatePreservesDistinct(items, x.id, x);
    AddPreservesDistinct(items, x);
  }

  /** Replacing the first item with an identifier by an item of the same
      identifier: that identifier now finds the new item, the others find
      what they found before. */
  lemma ReplaceGet(items: Items, i: nat, x: Item, id: Uuid)
    requires FirstIndex(items, x.id) == Some(i)
    ensures Get(items[i := x], id) == if id == x.id then Some(x) else Get(items, id)
  {
    var r := items[i := x];
    if id == x.id {
      FirstIndexIs(r, id, i);
    } else {
      match FirstIndex(items, id)
      case None =>
        forall k | 0 <= k < |r| ensures r[k].id != id {
          if k != i { assert items[k].id in IdSet(items); }
        }
        assert id !in IdSet(r);
      case Some(k) =>
        assert r[k] == items[k];
        FirstIndexIs(r, id, k);
    }
  }

  /** Appending an item whose identifier is new: that identifier now finds
      it, the others find what they found before. */
  lemma AppendGet(items: Items, x: Item, id: Uuid)
    requires x.id !in IdSet(items)
    ensures Get(items + [x], id) == if id == x.id then Some(x) else Get(items, id)
  {
    if id == x.id {
      AddThenGet(items, x);
    } else {
      match FirstIndex(items, id)
      case None =>
        IdSetAppend(items, x);
      case Some(k) =>
        assert (items + [x])[k] == items[k];
        FirstIndexIs(items + [x], id, k);
    }
  }

  /** After one iteration the item is found under its identifier, and every
      other identifier finds what it found before. */
  lemma UpsertGet(items: Items, x: Item, id: Uuid)
    ensures Get(Upsert(items, x), id) == if id == x.id then Some(x) else Get(items, id)
  {
    match FirstIndex(items, x.id)
    case Some(i) => ReplaceGet(items, i, x, id);
    case None => AppendGet(items, x, id);
  }

  lemma {:induction false} UpsertAllIds(items: Items, s: Items)
    ensures IdSet(UpsertAll(items, s)) == IdSet(items) + IdSet(s)
    decreases |s|
  {
    if |s| > 0 {
      UpsertIds(items, s[0]);
      UpsertAllIds(Upsert(items, s[0]), s[1..]);
      IdSetCons(s);
    }
  }

  lemma {:induction false} UpsertAllDistinct(items: Items, s: Items)
    requires DistinctIds(items)
    ensures DistinctIds(UpsertAll(items, s))
    decreases |s|
  {
    if |s| > 0 {
      UpsertDistinct(items, s[0]);
      UpsertAllDistinct(Upsert(items, s[0]), s[1..]);
    }
  }

  /** After the loop, an identifier of the snapshot finds the snapshot's last
      item for it; any other identifier finds what it found before. */
  lemma {:induction false} UpsertAllGet(items: Items, s: Items, id: Uuid)
    ensures Get(UpsertAll(items, s), id) ==
            if LastWithId(s, id).Some? then LastWithId(s, id) else Get(items, id)
    decreases |s|
  {
    if |s| > 0 {
      UpsertGet(items, s[0], id);
      UpsertAllGet(Upsert(items, s[0]), s[1..], id);
    }
  }

  /** Applying a snapshot to any list gives the same result as applying it
      to the result again: the re-sync is idempotent, and in fact forgets
      the list it started from. */
  lemma ResyncIdempotent(items: Items, other: Items, snapshot: Items)
    ensures UpdateCacheMain(UpdateCacheMain(items, Some(snapshot)).items, Some(snapshot)) ==
            UpdateCacheMain(items, Some(snapshot))
    ensures UpdateCacheMain(other, Some(snapshot)) == UpdateCacheMain(items, Some(snapshot))
  {
  }

  /** A local item whose identifier the snapshot lacks is gone after the
      re-sync, even though it may never have reached the backend. */
  lemma ResyncDropsLocalOnly(items: Items, snapshot: Items, x: Item)
    requires x in items && x.id !in IdSet(snapshot)
    ensures x !in UpdateCacheMain(items, Some(snapshot)).items
  {
    var r := UpdateCacheMain(items, Some(snapshot)).items;
    forall k | 0 <= k < |r| ensures r[k] != x {
      assert r[k].id in IdSet(r);
    }
  }

  /** The loop over `s + [x]` is the loop over `s` followed by one more
      iteration. */
  lemma {:induction false} UpsertAllSnoc(items: Items, s: Items, x: Item)
    ensures UpsertAll(items, s + [x]) == Upsert(UpsertAll(items, s), x)
    decreases |s|
  {
    if |s| == 0 {
      assert [x][1..] == [];
    } else {
      assert (s + [x])[0] == s[0];
      assert (s + [x])[1..] == s[1..] + [x];
      UpsertAllSnoc(Upsert(items, s[0]), s[1..], x);
    }
  }

  /** For a snapshot without repeated identifiers the re-synced list is the
      snapshot itself, in the same order. */
  lemma {:induction false} ResyncOfDistinctSnapshot(items: Items, snapshot: Items)
    requires DistinctIds(snapshot)
    ensures UpdateCacheMain(items, Some(snapshot)).items == snapshot
    decreases |snapshot|
  {
    if |snapshot| > 0 {
      var init := snapshot[..|snapshot| - 1];
      var x := snapshot[|snapshot| - 1];
      assert snapshot == init + [x];
      assert DistinctIds(init);
      ResyncOfDistinctSnapshot(items, init);
      UpsertAllSnoc([], init, x);
      forall k | 0 <= k < |init| ensures init[k].id != x.id {
        assert snapshot[k].id != snapshot[|snapshot| - 1].id;
      }
      assert x.id !in IdSet(init);
    }
  }
}
