/** The database side of the local cache: `TodoItemDBModel` records, their
    conversion to and from items (`fill(with:)` and `init?(from:)`), and
    the record-level rules of `CoreDataStorage`.

    The managed-object context is modelled as a sequence of records. Nothing
    in the database keeps identifiers unique, so the sequence may hold
    several records with the same identifier; `update`, `remove` and `get`
    act only when exactly one record matches. */
module CoreDataStorage {
  import opened Wrappers
  import opened Uuids
  import opened TodoItems

  /** The attribute type of the stored priority. */
  type Int32 = i: int | -0x8000_0000 <= i < 0x8000_0000

  /** The transformable colour attribute holds an object: normally the
      colour written by `fill`, but the schema allows any object. */
  datatype StoredObject = StoredColour(colour: Colour) | ForeignObject

  datatype Record = Record(
    id: Uuid,
    changedAt: Stamp,
    color: Option<StoredObject>,
    createdAt: Stamp,
    deadLine: Option<Stamp>,
    priority: Int32,
    text: string)

  /** `fill(with:)`: every attribute is overwritten from the item, the
      priority as its integer code. */
  function Fill(x: Item): (r: Record)
    ensures r.priority == Number(x.priority)
    ensures r.id == x.id && r.text == x.text && r.deadLine == x.deadLine
    ensures r.createdAt == x.createdAt && r.changedAt == x.changedAt
    ensures x.color.Some? ==> r.color == Some(StoredColour(x.color.value))
    ensures x.color.None? ==> r.color.None?
  {
    Record(x.id, x.changedAt, if x.color.Some? then Some(StoredColour(x.color.value)) else None,
           x.createdAt, x.deadLine, Number(x.priority) as Int32, x.text)
  }

  /** `init?(from:)`: never fails; the priority is decoded with `fromInt`
      and an object that is not a colour reads as no colour. */
  function FromRecord(r: Record): (x: Option<Item>)
    ensures x.Some?
    ensures x.value.id == r.id && x.value.text == r.text && x.value.deadLine == r.deadLine
    ensures x.value.createdAt == r.createdAt && x.value.changedAt == r.changedAt
    ensures x.value.priority == FromInt(r.priority)
    ensures x.value.color.Some? <==> r.color.Some? && r.color.value.StoredColour?
    ensures x.value.color.Some? ==> r.color == Some(StoredColour(x.value.color.value))
  {
    var colour := if r.color.Some? && r.color.value.StoredColour? then Some(r.color.value.colour) else None;
    Some(Item(r.id, r.text, FromInt(r.priority), r.deadLine, colour, r.createdAt, r.changedAt))
  }

  /** Writing an item to a record and reading it back gives the item. */
  lemma FillThenRead(x: Item)
    ensures FromRecord(Fill(x)) == Some(x)
  {
  }

  /** A record holding a valid priority code and no foreign object is
      reproduced by reading it and writing the item back. */
  lemma ReadThenFill(r: Record)
    requires 0 <= r.priority <= 2
    requires r.color.Some? ==> r.color.value.StoredColour?
    ensures Fill(FromRecord(r).value) == r
  {
    NumberFromInt(r.priority);
  }

  type Store = seq<Record>

  /** The indices of the records with the identifier, in ascending order:
      what the fetch request with predicate `id == %@` returns. */
  function Matching(store: Store, id: Uuid, from: nat): (m: seq<nat>)
    requires from <= |store|
    ensures forall k :: 0 <= k < |m| ==> from <= m[k] < |store| && store[m[k]].id == id
    ensures forall i :: from <= i < |store| && store[i].id == id ==> i in m
    ensures forall k, l :: 0 <= k < l < |m| ==> m[k] < m[l]
    decreases |store| - from
  {
    if from == |store| then []
    else
      var rest := Matching(store, id, from + 1);
      if store[from].id == id then [from] + rest else rest
  }

  /** Exactly one record has the identifier, at index `i`. */
  predicate OnlyMatchAt(store: Store, id: Uuid, i: nat) {
    i < |store| && store[i].id == id &&
    forall j :: 0 <= j < |store| && store[j].id == id ==> j == i
  }

  ghost predicate ExactlyOne(store: Store, id: Uuid) {
    exists i: nat :: OnlyMatchAt(store, id, i)
  }

  /** The guard `objects.count == 1` holds exactly when one record matches,
      and then the single fetched object is that record. */
  lemma MatchingSingle(store: Store, id: Uuid)
    ensures |Matching(store, id, 0)| == 1 <==> ExactlyOne(store, id)
    ensures |Matching(store, id, 0)| == 1 ==> OnlyMatchAt(store, id, Matching(store, id, 0)[0])
  {
    var m := Matching(store, id, 0);
    if |m| == 1 {
      assert OnlyMatchAt(store, id, m[0]) by {
        forall j | 0 <= j < |store| && store[j].id == id ensures j == m[0] {
          assert j in m;
        }
      }
    }
    if ExactlyOne(store, id) {
      var i :| OnlyMatchAt(store, id, i);
      assert i in m;
      assert forall k :: 0 <= k < |m| ==> m[k] == i;
      assert m[0] == i && m[|m| - 1] == i;
    }
  }

  /** The single matching record, when there is exactly one. */
  function SingleMatch(store: Store, id: Uuid): (r: Option<nat>)
    ensures r.Some? <==> ExactlyOne(store, id)
    ensures r.Some? ==> OnlyMatchAt(store, id, r.value)
  {
    MatchingSingle(store, id);
    var m := Matching(store, id, 0);
    if |m| == 1 then Some(m[0]) else None
  }

  /** The outcome of a call whose handler receives a flag. */
  datatype Change = Change(ok: bool, store: Store)

  /** `flush()`: deletes every record. */
  function Flush(store: Store): (r: Store)
    ensures |r| == 0
    ensures forall id :: !ExactlyOne(r, id)
  {
    []
  }

  /** `add(_:handler:)`: always inserts a new record, even when one with
      the same identifier exists. */
  function Add(store: Store, x: Item): (r: Store)
    ensures |r| == |store| + 1
    ensures r[..|store|] == store && r[|store|] == Fill(x)
  {
    store + [Fill(x)]
  }

  /** `update(at:todoItem:handler:)`: fills the single matching record with
      the item (its identifier included); reports false and changes nothing
      unless exactly one record matches. */
  function Update(store: Store, id: Uuid, x: Item): (r: Change)
    ensures r.ok <==> ExactlyOne(store, id)
    ensures !r.ok ==> r.store == store
    ensures r.ok ==> |r.store| == |store|
    ensures r.ok ==> forall j :: 0 <= j < |store| ==>
                       r.store[j] == if store[j].id == id then Fill(x) else store[j]
  {
    match SingleMatch(store, id)
    case None => Change(false, store)
    case Some(i) => Change(true, store[i := Fill(x)])
  }

  /** `remove(by:handler:)`: deletes the single matching record. */
  function Remove(store: Store, id: Uuid): (r: Change)
    ensures r.ok <==> ExactlyOne(store, id)
    ensures !r.ok ==> r.store == store
    ensures r.ok ==> |r.store| == |store| - 1 && forall k :: 0 <= k < |r.store| ==> r.store[k].id != id
    ensures r.ok ==> forall j :: 0 <= j < |store| && store[j].id != id ==> store[j] in r.store
    ensures r.ok ==> var i := SingleMatch(store, id).value;
              r.store == store[..i] + store[i + 1..] && multiset(r.store) + multiset{store[i]} == multiset(store)
  {
    match SingleMatch(store, id)
    case None => Change(false, store)
    case Some(i) =>
      DeleteAt(store, id, i);
      Change(true, store[..i] + store[i + 1..])
  }

  /** Deleting the single record with the identifier: one record fewer,
      none with the identifier, every other record kept, and the deleted
      record is exactly what is missing. */
  lemma DeleteAt(store: Store, id: Uuid, i: nat)
    requires OnlyMatchAt(store, id, i)
    ensures var r := store[..i] + store[i + 1..];
            |r| == |store| - 1 && (forall k :: 0 <= k < |r| ==> r[k].id != id) &&
            (forall j :: 0 <= j < |store| && store[j].id != id ==> store[j] in r) &&
            multiset(r) + multiset{store[i]} == multiset(store)
  {
    var r := store[..i] + store[i + 1..];
    forall k | 0 <= k < |r| ensures r[k].id != id {
      assert r[k] == store[if k < i then k else k + 1];
    }
    forall j | 0 <= j < |store| && store[j].id != id ensures store[j] in r {
      assert store[j] == r[if j < i then j else j - 1];
    }
    assert store == store[..i] + [store[i]] + store[i + 1..];
  }

  /** `get(by:handler:)`: the item read from the single matching record, or
      nil unless exactly one record matches. */
  function Get(store: Store, id: Uuid): (r: Option<Item>)
    ensures r.Some? <==> ExactlyOne(store, id)
    ensures r.Some? ==> exists i: nat :: OnlyMatchAt(store, id, i) && r == FromRecord(store[i])
  {
    match SingleMatch(store, id)
    case None => None
    case Some(i) => FromRecord(store[i])
  }

  /** `todoItems(returnItems:)`: every record read as an item, in fetch order. */
  function Items(store: Store): (xs: seq<Item>)
    ensures |xs| == |store|
    ensures forall k :: 0 <= k < |store| ==> Some(xs[k]) == FromRecord(store[k])
  {
    seq(|store|, k requires 0 <= k < |store| => FromRecord(store[k]).value)
  }

  /** Adding an item whose identifier is new makes it readable; adding it
      again makes the identifier ambiguous, after which `get` finds nothing
      and `update` and `remove` refuse. */
  lemma AddThenGet(store: Store, x: Item)
    requires forall j :: 0 <= j < |store| ==> store[j].id != x.id
    ensures Get(Add(store, x), x.id) == Some(x)
    ensures Get(Add(Add(store, x), x), x.id).None?
    ensures !Update(Add(Add(store, x), x), x.id, x).ok
    ensures !Remove(Add(Add(store, x), x), x.id).ok
  {
    var s1 := Add(store, x);
    assert OnlyMatchAt(s1, x.id, |store|);
    var s2 := Add(s1, x);
    assert s2[|store|].id == x.id && s2[|store| + 1].id == x.id;
    assert !ExactlyOne(s2, x.id);
  }

  /** Updating the single record for an identifier with an item of that
      identifier keeps it the single record, and `get` reads the new item. */
  lemma UpdateThenGet(store: Store, x: Item)
    requires ExactlyOne(store, x.id)
    ensures Get(Update(store, x.id, x).store, x.id) == Some(x)
  {
    var i :| OnlyMatchAt(store, x.id, i);
    var r := Update(store, x.id, x).store;
    assert OnlyMatchAt(r, x.id, i);
  }

  /** After a successful removal no record has the identifier. */
  lemma RemoveThenGet(store: Store, id: Uuid)
    requires ExactlyOne(store, id)
    ensures Get(Remove(store, id).store, id).None?
    ensures !Remove(Remove(store, id).store, id).ok
  {
  }

  /** After a flush no lookup finds anything, no update or removal
      succeeds, and the store reads as no items at all. */
  lemma FlushEmptiesStore(store: Store, id: Uuid, x: Item)
    ensures Get(Flush(store), id).None?
    ensures !Update(Flush(store), id, x).ok && !Remove(Flush(store), id).ok
    ensures Items(Flush(store)) == []
  {
  }
}
