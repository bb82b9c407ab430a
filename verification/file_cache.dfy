/** The in-memory item list of `FileCache`: an ordered sequence of items
    that the cache keeps free of duplicate identifiers, with add-if-absent,
    replace-in-place, remove and first-match lookup, and the "items"
    dictionary it dumps to and loads from.

    Both versions of the class (the early one and the one backed by the
    database store) share `add`, `getIndex`, `remove`, `get`, `dump` and
    `load` line for line; `update` and `flush` exist only in the later one.
    The database calls of the later version are modelled by the
    `CoreDataStorage` module. */
module FileCache {
  import opened Wrappers
  import opened Uuids
  import opened TodoItems

  type Items = seq<Item>

  /** The key the item list is stored under. */
  const ItemKey: string := "items"

  /** The identifiers present in a list. */
  function IdSet(items: Items): set<Uuid> {
    set i | 0 <= i < |items| :: items[i].id
  }

  /** No identifier occurs twice. */
  predicate DistinctIds(items: Items) {
    forall i, j :: 0 <= i < j < |items| ==> items[i].id != items[j].id
  }

  /** `init(todoItems: [])`. */
  function New(): (items: Items)
    ensures IdSet(items) == {}
  {
    []
  }

  /** The in-memory half of `flush()`. */
  function Flush(items: Items): (r: Items)
    ensures IdSet(r) == {}
  {
    []
  }

  /** `getIndex(by:)`: the position of the first item with the identifier. */
  function FirstIndex(items: Items, id: Uuid): (r: Option<nat>)
    ensures r.Some? ==> r.value < |items| && items[r.value].id == id
    ensures r.Some? ==> forall j :: 0 <= j < r.value ==> items[j].id != id
    ensures r.None? <==> id !in IdSet(items)
  {
    if |items| == 0 then None
    else if items[0].id == id then Some(0)
    else
      var rest := FirstIndex(items[1..], id);
      assert IdSet(items) == {items[0].id} + IdSet(items[1..]) by {
        IdSetCons(items);
      }
      match rest
      case None => None
      case Some(k) => Some(k + 1)
  }

  /** The first index is pinned down by its defining properties. */
  lemma FirstIndexIs(items: Items, id: Uuid, i: nat)
    requires i < |items| && items[i].id == id
    requires forall j :: 0 <= j < i ==> items[j].id != id
    ensures FirstIndex(items, id) == Some(i)
  {
    assert id in IdSet(items);
    var v := FirstIndex(items, id).value;
    assert items[v].id == id && items[i].id == id;
  }

  lemma IdSetCons(items: Items)
    requires |items| > 0
    ensures IdSet(items) == {items[0].id} + IdSet(items[1..])
  {
    var tail := items[1..];
    forall id | id in IdSet(items)
      ensures id in {items[0].id} + IdSet(tail)
    {
      var i :| 0 <= i < |items| && items[i].id == id;
      if i > 0 {
        assert tail[i - 1].id == id;
      }
    }
    forall id | id in IdSet(tail)
      ensures id in IdSet(items)
    {
      var i :| 0 <= i < |tail| && tail[i].id == id;
      assert items[i + 1].id == id;
    }
  }

  lemma IdSetAppend(items: Items, x: Item)
    ensures IdSet(items + [x]) == IdSet(items) + {x.id}
  {
    var s := items + [x];
    forall id | id in IdSet(s)
      ensures id in IdSet(items) + {x.id}
    {
      var i :| 0 <= i < |s| && s[i].id == id;
      if i < |items| {
        assert items[i].id == id;
      }
    }
    forall id | id in IdSet(items)
      ensures id in IdSet(s)
    {
      var i :| 0 <= i < |items| && items[i].id == id;
      assert s[i].id == id;
    }
    assert s[|items|].id == x.id;
  }

  /** `add(_:)`: a no-op when the identifier is already stored (the first
      item wins), otherwise an append. Existing positions never change. */
  function Add(items: Items, x: Item): (r: Items)
    ensures x.id in IdSet(items) ==> r == items
    ensures x.id !in IdSet(items) ==> |r| == |items| + 1 && r[|items|] == x
    ensures forall i :: 0 <= i < |items| ==> r[i] == items[i]
    ensures IdSet(r) == IdSet(items) + {x.id}
  {
    if FirstIndex(items, x.id).Some? then items
    else
      IdSetAppend(items, x);
      items + [x]
  }

  /** The outcome of `update(at:todoItem:)` and `remove(by:)`: the returned
      flag and the list afterwards. */
  datatype Change = Change(ok: bool, items: Items)

  /** `update(at:todoItem:)`: removes the first item with the identifier and
      inserts the new one at the same position. */
  function Update(items: Items, id: Uuid, x: Item): (r: Change)
    ensures r.ok <==> id in IdSet(items)
    ensures !r.ok ==> r.items == items
    ensures r.ok ==> r.items == items[FirstIndex(items, id).value := x]
  {
    match FirstIndex(items, id)
    case None => Change(false, items)
    case Some(i) =>
      var removed := items[..i] + items[i + 1..];
      var inserted := removed[..i] + [x] + removed[i..];
      assert inserted == items[i := x];
      Change(true, inserted)
  }

  /** `remove(by:)`: deletes the first item with the identifier. */
  function Remove(items: Items, id: Uuid): (r: Change)
    ensures r.ok <==> id in IdSet(items)
    ensures !r.ok ==> r.items == items
    ensures r.ok ==> |r.items| == |items| - 1
    ensures r.ok ==> var i := FirstIndex(items, id).value;
              (forall j :: 0 <= j < i ==> r.items[j] == items[j]) &&
              (forall j :: i <= j < |r.items| ==> r.items[j] == items[j + 1])
  {
    match FirstIndex(items, id)
    case None => Change(false, items)
    case Some(i) => Change(true, items[..i] + items[i + 1..])
  }

  /** `get(by:)`: the first item with the identifier. */
  function Get(items: Items, id: Uuid): (r: Option<Item>)
    ensures r.None? <==> id !in IdSet(items)
    ensures r.Some? ==> r.value.id == id && r.value in items
    ensures r.Some? ==> exists i :: 0 <= i < |items| && items[i] == r.value &&
                                    forall j :: 0 <= j < i ==> items[j].id != id
  {
    match FirstIndex(items, id)
    case None => None
    case Some(i) => Some(items[i])
  }

  /** A freshly constructed cache is empty, and so is a flushed one: no
      lookup finds anything and no removal succeeds. */
  lemma EmptyCaches(items: Items, id: Uuid)
    ensures Get(New(), id).None? && !Remove(New(), id).ok
    ensures Get(Flush(items), id).None? && !Remove(Flush(items), id).ok
  {
  }

  /** Adding an item whose identifier is new makes it retrievable. */
  lemma AddThenGet(items: Items, x: Item)
    requires x.id !in IdSet(items)
    ensures Get(Add(items, x), x.id) == Some(x)
  {
    var r := Add(items, x);
    forall j | 0 <= j < |items|
      ensures r[j].id != x.id
    {
      assert items[j].id in IdSet(items);
    }
    assert FirstIndex(r, x.id) == Some(|items|);
  }

  /** Adding an item with an identifier already stored keeps the first item:
      lookups return what they returned before. */
  lemma AddKeepsFirst(items: Items, x: Item, id: Uuid)
    requires x.id in IdSet(items)
    ensures Add(items, x) == items
    ensures Get(Add(items, x), id) == Get(items, id)
  {
  }

  /** Replacing through `update` with an item of the same identifier, or of
      one not stored yet, keeps identifiers distinct. */
  lemma UpdatePreservesDistinct(items: Items, id: Uuid, x: Item)
    requires DistinctIds(items)
    requires x.id == id || x.id !in IdSet(items)
    ensures DistinctIds(Update(items, id, x).items)
  {
    var r := Update(items, id, x);
    if r.ok {
      var i := FirstIndex(items, id).value;
      forall a, b | 0 <= a < b < |r.items|
        ensures r.items[a].id != r.items[b].id
      {
        if a == i {
          assert items[b].id != items[i].id;
          if x.id != id {
            assert items[b].id in IdSet(items);
          }
        } else if b == i {
          assert items[a].id != items[i].id;
          if x.id != id {
            assert items[a].id in IdSet(items);
          }
        }
      }
    }
  }

  /** Removing keeps identifiers distinct, and on a list with distinct
      identifiers the removed identifier is gone afterwards. */
  lemma RemovePreservesDistinct(items: Items, id: Uuid)
    requires DistinctIds(items)
    ensures DistinctIds(Remove(items, id).items)
    ensures id !in IdSet(Remove(items, id).items)
  {
    var r := Remove(items, id);
    if r.ok {
      var i := FirstIndex(items, id).value;
      forall a, b | 0 <= a < b < |r.items|
        ensures r.items[a].id != r.items[b].id
      {
        var a' := if a < i then a else a + 1;
        var b' := if b < i then b else b + 1;
        assert r.items[a] == items[a'] && r.items[b] == items[b'];
      }
      forall k | 0 <= k < |r.items|
        ensures r.items[k].id != id
      {
        var k' := if k < i then k else k + 1;
        assert r.items[k] == items[k'] && k' != i;
      }
    }
  }

  /** Adding keeps identifiers distinct. */
  lemma AddPreservesDistinct(items: Items, x: Item)
    requires DistinctIds(items)
    ensures DistinctIds(Add(items, x))
  {
    if x.id !in IdSet(items) {
      forall i | 0 <= i < |items|
        ensures items[i].id != x.id
      {
        assert items[i].id in IdSet(items);
      }
    }
  }

  /** One step of the cache's public interface. */
  datatype Op = AddOp(x: Item) | RemoveOp(id: Uuid)

  function Apply(items: Items, op: Op): Items {
    match op
    case AddOp(x) => Add(items, x)
    case RemoveOp(id) => Remove(items, id).items
  }

  function ApplyAll(items: Items, ops: seq<Op>): Items
    decreases |ops|
  {
    if |ops| == 0 then items else ApplyAll(Apply(items, ops[0]), ops[1..])
  }

  /** Any sequence of adds and removes starting from a list with distinct
      identifiers (in particular the empty cache) keeps them distinct. */
  lemma {:induction false} OpsPreserveDistinct(items: Items, ops: seq<Op>)
    requires DistinctIds(items)
    ensures DistinctIds(ApplyAll(items, ops))
    decreases |ops|
  {
    if |ops| > 0 {
      match ops[0] {
        case AddOp(x) => AddPreservesDistinct(items, x);
        case RemoveOp(id) => RemovePreservesDistinct(items, id);
      }
      OpsPreserveDistinct(Apply(items, ops[0]), ops[1..]);
    }
  }

  /** `dump()`: one dictionary per item, in list order, under "items". */
  function Dump(items: Items): (d: JValue)
    ensures d.JDict? && d.fields.Keys == {ItemKey}
    ensures d.fields[ItemKey].JList? && |d.fields[ItemKey].elems| == |items|
    ensures forall i :: 0 <= i < |items| ==> d.fields[ItemKey].elems[i] == JDict(ToJson(items[i]))
  {
    JDict(map[ItemKey := JList(seq(|items|, i requires 0 <= i < |items| => JDict(ToJson(items[i]))))])
  }

  /** True when every entry is a dictionary, which is what the cast
      `as? [[String: Any]]` demands of the whole array. */
  predicate AllDicts(entries: seq<JValue>) {
    forall i :: 0 <= i < |entries| ==> entries[i].JDict?
  }

  /** The positions, from `from` on and in ascending order, of the entries
      that parse: exactly the entries `load(from:)` keeps. */
  function ParsedIndices(entries: seq<JValue>, from: nat,
                         defaults: nat -> Defaults, decodeDate: string -> Option<Stamp>): (ks: seq<nat>)
    requires AllDicts(entries)
    requires from <= |entries|
    ensures forall i :: 0 <= i < |ks| ==>
              from <= ks[i] < |entries| && Parse(entries[ks[i]].fields, defaults(ks[i]), decodeDate).Some?
    ensures forall k :: from <= k < |entries| && Parse(entries[k].fields, defaults(k), decodeDate).Some? ==> k in ks
    ensures forall i, j :: 0 <= i < j < |ks| ==> ks[i] < ks[j]
    decreases |entries| - from
  {
    if from == |entries| then []
    else
      var rest := ParsedIndices(entries, from + 1, defaults, decodeDate);
      if Parse(entries[from].fields, defaults(from), decodeDate).Some? then [from] + rest else rest
  }

  /** Parses the entries from position `from` on, skipping those that do
      not parse: the result holds the parse of every entry that parses, in
      entry order. `defaults(k)` supplies what the initialiser takes from
      outside the dictionary when it parses entry `k`. */
  function ParseEntries(entries: seq<JValue>, from: nat,
                        defaults: nat -> Defaults, decodeDate: string -> Option<Stamp>): (r: Items)
    requires AllDicts(entries)
    requires from <= |entries|
    ensures |r| <= |entries| - from
    ensures forall x :: x in r ==> exists k :: from <= k < |entries| && Parse(entries[k].fields, defaults(k), decodeDate) == Some(x)
    decreases |entries| - from
  {
    if from == |entries| then []
    else
      var rest := ParseEntries(entries, from + 1, defaults, decodeDate);
      match Parse(entries[from].fields, defaults(from), decodeDate)
      case None => rest
      case Some(x) => [x] + rest
  }

  /** `items` is, position by position, the parse of the entries at the
      positions `ks`. */
  predicate ParsesAt(entries: seq<JValue>, ks: seq<nat>, items: Items,
                     defaults: nat -> Defaults, decodeDate: string -> Option<Stamp>)
    requires AllDicts(entries)
  {
    |ks| == |items| &&
    forall i :: 0 <= i < |ks| ==>
      ks[i] < |entries| && Parse(entries[ks[i]].fields, defaults(ks[i]), decodeDate) == Some(items[i])
  }

  lemma ParsesAtCons(entries: seq<JValue>, k: nat, ks: seq<nat>, x: Item, items: Items,
                     defaults: nat -> Defaults, decodeDate: string -> Option<Stamp>)
    requires AllDicts(entries) && k < |entries|
    requires Parse(entries[k].fields, defaults(k), decodeDate) == Some(x)
    requires ParsesAt(entries, ks, items, defaults, decodeDate)
    ensures ParsesAt(entries, [k] + ks, [x] + items, defaults, decodeDate)
  {
    forall i | 0 < i < |ks| + 1
      ensures ([k] + ks)[i] < |entries| &&
              Parse(entries[([k] + ks)[i]].fields, defaults(([k] + ks)[i]), decodeDate) == Some(([x] + items)[i])
    {
      assert ([k] + ks)[i] == ks[i - 1] && ([x] + items)[i] == items[i - 1];
    }
  }

  /** `ParseEntries` yields, position by position, the parse of the entries
      `ParsedIndices` lists: every entry that parses contributes its item,
      in entry order, and no other entry contributes anything. */
  lemma {:induction false} ParseEntriesKeepsParsed(entries: seq<JValue>, from: nat,
                                                   defaults: nat -> Defaults, decodeDate: string -> Option<Stamp>)
    requires AllDicts(entries)
    requires from <= |entries|
    ensures ParsesAt(entries, ParsedIndices(entries, from, defaults, decodeDate),
                     ParseEntries(entries, from, defaults, decodeDate), defaults, decodeDate)
    decreases |entries| - from
  {
    if from < |entries| {
      ParseEntriesKeepsParsed(entries, from + 1, defaults, decodeDate);
      var p := Parse(entries[from].fields, defaults(from), decodeDate);
      if p.Some? {
        ParsesAtCons(entries, from, ParsedIndices(entries, from + 1, defaults, decodeDate), p.value,
                     ParseEntries(entries, from + 1, defaults, decodeDate), defaults, decodeDate);
      }
    }
  }

  /** The outcome of `load(from:)`: the returned flag and the list after. */
  datatype Loaded = Loaded(ok: bool, items: Items)

  /** True when the document is a dictionary whose "items" is an array of
      dictionaries. */
  predicate IsItemDocument(doc: JValue) {
    doc.JDict? && ItemKey in doc.fields && doc.fields[ItemKey].JList? && AllDicts(doc.fields[ItemKey].elems)
  }

  /** The dictionary half of `load(from:)`: appends every entry that parses,
      skips the others, and does not look for duplicate identifiers. */
  function Load(items: Items, doc: JValue,
                defaults: nat -> Defaults, decodeDate: string -> Option<Stamp>): (r: Loaded)
    ensures r.ok <==> IsItemDocument(doc)
    ensures !r.ok ==> r.items == items
    ensures r.ok ==> |items| <= |r.items| <= |items| + |doc.fields[ItemKey].elems|
    ensures r.ok ==> r.items[..|items|] == items
    ensures r.ok ==> r.items[|items|..] == ParseEntries(doc.fields[ItemKey].elems, 0, defaults, decodeDate)
  {
    if !IsItemDocument(doc) then Loaded(false, items)
    else Loaded(true, items + ParseEntries(doc.fields[ItemKey].elems, 0, defaults, decodeDate))
  }

  /** Every item of the list parses back from its dump entry, given the
      defaults and decoder. */
  predicate DumpParsesBack(items: Items, defaults: nat -> Defaults, decodeDate: string -> Option<Stamp>) {
    forall k :: 0 <= k < |items| ==>
      defaults(k).createdAt == items[k].createdAt &&
      defaults(k).changedAt == items[k].changedAt &&
      DeadLineDecodes(items[k], decodeDate)
  }

  /** Each dump entry parses back to its item. */
  lemma DumpEntryParses(items: Items, k: nat, defaults: nat -> Defaults, decodeDate: string -> Option<Stamp>)
    requires k < |items|
    requires DumpParsesBack(items, defaults, decodeDate)
    ensures Dump(items).fields[ItemKey].elems[k].JDict?
    ensures Parse(Dump(items).fields[ItemKey].elems[k].fields, defaults(k), decodeDate) == Some(items[k])
  {
    ParseToJson(items[k], defaults(k).freshId, decodeDate);
    assert defaults(k) == Defaults(defaults(k).freshId, items[k].createdAt, items[k].changedAt);
  }

  lemma {:induction false} ParseEntriesOfDump(items: Items, from: nat,
                                              defaults: nat -> Defaults, decodeDate: string -> Option<Stamp>)
    requires from <= |items|
    requires DumpParsesBack(items, defaults, decodeDate)
    ensures AllDicts(Dump(items).fields[ItemKey].elems)
    ensures ParseEntries(Dump(items).fields[ItemKey].elems, from, defaults, decodeDate) == items[from..]
    decreases |items| - from
  {
    var entries := Dump(items).fields[ItemKey].elems;
    if from < |items| {
      DumpEntryParses(items, from, defaults, decodeDate);
      ParseEntriesOfDump(items, from + 1, defaults, decodeDate);
      assert items[from..] == [items[from]] + items[from + 1..];
    }
  }

  /** Loading a dump appends exactly the dumped items, in order. */
  lemma LoadDump(items: Items, dumped: Items,
                 defaults: nat -> Defaults, decodeDate: string -> Option<Stamp>)
    requires DumpParsesBack(dumped, defaults, decodeDate)
    ensures Load(items, Dump(dumped), defaults, decodeDate) == Loaded(true, items + dumped)
  {
    ParseEntriesOfDump(dumped, 0, defaults, decodeDate);
    assert dumped[0..] == dumped;
  }

  /** Loading does not de-duplicate: loading the dump of a cache into that
      same cache repeats every identifier. */
  lemma LoadDuplicates(x: Item, defaults: nat -> Defaults, decodeDate: string -> Option<Stamp>)
    requires DumpParsesBack([x], defaults, decodeDate)
    ensures Load([x], Dump([x]), defaults, decodeDate).items == [x, x]
    ensures !DistinctIds(Load([x], Dump([x]), defaults, decodeDate).items)
  {
    LoadDump([x], [x], defaults, decodeDate);
  }

  /** An entry that does not parse is skipped and the entries around it are
      kept in order, whatever the list held before. */
  lemma LoadSkipsUnparseable(items: Items, a: Json, b: Json, c: Json,
                             defaults: nat -> Defaults, decodeDate: string -> Option<Stamp>)
    requires Parse(a, defaults(0), decodeDate).Some?
    requires Parse(b, defaults(1), decodeDate).None?
    requires Parse(c, defaults(2), decodeDate).Some?
    ensures Load(items, JDict(map[ItemKey := JList([JDict(a), JDict(b), JDict(c)])]), defaults, decodeDate) ==
            Loaded(true, items + [Parse(a, defaults(0), decodeDate).value, Parse(c, defaults(2), decodeDate).value])
  {
    var entries := [JDict(a), JDict(b), JDict(c)];
    assert ParseEntries(entries, 3, defaults, decodeDate) == [];
    assert ParseEntries(entries, 2, defaults, decodeDate) == [Parse(c, defaults(2), decodeDate).value];
    assert ParseEntries(entries, 1, defaults, decodeDate) == [Parse(c, defaults(2), decodeDate).value];
  }
}
