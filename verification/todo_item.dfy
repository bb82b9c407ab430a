/** The to-do item, its priority, and the dictionary codec
    (`TodoItem.json` and `TodoItem(_ json:)` / `TodoItem.parse`).

    Deadlines, colours and timestamps are opaque tokens: a `Stamp` carries
    the text the date encoder produced, a `Colour` the colour's string
    representation. Dictionary values are JSON values whose leaves the
    codec only ever reads as strings. */
module TodoItems {
  import opened Wrappers
  import opened Uuids

  datatype Priority = No | Normal | Important

  /** The integer code a priority is stored under. */
  function Number(p: Priority): (n: int)
    ensures 0 <= n <= 2
    ensures FromInt(n) == p
  {
    match p
    case No => 0
    case Normal => 1
    case Important => 2
  }

  /** Decodes a stored priority code; every unknown code reads as `No`. */
  function FromInt(i: int): (p: Priority)
    ensures (i < 0 || 2 < i) ==> p == No
  {
    if i == 1 then Normal
    else if i == 2 then Important
    else No
  }

  /** Every valid code decodes to the priority stored under it, so the codes
      0, 1 and 2 and the three priorities are in one-to-one correspondence. */
  lemma NumberFromInt(i: int)
    requires 0 <= i <= 2
    ensures Number(FromInt(i)) == i
  {
  }

  /** The enum's raw (string) value, which is also its case name. */
  function RawValue(p: Priority): (s: string)
    ensures FromRawValue(s) == Some(p)
  {
    match p
    case No => "no"
    case Normal => "normal"
    case Important => "important"
  }

  /** `TodoItemPriority(rawValue:)`. */
  function FromRawValue(s: string): (r: Option<Priority>)
    ensures r.Some? <==> s in {"no", "normal", "important"}
  {
    if s == "no" then Some(No)
    else if s == "normal" then Some(Normal)
    else if s == "important" then Some(Important)
    else None
  }

  /** A raw value that parses names the priority it parses to. */
  lemma RawValueFromRawValue(s: string)
    requires FromRawValue(s).Some?
    ensures RawValue(FromRawValue(s).value) == s
  {
  }

  /** A deadline or timestamp, held as the text the date encoder wrote. */
  datatype Stamp = Stamp(text: string)

  /** A colour, held as its string representation. */
  datatype Colour = Colour(repr: string)

  /** Equality of items is structural over every field, as the synthesised
      `Equatable` conformance compares them. */
  datatype Item = Item(
    id: Uuid,
    text: string,
    priority: Priority,
    deadLine: Option<Stamp>,
    color: Option<Colour>,
    createdAt: Stamp,
    changedAt: Stamp)

  /** A JSON value as produced by the serialiser: strings, arrays,
      dictionaries, and any other scalar (number, boolean, null). */
  datatype JValue =
    | JStr(s: string)
    | JList(elems: seq<JValue>)
    | JDict(fields: map<string, JValue>)
    | JScalar

  type Json = map<string, JValue>

  const IdKey: string := "id"
  const TextKey: string := "text"
  const PriorityKey: string := "priority"
  const DeadLineKey: string := "deadLine"
  const ColorKey: string := "color"

  /** True when `key` holds a string (`json[key] as? String` succeeds). */
  predicate HasString(json: Json, key: string) {
    key in json && json[key].JStr?
  }

  /** What the initialiser takes from outside the dictionary: the identifier
      `UUID()` generates when "id" is unusable, and the two timestamps the
      dictionary does not carry. */
  datatype Defaults = Defaults(freshId: Uuid, createdAt: Stamp, changedAt: Stamp)

  /** `TodoItem.json`. */
  function ToJson(x: Item): (j: Json)
    ensures IdKey in j && j[IdKey] == JStr(x.id)
    ensures TextKey in j && j[TextKey] == JStr(x.text)
    ensures PriorityKey in j <==> x.priority != Normal
    ensures PriorityKey in j ==> j[PriorityKey] == JStr(RawValue(x.priority))
    ensures DeadLineKey in j <==> x.deadLine.Some?
    ensures DeadLineKey in j ==> j[DeadLineKey] == JStr(x.deadLine.value.text)
    ensures ColorKey in j <==> x.color.Some?
    ensures ColorKey in j ==> j[ColorKey] == JStr(x.color.value.repr)
    ensures j.Keys <= {IdKey, TextKey, PriorityKey, DeadLineKey, ColorKey}
  {
    var base := map[IdKey := JStr(x.id), TextKey := JStr(x.text)];
    var withPriority :=
      if x.priority != Normal then base[PriorityKey := JStr(RawValue(x.priority))] else base;
    var withDeadLine :=
      if x.deadLine.Some? then withPriority[DeadLineKey := JStr(x.deadLine.value.text)] else withPriority;
    if x.color.Some? then withDeadLine[ColorKey := JStr(x.color.value.repr)] else withDeadLine
  }

  /** The identifier the initialiser picks: the parsed "id" when it is a
      well-formed UUID string, a freshly generated one otherwise. */
  function ParseId(json: Json, freshId: Uuid): (id: Uuid)
    ensures HasString(json, IdKey) && IsUuidText(json[IdKey].s) ==> ParseUuid(json[IdKey].s) == Some(id)
    ensures !(HasString(json, IdKey) && IsUuidText(json[IdKey].s)) ==> id == freshId
  {
    if HasString(json, IdKey) && ParseUuid(json[IdKey].s).Some? then
      ParseUuid(json[IdKey].s).value
    else
      freshId
  }

  /** True when "priority" holds the raw value of a known priority. */
  predicate HasKnownPriority(json: Json) {
    HasString(json, PriorityKey) && FromRawValue(json[PriorityKey].s).Some?
  }

  /** True when "deadLine" holds a string the date decoder rejects, which
      makes the initialiser throw. */
  predicate HasBadDeadLine(json: Json, decodeDate: string -> Option<Stamp>) {
    HasString(json, DeadLineKey) && decodeDate(json[DeadLineKey].s).None?
  }

  /** `TodoItem.parse(json:)`: the throwing initialiser with its error
      turned into `None`. */
  function Parse(json: Json, defaults: Defaults, decodeDate: string -> Option<Stamp>): (r: Option<Item>)
    ensures r.None? <==> !HasString(json, TextKey) || HasBadDeadLine(json, decodeDate)
    ensures r.Some? ==> r.value.text == json[TextKey].s
    ensures r.Some? && !HasKnownPriority(json) ==> r.value.priority == Normal
    ensures r.Some? && HasKnownPriority(json) ==> RawValue(r.value.priority) == json[PriorityKey].s
    ensures r.Some? && !HasString(json, IdKey) ==> r.value.id == defaults.freshId
    ensures r.Some? && HasString(json, IdKey) && IsUuidText(json[IdKey].s) ==>
              ParseUuid(json[IdKey].s) == Some(r.value.id)
    ensures r.Some? && !(HasString(json, IdKey) && IsUuidText(json[IdKey].s)) ==> r.value.id == defaults.freshId
    ensures r.Some? ==> (r.value.deadLine.Some? <==> HasString(json, DeadLineKey))
    ensures r.Some? && HasString(json, DeadLineKey) ==> r.value.deadLine == decodeDate(json[DeadLineKey].s)
    ensures r.Some? ==> (r.value.color.Some? <==> HasString(json, ColorKey))
    ensures r.Some? && HasString(json, ColorKey) ==> r.value.color == Some(Colour(json[ColorKey].s))
    ensures r.Some? ==> r.value.createdAt == defaults.createdAt && r.value.changedAt == defaults.changedAt
  {
    var id := ParseId(json, defaults.freshId);
    if !HasString(json, TextKey) then None
    else
      var priority := if HasKnownPriority(json) then FromRawValue(json[PriorityKey].s).value else Normal;
      var deadLine :=
        if HasString(json, DeadLineKey) then decodeDate(json[DeadLineKey].s) else None;
      if HasString(json, DeadLineKey) && deadLine.None? then None
      else
        var color := if HasString(json, ColorKey) then Some(Colour(json[ColorKey].s)) else None;
        Some(Item(id, json[TextKey].s, priority, deadLine, color, defaults.createdAt, defaults.changedAt))
  }

  /** The date decoder reads back what the encoder wrote for `x`'s deadline. */
  predicate DeadLineDecodes(x: Item, decodeDate: string -> Option<Stamp>) {
    x.deadLine.Some? ==> decodeDate(x.deadLine.value.text) == x.deadLine
  }

  /** Parsing an item's dictionary gives the item back, provided the date
      decoder inverts the encoder and the caller supplies the timestamps the
      dictionary does not carry. The generated fresh identifier is never
      used, because the printed identifier always parses. */
  lemma {:induction false} ParseToJson(x: Item, freshId: Uuid, decodeDate: string -> Option<Stamp>)
    requires DeadLineDecodes(x, decodeDate)
    ensures Parse(ToJson(x), Defaults(freshId, x.createdAt, x.changedAt), decodeDate) == Some(x)
  {
    ParsePrinted(x.id);
    var j := ToJson(x);
    assert ParseId(j, freshId) == x.id;
    assert x.priority != Normal ==> FromRawValue(j[PriorityKey].s) == Some(x.priority);
  }

  /** The round trip for an item with neither deadline nor colour: no
      decoder is involved at all. */
  lemma PlainItemRoundTrip(x: Item, freshId: Uuid, decodeDate: string -> Option<Stamp>)
    requires x.deadLine.None? && x.color.None?
    ensures Parse(ToJson(x), Defaults(freshId, x.createdAt, x.changedAt), decodeDate) == Some(x)
  {
    ParseToJson(x, freshId, decodeDate);
  }
}
