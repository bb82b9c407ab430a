/** Item identifiers. A Foundation `UUID` is modelled by its canonical
    text form: 36 characters, dashes at positions 8, 13, 18 and 23, and
    upper-case hexadecimal digits everywhere else (what `uuidString`
    prints). Parsing accepts hexadecimal digits of either case. */
module Uuids {
  import opened Wrappers

  predicate IsDashPosition(i: int) {
    i == 8 || i == 13 || i == 18 || i == 23
  }

  predicate IsUpperHex(c: char) {
    ('0' <= c <= '9') || ('A' <= c <= 'F')
  }

  predicate IsLowerHex(c: char) {
    'a' <= c <= 'f'
  }

  predicate IsHex(c: char) {
    IsUpperHex(c) || IsLowerHex(c)
  }

  /** Text that `UUID(uuidString:)` accepts. */
  predicate IsUuidText(s: string) {
    |s| == 36 &&
    forall i :: 0 <= i < |s| ==> if IsDashPosition(i) then s[i] == '-' else IsHex(s[i])
  }

  /** Text that `uuidString` produces. */
  predicate IsCanonical(s: string) {
    |s| == 36 &&
    forall i :: 0 <= i < |s| ==> if IsDashPosition(i) then s[i] == '-' else IsUpperHex(s[i])
  }

  type Uuid = s: string | IsCanonical(s) witness "00000000-0000-0000-0000-000000000000"

  function UpperHex(c: char): (r: char)
    ensures IsHex(c) ==> IsUpperHex(r)
    ensures IsUpperHex(c) ==> r == c
    ensures c == '-' ==> r == '-'
  {
    if IsLowerHex(c) then (c as int - 32) as char else c
  }

  /** `UUID(uuidString:)`: nil unless the text is a well-formed UUID. */
  function ParseUuid(s: string): (r: Option<Uuid>)
    ensures r.Some? <==> IsUuidText(s)
    ensures r.Some? ==> forall i :: 0 <= i < |s| ==> r.value[i] == UpperHex(s[i])
  {
    if IsUuidText(s) then
      var u := seq(|s|, i requires 0 <= i < |s| => UpperHex(s[i]));
      assert IsCanonical(u);
      Some(u)
    else
      None
  }

  /** `UUID(uuidString: u.uuidString) == u`: the printed form parses back
      to the same identifier. */
  lemma ParsePrinted(u: Uuid)
    ensures ParseUuid(u) == Some(u)
  {
    assert IsUuidText(u);
    var r := ParseUuid(u);
    assert |r.value| == |u|;
    assert forall i :: 0 <= i < |u| ==> r.value[i] == u[i];
    assert r.value == u;
  }
}
