/**
 * Merchant identifiers (the `uuid` crate's `Uuid`) and the text forms `Uuid::parse_str`
 * accepts: 32 hexadecimal digits, optionally hyphenated 8-4-4-4-12, optionally wrapped
 * in braces or prefixed with `urn:uuid:`. Hex digits are case-insensitive.
 */
module Uuids {
  import opened Wrappers

  /** The 32 hexadecimal digits (nibbles) of a 128-bit identifier. */
  datatype Uuid = Uuid(nibbles: seq<nat>)

  predicate ValidUuid(u: Uuid) {
    |u.nibbles| == 32 && forall i | 0 <= i < 32 :: u.nibbles[i] < 16
  }

  predicate IsHex(c: char) {
    ('0' <= c <= '9') || ('a' <= c <= 'f') || ('A' <= c <= 'F')
  }

  predicate AllHex(s: string) {
    forall i | 0 <= i < |s| :: IsHex(s[i])
  }

  function HexValue(c: char): (n: nat)
    requires IsHex(c)
    ensures n < 16
  {
    if '0' <= c <= '9' then c as int - '0' as int
    else if 'a' <= c <= 'f' then c as int - 'a' as int + 10
    else c as int - 'A' as int + 10
  }

  function Nibbles(s: string): (ns: seq<nat>)
    requires AllHex(s)
    ensures |ns| == |s| && forall i | 0 <= i < |s| :: ns[i] == HexValue(s[i])
  {
    if s == [] then [] else [HexValue(s[0])] + Nibbles(s[1..])
  }

  /** The 8-4-4-4-12 layout with hyphens at positions 8, 13, 18 and 23. */
  predicate IsHyphenated(s: string) {
    |s| == 36 && s[8] == '-' && s[13] == '-' && s[18] == '-' && s[23] == '-'
    && AllHex(s[..8]) && AllHex(s[9..13]) && AllHex(s[14..18]) && AllHex(s[19..23]) && AllHex(s[24..])
  }

  /** The hyphenated layout with its four hyphens removed. */
  function Unhyphenate(s: string): (h: string)
    requires IsHyphenated(s)
    ensures |h| == 32 && AllHex(h)
  {
    s[..8] + s[9..13] + s[14..18] + s[19..23] + s[24..]
  }

  function ParseUuid(s: string): (r: Option<Uuid>)
    ensures r.Some? ==> ValidUuid(r.value)
  {
    if |s| == 32 && AllHex(s) then Some(Uuid(Nibbles(s)))
    else if IsHyphenated(s) then Some(Uuid(Nibbles(Unhyphenate(s))))
    else if |s| == 38 && s[0] == '{' && s[37] == '}' && IsHyphenated(s[1..37]) then
      Some(Uuid(Nibbles(Unhyphenate(s[1..37]))))
    else if |s| == 45 && s[..9] == "urn:uuid:" && IsHyphenated(s[9..]) then
      Some(Uuid(Nibbles(Unhyphenate(s[9..]))))
    else None
  }

  /** The four spellings of one identifier denote the same identifier. */
  lemma SpellingsAgree(h: string)
    requires IsHyphenated(h)
    ensures ParseUuid(h).Some?
    ensures ParseUuid(Unhyphenate(h)) == ParseUuid(h)
    ensures ParseUuid("{" + h + "}") == ParseUuid(h)
    ensures ParseUuid("urn:uuid:" + h) == ParseUuid(h)
  {
    assert h[8] == '-';
    assert !AllHex(h);
    var braced := "{" + h + "}";
    assert braced[1..37] == h;
    assert braced[0] == '{' && braced[37] == '}';
    assert !AllHex(braced) by { assert !IsHex(braced[0]); }
    assert !IsHyphenated(braced);
    var urn := "urn:uuid:" + h;
    assert urn[..9] == "urn:uuid:" && urn[9..] == h;
    assert !AllHex(urn) by { assert !IsHex(urn[3]); }
    assert !IsHyphenated(urn);
  }
}
