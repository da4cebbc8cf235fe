/**
 * How a codepoint becomes the `unicode` attribute of a glyph:
 * `String.fromCodePoint` produces UTF-16 code units, punycode's
 * `ucs2.decode` folds surrogate pairs back into codepoints, and each
 * codepoint is written as the XML numeric character reference
 * `&#x` + upper-case hex + `;`.
 */
module Codepoints {
  import opened Wrappers
  import opened BuildErrors
  import opened Text

  const MAX_CODE_POINT := 0x10FFFF

  predicate IsHighSurrogate(u: nat) { 0xD800 <= u <= 0xDBFF }
  predicate IsLowSurrogate(u: nat) { 0xDC00 <= u <= 0xDFFF }

  /**
   * `String.fromCodePoint(cp)` as a sequence of UTF-16 code units: one unit
   * below U+10000, a surrogate pair above, a RangeError past U+10FFFF.
   */
  function FromCodePoint(cp: nat): (r: Result<seq<nat>, BuildError>)
    ensures r.Failure? <==> cp > MAX_CODE_POINT
    ensures r.Failure? ==> r.error == CodePointOutOfRange(cp)
    ensures r.Success? ==> 1 <= |r.value| <= 2 && forall k :: 0 <= k < |r.value| ==> r.value[k] < 0x10000
    ensures r.Success? ==> (|r.value| == 2 <==> cp >= 0x10000)
  {
    if cp > MAX_CODE_POINT then Failure(CodePointOutOfRange(cp))
    else if cp < 0x10000 then Success([cp])
    else Success([0xD800 + (cp - 0x10000) / 0x400, 0xDC00 + (cp - 0x10000) % 0x400])
  }

  /**
   * punycode's `ucs2.decode`: a high surrogate followed by a low surrogate
   * becomes one codepoint; every other unit stands for itself.
   */
  function Ucs2Decode(units: seq<nat>): seq<nat>
    decreases |units|
  {
    if |units| == 0 then []
    else if IsHighSurrogate(units[0]) && |units| >= 2 && IsLowSurrogate(units[1]) then
      [(units[0] - 0xD800) * 0x400 + (units[1] - 0xDC00) + 0x10000] + Ucs2Decode(units[2..])
    else [units[0]] + Ucs2Decode(units[1..])
  }

  /** Decoding the code units of any valid codepoint gives that codepoint back. */
  lemma DecodeFromCodePoint(cp: nat)
    requires cp <= MAX_CODE_POINT
    ensures Ucs2Decode(FromCodePoint(cp).value) == [cp]
  {
    var units := FromCodePoint(cp).value;
    if cp >= 0x10000 {
      assert IsHighSurrogate(units[0]) && IsLowSurrogate(units[1]);
      assert units[2..] == [];
    } else {
      assert units[1..] == [];
    }
  }

  /** The numeric character reference `&#xHEX;` with upper-case hex digits. */
  function Reference(point: nat): string
  {
    "&#x" + Upper(ToHexString(point)) + ";"
  }

  lemma ReferenceReadBack(point: nat)
    ensures var r := Reference(point); |r| >= 5 && ParseHex(r[3..|r| - 1]) == point
  {
    var r := Reference(point);
    assert r[3..|r| - 1] == Upper(ToHexString(point));
    ParseHexUpper(ToHexString(point));
    HexReadBack(point);
  }

  /** Distinct codepoints are written as distinct references. */
  lemma ReferenceInjective(a: nat, b: nat)
    ensures Reference(a) == Reference(b) <==> a == b
  {
    ReferenceReadBack(a);
    ReferenceReadBack(b);
  }

  /** `.map(point => &#x…;).join('')` over the decoded codepoints. */
  function ReferencesText(points: seq<nat>): string {
    if |points| == 0 then "" else Reference(points[0]) + ReferencesText(points[1..])
  }

  /** The reference string the build computes for one codepoint. */
  function UnicodeString(cp: nat): Result<string, BuildError> {
    match FromCodePoint(cp)
    case Failure(e) => Failure(e)
    case Success(units) => Success(ReferencesText(Ucs2Decode(units)))
  }

  /**
   * The build's detour through UTF-16 and back is lossless: a codepoint up to
   * U+10FFFF yields exactly its own reference, and a larger one a RangeError.
   */
  lemma UnicodeStringIsReference(cp: nat)
    ensures cp <= MAX_CODE_POINT ==> UnicodeString(cp) == Success(Reference(cp))
    ensures cp > MAX_CODE_POINT ==> UnicodeString(cp) == Failure(CodePointOutOfRange(cp))
  {
    if cp <= MAX_CODE_POINT {
      DecodeFromCodePoint(cp);
      var units := FromCodePoint(cp).value;
      assert FromCodePoint(cp) == Success(units);
      assert ReferencesText([cp]) == Reference(cp) + ReferencesText([]);
      assert ReferencesText(Ucs2Decode(units)) == Reference(cp);
    }
  }

  /** The Private Use Area of the Basic Multilingual Plane, U+E000..U+F8FF. */
  predicate InPrivateUseArea(cp: int) { 0xE000 <= cp <= 0xF8FF }
}
