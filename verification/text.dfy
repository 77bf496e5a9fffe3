/**
  ECMAScript string values as the validators see them: sequences of UTF-16
  code units, the whitespace set that `String.prototype.trim` strips, and
  `Trim` itself with its characterising lemmas.
 */
module Text {

  /** One UTF-16 code unit, the element of an ECMAScript string value.
      `.length` counts these, not Unicode characters. */
  newtype CodeUnit = u: int | 0 <= u < 0x1_0000

  /** The code units `String.prototype.trim` removes: the WhiteSpace and
      LineTerminator productions of ECMAScript (ECMA-262, 14th edition,
      sections 12.2 and 12.3), with the Unicode "Zs" category as of
      Unicode 15. */
  predicate IsWhitespace(u: CodeUnit) {
    // WhiteSpace: TAB, VT, FF, ZWNBSP
    || u == 0x0009 || u == 0x000B || u == 0x000C || u == 0xFEFF
    // WhiteSpace: category Zs
    || u == 0x0020 || u == 0x00A0 || u == 0x1680
    || (0x2000 <= u <= 0x200A) || u == 0x202F || u == 0x205F || u == 0x3000
    // LineTerminator: LF, CR, LS, PS
    || u == 0x000A || u == 0x000D || u == 0x2028 || u == 0x2029
  }

  ghost predicate AllWhitespace(s: seq<CodeUnit>) {
    forall i :: 0 <= i < |s| ==> IsWhitespace(s[i])
  }

  /** Every code unit of `s` outside positions `lo..hi` is whitespace. */
  ghost predicate WhitespaceOutside(s: seq<CodeUnit>, lo: nat, hi: nat) {
    forall i :: 0 <= i < |s| && !(lo <= i < hi) ==> IsWhitespace(s[i])
  }

  /** Neither the first nor the last code unit is whitespace. */
  predicate IsTrimmed(s: seq<CodeUnit>) {
    s == [] || (!IsWhitespace(s[0]) && !IsWhitespace(s[|s| - 1]))
  }

  /** The number of whitespace code units `s` starts with. */
  function LeadingWhitespace(s: seq<CodeUnit>): (k: nat)
    ensures k <= |s|
    ensures forall i :: 0 <= i < k ==> IsWhitespace(s[i])
    ensures k < |s| ==> !IsWhitespace(s[k])
  {
    if s == [] || !IsWhitespace(s[0]) then 0
    else 1 + LeadingWhitespace(s[1..])
  }

  /** The number of whitespace code units `s` ends with. */
  function TrailingWhitespace(s: seq<CodeUnit>): (k: nat)
    ensures k <= |s|
    ensures forall i :: |s| - k <= i < |s| ==> IsWhitespace(s[i])
    ensures k < |s| ==> !IsWhitespace(s[|s| - 1 - k])
  {
    if s == [] || !IsWhitespace(s[|s| - 1]) then 0
    else 1 + TrailingWhitespace(s[..|s| - 1])
  }

  /** `String.prototype.trim`: leading and trailing whitespace removed. */
  function Trim(s: seq<CodeUnit>): (r: seq<CodeUnit>)
    ensures IsTrimmed(r)
    ensures |r| <= |s|
    ensures r == [] <==> AllWhitespace(s)
  {
    var lo := LeadingWhitespace(s);
    if lo == |s| then []
    else
      var hi := |s| - TrailingWhitespace(s);
      assert lo < hi;
      var r := s[lo..hi];
      assert r[0] == s[lo] && r[|r| - 1] == s[hi - 1];
      r
  }

  /** The trimmed value is one contiguous slice of the input, and everything
      cut away on either side is whitespace. */
  lemma TrimIsSlice(s: seq<CodeUnit>) returns (lo: nat, hi: nat)
    ensures lo <= hi <= |s|
    ensures Trim(s) == s[lo..hi]
    ensures WhitespaceOutside(s, lo, hi)
  {
    lo := LeadingWhitespace(s);
    if lo == |s| {
      hi := lo;
    } else {
      hi := |s| - TrailingWhitespace(s);
    }
  }

  /** Trimming a value that has no whitespace at its ends changes nothing. */
  lemma TrimOfTrimmed(s: seq<CodeUnit>)
    requires IsTrimmed(s)
    ensures Trim(s) == s
  {
    if s != [] {
      assert TrailingWhitespace(s) == 0;
    }
  }

  /** Trimming is idempotent. */
  lemma TrimIdempotent(s: seq<CodeUnit>)
    ensures Trim(Trim(s)) == Trim(s)
  {
    TrimOfTrimmed(Trim(s));
  }

  /** `Trim` is determined by its contract: any slice of `s` with whitespace
      only outside it and no whitespace at its own ends is `Trim(s)`. */
  lemma TrimUnique(s: seq<CodeUnit>, lo: nat, hi: nat)
    requires lo <= hi <= |s|
    requires WhitespaceOutside(s, lo, hi)
    requires IsTrimmed(s[lo..hi])
    ensures s[lo..hi] == Trim(s)
  {
    var lo', hi' := TrimIsSlice(s);
    if lo == hi {
      assert AllWhitespace(s);
    } else {
      assert s[lo..hi][0] == s[lo] && s[lo..hi][hi - lo - 1] == s[hi - 1];
      assert !AllWhitespace(s);
      assert lo' < hi';
      assert s[lo'..hi'][0] == s[lo'] && s[lo'..hi'][hi' - lo' - 1] == s[hi' - 1];
      assert lo == lo' && hi == hi';
    }
  }

  /** The UTF-16 encoding of one Unicode scalar value: one code unit inside
      the Basic Multilingual Plane, a surrogate pair beyond it. */
  function EncodeChar(c: char): (r: seq<CodeUnit>)
    ensures |r| == (if c as int < 0x1_0000 then 1 else 2)
    ensures c as int < 0x1_0000 ==> r[0] as int == c as int
  {
    var v := c as int;
    if v < 0x1_0000 then [v as CodeUnit]
    else
      var w := v - 0x1_0000;
      [(0xD800 + w / 0x400) as CodeUnit, (0xDC00 + w % 0x400) as CodeUnit]
  }

  /** Every character of `s` lies in the Basic Multilingual Plane. */
  predicate InBmp(s: string) {
    forall i :: 0 <= i < |s| ==> s[i] as int < 0x1_0000
  }

  /** The ECMAScript string value of a Unicode text: one or two code units
      per character. */
  function Utf16(s: string): (r: seq<CodeUnit>)
    ensures |s| <= |r| <= 2 * |s|
  {
    if s == [] then [] else EncodeChar(s[0]) + Utf16(s[1..])
  }

  /** `v` holds the characters of `s` one code unit each, in order. */
  ghost predicate Spells(v: seq<CodeUnit>, s: string) {
    |v| == |s| && forall i :: 0 <= i < |s| ==> v[i] as int == s[i] as int
  }

  /** Inside the Basic Multilingual Plane the encoding is one code unit per
      character, equal to the character's scalar value; so there `.length`
      counts characters. */
  lemma {:induction false} Utf16OfBmp(s: string)
    requires InBmp(s)
    ensures Spells(Utf16(s), s)
  {
    if s != [] {
      Utf16OfBmp(s[1..]);
    }
  }
}
