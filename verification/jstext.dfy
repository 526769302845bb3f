/** JavaScript strings: sequences of UTF-16 code units. String methods and
    regular expressions without the `u` flag work unit by unit, so a character
    outside the Basic Multilingual Plane counts as two units. */
module JsText {
  import opened Seqs

  type CodeUnit = x: int | 0 <= x < 0x1_0000

  type JsString = seq<CodeUnit>

  const NL: CodeUnit := 0x0A
  const SPACE: CodeUnit := 0x20
  const UNDERSCORE: CodeUnit := 0x5F

  /** `.txt`, the extension of recipe files and downloads. */
  const TXT: JsString := [0x2E, 0x74, 0x78, 0x74]

  /** The UTF-16 encoding of one character: itself below U+10000, a surrogate
      pair above. */
  function CharUnits(c: char): (r: JsString)
    ensures c as int < 0x1_0000 ==> r == [c as int]
    ensures c as int >= 0x1_0000 ==>
      && |r| == 2
      && 0xD800 <= r[0] < 0xDC00 && 0xDC00 <= r[1] < 0xE000
      && c as int == 0x1_0000 + (r[0] as int - 0xD800) * 0x400 + (r[1] as int - 0xDC00)
  {
    var v := c as int;
    if v < 0x1_0000 then [v]
    else [0xD800 + (v - 0x1_0000) / 0x400, 0xDC00 + (v - 0x1_0000) % 0x400]
  }

  /** How many characters of the text lie outside the Basic Multilingual
      Plane. */
  function AstralCount(s: string): (n: nat)
    ensures n <= |s|
  {
    if |s| == 0 then 0 else (if s[0] as int >= 0x1_0000 then 1 else 0) + AstralCount(s[1..])
  }

  /** A text as JavaScript sees it (what `JSON.parse` yields for a string the
      server sent): one unit per character, plus one more for each character
      outside the Basic Multilingual Plane. */
  function Utf16(s: string): (r: JsString)
    ensures |r| == |s| + AstralCount(s)
    ensures |r| >= |s|
    decreases |s|
  {
    if |s| == 0 then [] else CharUnits(s[0]) + Utf16(s[1..])
  }

  /** All characters lie in the Basic Multilingual Plane. */
  predicate IsBmp(s: string) {
    forall i :: 0 <= i < |s| ==> s[i] as int < 0x1_0000
  }

  /** The code units of a BMP text, one per character; used for the literals of
      the JavaScript sources. */
  function Bmp(s: string): (r: JsString)
    requires IsBmp(s)
    ensures |r| == |s|
    ensures forall i :: 0 <= i < |s| ==> r[i] == s[i] as int
  {
    seq(|s|, i requires 0 <= i < |s| => s[i] as int)
  }

  /** For BMP text the UTF-16 encoding is one unit per character. */
  lemma {:induction false} Utf16OfBmp(s: string)
    requires IsBmp(s)
    ensures Utf16(s) == Bmp(s)
    decreases |s|
  {
    if |s| > 0 {
      Utf16OfBmp(s[1..]);
      assert Bmp(s) == [s[0] as int] + Bmp(s[1..]);
    }
  }

  /** A run of `n` spaces (template-literal indentation). */
  function Spaces(n: nat): (r: JsString)
    ensures |r| == n
    ensures forall i :: 0 <= i < n ==> r[i] == SPACE
  {
    seq(n, i => SPACE)
  }

  predicate NotSpace(u: CodeUnit) {
    u != SPACE
  }

  /** The text with every space removed. */
  function WithoutSpaces(s: JsString): (r: JsString)
    ensures SPACE !in r
  {
    Filter(s, NotSpace)
  }

  lemma {:induction false} SpacesVanish(n: nat)
    ensures WithoutSpaces(Spaces(n)) == []
    decreases n
  {
    if n > 0 {
      assert Spaces(n)[1..] == Spaces(n - 1);
      SpacesVanish(n - 1);
    }
  }
}
