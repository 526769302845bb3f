/** Strict UTF-8, as Python's `bytes.decode("utf-8")` applies it: the
    well-formed byte sequences of section 4 of RFC 3629, a decoder that rejects
    everything else, and the encoder it inverts. */
module Utf8 {
  import opened Options
  import opened Seqs

  type byte = x: int | 0 <= x < 0x100

  predicate IsTail(b: byte) {
    0x80 <= b <= 0xBF
  }

  /** The grammar of section 4 of RFC 3629: the length of the UTF8-char that
      starts `s` (UTF8-1 to UTF8-4, with their exact second-byte ranges), or 0
      when `s` starts with none. */
  function CharLength(s: seq<byte>): (n: nat)
    ensures n <= |s| && n <= 4
  {
    if |s| >= 1 && s[0] <= 0x7F then 1
    else if |s| >= 2 && 0xC2 <= s[0] <= 0xDF && IsTail(s[1]) then 2
    else if |s| >= 3 && IsTail(s[2]) &&
      (|| (s[0] == 0xE0 && 0xA0 <= s[1] <= 0xBF)
       || (0xE1 <= s[0] <= 0xEC && IsTail(s[1]))
       || (s[0] == 0xED && 0x80 <= s[1] <= 0x9F)
       || (0xEE <= s[0] <= 0xEF && IsTail(s[1]))) then 3
    else if |s| >= 4 && IsTail(s[2]) && IsTail(s[3]) &&
      (|| (s[0] == 0xF0 && 0x90 <= s[1] <= 0xBF)
       || (0xF1 <= s[0] <= 0xF3 && IsTail(s[1]))
       || (s[0] == 0xF4 && 0x80 <= s[1] <= 0x8F)) then 4
    else 0
  }

  /** UTF8-octets = *( UTF8-char ). */
  predicate Valid(s: seq<byte>)
    decreases |s|
  {
    |s| == 0 || (CharLength(s) > 0 && Valid(s[CharLength(s)..]))
  }

  /** One decoded character and the number of bytes it took. */
  datatype Step = Step(c: char, len: nat)

  /** The decoder's view of the first character: the lead byte gives the
      length, the payload bits give the scalar value, and overlong forms,
      surrogates and values past U+10FFFF are refused. */
  function DecodeChar(s: seq<byte>): (r: Option<Step>)
    ensures r.Some? ==> 1 <= r.value.len <= |s| && r.value.len <= 4
  {
    if |s| == 0 then None
    else
      var b0: int := s[0];
      if b0 < 0x80 then Some(Step(b0 as char, 1))
      else if 0xC0 <= b0 < 0xE0 then
        if |s| < 2 || !IsTail(s[1]) then None
        else
          var v := (b0 - 0xC0) * 0x40 + (s[1] as int - 0x80);
          if v < 0x80 then None else Some(Step(v as char, 2))
      else if 0xE0 <= b0 < 0xF0 then
        if |s| < 3 || !IsTail(s[1]) || !IsTail(s[2]) then None
        else
          var v := (b0 - 0xE0) * 0x1000 + (s[1] as int - 0x80) * 0x40 + (s[2] as int - 0x80);
          if v < 0x800 || 0xD800 <= v < 0xE000 then None else Some(Step(v as char, 3))
      else if 0xF0 <= b0 < 0xF8 then
        if |s| < 4 || !IsTail(s[1]) || !IsTail(s[2]) || !IsTail(s[3]) then None
        else
          var v := (b0 - 0xF0) * 0x4_0000 + (s[1] as int - 0x80) * 0x1000 + (s[2] as int - 0x80) * 0x40 + (s[3] as int - 0x80);
          if v < 0x1_0000 || v > 0x10_FFFF then None else Some(Step(v as char, 4))
      else None
  }

  /** `bytes.decode("utf-8")`: the decoded text, or None where Python raises
      UnicodeDecodeError. */
  function Decode(s: seq<byte>): (r: Option<string>)
    decreases |s|
  {
    if |s| == 0 then Some([])
    else
      match DecodeChar(s)
      case None => None
      case Some(step) =>
        match Decode(s[step.len..])
        case None => None
        case Some(t) => Some([step.c] + t)
  }

  /** `str.encode("utf-8")` of one character. */
  function EncodeChar(c: char): (r: seq<byte>)
    ensures 1 <= |r| <= 4
  {
    var v := c as int;
    if v < 0x80 then [v]
    else if v < 0x800 then [0xC0 + v / 0x40, 0x80 + v % 0x40]
    else if v < 0x1_0000 then [0xE0 + v / 0x1000, 0x80 + (v / 0x40) % 0x40, 0x80 + v % 0x40]
    else [0xF0 + v / 0x4_0000, 0x80 + (v / 0x1000) % 0x40, 0x80 + (v / 0x40) % 0x40, 0x80 + v % 0x40]
  }

  function Encode(s: string): (r: seq<byte>)
    ensures |r| >= |s|
    decreases |s|
  {
    if |s| == 0 then [] else EncodeChar(s[0]) + Encode(s[1..])
  }

  /** The decoder accepts a first character exactly where the RFC 3629
      grammar sees one, and of the same length. */
  lemma DecodeCharMatchesGrammar(s: seq<byte>)
    ensures DecodeChar(s).Some? <==> CharLength(s) > 0
    ensures DecodeChar(s).Some? ==> DecodeChar(s).value.len == CharLength(s)
  {
  }

  /** Decoding succeeds exactly on well-formed input. */
  lemma {:induction false} DecodeSucceedsIffValid(s: seq<byte>)
    ensures Decode(s).Some? <==> Valid(s)
    decreases |s|
  {
    if |s| > 0 {
      DecodeCharMatchesGrammar(s);
      if CharLength(s) > 0 {
        DecodeSucceedsIffValid(s[CharLength(s)..]);
      }
    }
  }

  /** Base-64 digit decomposition of a two-byte scalar value. */
  lemma Digits2(v: int)
    requires 0x80 <= v < 0x800
    ensures v == (v / 0x40) * 0x40 + v % 0x40
    ensures 2 <= v / 0x40 < 0x20
  {
  }

  /** Base-64 digit decomposition of a three-byte scalar value. */
  lemma Digits3(v: int)
    requires 0x800 <= v < 0x1_0000
    ensures v == (v / 0x1000) * 0x1000 + ((v / 0x40) % 0x40) * 0x40 + v % 0x40
    ensures v / 0x1000 < 0x10
    ensures v / 0x1000 == 0 ==> (v / 0x40) % 0x40 >= 0x20
    ensures v / 0x1000 == 0xD ==> (v < 0xD800 <==> (v / 0x40) % 0x40 < 0x20)
  {
  }

  /** Base-64 digit decomposition of a four-byte scalar value. */
  lemma Digits4(v: int)
    requires 0x1_0000 <= v < 0x11_0000
    ensures v == (v / 0x4_0000) * 0x4_0000 + ((v / 0x1000) % 0x40) * 0x1000 + ((v / 0x40) % 0x40) * 0x40 + v % 0x40
    ensures v / 0x4_0000 <= 4
    ensures v / 0x4_0000 == 0 ==> (v / 0x1000) % 0x40 >= 0x10
    ensures v / 0x4_0000 == 4 ==> (v / 0x1000) % 0x40 < 0x10
  {
    assert v == (v / 0x1000) * 0x1000 + v % 0x1000;
    assert v % 0x1000 == ((v / 0x40) % 0x40) * 0x40 + v % 0x40;
    assert v / 0x1000 == (v / 0x4_0000) * 0x40 + (v / 0x1000) % 0x40;
  }

  /** Encoding one character and decoding the result gives the character back,
      whatever follows it. */
  lemma DecodeEncodeChar(c: char, rest: seq<byte>)
    ensures DecodeChar(EncodeChar(c) + rest) == Some(Step(c, |EncodeChar(c)|))
  {
    var v := c as int;
    var e := EncodeChar(c);
    var s := e + rest;
    assert s[0] == e[0];
    if v < 0x80 {
    } else if v < 0x800 {
      Digits2(v);
      assert s[1] == e[1];
    } else if v < 0x1_0000 {
      Digits3(v);
      assert s[1] == e[1] && s[2] == e[2];
    } else {
      Digits4(v);
      assert s[1] == e[1] && s[2] == e[2] && s[3] == e[3];
    }
  }

  /** Decoding inverts encoding. */
  lemma {:induction false} DecodeEncode(t: string)
    ensures Decode(Encode(t)) == Some(t)
    decreases |t|
  {
    if |t| > 0 {
      var e := EncodeChar(t[0]);
      DecodeEncodeChar(t[0], Encode(t[1..]));
      assert (e + Encode(t[1..]))[|e|..] == Encode(t[1..]);
      DecodeEncode(t[1..]);
      ConsDrop(t);
    }
  }

  /** Every encoding is well-formed. */
  lemma EncodeValid(t: string)
    ensures Valid(Encode(t))
  {
    DecodeEncode(t);
    DecodeSucceedsIffValid(Encode(t));
  }

  /** Re-encoding the first decoded character gives back exactly the bytes it
      was decoded from. */
  lemma EncodeDecodeChar(s: seq<byte>)
    requires DecodeChar(s).Some?
    ensures EncodeChar(DecodeChar(s).value.c) == s[..DecodeChar(s).value.len]
  {
    var step := DecodeChar(s).value;
    var v := step.c as int;
    var b0: int := s[0];
    if step.len == 2 {
      var d1: int := s[1] as int - 0x80;
      assert v == (b0 - 0xC0) * 0x40 + d1;
      DigitsUnique2(v, b0 - 0xC0, d1);
    } else if step.len == 3 {
      var d1: int := s[1] as int - 0x80;
      var d2: int := s[2] as int - 0x80;
      assert v == (b0 - 0xE0) * 0x1000 + d1 * 0x40 + d2;
      DigitsUnique3(v, b0 - 0xE0, d1, d2);
    } else if step.len == 4 {
      var d1: int := s[1] as int - 0x80;
      var d2: int := s[2] as int - 0x80;
      var d3: int := s[3] as int - 0x80;
      assert v == (b0 - 0xF0) * 0x4_0000 + d1 * 0x1000 + d2 * 0x40 + d3;
      DigitsUnique4(v, b0 - 0xF0, d1, d2, d3);
    }
  }

  lemma DigitsUnique2(v: int, q: int, d: int)
    requires 0 <= q && 0 <= d < 0x40 && v == q * 0x40 + d
    ensures v / 0x40 == q && v % 0x40 == d
  {
  }

  lemma DigitsUnique3(v: int, q: int, d1: int, d2: int)
    requires 0 <= q && 0 <= d1 < 0x40 && 0 <= d2 < 0x40 && v == q * 0x1000 + d1 * 0x40 + d2
    ensures v / 0x1000 == q && (v / 0x40) % 0x40 == d1 && v % 0x40 == d2
  {
    DigitsUnique2(v, q * 0x40 + d1, d2);
    DigitsUnique2(v / 0x40, q, d1);
  }

  lemma DigitsUnique4(v: int, q: int, d1: int, d2: int, d3: int)
    requires 0 <= q && 0 <= d1 < 0x40 && 0 <= d2 < 0x40 && 0 <= d3 < 0x40
    requires v == q * 0x4_0000 + d1 * 0x1000 + d2 * 0x40 + d3
    ensures v / 0x4_0000 == q && (v / 0x1000) % 0x40 == d1 && (v / 0x40) % 0x40 == d2 && v % 0x40 == d3
  {
    DigitsUnique2(v, q * 0x1000 + d1 * 0x40 + d2, d3);
    DigitsUnique3(v / 0x40, q, d1, d2);
    assert v / 0x1000 == (v / 0x40) / 0x40;
  }

  /** Encoding inverts decoding: a successful decode loses no byte. */
  lemma {:induction false} EncodeDecode(s: seq<byte>)
    requires Decode(s).Some?
    ensures Encode(Decode(s).value) == s
    decreases |s|
  {
    if |s| > 0 {
      var step := DecodeChar(s).value;
      var rest := s[step.len..];
      var t := Decode(rest).value;
      assert Decode(s).value == [step.c] + t;
      EncodeDecodeChar(s);
      EncodeDecode(rest);
      EncodeCons(step.c, t);
      TakeDrop(s, step.len);
    }
  }

  lemma EncodeCons(c: char, t: string)
    ensures Encode([c] + t) == EncodeChar(c) + Encode(t)
  {
    var d := [c] + t;
    assert d[0] == c && d[1..] == t;
  }

  /** A leading byte order mark EF BB BF is decoded to U+FEFF and kept in the
      text, not stripped ("utf-8", unlike "utf-8-sig"). */
  lemma ByteOrderMarkKept(s: seq<byte>)
    ensures Decode([0xEF, 0xBB, 0xBF] + s).Some? <==> Decode(s).Some?
    ensures Decode(s).Some? ==> Decode([0xEF, 0xBB, 0xBF] + s) == Some(['\U{FEFF}'] + Decode(s).value)
  {
    var b := [0xEF, 0xBB, 0xBF] + s;
    assert DecodeChar(b) == Some(Step('\U{FEFF}', 3));
    assert b[3..] == s;
  }
}
