/** Base 64 with the standard alphabet and `=` padding (section 4 of RFC 4648),
    as Python's `base64.b64encode`, and the `data:` URL (RFC 2397) that wraps an
    upload for the vision model. */
module Base64 {
  import opened Options
  import opened Utf8

  /** The character for a 6-bit value (Table 1 of RFC 4648). */
  function Digit(v: int): (c: char)
    requires 0 <= v < 64
  {
    if v < 26 then ('A' as int + v) as char
    else if v < 52 then ('a' as int + (v - 26)) as char
    else if v < 62 then ('0' as int + (v - 52)) as char
    else if v == 62 then '+'
    else '/'
  }

  /** The 6-bit value of an alphabet character; None for anything else,
      including the pad character. */
  function DigitValue(c: char): (r: Option<int>)
    ensures r.Some? ==> 0 <= r.value < 64 && Digit(r.value) == c
  {
    if 'A' <= c <= 'Z' then Some(c as int - 'A' as int)
    else if 'a' <= c <= 'z' then Some(c as int - 'a' as int + 26)
    else if '0' <= c <= '9' then Some(c as int - '0' as int + 52)
    else if c == '+' then Some(62)
    else if c == '/' then Some(63)
    else None
  }

  lemma DigitValueOfDigit(v: int)
    requires 0 <= v < 64
    ensures DigitValue(Digit(v)) == Some(v)
  {
  }

  predicate InAlphabet(c: char) {
    DigitValue(c).Some?
  }

  const PAD := '='

  /** How many pad characters end the encoding of `n` bytes. */
  function PadCount(n: nat): nat {
    (3 - n % 3) % 3
  }

  predicate IsByte(x: int) {
    0 <= x < 256
  }

  /** The layout of an encoding: alphabet characters, then exactly `pads`
      pad characters at the end. */
  predicate Padded(r: string, pads: nat) {
    && pads <= |r|
    && (forall i :: 0 <= i < |r| ==> (r[i] == PAD <==> |r| - pads <= i))
    && (forall i :: 0 <= i < |r| && r[i] != PAD ==> InAlphabet(r[i]))
  }

  /** The final quantum for one remaining byte. */
  function Quad1(x0: int): (r: string)
    requires IsByte(x0)
    ensures |r| == 4 && r[2] == r[3] == PAD
  {
    [Digit(x0 / 4), Digit((x0 % 4) * 16), PAD, PAD]
  }

  /** The final quantum for two remaining bytes. */
  function Quad2(x0: int, x1: int): (r: string)
    requires IsByte(x0) && IsByte(x1)
    ensures |r| == 4 && r[3] == PAD
  {
    [Digit(x0 / 4), Digit((x0 % 4) * 16 + x1 / 16), Digit((x1 % 16) * 4), PAD]
  }

  /** A full quantum: 24 bits as four 6-bit digits. */
  function Quad3(x0: int, x1: int, x2: int): (r: string)
    requires IsByte(x0) && IsByte(x1) && IsByte(x2)
    ensures |r| == 4
  {
    [Digit(x0 / 4), Digit((x0 % 4) * 16 + x1 / 16), Digit((x1 % 16) * 4 + x2 / 64), Digit(x2 % 64)]
  }

  /** `base64.b64encode(b).decode()`: every three bytes become four characters,
      a final group of one or two bytes is padded with `=` to four. */
  function Encode(b: seq<byte>): (r: string)
    ensures |r| == 4 * ((|b| + 2) / 3)
    decreases |b|
  {
    if |b| == 0 then []
    else if |b| == 1 then Quad1(b[0])
    else if |b| == 2 then Quad2(b[0], b[1])
    else
      EncodedLengthStep(|b|);
      Quad3(b[0], b[1], b[2]) + Encode(b[3..])
  }

  /** The test vectors of section 10 of RFC 4648, which fix the bit order:
      "f", "fo", "foo" and "foobar". */
  lemma EncodeTestVectors()
    ensures Encode([0x66]) == "Zg=="
    ensures Encode([0x66, 0x6F]) == "Zm8="
    ensures Encode([0x66, 0x6F, 0x6F]) == "Zm9v"
    ensures Encode([0x66, 0x6F, 0x6F, 0x62, 0x61, 0x72]) == "Zm9vYmFy"
  {
    QuadF();
    QuadFo();
    QuadFoo();
    EncodeThreeBytes([0x66, 0x6F, 0x6F]);
    EncodeSixBytes();
  }

  lemma QuadF()
    ensures Quad1(0x66) == "Zg=="
  {
    assert Digit(0x19) == 'Z' && Digit(0x20) == 'g';
  }

  lemma QuadFo()
    ensures Quad2(0x66, 0x6F) == "Zm8="
  {
    assert Digit(0x19) == 'Z' && Digit(0x26) == 'm' && Digit(0x3C) == '8';
  }

  lemma QuadFoo()
    ensures Quad3(0x66, 0x6F, 0x6F) == "Zm9v"
  {
    assert Digit(0x19) == 'Z' && Digit(0x26) == 'm' && Digit(0x3D) == '9' && Digit(0x2F) == 'v';
  }

  lemma QuadBar()
    ensures Quad3(0x62, 0x61, 0x72) == "YmFy"
  {
    assert Digit(0x18) == 'Y' && Digit(0x26) == 'm' && Digit(0x05) == 'F' && Digit(0x32) == 'y';
  }

  lemma EncodeSixBytes()
    ensures Encode([0x66, 0x6F, 0x6F, 0x62, 0x61, 0x72]) == "Zm9vYmFy"
  {
    var foobar: seq<byte> := [0x66, 0x6F, 0x6F, 0x62, 0x61, 0x72];
    EncodeStep(foobar);
    assert foobar[3..] == [0x62, 0x61, 0x72];
    EncodeThreeBytes(foobar[3..]);
    QuadFoo();
    QuadBar();
  }

  /** Three more bytes, four more characters. */
  lemma EncodedLengthStep(n: nat)
    requires n >= 3
    ensures 4 * ((n + 2) / 3) == 4 + 4 * ((n - 3 + 2) / 3)
  {
  }

  /** An unpadded quantum in front keeps the layout of what follows. */
  lemma PaddedConcat(q: string, rest: string, pads: nat)
    requires Padded(q, 0) && Padded(rest, pads)
    ensures Padded(q + rest, pads)
  {
    var r := q + rest;
    forall i | 0 <= i < |r|
      ensures (r[i] == PAD <==> |r| - pads <= i)
      ensures r[i] != PAD ==> InAlphabet(r[i])
    {
      if i < |q| {
        assert r[i] == q[i];
      } else {
        assert r[i] == rest[i - |q|];
      }
    }
  }

  lemma Quad1Padded(x0: int)
    requires IsByte(x0)
    ensures Padded(Quad1(x0), 2)
  {
    DigitValueOfDigit(x0 / 4);
    DigitValueOfDigit((x0 % 4) * 16);
  }

  lemma Quad2Padded(x0: int, x1: int)
    requires IsByte(x0) && IsByte(x1)
    ensures Padded(Quad2(x0, x1), 1)
  {
    DigitValueOfDigit(x0 / 4);
    DigitValueOfDigit((x0 % 4) * 16 + x1 / 16);
    DigitValueOfDigit((x1 % 16) * 4);
  }

  lemma Quad3Padded(x0: int, x1: int, x2: int)
    requires IsByte(x0) && IsByte(x1) && IsByte(x2)
    ensures Padded(Quad3(x0, x1, x2), 0)
  {
    DigitValueOfDigit(x0 / 4);
    DigitValueOfDigit((x0 % 4) * 16 + x1 / 16);
    DigitValueOfDigit((x1 % 16) * 4 + x2 / 64);
    DigitValueOfDigit(x2 % 64);
  }

  /** The output uses only the 64 alphabet characters, followed by the
      number of pad characters that makes the length a multiple of four. */
  lemma {:induction false} EncodePadded(b: seq<byte>)
    ensures Padded(Encode(b), PadCount(|b|))
    decreases |b|
  {
    if |b| == 1 {
      Quad1Padded(b[0]);
    } else if |b| == 2 {
      Quad2Padded(b[0], b[1]);
    } else if |b| >= 3 {
      EncodePadded(b[3..]);
      EncodePaddedStep(b);
    }
  }

  lemma EncodePaddedStep(b: seq<byte>)
    requires |b| >= 3 && Padded(Encode(b[3..]), PadCount(|b[3..]|))
    ensures Padded(Encode(b), PadCount(|b|))
  {
    var q := Quad3(b[0], b[1], b[2]);
    var rest := Encode(b[3..]);
    assert Encode(b) == q + rest;
    Quad3Padded(b[0], b[1], b[2]);
    PadCountStep(|b[3..]|);
    PaddedConcat(q, rest, PadCount(|b[3..]|));
  }

  lemma PadCountStep(n: nat)
    ensures PadCount(n + 3) == PadCount(n)
  {
  }

  /** Decodes one quantum of four characters; a padded quantum must have zero
      spare bits, so that only canonical encodings are accepted. */
  function DecodeQuad(q: string): (r: Option<seq<byte>>)
    requires |q| == 4
    ensures r.Some? ==> 1 <= |r.value| <= 3
    ensures r.Some? ==> (|r.value| == 3 <==> q[3] != PAD)
  {
    var v0 := DigitValue(q[0]);
    var v1 := DigitValue(q[1]);
    if v0.None? || v1.None? then None
    else
      var a := v0.value;
      var b := v1.value;
      if q[2] == PAD then
        if q[3] == PAD && b % 16 == 0 then Some([a * 4 + b / 16]) else None
      else
        var v2 := DigitValue(q[2]);
        if v2.None? then None
        else
          var c := v2.value;
          if q[3] == PAD then
            if c % 4 == 0 then Some([a * 4 + b / 16, (b % 16) * 16 + c / 4]) else None
          else
            var v3 := DigitValue(q[3]);
            if v3.None? then None
            else Some([a * 4 + b / 16, (b % 16) * 16 + c / 4, (c % 4) * 64 + v3.value])
  }

  /** Strict decoding: whole quanta only, padding only in the last one. */
  function Decode(s: string): (r: Option<seq<byte>>)
    decreases |s|
  {
    if |s| == 0 then Some([])
    else if |s| < 4 then None
    else
      match DecodeQuad(s[..4])
      case None => None
      case Some(bytes) =>
        if |bytes| < 3 then (if |s| == 4 then Some(bytes) else None)
        else
          match Decode(s[4..])
          case None => None
          case Some(more) => Some(bytes + more)
  }

  /** The arithmetic of splitting bytes into digits and joining them again. */
  lemma BitsOfBytes(x0: int, x1: int, x2: int)
    requires IsByte(x0) && IsByte(x1) && IsByte(x2)
    ensures ((x0 % 4) * 16 + x1 / 16) / 16 == x0 % 4
    ensures ((x0 % 4) * 16 + x1 / 16) % 16 == x1 / 16
    ensures ((x1 % 16) * 4 + x2 / 64) / 4 == x1 % 16
    ensures ((x1 % 16) * 4 + x2 / 64) % 4 == x2 / 64
  {
  }

  lemma DecodeQuad1(x0: int)
    requires IsByte(x0)
    ensures DecodeQuad(Quad1(x0)) == Some([x0])
  {
    DigitValueOfDigit(x0 / 4);
    DigitValueOfDigit((x0 % 4) * 16);
  }

  lemma DecodeQuad2(x0: int, x1: int)
    requires IsByte(x0) && IsByte(x1)
    ensures DecodeQuad(Quad2(x0, x1)) == Some([x0, x1])
  {
    BitsOfBytes(x0, x1, 0);
    DigitValueOfDigit(x0 / 4);
    DigitValueOfDigit((x0 % 4) * 16 + x1 / 16);
    DigitValueOfDigit((x1 % 16) * 4);
  }

  lemma DecodeQuad3(x0: int, x1: int, x2: int)
    requires IsByte(x0) && IsByte(x1) && IsByte(x2)
    ensures DecodeQuad(Quad3(x0, x1, x2)) == Some([x0, x1, x2])
  {
    BitsOfBytes(x0, x1, x2);
    DigitValueOfDigit(x0 / 4);
    DigitValueOfDigit((x0 % 4) * 16 + x1 / 16);
    DigitValueOfDigit((x1 % 16) * 4 + x2 / 64);
    DigitValueOfDigit(x2 % 64);
  }

  /** A final quantum decodes on its own. */
  lemma DecodeLastQuad(q: string, r: seq<byte>)
    requires |q| == 4 && DecodeQuad(q) == Some(r) && |r| < 3
    ensures Decode(q) == Some(r)
  {
    assert q[..4] == q;
  }

  /** A full quantum followed by more text decodes to its three bytes
      followed by the decoding of the rest. */
  lemma DecodeFullQuad(q: string, r: seq<byte>, rest: string)
    requires |q| == 4 && DecodeQuad(q) == Some(r) && |r| == 3
    ensures Decode(q + rest) == (match Decode(rest) case None => None case Some(more) => Some(r + more))
  {
    var s := q + rest;
    assert s[..4] == q;
    assert s[4..] == rest;
  }

  /** Decoding inverts encoding. */
  lemma {:induction false} DecodeEncode(b: seq<byte>)
    ensures Decode(Encode(b)) == Some(b)
    decreases |b|
  {
    if |b| == 1 {
      DecodeEncodeShort1(b);
    } else if |b| == 2 {
      DecodeEncodeShort2(b);
    } else if |b| >= 3 {
      DecodeEncode(b[3..]);
      DecodeEncodeStep(b);
    }
  }

  lemma DecodeEncodeShort1(b: seq<byte>)
    requires |b| == 1
    ensures Decode(Encode(b)) == Some(b)
  {
    DecodeQuad1(b[0]);
    DecodeLastQuad(Quad1(b[0]), [b[0] as int]);
    assert [b[0] as int] == b;
  }

  lemma DecodeEncodeShort2(b: seq<byte>)
    requires |b| == 2
    ensures Decode(Encode(b)) == Some(b)
  {
    DecodeQuad2(b[0], b[1]);
    DecodeLastQuad(Quad2(b[0], b[1]), [b[0] as int, b[1] as int]);
    assert [b[0] as int, b[1] as int] == b;
  }

  lemma DecodeEncodeStep(b: seq<byte>)
    requires |b| >= 3 && Decode(Encode(b[3..])) == Some(b[3..])
    ensures Decode(Encode(b)) == Some(b)
  {
    var x: seq<byte> := [b[0], b[1], b[2]];
    SplitThree(b);
    EncodeStep(b);
    DecodeQuad3(b[0], b[1], b[2]);
    DecodeJoin(Quad3(b[0], b[1], b[2]), x, Encode(b[3..]), b[3..]);
  }

  lemma SplitThree(b: seq<byte>)
    requires |b| >= 3
    ensures [b[0], b[1], b[2]] + b[3..] == b
  {
  }

  lemma DecodeJoin(q: string, r: seq<byte>, rest: string, more: seq<byte>)
    requires |q| == 4 && DecodeQuad(q) == Some(r) && |r| == 3
    requires Decode(rest) == Some(more)
    ensures Decode(q + rest) == Some(r + more)
  {
    DecodeFullQuad(q, r, rest);
  }

  lemma EncodeStep(b: seq<byte>)
    requires |b| >= 3
    ensures Encode(b) == Quad3(b[0], b[1], b[2]) + Encode(b[3..])
  {
  }

  /** The arithmetic of joining digits into bytes and splitting them again. */
  lemma BytesOfBits(a: int, b: int, c: int, d: int)
    requires 0 <= a < 64 && 0 <= b < 64 && 0 <= c < 64 && 0 <= d < 64
    ensures (a * 4 + b / 16) / 4 == a
    ensures ((a * 4 + b / 16) % 4) * 16 + ((b % 16) * 16 + c / 4) / 16 == b
    ensures (((b % 16) * 16 + c / 4) % 16) * 4 + ((c % 4) * 64 + d) / 64 == c
    ensures ((c % 4) * 64 + d) % 64 == d
  {
  }

  lemma EncodeThreeBytes(r: seq<byte>)
    requires |r| == 3
    ensures Encode(r) == Quad3(r[0], r[1], r[2])
  {
    assert Encode(r[3..]) == [];
  }

  lemma Reencode1(a: int, b: int)
    requires 0 <= a < 64 && 0 <= b < 64 && b % 16 == 0
    ensures IsByte(a * 4 + b / 16)
    ensures Quad1(a * 4 + b / 16) == [Digit(a), Digit(b), PAD, PAD]
  {
    BytesOfBits(a, b, 0, 0);
  }

  lemma Reencode2(a: int, b: int, c: int)
    requires 0 <= a < 64 && 0 <= b < 64 && 0 <= c < 64 && c % 4 == 0
    ensures IsByte(a * 4 + b / 16) && IsByte((b % 16) * 16 + c / 4)
    ensures Quad2(a * 4 + b / 16, (b % 16) * 16 + c / 4) == [Digit(a), Digit(b), Digit(c), PAD]
  {
    BytesOfBits(a, b, c, 0);
  }

  lemma Reencode3(a: int, b: int, c: int, d: int)
    requires 0 <= a < 64 && 0 <= b < 64 && 0 <= c < 64 && 0 <= d < 64
    ensures IsByte(a * 4 + b / 16) && IsByte((b % 16) * 16 + c / 4) && IsByte((c % 4) * 64 + d)
    ensures Quad3(a * 4 + b / 16, (b % 16) * 16 + c / 4, (c % 4) * 64 + d) == [Digit(a), Digit(b), Digit(c), Digit(d)]
  {
    BytesOfBits(a, b, c, d);
  }

  /** A decoded quantum re-encodes to the same four characters. */
  lemma EncodeDecodeQuad(q: string)
    requires |q| == 4 && DecodeQuad(q).Some?
    ensures Encode(DecodeQuad(q).value) == q
  {
    if q[2] == PAD {
      EncodeDecodeQuad1(q);
    } else if q[3] == PAD {
      EncodeDecodeQuad2(q);
    } else {
      EncodeDecodeQuad3(q);
    }
  }

  lemma EncodeDecodeQuad1(q: string)
    requires |q| == 4 && DecodeQuad(q).Some? && q[2] == PAD
    ensures Encode(DecodeQuad(q).value) == q
  {
    var a := DigitValue(q[0]).value;
    var b := DigitValue(q[1]).value;
    Reencode1(a, b);
    assert q == [Digit(a), Digit(b), PAD, PAD];
  }

  lemma EncodeDecodeQuad2(q: string)
    requires |q| == 4 && DecodeQuad(q).Some? && q[2] != PAD && q[3] == PAD
    ensures Encode(DecodeQuad(q).value) == q
  {
    var a := DigitValue(q[0]).value;
    var b := DigitValue(q[1]).value;
    var c := DigitValue(q[2]).value;
    Reencode2(a, b, c);
    assert q == [Digit(a), Digit(b), Digit(c), PAD];
  }

  lemma EncodeDecodeQuad3(q: string)
    requires |q| == 4 && DecodeQuad(q).Some? && q[2] != PAD && q[3] != PAD
    ensures Encode(DecodeQuad(q).value) == q
  {
    var r := DecodeQuad(q).value;
    Requad3(q);
    EncodeThreeBytes(r);
  }

  /** The three bytes of an unpadded quantum spell it again. */
  lemma Requad3(q: string)
    requires |q| == 4 && DecodeQuad(q).Some? && q[2] != PAD && q[3] != PAD
    ensures var r := DecodeQuad(q).value; |r| == 3 && Quad3(r[0], r[1], r[2]) == q
  {
    var a := DigitValue(q[0]).value;
    var b := DigitValue(q[1]).value;
    var c := DigitValue(q[2]).value;
    var d := DigitValue(q[3]).value;
    Reencode3(a, b, c, d);
    DecodeUnpaddedQuad(q);
    assert q == [Digit(a), Digit(b), Digit(c), Digit(d)];
  }

  /** An unpadded quantum decodes to the three bytes its digits spell. */
  lemma DecodeUnpaddedQuad(q: string)
    requires |q| == 4 && DecodeQuad(q).Some? && q[2] != PAD && q[3] != PAD
    ensures DigitValue(q[0]).Some? && DigitValue(q[1]).Some? && DigitValue(q[2]).Some? && DigitValue(q[3]).Some?
    ensures var a, b, c, d := DigitValue(q[0]).value, DigitValue(q[1]).value, DigitValue(q[2]).value, DigitValue(q[3]).value;
      DecodeQuad(q).value == [a * 4 + b / 16, (b % 16) * 16 + c / 4, (c % 4) * 64 + d]
  {
  }

  /** Only canonical encodings decode: what decodes is the encoding of its
      result. */
  lemma {:induction false} EncodeDecode(s: string)
    requires Decode(s).Some?
    ensures Encode(Decode(s).value) == s
    decreases |s|
  {
    if |s| > 0 {
      var bytes := DecodeQuad(s[..4]).value;
      EncodeDecodeQuad(s[..4]);
      if |bytes| == 3 {
        var more := Decode(s[4..]).value;
        EncodeDecode(s[4..]);
        var all := bytes + more;
        assert all[..3] == bytes && all[3..] == more;
        assert Encode(all) == Encode(bytes) + Encode(more);
        assert s == s[..4] + s[4..];
      } else {
        assert s[..4] == s;
      }
    }
  }

  const DataUrlPrefix := "data:image/jpeg;base64,"

  /** The image URL sent to the vision model: a `data:` URL with media type
      image/jpeg (whatever the upload really is) and the base-64 payload. */
  function DataUrl(b: seq<byte>): (r: string)
    ensures |r| == 23 + 4 * ((|b| + 2) / 3)
    ensures r[..23] == DataUrlPrefix
    ensures Decode(r[23..]) == Some(b)
  {
    DecodeEncode(b);
    DataUrlPrefix + Encode(b)
  }
}
