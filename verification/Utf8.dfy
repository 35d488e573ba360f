/** Go's UTF-8: ranging over a string decodes it, and any ill-formed byte decodes to U+FFFD. */
module Utf8 {
  import opened Model

  type Rune = int
  const RUNE_ERROR: Rune := 0xFFFD

  predicate Scalar(r: Rune) {
    0 <= r < 0xD800 || 0xE000 <= r <= 0x10FFFF
  }

  predicate Scalars(rs: seq<Rune>) {
    forall i | 0 <= i < |rs| :: Scalar(rs[i])
  }

  predicate InRange(b: byte, low: int, high: int) {
    low <= b as int <= high
  }

  predicate Continuation(b: byte) {
    InRange(b, 0x80, 0xBF)
  }

  /** The rune a byte sequence starts with, and how many bytes it takes. */
  function DecodeRune(b: seq<byte>): (r: (Rune, nat))
    requires |b| > 0
    ensures Scalar(r.0) && 1 <= r.1 <= |b|
  {
    var b0 := b[0] as int;
    if b0 < 0x80 then (b0, 1)
    else if 0xC2 <= b0 <= 0xDF && |b| >= 2 && Continuation(b[1]) then
      ((b0 - 0xC0) * 64 + (b[1] as int - 0x80), 2)
    else if 0xE0 <= b0 <= 0xEF && |b| >= 3 && Continuation(b[2])
            && InRange(b[1], if b0 == 0xE0 then 0xA0 else 0x80, if b0 == 0xED then 0x9F else 0xBF) then
      ((b0 - 0xE0) * 4096 + (b[1] as int - 0x80) * 64 + (b[2] as int - 0x80), 3)
    else if 0xF0 <= b0 <= 0xF4 && |b| >= 4 && Continuation(b[2]) && Continuation(b[3])
            && InRange(b[1], if b0 == 0xF0 then 0x90 else 0x80, if b0 == 0xF4 then 0x8F else 0xBF) then
      ((b0 - 0xF0) * 262144 + (b[1] as int - 0x80) * 4096 + (b[2] as int - 0x80) * 64 + (b[3] as int - 0x80), 4)
    else (RUNE_ERROR, 1)
  }

  function EncodeRune(r: Rune): (b: seq<byte>)
    ensures |b| > 0
  {
    if 0 <= r < 0x80 then [r as byte]
    else if 0x80 <= r < 0x800 then [(0xC0 + r / 64) as byte, (0x80 + r % 64) as byte]
    else if !Scalar(r) then [0xEF, 0xBF, 0xBD]
    else
      var high := r / 64;
      var top := high / 64;
      if r < 0x10000 then
        [(0xE0 + top) as byte, (0x80 + high % 64) as byte, (0x80 + r % 64) as byte]
      else
        [(0xF0 + top / 64) as byte, (0x80 + top % 64) as byte, (0x80 + high % 64) as byte, (0x80 + r % 64) as byte]
  }

  function Decode(b: seq<byte>): (rs: seq<Rune>)
    ensures Scalars(rs)
  {
    if b == [] then []
    else
      var (r, width) := DecodeRune(b);
      [r] + Decode(b[width..])
  }

  function Encode(rs: seq<Rune>): seq<byte> {
    if rs == [] then [] else EncodeRune(rs[0]) + Encode(rs[1..])
  }

  lemma DecodeEncodeShort(r: Rune, rest: seq<byte>)
    requires 0 <= r < 0x800
    ensures DecodeRune(EncodeRune(r) + rest) == (r, |EncodeRune(r)|)
  {
    var b := EncodeRune(r) + rest;
    assert b[0] == EncodeRune(r)[0];
    if r >= 0x80 {
      assert b[1] == EncodeRune(r)[1];
    }
  }

  lemma DecodeEncodeThree(r: Rune, rest: seq<byte>)
    requires Scalar(r) && 0x800 <= r < 0x10000
    ensures DecodeRune(EncodeRune(r) + rest) == (r, |EncodeRune(r)|)
  {
    var high := r / 64;
    var top := high / 64;
    var e := [(0xE0 + top) as byte, (0x80 + high % 64) as byte, (0x80 + r % 64) as byte];
    assert EncodeRune(r) == e;
    var b := e + rest;
    assert b[0] == e[0] && b[1] == e[1] && b[2] == e[2];
  }

  lemma DecodeEncodeFour(r: Rune, rest: seq<byte>)
    requires Scalar(r) && 0x10000 <= r
    ensures DecodeRune(EncodeRune(r) + rest) == (r, |EncodeRune(r)|)
  {
    var high := r / 64;
    var top := high / 64;
    var e := [(0xF0 + top / 64) as byte, (0x80 + top % 64) as byte, (0x80 + high % 64) as byte,
      (0x80 + r % 64) as byte];
    assert EncodeRune(r) == e;
    var b := e + rest;
    assert b[0] == e[0] && b[1] == e[1] && b[2] == e[2] && b[3] == e[3];
  }

  lemma DecodeEncodeRune(r: Rune, rest: seq<byte>)
    requires Scalar(r)
    ensures DecodeRune(EncodeRune(r) + rest) == (r, |EncodeRune(r)|)
  {
    if r < 0x800 {
      DecodeEncodeShort(r, rest);
    } else if r < 0x10000 {
      DecodeEncodeThree(r, rest);
    } else {
      DecodeEncodeFour(r, rest);
    }
  }

  /** Encoding loses nothing: decoding gives the runes back. */
  lemma {:induction false} DecodeEncode(rs: seq<Rune>)
    requires Scalars(rs)
    ensures Decode(Encode(rs)) == rs
  {
    if rs != [] {
      var first, rest := EncodeRune(rs[0]), Encode(rs[1..]);
      DecodeEncodeRune(rs[0], rest);
      DecodeEncode(rs[1..]);
      assert (first + rest)[|first|..] == rest;
    }
  }

  /** Dividing by 64 takes the last six bits off. */
  lemma SixBits(high: int, low: int)
    requires 0 <= low < 64
    ensures (high * 64 + low) / 64 == high && (high * 64 + low) % 64 == low
  {
  }

  lemma EncodedTwo(b0: byte, b1: byte)
    requires 0xC2 <= b0 <= 0xDF && Continuation(b1)
    ensures EncodeRune((b0 as int - 0xC0) * 64 + (b1 as int - 0x80)) == [b0, b1]
  {
    SixBits(b0 as int - 0xC0, b1 as int - 0x80);
  }

  lemma EncodedThree(b0: byte, b1: byte, b2: byte, r: Rune)
    requires 0xE0 <= b0 <= 0xEF && Continuation(b1) && Continuation(b2) && 0x800 <= r && Scalar(r)
    requires r == (b0 as int - 0xE0) * 4096 + (b1 as int - 0x80) * 64 + (b2 as int - 0x80)
    ensures EncodeRune(r) == [b0, b1, b2]
  {
    var high := (b0 as int - 0xE0) * 64 + (b1 as int - 0x80);
    SixBits(b0 as int - 0xE0, b1 as int - 0x80);
    SixBits(high, b2 as int - 0x80);
    assert r == high * 64 + (b2 as int - 0x80) && r / 64 == high && high / 64 == b0 as int - 0xE0;
  }

  lemma EncodedFour(b0: byte, b1: byte, b2: byte, b3: byte, r: Rune)
    requires 0xF0 <= b0 <= 0xF4 && Continuation(b1) && Continuation(b2) && Continuation(b3) && 0x10000 <= r && Scalar(r)
    requires r == (b0 as int - 0xF0) * 262144 + (b1 as int - 0x80) * 4096 + (b2 as int - 0x80) * 64 + (b3 as int - 0x80)
    ensures EncodeRune(r) == [b0, b1, b2, b3]
  {
    var top := (b0 as int - 0xF0) * 64 + (b1 as int - 0x80);
    var high := top * 64 + (b2 as int - 0x80);
    SixBits(b0 as int - 0xF0, b1 as int - 0x80);
    SixBits(top, b2 as int - 0x80);
    SixBits(high, b3 as int - 0x80);
    assert r == high * 64 + (b3 as int - 0x80) && r / 64 == high && high / 64 == top && top / 64 == b0 as int - 0xF0;
  }

  lemma DecodedIsEncoded(b: seq<byte>)
    requires |b| > 0
    ensures DecodeRune(b) == (RUNE_ERROR, 1) || EncodeRune(DecodeRune(b).0) == b[..DecodeRune(b).1]
  {
    var (r, width) := DecodeRune(b);
    if width == 1 && r != RUNE_ERROR {
      assert EncodeRune(r) == [b[0]];
    }
    hide EncodeRune;
    if width == 4 {
      EncodedFour(b[0], b[1], b[2], b[3], r);
    } else if width == 3 {
      EncodedThree(b[0], b[1], b[2], r);
    } else if width == 2 {
      EncodedTwo(b[0], b[1]);
    }
  }

  /**
   * Decoding reads the encoding of a scalar value wherever one stands, and an error of one byte where none does: no
   * overlong form, no surrogate and no value past the last is accepted.
   */
  lemma DecodeRuneIff(b: seq<byte>, r: Rune)
    requires |b| > 0 && Scalar(r)
    ensures EncodeRune(r) <= b <==> DecodeRune(b) == (r, |EncodeRune(r)|) && DecodeRune(b) != (RUNE_ERROR, 1)
    ensures DecodeRune(b) == (RUNE_ERROR, 1) || EncodeRune(DecodeRune(b).0) == b[..DecodeRune(b).1]
  {
    if EncodeRune(r) <= b {
      DecodeEncodeRune(r, b[|EncodeRune(r)|..]);
      assert b == EncodeRune(r) + b[|EncodeRune(r)|..];
    }
    DecodedIsEncoded(b);
  }
}
