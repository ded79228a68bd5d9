/** Python's strict UTF-8 codec (RFC 3629): `bytes.decode("utf-8")` and `str.encode("utf-8")`.

  A Dafny `char` is a Unicode scalar value, so a decoded text is a `string`. Overlong
  forms, surrogates and values above U+10FFFF make `Decode` return None
  (UnicodeDecodeError). */
module Utf8 {
  import opened Wrappers

  type Byte = b: int | 0 <= b < 0x100
  type Bytes = seq<Byte>

  predicate IsScalar(v: int) {
    0 <= v < 0xD800 || 0xE000 <= v < 0x11_0000
  }

  predicate IsTail(b: Byte) {
    0x80 <= b < 0xC0
  }

  function EncodeChar(c: char): (r: Bytes)
    ensures 1 <= |r| <= 4
  {
    var v := c as int;
    if v < 0x80 then [v]
    else if v < 0x800 then [0xC0 + v / 0x40, 0x80 + v % 0x40]
    else if v < 0x1_0000 then [0xE0 + v / 0x1000, 0x80 + v / 0x40 % 0x40, 0x80 + v % 0x40]
    else [0xF0 + v / 0x4_0000, 0x80 + v / 0x1000 % 0x40, 0x80 + v / 0x40 % 0x40, 0x80 + v % 0x40]
  }

  function Encode(t: string): Bytes {
    if t == "" then [] else EncodeChar(t[0]) + Encode(t[1..])
  }

  function Value2(a: int, b: int): int {
    (a - 0xC0) * 0x40 + (b - 0x80)
  }

  function Value3(a: int, b: int, c: int): int {
    (a - 0xE0) * 0x1000 + (b - 0x80) * 0x40 + (c - 0x80)
  }

  function Value4(a: int, b: int, c: int, d: int): int {
    (a - 0xF0) * 0x4_0000 + (b - 0x80) * 0x1000 + (c - 0x80) * 0x40 + (d - 0x80)
  }

  /** The scalar value and width of the well-formed sequence that starts `b`, if any. */
  function DecodeFirst(b: Bytes): (r: Option<(char, nat)>)
    ensures r.Some? ==> 1 <= r.value.1 <= |b|
  {
    if |b| >= 1 && b[0] < 0x80 then Some((b[0] as char, 1))
    else if |b| >= 2 && 0xC2 <= b[0] < 0xE0 && IsTail(b[1]) then
      Some((Value2(b[0], b[1]) as char, 2))
    else if |b| >= 3 && 0xE0 <= b[0] < 0xF0 && IsTail(b[1]) && IsTail(b[2]) then
      var v := Value3(b[0], b[1], b[2]);
      if v >= 0x800 && IsScalar(v) then Some((v as char, 3)) else None
    else if |b| >= 4 && 0xF0 <= b[0] < 0xF5 && IsTail(b[1]) && IsTail(b[2]) && IsTail(b[3]) then
      var v := Value4(b[0], b[1], b[2], b[3]);
      if v >= 0x1_0000 && IsScalar(v) then Some((v as char, 4)) else None
    else None
  }

  function Decode(b: Bytes): Option<string> {
    if b == [] then Some("")
    else
      match DecodeFirst(b)
      case None => None
      case Some((c, n)) =>
        match Decode(b[n..])
        case None => None
        case Some(t) => Some([c] + t)
  }

  lemma Digits64(v: int, q: int, r: int)
    requires 0 <= r < 0x40
    ensures v == q * 0x40 + r <==> v / 0x40 == q && v % 0x40 == r
  {
  }

  lemma Digits3(v: int, a: int, b: int, c: int)
    requires 0 <= b < 0x40 && 0 <= c < 0x40
    ensures v == a * 0x1000 + b * 0x40 + c <==> v / 0x1000 == a && v / 0x40 % 0x40 == b && v % 0x40 == c
  {
    Digits64(v, a * 0x40 + b, c);
    Digits64(v / 0x40, a, b);
    assert v / 0x40 / 0x40 == v / 0x1000;
  }

  lemma Digits4(v: int, a: int, b: int, c: int, d: int)
    requires 0 <= b < 0x40 && 0 <= c < 0x40 && 0 <= d < 0x40
    ensures v == a * 0x4_0000 + b * 0x1000 + c * 0x40 + d
       <==> v / 0x4_0000 == a && v / 0x1000 % 0x40 == b && v / 0x40 % 0x40 == c && v % 0x40 == d
  {
    Digits64(v, a * 0x1000 + b * 0x40 + c, d);
    Digits3(v / 0x40, a, b, c);
    assert v / 0x40 / 0x1000 == v / 0x4_0000;
    assert v / 0x40 / 0x40 == v / 0x1000;
  }

  /** What `DecodeFirst` reads is exactly what `EncodeChar` writes. */
  lemma FirstIsEncoding(b: Bytes)
    requires DecodeFirst(b).Some?
    ensures b[..DecodeFirst(b).value.1] == EncodeChar(DecodeFirst(b).value.0)
  {
    if b[0] < 0x80 {
    } else if b[0] < 0xE0 {
      Digits64(Value2(b[0], b[1]), b[0] - 0xC0, b[1] - 0x80);
    } else if b[0] < 0xF0 {
      Digits3(Value3(b[0], b[1], b[2]), b[0] - 0xE0, b[1] - 0x80, b[2] - 0x80);
    } else {
      Digits4(Value4(b[0], b[1], b[2], b[3]), b[0] - 0xF0, b[1] - 0x80, b[2] - 0x80, b[3] - 0x80);
    }
  }

  lemma EncodingIsFirst(c: char, rest: Bytes)
    ensures DecodeFirst(EncodeChar(c) + rest) == Some((c, |EncodeChar(c)|))
  {
    var v := c as int;
    var b := EncodeChar(c) + rest;
    if v < 0x80 {
    } else if v < 0x800 {
      Digits64(v, v / 0x40, v % 0x40);
      assert b[0] == 0xC0 + v / 0x40 && b[1] == 0x80 + v % 0x40;
    } else if v < 0x1_0000 {
      Digits3(v, v / 0x1000, v / 0x40 % 0x40, v % 0x40);
      assert b[0] == 0xE0 + v / 0x1000 && b[1] == 0x80 + v / 0x40 % 0x40 && b[2] == 0x80 + v % 0x40;
    } else {
      Digits4(v, v / 0x4_0000, v / 0x1000 % 0x40, v / 0x40 % 0x40, v % 0x40);
      assert b[0] == 0xF0 + v / 0x4_0000 && b[1] == 0x80 + v / 0x1000 % 0x40;
      assert b[2] == 0x80 + v / 0x40 % 0x40 && b[3] == 0x80 + v % 0x40;
    }
  }

  /** Decoding and encoding are inverse: a byte string decodes to `t` exactly when it is
      the encoding of `t`. */
  lemma DecodeIffEncode(b: Bytes, t: string)
    ensures Decode(b) == Some(t) <==> b == Encode(t)
  {
    if Decode(b) == Some(t) { DecodedEncodes(b); }
    if b == Encode(t) { EncodedDecodes(t); }
  }

  lemma DecodedCons(b: Bytes) returns (c: char, n: nat, rest: string)
    requires b != [] && Decode(b).Some?
    ensures 1 <= n <= |b| && b[..n] == EncodeChar(c)
    ensures Decode(b[n..]) == Some(rest) && Decode(b) == Some([c] + rest)
  {
    FirstIsEncoding(b);
    c, n := DecodeFirst(b).value.0, DecodeFirst(b).value.1;
    rest := Decode(b[n..]).value;
  }

  lemma {:induction false} DecodedEncodes(b: Bytes)
    requires Decode(b).Some?
    ensures Encode(Decode(b).value) == b
    decreases |b|
  {
    if b == [] {
    } else {
      var c, n, rest := DecodedCons(b);
      DecodedEncodes(b[n..]);
      assert ([c] + rest)[1..] == rest;
      assert b == b[..n] + b[n..];
    }
  }

  lemma {:induction false} EncodedDecodes(t: string)
    ensures Decode(Encode(t)) == Some(t)
  {
    if t == "" {
    } else {
      EncodedDecodes(t[1..]);
      var n := |EncodeChar(t[0])|;
      EncodingIsFirst(t[0], Encode(t[1..]));
      assert Encode(t)[n..] == Encode(t[1..]);
      assert t == [t[0]] + t[1..];
    }
  }
}
