/** UTF-8 (RFC 3629) as both sides use it for message text: .NET's
    `Encoding.UTF8` on the host and Node's `Buffer` on the worker. A Dafny
    `char` is a Unicode scalar value, so every string here is well formed. */
module Utf8 {
  import opened Bytes

  const Replacement: char := '�'

  predicate IsContinuation(b: byte) {
    0x80 <= b < 0xC0
  }

  /** The six payload bits of a continuation byte. */
  function Low6(b: byte): int {
    b as int - 0x80
  }

  /** The bytes of one scalar value: one byte below U+0080, then two, three
      or four. */
  function EncodeChar(c: char): (r: seq<byte>)
    ensures 1 <= |r| <= 4
    ensures |r| == 1 <==> (c as int) < 0x80
    ensures forall i :: 1 <= i < |r| ==> IsContinuation(r[i])
  {
    var cp := c as int;
    if cp < 0x80 then [cp]
    else if cp < 0x800 then [0xC0 + cp / 0x40, 0x80 + cp % 0x40]
    else if cp < 0x1_0000 then [0xE0 + cp / 0x1000, 0x80 + cp / 0x40 % 0x40, 0x80 + cp % 0x40]
    else [0xF0 + cp / 0x4_0000, 0x80 + cp / 0x1000 % 0x40, 0x80 + cp / 0x40 % 0x40, 0x80 + cp % 0x40]
  }

  /** `Encoding.UTF8.GetBytes(s)` and `Buffer.write(s)`. */
  function Encode(s: string): (r: seq<byte>)
    ensures |r| >= |s|
    ensures s == [] <==> r == []
  {
    if s == [] then [] else EncodeChar(s[0]) + Encode(s[1..])
  }

  /** `Encoding.UTF8.GetByteCount(s)` and `Buffer.byteLength(s)`, counted
      per scalar value without building the bytes. */
  function ByteCount(s: string): (n: nat)
    ensures n == |Encode(s)|
  {
    if s == [] then 0
    else
      var cp := s[0] as int;
      (if cp < 0x80 then 1 else if cp < 0x800 then 2 else if cp < 0x1_0000 then 3 else 4) + ByteCount(s[1..])
  }

  /** The first scalar value of `b` and how many bytes it took. An ill-formed
      sequence decodes as U+FFFD and consumes one byte. */
  function DecodeFirst(b: seq<byte>): (r: (char, nat))
    requires |b| > 0
    ensures 1 <= r.1 <= |b|
  {
    var b0 := b[0] as int;
    if b0 < 0x80 then
      (b0 as char, 1)
    else if 0xC2 <= b0 < 0xE0 && |b| >= 2 && IsContinuation(b[1]) then
      var cp := (b0 - 0xC0) * 0x40 + Low6(b[1]);
      (cp as char, 2)
    else if 0xE0 <= b0 < 0xF0 && |b| >= 3 && IsContinuation(b[1]) && IsContinuation(b[2]) then
      var cp := (b0 - 0xE0) * 0x1000 + Low6(b[1]) * 0x40 + Low6(b[2]);
      if 0x800 <= cp && !(0xD800 <= cp < 0xE000) then (cp as char, 3) else (Replacement, 1)
    else if 0xF0 <= b0 < 0xF5 && |b| >= 4 && IsContinuation(b[1]) && IsContinuation(b[2]) && IsContinuation(b[3]) then
      var cp := (b0 - 0xF0) * 0x4_0000 + Low6(b[1]) * 0x1000 + Low6(b[2]) * 0x40 + Low6(b[3]);
      if 0x1_0000 <= cp < 0x11_0000 then (cp as char, 4) else (Replacement, 1)
    else
      (Replacement, 1)
  }

  /** `Encoding.UTF8.GetString(b)` and `Buffer.toString()`: never fails;
      ill-formed input yields replacement characters. */
  function Decode(b: seq<byte>): (s: string)
    ensures |s| <= |b|
    decreases |b|
  {
    if b == [] then []
    else
      var (c, n) := DecodeFirst(b);
      [c] + Decode(b[n..])
  }

  lemma TwoByteArithmetic(cp: int)
    requires 0x80 <= cp < 0x800
    ensures 0xC2 <= 0xC0 + cp / 0x40 < 0xE0
    ensures (cp / 0x40) * 0x40 + cp % 0x40 == cp
  {
  }

  lemma ThreeByteArithmetic(cp: int)
    requires 0x800 <= cp < 0x1_0000
    ensures (cp / 0x1000) * 0x1000 + (cp / 0x40 % 0x40) * 0x40 + cp % 0x40 == cp
  {
    var q := cp / 0x40;
    assert q == (q / 0x40) * 0x40 + q % 0x40;
    assert q / 0x40 == cp / 0x1000;
  }

  lemma FourByteArithmetic(cp: int)
    requires 0x1_0000 <= cp < 0x11_0000
    ensures cp / 0x4_0000 < 5
    ensures (cp / 0x4_0000) * 0x4_0000 + (cp / 0x1000 % 0x40) * 0x1000 + (cp / 0x40 % 0x40) * 0x40 + cp % 0x40 == cp
  {
    var q := cp / 0x40;
    var q2 := cp / 0x1000;
    assert q == (q / 0x40) * 0x40 + q % 0x40;
    assert q / 0x40 == q2;
    assert q2 == (q2 / 0x40) * 0x40 + q2 % 0x40;
    assert q2 / 0x40 == cp / 0x4_0000;
  }

  lemma DecodeFirstOfEncodeChar(c: char, rest: seq<byte>)
    ensures DecodeFirst(EncodeChar(c) + rest) == (c, |EncodeChar(c)|)
  {
    var cp := c as int;
    var e := EncodeChar(c);
    var b := e + rest;
    assert b[..|e|] == e;
    if cp < 0x80 {
    } else if cp < 0x800 {
      TwoByteArithmetic(cp);
    } else if cp < 0x1_0000 {
      ThreeByteArithmetic(cp);
    } else {
      FourByteArithmetic(cp);
    }
  }

  /** Decoding what was encoded gives back the text: multi-byte characters
      such as U+2019 survive the trip between host and worker. */
  lemma {:induction false} DecodeEncode(s: string)
    ensures Decode(Encode(s)) == s
  {
    if s != [] {
      var e, rest := EncodeChar(s[0]), Encode(s[1..]);
      DecodeFirstOfEncodeChar(s[0], rest);
      assert (e + rest)[|e|..] == rest;
      DecodeEncode(s[1..]);
    }
  }

  /** Encoding distributes over concatenation. */
  lemma {:induction false} EncodeAppend(s: string, t: string)
    ensures Encode(s + t) == Encode(s) + Encode(t)
  {
    if s != [] {
      assert (s + t)[1..] == s[1..] + t;
      EncodeAppend(s[1..], t);
    } else {
      assert s + t == t;
    }
  }
}
