/** Bytes and the 32-bit integers both sides of the bridge put on the wire. */
module Bytes {

  /** One octet, as read from or written to a socket. */
  type byte = b: int | 0 <= b < 0x100

  const MaxInt32: int := 0x7fff_ffff
  const MinInt32: int := -0x8000_0000

  predicate IsInt32(n: int) {
    MinInt32 <= n <= MaxInt32
  }

  /** C#'s unchecked conversion to `int` and JavaScript's `n << 0`: keep the low
      32 bits and read them as a two's-complement number. */
  function Int32Wrap(n: int): (r: int)
    ensures IsInt32(r)
    ensures (r - n) % 0x1_0000_0000 == 0
    ensures IsInt32(n) ==> r == n
  {
    if IsInt32(n) then n else (n + 0x8000_0000) % 0x1_0000_0000 - 0x8000_0000
  }

  /** The four bytes of `n`, least significant first: `BitConverter.GetBytes`
      on a little-endian host, and `Buffer.writeUInt32LE`. */
  function LittleEndian32(n: nat): (r: seq<byte>)
    requires n < 0x1_0000_0000
    ensures |r| == 4
  {
    [n % 0x100, n / 0x100 % 0x100, n / 0x1_0000 % 0x100, n / 0x100_0000]
  }

  /** The signed little-endian number in the first four bytes of `b`:
      `BitConverter.ToInt32(b, 0)` on a little-endian host, and
      `Buffer.readIntLE(0, 4)`. */
  function ToInt32(b: seq<byte>): (r: int)
    requires |b| >= 4
    ensures IsInt32(r)
    ensures r < 0 <==> b[3] >= 0x80
  {
    var u: int := b[0] as int + 0x100 * (b[1] as int) + 0x1_0000 * (b[2] as int) + 0x100_0000 * (b[3] as int);
    if b[3] >= 0x80 then u - 0x1_0000_0000 else u
  }

  /** Reading back a written non-negative length gives the length. */
  lemma ToInt32OfLittleEndian32(n: nat)
    requires n <= MaxInt32
    ensures ToInt32(LittleEndian32(n)) == n
  {
    var b := LittleEndian32(n);
    var q1, q2 := n / 0x100, n / 0x1_0000;
    assert n == 0x100 * q1 + b[0];
    assert q1 == 0x100 * (q1 / 0x100) + b[1];
    assert q1 / 0x100 == q2;
    assert q2 == 0x100 * (b[3] as int) + b[2];
    assert b[3] < 0x80;
  }

  /** A non-negative header is the little-endian encoding of its value. */
  lemma LittleEndian32OfToInt32(b: seq<byte>)
    requires |b| >= 4 && ToInt32(b) >= 0
    ensures LittleEndian32(ToInt32(b)) == b[..4]
  {
    var n := ToInt32(b);
    var k1 := b[1] as int + 0x100 * (b[2] as int) + 0x1_0000 * (b[3] as int);
    var k2 := b[2] as int + 0x100 * (b[3] as int);
    assert n == b[0] as int + 0x100 * k1;
    assert n % 0x100 == b[0] && n / 0x100 == k1;
    assert k1 == b[1] as int + 0x100 * k2;
    assert k1 % 0x100 == b[1] && k1 / 0x100 == k2;
    assert n / 0x1_0000 == k2;
    assert k2 % 0x100 == b[2] && k2 / 0x100 == b[3];
    assert n / 0x100_0000 == b[3];
  }

  /** Only the first four bytes are read. */
  lemma ToInt32Prefix(b: seq<byte>, rest: seq<byte>)
    requires |b| >= 4
    ensures ToInt32(b + rest) == ToInt32(b)
  {
    assert (b + rest)[..4] == b[..4];
  }

  /** The bytes of a sequence of pieces, in order. */
  function Flat(chunks: seq<seq<byte>>): seq<byte> {
    if chunks == [] then [] else chunks[0] + Flat(chunks[1..])
  }

  lemma FlatCons(head: seq<byte>, chunks: seq<seq<byte>>)
    ensures Flat([head] + chunks) == head + Flat(chunks)
  {
    assert ([head] + chunks)[1..] == chunks;
  }
}
