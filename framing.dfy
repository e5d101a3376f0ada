/** The wire unit shared by both sides: a 4-byte little-endian length, then
    that many bytes of UTF-8 JSON. */
module Framing {
  import opened Bytes

  /** A body that fits a frame: its length is a non-negative `int`. */
  predicate Fits(body: seq<byte>) {
    |body| <= MaxInt32
  }

  /** The frame that carries `body`. */
  function Frame(body: seq<byte>): (r: seq<byte>)
    requires Fits(body)
    ensures |r| == |body| + 4
    ensures r[..4] == LittleEndian32(|body|) && r[4..] == body
    ensures ToInt32(r) == |body|
  {
    ToInt32OfLittleEndian32(|body|);
    var r := LittleEndian32(|body|) + body;
    assert r[..4] == LittleEndian32(|body|);
    r
  }

  predicate AllFit(bodies: seq<seq<byte>>) {
    forall i :: 0 <= i < |bodies| ==> Fits(bodies[i])
  }

  /** The bytes of several frames sent one after another. */
  function FrameStream(bodies: seq<seq<byte>>): (r: seq<byte>)
    requires AllFit(bodies)
    ensures |r| >= 4 * |bodies|
  {
    if bodies == [] then [] else Frame(bodies[0]) + FrameStream(bodies[1..])
  }

  lemma {:induction false} FrameStreamAppend(a: seq<seq<byte>>, b: seq<seq<byte>>)
    requires AllFit(a) && AllFit(b)
    ensures AllFit(a + b)
    ensures FrameStream(a + b) == FrameStream(a) + FrameStream(b)
  {
    if a == [] {
      assert a + b == b;
    } else {
      var c := a + b;
      assert c[0] == a[0] && c[1..] == a[1..] + b;
      assert AllFit(a[1..]) by {
        forall i | 0 <= i < |a[1..]|
          ensures Fits(a[1..][i])
        {
          assert a[1..][i] == a[i + 1];
        }
      }
      FrameStreamAppend(a[1..], b);
      forall i | 0 <= i < |c|
        ensures Fits(c[i])
      {
        if i > 0 {
          assert c[i] == c[1..][i - 1];
        }
      }
      assert FrameStream(c) == Frame(a[0]) + FrameStream(a[1..] + b);
      assert Frame(a[0]) + (FrameStream(a[1..]) + FrameStream(b))
          == (Frame(a[0]) + FrameStream(a[1..])) + FrameStream(b);
    }
  }
}
