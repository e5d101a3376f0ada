/** How the worker cuts the bytes of its socket's `data` events into message
    bodies: the splitting loop of node-host.js as written, and the corrected
    reassembly the worker model uses, which keeps the bytes of an incomplete
    frame until the rest arrives. */
module WorkerSplit {
  import opened Bytes
  import opened Wrappers
  import opened Framing

  /** The exceptions that escape a `data` handler and end the worker. */
  datatype Crash =
    | RangeError       // `readIntLE(0, 4)` on fewer than 4 bytes, or `writeUInt32LE` of a negative value
    | InvalidMessage   // `throw new Error("Invalid message")`
    | SyntaxError      // `JSON.parse` of a body that is not JSON
    | TypeError        // a property of `null` or `undefined`, or a call of a non-function

  function Min(a: int, b: int): int {
    if a < b then a else b
  }

  /** The `data` handler's loop as written, on one chunk: each pass reads a
      length, takes `slice(4, size + 4)` (cut short if the chunk ends first)
      and goes on with `slice(size + 4)`. The bodies handed to `handleData`,
      and the exception that ends the loop, if any. */
  function SplitAsWritten(buffer: seq<byte>): (r: (seq<seq<byte>>, Option<Crash>))
    decreases |buffer|
  {
    if |buffer| == 0 then ([], None)
    else if |buffer| < 4 then ([], Some(RangeError))
    else
      var size := ToInt32(buffer);
      if size <= 0 then ([], Some(InvalidMessage))
      else
        var end := Min(size + 4, |buffer|);
        var rest := SplitAsWritten(buffer[end..]);
        ([buffer[4..end]] + rest.0, rest.1)
  }

  /** The loop itself, on the chunk of one `data` event. */
  method SplitChunk(chunk: seq<byte>) returns (bodies: seq<seq<byte>>, crash: Option<Crash>)
    ensures (bodies, crash) == SplitAsWritten(chunk)
  {
    var buffer := chunk;
    bodies := [];
    assert [] + SplitAsWritten(buffer).0 == SplitAsWritten(buffer).0;
    while |buffer| > 0
      invariant SplitAsWritten(chunk) == (bodies + SplitAsWritten(buffer).0, SplitAsWritten(buffer).1)
      decreases |buffer|
    {
      if |buffer| < 4 {
        assert bodies + [] == bodies;
        return bodies, Some(RangeError);
      }
      var size := ToInt32(buffer);
      if size <= 0 {
        assert bodies + [] == bodies;
        return bodies, Some(InvalidMessage);
      }
      var end := Min(size + 4, |buffer|);
      var msg := buffer[4..end];
      var next := buffer[end..];
      assert SplitAsWritten(buffer) == ([msg] + SplitAsWritten(next).0, SplitAsWritten(next).1);
      assert bodies + ([msg] + SplitAsWritten(next).0) == (bodies + [msg]) + SplitAsWritten(next).0;
      buffer := next;
      bodies := bodies + [msg];
    }
    assert bodies + [] == bodies;
    crash := None;
  }

  predicate NonEmpty(bodies: seq<seq<byte>>) {
    forall i :: 0 <= i < |bodies| ==> 0 < |bodies[i]|
  }

  /** When a chunk holds whole frames only, the loop as written hands on
      exactly their bodies. */
  lemma {:induction false} SplitAsWrittenOfFrames(bodies: seq<seq<byte>>)
    requires AllFit(bodies) && NonEmpty(bodies)
    ensures SplitAsWritten(FrameStream(bodies)) == (bodies, None)
  {
    if bodies != [] {
      var f := Frame(bodies[0]);
      var s := FrameStream(bodies);
      assert s == f + FrameStream(bodies[1..]);
      ToInt32Prefix(f, FrameStream(bodies[1..]));
      assert s[4..|f|] == bodies[0];
      assert s[|f|..] == FrameStream(bodies[1..]);
      SplitAsWrittenOfFrames(bodies[1..]);
      assert [bodies[0]] + bodies[1..] == bodies;
    }
  }

  /** The frame of the 5-byte body [1, 2, 3, 4, 5], as the worker's socket may
      deliver it: in two `data` events, one of 6 bytes and one of 3. */
  const SplitFrameFirst: seq<byte> := [5, 0, 0, 0, 1, 2]
  const SplitFrameSecond: seq<byte> := [3, 4, 5]

  /** The loop as written garbles a frame that arrives in two chunks: the
      first event hands on the cut-short body [1, 2], and the second reads
      its 3 bytes as a header and throws. */
  lemma SplitAsWrittenGarblesSplitFrame()
    ensures SplitFrameFirst + SplitFrameSecond == Frame([1, 2, 3, 4, 5])
    ensures SplitAsWritten(SplitFrameFirst) == ([[1, 2]], None)
    ensures SplitAsWritten(SplitFrameSecond) == ([], Some(RangeError))
  {
    var f := Frame([1, 2, 3, 4, 5]);
    assert f[..4] == LittleEndian32(5) == [5, 0, 0, 0];
    assert f == f[..4] + f[4..];
    var first := SplitFrameFirst;
    assert ToInt32(first) == 5;
    assert first[4..6] == [1, 2];
    assert first[6..] == [];
    assert SplitAsWritten(first[6..]) == ([], None);
    assert [first[4..6]] + [] == [[1, 2]];
  }

  /** What the corrected reassembly does with the bytes it holds: the bodies
      of the complete frames at their front, the bytes left over, and whether
      it met a length that is not positive. */
  datatype Split = Split(bodies: seq<seq<byte>>, rest: seq<byte>, invalid: bool)

  /** Bytes that cannot yet make a frame: too few for a header, or fewer
      than the positive length the header announces. */
  predicate Incomplete(buffer: seq<byte>) {
    |buffer| < 4 || (ToInt32(buffer) > 0 && ToInt32(buffer) + 4 > |buffer|)
  }

  /** What a reassembly can be left holding: an incomplete frame, unless it
      stopped at an invalid length. */
  predicate Settled(s: Split) {
    !s.invalid ==> Incomplete(s.rest)
  }

  /** `bodies` handed on before `s`. */
  function Join(bodies: seq<seq<byte>>, s: Split): Split {
    Split(bodies + s.bodies, s.rest, s.invalid)
  }

  /** Takes complete frames off the front of `buffer`; a frame whose bytes
      have not all arrived stays in `rest`. */
  function Extract(buffer: seq<byte>): (r: Split)
    ensures Settled(r)
    ensures |r.rest| <= |buffer|
    decreases |buffer|
  {
    if |buffer| < 4 then Split([], buffer, false)
    else
      var size := ToInt32(buffer);
      if size <= 0 then Split([], buffer, true)
      else if |buffer| < size + 4 then Split([], buffer, false)
      else Join([buffer[4..size + 4]], Extract(buffer[size + 4..]))
  }

  /** The corrected reassembly recovers the bodies of whole frames, however
      long each is. */
  lemma {:induction false} ExtractOfFrames(bodies: seq<seq<byte>>, tail: seq<byte>)
    requires AllFit(bodies) && NonEmpty(bodies)
    requires Incomplete(tail)
    ensures Extract(FrameStream(bodies) + tail) == Split(bodies, tail, false)
  {
    if bodies != [] {
      FrameStreamCons(bodies);
      var later := FrameStream(bodies[1..]) + tail;
      assert FrameStream(bodies) + tail == Frame(bodies[0]) + later;
      ExtractFront(bodies[0], later);
      ExtractOfFrames(bodies[1..], tail);
      assert [bodies[0]] + bodies[1..] == bodies;
    } else {
      assert FrameStream(bodies) + tail == tail;
    }
  }

  /** The first frame of a stream of non-empty bodies, and the rest. */
  lemma FrameStreamCons(bodies: seq<seq<byte>>)
    requires AllFit(bodies) && NonEmpty(bodies) && bodies != []
    ensures Fits(bodies[0]) && |bodies[0]| > 0
    ensures AllFit(bodies[1..]) && NonEmpty(bodies[1..])
    ensures FrameStream(bodies) == Frame(bodies[0]) + FrameStream(bodies[1..])
  {
    forall i | 0 <= i < |bodies[1..]|
      ensures Fits(bodies[1..][i]) && 0 < |bodies[1..][i]|
    {
      assert bodies[1..][i] == bodies[i + 1];
    }
  }

  /** A whole frame at the front is taken off first. */
  lemma ExtractFront(body: seq<byte>, after: seq<byte>)
    requires Fits(body) && |body| > 0
    ensures Extract(Frame(body) + after) == Join([body], Extract(after))
  {
    var s := Frame(body) + after;
    ToInt32Prefix(Frame(body), after);
    assert s[4..|body| + 4] == body;
    assert s[|body| + 4..] == after;
  }

  /** Where a reassembly in state `s` stands once `more` bytes have arrived. */
  function Continue(s: Split, more: seq<byte>): Split {
    if s.invalid then Split(s.bodies, s.rest + more, true)
    else Join(s.bodies, Extract(s.rest + more))
  }

  lemma ContinueJoin(p: seq<seq<byte>>, s: Split, more: seq<byte>)
    ensures Continue(Join(p, s), more) == Join(p, Continue(s, more))
  {
    if !s.invalid {
      var e := Extract(s.rest + more);
      assert (p + s.bodies) + e.bodies == p + (s.bodies + e.bodies);
    }
  }

  /** Bytes arriving after `a` do not change what `a` already yields: the
      frames complete in `a`, then whatever its leftover and `b` make. */
  lemma {:induction false} ExtractAppend(a: seq<byte>, b: seq<byte>)
    ensures Extract(a + b) == Continue(Extract(a), b)
    decreases |a|
  {
    if |a| < 4 || ToInt32(a) <= 0 || |a| < ToInt32(a) + 4 {
      ExtractAppendAtFront(a, b);
    } else {
      var next := a[ToInt32(a) + 4..];
      ExtractAppend(next, b);
      ExtractAppendAfterFrame(a, b);
    }
  }

  /** `ExtractAppend` when `a` starts with no complete frame. */
  lemma ExtractAppendAtFront(a: seq<byte>, b: seq<byte>)
    requires |a| < 4 || ToInt32(a) <= 0 || |a| < ToInt32(a) + 4
    ensures Extract(a + b) == Continue(Extract(a), b)
  {
    if |a| >= 4 {
      ToInt32Prefix(a, b);
    }
    assert [] + Extract(a + b).bodies == Extract(a + b).bodies;
  }

  /** `ExtractAppend` when `a` starts with a complete frame, given that it
      holds for the bytes after that frame. */
  lemma ExtractAppendAfterFrame(a: seq<byte>, b: seq<byte>)
    requires |a| >= 4 && ToInt32(a) > 0 && |a| >= ToInt32(a) + 4
    requires Extract(a[ToInt32(a) + 4..] + b) == Continue(Extract(a[ToInt32(a) + 4..]), b)
    ensures Extract(a + b) == Continue(Extract(a), b)
  {
    var size := ToInt32(a);
    var ab := a + b;
    var next := a[size + 4..];
    AppendAfterFrame(a, b);
    ExtractTakesFrame(a);
    ExtractTakesFrame(ab);
    ContinueAfterFrame(a[4..size + 4], Extract(a), Extract(next), Extract(ab), Extract(next + b), b);
  }

  /** The bytes of `a + b` after a frame complete in `a`. */
  lemma AppendAfterFrame(a: seq<byte>, b: seq<byte>)
    requires |a| >= 4 && ToInt32(a) > 0 && |a| >= ToInt32(a) + 4
    ensures ToInt32(a + b) == ToInt32(a)
    ensures (a + b)[4..ToInt32(a) + 4] == a[4..ToInt32(a) + 4]
    ensures (a + b)[ToInt32(a) + 4..] == a[ToInt32(a) + 4..] + b
  {
    ToInt32Prefix(a, b);
  }

  /** The algebra of `ExtractAppendAfterFrame`, apart from the bytes. */
  lemma ContinueAfterFrame(body: seq<byte>, whole: Split, after: Split, wholeMore: Split, afterMore: Split, more: seq<byte>)
    requires whole == Join([body], after) && wholeMore == Join([body], afterMore)
    requires afterMore == Continue(after, more)
    ensures wholeMore == Continue(whole, more)
  {
    ContinueJoin([body], after, more);
  }

  /** One complete frame at the front is handed on, then the rest. */
  lemma ExtractTakesFrame(buffer: seq<byte>)
    requires |buffer| >= 4 && ToInt32(buffer) > 0 && |buffer| >= ToInt32(buffer) + 4
    ensures Extract(buffer) == Join([buffer[4..ToInt32(buffer) + 4]], Extract(buffer[ToInt32(buffer) + 4..]))
  {
  }

  /** Bytes that hold no complete frame yield no body and stay held. */
  lemma ExtractKeepsIncomplete(buffer: seq<byte>)
    requires |buffer| < 4 || (ToInt32(buffer) > 0 && |buffer| < ToInt32(buffer) + 4)
    ensures Extract(buffer) == Split([], buffer, false)
  {
  }

  lemma JoinJoin(p: seq<seq<byte>>, q: seq<seq<byte>>, s: Split)
    ensures Join(p, Join(q, s)) == Join(p + q, s)
  {
    assert p + (q + s.bodies) == (p + q) + s.bodies;
  }

  /** Handing on the first complete frame of `buffer` after the bodies
      `done` leaves the overall result unchanged. */
  lemma FrameTaken(buffer: seq<byte>, done: seq<seq<byte>>, whole: Split)
    requires |buffer| >= 4 && ToInt32(buffer) > 0 && |buffer| >= ToInt32(buffer) + 4
    requires whole == Join(done, Extract(buffer))
    ensures whole == Join(done + [buffer[4..ToInt32(buffer) + 4]], Extract(buffer[ToInt32(buffer) + 4..]))
  {
    ExtractTakesFrame(buffer);
    JoinJoin(done, [buffer[4..ToInt32(buffer) + 4]], Extract(buffer[ToInt32(buffer) + 4..]));
  }

  /** The corrected reassembly after a sequence of `data` events, starting
      from `s`: it stops at an invalid length. */
  function FeedAll(s: Split, chunks: seq<seq<byte>>): (r: Split)
    decreases |chunks|
  {
    if chunks == [] || s.invalid then s
    else FeedAll(Continue(s, chunks[0]), chunks[1..])
  }

  /** However the peer's bytes are cut into `data` events, the corrected
      reassembly hands on the same bodies, and holds the same bytes, as if
      they had come in one. */
  lemma {:induction false} FeedAllChunking(s: Split, chunks: seq<seq<byte>>)
    requires Settled(s)
    ensures FeedAll(s, chunks).bodies == Continue(s, Flat(chunks)).bodies
    ensures FeedAll(s, chunks).invalid == Continue(s, Flat(chunks)).invalid
    ensures !FeedAll(s, chunks).invalid ==> FeedAll(s, chunks).rest == Continue(s, Flat(chunks)).rest
    decreases |chunks|
  {
    if chunks == [] {
      if !s.invalid {
        assert s.rest + [] == s.rest;
        assert s.bodies + [] == s.bodies;
      }
    } else if !s.invalid {
      var c := chunks[0];
      assert s.rest + Flat(chunks) == (s.rest + c) + Flat(chunks[1..]);
      ExtractAppend(s.rest + c, Flat(chunks[1..]));
      ContinueJoin(s.bodies, Extract(s.rest + c), Flat(chunks[1..]));
      FeedAllChunking(Continue(s, c), chunks[1..]);
    }
  }

  /** From nothing held, the chunking makes no difference: the same bodies,
      the same verdict on the lengths, and while no length was invalid the
      same bytes held back. */
  lemma FeedAllFromStart(chunks: seq<seq<byte>>)
    ensures FeedAll(Split([], [], false), chunks).bodies == Extract(Flat(chunks)).bodies
    ensures FeedAll(Split([], [], false), chunks).invalid == Extract(Flat(chunks)).invalid
    ensures !Extract(Flat(chunks)).invalid ==> FeedAll(Split([], [], false), chunks).rest == Extract(Flat(chunks)).rest
  {
    FeedAllChunking(Split([], [], false), chunks);
    assert [] + Flat(chunks) == Flat(chunks);
    assert [] + Extract(Flat(chunks)).bodies == Extract(Flat(chunks)).bodies;
  }
}
