/** How the host reads frames from the socket: the stream delivers bytes in
    pieces, `ReadAsync` returns part of what has arrived, and the receive code
    turns those reads into frames. */
module Transport {
  import opened Bytes
  import opened Wrappers
  import opened Framing

  /** The exceptions that end a receive, and the remote error text. */
  datatype Fault =
    | IOError            // the socket read threw an IOException
    | HeaderError        // "Error reading header": the header read returned fewer than 4 bytes
    | Overflow           // a length outside `int`: OverflowException
    | Truncated          // the stream ended inside a body
    | Malformed          // the body is not a message
    | NullReference      // a response or error whose id is not pending
    | Remote(text: string)  // the text of an `error` message

  /** The pieces in which the bytes not yet read will arrive; a read never
      returns an empty piece unless the stream has ended. */
  predicate Deliveries(chunks: seq<seq<byte>>) {
    chunks == [] || (|chunks[0]| > 0 && Deliveries(chunks[1..]))
  }

  /** `stream.ReadAsync(buffer, offset, count)`: up to `count` bytes of the
      piece that has arrived; at the end of the stream 0 bytes, or an
      IOException when the connection was reset. */
  function ReadAsync(chunks: seq<seq<byte>>, count: nat, resetAtEnd: bool): (r: (Result<seq<byte>, Fault>, seq<seq<byte>>))
    requires Deliveries(chunks) && count > 0
    ensures Deliveries(r.1)
    ensures chunks == [] ==> r == (if resetAtEnd then Err(IOError) else Ok([]), [])
    ensures chunks != [] ==> r.0.Ok? && 0 < |r.0.value| <= count
    ensures chunks != [] ==> r.0.value == chunks[0][..if |chunks[0]| < count then |chunks[0]| else count]
  {
    if chunks == [] then (if resetAtEnd then Err(IOError) else Ok([]), [])
    else if |chunks[0]| <= count then (Ok(chunks[0]), chunks[1..])
    else
      var h := chunks[0];
      assert ([h[count..]] + chunks[1..])[1..] == chunks[1..];
      (Ok(h[..count]), [h[count..]] + chunks[1..])
  }

  /** A read consumes exactly the bytes it returns: the rest arrives later. */
  lemma ReadAsyncConsumes(chunks: seq<seq<byte>>, count: nat, resetAtEnd: bool)
    requires Deliveries(chunks) && count > 0
    ensures ReadAsync(chunks, count, resetAtEnd).0.Ok? ==>
      Flat(chunks) == ReadAsync(chunks, count, resetAtEnd).0.value + Flat(ReadAsync(chunks, count, resetAtEnd).1)
  {
    if chunks == [] {
    } else if |chunks[0]| <= count {
      assert Flat(chunks) == chunks[0] + Flat(chunks[1..]);
    } else {
      var h := chunks[0];
      var r := ReadAsync(chunks, count, resetAtEnd);
      assert r.0.value == h[..count] && r.1 == [h[count..]] + chunks[1..];
      FlatCons(h[count..], chunks[1..]);
      assert h == h[..count] + h[count..];
      assert Flat(chunks) == h + Flat(chunks[1..]);
      Regroup(h[..count], h[count..], Flat(chunks[1..]));
    }
  }

  /** Puts `p` in front of a successful read. */
  function Prepend(p: seq<byte>, r: (Result<seq<byte>, Fault>, seq<seq<byte>>)): (Result<seq<byte>, Fault>, seq<seq<byte>>) {
    (match r.0 case Ok(b) => Ok(p + b) case Err(e) => Err(e), r.1)
  }

  lemma PrependNothing(r: (Result<seq<byte>, Fault>, seq<seq<byte>>))
    ensures Prepend([], r) == r
  {
    if r.0.Ok? {
      assert [] + r.0.value == r.0.value;
    }
  }

  lemma PrependTwice(p: seq<byte>, q: seq<byte>, r: (Result<seq<byte>, Fault>, seq<seq<byte>>))
    ensures Prepend(p, Prepend(q, r)) == Prepend(p + q, r)
  {
    if r.0.Ok? {
      assert p + (q + r.0.value) == (p + q) + r.0.value;
    }
  }

  /** The body loop: read until `n` bytes have arrived. A read that returns
      nothing means the stream ended, and the loop fails instead of asking
      again. */
  function ReadBody(chunks: seq<seq<byte>>, n: nat, resetAtEnd: bool): (r: (Result<seq<byte>, Fault>, seq<seq<byte>>))
    requires Deliveries(chunks)
    ensures Deliveries(r.1)
    ensures r.0.Err? ==> r.1 == [] && r.0.error == if resetAtEnd then IOError else Truncated
    decreases n
  {
    if n == 0 then (Ok([]), chunks)
    else
      var (got, rest) := ReadAsync(chunks, n, resetAtEnd);
      if got.Err? then (Err(IOError), [])
      else if got.value == [] then (Err(Truncated), [])
      else Prepend(got.value, ReadBody(rest, n - |got.value|, resetAtEnd))
  }

  /** The body loop returns exactly the next `n` bytes, and fails only when
      fewer than `n` are left. */
  lemma {:induction false} ReadBodyConsumes(chunks: seq<seq<byte>>, n: nat, resetAtEnd: bool)
    requires Deliveries(chunks)
    ensures var r := ReadBody(chunks, n, resetAtEnd);
      match r.0
      case Ok(body) => |body| == n && Flat(chunks) == body + Flat(r.1)
      case Err(_) => |Flat(chunks)| < n
    decreases n
  {
    if n > 0 {
      var step := ReadAsync(chunks, n, resetAtEnd);
      ReadAsyncConsumes(chunks, n, resetAtEnd);
      if step.0.Ok? && step.0.value != [] {
        var got := step.0.value;
        var later := ReadBody(step.1, n - |got|, resetAtEnd);
        assert ReadBody(chunks, n, resetAtEnd) == Prepend(got, later);
        ReadBodyConsumes(step.1, n - |got|, resetAtEnd);
        if later.0.Ok? {
          Regroup(got, later.0.value, Flat(later.1));
        }
      }
    }
  }

  lemma Regroup(a: seq<byte>, b: seq<byte>, c: seq<byte>)
    ensures a + (b + c) == (a + b) + c
  {
  }

  /** One turn of the body loop that gets `got`: what is still to be read
      after the bytes `done` shrinks by `got`. */
  lemma ReadBodyStep(whole: (Result<seq<byte>, Fault>, seq<seq<byte>>), done: seq<byte>,
                     chunks: seq<seq<byte>>, n: nat, resetAtEnd: bool)
    requires Deliveries(chunks) && n > 0
    requires whole == Prepend(done, ReadBody(chunks, n, resetAtEnd))
    ensures ReadAsync(chunks, n, resetAtEnd).0.Err? ==> whole == (Err(IOError), [])
    ensures ReadAsync(chunks, n, resetAtEnd).0 == Ok([]) ==> whole == (Err(Truncated), [])
    ensures ReadAsync(chunks, n, resetAtEnd).0.Ok? && ReadAsync(chunks, n, resetAtEnd).0.value != [] ==>
      whole == Prepend(done + ReadAsync(chunks, n, resetAtEnd).0.value,
                       ReadBody(ReadAsync(chunks, n, resetAtEnd).1, n - |ReadAsync(chunks, n, resetAtEnd).0.value|, resetAtEnd))
  {
    var (got, rest) := ReadAsync(chunks, n, resetAtEnd);
    if got.Ok? && got.value != [] {
      PrependTwice(done, got.value, ReadBody(rest, n - |got.value|, resetAtEnd));
    }
  }

  /** `Receive` up to the dispatch: one read of the 4-byte header, a negative
      length rejected by the array allocation, then the body loop. */
  function ReadFrame(chunks: seq<seq<byte>>, resetAtEnd: bool): (r: (Result<seq<byte>, Fault>, seq<seq<byte>>))
    requires Deliveries(chunks)
    ensures Deliveries(r.1)
    ensures r.0.Ok? ==> Fits(r.0.value) && Flat(chunks) == Frame(r.0.value) + Flat(r.1)
    ensures chunks == [] ==> r.0 == Err(if resetAtEnd then IOError else HeaderError)
    ensures chunks != [] && |chunks[0]| < 4 ==> r.0 == Err(HeaderError)
    ensures chunks != [] && |chunks[0]| >= 4 && ToInt32(chunks[0]) < 0 ==> r.0 == Err(Overflow)
    ensures r.0.Err? ==> r.0.error in {IOError, HeaderError, Overflow, Truncated}
  {
    var (header, rest) := ReadAsync(chunks, 4, resetAtEnd);
    if header.Err? then (Err(IOError), rest)
    else if |header.value| != 4 then (Err(HeaderError), rest)
    else
      var len := ToInt32(header.value);
      if len < 0 then (Err(Overflow), rest)
      else
        var r := ReadBody(rest, len, resetAtEnd);
        if r.0.Ok? then
          ReadAsyncConsumes(chunks, 4, resetAtEnd);
          ReadBodyConsumes(rest, len, resetAtEnd);
          HeaderOfBody(header.value, r.0.value);
          r
        else r
  }

  /** A 4-byte header read as a non-negative length, followed by that many
      bytes, is the frame of those bytes. */
  lemma HeaderOfBody(header: seq<byte>, body: seq<byte>)
    requires |header| == 4 && ToInt32(header) >= 0 && |body| == ToInt32(header)
    ensures Fits(body) && Frame(body) == header + body
  {
    LittleEndian32OfToInt32(header);
    assert header[..4] == header;
  }

  /** Decoding an encoded frame gives back its body, whatever pieces the body
      arrives in, provided the first piece holds the whole header. */
  lemma ReadFrameOfFrame(chunks: seq<seq<byte>>, resetAtEnd: bool, body: seq<byte>, tail: seq<byte>)
    requires Deliveries(chunks) && Fits(body)
    requires chunks != [] && |chunks[0]| >= 4
    requires Flat(chunks) == Frame(body) + tail
    ensures ReadFrame(chunks, resetAtEnd).0 == Ok(body)
    ensures Flat(ReadFrame(chunks, resetAtEnd).1) == tail
  {
    var (header, rest) := ReadAsync(chunks, 4, resetAtEnd);
    ReadAsyncConsumes(chunks, 4, resetAtEnd);
    assert header.value == chunks[0][..4];
    assert Flat(chunks) == chunks[0] + Flat(chunks[1..]);
    assert Flat(chunks)[..4] == chunks[0][..4];
    assert Flat(chunks)[..4] == Frame(body)[..4];
    assert header.value == Frame(body)[..4];
    ToInt32Prefix(Frame(body)[..4], body);
    assert Frame(body) == Frame(body)[..4] + body;
    assert ToInt32(header.value) == |body|;
    assert Flat(chunks) == header.value + (body + tail);
    assert Flat(chunks) == header.value + Flat(rest);
    assert Flat(rest) == Flat(chunks)[4..];
    assert Flat(rest) == body + tail;
    var r := ReadBody(rest, |body|, resetAtEnd);
    ReadBodyConsumes(rest, |body|, resetAtEnd);
    assert r.0.Ok?;
    assert r.0.value + Flat(r.1) == body + tail;
    assert r.0.value == (body + tail)[..|body|];
  }

  /** The body loop as the source writes it: `bytesRead += chunkSize` with no
      test for a read of 0 bytes. The state after at most `k` iterations:
      bytes read, pieces left, and the exception that ended the loop. */
  function BodyLoopAsWritten(chunks: seq<seq<byte>>, bytesRead: nat, n: nat, resetAtEnd: bool, k: nat): (r: (nat, seq<seq<byte>>, Option<Fault>))
    requires Deliveries(chunks)
    decreases k
  {
    if k == 0 || bytesRead >= n then (bytesRead, chunks, None)
    else
      var (got, rest) := ReadAsync(chunks, n - bytesRead, resetAtEnd);
      if got.Err? then (bytesRead, rest, Some(got.error))
      else BodyLoopAsWritten(rest, bytesRead + |got.value|, n, resetAtEnd, k - 1)
  }

  /** When the peer closes the stream inside a body, every later read returns
      0 bytes: however many iterations run, `bytesRead` stays below the length
      and nothing is thrown, so the loop never exits. */
  lemma {:induction false} BodyLoopSpinsAtEndOfStream(bytesRead: nat, n: nat, k: nat)
    requires bytesRead < n
    ensures BodyLoopAsWritten([], bytesRead, n, false, k) == (bytesRead, [], None)
  {
    if k > 0 {
      BodyLoopSpinsAtEndOfStream(bytesRead, n, k - 1);
    }
  }
}
