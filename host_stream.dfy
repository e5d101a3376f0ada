/** The host's end of the TCP connection (`_stream` in both hosts) and the
    frame reading that both hosts' `Receive` share: a 4-byte header read, then
    a loop that fills a body array one read at a time. */
module HostStream {
  import opened Bytes
  import opened Wrappers
  import opened Transport

  /** The bytes still to arrive, in the pieces the peer's writes deliver them
      in, and the bytes this side has written. */
  class Stream {
    /** Whether the connection ends with a reset (reads throw) or a close
        (reads return 0 bytes). */
    const resetAtEnd: bool
    var incoming: seq<seq<byte>>
    var written: seq<byte>

    constructor (incoming: seq<seq<byte>>, resetAtEnd: bool)
      requires Deliveries(incoming)
      ensures this.incoming == incoming && this.resetAtEnd == resetAtEnd && written == []
    {
      this.incoming := incoming;
      this.resetAtEnd := resetAtEnd;
      written := [];
    }

    /** `ReadAsync(buffer, offset, count)`: at most `count` bytes. */
    method ReadAsync(count: nat) returns (r: Result<seq<byte>, Fault>)
      requires Deliveries(incoming) && count > 0
      modifies this`incoming
      ensures Deliveries(incoming)
      ensures (r, incoming) == Transport.ReadAsync(old(incoming), count, resetAtEnd)
    {
      var (got, rest) := Transport.ReadAsync(incoming, count, resetAtEnd);
      r, incoming := got, rest;
    }

    /** `WriteAsync(buffer, 0, buffer.Length)` followed by `FlushAsync()`. */
    method WriteAsync(bytes: seq<byte>)
      modifies this`written
      ensures written == old(written) + bytes
    {
      written := written + bytes;
    }
  }

  /** `Receive` up to `HandleDataReceived`: one header read, a negative length
      rejected by the array allocation, then the body loop. */
  method ReceiveFrame(s: Stream) returns (r: Result<seq<byte>, Fault>)
    requires Deliveries(s.incoming)
    modifies s`incoming
    ensures Deliveries(s.incoming)
    ensures (r, s.incoming) == Transport.ReadFrame(old(s.incoming), s.resetAtEnd)
  {
    var header := s.ReadAsync(4);
    if header.Err? {
      return Err(header.error);
    }
    if |header.value| != 4 {
      return Err(HeaderError);
    }
    var bufferLength := ToInt32(header.value);
    if bufferLength < 0 {
      return Err(Overflow);
    }
    r := FillBody(s, bufferLength);
  }

  /** The body loop: fill a fresh array of `bufferLength` bytes, one read at a
      time, until all have arrived. */
  method FillBody(s: Stream, bufferLength: nat) returns (r: Result<seq<byte>, Fault>)
    requires Deliveries(s.incoming)
    modifies s`incoming
    ensures Deliveries(s.incoming)
    ensures (r, s.incoming) == Transport.ReadBody(old(s.incoming), bufferLength, s.resetAtEnd)
  {
    var buffer := new byte[bufferLength];
    var bytesRead := 0;
    ghost var whole := Transport.ReadBody(s.incoming, bufferLength, s.resetAtEnd);
    var left: nat := bufferLength;
    PrependNothing(whole);
    assert buffer[..bytesRead] == [];
    while bytesRead < bufferLength
      invariant Deliveries(s.incoming)
      invariant 0 <= bytesRead <= bufferLength && left == bufferLength - bytesRead
      invariant whole == Prepend(buffer[..bytesRead], Transport.ReadBody(s.incoming, left, s.resetAtEnd))
      decreases left
    {
      ghost var done := buffer[..bytesRead];
      var chunk := ReadChunk(s, whole, done, left);
      if chunk.Err? {
        return Err(chunk.error);
      }
      var got := chunk.value;
      ghost var later := Transport.ReadBody(s.incoming, left - |got|, s.resetAtEnd);
      CopyInto(buffer, bytesRead, got);
      bytesRead := bytesRead + |got|;
      left := left - |got|;
      assert buffer[..bytesRead] == done + got;
      assert whole == Prepend(buffer[..bytesRead], later);
    }
    assert buffer[..bytesRead] == buffer[..] == buffer[..] + [];
    r := Ok(buffer[..]);
  }

  /** One turn of the body loop: a read of at most `count` bytes; a read of 0
      bytes means the peer closed the stream and ends the loop. */
  method ReadChunk(s: Stream, ghost whole: (Result<seq<byte>, Fault>, seq<seq<byte>>), ghost done: seq<byte>, count: nat)
    returns (r: Result<seq<byte>, Fault>)
    requires Deliveries(s.incoming) && count > 0
    requires whole == Prepend(done, Transport.ReadBody(s.incoming, count, s.resetAtEnd))
    modifies s`incoming
    ensures Deliveries(s.incoming)
    ensures r.Err? ==> whole == (r, s.incoming)
    ensures r.Ok? ==> 0 < |r.value| <= count
    ensures r.Ok? ==> whole == Prepend(done + r.value, Transport.ReadBody(s.incoming, count - |r.value|, s.resetAtEnd))
  {
    ReadBodyStep(whole, done, s.incoming, count, s.resetAtEnd);
    r := s.ReadAsync(count);
    if r.Ok? && r.value == [] {
      r := Err(Truncated);
    }
  }

  /** `ReadAsync(buffer, at, …)` storing what was read at offset `at`. */
  method CopyInto(buffer: array<byte>, at: nat, got: seq<byte>)
    requires at + |got| <= buffer.Length
    modifies buffer
    ensures buffer[..at + |got|] == old(buffer[..at]) + got
  {
    forall i | 0 <= i < |got| {
      buffer[at + i] := got[i];
    }
  }
}
