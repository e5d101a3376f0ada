/** The host side of the bridge (`NodeHost` in Redouble.AspNet.Webpack): it
    frames and writes invocations, keeps the pending table, reads frames
    back, and learns the worker's port from its standard output. */
module NodeHost {
  import opened Bytes
  import opened Wrappers
  import opened Json
  import Utf8
  import opened Framing
  import opened Transport
  import opened Correlation
  import Sentinel
  import opened HostStream

  class Host {
    const codec: Codec
    /** `_stream`, connected by `Start`. */
    const stream: Stream

    var maxId: int
    /** How many invocations this host has issued. */
    ghost var issued: nat
    /** `_pendingTasks`, by id, in list order. */
    var pending: seq<int>
    /** The futures completed so far, in order. */
    var settled: seq<Settlement>
    /** `_client.Connected`. */
    var connected: bool
    /** Subscribers to `Emit` and the events raised to them. */
    var emitHandlers: nat
    var emitted: seq<Event>
    /** Subscribers to `Disconnected` and how often it was raised. */
    var disconnectedHandlers: nat
    var disconnects: nat
    var portNumber: int
    /** Lines handed on to the base class's output logging. */
    var logged: seq<string>

    ghost predicate Valid()
      reads this, stream
    {
      && Deliveries(stream.incoming)
      && TableValid(maxId, issued, pending)
    }

    /** A host whose handshake is done and whose socket is connected. */
    constructor (codec: Codec, stream: Stream,
                 emitHandlers: nat, disconnectedHandlers: nat, portNumber: int)
      requires Deliveries(stream.incoming)
      ensures Valid()
      ensures this.codec == codec && this.stream == stream
      ensures maxId == 0 && issued == 0 && pending == [] && settled == []
      ensures connected && emitted == [] && disconnects == 0 && logged == []
      ensures this.emitHandlers == emitHandlers && this.disconnectedHandlers == disconnectedHandlers
      ensures this.portNumber == portNumber
    {
      this.codec := codec;
      this.stream := stream;
      this.emitHandlers := emitHandlers;
      this.disconnectedHandlers := disconnectedHandlers;
      this.portNumber := portNumber;
      maxId := 0;
      issued := 0;
      pending := [];
      settled := [];
      connected := true;
      emitted := [];
      disconnects := 0;
      logged := [];
    }

    /** `Invoke(methodName, args)`: the next id, one pending entry for it
        before anything is written, then one frame holding the UTF-8 JSON.
        A message too long for an `int` length throws after the entry was
        added. Returns the id whose future the caller awaits. */
    method Invoke(methodName: string, args: seq<Json>) returns (r: Result<int, Fault>)
      requires Valid()
      modifies this`maxId, this`issued, this`pending, stream`written
      ensures Valid()
      ensures maxId == NextId(old(maxId)) && issued == old(issued) + 1
      ensures old(issued) < MaxInt32 ==> maxId == old(maxId) + 1
      ensures pending == old(pending) + [maxId]
      ensures var body := Utf8.Encode(codec.stringify(InvokeMessage(maxId, methodName, args)));
        if |body| <= MaxInt32 - 4 then r == Ok(maxId) && stream.written == old(stream.written) + Frame(body)
        else r == Err(Overflow) && stream.written == old(stream.written)
    {
      TableAfterInvoke(maxId, issued, pending);
      maxId := NextId(maxId);
      issued := issued + 1;
      var msg := InvokeMessage(maxId, methodName, args);
      pending := pending + [maxId];

      var msgStr := codec.stringify(msg);
      var msgLength := Utf8.ByteCount(msgStr);
      if msgLength > MaxInt32 - 4 {
        return Err(Overflow);
      }
      var buffer := new byte[msgLength + 4];
      var header := LittleEndian32(msgLength);
      forall i | 0 <= i < 4 {
        buffer[i] := header[i];
      }
      var bytes := Utf8.Encode(msgStr);
      forall i | 0 <= i < msgLength {
        buffer[4 + i] := bytes[i];
      }
      assert buffer[..] == header + bytes;
      stream.WriteAsync(buffer[..]);
      r := Ok(maxId);
    }

    /** `Receive`: read one frame and dispatch it. */
    method Receive() returns (fault: Option<Fault>)
      requires Valid()
      modifies stream`incoming, this`pending, this`settled, this`emitted
      ensures Valid()
      ensures stream.incoming == Transport.ReadFrame(old(stream.incoming), stream.resetAtEnd).1
      ensures Transport.ReadFrame(old(stream.incoming), stream.resetAtEnd).0.Err? ==>
        && fault == Some(Transport.ReadFrame(old(stream.incoming), stream.resetAtEnd).0.error)
        && pending == old(pending) && settled == old(settled) && emitted == old(emitted)
      ensures Transport.ReadFrame(old(stream.incoming), stream.resetAtEnd).0.Ok? ==>
        Dispatched(codec, false, emitHandlers > 0, Transport.ReadFrame(old(stream.incoming), stream.resetAtEnd).0.value,
                   old(pending), old(settled), old(emitted), pending, settled, emitted, fault)
      ensures fault.None? ==> |Flat(stream.incoming)| < |Flat(old(stream.incoming))|
    {
      var r := ReceiveFrame(stream);
      if r.Err? {
        return Some(r.error);
      }
      fault := HandleDataReceived(r.value);
    }

    /** `HandleDataReceived`: parse, then route by `type`. */
    method HandleDataReceived(body: seq<byte>) returns (fault: Option<Fault>)
      requires Valid()
      modifies this`pending, this`settled, this`emitted
      ensures Valid()
      ensures Dispatched(codec, false, emitHandlers > 0, body,
                         old(pending), old(settled), old(emitted), pending, settled, emitted, fault)
    {
      var parsed := codec.parse(Utf8.Decode(body));
      if parsed.None? {
        return Some(Malformed);
      }
      var msg := parsed.value;
      fault := None;
      if msg.kind == EventKind {
        HandleEvent(msg.methodName, msg.args);
      } else if msg.kind == ResponseKind {
        fault := HandleResponse(msg.id.GetOr(0), msg.args);
      } else if msg.kind == ErrorKind {
        fault := HandleError(msg.id.GetOr(0), msg.args);
      }
    }

    /** `HandleEvent`, then `OnEmit`: raised only when someone subscribed. */
    method HandleEvent(name: Option<string>, args: Json)
      modifies this`emitted
      ensures emitted == old(emitted) + if emitHandlers > 0 then [Event(name, Some(args))] else []
    {
      if emitHandlers > 0 {
        emitted := emitted + [Event(name, Some(args))];
      }
    }

    /** `HandleResponse`: complete the first pending entry with this id. */
    method HandleResponse(id: int, args: Json) returns (fault: Option<Fault>)
      requires Valid()
      modifies this`pending, this`settled
      ensures Valid()
      ensures AfterResponse(old(pending), old(settled), pending, settled, id, Some(args), fault)
    {
      var found := Find(pending, id);
      if found.None? {
        return Some(NullReference);
      }
      TableAfterRemove(maxId, issued, pending, found.value);
      pending := RemoveAt(pending, found.value);
      settled := settled + [Settlement(id, Resolved(Some(args)))];
      fault := None;
    }

    /** `HandleError`: remove the entry, then fail it with `args.ToString()`. */
    method HandleError(id: int, args: Json) returns (fault: Option<Fault>)
      requires Valid()
      modifies this`pending, this`settled
      ensures Valid()
      ensures AfterError(codec, old(pending), old(settled), pending, settled, id, args, fault)
    {
      var found := Find(pending, id);
      if found.None? {
        return Some(NullReference);
      }
      TableAfterRemove(maxId, issued, pending, found.value);
      pending := RemoveAt(pending, found.value);
      var text := ErrorText(codec, args);
      if text.None? {
        return Some(NullReference);
      }
      settled := settled + [Settlement(id, Rejected(Remote(text.value)))];
      fault := None;
    }

    /** `ReceiveAll`: receive while connected; the first exception fails
        every pending entry with it, empties the table, then raises
        `Disconnected`. Returns the exception, the table it found (`held`)
        and the completions made before it (`answered`): those are answers
        from the worker, and every entry pending at the start is then in
        `held`, was answered, or is the one `lost` to the null dereference
        of an `error` with null `args` that ended the loop. */
    method ReceiveAll() returns (ended: Option<Fault>, ghost held: seq<int>, ghost answered: seq<Settlement>,
                                 ghost lost: Option<int>)
      requires Valid()
      modifies stream`incoming, this`pending, this`settled, this`emitted, this`disconnects
      ensures Valid()
      ensures |settled| >= |old(settled)| && settled[..|old(settled)|] == old(settled)
      ensures ended.Some? <==> connected
      ensures connected ==>
        && !ended.value.Remote?
        && pending == [] && settled == answered + RejectAll(held, ended.value)
        && disconnects == old(disconnects) + if disconnectedHandlers > 0 then 1 else 0
      ensures |answered| >= |old(settled)| && answered[..|old(settled)|] == old(settled)
      ensures forall k :: |old(settled)| <= k < |answered| ==> Answered(answered[k])
      ensures forall x :: x in held ==> x in old(pending)
      ensures forall x :: x in old(pending) ==> x in held || x in Named(answered[|old(settled)|..]) || lost == Some(x)
      ensures lost.Some? ==> ended == Some(NullReference)
      ensures !connected ==> stream.incoming == old(stream.incoming) && pending == old(pending) && settled == old(settled)
                             && emitted == old(emitted) && disconnects == old(disconnects)
    {
      ended, held, answered, lost := None, pending, settled, None;
      ProgressNone(pending, settled);
      while connected
        invariant Valid()
        invariant connected == old(connected)
        invariant forall x :: x in pending ==> x in old(pending)
        invariant Progress(old(pending), old(settled), pending, settled, None)
        invariant disconnects == old(disconnects)
        invariant !connected ==> stream.incoming == old(stream.incoming) && pending == old(pending) && settled == old(settled)
                                 && emitted == old(emitted)
        decreases |Flat(stream.incoming)|
      {
        var fault, dropped := ReceiveTracked(old(pending), old(settled));
        if fault.Some? {
          ended, held, answered, lost := fault, pending, settled, dropped;
          Drain(fault.value);
          assert settled[..|answered|] == answered;
          assert settled[..|old(settled)|] == answered[..|old(settled)|];
          OnDisconnected();
          return;
        }
      }
    }

    /** One pass of the loop, `Receive`, seen against the table `p0` and the
        completions `s0` the loop started from. */
    method ReceiveTracked(ghost p0: seq<int>, ghost s0: seq<Settlement>) returns (fault: Option<Fault>, ghost dropped: Option<int>)
      requires Valid()
      requires forall x :: x in pending ==> x in p0
      requires Progress(p0, s0, pending, settled, None)
      modifies stream`incoming, this`pending, this`settled, this`emitted
      ensures Valid()
      ensures forall x :: x in pending ==> x in p0
      ensures Progress(p0, s0, pending, settled, dropped)
      ensures dropped.Some? ==> fault == Some(NullReference)
      ensures fault.Some? ==> !fault.value.Remote?
      ensures fault.None? ==> |Flat(stream.incoming)| < |Flat(old(stream.incoming))|
    {
      ghost var pa, sa, ea := pending, settled, emitted;
      ghost var frame := Transport.ReadFrame(stream.incoming, stream.resetAtEnd);
      fault := Receive();
      dropped := None;
      if frame.0.Ok? {
        DispatchedOnlyRemoves(codec, false, emitHandlers > 0, frame.0.value, pa, sa, ea, pending, settled, emitted, fault);
        dropped := DispatchedProgress(codec, false, emitHandlers > 0, frame.0.value, p0, s0,
                                      pa, sa, ea, pending, settled, emitted, fault);
      }
    }

    /** The `catch` block: copy the table, clear it, and fail each copied
        entry with the exception, in table order. */
    method Drain(ex: Fault)
      requires Valid()
      modifies this`pending, this`settled
      ensures Valid()
      ensures pending == [] && settled == old(settled) + RejectAll(old(pending), ex)
    {
      var tasks := pending;
      pending := [];
      var i := 0;
      while i < |tasks|
        invariant pending == []
        invariant 0 <= i <= |tasks|
        invariant settled == old(settled) + RejectAll(tasks[..i], ex)
      {
        settled := settled + [Settlement(tasks[i], Rejected(ex))];
        i := i + 1;
        assert RejectAll(tasks[..i], ex) == RejectAll(tasks[..i - 1], ex) + [Settlement(tasks[i - 1], Rejected(ex))];
      }
      assert tasks[..i] == tasks;
    }

    /** `OnDisconnected`: raised only when someone subscribed. */
    method OnDisconnected()
      modifies this`disconnects
      ensures disconnects == old(disconnects) + if disconnectedHandlers > 0 then 1 else 0
    {
      if disconnectedHandlers > 0 {
        disconnects := disconnects + 1;
      }
    }

    /** `OnOutputDataReceived(line)`: while no port is known, a line matching
        the handshake pattern sets it and is not logged; every other line
        goes to the log. A port past `int.MaxValue` makes `int.Parse` throw. */
    method OnOutputDataReceived(line: string) returns (fault: Option<Fault>)
      modifies this`portNumber, this`logged
      ensures old(portNumber) != 0 || Sentinel.MatchPort(line).None? ==>
        fault == None && portNumber == old(portNumber) && logged == old(logged) + [line]
      ensures old(portNumber) == 0 && Sentinel.MatchPort(line).Some? ==>
        var port := Sentinel.ParseInt32(Sentinel.MatchPort(line).value);
        && logged == old(logged)
        && (port.Some? ==> fault == None && portNumber == port.value)
        && (port.None? ==> fault == Some(Overflow) && portNumber == old(portNumber))
    {
      var captured := if portNumber != 0 then None else Sentinel.MatchPort(line);
      fault := None;
      if captured.Some? {
        var port := Sentinel.ParseInt32(captured.value);
        if port.None? {
          return Some(Overflow);
        }
        portNumber := port.value;
      } else {
        logged := logged + [line];
      }
    }
  }
}
