/** The older host (`NodeHost` in Redouble.Aspnet.Webpack). It differs from
    the newer one in four ways: it connects lazily on the first `Invoke`, it
    writes the JSON with no length header while still reading framed
    replies, it hands on a response or event value only when it is an object
    or an array, and its receive loop catches only `IOException`: any other
    exception escapes the `async void` method unhandled, and the pending
    table is never failed. */
module LegacyNodeHost {
  import opened Bytes
  import opened Wrappers
  import opened Json
  import Utf8
  import opened Transport
  import opened Correlation
  import Sentinel
  import opened HostStream

  class Host {
    const codec: Codec
    /** The connection `EnsureClient` opens. */
    const stream: Stream

    /** `_client != null`. */
    var client: bool
    /** Connections opened, and receive loops started with `StartNew`. */
    var connects: nat
    var receiveLoops: nat

    var maxId: int
    ghost var issued: nat
    var pending: seq<int>
    var settled: seq<Settlement>
    var emitHandlers: nat
    var emitted: seq<Event>
    var disconnectedHandlers: nat
    var disconnects: nat
    var portNumber: int
    var logged: seq<string>
    /** The exception that escaped `ReceiveAll`, if any. */
    var unhandled: Option<Fault>

    ghost predicate Valid()
      reads this, stream
    {
      && Deliveries(stream.incoming)
      && TableValid(maxId, issued, pending)
    }

    /** A host whose process is not yet connected to. */
    constructor (codec: Codec, stream: Stream, emitHandlers: nat, disconnectedHandlers: nat)
      requires Deliveries(stream.incoming)
      ensures Valid()
      ensures this.codec == codec && this.stream == stream
      ensures !client && connects == 0 && receiveLoops == 0
      ensures maxId == 0 && issued == 0 && pending == [] && settled == []
      ensures emitted == [] && disconnects == 0 && portNumber == 0 && logged == [] && unhandled == None
      ensures this.emitHandlers == emitHandlers && this.disconnectedHandlers == disconnectedHandlers
    {
      this.codec := codec;
      this.stream := stream;
      this.emitHandlers := emitHandlers;
      this.disconnectedHandlers := disconnectedHandlers;
      client := false;
      connects := 0;
      receiveLoops := 0;
      maxId := 0;
      issued := 0;
      pending := [];
      settled := [];
      emitted := [];
      disconnects := 0;
      portNumber := 0;
      logged := [];
      unhandled := None;
    }

    /** `EnsureClient`: connect and start the receive loop, once. */
    method EnsureClient()
      modifies this`client, this`connects, this`receiveLoops
      ensures client
      ensures old(client) ==> connects == old(connects) && receiveLoops == old(receiveLoops)
      ensures !old(client) ==> connects == old(connects) + 1 && receiveLoops == old(receiveLoops) + 1
    {
      if !client {
        client := true;
        connects := connects + 1;
        receiveLoops := receiveLoops + 1;
      }
    }

    /** `Invoke(methodName, args)`: make sure of the connection, take the next
        id, add the pending entry, then write the UTF-8 JSON as it is, with no
        length in front. */
    method Invoke(methodName: string, args: seq<Json>) returns (id: int)
      requires Valid()
      modifies this`client, this`connects, this`receiveLoops, this`maxId, this`issued, this`pending, stream`written
      ensures Valid()
      ensures client && connects == old(connects) + (if old(client) then 0 else 1)
      ensures receiveLoops == old(receiveLoops) + (if old(client) then 0 else 1)
      ensures id == maxId == NextId(old(maxId)) && issued == old(issued) + 1
      ensures old(issued) < MaxInt32 ==> id == old(maxId) + 1 && id !in old(pending)
      ensures pending == old(pending) + [id]
      ensures stream.written == old(stream.written) + Utf8.Encode(codec.stringify(InvokeMessage(id, methodName, args)))
    {
      EnsureClient();
      TableAfterInvoke(maxId, issued, pending);
      maxId := NextId(maxId);
      issued := issued + 1;
      id := maxId;
      var msg := InvokeMessage(id, methodName, args);
      pending := pending + [id];
      var msgStr := codec.stringify(msg);
      var buffer := Utf8.Encode(msgStr);
      stream.WriteAsync(buffer);
    }

    /** `Receive`: read one frame and dispatch it. */
    method Receive() returns (fault: Option<Fault>)
      requires Valid()
      modifies stream`incoming, this`pending, this`settled, this`emitted
      ensures Valid()
      ensures stream.incoming == Transport.ReadFrame(old(stream.incoming), stream.resetAtEnd).1
      ensures Transport.ReadFrame(old(stream.incoming), stream.resetAtEnd).0.Err? ==>
        && fault == Some(Transport.ReadFrame(old(stream.incoming), stream.resetAtEnd).0.error)
        && pending == old(pending) && settled == old(settled) && emitted == old(emitted)
      ensures Transport.ReadFrame(old(stream.incoming), stream.resetAtEnd).0.Ok? ==>
        Dispatched(codec, true, emitHandlers > 0, Transport.ReadFrame(old(stream.incoming), stream.resetAtEnd).0.value,
                   old(pending), old(settled), old(emitted), pending, settled, emitted, fault)
      ensures fault.None? ==> |Flat(stream.incoming)| < |Flat(old(stream.incoming))|
    {
      var r := ReceiveFrame(stream);
      if r.Err? {
        return Some(r.error);
      }
      fault := HandleDataReceived(r.value);
    }

    /** `HandleDataReceived`: parse, then route by `type`. */
    method HandleDataReceived(body: seq<byte>) returns (fault: Option<Fault>)
      requires Valid()
      modifies this`pending, this`settled, this`emitted
      ensures Valid()
      ensures Dispatched(codec, true, emitHandlers > 0, body,
                         old(pending), old(settled), old(emitted), pending, settled, emitted, fault)
    {
      var parsed := codec.parse(Utf8.Decode(body));
      if parsed.None? {
        return Some(Malformed);
      }
      var msg := parsed.value;
      fault := None;
      if msg.kind == EventKind {
        HandleEvent(msg.methodName, msg.args);
      } else if msg.kind == ResponseKind {
        fault := HandleResponse(msg.id.GetOr(0), msg.args);
      } else if msg.kind == ErrorKind {
        fault := HandleError(msg.id.GetOr(0), msg.args);
      }
    }

    /** `HandleEvent`: `OnEmit(method, args as JToken)`. */
    method HandleEvent(name: Option<string>, args: Json)
      modifies this`emitted
      ensures emitted == old(emitted) + if emitHandlers > 0 then [Event(name, AsJToken(args))] else []
    {
      if emitHandlers > 0 {
        emitted := emitted + [Event(name, AsJToken(args))];
      }
    }

    /** `HandleResponse`: complete the entry with `args as JToken`. */
    method HandleResponse(id: int, args: Json) returns (fault: Option<Fault>)
      requires Valid()
      modifies this`pending, this`settled
      ensures Valid()
      ensures AfterResponse(old(pending), old(settled), pending, settled, id, AsJToken(args), fault)
    {
      var found := Find(pending, id);
      if found.None? {
        return Some(NullReference);
      }
      TableAfterRemove(maxId, issued, pending, found.value);
      pending := RemoveAt(pending, found.value);
      settled := settled + [Settlement(id, Resolved(AsJToken(args)))];
      fault := None;
    }

    /** `HandleError`: remove the entry, then fail it with `args.ToString()`. */
    method HandleError(id: int, args: Json) returns (fault: Option<Fault>)
      requires Valid()
      modifies this`pending, this`settled
      ensures Valid()
      ensures AfterError(codec, old(pending), old(settled), pending, settled, id, args, fault)
    {
      var found := Find(pending, id);
      if found.None? {
        return Some(NullReference);
      }
      TableAfterRemove(maxId, issued, pending, found.value);
      pending := RemoveAt(pending, found.value);
      var text := ErrorText(codec, args);
      if text.None? {
        return Some(NullReference);
      }
      settled := settled + [Settlement(id, Rejected(Remote(text.value)))];
      fault := None;
    }

    /** `ReceiveAll`: receive until an exception. An `IOException` writes
        the line `error` to the console and raises `Disconnected`; any other exception is left unhandled. Either way the
        entries still pending are never completed: every completion made is
        an answer from the worker, never the exception, and every entry
        pending at the start is still pending, was answered, or is the one
        `lost` to the null dereference of an `error` with null `args` that
        ended the loop. Returns the exception. */
    method ReceiveAll() returns (ended: Fault, ghost lost: Option<int>)
      requires Valid()
      modifies stream`incoming, this`pending, this`settled, this`emitted, this`disconnects, this`unhandled, this`logged
      ensures Valid()
      ensures |settled| >= |old(settled)| && settled[..|old(settled)|] == old(settled)
      ensures forall x :: x in pending ==> x in old(pending)
      ensures !ended.Remote?
      ensures forall k :: |old(settled)| <= k < |settled| ==>
        Answered(settled[k]) && settled[k].outcome != Rejected(ended)
      ensures forall x :: x in old(pending) ==>
        x in pending || x in Named(settled[|old(settled)|..]) || lost == Some(x)
      ensures lost.Some? ==> ended == NullReference
      ensures ended == IOError ==>
        && unhandled == old(unhandled) && logged == old(logged) + ["error"]
        && disconnects == old(disconnects) + if disconnectedHandlers > 0 then 1 else 0
      ensures ended != IOError ==>
        unhandled == Some(ended) && logged == old(logged) && disconnects == old(disconnects)
    {
      ProgressNone(pending, settled);
      while true
        invariant Valid()
        invariant forall x :: x in pending ==> x in old(pending)
        invariant Progress(old(pending), old(settled), pending, settled, None)
        invariant disconnects == old(disconnects) && unhandled == old(unhandled) && logged == old(logged)
        decreases |Flat(stream.incoming)|
      {
        var fault, dropped := ReceiveTracked(old(pending), old(settled));
        if fault.Some? {
          ended := fault.value;
          lost := dropped;
          if ended == IOError {
            logged := logged + ["error"];
            OnDisconnected();
          } else {
            unhandled := Some(ended);
          }
          return;
        }
      }
    }

    /** One pass of the loop, `Receive`, seen against the table `p0` and the
        completions `s0` the loop started from. */
    method ReceiveTracked(ghost p0: seq<int>, ghost s0: seq<Settlement>) returns (fault: Option<Fault>, ghost dropped: Option<int>)
      requires Valid()
      requires forall x :: x in pending ==> x in p0
      requires Progress(p0, s0, pending, settled, None)
      modifies stream`incoming, this`pending, this`settled, this`emitted
      ensures Valid()
      ensures forall x :: x in pending ==> x in p0
      ensures Progress(p0, s0, pending, settled, dropped)
      ensures dropped.Some? ==> fault == Some(NullReference)
      ensures fault.Some? ==> !fault.value.Remote?
      ensures fault.None? ==> |Flat(stream.incoming)| < |Flat(old(stream.incoming))|
    {
      ghost var pa, sa, ea := pending, settled, emitted;
      ghost var frame := Transport.ReadFrame(stream.incoming, stream.resetAtEnd);
      fault := Receive();
      dropped := None;
      if frame.0.Ok? {
        DispatchedOnlyRemoves(codec, true, emitHandlers > 0, frame.0.value, pa, sa, ea, pending, settled, emitted, fault);
        dropped := DispatchedProgress(codec, true, emitHandlers > 0, frame.0.value, p0, s0,
                                      pa, sa, ea, pending, settled, emitted, fault);
      }
    }

    /** `OnDisconnected`: raised only when someone subscribed. */
    method OnDisconnected()
      modifies this`disconnects
      ensures disconnects == old(disconnects) + if disconnectedHandlers > 0 then 1 else 0
    {
      if disconnectedHandlers > 0 {
        disconnects := disconnects + 1;
      }
    }

    /** `OnOutputDataReceived(line)`: as in the newer host. */
    method OnOutputDataReceived(line: string) returns (fault: Option<Fault>)
      modifies this`portNumber, this`logged
      ensures old(portNumber) != 0 || Sentinel.MatchPort(line).None? ==>
        fault == None && portNumber == old(portNumber) && logged == old(logged) + [line]
      ensures old(portNumber) == 0 && Sentinel.MatchPort(line).Some? ==>
        var port := Sentinel.ParseInt32(Sentinel.MatchPort(line).value);
        && logged == old(logged)
        && (port.Some? ==> fault == None && portNumber == port.value)
        && (port.None? ==> fault == Some(Overflow) && portNumber == old(portNumber))
    {
      var captured := if portNumber != 0 then None else Sentinel.MatchPort(line);
      fault := None;
      if captured.Some? {
        var port := Sentinel.ParseInt32(captured.value);
        if port.None? {
          return Some(Overflow);
        }
        portNumber := port.value;
      } else {
        logged := logged + [line];
      }
    }
  }
}
