/** The worker (node-host.js): a TCP server on a free local port that prints
    the port, loads the handler script, reads framed invocations, calls the
    handler's method with a completion callback, and writes framed
    responses, errors and events back. */
module NodeWorker {
  import opened Bytes
  import opened Wrappers
  import opened Json
  import Utf8
  import opened Framing
  import Sentinel
  import Coercion
  import opened WorkerSplit

  /** The handler object the script's default export returns, as the
      `length` (declared parameter count) of each of its function-valued
      properties. */
  type Handler = map<string, nat>

  /** What `require(handlerScript)` gives: a function, which returns the
      handler (or `null`/`undefined`), or anything else. */
  datatype Export = Factory(result: Option<Handler>) | NotAFunction

  const NotAFunctionText: string := "handler script should export a default function"

  /** `createHandler`: a script whose export is not a function is refused. */
  function CreateHandler(exported: Export): (r: Result<Option<Handler>, string>)
    ensures r.Err? <==> exported.NotAFunction?
    ensures r.Err? ==> r.error == NotAFunctionText
    ensures r.Ok? ==> r.value == exported.result
  {
    match exported
    case NotAFunction => Err(NotAFunctionText)
    case Factory(h) => Ok(h)
  }

  /** The line that tells the host the port. */
  function SentinelLine(port: nat): string {
    Sentinel.Prefix + Sentinel.Decimal(port) + "]"
  }

  const ReadyLine: string := "[Microsoft.AspNetCore.NodeServices:Listening]"

  /** `msg.method` as a property key and in string concatenation: an absent
      method is `undefined`. */
  function MethodKey(name: Option<string>): string {
    match name
    case Some(n) => n
    case None => "undefined"
  }

  /** The length of a JavaScript string: UTF-16 code units. */
  function Utf16Length(s: string): (n: nat)
    ensures |s| <= n <= 2 * |s|
  {
    if s == [] then 0 else Utf16Length(s[..|s| - 1]) + (if s[|s| - 1] as int >= 0x1_0000 then 2 else 1)
  }

  /** `msg.args.length + 1` for arguments that are not null, as the loose
      `!=` compares it with a parameter count: an array's or a string's
      length plus one; for an object, its own `length` plus one in
      JavaScript's sense, so that null, `false`, `""` and `"0"` all give 1;
      `undefined + 1`, which is `NaN`, when there is no `length`. */
  function ArgsLengthPlusOne(args: Json): (n: Coercion.Num)
    ensures args.JArray? ==> n == Coercion.Finite((|args.items| + 1) as real)
    ensures args.JObject? && "length" !in args.fields ==> n == Coercion.NaN
    ensures args.JObject? && "length" in args.fields ==> n == Coercion.PlusOne(args.fields["length"])
  {
    match args
    case JArray(items) => Coercion.Finite((|items| + 1) as real)
    case JString(s) => Coercion.Finite((Utf16Length(s) + 1) as real)
    case JObject(fields) => if "length" in fields then Coercion.PlusOne(fields["length"]) else Coercion.NaN
    case _ => Coercion.NaN
  }

  /** `method.length != msg.args.length + 1` is false. */
  predicate ArityMatches(count: nat, args: Json) {
    ArgsLengthPlusOne(args) == Coercion.Finite(count as real)
  }

  function NoSuchMethodText(key: string): string {
    "method [" + key + "] does not exist"
  }

  function WrongArityText(key: string): string {
    "incorrect number of arguments for method [" + key + "]"
  }

  /** What `handleData` does with a parsed message. */
  datatype Action =
    | Reply(text: string)                    // `writeError(socket, msg.id, text)`
    | Throw                                   // a TypeError escapes
    | Call(name: string, args: seq<Json>)     // `method.apply(handler, msg.args.concat(callback))`

  /** `handleData` after `JSON.parse`: look the method up, compare its
      declared parameter count with the arguments plus the callback, and call
      it. Null arguments have no `length`, and only an array has the
      `concat` whose result `apply` accepts. */
  function Dispatch(methods: Handler, msg: Message): (r: Action)
    ensures var key := MethodKey(msg.methodName);
      r.Call? <==> key in methods && msg.args.JArray? && methods[key] == |msg.args.items| + 1
    ensures r.Call? ==> r == Call(MethodKey(msg.methodName), msg.args.items)
    ensures var key := MethodKey(msg.methodName);
      r.Throw? <==> key in methods && (msg.args == JNull || (!msg.args.JArray? && ArityMatches(methods[key], msg.args)))
    ensures MethodKey(msg.methodName) !in methods ==> r == Reply(NoSuchMethodText(MethodKey(msg.methodName)))
    ensures MethodKey(msg.methodName) in methods && r.Reply? ==> r.text == WrongArityText(MethodKey(msg.methodName))
  {
    var key := MethodKey(msg.methodName);
    if key !in methods then Reply(NoSuchMethodText(key))
    else if msg.args == JNull then Throw
    else if !ArityMatches(methods[key], msg.args) then Reply(WrongArityText(key))
    else if !msg.args.JArray? then Throw
    else Call(key, msg.args.items)
  }

  /** Arguments given as an object pass the arity check by its `length`
      plus one as JavaScript adds: null, `false`, `""` and `"0"` (which
      makes `"01"`) pass for a method of one parameter, `true` for one of
      two, a number `n` for one of `n + 1`; the call then throws at
      `concat`. A `length` of `"x"` makes `"x1"`, which is `NaN`. */
  lemma LooseArity(methods: Handler, id: Option<int>, name: string, n: int)
    requires name in methods
    ensures methods[name] == 1 ==>
      && Dispatch(methods, Message(InvokeKind, id, Some(name), JObject(map["length" := JNull]))) == Throw
      && Dispatch(methods, Message(InvokeKind, id, Some(name), JObject(map["length" := JBool(false)]))) == Throw
      && Dispatch(methods, Message(InvokeKind, id, Some(name), JObject(map["length" := JString("")]))) == Throw
      && Dispatch(methods, Message(InvokeKind, id, Some(name), JObject(map["length" := JString("0")]))) == Throw
    ensures methods[name] == 2 ==>
      Dispatch(methods, Message(InvokeKind, id, Some(name), JObject(map["length" := JBool(true)]))) == Throw
    ensures Dispatch(methods, Message(InvokeKind, id, Some(name), JObject(map["length" := JNumber(n)])))
      == if methods[name] == n + 1 then Throw else Reply(WrongArityText(name))
    ensures Dispatch(methods, Message(InvokeKind, id, Some(name), JObject(map["length" := JString("x")])))
      == Reply(WrongArityText(name))
  {
    Coercion.PlusOneOfText();
    ArityOfLength(methods, id, name, JNull);
    ArityOfLength(methods, id, name, JBool(false));
    ArityOfLength(methods, id, name, JBool(true));
    ArityOfLength(methods, id, name, JString(""));
    ArityOfLength(methods, id, name, JString("0"));
    ArityOfLength(methods, id, name, JString("x"));
    ArityOfLength(methods, id, name, JNumber(n));
  }

  /** Arguments `{length: v}` are called, and throw, exactly when `v + 1`
      equals the method's parameter count. */
  lemma ArityOfLength(methods: Handler, id: Option<int>, name: string, v: Json)
    requires name in methods
    ensures Dispatch(methods, Message(InvokeKind, id, Some(name), JObject(map["length" := v])))
      == if Coercion.PlusOne(v) == Coercion.Finite(methods[name] as real) then Throw else Reply(WrongArityText(name))
  {
    assert MethodKey(Some(name)) == name;
  }

  /** The first argument the handler passes to its callback. */
  datatype Thrown =
    | Nothing                               // `null` or `undefined`
    | ErrorValue(name: string, message: string)
    | Str(s: string)
    | Num(n: int)
    | Flag(b: bool)

  /** `if (err)`. */
  predicate Truthy(err: Thrown) {
    match err
    case Nothing => false
    case ErrorValue(_, _) => true
    case Str(s) => s != ""
    case Num(n) => n != 0
    case Flag(b) => b
  }

  /** `err.message ? err.message : err.toString()`. An `Error` with an empty
      message prints as its name. */
  function ErrorText(err: Thrown): string
    requires !err.Nothing?
  {
    match err
    case ErrorValue(name, message) => if message != "" then message else name
    case Str(s) => s
    case Num(n) => if n < 0 then "-" + Sentinel.Decimal(-n) else Sentinel.Decimal(n)
    case Flag(b) => if b then "true" else "false"
  }

  function ResponseMessage(id: Option<int>, data: Json): Message {
    Message(ResponseKind, id, None, data)
  }

  function ErrorMessage(id: Option<int>, text: string): Message {
    Message(ErrorKind, id, None, JString(text))
  }

  function EventMessage(event: string, data: Json): Message {
    Message(EventKind, None, Some(event), data)
  }

  /** What the completion callback writes: an error for a truthy `err`,
      otherwise the response. */
  function Completion(id: Option<int>, err: Thrown, res: Json): Message {
    if Truthy(err) then ErrorMessage(id, ErrorText(err)) else ResponseMessage(id, res)
  }

  /** The bytes `writeMessage` puts on the socket for a serialized body:
      the length passed through `<< 0`, written unsigned. */
  ghost predicate Wrote(codec: Codec, m: Message, w0: seq<byte>, w1: seq<byte>, t1: Option<Crash>) {
    var body := Utf8.Encode(codec.stringify(m));
    var header := Int32Wrap(|body|);
    if header < 0 then w1 == w0 && t1 == Some(RangeError)
    else w1 == w0 + LittleEndian32(header) + body && t1 == None
  }

  /** For every body short enough for a frame, `writeMessage` writes its
      frame. */
  lemma WroteFrame(codec: Codec, m: Message, w0: seq<byte>, w1: seq<byte>, t1: Option<Crash>)
    requires Wrote(codec, m, w0, w1, t1)
    requires Fits(Utf8.Encode(codec.stringify(m)))
    ensures t1 == None && w1 == w0 + Frame(Utf8.Encode(codec.stringify(m)))
  {
    var body := Utf8.Encode(codec.stringify(m));
    var f := Frame(body);
    assert f == f[..4] + f[4..];
  }

  /** One handler call in progress: the message's id and whether its
      callback may still write (`callback` not yet nulled). */
  datatype Invocation = Invocation(id: Option<int>, name: string, args: seq<Json>, armed: bool)

  /** The process: the global `handler`, its console and how it ended. */
  class Server {
    /** The global `handler`: each new connection replaces it, for every
        connection. */
    var handler: Option<Handler>
    var stdout: seq<string>
    var stderr: seq<string>
    var closed: bool
    var exitCode: Option<int>

    constructor ()
      ensures handler == None && stdout == [] && stderr == [] && !closed && exitCode == None
    {
      handler := None;
      stdout := [];
      stderr := [];
      closed := false;
      exitCode := None;
    }

    /** The `listen` callback: the port line for the host, then the line the
        host's base class waits for. */
    method OnListening(port: nat)
      modifies this`stdout
      ensures stdout == old(stdout) + [SentinelLine(port), ReadyLine]
    {
      stdout := stdout + [SentinelLine(port)];
      stdout := stdout + [ReadyLine];
    }

    /** The server's `error` event. */
    method OnServerError(code: string)
      modifies this`stderr, this`closed, this`exitCode
      ensures stderr == old(stderr) + ["Error opening socket: [" + code + "]"]
      ensures closed && exitCode == Some(1)
    {
      stderr := stderr + ["Error opening socket: [" + code + "]"];
      closed := true;
      exitCode := Some(1);
    }

    /** The connection callback: build the handler, or report why not and
        exit with code 1. */
    method OnConnection(codec: Codec, exported: Export) returns (c: Connection?)
      modifies this`handler, this`stderr, this`closed, this`exitCode
      ensures exported.NotAFunction? ==>
        && c == null && handler == old(handler)
        && stderr == old(stderr) + [NotAFunctionText] && closed && exitCode == Some(1)
      ensures exported.Factory? ==>
        && c != null && fresh(c) && c.server == this && c.codec == codec
        && c.buffered == [] && c.written == [] && c.calls == [] && c.thrown == None && !c.ended
        && handler == exported.result
        && stderr == old(stderr) && closed == old(closed) && exitCode == old(exitCode)
    {
      var created := CreateHandler(exported);
      if created.Err? {
        stderr := stderr + [created.error];
        closed := true;
        exitCode := Some(1);
        return null;
      }
      handler := created.value;
      c := new Connection(codec, this);
    }
  }

  /** One accepted socket. */
  class Connection {
    const codec: Codec
    const server: Server
    /** Bytes received that do not yet make a whole frame. */
    var buffered: seq<byte>
    /** Bytes written to the socket. */
    var written: seq<byte>
    var calls: seq<Invocation>
    /** The exception that escaped and ended the worker, if any. */
    var thrown: Option<Crash>
    /** `socket.end()` was called. */
    var ended: bool
    /** The bodies handed to `handleData`, in order. */
    ghost var handled: seq<seq<byte>>

    constructor (codec: Codec, server: Server)
      ensures this.codec == codec && this.server == server
      ensures buffered == [] && written == [] && calls == [] && thrown == None && !ended && handled == []
    {
      this.codec := codec;
      this.server := server;
      buffered := [];
      written := [];
      calls := [];
      thrown := None;
      ended := false;
      handled := [];
    }

    /** The socket's `error` event: `handleError` ends the socket. */
    method OnError()
      modifies this`ended
      ensures ended
    {
      ended := true;
    }

    /** `writeMessage`: serialize, allocate the length plus 4, write the
        length with `writeUInt32LE(msgLength << 0, 0)`, then the text. A
        length that `<< 0` makes negative is out of range for the write. */
    method WriteMessage(m: Message)
      modifies this`written, this`thrown
      ensures Wrote(codec, m, old(written), written, thrown)
    {
      var msgStr := codec.stringify(m);
      var msgLength := Utf8.ByteCount(msgStr);
      var buffer := new byte[msgLength + 4];
      var header := Int32Wrap(msgLength);
      if header < 0 {
        thrown := Some(RangeError);
        return;
      }
      var bytes := LittleEndian32(header);
      forall i | 0 <= i < 4 {
        buffer[i] := bytes[i];
      }
      var text := Utf8.Encode(msgStr);
      forall i | 0 <= i < msgLength {
        buffer[4 + i] := text[i];
      }
      assert buffer[..] == bytes + text;
      written := written + buffer[..];
      thrown := None;
    }

    /** `writeEvent`, through the `emit` function the handler was given. */
    method Emit(event: string, data: Json)
      modifies this`written, this`thrown
      ensures Wrote(codec, EventMessage(event, data), old(written), written, thrown)
    {
      WriteMessage(EventMessage(event, data));
    }

    /** `handleData(socket, data)`: parse the body and act on it. */
    method HandleData(data: seq<byte>)
      requires thrown == None
      modifies this`written, this`calls, this`thrown
      ensures Handled(data, old(written), old(calls))
    {
      var parsed := codec.parse(Utf8.Decode(data));
      if parsed.None? {
        thrown := Some(SyntaxError);
        return;
      }
      var msg := parsed.value;
      if server.handler.None? {
        thrown := Some(TypeError);
        return;
      }
      var action := Dispatch(server.handler.value, msg);
      match action
      case Reply(text) =>
        WriteMessage(ErrorMessage(msg.id, text));
      case Throw =>
        thrown := Some(TypeError);
      case Call(name, args) =>
        calls := calls + [Invocation(msg.id, name, args, true)];
    }

    /** The effect of `handleData` on this connection. */
    ghost predicate Handled(data: seq<byte>, w0: seq<byte>, c0: seq<Invocation>)
      reads this, server
    {
      match codec.parse(Utf8.Decode(data))
      case None => thrown == Some(SyntaxError) && written == w0 && calls == c0
      case Some(msg) =>
        match server.handler
        case None => thrown == Some(TypeError) && written == w0 && calls == c0
        case Some(methods) =>
          match Dispatch(methods, msg)
          case Reply(text) => calls == c0 && Wrote(codec, ErrorMessage(msg.id, text), w0, written, thrown)
          case Throw => thrown == Some(TypeError) && written == w0 && calls == c0
          case Call(name, args) =>
            thrown == None && written == w0 && calls == c0 + [Invocation(msg.id, name, args, true)]
    }

    /** The callback handed to call `k`: the first call writes the error or
        the response and disarms it; later calls do nothing. */
    method Complete(k: nat, err: Thrown, res: Json)
      requires k < |calls| && thrown == None
      modifies this`written, this`calls, this`thrown
      ensures !old(calls[k].armed) ==> written == old(written) && calls == old(calls) && thrown == None
      ensures old(calls[k].armed) ==> Wrote(codec, Completion(old(calls[k].id), err, res), old(written), written, thrown)
      ensures old(calls[k].armed) && thrown == None ==> calls == old(calls)[k := old(calls[k]).(armed := false)]
      ensures old(calls[k].armed) && thrown != None ==> calls == old(calls)
    {
      if calls[k].armed {
        var id := calls[k].id;
        if Truthy(err) {
          WriteMessage(ErrorMessage(id, ErrorText(err)));
        } else {
          WriteMessage(ResponseMessage(id, res));
        }
        if thrown.None? {
          calls := calls[k := calls[k].(armed := false)];
        }
      }
    }

    /** The `data` handler with the reassembly corrected: add the chunk to
        what is held, then hand on each complete frame's body; an incomplete
        frame waits for the next event. A length that is not positive still
        throws. */
    method OnData(chunk: seq<byte>)
      requires thrown == None
      modifies this`buffered, this`handled, this`written, this`calls, this`thrown
      ensures |old(handled)| <= |handled| && handled[..|old(handled)|] == old(handled)
      ensures thrown == None ==>
        && !Extract(old(buffered) + chunk).invalid
        && handled == old(handled) + Extract(old(buffered) + chunk).bodies
        && buffered == Extract(old(buffered) + chunk).rest
      ensures Extract(old(buffered) + chunk).invalid ==> thrown != None
      ensures |handled| - |old(handled)| <= |Extract(old(buffered) + chunk).bodies|
      ensures handled[|old(handled)|..] == Extract(old(buffered) + chunk).bodies[..|handled| - |old(handled)|]
    {
      var buffer := buffered + chunk;
      ghost var whole := Extract(buffer);
      ghost var before := handled;
      assert Join([], whole) == whole by {
        assert [] + whole.bodies == whole.bodies;
      }
      assert handled[|before|..] == [];
      var go := true;
      while go && |buffer| >= 4
        invariant go ==> thrown == None
        invariant !go ==> thrown != None || Incomplete(buffer)
        invariant |before| <= |handled| && handled[..|before|] == before
        invariant whole == Join(handled[|before|..], Extract(buffer))
        decreases |buffer|, go
      {
        buffer, go := NextFrame(buffer, before, whole);
      }
      if thrown == None {
        ExtractKeepsIncomplete(buffer);
        assert handled[|before|..] + [] == handled[|before|..];
        assert handled == before + handled[|before|..];
        buffered := buffer;
      }
    }

    /** One turn of the `data` loop: a length that is not positive throws; a
        frame not yet complete stops the loop; otherwise its body goes to
        `handleData`. */
    method NextFrame(buffer: seq<byte>, ghost before: seq<seq<byte>>, ghost whole: Split)
      returns (next: seq<byte>, go: bool)
      requires |buffer| >= 4 && thrown == None
      requires |before| <= |handled| && handled[..|before|] == before
      requires whole == Join(handled[|before|..], Extract(buffer))
      modifies this`handled, this`written, this`calls, this`thrown
      ensures |before| <= |handled| && handled[..|before|] == before
      ensures whole == Join(handled[|before|..], Extract(next))
      ensures |next| <= |buffer|
      ensures go ==> thrown == None && |next| < |buffer|
      ensures !go ==> thrown != None || Incomplete(next)
    {
      var size := ToInt32(buffer);
      if size <= 0 {
        thrown := Some(InvalidMessage);
        return buffer, false;
      }
      if |buffer| < size + 4 {
        return buffer, false;
      }
      var msg := buffer[4..size + 4];
      ghost var done := handled[|before|..];
      FrameTaken(buffer, done, whole);
      next := buffer[size + 4..];
      handled := handled + [msg];
      assert handled[|before|..] == done + [msg];
      assert handled[..|before|] == before;
      HandleData(msg);
      go := thrown.None?;
    }
  }
}
