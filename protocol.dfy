/** The two sides of the bridge together: what the newer host writes reaches
    the handler, what the worker writes back settles the host's future, the
    handshake line carries the port, and the service's invocations pass the
    worker's arity check. */
module Protocol {
  import opened Bytes
  import opened Wrappers
  import opened Json
  import Utf8
  import opened Framing
  import opened Transport
  import opened Correlation
  import Sentinel
  import opened WorkerSplit
  import opened NodeWorker
  import BuildHandler
  import WebpackService

  /** The body of the frame the newer host's `Invoke` writes. */
  function InvokeBody(codec: Codec, id: int, name: string, args: seq<Json>): seq<byte> {
    Utf8.Encode(codec.stringify(InvokeMessage(id, name, args)))
  }

  /** The frame of an invocation, however the socket cuts it into `data`
      events, leaves the worker's reassembly holding exactly its body and no
      spare byte; the body parses back to the invocation, which the worker
      calls when the method's declared parameters are the arguments and the
      callback, and answers with an error when there is no such method. */
  lemma InvokeReachesHandler(codec: Codec, methods: Handler, id: int, name: string, args: seq<Json>,
                             chunks: seq<seq<byte>>)
    requires RoundTrips(codec, InvokeMessage(id, name, args))
    requires codec.stringify(InvokeMessage(id, name, args)) != ""
    requires Fits(InvokeBody(codec, id, name, args))
    requires Flat(chunks) == Frame(InvokeBody(codec, id, name, args))
    ensures var s := FeedAll(Split([], [], false), chunks);
      s.bodies == [InvokeBody(codec, id, name, args)] && s.rest == [] && !s.invalid
    ensures codec.parse(Utf8.Decode(InvokeBody(codec, id, name, args))) == Some(InvokeMessage(id, name, args))
    ensures name in methods && methods[name] == |args| + 1 ==>
      Dispatch(methods, InvokeMessage(id, name, args)) == Call(name, args)
    ensures name in methods && methods[name] != |args| + 1 ==>
      Dispatch(methods, InvokeMessage(id, name, args)) == NodeWorker.Reply(WrongArityText(name))
    ensures name !in methods ==>
      Dispatch(methods, InvokeMessage(id, name, args)) == NodeWorker.Reply(NoSuchMethodText(name))
  {
    var body := InvokeBody(codec, id, name, args);
    assert body != [];
    assert AllFit([body]) && NonEmpty([body]);
    assert FrameStream([body]) == Frame(body) + [];
    ExtractOfFrames([body], []);
    assert Frame(body) + [] == Frame(body);
    assert Extract(Flat(chunks)) == Split([body], [], false);
    FeedAllFromStart(chunks);
    Utf8.DecodeEncode(codec.stringify(InvokeMessage(id, name, args)));
  }

  /** What settles invocation `id` on the host when the worker completes it:
      the value of the response, or the error's text. */
  function Settles(id: int, err: Thrown, res: Json): Settlement {
    if Truthy(err) then Settlement(id, Rejected(Remote(NodeWorker.ErrorText(err))))
    else Settlement(id, Resolved(Some(res)))
  }

  /** The worker's completion of a pending invocation, handled by the newer
      host, removes exactly that entry and completes its future with the
      handler's result or the text of its error. */
  lemma CompletionSettles(codec: Codec, subscribed: bool, id: int, err: Thrown, res: Json,
                          p0: seq<int>, s0: seq<Settlement>, e0: seq<Event>,
                          p1: seq<int>, s1: seq<Settlement>, e1: seq<Event>, fault: Option<Fault>)
    requires RoundTrips(codec, Completion(Some(id), err, res))
    requires id in p0
    requires Dispatched(codec, false, subscribed, Utf8.Encode(codec.stringify(Completion(Some(id), err, res))),
                        p0, s0, e0, p1, s1, e1, fault)
    ensures fault == None && e1 == e0
    ensures Find(p0, id).Some? && p1 == RemoveAt(p0, Find(p0, id).value)
    ensures s1 == s0 + [Settles(id, err, res)]
  {
    Utf8.DecodeEncode(codec.stringify(Completion(Some(id), err, res)));
  }

  /** What the worker writes for a message is a frame the host's `Receive`
      reads back whole, however the host's socket delivers it. */
  lemma WorkerFrameRead(codec: Codec, m: Message, w1: seq<byte>, t1: Option<Crash>,
                        chunks: seq<seq<byte>>, resetAtEnd: bool, tail: seq<byte>)
    requires Wrote(codec, m, [], w1, t1)
    requires Fits(Utf8.Encode(codec.stringify(m)))
    requires Deliveries(chunks) && chunks != [] && |chunks[0]| >= 4
    requires Flat(chunks) == w1 + tail
    ensures t1 == None
    ensures ReadFrame(chunks, resetAtEnd).0 == Ok(Utf8.Encode(codec.stringify(m)))
    ensures Flat(ReadFrame(chunks, resetAtEnd).1) == tail
  {
    WroteFrame(codec, m, [], w1, t1);
    assert [] + Frame(Utf8.Encode(codec.stringify(m))) == Frame(Utf8.Encode(codec.stringify(m)));
    ReadFrameOfFrame(chunks, resetAtEnd, Utf8.Encode(codec.stringify(m)), tail);
  }

  /** The line the worker prints when it listens matches the host's pattern,
      and the host reads the port back from it. */
  lemma SentinelHandshake(port: nat)
    requires port <= MaxInt32
    ensures Sentinel.MatchPort(SentinelLine(port)) == Some(Sentinel.Decimal(port))
    ensures Sentinel.ParseInt32(Sentinel.Decimal(port)) == Some(port)
  {
    var d := Sentinel.Decimal(port);
    var line := SentinelLine(port);
    var p := Sentinel.Prefix;
    assert Sentinel.Content(line) == line;
    assert line[..|p|] == p;
    forall i | 0 <= i < |p|
      ensures Sentinel.PatternCharMatches(p[i], line[i])
    {
      assert line[i] == p[i];
    }
    assert line[|p|..|line| - 1] == d;
    Sentinel.DecimalValueOfDecimal(port);
  }

  /** The declared parameter counts of the handler's methods:
      `start(configPath, logLevelEnum, callback)`, `stop(callback)` and
      `getFile(filename, callback)`. */
  const HandlerMethods: Handler := map["start" := 3, "stop" := 1, "getFile" := 2]

  /** The invocations `WebpackService` makes pass the worker's arity check;
      `start` gets the default log level, since the service sends null. */
  lemma ServiceInvocationsCallHandler(id: int, basePath: string, configPath: string, path: string)
    ensures Dispatch(HandlerMethods, InvokeMessage(id, "start", WebpackService.StartArgs(basePath, configPath)))
      == Call("start", WebpackService.StartArgs(basePath, configPath))
    ensures Dispatch(HandlerMethods, InvokeMessage(id, "getFile", WebpackService.GetFileArgs(path)))
      == Call("getFile", WebpackService.GetFileArgs(path))
    ensures BuildHandler.LogLevel(WebpackService.StartArgs(basePath, configPath)[1]) == BuildHandler.Preset("normal")
  {
    var start := InvokeMessage(id, "start", WebpackService.StartArgs(basePath, configPath));
    var getFile := InvokeMessage(id, "getFile", WebpackService.GetFileArgs(path));
    assert MethodKey(start.methodName) == "start";
    assert MethodKey(getFile.methodName) == "getFile";
  }

  /** The guards of the handler throw `Error`s with their text as message;
      the host receives that text. */
  lemma GuardTextReachesHost(id: int)
    ensures Settles(id, ErrorValue("Error", BuildHandler.NotStartedText), JNull)
      == Settlement(id, Rejected(Remote(BuildHandler.NotStartedText)))
    ensures Settles(id, ErrorValue("Error", BuildHandler.AlreadyStartedText), JNull)
      == Settlement(id, Rejected(Remote(BuildHandler.AlreadyStartedText)))
  {
  }

  /** The older host writes the JSON with no length in front. Its first four
      bytes are printable characters, which the framed worker reads as a
      length of at least 0x20202020: a shorter message is never taken out of
      the reassembly, and the loop as written hands on its bytes from the
      fifth on as a body. */
  lemma UnframedInvokeNeverDispatched(body: seq<byte>)
    requires |body| >= 4
    requires forall i :: 0 <= i < 4 ==> 0x20 <= body[i] < 0x80
    requires |body| < 0x2020_2024
    ensures ToInt32(body) >= 0x2020_2020
    ensures Extract(body) == Split([], body, false)
    ensures SplitAsWritten(body) == ([body[4..]], None)
  {
    assert 0x20 <= body[0] && 0x20 <= body[1] && 0x20 <= body[2] && 0x20 <= body[3] < 0x80;
    var size := ToInt32(body);
    assert size >= 0x2020_2020;
    assert Min(size + 4, |body|) == |body|;
    assert body[|body|..] == [];
    assert SplitAsWritten(body[|body|..]) == ([], None);
    assert [body[4..]] + [] == [body[4..]];
    assert body[4..|body|] == body[4..];
    assert SplitAsWritten(body) == ([body[4..Min(size + 4, |body|)]] + SplitAsWritten(body[Min(size + 4, |body|)..]).0,
                                    SplitAsWritten(body[Min(size + 4, |body|)..]).1);
  }
}
