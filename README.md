# WebpackAspnetMiddleware RPC bridge, in Dafny

This project models the bridge between the ASP.NET Core middleware and the
webpack process it drives.

- **The host.** `NodeHost`, a C# class, starts a Node.js worker and learns its TCP port from a line the worker prints. It then sends invocations over the socket.
  - Each invocation is one frame: a 4-byte little-endian length, then the UTF-8 JSON `{type: "invoke", id, method, args}`.
  - The host keeps a table of pending invocations by id.
  - It reads frames back and routes them by `type`. A `response` resolves the future with that id, an `error` rejects it, and an `event` is raised to subscribers.
  - The first receive failure fails every pending future and raises `Disconnected`.
- **The older host.** `NodeHost` in `Redouble.Aspnet.Webpack` connects lazily and writes the JSON with no length in front. It keeps only object and array payloads. Its receive loop catches only `IOException`.
- **The worker** (`node-host.js`):
  - cuts the socket's `data` events into frames;
  - looks each requested method up on the handler object;
  - checks the handler function's declared parameter count against the arguments;
  - calls the method with a completion callback that acts at most once;
  - writes framed `response`, `error` and `event` messages back.
- **The handler** (`handler/handler.js`) starts one webpack watcher. It tracks whether the last build is valid, emits `valid`/`invalid`, and holds `getFile` requests back until a build is valid.
- **`WebpackService`** starts the handler through a host and turns its events into `Valid`/`Invalid`. It decides which request paths are webpack output and builds the file path it asks the worker for.

## Modules

- `Bytes`: bytes and the 32-bit integers on the wire.
- `Utf8`: UTF-8 as in RFC 3629.
- `Json`: messages, with the serializer as an abstract `Codec`.
- `Framing`: the frame layout.
- `Transport`: chunked socket reads and frame decoding, as functions.
- `HostStream`: the host's socket as a class, and the body-filling loop over an array.
- `Sentinel`: the port handshake line.
- `Correlation`: ids, the pending table, and routing by `type`.
- `NodeHost` and `LegacyNodeHost`: the two host classes.
- `WorkerSplit`: frame reassembly in the worker.
- `NodeWorker`: the worker's server and connection classes.
- `Coercion`: JavaScript's `String(value)`, and `ToNumber` of a string, as far as the worker and the handler use them.
- `BuildHandler`: the handler's closure state as a class.
- `WebpackService`: the service.
- `Protocol`: properties of the two sides together.

## Model

| member | source | states |
|---|---|---|
| Bytes.Int32Wrap | Redouble.AspNet.Webpack/Content/node-host.js:106 | `n << 0` gives a 32-bit signed value congruent to `n` modulo 2^32, and leaves a value already in range unchanged |
| Bytes.ToInt32 | Redouble.AspNet.Webpack/Services/NodeHost.cs:111 | the header read is a 32-bit signed value, negative exactly when the fourth byte has its top bit set |
| Bytes.ToInt32OfLittleEndian32 | Redouble.AspNet.Webpack/Services/NodeHost.cs:185-189 | reading back the header written for a non-negative length gives that length |
| Bytes.LittleEndian32OfToInt32 | Redouble.AspNet.Webpack/Services/NodeHost.cs:111 | a header that reads as a non-negative length is the encoding of that length |
| Bytes.ToInt32Prefix | Redouble.AspNet.Webpack/Services/NodeHost.cs:111 | the header value depends only on the first four bytes |
| Utf8.Encode | Redouble.AspNet.Webpack/Services/NodeHost.cs:189 | the encoding has at least one byte per character and is empty exactly for the empty string |
| Utf8.ByteCount | Redouble.AspNet.Webpack/Services/NodeHost.cs:185 | the byte count used for the length header is the length of the bytes written after it |
| Utf8.DecodeEncode | Redouble.AspNet.Webpack/Services/NodeHost.cs:126 | decoding the UTF-8 bytes of any string gives the string back |
| Framing.Frame | Redouble.AspNet.Webpack/Services/NodeHost.cs:184-189 | a frame is 4 bytes longer than its body, starts with the body's length little-endian, then holds the body; its header reads back as the body's length |
| Framing.FrameStreamAppend | Redouble.AspNet.Webpack/Content/node-host.js:108 | the bytes of frames written one after another are the frames' bytes concatenated |
| Transport.ReadAsync | Redouble.AspNet.Webpack/Services/NodeHost.cs:117 | a read returns between 1 and `count` bytes from the front of what has arrived; at the end of the stream it returns nothing, or throws an IOException after a reset |
| Transport.ReadAsyncConsumes | Redouble.AspNet.Webpack/Services/NodeHost.cs:117 | a read consumes exactly the bytes it returns |
| Transport.ReadBodyConsumes | Redouble.AspNet.Webpack/Services/NodeHost.cs:113-119 | the body loop returns exactly the next `n` bytes, and fails only when fewer than `n` are left |
| Transport.ReadFrame | Redouble.AspNet.Webpack/Services/NodeHost.cs:106-119 | a frame read succeeds only on a frame's bytes; a header read of fewer than 4 bytes fails with "Error reading header", and a negative length fails the allocation |
| Transport.ReadFrameOfFrame | Redouble.AspNet.Webpack/Services/NodeHost.cs:106-121 | reading an encoded frame gives back its body and leaves the bytes after it, however the body's bytes are split into deliveries |
| Transport.BodyLoopSpinsAtEndOfStream | Redouble.AspNet.Webpack/Services/NodeHost.cs:115-119 | as written, when the stream ends inside a body, every iteration reads 0 bytes and the loop neither exits nor throws |
| Sentinel.MatchPort | Redouble.AspNet.Webpack/Services/NodeHost.cs:262 | a line gives digits exactly when it matches the port pattern, with `.` as a wildcard and an optional final newline; the digits are what stands between the prefix and `]` |
| Sentinel.ParseInt32 | Redouble.AspNet.Webpack/Services/NodeHost.cs:269 | `int.Parse` succeeds exactly when the digits' value fits in an `int`, and gives that value |
| Sentinel.DecimalValueOfDecimal | Redouble.AspNet.Webpack/Content/node-host.js:40 | the decimal text the worker prints reads back as the port |
| Correlation.NextId | Redouble.AspNet.Webpack/Services/NodeHost.cs:175 | `++_maxId` stays a 32-bit value and wraps modulo 2^32 |
| Correlation.IdAfterCount | Redouble.AspNet.Webpack/Services/NodeHost.cs:169-175 | the k-th invocation on a host gets id k, as long as k fits in an `int` |
| Correlation.IdsIncrease | Redouble.AspNet.Webpack/Services/NodeHost.cs:169-175 | a later invocation gets a strictly larger id, so ids are never reused before the wrap |
| Correlation.IdWrapsAfterMaxInt32 | Redouble.AspNet.Webpack/Services/NodeHost.cs:175 | the invocation after `int.MaxValue` gets `int.MinValue` |
| Correlation.TableAfterInvoke | Redouble.AspNet.Webpack/Services/NodeHost.cs:175-182 | the new id is not already pending, and the table keeps distinct ids, each between 1 and `_maxId` |
| Correlation.Find | Redouble.AspNet.Webpack/Services/NodeHost.cs:152 | `Find` gives the first position holding the id, or nothing exactly when the id is not pending |
| Correlation.TableAfterRemove | Redouble.AspNet.Webpack/Services/NodeHost.cs:153 | removing an entry keeps the table valid |
| Correlation.RemoveFound | Redouble.AspNet.Webpack/Services/NodeHost.cs:152-153 | resolving an id removes exactly that entry; every other entry stays, in its order |
| Correlation.RejectAll | Redouble.AspNet.Webpack/Services/NodeHost.cs:93-98 | each copied entry is failed with the exception, in table order |
| Correlation.ErrorText | Redouble.AspNet.Webpack/Services/NodeHost.cs:165 | `args.ToString()` throws exactly for null, and gives a string's own text |
| Correlation.AsJToken | Redouble.Aspnet.Webpack/Services/NodeHost.cs:114-124 | `args as JToken` keeps exactly objects and arrays |
| Correlation.DispatchedOnlyRemoves | Redouble.AspNet.Webpack/Services/NodeHost.cs:124-166 | handling a message never adds a pending entry and only appends completed futures |
| Correlation.DispatchedProgress | Redouble.AspNet.Webpack/Services/NodeHost.cs:124-166 | handling one message keeps the account of the entries pending at the start. The one entry it removes is completed by it, or is lost to the null dereference of an `error` with null `args`, which faults. Every completion it adds is an answer from the worker. A fault is a parse failure or a null dereference |
| Correlation.RemoveAtOrder | Redouble.AspNet.Webpack/Services/NodeHost.cs:152-153 | removing one entry leaves the others in their order |
| Correlation.RemoveAtMembers | Redouble.AspNet.Webpack/Services/NodeHost.cs:152-153 | removing one entry from a table without duplicates removes that id and no other |
| HostStream.Stream.constructor | Redouble.AspNet.Webpack/Services/NodeHost.cs:74-78 | the connected stream holds the bytes still to arrive and has nothing written |
| HostStream.Stream.ReadAsync | Redouble.AspNet.Webpack/Services/NodeHost.cs:117 | the stream's read takes from the incoming bytes what `Transport.ReadAsync` says |
| HostStream.Stream.WriteAsync | Redouble.AspNet.Webpack/Services/NodeHost.cs:191-192 | a write appends the bytes to what was written |
| HostStream.ReceiveFrame | Redouble.AspNet.Webpack/Services/NodeHost.cs:106-119 | reading into the header array and then into a body array of the announced length gives the result and remaining stream that `Transport.ReadFrame` gives |
| HostStream.FillBody | Redouble.AspNet.Webpack/Services/NodeHost.cs:112-119 | the array loop, with a read of 0 bytes ending it, fills the array exactly as `Transport.ReadBody` reads the body |
| HostStream.ReadChunk | Redouble.AspNet.Webpack/Services/NodeHost.cs:117-118 | one iteration advances the body by the bytes read, and a read of 0 bytes fails |
| HostStream.CopyInto | Redouble.AspNet.Webpack/Services/NodeHost.cs:117 | a read stores its bytes at the current offset and leaves the bytes before it alone |
| NodeHost.Host.constructor | Redouble.AspNet.Webpack/Services/NodeHost.cs:70-80 | a started host has no pending entry, `_maxId` 0 and a connected socket |
| NodeHost.Host.Invoke | Redouble.AspNet.Webpack/Services/NodeHost.cs:171-195 | the next id is taken and its entry added before anything is written; the frame of the UTF-8 JSON is then written; a message too long for an `int` header leaves the entry and writes nothing |
| NodeHost.Host.Receive | Redouble.AspNet.Webpack/Services/NodeHost.cs:104-122 | one frame is read and dispatched; a failed read changes nothing else, and a successful one consumes input |
| NodeHost.Host.HandleDataReceived | Redouble.AspNet.Webpack/Services/NodeHost.cs:124-140 | an `event` is raised, a `response` resolves, an `error` rejects, any other type changes nothing, and a body that does not parse faults |
| NodeHost.Host.HandleEvent | Redouble.AspNet.Webpack/Services/NodeHost.cs:142-148 | the event is raised with its name and value only when someone subscribed |
| NodeHost.Host.HandleResponse | Redouble.AspNet.Webpack/Services/NodeHost.cs:150-159 | the first entry with the id is removed and resolved with the value; an unknown id dereferences null and changes nothing |
| NodeHost.Host.HandleError | Redouble.AspNet.Webpack/Services/NodeHost.cs:161-166 | the entry is removed and rejected with the text; null `args` leaves it removed and never completed |
| NodeHost.Host.ReceiveAll | Redouble.AspNet.Webpack/Services/NodeHost.cs:82-102 | the loop ends only by a failure, which is never the text of an `error` message. It returns that failure, the table it found (`held`) and the completed futures at that moment (`answered`). The new completed futures are `answered` followed by every `held` entry failed with the exception, in table order. The table is then empty, and `Disconnected` was raised once if anyone subscribed. Every entry in `answered` beyond the old ones is an answer from the worker. Every entry pending at the start is in `held`, was answered, or is the one entry lost to the null dereference that ended the loop |
| NodeHost.Host.ReceiveTracked | Redouble.AspNet.Webpack/Services/NodeHost.cs:86-89 | one `Receive` in the loop only removes pending entries. Each removed entry is answered by the worker, or is lost to a null dereference, which ends the loop. A failure is never the text of an `error` message |
| NodeHost.Host.Drain | Redouble.AspNet.Webpack/Services/NodeHost.cs:91-99 | the table is emptied and every entry it held is failed with the exception, in order |
| NodeHost.Host.OnDisconnected | Redouble.AspNet.Webpack/Services/NodeHost.cs:223-227 | `Disconnected` is raised only when someone subscribed |
| NodeHost.Host.OnOutputDataReceived | Redouble.AspNet.Webpack/Services/NodeHost.cs:264-275 | while the port is 0, a matching line sets it and is not logged, or throws past `int.MaxValue`; every other line is logged unchanged |
| LegacyNodeHost.Host.constructor | Redouble.Aspnet.Webpack/Services/NodeHost.cs:133-134 | a new host has no client, no pending entry and `_maxId` 0 |
| LegacyNodeHost.Host.EnsureClient | Redouble.Aspnet.Webpack/Services/NodeHost.cs:44-59 | the connection and its receive loop are created once, on the first call only |
| LegacyNodeHost.Host.Invoke | Redouble.Aspnet.Webpack/Services/NodeHost.cs:136-157 | after ensuring the client, the next id's entry is added, then exactly the UTF-8 JSON is written, with no length in front |
| LegacyNodeHost.Host.Receive | Redouble.Aspnet.Webpack/Services/NodeHost.cs:76-94 | one frame is read and dispatched, keeping only object and array payloads |
| LegacyNodeHost.Host.HandleDataReceived | Redouble.Aspnet.Webpack/Services/NodeHost.cs:96-112 | routing by `type`, with `args as JToken` for events and responses |
| LegacyNodeHost.Host.HandleEvent | Redouble.Aspnet.Webpack/Services/NodeHost.cs:114-117 | the event is raised with `args as JToken`, only when someone subscribed |
| LegacyNodeHost.Host.HandleResponse | Redouble.Aspnet.Webpack/Services/NodeHost.cs:119-124 | the entry is removed and resolved with `args as JToken`; an unknown id dereferences null |
| LegacyNodeHost.Host.HandleError | Redouble.Aspnet.Webpack/Services/NodeHost.cs:126-131 | the entry is removed and rejected with the text |
| LegacyNodeHost.Host.ReceiveAll | Redouble.Aspnet.Webpack/Services/NodeHost.cs:61-74 | an IOException writes the console line `error` and raises `Disconnected`; any other exception escapes unhandled. The exception is never the text of an `error` message. No pending entry is ever failed with it: every future completed during the loop is an answer from the worker. Entries are only ever removed. Every entry pending at the start is still pending, was answered, or is the one entry lost to the null dereference that ended the loop |
| LegacyNodeHost.Host.ReceiveTracked | Redouble.Aspnet.Webpack/Services/NodeHost.cs:64-67 | one `Receive` in the loop only removes pending entries. Each removed entry is answered by the worker, or is lost to a null dereference, which ends the loop. A failure is never the text of an `error` message |
| LegacyNodeHost.Host.OnDisconnected | Redouble.Aspnet.Webpack/Services/NodeHost.cs:183-187 | `Disconnected` is raised only when someone subscribed |
| LegacyNodeHost.Host.OnOutputDataReceived | Redouble.Aspnet.Webpack/Services/NodeHost.cs:219-230 | the port line is taken only while the port is 0; every other line is logged |
| WorkerSplit.SplitChunk | Redouble.AspNet.Webpack/Content/node-host.js:21-29 | the loop hands on the bodies, and ends with the exception, that the splitting function gives for the chunk |
| WorkerSplit.SplitAsWrittenOfFrames | Redouble.AspNet.Webpack/Content/node-host.js:21-28 | a chunk of whole frames with non-empty bodies gives exactly those bodies and no exception |
| WorkerSplit.SplitAsWrittenGarblesSplitFrame | Redouble.AspNet.Webpack/Content/node-host.js:21-28 | a frame delivered in two chunks gives a cut-short body, then a RangeError |
| WorkerSplit.Extract | Redouble.AspNet.Webpack/Content/node-host.js:21-28 | what is kept back is never longer than the input, and is an incomplete frame unless a length was not positive |
| WorkerSplit.ExtractOfFrames | Redouble.AspNet.Webpack/Content/node-host.js:21-28 | whole frames followed by an incomplete one give exactly the frames' bodies, and keep the incomplete bytes |
| WorkerSplit.ExtractFront | Redouble.AspNet.Webpack/Content/node-host.js:21-28 | a whole frame at the front of the buffer is taken off first, as its body |
| WorkerSplit.ExtractAppend | Redouble.AspNet.Webpack/Content/node-host.js:21-28 | reassembling `a + b` at once equals reassembling `a`, then continuing with `b` |
| WorkerSplit.FeedAllChunking | Redouble.AspNet.Webpack/Content/node-host.js:21-28 | feeding chunks one at a time gives the same bodies and the same error as feeding their concatenation |
| WorkerSplit.FeedAllFromStart | Redouble.AspNet.Webpack/Content/node-host.js:21-28 | with the corrected reassembly, from an empty buffer, the bodies handed on do not depend on how the bytes are chunked |
| NodeWorker.CreateHandler | Redouble.AspNet.Webpack/Content/node-host.js:111-124 | a module whose export is not a function is refused with its message; otherwise the factory's result is the handler |
| NodeWorker.Utf16Length | Redouble.AspNet.Webpack/Content/node-host.js:56 | a string's `length` counts UTF-16 units: between one and two per character |
| NodeWorker.Dispatch | Redouble.AspNet.Webpack/Content/node-host.js:49-58 | the method is called exactly when it exists and its declared parameter count loosely equals `args.length + 1`, as JavaScript evaluates that sum for arrays, strings and objects with a `length`. Null arguments throw, and so do non-array arguments that pass the comparison, at `concat`/`apply`; otherwise the error text names the method |
| NodeWorker.ArgsLengthPlusOne | Redouble.AspNet.Webpack/Content/node-host.js:56 | `msg.args.length + 1` as a number: an array gives its length plus 1, an object with no `length` gives NaN, and an object's `length` is added to 1 with JavaScript's `+` |
| NodeWorker.ArityOfLength | Redouble.AspNet.Webpack/Content/node-host.js:56-58 | arguments `{length: v}` throw exactly when `v + 1` equals the declared count, and are answered with the wrong-count error otherwise |
| NodeWorker.LooseArity | Redouble.AspNet.Webpack/Content/node-host.js:56-58 | a `length` of null, false, `""` or `"0"` passes the check of a one-parameter method and throws; `true` passes that of a two-parameter method; a number n passes exactly when the count is n + 1; `"x"` never passes |
| NodeWorker.WroteFrame | Redouble.AspNet.Webpack/Content/node-host.js:102-109 | for a body whose length fits an `int`, what `writeMessage` writes is the frame of the UTF-8 JSON |
| NodeWorker.Server.constructor | Redouble.AspNet.Webpack/Content/node-host.js:5-7 | no handler, no output, and the server open |
| NodeWorker.Server.OnListening | Redouble.AspNet.Webpack/Content/node-host.js:38-43 | the port line, then the ready line, are printed |
| NodeWorker.Server.OnServerError | Redouble.AspNet.Webpack/Content/node-host.js:32-36 | the error code is reported, the server closed, and the process exits with 1 |
| NodeWorker.Server.OnConnection | Redouble.AspNet.Webpack/Content/node-host.js:7-19 | a handler is built for the new connection; a non-function export is reported and exits with 1 |
| NodeWorker.Connection.constructor | Redouble.AspNet.Webpack/Content/node-host.js:7-9 | a new socket has nothing buffered, written or called |
| NodeWorker.Connection.OnError | Redouble.AspNet.Webpack/Content/node-host.js:45-47 | a socket error ends the socket |
| NodeWorker.Connection.WriteMessage | Redouble.AspNet.Webpack/Content/node-host.js:102-109 | the wrapped length, then the UTF-8 text, is written; a length that wraps negative throws and writes nothing |
| NodeWorker.Connection.Emit | Redouble.AspNet.Webpack/Content/node-host.js:93-100 | an event is written as a message with no id |
| NodeWorker.Connection.HandleData | Redouble.AspNet.Webpack/Content/node-host.js:49-72 | a body that does not parse throws; an unknown method, or a count that fails the loose `args.length + 1` comparison, writes an error with the request's id; otherwise one armed call is recorded |
| NodeWorker.Connection.Complete | Redouble.AspNet.Webpack/Content/node-host.js:60-69 | the first call of a callback writes the error or the response for the request's id and disarms it; later calls write nothing |
| NodeWorker.Connection.OnData | Redouble.AspNet.Webpack/Content/node-host.js:21-29 | every complete frame's body is handed on in order, an incomplete frame is kept for the next event, and a length that is not positive throws |
| NodeWorker.Connection.NextFrame | Redouble.AspNet.Webpack/Content/node-host.js:22-27 | one iteration hands on one body and shortens the buffer, or stops at an incomplete frame or a throw |
| Coercion.PropertyKey | handler/handler.js:57 | the key JavaScript makes of the index `logLevelEnum`: a string is its own key, and a non-negative number is its decimal text |
| BuildHandler.LogLevel | handler/handler.js:56-57 | the key `logLevelEnum` coerces to picks the entry of `levels` with that index. `length` gives the array's length, 5, which is not one of the names. Any other key is `normal`. So a number, its text, or an array that prints as one of 0 to 4 picks a level |
| Coercion.PlusOne | Redouble.AspNet.Webpack/Content/node-host.js:56 | `v + 1` as a number: null and false give 1, true gives 2, a number adds 1, and a string is joined with `"1"` and converted back with `ToNumber` |
| Coercion.StringToNumberOfDecimal | Redouble.AspNet.Webpack/Content/node-host.js:56 | the decimal text of an integer, with or without `-`, converts back to that integer |
| Coercion.RadixTen | Redouble.AspNet.Webpack/Content/node-host.js:56 | digits read in base 10 by `ToNumber` give the same value as the port parser's decimal reading |
| Coercion.DigitsToNumber | Redouble.AspNet.Webpack/Content/node-host.js:56 | a non-empty string of digits reads as its decimal value |
| Coercion.NegatedDigitsToNumber | Redouble.AspNet.Webpack/Content/node-host.js:56 | a minus sign before a non-empty string of digits reads as the negated value |
| Coercion.DigitsPlusOne | Redouble.AspNet.Webpack/Content/node-host.js:56 | a string that is all digits once `1` is appended adds 1 as that decimal number |
| Coercion.PlusOneOfText | Redouble.AspNet.Webpack/Content/node-host.js:56 | `"" + 1` and `"0" + 1` are the number 1, and `"x" + 1` is NaN |
| BuildHandler.LogLevelOfIndex | handler/handler.js:56-57 | the index k, as a number, as its decimal text or as the only element of an array, picks `levels[k]` |
| BuildHandler.LogLevelOfOtherNumber | handler/handler.js:56-57 | a negative number, or one past the last level, gives `normal` |
| BuildHandler.ModuleMap | handler/handler.js:24-27 | the map's keys are exactly the modules' ids |
| BuildHandler.ModuleMapLast | handler/handler.js:24-27 | each id maps to the name of the last module with that id |
| BuildHandler.OrEmpty | handler/handler.js:33-34 | a falsy value becomes an empty array; any other is kept |
| BuildHandler.ValidArgs | handler/handler.js:29-36 | the `valid` event carries exactly the six fields, built from the stats |
| BuildHandler.Handler.constructor | handler/handler.js:7-8 | not started, not valid, nothing pending |
| BuildHandler.Handler.Start | handler/handler.js:42-66 | a second start is refused with its message and changes nothing; the first records the configuration, the log level and the callback |
| BuildHandler.Handler.OnWatchDone | handler/handler.js:59-65 | stats with text are logged, and the start callback receives the error |
| BuildHandler.Handler.OnInvalid | handler/handler.js:10-13 | `invalid` is emitted only when a valid build becomes invalid |
| BuildHandler.Handler.OnValid | handler/handler.js:20-40 | the build is valid, `valid` is emitted with its arguments, and one flush is queued |
| BuildHandler.Handler.RunTick | handler/handler.js:39 | a queued flush runs |
| BuildHandler.Handler.FlushPending | handler/handler.js:70-75 | when valid, every waiting request runs in arrival order and the queue empties; otherwise nothing changes |
| BuildHandler.Handler.RunOnValid | handler/handler.js:77-80 | a request runs now when valid, and otherwise waits at the end of the queue |
| BuildHandler.Handler.GetFile | handler/handler.js:82-92 | refused before start; otherwise run when a build is valid |
| BuildHandler.Handler.Stop | handler/handler.js:94-97 | refused before start; otherwise the watcher is closed with the callback |
| WebpackService.IndexOf | Redouble.AspNet.Webpack/Services/WebpackService.cs:71 | the result is the first position where the value occurs, or -1 when it occurs nowhere |
| WebpackService.IsWebpackFile | Redouble.AspNet.Webpack/Services/WebpackService.cs:69-72 | a request is webpack's exactly when the public path is a prefix of it |
| WebpackService.OnValid | Redouble.AspNet.Webpack/Services/WebpackService.cs:74-80 | `Valid` is raised with the arguments exactly when someone subscribed |
| WebpackService.OnInvalid | Redouble.AspNet.Webpack/Services/WebpackService.cs:81-87 | `Invalid` is raised exactly when someone subscribed |
| WebpackService.WebpackEmit | Redouble.AspNet.Webpack/Services/WebpackService.cs:51-59 | `invalid` and `valid` are routed to their events; any other name is refused with its text |
| WebpackService.Combine | Redouble.AspNet.Webpack/Services/WebpackService.cs:64 | a rooted second part replaces the first, an empty one is skipped, otherwise the first is a proper prefix of the result |
| WebpackService.GetFilePath | Redouble.AspNet.Webpack/Services/WebpackService.cs:64 | an empty request path throws from `Substring(1)`; any other is combined without its first character |
| Protocol.InvokeReachesHandler | Redouble.AspNet.Webpack/Content/node-host.js:21-58 | with the corrected reassembly, the newer host's invoke frame, however chunked, reaches `handleData` as exactly its body; the body parses back to the invocation, which is called when the arity matches and answered with the right error otherwise |
| Protocol.CompletionSettles | Redouble.AspNet.Webpack/Services/NodeHost.cs:124-166 | the worker's answer to a pending invocation removes exactly its entry and resolves it with the result, or rejects it with the error's text |
| Protocol.WorkerFrameRead | Redouble.AspNet.Webpack/Services/NodeHost.cs:104-121 | what the worker writes for a message is read back by the host as exactly that message's body |
| Protocol.SentinelHandshake | Redouble.AspNet.Webpack/Content/node-host.js:40 | the worker's port line matches the host's pattern and parses back to the port |
| Protocol.ServiceInvocationsCallHandler | Redouble.AspNet.Webpack/Services/WebpackService.cs:43-67 | the service's `start` and `getFile` invocations pass the worker's arity check, and `start` gets the `normal` log level |
| Protocol.GuardTextReachesHost | handler/handler.js:83 | the handler's guard errors reach the host as their message text |
| Protocol.UnframedInvokeNeverDispatched | Redouble.Aspnet.Webpack/Services/NodeHost.cs:151-153 | unframed JSON read by a framed worker has a length of at least 0x20202020. The corrected reassembly keeps its bytes forever, waiting for the rest of a frame that never comes. The loop as written hands on a body that is the JSON with its first four bytes cut off |

## Left out

- JSON serialization on both sides (Json.NET and `JSON.stringify`/`JSON.parse`) is an abstract `Codec`. Properties that need a parse to undo a serialization assume that of the message concerned.
- Sockets, `TcpClient`, process start-up, `console`, `process.exit` and `process.nextTick` are not modelled as I/O. Reads are pieces of a sequence, writes append to one, console lines are recorded, and queued ticks are a counter.
- Async scheduling and concurrency are not modelled. Each host method and each worker callback runs to completion, one at a time. The host's awaiting of a future is its entry in `settled`.
- webpack, `memory-fs` and `mime` are foreign calls. Their callbacks are the methods `OnInvalid`, `OnValid` and `OnWatchDone`, and a file read that begins is recorded in `served`.
- `onInvalidAsync` (handler/handler.js:15-18) is the same state change as `OnInvalid`, followed by the callback, and has no member of its own.
- The handler's exported object has only function members, so the worker's lookup of a non-function or inherited property is not modelled.
- An exception thrown by the handler method itself inside `method.apply` is not modelled.
- A `RangeError` from writing a completion ends the worker in the model. It is recorded in `thrown`, and no further event is handled on that connection.
- The `NotSupportedException` that `WebpackEmit` throws inside the host's `OnEmit` is not modelled as ending the receive loop.
- A body that parses to a JSON value other than an object is not modelled. The codec's `parse` gives a message or nothing.
- Node.js `Buffer` allocation limits, and memory limits on both sides, are not modelled.
- `Start` and `InvokeExportAsync` in the newer host are not modelled beyond the constructor's starting state. `Dispose` and `CreateFromScript` are not modelled either.
- `WebpackService.IndexOf`: compares ordinally. .NET's `string.IndexOf(string)` is culture-sensitive, and the model does not capture that.
- `WebpackService.Combine`: follows `Path.Combine` with `/` as the only separator. Windows drive roots and `\` are not modelled.
- `Sentinel.MatchPort`: `\d` is taken as the ASCII digits. .NET's `\d` also matches other Unicode decimal digits, on which `int.Parse` throws.
- `Transport.ReadAsync`: a read returns the whole piece that has arrived, up to `count`. A real socket may return fewer bytes; the frame properties hold for any chunking of the bytes into pieces.
- `HostStream.FillBody`: models the body loop with a read of 0 bytes ending it (see Findings). The loop as written is `Transport.BodyLoopAsWritten`.
- `HostStream.ReadChunk`: a read of 0 bytes fails here, as in the corrected body loop. The source adds 0 to `bytesRead` and reads again (see Findings).
- `Transport.ReadBodyConsumes`: states the corrected body loop, which fails at the end of the stream. The source's loop spins there forever (see Findings).
- `Transport.ReadFrame`: reads the body with the corrected loop, so a frame cut short by the end of the stream fails with `IOError` or `Truncated`. The source spins there forever (see Findings).
- `NodeWorker.Connection.NextFrame`: one pass of the corrected reassembly. It stops at an incomplete frame and keeps its bytes, where node-host.js:21-28 slices a short body and goes on (see Findings).
- `NodeWorker.Connection.OnData`: models the corrected reassembly (see Findings). When a body throws, its contract says only that the bodies handed on are a prefix of the complete frames; it does not say which one threw.
- `WorkerSplit.FeedAllChunking`: the bytes left over agree with a single reassembly only when no invalid length was met. After one, the worker has thrown.
- `NodeHost.Host.ReceiveAll`: `_client.Connected` is taken to stay true while the loop runs. The source's loop can also end normally when the client reports that it is no longer connected; it then fails no entry and raises no `Disconnected`. That exit is not modelled.
- `WorkerSplit.FeedAllFromStart`: holds for the corrected reassembly only. The loop as written at node-host.js:21-28 depends on the chunking (see Findings); for it, only a chunk of whole frames is covered, by `WorkerSplit.SplitAsWrittenOfFrames`.
- `Protocol.InvokeReachesHandler`: the "however chunked" part holds for the corrected reassembly only. As written, the worker hands the body on whole only when the frame arrives in chunks of whole frames (see Findings and `WorkerSplit.SplitAsWrittenOfFrames`).
- `Coercion.StringToNumber`: numbers are exact reals. The rounding of a JavaScript double is not modelled, so a long decimal fraction that a double rounds to an integer is not equal to that integer here, and lengths beyond 2^53 are exact.
- JSON numbers are integers in the model (`Json.JNumber`). Fractions and exponent notation in a message, and `String` of such a number, are not modelled.
- `BuildHandler.LogLevel`: models the string key `levels[logLevelEnum]` uses, its own index properties, and `length`. The other properties an array inherits (`push`, `map`, `constructor` and so on) are functions or objects, which are truthy. The source passes such a value to `stats.toString`, where the model gives `normal`.
- `Utf8.EncodeChar`: Dafny's `char` excludes lone surrogates. C# and JavaScript encode a lone surrogate as U+FFFD, the 3 bytes EF BF BD, and the model has no such input.
- Unknown ids: a `response` or `error` whose id is not pending dereferences null in both hosts. This is modelled as a `NullReference` fault that ends the receive loop, as the code does. It is not treated as a message that is ignored.

## Findings

| source | as written | input that shows it | evidently intended | confidence | as-written member | corrected member |
|---|---|---|---|---|---|---|
| Redouble.AspNet.Webpack/Services/NodeHost.cs:115-119 | the body loop adds each read's count to `bytesRead` and never tests for a read of 0 bytes; the older host's loop at Redouble.Aspnet.Webpack/Services/NodeHost.cs:87-91 is the same | a header announcing 5 bytes, after which the peer closes the socket: every read returns 0, so the loop never exits and never throws | a read of 0 bytes inside a body ends the receive with an exception, which fails the pending entries | not executed | Transport.BodyLoopSpinsAtEndOfStream | HostStream.FillBody |
| Redouble.AspNet.Webpack/Content/node-host.js:21-28 | each `data` chunk is taken to hold whole frames: a frame cut by the end of the chunk is handed on short, and its remainder is read as a new header | the frame of the body [1, 2, 3, 4, 5] delivered as 6 bytes, then 3: the first event hands on [1, 2], and the second throws a RangeError | the bytes of an incomplete frame are kept until the rest arrives, so every body is handed on whole, however the stream is chunked | not executed | WorkerSplit.SplitAsWrittenGarblesSplitFrame | WorkerSplit.FeedAllChunking |
