/** The JSON messages exchanged between host and worker, with the serializer
    left abstract. */
module Json {
  import opened Wrappers

  /** A JSON value. Numbers are integers here; objects are unordered. */
  datatype Json =
    | JNull
    | JBool(b: bool)
    | JNumber(n: int)
    | JString(s: string)
    | JArray(items: seq<Json>)
    | JObject(fields: map<string, Json>)

  /** `{ type, id?, method?, args? }`: one message. An absent `args` is JSON
      null. */
  datatype Message = Message(kind: string, id: Option<int>, methodName: Option<string>, args: Json)

  const InvokeKind: string := "invoke"
  const ResponseKind: string := "response"
  const ErrorKind: string := "error"
  const EventKind: string := "event"

  /** The message a host's `Invoke` serializes: `params object[] args` is
      always an array. */
  function InvokeMessage(id: int, methodName: string, args: seq<Json>): Message {
    Message(InvokeKind, Some(id), Some(methodName), JArray(args))
  }

  /** The serializers both sides use (Json.NET on the host, `JSON.stringify` and
      `JSON.parse` on the worker), as functions: `render` is what the host's
      `ToString()` gives for a value that is neither a string nor null. */
  datatype Codec = Codec(
    stringify: Message -> string,
    parse: string -> Option<Message>,
    render: Json -> string)

  /** The parser reads back what the serializer wrote for `m`. */
  predicate RoundTrips(codec: Codec, m: Message) {
    codec.parse(codec.stringify(m)) == Some(m)
  }
}
