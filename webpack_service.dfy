/** `WebpackService`: the host-side face of the build. It starts the handler
    through a `NodeHost`, turns the worker's events into `Valid` and
    `Invalid`, decides which requests are for webpack's output, and asks the
    worker for those files. */
module WebpackService {
  import opened Wrappers
  import opened Json

  predicate IsPrefix(p: string, s: string) {
    |p| <= |s| && s[..|p|] == p
  }

  /** `value` occurs in `s` at position `j`. */
  predicate OccursAt(s: string, value: string, j: int) {
    0 <= j && j + |value| <= |s| && s[j..j + |value|] == value
  }

  /** `s.IndexOf(value)`, compared character by character: the first
      position where `value` occurs, or -1. */
  function IndexOf(s: string, value: string): (r: int)
    ensures -1 <= r <= |s|
    ensures r >= 0 ==> OccursAt(s, value, r)
    ensures forall j :: 0 <= j && (r == -1 || j < r) ==> !OccursAt(s, value, j)
    decreases |s|
  {
    if |value| > |s| then -1
    else if s[..|value|] == value then 0
    else
      var k := IndexOf(s[1..], value);
      forall j | 1 <= j
        ensures OccursAt(s, value, j) <==> OccursAt(s[1..], value, j - 1)
      {
        if j + |value| <= |s| {
          var tail := s[1..];
          assert forall i :: 0 <= i < |tail| ==> tail[i] == s[i + 1];
          assert s[j..j + |value|] == tail[j - 1..j - 1 + |value|];
        }
      }
      if k < 0 then -1 else k + 1
  }

  /** `IsWebpackFile(filename)`: the public path occurs at index 0, which is
      the public path being a prefix of the request path. */
  function IsWebpackFile(publicPath: string, filename: string): (r: bool)
    ensures r <==> IsPrefix(publicPath, filename)
  {
    IndexOf(filename, publicPath) == 0
  }

  /** What a `WebpackService` event raises. */
  datatype Raised = RaisedInvalid | RaisedValid(args: Option<Json>)

  /** `OnValid(args)`: raised only when someone subscribed. */
  function OnValid(args: Option<Json>, subscribers: nat): (r: seq<Raised>)
    ensures subscribers > 0 <==> r == [RaisedValid(args)]
    ensures subscribers == 0 <==> r == []
  {
    if subscribers > 0 then [RaisedValid(args)] else []
  }

  /** `OnInvalid()`: raised only when someone subscribed. */
  function OnInvalid(subscribers: nat): (r: seq<Raised>)
    ensures subscribers > 0 <==> r == [RaisedInvalid]
    ensures subscribers == 0 <==> r == []
  {
    if subscribers > 0 then [RaisedInvalid] else []
  }

  /** A name in string concatenation: `null` adds nothing. */
  function NameText(name: Option<string>): string {
    match name
    case Some(n) => n
    case None => ""
  }

  /** `WebpackEmit`: `invalid` and `valid` are passed on; any other name is
      a NotSupportedException with this text. */
  function WebpackEmit(name: Option<string>, args: Option<Json>, validSubscribers: nat, invalidSubscribers: nat)
    : (r: Result<seq<Raised>, string>)
    ensures r.Ok? <==> name == Some("invalid") || name == Some("valid")
    ensures name == Some("invalid") ==> r == Ok(OnInvalid(invalidSubscribers))
    ensures name == Some("valid") ==> r == Ok(OnValid(args, validSubscribers))
    ensures r.Err? ==> r.error == "Unrecognised webpack event [" + NameText(name) + "]"
  {
    if name == Some("invalid") then Ok(OnInvalid(invalidSubscribers))
    else if name == Some("valid") then Ok(OnValid(args, validSubscribers))
    else Err("Unrecognised webpack event [" + NameText(name) + "]")
  }

  /** A path that starts at the root. */
  predicate IsRooted(p: string) {
    |p| > 0 && p[0] == '/'
  }

  /** `Path.Combine(a, b)` with `/` as the separator: a rooted `b` replaces
      `a`, an empty part is skipped, and one separator joins the two. */
  function Combine(a: string, b: string): (r: string)
    ensures IsRooted(b) ==> r == b
    ensures b == "" ==> r == a
    ensures !IsRooted(b) && b != "" && a != "" ==> IsPrefix(a, r) && |r| > |a|
  {
    if b == "" then a
    else if a == "" || IsRooted(b) then b
    else if a[|a| - 1] == '/' then a + b
    else a + "/" + b
  }

  /** The error `Substring(1)` throws on an empty request path. */
  const SubstringOutOfRange: string := "startIndex cannot be larger than length of string"

  /** `GetFile`'s path: the request path without its first character (the
      `/` in front of it), under the web root under the application base. */
  function GetFilePath(basePath: string, webRoot: string, filename: string): (r: Result<string, string>)
    ensures filename == "" <==> r.Err?
    ensures r.Err? ==> r.error == SubstringOutOfRange
  {
    if filename == "" then Err(SubstringOutOfRange)
    else Ok(Combine(Combine(basePath, webRoot), filename[1..]))
  }

  /** A request path whose rest is relative stays under the web root. */
  lemma GetFilePathUnderRoot(basePath: string, webRoot: string, filename: string)
    requires |filename| >= 2 && !IsRooted(filename[1..])
    requires Combine(basePath, webRoot) != ""
    ensures GetFilePath(basePath, webRoot, filename).Ok?
    ensures IsPrefix(Combine(basePath, webRoot), GetFilePath(basePath, webRoot, filename).value)
    ensures |GetFilePath(basePath, webRoot, filename).value| > |Combine(basePath, webRoot)|
  {
  }

  /** A request path that starts with two separators leaves the web root:
      the rest is rooted, and `Path.Combine` keeps only it. */
  lemma GetFilePathRooted(basePath: string, webRoot: string, filename: string)
    requires |filename| >= 2 && filename[1] == '/'
    ensures GetFilePath(basePath, webRoot, filename) == Ok(filename[1..])
  {
  }

  /** The `start` invocation `CreateHost` makes: the configuration file's
      path and a null log level. */
  function StartArgs(basePath: string, configPath: string): seq<Json> {
    [JString(Combine(basePath, configPath)), JNull]
  }

  /** The `getFile` invocation `GetFile` makes. */
  function GetFileArgs(path: string): seq<Json> {
    [JString(path)]
  }
}
