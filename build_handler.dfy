/** The handler script the worker loads (handler/handler.js): it starts one
    webpack watcher, tracks whether the last build is valid, and holds file
    requests back until it is. The compiler, the in-memory file system and
    the MIME lookup are outside the model: their callbacks are the methods
    `OnInvalid`, `OnValid` and `OnWatchDone`, and a file request that runs is
    recorded in `served`. */
module BuildHandler {
  import opened Wrappers
  import opened Json
  import Sentinel
  import opened Coercion

  /** The calls `emit(event, data)` makes to the host. */
  datatype BuildEvent = InvalidEvent | ValidEvent(args: Json)

  /** A `getFile` whose read waits for a valid build: the file and the
      completion callback of the invocation. */
  datatype FileRequest = FileRequest(filename: string, callback: nat)

  /** `callback(error)` for a guard or for the watcher: the `Error`'s
      message, or none. */
  datatype Reply = Reply(callback: nat, error: Option<string>)

  const AlreadyStartedText: string := "webpack is already started"
  const NotStartedText: string := "webpack is not started"

  /** `['none', 'errors-only', 'minimal', 'normal', 'verbose']`. */
  const Levels: seq<string> := ["none", "errors-only", "minimal", "normal", "verbose"]

  /** The own keys of `levels` that hold an entry. */
  const Keys: seq<string> := ["0", "1", "2", "3", "4"]

  /** What `levels[logLevelEnum] || 'normal'` passes on to
      `stats.toString`: one of the level names, or, for the key `length`,
      the array's length, 5. */
  datatype LogSetting = Preset(name: string) | NotAPreset(value: Json)

  /** `levels[logLevelEnum] || 'normal'`: the key picks an entry of
      `levels`, `length` gives 5, and any other key gives `undefined`,
      hence `normal`. */
  function LogLevel(logLevelEnum: Json): (r: LogSetting)
    ensures r.Preset? ==> r.name in Levels
    ensures r.NotAPreset? <==> PropertyKey(logLevelEnum) == "length"
    ensures r.NotAPreset? ==> r.value == JNumber(|Levels|)
    ensures forall k :: 0 <= k < |Keys| && PropertyKey(logLevelEnum) == Keys[k] ==> r == Preset(Levels[k])
    ensures PropertyKey(logLevelEnum) !in Keys && PropertyKey(logLevelEnum) != "length" ==> r == Preset("normal")
  {
    var key := PropertyKey(logLevelEnum);
    if key == "length" then NotAPreset(JNumber(|Levels|))
    else if key == Keys[0] then Preset(Levels[0])
    else if key == Keys[1] then Preset(Levels[1])
    else if key == Keys[2] then Preset(Levels[2])
    else if key == Keys[3] then Preset(Levels[3])
    else if key == Keys[4] then Preset(Levels[4])
    else Preset("normal")
  }

  /** A level index picks its entry whether it comes as a number, as its
      decimal text, or as the only element of an array. */
  lemma LogLevelOfIndex(k: nat)
    requires k < |Levels|
    ensures LogLevel(JNumber(k)) == Preset(Levels[k])
    ensures LogLevel(JString(Sentinel.Decimal(k))) == Preset(Levels[k])
    ensures LogLevel(JArray([JNumber(k)])) == Preset(Levels[k])
  {
    assert Sentinel.Decimal(k) == Keys[k];
    var parts := seq(1, i requires 0 <= i < 1 => if [JNumber(k)][i].JNull? then "" else PropertyKey([JNumber(k)][i]));
    assert parts == [Keys[k]];
  }

  /** Any other number, negative or past the last level, gives `normal`. */
  lemma LogLevelOfOtherNumber(n: int)
    requires !(0 <= n < |Levels|)
    ensures LogLevel(JNumber(n)) == Preset("normal")
  {
    var key := PropertyKey(JNumber(n));
    if n < 0 {
      assert key[0] == '-';
    } else {
      assert Sentinel.IsDigit(key[0]) && !Sentinel.IsDigit("length"[0]);
      if n < 10 {
        assert key == [(n + '0' as int) as char];
      } else {
        assert |key| >= 2 by { assert key == Sentinel.Decimal(n / 10) + [(n % 10 + '0' as int) as char]; }
      }
    }
  }

  /** One entry of `stats.modules`. */
  datatype Module = Module(id: string, name: Json)

  /** What `stats.toJson()` gives that the handler reads. */
  datatype Stats = Stats(name: Json, time: Json, hash: Json, warnings: Json, errors: Json, modules: seq<Module>)

  /** The `reduce` over the modules: each id mapped to its name, a later
      module with the same id replacing an earlier one. */
  function ModuleMap(modules: seq<Module>): (m: map<string, Json>)
    ensures m.Keys == set i | 0 <= i < |modules| :: modules[i].id
  {
    if modules == [] then map[]
    else
      var init := modules[..|modules| - 1];
      var last := modules[|modules| - 1];
      assert forall i :: 0 <= i < |init| ==> init[i] == modules[i];
      ModuleMap(init)[last.id := last.name]
  }

  /** Each id maps to the name of the last module with that id. */
  lemma {:induction false} ModuleMapLast(modules: seq<Module>, i: nat)
    requires i < |modules|
    requires forall j :: i < j < |modules| ==> modules[j].id != modules[i].id
    ensures ModuleMap(modules)[modules[i].id] == modules[i].name
  {
    var n := |modules|;
    if i < n - 1 {
      var init := modules[..n - 1];
      assert modules[n - 1].id != modules[i].id;
      assert init[i] == modules[i];
      ModuleMapLast(init, i);
    }
  }

  /** JavaScript's falsy JSON values, which `x || []` replaces. */
  predicate Falsy(j: Json) {
    j == JNull || j == JBool(false) || j == JNumber(0) || j == JString("")
  }

  function OrEmpty(j: Json): (r: Json)
    ensures Falsy(j) ==> r == JArray([])
    ensures !Falsy(j) ==> r == j
  {
    if Falsy(j) then JArray([]) else j
  }

  /** The `args` of the `valid` event. */
  function ValidArgs(stats: Stats): (r: Json)
    ensures r.JObject? && r.fields.Keys == {"name", "time", "hash", "warnings", "errors", "modules"}
    ensures r.fields["warnings"] == OrEmpty(stats.warnings) && r.fields["errors"] == OrEmpty(stats.errors)
    ensures r.fields["modules"] == JObject(ModuleMap(stats.modules))
    ensures r.fields["name"] == stats.name && r.fields["time"] == stats.time && r.fields["hash"] == stats.hash
  {
    JObject(map[
      "name" := stats.name,
      "time" := stats.time,
      "hash" := stats.hash,
      "warnings" := OrEmpty(stats.warnings),
      "errors" := OrEmpty(stats.errors),
      "modules" := JObject(ModuleMap(stats.modules))])
  }

  /** The closure state of one handler object. */
  class Handler {
    /** `instance != null`. */
    var started: bool
    var configPath: string
    var logLevel: LogSetting
    /** The `start` callback the watcher reports every build to. */
    var startCallback: Option<nat>
    var valid: bool
    /** `pending`: file requests waiting for a valid build, oldest first. */
    var pending: seq<FileRequest>
    /** `flushPending` calls queued with `process.nextTick`. */
    var scheduled: nat
    var emitted: seq<BuildEvent>
    /** File requests whose read has begun, in the order they began. */
    var served: seq<FileRequest>
    var replies: seq<Reply>
    var logged: seq<string>
    /** Callbacks handed to `instance.close`. */
    var closing: seq<nat>

    /** Before `start` there is no build and no waiting request; and while
        the build is valid with no flush queued, no request waits. */
    ghost predicate Valid()
      reads this
    {
      && (!started ==> !valid && pending == [] && scheduled == 0 && startCallback == None)
      && (started ==> startCallback.Some?)
      && (valid && scheduled == 0 ==> pending == [])
    }

    /** The default export's call: nothing started. */
    constructor ()
      ensures Valid()
      ensures !started && !valid && pending == [] && scheduled == 0
      ensures emitted == [] && served == [] && replies == [] && logged == [] && closing == []
    {
      started := false;
      configPath := "";
      logLevel := Preset("normal");
      startCallback := None;
      valid := false;
      pending := [];
      scheduled := 0;
      emitted := [];
      served := [];
      replies := [];
      logged := [];
      closing := [];
    }

    /** `start(configPath, logLevelEnum, callback)`: refuses a second start
        and changes nothing else; otherwise starts the watcher. */
    method Start(configPath: string, logLevelEnum: Json, callback: nat)
      requires Valid()
      modifies this`replies, this`configPath, this`logLevel, this`started, this`startCallback
      ensures Valid()
      ensures old(started) ==>
        && replies == old(replies) + [Reply(callback, Some(AlreadyStartedText))]
        && started && this.configPath == old(this.configPath) && logLevel == old(logLevel)
        && startCallback == old(startCallback)
      ensures !old(started) ==>
        && started && this.configPath == configPath && logLevel == LogLevel(logLevelEnum)
        && startCallback == Some(callback) && replies == old(replies)
    {
      if started {
        replies := replies + [Reply(callback, Some(AlreadyStartedText))];
        return;
      }
      this.configPath := configPath;
      logLevel := LogLevel(logLevelEnum);
      started := true;
      startCallback := Some(callback);
    }

    /** The watcher's callback after each build: print the stats if there is
        anything to print, then call the `start` callback again. */
    method OnWatchDone(err: Option<string>, msg: string)
      requires Valid() && started
      modifies this`logged, this`replies
      ensures logged == old(logged) + if msg != "" then [msg] else []
      ensures replies == old(replies) + [Reply(startCallback.value, err)]
    {
      if msg != "" {
        logged := logged + [msg];
      }
      replies := replies + [Reply(startCallback.value, err)];
    }

    /** `onInvalid`: the `invalid` event only when a valid build becomes
        invalid. */
    method OnInvalid()
      requires Valid() && started
      modifies this`valid, this`emitted
      ensures Valid()
      ensures !valid
      ensures emitted == old(emitted) + if old(valid) then [InvalidEvent] else []
    {
      if valid {
        emitted := emitted + [InvalidEvent];
      }
      valid := false;
    }

    /** `onValid`: the build is valid; send the `valid` event and queue a
        flush of the waiting requests. */
    method OnValid(stats: Stats)
      requires Valid() && started
      modifies this`valid, this`emitted, this`scheduled
      ensures Valid()
      ensures valid && scheduled == old(scheduled) + 1
      ensures emitted == old(emitted) + [ValidEvent(ValidArgs(stats))]
    {
      valid := true;
      emitted := emitted + [ValidEvent(ValidArgs(stats))];
      scheduled := scheduled + 1;
    }

    /** A queued `process.nextTick(flushPending)` runs. */
    method RunTick()
      requires Valid() && scheduled > 0
      modifies this`scheduled, this`pending, this`served
      ensures Valid()
      ensures scheduled == old(scheduled) - 1
      ensures valid ==> served == old(served) + old(pending) && pending == []
      ensures !valid ==> served == old(served) && pending == old(pending)
    {
      scheduled := scheduled - 1;
      FlushPending();
    }

    /** `flushPending`: when the build is valid, run every waiting request in
        the order it arrived, then empty the queue. */
    method FlushPending()
      modifies this`pending, this`served
      ensures valid ==> served == old(served) + old(pending) && pending == []
      ensures !valid ==> served == old(served) && pending == old(pending)
    {
      if valid {
        var i := 0;
        while i < |pending|
          invariant pending == old(pending)
          invariant 0 <= i <= |pending|
          invariant served == old(served) + pending[..i]
        {
          served := served + [pending[i]];
          i := i + 1;
          assert pending[..i] == pending[..i - 1] + [pending[i - 1]];
        }
        assert pending[..i] == pending;
        pending := [];
      }
    }

    /** `runOnValid(cb)`: run now if the build is valid, else wait. */
    method RunOnValid(request: FileRequest)
      requires Valid() && started
      modifies this`pending, this`served
      ensures Valid()
      ensures valid ==> served == old(served) + [request] && pending == old(pending)
      ensures !valid ==> served == old(served) && pending == old(pending) + [request]
    {
      if valid {
        served := served + [request];
      } else {
        pending := pending + [request];
      }
    }

    /** `getFile(filename, callback)`: refused before `start`, otherwise
        read once the build is valid. */
    method GetFile(filename: string, callback: nat)
      requires Valid()
      modifies this`pending, this`served, this`replies
      ensures Valid()
      ensures !started ==>
        replies == old(replies) + [Reply(callback, Some(NotStartedText))] && pending == old(pending) && served == old(served)
      ensures started && valid ==>
        served == old(served) + [FileRequest(filename, callback)] && pending == old(pending) && replies == old(replies)
      ensures started && !valid ==>
        pending == old(pending) + [FileRequest(filename, callback)] && served == old(served) && replies == old(replies)
    {
      if !started {
        replies := replies + [Reply(callback, Some(NotStartedText))];
        return;
      }
      RunOnValid(FileRequest(filename, callback));
    }

    /** `stop(callback)`: refused before `start`, otherwise the watcher is
        closed. `instance` stays set, so a later `start` is still refused. */
    method Stop(callback: nat)
      requires Valid()
      modifies this`replies, this`closing
      ensures Valid()
      ensures !started ==> replies == old(replies) + [Reply(callback, Some(NotStartedText))] && closing == old(closing)
      ensures started ==> closing == old(closing) + [callback] && replies == old(replies)
    {
      if !started {
        replies := replies + [Reply(callback, Some(NotStartedText))];
        return;
      }
      closing := closing + [callback];
    }
  }
}
