/** The host's table of pending invocations: ids from a counter, entries
    resolved by id, and what the receive loop does to the table for each
    incoming message. */
module Correlation {
  import opened Bytes
  import opened Wrappers
  import opened Json
  import Utf8
  import opened Transport

  /** What a pending invocation's future ends with: a value (`None` is a null
      `JToken`) or an exception. */
  datatype Outcome = Resolved(value: Option<Json>) | Rejected(fault: Fault)

  /** The future of invocation `id` was completed with `outcome`. */
  datatype Settlement = Settlement(id: int, outcome: Outcome)

  /** An `Emit` raised to the host's subscribers. */
  datatype Event = Event(name: Option<string>, args: Option<Json>)

  /** `++_maxId` on a C# `int`, unchecked: past `int.MaxValue` it wraps. */
  function NextId(maxId: int): (r: int)
    requires IsInt32(maxId)
    ensures IsInt32(r)
    ensures r == Int32Wrap(maxId + 1)
  {
    if maxId == MaxInt32 then MinInt32 else maxId + 1
  }

  /** The id of the `k`-th invocation on a fresh host. */
  function IdAfter(k: nat): (r: int)
    ensures IsInt32(r)
  {
    if k == 0 then 0 else NextId(IdAfter(k - 1))
  }

  /** Ids on one host are 1, 2, 3, … for the first `int.MaxValue` invocations. */
  lemma {:induction false} IdAfterCount(k: nat)
    requires k <= MaxInt32
    ensures IdAfter(k) == k
  {
    if k > 0 {
      IdAfterCount(k - 1);
    }
  }

  /** A later invocation gets a larger id, so no id is reused. */
  lemma IdsIncrease(i: nat, j: nat)
    requires i < j <= MaxInt32
    ensures IdAfter(i) < IdAfter(j)
  {
    IdAfterCount(i);
    IdAfterCount(j);
  }

  /** The counter is not checked: the invocation after `int.MaxValue` gets a
      negative id. */
  lemma IdWrapsAfterMaxInt32()
    ensures IdAfter(MaxInt32 + 1) == MinInt32
  {
    IdAfterCount(MaxInt32);
  }

  predicate Distinct(ids: seq<int>) {
    forall i, j :: 0 <= i < j < |ids| ==> ids[i] != ids[j]
  }

  /** What a host keeps true of `_maxId` and `_pendingTasks` after `issued`
      invocations: until the counter wraps, `_maxId` counts the invocations,
      and the pending ids are distinct ids already handed out. */
  ghost predicate TableValid(maxId: int, issued: nat, pending: seq<int>) {
    && IsInt32(maxId)
    && (issued <= MaxInt32 ==>
          && maxId == issued
          && Distinct(pending)
          && forall i :: 0 <= i < |pending| ==> 1 <= pending[i] <= maxId)
  }

  /** `Invoke` adds an entry under a fresh id: the new id is not pending, and
      the table stays valid. */
  lemma TableAfterInvoke(maxId: int, issued: nat, pending: seq<int>)
    requires TableValid(maxId, issued, pending)
    ensures issued < MaxInt32 ==> NextId(maxId) !in pending
    ensures TableValid(NextId(maxId), issued + 1, pending + [NextId(maxId)])
  {
    var p := pending + [NextId(maxId)];
    if issued < MaxInt32 {
      forall i | 0 <= i < |pending|
        ensures pending[i] != NextId(maxId)
      {
      }
      assert forall i :: 0 <= i < |pending| ==> p[i] == pending[i];
    }
  }

  /** `_pendingTasks.Find(task => task.Id == id)`: the position of the first
      entry with the id, or none (C# null). */
  function Find(ids: seq<int>, id: int): (r: Option<nat>)
    ensures r.None? <==> id !in ids
    ensures r.Some? ==> r.value < |ids| && ids[r.value] == id
    ensures r.Some? ==> forall j :: 0 <= j < r.value ==> ids[j] != id
  {
    if ids == [] then None
    else if ids[0] == id then Some(0)
    else match Find(ids[1..], id)
      case None => None
      case Some(k) => Some(k + 1)
  }

  /** `_pendingTasks.Remove(pending)` for the entry at position `i`. */
  function RemoveAt(ids: seq<int>, i: nat): seq<int>
    requires i < |ids|
  {
    ids[..i] + ids[i + 1..]
  }

  /** Removing any entry keeps the table valid. */
  lemma TableAfterRemove(maxId: int, issued: nat, pending: seq<int>, i: nat)
    requires TableValid(maxId, issued, pending) && i < |pending|
    ensures TableValid(maxId, issued, RemoveAt(pending, i))
  {
    var p := RemoveAt(pending, i);
    forall k | 0 <= k < |p|
      ensures p[k] == pending[if k < i then k else k + 1]
    {
    }
  }

  /** `x` stands before `y` in `ids`. */
  predicate Before(ids: seq<int>, x: int, y: int) {
    exists a, b :: 0 <= a < b < |ids| && ids[a] == x && ids[b] == y
  }

  /** Resolving id `id` removes exactly that entry: the others stay, in their
      order, and the table still has no duplicate. */
  lemma RemoveFound(ids: seq<int>, id: int)
    requires Distinct(ids) && id in ids
    ensures Find(ids, id).Some?
    ensures var rest := RemoveAt(ids, Find(ids, id).value);
      && Distinct(rest) && |rest| == |ids| - 1
      && id !in rest
      && (forall x :: x in rest <==> x in ids && x != id)
      && (forall a, b :: 0 <= a < b < |rest| ==> Before(ids, rest[a], rest[b]))
  {
    var i := Find(ids, id).value;
    RemoveAtOrder(ids, i);
    RemoveAtMembers(ids, i);
  }

  /** What is left after removing entry `i`: the others, in their order. */
  lemma RemoveAtOrder(ids: seq<int>, i: nat)
    requires i < |ids|
    ensures var rest := RemoveAt(ids, i);
      && |rest| == |ids| - 1
      && (forall a, b :: 0 <= a < b < |rest| ==> Before(ids, rest[a], rest[b]))
  {
    var rest := RemoveAt(ids, i);
    forall a, b | 0 <= a < b < |rest|
      ensures Before(ids, rest[a], rest[b])
    {
      var a', b' := if a < i then a else a + 1, if b < i then b else b + 1;
      assert rest[a] == ids[a'] && rest[b] == ids[b'];
    }
  }

  /** Removing entry `i` from a table without duplicates removes its id and
      no other, and leaves no duplicate. */
  lemma RemoveAtMembers(ids: seq<int>, i: nat)
    requires Distinct(ids) && i < |ids|
    ensures var rest := RemoveAt(ids, i);
      && Distinct(rest) && ids[i] !in rest
      && (forall x :: x in rest <==> x in ids && x != ids[i])
  {
    var rest := RemoveAt(ids, i);
    forall a | 0 <= a < |rest|
      ensures rest[a] == ids[if a < i then a else a + 1]
    {
    }
    forall a, b | 0 <= a < b < |rest|
      ensures rest[a] != rest[b]
    {
      assert rest[a] == ids[if a < i then a else a + 1];
      assert rest[b] == ids[if b < i then b else b + 1];
    }
    forall x | x in rest
      ensures x in ids && x != ids[i]
    {
      var a :| 0 <= a < |rest| && rest[a] == x;
      var k := if a < i then a else a + 1;
      assert ids[k] == x && k != i;
    }
    forall x | x in ids && x != ids[i]
      ensures x in rest
    {
      var k :| 0 <= k < |ids| && ids[k] == x;
      assert k != i;
      assert rest[if k < i then k else k - 1] == x;
    }
  }

  /** Every entry failed with the exception `ex`, in table order. */
  function RejectAll(ids: seq<int>, ex: Fault): (r: seq<Settlement>)
    ensures |r| == |ids|
    ensures forall i :: 0 <= i < |ids| ==> r[i] == Settlement(ids[i], Rejected(ex))
  {
    seq(|ids|, i requires 0 <= i < |ids| => Settlement(ids[i], Rejected(ex)))
  }

  /** `args.ToString()` for an `error` message: the text of a string, an
      exception for null, otherwise the serializer's rendering. */
  function ErrorText(codec: Codec, args: Json): (r: Option<string>)
    ensures r.None? <==> args == JNull
    ensures args.JString? ==> r == Some(args.s)
  {
    match args
    case JNull => None
    case JString(s) => Some(s)
    case _ => Some(codec.render(args))
  }

  /** `args as JToken` in the older host: Json.NET reads an `object` property
      as a `JToken` only for an object or an array; other values become plain
      .NET values and the cast gives null. */
  function AsJToken(args: Json): (r: Option<Json>)
    ensures r.Some? <==> args.JObject? || args.JArray?
    ensures r.Some? ==> r.value == args
  {
    if args.JObject? || args.JArray? then Some(args) else None
  }

  /** What the host hands on as the `args` of a response or event. The newer
      host wraps every non-token value in a `JValue`. */
  function Payload(legacy: bool, args: Json): Option<Json> {
    if legacy then AsJToken(args) else Some(args)
  }

  /** `HandleResponse(id, args)`: an unknown id dereferences null. */
  ghost predicate AfterResponse(p0: seq<int>, s0: seq<Settlement>, p1: seq<int>, s1: seq<Settlement>,
                                id: int, value: Option<Json>, fault: Option<Fault>)
  {
    match Find(p0, id)
    case None => fault == Some(NullReference) && p1 == p0 && s1 == s0
    case Some(i) => fault == None && p1 == RemoveAt(p0, i) && s1 == s0 + [Settlement(id, Resolved(value))]
  }

  /** `HandleError(id, args)`: the entry is removed before the text is read, so
      null `args` leaves it removed and never completed. */
  ghost predicate AfterError(codec: Codec, p0: seq<int>, s0: seq<Settlement>, p1: seq<int>, s1: seq<Settlement>,
                             id: int, args: Json, fault: Option<Fault>)
  {
    match Find(p0, id)
    case None => fault == Some(NullReference) && p1 == p0 && s1 == s0
    case Some(i) =>
      && p1 == RemoveAt(p0, i)
      && match ErrorText(codec, args)
         case None => fault == Some(NullReference) && s1 == s0
         case Some(t) => fault == None && s1 == s0 + [Settlement(id, Rejected(Remote(t)))]
  }

  /** `HandleDataReceived(buffer)`: decode and parse the body, then route on
      `type`; a message of any other type changes nothing. */
  ghost predicate Dispatched(codec: Codec, legacy: bool, subscribed: bool, body: seq<byte>,
                             p0: seq<int>, s0: seq<Settlement>, e0: seq<Event>,
                             p1: seq<int>, s1: seq<Settlement>, e1: seq<Event>, fault: Option<Fault>)
  {
    match codec.parse(Utf8.Decode(body))
    case None => fault == Some(Malformed) && p1 == p0 && s1 == s0 && e1 == e0
    case Some(msg) =>
      if msg.kind == EventKind then
        && fault == None && p1 == p0 && s1 == s0
        && e1 == e0 + (if subscribed then [Event(msg.methodName, Payload(legacy, msg.args))] else [])
      else if msg.kind == ResponseKind then
        e1 == e0 && AfterResponse(p0, s0, p1, s1, msg.id.GetOr(0), Payload(legacy, msg.args), fault)
      else if msg.kind == ErrorKind then
        e1 == e0 && AfterError(codec, p0, s0, p1, s1, msg.id.GetOr(0), msg.args, fault)
      else
        fault == None && p1 == p0 && s1 == s0 && e1 == e0
  }

  /** Handling one message never adds a pending entry, and only appends to
      the completed futures. */
  lemma DispatchedOnlyRemoves(codec: Codec, legacy: bool, subscribed: bool, body: seq<byte>,
                              p0: seq<int>, s0: seq<Settlement>, e0: seq<Event>,
                              p1: seq<int>, s1: seq<Settlement>, e1: seq<Event>, fault: Option<Fault>)
    requires Dispatched(codec, legacy, subscribed, body, p0, s0, e0, p1, s1, e1, fault)
    ensures forall x :: x in p1 ==> x in p0
    ensures |s0| <= |s1| && s1[..|s0|] == s0
  {
    assert s0 + [] == s0;
    match codec.parse(Utf8.Decode(body))
    case None =>
    case Some(msg) =>
      if msg.kind == ResponseKind || msg.kind == ErrorKind {
        match Find(p0, msg.id.GetOr(0))
        case None =>
        case Some(i) =>
          forall x | x in p1
            ensures x in p0
          {
            var k :| 0 <= k < |p1| && p1[k] == x;
            assert p1[k] == p0[if k < i then k else k + 1];
          }
      }
  }

  /** A completion made by a message from the worker: a value, or the text
      of an `error` message. */
  predicate Answered(s: Settlement) {
    s.outcome.Resolved? || s.outcome.fault.Remote?
  }

  /** The ids the settlements complete. */
  function Named(s: seq<Settlement>): set<int> {
    set st | st in s :: st.id
  }

  /** From table `p0` and completions `s0` to `p` and `s`: the completions
      were only added to, each by an answer from the worker, and every id
      pending at the start is still pending, completed, or the one `lost`. */
  ghost predicate Progress(p0: seq<int>, s0: seq<Settlement>, p: seq<int>, s: seq<Settlement>, lost: Option<int>) {
    && |s0| <= |s| && s[..|s0|] == s0
    && (forall k :: |s0| <= k < |s| ==> Answered(s[k]))
    && (forall x :: x in p0 ==> x in p || x in Named(s[|s0|..]) || lost == Some(x))
  }

  lemma ProgressNone(p0: seq<int>, s0: seq<Settlement>)
    ensures Progress(p0, s0, p0, s0, None)
  {
    assert s0[..|s0|] == s0;
  }

  /** Handling one more message keeps the account: the one entry it removes
      is completed by it, or is lost to the null dereference of an `error`
      with null `args`, which faults. A fault is never the text of an
      `error`. */
  lemma {:induction false} DispatchedProgress(codec: Codec, legacy: bool, subscribed: bool, body: seq<byte>,
                                              p0: seq<int>, s0: seq<Settlement>,
                                              pa: seq<int>, sa: seq<Settlement>, ea: seq<Event>,
                                              pb: seq<int>, sb: seq<Settlement>, eb: seq<Event>, fault: Option<Fault>)
    returns (lost: Option<int>)
    requires Progress(p0, s0, pa, sa, None)
    requires Dispatched(codec, legacy, subscribed, body, pa, sa, ea, pb, sb, eb, fault)
    ensures Progress(p0, s0, pb, sb, lost)
    ensures lost.Some? ==> fault == Some(NullReference)
    ensures fault.Some? ==> fault.value == Malformed || fault.value == NullReference
  {
    DispatchedOnlyRemoves(codec, legacy, subscribed, body, pa, sa, ea, pb, sb, eb, fault);
    lost := None;
    var gone: Option<int> := None;
    match codec.parse(Utf8.Decode(body))
    case None =>
    case Some(msg) =>
      if msg.kind != EventKind && (msg.kind == ResponseKind || msg.kind == ErrorKind) {
        match Find(pa, msg.id.GetOr(0))
        case None =>
        case Some(i) =>
          gone := Some(pa[i]);
          forall j | 0 <= j < |pa| && j != i
            ensures pa[j] in pb
          {
            assert pb[if j < i then j else j - 1] == pa[j];
          }
          if fault == Some(NullReference) {
            lost := gone;
          } else {
            assert sb == sa + [Settlement(pa[i], sb[|sa|].outcome)];
          }
      }
    NamedSplit(sb, |s0|, |sa|);
    assert sb[|s0|..|sa|] == sa[|s0|..];
    forall x | x in p0
      ensures x in pb || x in Named(sb[|s0|..]) || lost == Some(x)
    {
      if x !in pb && x !in Named(sa[|s0|..]) {
        assert x in pa && gone == Some(x);
        if lost != Some(x) {
          assert sb[|sa|..] == [sb[|sa|]];
          assert sb[|sa|] in sb[|sa|..];
        }
      }
    }
  }

  lemma NamedSplit(s: seq<Settlement>, a: nat, b: nat)
    requires a <= b <= |s|
    ensures Named(s[a..]) == Named(s[a..b]) + Named(s[b..])
  {
    assert s[a..] == s[a..b] + s[b..];
  }
}
