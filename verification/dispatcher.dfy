/**
  The `Logger`: an ordered registry of non-owning sink handles, and the fan-out of
  one log call to every registered handle in registration order.

  A handle is an opaque id; two handles are equal exactly when they designate the
  same sink.  What a delivery does to a sink is not modelled here: a log call
  yields its delivery trace, the sequence of (handle, entry) pairs in the order
  the sinks are invoked.
 */
module Dispatcher {
  import opened Wrappers
  import opened LogLevels
  import opened Decimal
  import opened LogEntries

  /** A sink handle, compared by identity. */
  type SinkId = nat

  /** One invocation of a sink's `log` with an entry. */
  type Delivery = (SinkId, Log)

  /** The dispatcher: its vector of handles, in dispatch order. */
  datatype Logger = Logger(sinks: seq<SinkId>)

  /** `sub` is `s` with some elements dropped and the rest in their original order. */
  predicate IsSubsequence(sub: seq<SinkId>, s: seq<SinkId>)
    decreases |s|
  {
    if |sub| == 0 then true
    else if |s| == 0 then false
    else if sub[0] == s[0] then IsSubsequence(sub[1..], s[1..])
    else IsSubsequence(sub, s[1..])
  }

  /** Registers a handle at the end of the list; a handle already present is
      registered again. */
  function AddSink(lg: Logger, s: SinkId): (r: Logger)
    ensures |r.sinks| == |lg.sinks| + 1
    ensures r.sinks[..|lg.sinks|] == lg.sinks
    ensures r.sinks[|lg.sinks|] == s
    ensures multiset(r.sinks)[s] == multiset(lg.sinks)[s] + 1
  {
    Logger(lg.sinks + [s])
  }

  /** The handles of `sinks` other than `s`, in their original order. */
  function RemoveAll(sinks: seq<SinkId>, s: SinkId): (r: seq<SinkId>)
    ensures s !in r
    ensures |r| <= |sinks|
    decreases |sinks|
  {
    if |sinks| == 0 then []
    else
      var rest := RemoveAll(sinks[1..], s);
      if sinks[0] == s then rest else [sinks[0]] + rest
  }

  /** What `RemoveAll` keeps: every other handle with its count, in order, and
      nothing of `s`. */
  lemma {:induction false} RemoveAllKeepsOthers(sinks: seq<SinkId>, s: SinkId)
    ensures forall x :: x != s ==> multiset(RemoveAll(sinks, s))[x] == multiset(sinks)[x]
    ensures |RemoveAll(sinks, s)| == |sinks| - multiset(sinks)[s]
    ensures IsSubsequence(RemoveAll(sinks, s), sinks)
    decreases |sinks|
  {
    if |sinks| > 0 {
      assert sinks == [sinks[0]] + sinks[1..];
      RemoveAllKeepsOthers(sinks[1..], s);
      var rest := RemoveAll(sinks[1..], s);
      if sinks[0] == s && |rest| > 0 {
        assert rest[0] != sinks[0];
      }
    }
  }

  /** Unregisters every registration of `s`; the others keep their order. */
  function RemoveSink(lg: Logger, s: SinkId): (r: Logger)
    ensures s !in r.sinks
    ensures forall x :: x != s ==> multiset(r.sinks)[x] == multiset(lg.sinks)[x]
    ensures IsSubsequence(r.sinks, lg.sinks)
  {
    RemoveAllKeepsOthers(lg.sinks, s);
    Logger(RemoveAll(lg.sinks, s))
  }

  /** The entry a log call builds: the level token decoded, the time rendered once. */
  function Entry(message: string, level: string, now: int): (e: Log)
    ensures e.message == message
    ensures level in CanonicalTokens ==> ToToken(e.level) == level
    ensures level !in CanonicalTokens ==> e.level == Info
    ensures ParseInt(e.timestamp) == Some(now)
  {
    MakeLog(message, FromToken(level), now)
  }

  /** `trace` hands `e` to each position of `sinks` once, in list order. */
  predicate IsBroadcast(trace: seq<Delivery>, sinks: seq<SinkId>, e: Log) {
    |trace| == |sinks| && forall i :: 0 <= i < |trace| ==> trace[i] == (sinks[i], e)
  }

  /** The reference broadcast: `e` handed to each handle of `sinks`, front to back. */
  function Broadcast(sinks: seq<SinkId>, e: Log): (r: seq<Delivery>)
    ensures IsBroadcast(r, sinks, e)
    decreases |sinks|
  {
    if |sinks| == 0 then [] else [(sinks[0], e)] + Broadcast(sinks[1..], e)
  }

  /** A list of handles and an entry determine the broadcast trace. */
  lemma BroadcastUnique(t1: seq<Delivery>, t2: seq<Delivery>, sinks: seq<SinkId>, e: Log)
    requires IsBroadcast(t1, sinks, e) && IsBroadcast(t2, sinks, e)
    ensures t1 == t2
  {
  }

  /** How many deliveries of `trace` go to `s`. */
  function DeliveriesTo(trace: seq<Delivery>, s: SinkId): nat
    decreases |trace|
  {
    if |trace| == 0 then 0
    else (if trace[0].0 == s then 1 else 0) + DeliveriesTo(trace[1..], s)
  }

  /** `Logger::log` on a dispatcher whose sinks all accept the entry: one entry is
      built with the time read once, and each registered handle receives it in turn. */
  method LogCall(lg: Logger, message: string, level: string, now: int) returns (trace: seq<Delivery>)
    ensures |trace| == |lg.sinks|
    ensures forall i :: 0 <= i < |trace| ==> trace[i].0 == lg.sinks[i]
    ensures forall i :: 0 <= i < |trace| ==> trace[i].1 == Entry(message, level, now)
    ensures trace == Broadcast(lg.sinks, Entry(message, level, now))
  {
    var entry := Entry(message, level, now);
    trace := [];
    var i := 0;
    while i < |lg.sinks|
      invariant 0 <= i <= |lg.sinks|
      invariant |trace| == i
      invariant forall j :: 0 <= j < i ==> trace[j] == (lg.sinks[j], entry)
    {
      trace := trace + [(lg.sinks[i], entry)];
      i := i + 1;
    }
    BroadcastUnique(trace, Broadcast(lg.sinks, entry), lg.sinks, entry);
  }

  /** The default level argument of `Logger::log`. */
  const DefaultLevelToken: string := "INFO"

  /** A log call relying on the default level argument "INFO", which the
      case-sensitive decoder does not recognise: every delivery carries `Info`. */
  method LogWithDefaultLevel(lg: Logger, message: string, now: int) returns (trace: seq<Delivery>)
    ensures |trace| == |lg.sinks|
    ensures forall i :: 0 <= i < |trace| ==> trace[i].1.level == Info && trace[i].1.message == message
  {
    CaseVariantsFallBack();
    trace := LogCall(lg, message, DefaultLevelToken, now);
  }

  /** A handle registered k times receives the entry k times. */
  lemma {:induction false} BroadcastCount(trace: seq<Delivery>, sinks: seq<SinkId>, e: Log, s: SinkId)
    requires IsBroadcast(trace, sinks, e)
    ensures DeliveriesTo(trace, s) == multiset(sinks)[s]
    decreases |sinks|
  {
    if |sinks| > 0 {
      assert sinks == [sinks[0]] + sinks[1..];
      assert IsBroadcast(trace[1..], sinks[1..], e);
      BroadcastCount(trace[1..], sinks[1..], e, s);
    }
  }

  /** After `RemoveSink(s)`, no log call reaches `s`, whatever else is registered. */
  lemma RemovedSinkReceivesNothing(lg: Logger, s: SinkId, trace: seq<Delivery>, e: Log)
    requires IsBroadcast(trace, RemoveSink(lg, s).sinks, e)
    ensures DeliveriesTo(trace, s) == 0
  {
    RemoveAllKeepsOthers(lg.sinks, s);
    BroadcastCount(trace, RemoveSink(lg, s).sinks, e, s);
  }

  /** Removing a handle that is not registered changes nothing. */
  lemma {:induction false} RemoveAbsentIsNoop(sinks: seq<SinkId>, s: SinkId)
    requires s !in sinks
    ensures RemoveAll(sinks, s) == sinks
    decreases |sinks|
  {
    if |sinks| > 0 {
      assert sinks[0] != s;
      RemoveAbsentIsNoop(sinks[1..], s);
      assert sinks == [sinks[0]] + sinks[1..];
    }
  }

  /** Removing twice is removing once. */
  lemma RemoveIdempotent(lg: Logger, s: SinkId)
    ensures RemoveSink(RemoveSink(lg, s), s) == RemoveSink(lg, s)
  {
    RemoveAbsentIsNoop(RemoveSink(lg, s).sinks, s);
  }

  /** Removal works position by position: it distributes over concatenation. */
  lemma {:induction false} RemoveAllAppend(a: seq<SinkId>, b: seq<SinkId>, s: SinkId)
    ensures RemoveAll(a + b, s) == RemoveAll(a, s) + RemoveAll(b, s)
    decreases |a|
  {
    if |a| > 0 {
      assert (a + b)[1..] == a[1..] + b;
      RemoveAllAppend(a[1..], b, s);
    } else {
      assert a + b == b;
    }
  }

  /** Registering then unregistering the same handle removes the earlier
      registrations as well; unregistering another handle commutes with the
      registration. */
  lemma RemoveAfterAdd(lg: Logger, s: SinkId, t: SinkId)
    ensures RemoveSink(AddSink(lg, s), s) == RemoveSink(lg, s)
    ensures t != s ==> RemoveSink(AddSink(lg, s), t) == AddSink(RemoveSink(lg, t), s)
  {
    assert AddSink(lg, s).sinks == lg.sinks + [s];
    RemoveAllAppend(lg.sinks, [s], s);
    RemoveAllSingleton(s, s);
    if t != s {
      RemoveAllAppend(lg.sinks, [s], t);
      RemoveAllSingleton(s, t);
    }
  }

  lemma RemoveAllSingleton(x: SinkId, s: SinkId)
    ensures RemoveAll([x], s) == if x == s then [] else [x]
  {
    assert [x][1..] == [];
  }

  /** Removals of two handles commute. */
  lemma {:induction false} RemoveAllCommutes(sinks: seq<SinkId>, s: SinkId, t: SinkId)
    ensures RemoveAll(RemoveAll(sinks, s), t) == RemoveAll(RemoveAll(sinks, t), s)
    decreases |sinks|
  {
    if |sinks| > 0 {
      RemoveAllCommutes(sinks[1..], s, t);
      var x := sinks[0];
      var rs := RemoveAll(sinks[1..], s);
      var rt := RemoveAll(sinks[1..], t);
      if x != s {
        assert RemoveAll([x] + rs, t) == RemoveAll([x], t) + RemoveAll(rs, t) by {
          RemoveAllAppend([x], rs, t);
        }
      }
      if x != t {
        assert RemoveAll([x] + rt, s) == RemoveAll([x], s) + RemoveAll(rt, s) by {
          RemoveAllAppend([x], rt, s);
        }
      }
    }
  }

  /** Sinks registered one after the other are invoked in that order. */
  lemma DispatchOrder(lg: Logger, a: SinkId, b: SinkId, e: Log)
    ensures Broadcast(AddSink(AddSink(lg, a), b).sinks, e) == Broadcast(lg.sinks, e) + [(a, e), (b, e)]
  {
    var sinks := AddSink(AddSink(lg, a), b).sinks;
    var t := Broadcast(lg.sinks, e) + [(a, e), (b, e)];
    assert sinks == lg.sinks + [a, b];
    assert IsBroadcast(t, sinks, e);
    BroadcastUnique(Broadcast(sinks, e), t, sinks, e);
  }

  /** The outcome of a fail-fast dispatch: the deliveries attempted, and the sink
      whose failure aborted the call, if any. */
  datatype Outcome = Outcome(trace: seq<Delivery>, failed: Option<SinkId>)

  /** Dispatch as the source performs it when sinks can fail: each sink is invoked
      in list order, and the first one in `failing` raises, which ends the call; the
      failing sink's invocation is the last delivery attempted. */
  function FailFast(sinks: seq<SinkId>, e: Log, failing: set<SinkId>): (r: Outcome)
    ensures |r.trace| <= |sinks|
    ensures forall i :: 0 <= i < |r.trace| ==> r.trace[i] == (sinks[i], e)
    ensures r.failed.None? <==> forall i :: 0 <= i < |sinks| ==> sinks[i] !in failing
    ensures r.failed.None? ==> |r.trace| == |sinks|
    ensures r.failed.Some? ==>
              && |r.trace| > 0
              && r.failed.value == sinks[|r.trace| - 1]
              && r.failed.value in failing
              && forall i :: 0 <= i < |r.trace| - 1 ==> sinks[i] !in failing
    decreases |sinks|
  {
    if |sinks| == 0 then Outcome([], None)
    else if sinks[0] in failing then Outcome([(sinks[0], e)], Some(sinks[0]))
    else
      var rest := FailFast(sinks[1..], e, failing);
      Outcome([(sinks[0], e)] + rest.trace, rest.failed)
  }

  /** With no failing sink, fail-fast dispatch is the full broadcast. */
  lemma NoFailureIsBroadcast(sinks: seq<SinkId>, e: Log, failing: set<SinkId>)
    requires forall s :: s in sinks ==> s !in failing
    ensures FailFast(sinks, e, failing) == Outcome(FailFast(sinks, e, failing).trace, None)
    ensures FailFast(sinks, e, failing).trace == Broadcast(sinks, e)
  {
    BroadcastUnique(FailFast(sinks, e, failing).trace, Broadcast(sinks, e), sinks, e);
  }

  /** When a sink fails, no sink registered after it is invoked for that call. */
  lemma LaterSinksSuppressed(sinks: seq<SinkId>, e: Log, failing: set<SinkId>, k: nat)
    requires k < |sinks| && sinks[k] in failing
    ensures FailFast(sinks, e, failing).failed.Some?
    ensures |FailFast(sinks, e, failing).trace| <= k + 1
  {
  }

  /** Two sinks [A, B] where A raises: A is invoked, B never is. */
  lemma FailingFirstSinkSuppressesSecond(a: SinkId, b: SinkId, e: Log, failing: set<SinkId>)
    requires a in failing && a != b
    ensures FailFast([a, b], e, failing) == Outcome([(a, e)], Some(a))
    ensures DeliveriesTo(FailFast([a, b], e, failing).trace, b) == 0
  {
    assert DeliveriesTo([(a, e)][1..], b) == 0;
  }
}
