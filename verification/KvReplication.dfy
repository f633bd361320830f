/** Reads routed to lagging replicas: every answer is the answer of a plain timed
    map after some prefix of the primary's log. */
module KvReplication {
  import opened Prelude
  import opened KvStore
  import opened KvRuns
  import Router = ReplicaRouter

  /** The primary's statements so far, and how many of them each replica has
      applied. */
  datatype Cluster = Cluster(log: seq<Op>, applied: seq<nat>)

  ghost predicate Valid(c: Cluster)
  {
    && SaneLog(c.log) && ReadsAfterCleanups(c.log)
    && forall i :: 0 <= i < |c.applied| ==> c.applied[i] <= |c.log|
  }

  /** How much of the log the pool serving a GET has seen: a consistent read goes
      to the primary, any other to the replica chosen by the round-robin, if one
      answers its probe. */
  ghost function Prefix(c: Cluster, consistent: bool, start: nat, healthy: seq<bool>): (n: nat)
    requires Valid(c) && |healthy| == |c.applied| && (|healthy| > 0 ==> start < |healthy|)
    ensures n <= |c.log|
  {
    if consistent || |healthy| == 0 then |c.log|
    else
      match Router.Chosen(start, healthy)
      case Replica(i) => c.applied[i]
      case _ => |c.log|
  }

  ghost function RoutedGet(c: Cluster, consistent: bool, start: nat, healthy: seq<bool>, key: Key, now: int): Response
    requires Valid(c) && |healthy| == |c.applied| && (|healthy| > 0 ==> start < |healthy|)
  {
    Respond(Run(map[], c.log[..Prefix(c, consistent, start, healthy)]), Get(key, now))
  }

  /** The clock is not behind any cleanup among the statements. */
  ghost predicate NotBehind(ops: seq<Op>, now: int)
  {
    now >= 0 && forall i :: 0 <= i < |ops| && ops[i].Cleanup? ==> ops[i].now <= now
  }

  lemma AppendGet(ops: seq<Op>, key: Key, now: int)
    requires SaneLog(ops) && ReadsAfterCleanups(ops) && NotBehind(ops, now)
    ensures SaneLog(ops + [Get(key, now)]) && ReadsAfterCleanups(ops + [Get(key, now)])
  {
  }

  /** A replica that has applied any prefix of the log, cleanups included, answers
      as the timed map after that prefix does. */
  lemma ReplicaAnswersForItsPrefix(ops: seq<Op>, n: nat, key: Key, now: int)
    requires SaneLog(ops) && ReadsAfterCleanups(ops) && n <= |ops| && NotBehind(ops[..n], now)
    ensures Respond(Run(map[], ops[..n]), Get(key, now)) == TimedRespond(TimedRun(map[], ops[..n]), Get(key, now))
  {
    AppendGet(ops[..n], key, now);
    RefinesRun(ops[..n]);
    RefinesStep(Run(map[], ops[..n]), TimedRun(map[], ops[..n]), ops[..n], Get(key, now));
  }

  /** Every routed read answers for a prefix of the log; a consistent read, and a
      fallback after every probe failed, for all of it. */
  lemma RoutedReadAnswersForAPrefix(
      c: Cluster, consistent: bool, start: nat, healthy: seq<bool>, key: Key, now: int)
    requires Valid(c) && |healthy| == |c.applied| && (|healthy| > 0 ==> start < |healthy|)
    requires NotBehind(c.log[..Prefix(c, consistent, start, healthy)], now)
    ensures
      var n := Prefix(c, consistent, start, healthy);
      && RoutedGet(c, consistent, start, healthy, key, now)
         == TimedRespond(TimedRun(map[], c.log[..n]), Get(key, now))
      && (if consistent || forall r :: 0 <= r < |healthy| ==> !healthy[r] then n == |c.log|
          else exists r: nat :: r < |healthy| && Router.FirstHealthy(healthy, start, r) && n == c.applied[r])
  {
    if |healthy| > 0 {
      Router.FallbackOnlyWhenAllDead(start, healthy);
      if Router.Chosen(start, healthy).Replica? {
        Router.ChosenIsFirstHealthy(start, healthy, Router.Chosen(start, healthy).index);
      }
    }
    ReplicaAnswersForItsPrefix(c.log, Prefix(c, consistent, start, healthy), key, now);
  }

  /** While the cycle stands on r or on one of the d dead replicas before it, a read
      answers for what replica r has applied. */
  lemma ReadGoesToNextHealthy(c: Cluster, healthy: seq<bool>, r: nat, d: nat, j: nat, key: Key, now: int)
    requires Valid(c) && |healthy| == |c.applied| && Router.DeadBefore(healthy, r, d) && j <= d
    requires NotBehind(c.log[..c.applied[r]], now)
    ensures RoutedGet(c, false, Router.Back(|healthy|, r, j), healthy, key, now)
         == TimedRespond(TimedRun(map[], c.log[..c.applied[r]]), Get(key, now))
  {
    Router.PickReaches(healthy, r, d, j, 0);
    ReplicaAnswersForItsPrefix(c.log, c.applied[r], key, now);
  }

  /** Read your writes: a consistent read, or a fallback, returns the last value
      put under the key for as long as it has not expired. */
  lemma ReadYourWrites(
      c: Cluster, consistent: bool, start: nat, healthy: seq<bool>, pre: seq<Op>, put: Op, post: seq<Op>, now: int)
    requires Valid(c) && |healthy| == |c.applied| && (|healthy| > 0 ==> start < |healthy|)
    requires consistent || forall r :: 0 <= r < |healthy| ==> !healthy[r]
    requires c.log == pre + [put] + post && put.Put? && NotBehind(c.log, now)
    requires forall i :: 0 <= i < |post| ==> !Writes(post[i], put.key)
    ensures RoutedGet(c, consistent, start, healthy, put.key, now)
         == if put.ttl.Some? && put.ttl.value != 0 && now >= put.now + put.ttl.value then NotFound else Found(put.value)
  {
    assert c.log[..|c.log|] == c.log;
    if |healthy| > 0 {
      Router.FallbackOnlyWhenAllDead(start, healthy);
    }
    RoutedReadAnswersForAPrefix(c, consistent, start, healthy, put.key, now);
    AppendGet(c.log, put.key, now);
    FoundUntilDeadline(pre, put, post, now);
  }
}
