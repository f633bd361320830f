/** Whole runs of the key-value store: garbage collection cannot be observed, and
    the table with its sentinels refines a plain timed map. */
module KvRuns {
  import opened Prelude
  import opened KvStore

  /** The responses clients see, cleanups being silent. */
  function Observed(t: Table, ops: seq<Op>): seq<Response>
  {
    if ops == [] then [] else
      var n := |ops| - 1;
      Observed(t, ops[..n]) + if ops[n].Cleanup? then [] else [Respond(Run(t, ops[..n]), ops[n])]
  }

  /** The log without its cleanups. */
  function Erase(ops: seq<Op>): seq<Op>
  {
    if ops == [] then [] else
      var n := |ops| - 1;
      Erase(ops[..n]) + if ops[n].Cleanup? then [] else [ops[n]]
  }

  predicate Reads(op: Op) { op.Get? || op.Delete? }

  /** The clock of a GET or DELETE is never behind that of an earlier cleanup. */
  ghost predicate ReadsAfterCleanups(ops: seq<Op>)
  {
    forall i, j :: 0 <= i < j < |ops| && ops[i].Cleanup? && Reads(ops[j]) ==> ops[i].now <= ops[j].now
  }

  /** A deadline some cleanup of the log has passed. */
  ghost predicate PassedByCleanup(ops: seq<Op>, deadline: int)
  {
    exists i :: 0 <= i < |ops| && ops[i].Cleanup? && deadline <= ops[i].now
  }

  /* ---- Cleanup is unobservable ---- */

  /** `a` is `b` without some rows that a cleanup of the log could collect. */
  ghost predicate Trimmed(a: Table, b: Table, ops: seq<Op>)
  {
    && (forall k :: k in a ==> k in b && a[k] == b[k])
    && (forall k :: k in b && k !in a ==> b[k].expireAt != NEVER && PassedByCleanup(ops, b[k].expireAt))
  }

  lemma PassedStays(ops: seq<Op>, op: Op, deadline: int)
    requires PassedByCleanup(ops, deadline)
    ensures PassedByCleanup(ops + [op], deadline)
  {
    var i :| 0 <= i < |ops| && ops[i].Cleanup? && deadline <= ops[i].now;
    assert (ops + [op])[i] == ops[i];
  }

  lemma TrimmedReads(a: Table, b: Table, ops: seq<Op>, op: Op)
    requires Trimmed(a, b, ops) && Reads(op) && ReadsAfterCleanups(ops + [op])
    ensures Visible(a, op.key, op.now) <==> Visible(b, op.key, op.now)
  {
    var k := op.key;
    if k in b && k !in a {
      var i :| 0 <= i < |ops| && ops[i].Cleanup? && b[k].expireAt <= ops[i].now;
      assert (ops + [op])[i] == ops[i] && (ops + [op])[|ops|] == op;
    }
  }

  lemma TrimmedStep(a: Table, b: Table, ops: seq<Op>, op: Op)
    requires Trimmed(a, b, ops) && ReadsAfterCleanups(ops + [op])
    ensures Trimmed(Apply(a, op), if op.Cleanup? then b else Apply(b, op), ops + [op])
    ensures !op.Cleanup? ==> Respond(a, op) == Respond(b, op)
  {
    if Reads(op) {
      TrimmedReads(a, b, ops, op);
    }
    var a', b' := Apply(a, op), if op.Cleanup? then b else Apply(b, op);
    forall k | k in b' && k !in a'
      ensures b'[k].expireAt != NEVER && PassedByCleanup(ops + [op], b'[k].expireAt)
    {
      if k in a {
        assert op.Cleanup? && (ops + [op])[|ops|] == op;
      } else {
        PassedStays(ops, op, b[k].expireAt);
      }
    }
  }

  /** The erased log, one operation at a time. */
  lemma EraseStep(t: Table, ops: seq<Op>, op: Op)
    ensures Run(t, Erase(ops + [op])) == if op.Cleanup? then Run(t, Erase(ops)) else Apply(Run(t, Erase(ops)), op)
    ensures Observed(t, Erase(ops + [op]))
         == Observed(t, Erase(ops)) + if op.Cleanup? then [] else [Respond(Run(t, Erase(ops)), op)]
  {
    assert (ops + [op])[..|ops|] == ops;
    var rest := Erase(ops);
    assert (rest + [op])[..|rest|] == rest && rest + [] == rest;
  }

  lemma {:induction false} TrimmedRun(t: Table, ops: seq<Op>)
    requires ReadsAfterCleanups(ops)
    ensures Trimmed(Run(t, ops), Run(t, Erase(ops)), ops)
    ensures Observed(t, ops) == Observed(t, Erase(ops))
  {
    if ops != [] {
      var n := |ops| - 1;
      assert ops == ops[..n] + [ops[n]];
      TrimmedRun(t, ops[..n]);
      EraseStep(t, ops[..n], ops[n]);
      TrimmedStep(Run(t, ops[..n]), Run(t, Erase(ops[..n])), ops[..n], ops[n]);
    }
  }

  /** Erasing every cleanup from a log leaves all responses unchanged, whatever
      rows the batches took, if no GET or DELETE reads a clock behind an earlier
      cleanup's. */
  lemma CleanupIsUnobservable(ops: seq<Op>)
    requires ReadsAfterCleanups(ops)
    ensures Observed(map[], ops) == Observed(map[], Erase(ops))
  {
    TrimmedRun(map[], ops);
  }

  /** What a GET or DELETE answers when the row is there or is not. */
  function Answer(read: Op, value: Value, there: bool): Response
    requires Reads(read)
  {
    if !there then NotFound else if read.Get? then Found(value) else Deleted
  }

  /** PUT, cleanup and a read of one key, as the client sees them. */
  lemma ThreeSteps(value: Value, ttl: Option<int>, t0: int, c: int, doomed: set<Key>, read: Op)
    requires Reads(read)
    ensures
      var expireAt := ExpireAt(ttl, t0);
      var collected := read.key in doomed && expireAt != NEVER && expireAt <= c;
      var there := expireAt > read.now || expireAt == NEVER;
      && Observed(map[], [Put(read.key, value, ttl, t0), Cleanup(c, doomed), read])
         == [Stored, Answer(read, value, !collected && there)]
      && Observed(map[], [Put(read.key, value, ttl, t0), read]) == [Stored, Answer(read, value, there)]
  {
    var put, clean := Put(read.key, value, ttl, t0), Cleanup(c, doomed);
    var t1 := Apply(map[], put);
    assert [put, clean, read][..2] == [put, clean] && [put, clean][..1] == [put] && [put, read][..1] == [put];
    assert [put][..0] == [];
    assert Run(map[], [put]) == t1 && Run(map[], [put, clean]) == Apply(t1, clean);
    assert Observed(map[], [put]) == [] + [Stored];
    assert Observed(map[], [put, clean]) == [Stored] + [];
  }

  /** A cleanup at clock c between a PUT of the key and the read never changes the
      answer, whatever was put and whatever the batch took. */
  ghost predicate HiddenFrom(c: int, read: Op)
    requires Reads(read)
  {
    forall value, ttl, t0, doomed ::
      Observed(map[], [Put(read.key, value, ttl, t0), Cleanup(c, doomed), read])
      == Observed(map[], [Put(read.key, value, ttl, t0), read])
  }

  /** The proviso is exact, for GET and for DELETE: a cleanup at clock c is hidden
      from a read at clock t just when c <= t, but for one second before the epoch,
      when the only deadline in between is the sentinel of "never". */
  lemma ProvisoIsExact(c: int, read: Op)
    requires Reads(read)
    ensures HiddenFrom(c, read) <==> c <= read.now || (c == 0 && read.now == -1)
  {
    if c <= read.now || (c == 0 && read.now == -1) {
      forall value, ttl, t0, doomed
        ensures Observed(map[], [Put(read.key, value, ttl, t0), Cleanup(c, doomed), read])
             == Observed(map[], [Put(read.key, value, ttl, t0), read])
      {
        ThreeSteps(value, ttl, t0, c, doomed, read);
      }
    } else {
      var deadline := if c != 0 then c else -1;
      ThreeSteps("v", Some(1), deadline - 1, c, {read.key}, read);
    }
  }

  /* ---- The sentinel table refines a timed map ---- */

  datatype Timed = Timed(value: Value, deadline: Option<int>)

  type TimedMap = map<Key, Timed>

  predicate Alive(m: TimedMap, key: Key, now: int)
  {
    key in m && (m[key].deadline == None || now < m[key].deadline.value)
  }

  function TimedApply(m: TimedMap, op: Op): TimedMap
  {
    match op
    case Put(key, value, ttl, now) =>
      m[key := Timed(value, if ttl.Some? && ttl.value != 0 then Some(now + ttl.value) else None)]
    case Get(_, _) => m
    case Delete(key, now) => if Alive(m, key, now) then m - {key} else m
    case Cleanup(_, _) => m
  }

  function TimedRespond(m: TimedMap, op: Op): Response
  {
    match op
    case Put(_, _, _, _) => Stored
    case Get(key, now) => if Alive(m, key, now) then Found(m[key].value) else NotFound
    case Delete(key, now) => if Alive(m, key, now) then Deleted else NotFound
    case Cleanup(_, _) => Silent
  }

  function TimedRun(m: TimedMap, ops: seq<Op>): TimedMap
  {
    if ops == [] then m else TimedApply(TimedRun(m, ops[..|ops| - 1]), ops[|ops| - 1])
  }

  function TimedObserved(m: TimedMap, ops: seq<Op>): seq<Response>
  {
    if ops == [] then [] else
      var n := |ops| - 1;
      TimedObserved(m, ops[..n]) + if ops[n].Cleanup? then [] else [TimedRespond(TimedRun(m, ops[..n]), ops[n])]
  }

  /** Clocks are epoch seconds, and no deadline falls on the sentinel 0 of "never". */
  predicate Sane(op: Op)
  {
    op.now >= 0 && (op.Put? ==> Distinct(op.ttl, op.now))
  }

  predicate Distinct(ttl: Option<int>, now: int)
  {
    ttl.Some? && ttl.value != 0 ==> now + ttl.value != 0
  }

  /** A ttl is honoured at every clock exactly when its deadline does not fall on
      the sentinel: a negative ttl of -now makes a key that never expires. */
  lemma TtlHonouredIffDistinct(t: Table, key: Key, value: Value, ttl: Option<int>, now: int)
    ensures Distinct(ttl, now) <==>
      forall clock :: clock >= 0 ==>
        (Visible(Apply(t, Put(key, value, ttl, now)), key, clock)
         <==> ttl == None || ttl == Some(0) || clock < now + ttl.value)
  {
    if !Distinct(ttl, now) {
      assert Visible(Apply(t, Put(key, value, ttl, now)), key, 0);
    }
  }

  ghost predicate SaneLog(ops: seq<Op>)
  {
    forall i :: 0 <= i < |ops| ==> Sane(ops[i])
  }

  /** A row with a negative expireAt is deleted, or was written with a deadline
      before the epoch: no clock sees it. */
  ghost predicate RowMeans(row: Row, m: TimedMap, key: Key)
  {
    if row.expireAt < 0 then key !in m || (m[key].deadline.Some? && m[key].deadline.value < 0)
    else if row.expireAt == NEVER then key in m && m[key] == Timed(row.value, None)
    else key in m && m[key] == Timed(row.value, Some(row.expireAt))
  }

  ghost predicate Refines(t: Table, m: TimedMap, ops: seq<Op>)
  {
    && (forall k :: k in t ==> RowMeans(t[k], m, k))
    && (forall k :: k in m && k !in t ==> m[k].deadline.Some? && PassedByCleanup(ops, m[k].deadline.value))
  }

  lemma RefinesReads(t: Table, m: TimedMap, ops: seq<Op>, op: Op)
    requires Refines(t, m, ops) && Reads(op) && Sane(op) && ReadsAfterCleanups(ops + [op])
    ensures Visible(t, op.key, op.now) <==> Alive(m, op.key, op.now)
    ensures Visible(t, op.key, op.now) ==> t[op.key].value == m[op.key].value
  {
    var k := op.key;
    if k in m && k !in t {
      var i :| 0 <= i < |ops| && ops[i].Cleanup? && m[k].deadline.value <= ops[i].now;
      assert (ops + [op])[i] == ops[i] && (ops + [op])[|ops|] == op;
    }
  }

  lemma RefinesStep(t: Table, m: TimedMap, ops: seq<Op>, op: Op)
    requires Refines(t, m, ops) && Sane(op) && ReadsAfterCleanups(ops + [op])
    ensures Refines(Apply(t, op), TimedApply(m, op), ops + [op])
    ensures Respond(t, op) == TimedRespond(m, op)
  {
    if Reads(op) {
      RefinesReads(t, m, ops, op);
    }
    var t', m' := Apply(t, op), TimedApply(m, op);
    forall k | k in m' && k !in t'
      ensures m'[k].deadline.Some? && PassedByCleanup(ops + [op], m'[k].deadline.value)
    {
      if k in t {
        assert op.Cleanup? && (ops + [op])[|ops|] == op;
      } else {
        PassedStays(ops, op, m[k].deadline.value);
      }
    }
  }

  lemma {:induction false} RefinesRun(ops: seq<Op>)
    requires SaneLog(ops) && ReadsAfterCleanups(ops)
    ensures Refines(Run(map[], ops), TimedRun(map[], ops), ops)
    ensures Observed(map[], ops) == TimedObserved(map[], ops)
  {
    if ops != [] {
      var n := |ops| - 1;
      assert ops == ops[..n] + [ops[n]];
      RefinesRun(ops[..n]);
      RefinesStep(Run(map[], ops[..n]), TimedRun(map[], ops[..n]), ops[..n], ops[n]);
    }
  }

  /** Run for run, clients of the sentinel table see what clients of a plain timed
      map see. */
  lemma TableRefinesTimedMap(ops: seq<Op>)
    requires SaneLog(ops) && ReadsAfterCleanups(ops)
    ensures Observed(map[], ops) == TimedObserved(map[], ops)
  {
    RefinesRun(ops);
  }

  /* ---- Logs with ordinary ttls ---- */

  /** Clocks are epoch seconds and a ttl, when given, is not negative. */
  predicate Ordinary(op: Op)
  {
    op.now >= 0 && (op.Put? && op.ttl.Some? ==> op.ttl.value >= 0)
  }

  ghost predicate OrdinaryLog(ops: seq<Op>)
  {
    forall i :: 0 <= i < |ops| ==> Ordinary(ops[i])
  }

  lemma OrdinaryIsSane(ops: seq<Op>)
    requires OrdinaryLog(ops)
    ensures SaneLog(ops)
  {
    forall i | 0 <= i < |ops|
      ensures Sane(ops[i])
    {
      assert Ordinary(ops[i]);
    }
  }

  /** With clocks from the epoch on and no negative ttl, clients of the sentinel
      table see what clients of a plain timed map see. */
  lemma OrdinaryTableRefinesTimedMap(ops: seq<Op>)
    requires OrdinaryLog(ops) && ReadsAfterCleanups(ops)
    ensures Observed(map[], ops) == TimedObserved(map[], ops)
  {
    OrdinaryIsSane(ops);
    TableRefinesTimedMap(ops);
  }

  /* ---- What erasing and observing mean ---- */

  lemma {:induction false} EraseConcat(a: seq<Op>, b: seq<Op>)
    ensures Erase(a + b) == Erase(a) + Erase(b)
  {
    if b == [] {
      assert a + b == a && Erase(a) + [] == Erase(a);
    } else {
      var n := |b| - 1;
      assert (a + b)[..|a| + n] == a + b[..n];
      EraseConcat(a, b[..n]);
      var last := if b[n].Cleanup? then [] else [b[n]];
      assert (Erase(a) + Erase(b[..n])) + last == Erase(a) + (Erase(b[..n]) + last);
    }
  }

  /** Erasing drops the cleanups and keeps every request in its order; a client sees
      one response for each. */
  lemma {:induction false} ErasedAreTheRequests(t: Table, ops: seq<Op>)
    ensures forall op :: multiset(Erase(ops))[op] == if op.Cleanup? then 0 else multiset(ops)[op]
    ensures |Observed(t, ops)| == |Erase(ops)|
  {
    if ops != [] {
      var n := |ops| - 1;
      ErasedAreTheRequests(t, ops[..n]);
      assert ops == ops[..n] + [ops[n]];
    }
  }

  /** The i-th response is the table's answer to the i-th request. */
  lemma {:induction false} ResponseToEach(t: Table, pre: seq<Op>, op: Op, post: seq<Op>)
    requires !op.Cleanup?
    ensures |Erase(pre)| < |Observed(t, pre + [op] + post)|
    ensures Observed(t, pre + [op] + post)[|Erase(pre)|] == Respond(Run(t, pre), op)
  {
    if post == [] {
      assert pre + [op] + [] == pre + [op] && (pre + [op])[..|pre|] == pre;
      ErasedAreTheRequests(t, pre);
    } else {
      var n := |post| - 1;
      assert (pre + [op] + post)[..|pre| + 1 + n] == pre + [op] + post[..n];
      ResponseToEach(t, pre, op, post[..n]);
    }
  }

  /* ---- Reading back a write ---- */

  predicate Writes(op: Op, key: Key)
  {
    (op.Put? || op.Delete?) && op.key == key
  }

  lemma {:induction false} Untouched(m: TimedMap, pre: seq<Op>, post: seq<Op>, key: Key)
    requires forall i :: 0 <= i < |post| ==> !Writes(post[i], key)
    ensures key in TimedRun(m, pre + post) <==> key in TimedRun(m, pre)
    ensures key in TimedRun(m, pre) ==> TimedRun(m, pre + post)[key] == TimedRun(m, pre)[key]
  {
    if post == [] {
      assert pre + post == pre;
    } else {
      var n := |post| - 1;
      assert (pre + post)[..|pre| + n] == pre + post[..n];
      Untouched(m, pre, post[..n], key);
    }
  }

  /** A key put with a ttl at clock t0 and not written since is found exactly
      while now < t0 + ttl; with no ttl or ttl 0, always. */
  lemma FoundUntilDeadline(pre: seq<Op>, put: Op, post: seq<Op>, now: int)
    requires put.Put? && forall i :: 0 <= i < |post| ==> !Writes(post[i], put.key)
    requires SaneLog(pre + [put] + post + [Get(put.key, now)])
    requires ReadsAfterCleanups(pre + [put] + post + [Get(put.key, now)])
    ensures Respond(Run(map[], pre + [put] + post), Get(put.key, now))
         == if put.ttl.Some? && put.ttl.value != 0 && now >= put.now + put.ttl.value then NotFound else Found(put.value)
  {
    var log, get := pre + [put] + post, Get(put.key, now);
    PrefixOk(log, get);
    RefinesRun(log);
    RefinesStep(Run(map[], log), TimedRun(map[], log), log, get);
    Untouched(map[], pre + [put], post, put.key);
    assert (pre + [put])[..|pre|] == pre;
  }

  /** The same with ordinary ttls only. */
  lemma OrdinaryFoundUntilDeadline(pre: seq<Op>, put: Op, post: seq<Op>, now: int)
    requires put.Put? && forall i :: 0 <= i < |post| ==> !Writes(post[i], put.key)
    requires OrdinaryLog(pre + [put] + post + [Get(put.key, now)])
    requires ReadsAfterCleanups(pre + [put] + post + [Get(put.key, now)])
    ensures Respond(Run(map[], pre + [put] + post), Get(put.key, now))
         == if put.ttl.Some? && put.ttl.value != 0 && now >= put.now + put.ttl.value then NotFound else Found(put.value)
  {
    OrdinaryIsSane(pre + [put] + post + [Get(put.key, now)]);
    FoundUntilDeadline(pre, put, post, now);
  }

  lemma PrefixOk(ops: seq<Op>, op: Op)
    requires SaneLog(ops + [op]) && ReadsAfterCleanups(ops + [op])
    ensures SaneLog(ops) && ReadsAfterCleanups(ops) && Sane(op)
  {
    assert forall i :: 0 <= i < |ops| ==> (ops + [op])[i] == ops[i];
    assert (ops + [op])[|ops|] == op;
  }
}
