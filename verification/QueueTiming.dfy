/** What the clock adds: where an in-flight entry comes from, the order of the
    in-flight dict, and exactly-once delivery under timely acknowledgement. */
module QueueTiming {
  import opened Prelude
  import opened MessageQueue
  import opened QueueRuns

  ghost predicate StepAt(timeout: real, ops: seq<Op>, logs: seq<Log>, n: nat)
    requires |logs| == |ops| + 1 && n < |ops|
  {
    Allowed(logs[n], ops[n]) && logs[n + 1] == Next(timeout, logs[n], ops[n])
  }

  /** `logs` are the successive logs of the run `ops`: logs[n] is the log before
      operation n. */
  ghost predicate Trace(timeout: real, ops: seq<Op>, logs: seq<Log>)
  {
    && |logs| == |ops| + 1
    && logs[0] == EMPTY
    && forall n: nat :: n < |ops| ==> StepAt(timeout, ops, logs, n)
  }

  lemma {:induction false} ValidPrefix(timeout: real, ops: seq<Op>, n: nat)
    requires ValidRun(timeout, ops) && n <= |ops|
    ensures ValidRun(timeout, ops[..n])
    decreases |ops|
  {
    if n < |ops| {
      assert ops[..|ops| - 1][..n] == ops[..n];
      ValidPrefix(timeout, ops[..|ops| - 1], n);
    } else {
      assert ops[..n] == ops;
    }
  }

  lemma PrefixStep(timeout: real, ops: seq<Op>, n: nat)
    requires ValidRun(timeout, ops) && n < |ops|
    ensures ValidRun(timeout, ops[..n]) && ValidRun(timeout, ops[..n + 1])
    ensures Allowed(Exec(timeout, ops[..n]), ops[n])
    ensures Exec(timeout, ops[..n + 1]) == Next(timeout, Exec(timeout, ops[..n]), ops[n])
  {
    ValidPrefix(timeout, ops, n);
    ValidPrefix(timeout, ops, n + 1);
    assert ops[..n + 1][..n] == ops[..n];
  }

  ghost function Before(timeout: real, ops: seq<Op>, n: nat): Log
    requires ValidRun(timeout, ops) && n <= |ops|
  {
    ValidPrefix(timeout, ops, n);
    Exec(timeout, ops[..n])
  }

  /** Every valid run has a trace, and it ends in the log of the run. */
  lemma TraceOf(timeout: real, ops: seq<Op>) returns (logs: seq<Log>)
    requires ValidRun(timeout, ops)
    ensures Trace(timeout, ops, logs) && logs[|ops|] == Exec(timeout, ops)
  {
    logs := seq(|ops| + 1, n requires 0 <= n <= |ops| => Before(timeout, ops, n));
    forall n: nat | n < |ops|
      ensures StepAt(timeout, ops, logs, n)
    {
      PrefixStep(timeout, ops, n);
    }
    assert ops[..|ops|] == ops;
  }

  lemma {:induction false} LogKeeps(timeout: real, ops: seq<Op>, logs: seq<Log>, n: nat)
    requires Trace(timeout, ops, logs) && n <= |ops|
    ensures Placed(logs[n]) && Accounted(logs[n]) && Ordered(logs[n])
  {
    if n > 0 {
      LogKeeps(timeout, ops, logs, n - 1);
      assert StepAt(timeout, ops, logs, n - 1);
      NextKeeps(timeout, logs[n - 1], ops[n - 1]);
    }
  }

  lemma InitTrace(timeout: real, ops: seq<Op>, logs: seq<Log>, ops': seq<Op>, logs': seq<Log>)
    requires Trace(timeout, ops, logs) && ops != []
    requires ops' == ops[..|ops| - 1] && logs' == logs[..|ops|]
    ensures Trace(timeout, ops', logs')
  {
    forall i: nat | i < |ops'|
      ensures StepAt(timeout, ops', logs', i)
    {
      assert StepAt(timeout, ops, logs, i);
    }
  }

  lemma {:induction false} TraceIsRun(timeout: real, ops: seq<Op>, logs: seq<Log>)
    requires Trace(timeout, ops, logs)
    ensures ValidRun(timeout, ops) && logs[|ops|] == Exec(timeout, ops)
  {
    if ops != [] {
      var n := |ops| - 1;
      InitTrace(timeout, ops, logs, ops[..n], logs[..n + 1]);
      TraceIsRun(timeout, ops[..n], logs[..n + 1]);
      assert StepAt(timeout, ops, logs, n);
    }
  }

  /** Operation i hands out message m. */
  ghost predicate Delivers(ops: seq<Op>, logs: seq<Log>, i: nat, m: Message)
    requires |logs| == |ops| + 1
  {
    i < |ops| && HandsOut(logs[i].st, ops[i]) == Some(m)
  }

  ghost predicate AckedBetween(ops: seq<Op>, i: nat, n: nat, id: string)
    requires n <= |ops|
  {
    exists a :: i < a < n && ops[a].Ack? && ops[a].id == id
  }

  /** Entry e, in flight before operation n, was put there by operation j and has
      been in flight, unacknowledged, since. */
  ghost predicate HandedOutBy(ops: seq<Op>, logs: seq<Log>, n: nat, e: Entry, j: nat)
    requires |logs| == |ops| + 1 && n <= |ops|
  {
    && j < n
    && ops[j] == Receive(e.handedOut)
    && Delivers(ops, logs, j, e.message)
    && !AckedBetween(ops, j, n, e.message.id)
    && forall i :: j < i <= n ==> e in logs[i].st.inFlight
  }

  lemma ScanMember(timeout: real, es: seq<Entry>, clocks: seq<real>, e: Entry)
    requires |clocks| == |es| && e in Survivors(timeout, es, clocks)
    ensures e in es
  {
    ExpiredAmong(timeout, es, clocks);
  }

  /** An entry in flight after a step was in flight before it and is not
      acknowledged by it, or the step handed it out. */
  lemma EntryComesFrom(timeout: real, log: Log, op: Op, e: Entry)
    requires Allowed(log, op) && Placed(log) && e in Next(timeout, log, op).st.inFlight
    ensures || (e in log.st.inFlight && !(op.Ack? && op.id == e.message.id))
            || (op == Receive(e.handedOut) && HandsOut(log.st, op) == Some(e.message))
  {
    match op {
      case Publish(_) =>
      case Receive(_) =>
        if log.st.queue != [] {
          QueuedNotInFlight(log, log.st.queue[0]);
        }
      case Ack(id, _) => WithoutMember(log.st.inFlight, id, e);
      case Requeue(clocks) => ScanMember(timeout, log.st.inFlight, clocks, e);
    }
  }

  lemma EntryComesFromAt(timeout: real, ops: seq<Op>, logs: seq<Log>, n: nat, e: Entry)
    requires Trace(timeout, ops, logs) && n < |ops| && e in logs[n + 1].st.inFlight
    ensures || (e in logs[n].st.inFlight && !(ops[n].Ack? && ops[n].id == e.message.id))
            || (ops[n] == Receive(e.handedOut) && HandsOut(logs[n].st, ops[n]) == Some(e.message))
  {
    assert StepAt(timeout, ops, logs, n);
    LogKeeps(timeout, ops, logs, n);
    EntryComesFrom(timeout, logs[n], ops[n], e);
  }

  lemma {:induction false} Provenance(timeout: real, ops: seq<Op>, logs: seq<Log>, n: nat, e: Entry)
    requires Trace(timeout, ops, logs) && n <= |ops| && e in logs[n].st.inFlight
    ensures exists j: nat :: HandedOutBy(ops, logs, n, e, j)
  {
    if n > 0 {
      var log, op := logs[n - 1], ops[n - 1];
      EntryComesFromAt(timeout, ops, logs, n - 1, e);
      if e in log.st.inFlight && !(op.Ack? && op.id == e.message.id) {
        Provenance(timeout, ops, logs, n - 1, e);
        var j: nat :| HandedOutBy(ops, logs, n - 1, e, j);
        assert HandedOutBy(ops, logs, n, e, j);
      } else {
        assert HandedOutBy(ops, logs, n, e, n - 1);
      }
    }
  }

  /** Acknowledgements name a message, not a delivery: a successful one retires
      the most recent delivery, whoever sends it. */
  lemma AckRetiresLatestDelivery(timeout: real, ops: seq<Op>, logs: seq<Log>, n: nat)
    requires Trace(timeout, ops, logs) && n < |ops|
    requires Retires(logs[n].st, ops[n]).Some?
    ensures
      var m := Retires(logs[n].st, ops[n]).value;
      exists j: nat :: && j < n && Delivers(ops, logs, j, m)
                  && (forall i: nat :: j < i < n ==> !Delivers(ops, logs, i, m))
                  && !AckedBetween(ops, j, n, m.id)
  {
    var log := logs[n];
    var e := log.st.inFlight[Find(log.st.inFlight, ops[n].id)];
    Provenance(timeout, ops, logs, n, e);
    var j: nat :| HandedOutBy(ops, logs, n, e, j);
    forall i: nat | j < i < n
      ensures !Delivers(ops, logs, i, e.message)
    {
      var st := logs[i].st;
      var k :| 0 <= k < |st.inFlight| && st.inFlight[k] == e;
      LogKeeps(timeout, ops, logs, i);
      InFlightPublished(logs[i], k);
    }
  }

  lemma {:induction false} ExpiredHasOverdue(timeout: real, es: seq<Entry>, clocks: seq<real>, k: nat)
    requires |clocks| == |es| && k < |es| && UniqueKeys(es)
    ensures es[k].message in ExpiredOf(timeout, es, clocks) <==> Overdue(timeout, es[k], clocks[k])
  {
    var m := |es| - 1;
    ExpiredAmong(timeout, es[..m], clocks[..m]);
    if k < m {
      ExpiredHasOverdue(timeout, es[..m], clocks[..m], k);
    }
  }

  /** A scan sends a delivery back to the queue exactly when the clock read for it
      is past its hand-out time plus the visibility timeout, and otherwise leaves
      it in flight. */
  lemma RequeuedIffOverdue(timeout: real, ops: seq<Op>, clocks: seq<real>, k: nat)
    requires ValidRun(timeout, ops) && |clocks| == |Exec(timeout, ops).st.inFlight| && k < |clocks|
    ensures
      var st := Exec(timeout, ops).st;
      var after := Apply(timeout, st, Requeue(clocks));
      var m := st.inFlight[k].message;
      if clocks[k] > st.inFlight[k].handedOut + timeout
      then m in after.queue && m !in Messages(after.inFlight)
      else m !in after.queue && m in Messages(after.inFlight)
  {
    RunKeeps(timeout, ops);
    var log := Exec(timeout, ops);
    var m := log.st.inFlight[k].message;
    var after := Next(timeout, log, Requeue(clocks));
    RequeueKeepsPlaces(timeout, log, Requeue(clocks));
    ExpiredHasOverdue(timeout, log.st.inFlight, clocks, k);
    InFlightPublished(log, k);
    ReverseHas(ExpiredOf(timeout, log.st.inFlight, clocks), m);
    OnePlace(log, after, m);
  }

  lemma ReverseHas(xs: seq<Message>, m: Message)
    ensures m in Reverse(xs) <==> m in xs
  {
    ReverseMultiset(xs);
    assert m in Reverse(xs) <==> m in multiset(Reverse(xs));
  }

  /** A message that was in flight and is not acknowledged since is in the queue
      or in flight, not both. */
  lemma OnePlace(before: Log, after: Log, m: Message)
    requires Placed(before) && Placed(after) && m in Messages(before.st.inFlight)
    requires after.published == before.published && after.acked == before.acked
    ensures m in after.st.queue <==> m !in Messages(after.st.inFlight)
  {
    assert m in multiset(Messages(before.st.inFlight));
    assert multiset(before.published)[m] >= 1;
    FreshMultiset(before.published, m);
    assert multiset(before.acked)[m] == 0;
    assert m in after.st.queue <==> m in multiset(after.st.queue);
    assert m in Messages(after.st.inFlight) <==> m in multiset(Messages(after.st.inFlight));
  }

  /* ---- A clock that never runs backwards ---- */

  /** The instants an operation is tied to: those it reads, or when it happens. */
  function Instants(op: Op): seq<real>
  {
    match op
    case Publish(_) => []
    case Receive(now) => [now]
    case Ack(_, at) => [at]
    case Requeue(clocks) => clocks
  }

  ghost predicate Monotone(ops: seq<Op>)
  {
    forall i, j, c, d :: 0 <= i < j < |ops| && c in Instants(ops[i]) && d in Instants(ops[j]) ==> c <= d
  }

  ghost predicate SortedByHandOut(es: seq<Entry>)
  {
    forall i, j :: 0 <= i < j < |es| ==> es[i].handedOut <= es[j].handedOut
  }

  lemma {:induction false} SurvivorsSorted(timeout: real, es: seq<Entry>, clocks: seq<real>)
    requires |clocks| == |es| && SortedByHandOut(es)
    ensures SortedByHandOut(Survivors(timeout, es, clocks))
  {
    if es != [] {
      var m := |es| - 1;
      SurvivorsSorted(timeout, es[..m], clocks[..m]);
      var kept := Survivors(timeout, es[..m], clocks[..m]);
      forall i | 0 <= i < |kept|
        ensures kept[i].handedOut <= es[m].handedOut
      {
        ScanMember(timeout, es[..m], clocks[..m], kept[i]);
      }
    }
  }

  lemma StepKeepsSorted(timeout: real, ops: seq<Op>, logs: seq<Log>, n: nat)
    requires Trace(timeout, ops, logs) && n < |ops| && SortedByHandOut(logs[n].st.inFlight)
    requires ops[n].Receive? ==> forall e :: e in logs[n].st.inFlight ==> e.handedOut <= ops[n].now
    ensures SortedByHandOut(logs[n + 1].st.inFlight)
  {
    var log, op := logs[n], ops[n];
    assert StepAt(timeout, ops, logs, n);
    LogKeeps(timeout, ops, logs, n);
    if op.Requeue? {
      SurvivorsSorted(timeout, log.st.inFlight, op.clocks);
    } else if op.Receive? && log.st.queue != [] {
      QueuedNotInFlight(log, log.st.queue[0]);
    }
  }

  /** Under a monotone clock the in-flight dict is sorted by hand-out time. */
  lemma {:induction false} InFlightSorted(timeout: real, ops: seq<Op>, logs: seq<Log>, n: nat)
    requires Trace(timeout, ops, logs) && Monotone(ops) && n <= |ops|
    ensures SortedByHandOut(logs[n].st.inFlight)
  {
    if n > 0 {
      var log, op := logs[n - 1], ops[n - 1];
      InFlightSorted(timeout, ops, logs, n - 1);
      if op.Receive? {
        forall e | e in log.st.inFlight
          ensures e.handedOut <= op.now
        {
          Provenance(timeout, ops, logs, n - 1, e);
          var j: nat :| HandedOutBy(ops, logs, n - 1, e, j);
          assert e.handedOut in Instants(ops[j]) && op.now in Instants(op);
        }
      }
      StepKeepsSorted(timeout, ops, logs, n - 1);
    }
  }

  lemma {:induction false} OverduePrefix(timeout: real, es: seq<Entry>, clock: real) returns (p: nat)
    requires SortedByHandOut(es)
    ensures p <= |es| && forall i :: 0 <= i < |es| ==> (Overdue(timeout, es[i], clock) <==> i < p)
  {
    if es == [] || Overdue(timeout, es[|es| - 1], clock) {
      p := |es|;
    } else {
      p := OverduePrefix(timeout, es[..|es| - 1], clock);
    }
  }

  lemma {:induction false} ScanOfPrefix(timeout: real, es: seq<Entry>, clocks: seq<real>, p: nat)
    requires |clocks| == |es| && p <= |es|
    requires forall i :: 0 <= i < |es| ==> (Overdue(timeout, es[i], clocks[i]) <==> i < p)
    ensures ExpiredOf(timeout, es, clocks) == Messages(es[..p])
    ensures Survivors(timeout, es, clocks) == es[p..]
  {
    if es != [] {
      var m := |es| - 1;
      var q := Min(p, m);
      assert es == es[..m] + [es[m]] && clocks == clocks[..m] + [clocks[m]];
      ScanSnoc(timeout, es[..m], clocks[..m], es[m], clocks[m]);
      ScanOfPrefix(timeout, es[..m], clocks[..m], q);
      PrefixSnoc(es, p);
    }
  }

  lemma PrefixSnoc(es: seq<Entry>, p: nat)
    requires es != [] && p <= |es|
    ensures
      var m := |es| - 1;
      var q := Min(p, m);
      && Messages(es[..p]) == Messages(es[..m][..q]) + (if p == |es| then [es[m].message] else [])
      && es[p..] == es[..m][q..] + (if p == |es| then [] else [es[m]])
  {
  }

  /** A requeue turned `st` into `after` by taking the first p entries: they are at
      the front of the queue, last handed out first, and the others stay. */
  ghost predicate TakesPrefix(st: State, after: State, p: nat)
    requires p <= |st.inFlight|
  {
    && after.inFlight == st.inFlight[p..]
    && |after.queue| == p + |st.queue|
    && after.queue[p..] == st.queue
    && forall i :: 0 <= i < p ==> after.queue[i] == st.inFlight[p - 1 - i].message
  }

  lemma ReversedIsTaken(st: State, p: nat)
    requires p <= |st.inFlight|
    ensures TakesPrefix(st, State(Reverse(Messages(st.inFlight[..p])) + st.queue, st.inFlight[p..]), p)
  {
    forall i | 0 <= i < p
      ensures Reverse(Messages(st.inFlight[..p]))[i] == st.inFlight[p - 1 - i].message
    {
      ReverseAt(Messages(st.inFlight[..p]), i);
    }
  }

  /** The same clock reading for each of n entries. */
  function OneReading(n: nat, clock: real): (clocks: seq<real>)
    ensures |clocks| == n && forall i :: 0 <= i < n ==> clocks[i] == clock
  {
    seq(n, _ => clock)
  }

  lemma ScanTakesPrefix(timeout: real, st: State, clock: real, p: nat)
    requires p <= |st.inFlight|
    requires forall i :: 0 <= i < |st.inFlight| ==> (Overdue(timeout, st.inFlight[i], clock) <==> i < p)
    ensures TakesPrefix(st, Apply(timeout, st, Requeue(OneReading(|st.inFlight|, clock))), p)
  {
    ScanOfPrefix(timeout, st.inFlight, OneReading(|st.inFlight|, clock), p);
    ReversedIsTaken(st, p);
  }

  /** Under a monotone clock a scan with one reading takes exactly a prefix of the
      in-flight dict: the longest-outstanding deliveries, newest of them first in
      the queue. */
  lemma OneReadingTakesAPrefix(timeout: real, ops: seq<Op>, clock: real) returns (p: nat)
    requires ValidRun(timeout, ops) && Monotone(ops)
    ensures
      var st := Exec(timeout, ops).st;
      && p <= |st.inFlight|
      && (forall i :: 0 <= i < |st.inFlight| ==> (Overdue(timeout, st.inFlight[i], clock) <==> i < p))
      && TakesPrefix(st, Apply(timeout, st, Requeue(OneReading(|st.inFlight|, clock))), p)
  {
    var logs := TraceOf(timeout, ops);
    InFlightSorted(timeout, ops, logs, |ops|);
    var st := Exec(timeout, ops).st;
    p := OverduePrefix(timeout, st.inFlight, clock);
    ScanTakesPrefix(timeout, st, clock, p);
  }

  /* ---- Timely acknowledgement gives exactly-once ---- */

  /** Every delivery is acknowledged no later than its hand-out time plus the
      visibility timeout, unless the run ends before that instant has passed. */
  ghost predicate AckedInTime(timeout: real, ops: seq<Op>, logs: seq<Log>)
    requires |logs| == |ops| + 1
  {
    forall i: nat, m :: Delivers(ops, logs, i, m) ==>
      || (exists a :: i < a < |ops| && ops[a].Ack? && ops[a].id == m.id && ops[a].at <= ops[i].now + timeout)
      || (forall j, c :: i < j < |ops| && c in Instants(ops[j]) ==> c <= ops[i].now + timeout)
  }

  /** Consumers acknowledge only what they were handed, once per delivery. */
  ghost predicate AcksAnswerDeliveries(timeout: real, ops: seq<Op>, logs: seq<Log>)
    requires |logs| == |ops| + 1
  {
    forall a :: 0 <= a < |ops| && ops[a].Ack? ==>
      exists i: nat, m :: i < a && Delivers(ops, logs, i, m) && m.id == ops[a].id && !AckedBetween(ops, i, a, m.id)
  }

  lemma {:induction false} NothingExpired(timeout: real, es: seq<Entry>, clocks: seq<real>)
    requires |clocks| == |es|
    ensures ExpiredOf(timeout, es, clocks) == [] ==> Survivors(timeout, es, clocks) == es
    ensures (forall i :: 0 <= i < |es| ==> !Overdue(timeout, es[i], clocks[i])) ==> ExpiredOf(timeout, es, clocks) == []
  {
    if es != [] {
      NothingExpired(timeout, es[..|es| - 1], clocks[..|es| - 1]);
    }
  }

  /** When a scan reads its k-th clock, the k-th entry is not overdue. */
  lemma NotOverdue(timeout: real, ops: seq<Op>, logs: seq<Log>, n: nat, k: nat)
    requires Trace(timeout, ops, logs) && Monotone(ops) && AckedInTime(timeout, ops, logs)
    requires n < |ops| && ops[n].Requeue? && Allowed(logs[n], ops[n])
    requires k < |ops[n].clocks|
    ensures !Overdue(timeout, logs[n].st.inFlight[k], ops[n].clocks[k])
  {
    var e, c := logs[n].st.inFlight[k], ops[n].clocks[k];
    Provenance(timeout, ops, logs, n, e);
    var j: nat :| HandedOutBy(ops, logs, n, e, j);
    assert c in Instants(ops[n]);
    if a :| j < a < |ops| && ops[a].Ack? && ops[a].id == e.message.id && ops[a].at <= ops[j].now + timeout {
      assert a > n;
      assert ops[a].at in Instants(ops[a]);
    }
  }

  lemma QuietStep(timeout: real, ops: seq<Op>, logs: seq<Log>, n: nat)
    requires Trace(timeout, ops, logs) && Monotone(ops) && AckedInTime(timeout, ops, logs) && n < |ops|
    ensures logs[n + 1].requeued == logs[n].requeued
  {
    assert StepAt(timeout, ops, logs, n);
    if ops[n].Requeue? {
      forall k | 0 <= k < |ops[n].clocks|
        ensures !Overdue(timeout, logs[n].st.inFlight[k], ops[n].clocks[k])
      {
        NotOverdue(timeout, ops, logs, n, k);
      }
      NothingExpired(timeout, logs[n].st.inFlight, ops[n].clocks);
    }
  }

  lemma {:induction false} NothingRequeued(timeout: real, ops: seq<Op>, logs: seq<Log>, n: nat)
    requires Trace(timeout, ops, logs) && Monotone(ops) && AckedInTime(timeout, ops, logs) && n <= |ops|
    ensures logs[n].requeued == []
  {
    if n > 0 {
      NothingRequeued(timeout, ops, logs, n - 1);
      QuietStep(timeout, ops, logs, n - 1);
    }
  }

  lemma EntryStays(timeout: real, log: Log, op: Op, e: Entry)
    requires Allowed(log, op) && Placed(log) && e in log.st.inFlight
    requires !(op.Ack? && op.id == e.message.id)
    requires op.Requeue? ==> Next(timeout, log, op).requeued == []
    ensures e in Next(timeout, log, op).st.inFlight
  {
    match op {
      case Publish(_) =>
      case Receive(_) =>
        if log.st.queue != [] {
          QueuedNotInFlight(log, log.st.queue[0]);
        }
      case Ack(id, _) => WithoutMember(log.st.inFlight, id, e);
      case Requeue(clocks) => NothingExpired(timeout, log.st.inFlight, clocks);
    }
  }

  ghost predicate Flying(log: Log, m: Message)
  {
    exists e :: e in log.st.inFlight && e.message == m
  }

  lemma HandOutEnters(timeout: real, ops: seq<Op>, logs: seq<Log>, n: nat, m: Message)
    requires Trace(timeout, ops, logs) && Delivers(ops, logs, n, m)
    ensures Flying(logs[n + 1], m)
  {
    assert StepAt(timeout, ops, logs, n);
    LogKeeps(timeout, ops, logs, n);
    QueuedNotInFlight(logs[n], m);
    assert Entry(m, ops[n].now) in logs[n + 1].st.inFlight;
  }

  lemma MessageStays(timeout: real, ops: seq<Op>, logs: seq<Log>, n: nat, m: Message)
    requires Trace(timeout, ops, logs) && n < |ops| && Flying(logs[n], m)
    requires !(ops[n].Ack? && ops[n].id == m.id)
    requires logs[n + 1].requeued == []
    ensures Flying(logs[n + 1], m)
  {
    assert StepAt(timeout, ops, logs, n);
    LogKeeps(timeout, ops, logs, n);
    var e :| e in logs[n].st.inFlight && e.message == m;
    EntryStays(timeout, logs[n], ops[n], e);
  }

  lemma {:induction false} RequeuedGrows(timeout: real, ops: seq<Op>, logs: seq<Log>, i: nat, n: nat)
    requires Trace(timeout, ops, logs) && i <= n <= |ops| && logs[n].requeued == []
    ensures logs[i].requeued == []
    decreases n
  {
    if i < n {
      assert StepAt(timeout, ops, logs, n - 1);
      RequeuedGrows(timeout, ops, logs, i, n - 1);
    }
  }

  /** A delivery stays in flight until it is acknowledged or requeued. */
  lemma {:induction false} StaysInFlight(timeout: real, ops: seq<Op>, logs: seq<Log>, i: nat, m: Message, n: nat)
    requires Trace(timeout, ops, logs) && i < n <= |ops| && Delivers(ops, logs, i, m)
    requires !AckedBetween(ops, i, n, m.id)
    requires logs[n].requeued == []
    ensures Flying(logs[n], m)
  {
    if n - 1 == i {
      HandOutEnters(timeout, ops, logs, i, m);
    } else {
      assert !AckedBetween(ops, i, n - 1, m.id);
      RequeuedGrows(timeout, ops, logs, n - 1, n);
      StaysInFlight(timeout, ops, logs, i, m, n - 1);
      MessageStays(timeout, ops, logs, n - 1, m);
    }
  }

  lemma AckSucceeds(timeout: real, ops: seq<Op>, logs: seq<Log>, a: nat)
    requires Trace(timeout, ops, logs) && AcksAnswerDeliveries(timeout, ops, logs)
    requires a < |ops| && ops[a].Ack? && logs[a].requeued == []
    ensures Retires(logs[a].st, ops[a]).Some?
  {
    var i: nat, m :| i < a && Delivers(ops, logs, i, m) && m.id == ops[a].id && !AckedBetween(ops, i, a, m.id);
    StaysInFlight(timeout, ops, logs, i, m, a);
    var e :| e in logs[a].st.inFlight && e.message == m;
  }

  /** With a clock that never runs backwards and timely acknowledgements, nothing
      is ever requeued, no message is delivered twice and no acknowledgement
      fails, wherever the scans fall. */
  lemma TimelyAcksGiveExactlyOnce(timeout: real, ops: seq<Op>, logs: seq<Log>)
    requires Trace(timeout, ops, logs) && Monotone(ops)
    requires AckedInTime(timeout, ops, logs) && AcksAnswerDeliveries(timeout, ops, logs)
    ensures logs[|ops|].requeued == []
    ensures forall m :: multiset(logs[|ops|].delivered)[m] <= 1
    ensures forall a :: 0 <= a < |ops| && ops[a].Ack? ==> Retires(logs[a].st, ops[a]).Some?
  {
    NothingRequeued(timeout, ops, logs, |ops|);
    TraceIsRun(timeout, ops, logs);
    forall m
      ensures multiset(logs[|ops|].delivered)[m] <= 1
    {
      DeliveryAccounting(timeout, ops, m);
    }
    forall a | 0 <= a < |ops| && ops[a].Ack?
      ensures Retires(logs[a].st, ops[a]).Some?
    {
      NothingRequeued(timeout, ops, logs, a);
      AckSucceeds(timeout, ops, logs, a);
    }
  }
}
