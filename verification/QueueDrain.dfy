/** Draining: after publishing stops, how often messages can still be received
    and why the queue ends empty. */
module QueueDrain {
  import opened Prelude
  import opened MessageQueue
  import opened QueueRuns
  import opened QueueTiming

  /** The suffix of the run from operation p on publishes nothing. */
  ghost predicate QuietFrom(ops: seq<Op>, p: nat)
  {
    forall i :: p <= i < |ops| ==> !ops[i].Publish?
  }

  function Outstanding(log: Log): nat { |log.st.queue| + |log.st.inFlight| }

  /** What the histories lose or gain in one step. */
  lemma HistoriesGrow(timeout: real, ops: seq<Op>, logs: seq<Log>, n: nat)
    requires Trace(timeout, ops, logs) && n < |ops|
    ensures multiset(logs[n].requeued) <= multiset(logs[n + 1].requeued)
    ensures multiset(logs[n].acked) <= multiset(logs[n + 1].acked)
    ensures !ops[n].Publish? ==> logs[n + 1].published == logs[n].published
  {
    assert StepAt(timeout, ops, logs, n);
  }

  lemma {:induction false} HistoriesGrowFrom(timeout: real, ops: seq<Op>, logs: seq<Log>, p: nat, n: nat)
    requires Trace(timeout, ops, logs) && p <= n <= |ops| && QuietFrom(ops, p)
    ensures multiset(logs[p].requeued) <= multiset(logs[n].requeued)
    ensures multiset(logs[p].acked) <= multiset(logs[n].acked)
    ensures logs[n].published == logs[p].published
    decreases n
  {
    if p < n {
      HistoriesGrowFrom(timeout, ops, logs, p, n - 1);
      HistoriesGrow(timeout, ops, logs, n - 1);
    }
  }

  lemma Sizes(log: Log)
    requires Placed(log) && Accounted(log)
    ensures |log.published| == Outstanding(log) + |log.acked|
    ensures |log.delivered| == |log.requeued| + |log.acked| + |log.st.inFlight|
  {
    assert |log.published| == |multiset(log.published)|;
    assert |log.delivered| == |multiset(log.delivered)|;
  }

  /** Once publishing has stopped, receives are exactly what leaves the queue plus
      what came back to it. */
  lemma ReceivesConserved(timeout: real, ops: seq<Op>, logs: seq<Log>, p: nat, n: nat)
    requires Trace(timeout, ops, logs) && p <= n <= |ops| && QuietFrom(ops, p)
    ensures |logs[n].delivered| - |logs[p].delivered|
         == |logs[p].st.queue| - |logs[n].st.queue| + |logs[n].requeued| - |logs[p].requeued|
  {
    HistoriesGrowFrom(timeout, ops, logs, p, n);
    LogKeeps(timeout, ops, logs, p);
    LogKeeps(timeout, ops, logs, n);
    Sizes(logs[p]);
    Sizes(logs[n]);
  }

  lemma {:induction false} BoundedMultiset(x: multiset<Message>, s: set<Message>, c: nat)
    requires forall m :: m in x ==> m in s && x[m] <= c
    ensures |x| <= c * |s|
    decreases s
  {
    if s == {} {
      assert x == multiset{};
    } else {
      var m :| m in s;
      BoundedMultiset(x[m := 0], s - {m}, c);
      assert |x| == |x[m := 0]| + x[m];
      assert c * |s| == c * |s - {m}| + c;
    }
  }

  ghost function Unfinished(log: Log): set<Message>
  {
    (set m | m in log.st.queue) + (set m | m in Messages(log.st.inFlight))
  }

  lemma {:induction false} SetOfSeq<T>(xs: seq<T>)
    ensures |set x | x in xs| <= |xs|
  {
    if xs != [] {
      SetOfSeq(xs[1..]);
      assert (set x | x in xs) == {xs[0]} + set x | x in xs[1..];
    }
  }

  lemma UnfinishedSize(log: Log)
    ensures |Unfinished(log)| <= Outstanding(log)
  {
    SetOfSeq(log.st.queue);
    SetOfSeq(Messages(log.st.inFlight));
  }

  lemma ExpiredUnfinished(timeout: real, ops: seq<Op>, logs: seq<Log>, p: nat, n: nat, m: Message)
    requires Trace(timeout, ops, logs) && p <= n <= |ops| && QuietFrom(ops, p)
    requires m in Messages(logs[n].st.inFlight)
    ensures m in Unfinished(logs[p])
  {
    HistoriesGrowFrom(timeout, ops, logs, p, n);
    LogKeeps(timeout, ops, logs, p);
    LogKeeps(timeout, ops, logs, n);
    var i :| 0 <= i < |logs[n].st.inFlight| && Messages(logs[n].st.inFlight)[i] == m;
    FreshMultiset(logs[n].published, m);
    assert m in multiset(Messages(logs[n].st.inFlight));
    assert multiset(logs[p].acked)[m] == 0;
    assert multiset(logs[p].published)[m] == 1;
    assert m in multiset(logs[p].st.queue) || m in multiset(Messages(logs[p].st.inFlight));
  }

  /** What a step adds to the requeue history was in flight. */
  lemma RequeuedStep(timeout: real, ops: seq<Op>, logs: seq<Log>, n: nat, m: Message)
    requires Trace(timeout, ops, logs) && n < |ops|
    requires multiset(logs[n + 1].requeued)[m] > multiset(logs[n].requeued)[m]
    ensures m in Messages(logs[n].st.inFlight)
  {
    assert StepAt(timeout, ops, logs, n);
    if ops[n].Requeue? {
      var expired := ExpiredOf(timeout, logs[n].st.inFlight, ops[n].clocks);
      assert m in multiset(expired);
      ExpiredAmong(timeout, logs[n].st.inFlight, ops[n].clocks);
    }
  }

  lemma {:induction false} RequeuedUnfinished(timeout: real, ops: seq<Op>, logs: seq<Log>, p: nat, n: nat, m: Message)
    requires Trace(timeout, ops, logs) && p <= n <= |ops| && QuietFrom(ops, p)
    requires multiset(logs[n].requeued)[m] > multiset(logs[p].requeued)[m]
    ensures m in Unfinished(logs[p])
    decreases n
  {
    if multiset(logs[n - 1].requeued)[m] > multiset(logs[p].requeued)[m] {
      RequeuedUnfinished(timeout, ops, logs, p, n - 1, m);
    } else {
      RequeuedStep(timeout, ops, logs, n - 1, m);
      ExpiredUnfinished(timeout, ops, logs, p, n - 1, m);
    }
  }

  /** No message is abandoned more than c times from operation p on. */
  ghost predicate AbandonedAtMost(logs: seq<Log>, p: nat, n: nat, c: nat)
    requires p <= n < |logs|
  {
    forall m :: multiset(logs[n].requeued)[m] - multiset(logs[p].requeued)[m] <= c
  }

  lemma ExcessBounded(a: multiset<Message>, b: multiset<Message>, s: set<Message>, c: nat)
    requires a <= b
    requires forall m :: b[m] - a[m] <= c && (b[m] > a[m] ==> m in s)
    ensures |b| - |a| <= c * |s|
  {
    assert b == a + (b - a) && |b| == |a| + |b - a|;
    BoundedMultiset(b - a, s, c);
  }

  lemma RequeuesBounded(timeout: real, ops: seq<Op>, logs: seq<Log>, p: nat, n: nat, c: nat)
    requires Trace(timeout, ops, logs) && p <= n <= |ops| && QuietFrom(ops, p)
    requires AbandonedAtMost(logs, p, n, c)
    ensures |logs[n].requeued| - |logs[p].requeued| <= c * Outstanding(logs[p])
  {
    HistoriesGrowFrom(timeout, ops, logs, p, n);
    var a, b, s := multiset(logs[p].requeued), multiset(logs[n].requeued), Unfinished(logs[p]);
    forall m | b[m] > a[m]
      ensures m in s
    {
      RequeuedUnfinished(timeout, ops, logs, p, n, m);
    }
    ExcessBounded(a, b, s, c);
    UnfinishedSize(logs[p]);
    ScaleUp(c, |s|, Outstanding(logs[p]));
  }

  lemma ScaleUp(c: nat, x: nat, y: nat)
    requires x <= y
    ensures c * x <= c * y
  {
  }

  /** Once publishing has stopped with M messages outstanding and none of them is
      abandoned more than c more times, at most (c + 1) * M receives succeed. */
  lemma DrainBound(timeout: real, ops: seq<Op>, logs: seq<Log>, p: nat, n: nat, c: nat)
    requires Trace(timeout, ops, logs) && p <= n <= |ops| && QuietFrom(ops, p)
    requires AbandonedAtMost(logs, p, n, c)
    ensures |logs[n].delivered| - |logs[p].delivered| <= (c + 1) * Outstanding(logs[p])
  {
    ReceivesConserved(timeout, ops, logs, p, n);
    RequeuesBounded(timeout, ops, logs, p, n, c);
    assert (c + 1) * Outstanding(logs[p]) == c * Outstanding(logs[p]) + Outstanding(logs[p]);
  }

  /* ---- The run ends with nothing left ---- */

  /** The operation moves a message. */
  predicate Effective(timeout: real, st: State, op: Op)
    requires Clocked(st, op)
  {
    || HandsOut(st, op).Some?
    || Retires(st, op).Some?
    || (op.Requeue? && ExpiredOf(timeout, st.inFlight, op.clocks) != [])
  }

  /** Work left when `budget` requeues are still to come. */
  function Work(st: State, budget: int): int
  {
    2 * |st.queue| + |st.inFlight| + 2 * budget
  }

  lemma ScanSizes(timeout: real, es: seq<Entry>, clocks: seq<real>)
    requires |clocks| == |es|
    ensures |es| == |ExpiredOf(timeout, es, clocks)| + |Survivors(timeout, es, clocks)|
  {
    ScanSplits(timeout, es, clocks);
    var a, b := ExpiredOf(timeout, es, clocks), Messages(Survivors(timeout, es, clocks));
    assert |multiset(Messages(es))| == |multiset(a)| + |multiset(b)|;
  }

  /** Every step that moves a message uses up work; the others leave it alone. */
  lemma WorkDecreases(timeout: real, ops: seq<Op>, logs: seq<Log>, n: nat, total: int)
    requires Trace(timeout, ops, logs) && n < |ops| && !ops[n].Publish?
    ensures
      var before := Work(logs[n].st, total - |logs[n].requeued|);
      var after := Work(logs[n + 1].st, total - |logs[n + 1].requeued|);
      && Clocked(logs[n].st, ops[n])
      && (if Effective(timeout, logs[n].st, ops[n]) then after < before else after == before)
  {
    assert StepAt(timeout, ops, logs, n);
    LogKeeps(timeout, ops, logs, n);
    var st := logs[n].st;
    match ops[n] {
      case Receive(_) =>
        if st.queue != [] {
          QueuedNotInFlight(logs[n], st.queue[0]);
        }
      case Ack(_, _) =>
      case Requeue(clocks) =>
        ScanSizes(timeout, st.inFlight, clocks);
    }
  }

  /** The number of steps in [p, n) that move a message. */
  ghost function Moves(timeout: real, ops: seq<Op>, logs: seq<Log>, p: nat, n: nat): nat
    requires Trace(timeout, ops, logs) && p <= n <= |ops|
    decreases n
  {
    if n == p then 0 else
      assert StepAt(timeout, ops, logs, n - 1);
      Moves(timeout, ops, logs, p, n - 1) + if Effective(timeout, logs[n - 1].st, ops[n - 1]) then 1 else 0
  }

  lemma {:induction false} MovesUseWork(timeout: real, ops: seq<Op>, logs: seq<Log>, p: nat, n: nat, total: int)
    requires Trace(timeout, ops, logs) && p <= n <= |ops| && QuietFrom(ops, p)
    ensures Moves(timeout, ops, logs, p, n) + Work(logs[n].st, total - |logs[n].requeued|)
         <= Work(logs[p].st, total - |logs[p].requeued|)
    decreases n
  {
    if p < n {
      MovesUseWork(timeout, ops, logs, p, n - 1, total);
      WorkDecreases(timeout, ops, logs, n - 1, total);
    }
  }

  /** With at most c abandonments per message, only 2 * (c + 1) * M steps of the
      rest of the run can move a message. */
  lemma DrainTerminates(timeout: real, ops: seq<Op>, logs: seq<Log>, p: nat, n: nat, c: nat)
    requires Trace(timeout, ops, logs) && p <= n <= |ops| && QuietFrom(ops, p)
    requires AbandonedAtMost(logs, p, n, c)
    ensures Moves(timeout, ops, logs, p, n) <= 2 * ((c + 1) * Outstanding(logs[p]))
  {
    MovesUseWork(timeout, ops, logs, p, n, |logs[n].requeued|);
    RequeuesBounded(timeout, ops, logs, p, n, c);
    assert (c + 1) * Outstanding(logs[p]) == c * Outstanding(logs[p]) + Outstanding(logs[p]);
  }

  const DRAINED := State([], [])

  /** Whatever is left, some receive or acknowledgement can move it. */
  lemma SomethingMoves(timeout: real, st: State)
    ensures st == DRAINED <==> forall op :: Clocked(st, op) ==> !Effective(timeout, st, op)
    ensures st != DRAINED <==> exists op: Op :: !op.Requeue? && Clocked(st, op) && Effective(timeout, st, op)
  {
    if st.queue != [] {
      assert Effective(timeout, st, Receive(0.0));
    } else if st.inFlight != [] {
      assert Effective(timeout, st, Ack(st.inFlight[0].message.id, 0.0));
    }
  }

  /** Operation n moves a message, or nothing is left to move. */
  ghost predicate BusyAt(timeout: real, ops: seq<Op>, logs: seq<Log>, n: nat)
    requires Trace(timeout, ops, logs) && n < |ops|
  {
    assert StepAt(timeout, ops, logs, n);
    Effective(timeout, logs[n].st, ops[n]) || logs[n].st == DRAINED
  }

  ghost predicate Busy(timeout: real, ops: seq<Op>, logs: seq<Log>, p: nat, n: nat)
    requires Trace(timeout, ops, logs) && p <= n <= |ops|
  {
    forall i: nat :: p <= i < n ==> BusyAt(timeout, ops, logs, i)
  }

  lemma DrainedStays(timeout: real, ops: seq<Op>, logs: seq<Log>, n: nat)
    requires Trace(timeout, ops, logs) && n < |ops| && !ops[n].Publish? && logs[n].st == DRAINED
    ensures logs[n + 1].st == DRAINED
  {
    assert StepAt(timeout, ops, logs, n);
  }

  /** A busy run moves a message at every step until nothing is left. */
  lemma {:induction false} BusyMovesOrDrained(timeout: real, ops: seq<Op>, logs: seq<Log>, p: nat, n: nat)
    requires Trace(timeout, ops, logs) && p <= n <= |ops| && QuietFrom(ops, p) && Busy(timeout, ops, logs, p, n)
    ensures logs[n].st == DRAINED || Moves(timeout, ops, logs, p, n) == n - p
    decreases n
  {
    if p < n {
      assert Busy(timeout, ops, logs, p, n - 1) && BusyAt(timeout, ops, logs, n - 1);
      BusyMovesOrDrained(timeout, ops, logs, p, n - 1);
      if logs[n - 1].st == DRAINED {
        DrainedStays(timeout, ops, logs, n - 1);
      }
    }
  }

  lemma NoWorkIsDrained(st: State, budget: int)
    requires Work(st, budget) <= 2 * budget
    ensures st == DRAINED
  {
    assert |st.queue| == 0 && |st.inFlight| == 0;
  }

  /** Once publishing has stopped with M messages outstanding and none of them is
      abandoned more than c more times, a run that keeps moving messages while it
      can has emptied the queue and the in-flight dict after 2 * (c + 1) * M
      operations. */
  lemma DrainEndsEmpty(timeout: real, ops: seq<Op>, logs: seq<Log>, p: nat, n: nat, c: nat)
    requires Trace(timeout, ops, logs) && p <= n <= |ops| && QuietFrom(ops, p)
    requires AbandonedAtMost(logs, p, n, c) && Busy(timeout, ops, logs, p, n)
    requires n - p >= 2 * ((c + 1) * Outstanding(logs[p]))
    ensures logs[n].st == DRAINED
  {
    var total, left := |logs[n].requeued|, Outstanding(logs[p]);
    BusyMovesOrDrained(timeout, ops, logs, p, n);
    if logs[n].st != DRAINED {
      MovesUseWork(timeout, ops, logs, p, n, total);
      RequeuesBounded(timeout, ops, logs, p, n, c);
      assert (c + 1) * left == c * left + left;
      NoWorkIsDrained(logs[n].st, 0);
    }
  }

  /* ---- What an emptied queue says about the acknowledgements ---- */

  /** The last delivery of m before operation n, made by i, was retired by a. */
  ghost predicate AckedLast(ops: seq<Op>, logs: seq<Log>, n: nat, m: Message, i: nat, a: nat)
    requires |logs| == |ops| + 1 && n <= |ops|
  {
    && i < a < n && Delivers(ops, logs, i, m) && Retires(logs[a].st, ops[a]) == Some(m)
    && forall j: nat :: i < j < n ==> !Delivers(ops, logs, j, m)
  }

  ghost predicate LastDeliveryAcked(ops: seq<Op>, logs: seq<Log>, n: nat, m: Message)
    requires |logs| == |ops| + 1 && n <= |ops|
  {
    exists i: nat, a: nat :: AckedLast(ops, logs, n, m, i, a)
  }

  lemma {:induction false} AckedByWhom(timeout: real, ops: seq<Op>, logs: seq<Log>, n: nat, m: Message) returns (a: nat)
    requires Trace(timeout, ops, logs) && n <= |ops| && m in logs[n].acked
    ensures a < n && Retires(logs[a].st, ops[a]) == Some(m) && m in logs[a + 1].acked
    decreases n
  {
    assert n > 0 && StepAt(timeout, ops, logs, n - 1);
    if Retires(logs[n - 1].st, ops[n - 1]) == Some(m) {
      a := n - 1;
    } else {
      a := AckedByWhom(timeout, ops, logs, n - 1, m);
    }
  }

  lemma {:induction false} AckedStays(timeout: real, ops: seq<Op>, logs: seq<Log>, a: nat, n: nat, m: Message)
    requires Trace(timeout, ops, logs) && a <= n <= |ops| && m in logs[a].acked
    ensures m in logs[n].acked
    decreases n
  {
    if a < n {
      AckedStays(timeout, ops, logs, a, n - 1, m);
      assert StepAt(timeout, ops, logs, n - 1);
    }
  }

  /** An acknowledged message is not handed out any more. */
  lemma AckedNotDelivered(timeout: real, ops: seq<Op>, logs: seq<Log>, a: nat, j: nat, m: Message)
    requires Trace(timeout, ops, logs) && a <= j < |ops| && m in logs[a].acked
    ensures !Delivers(ops, logs, j, m)
  {
    AckedStays(timeout, ops, logs, a, j, m);
    LogKeeps(timeout, ops, logs, j);
    if Delivers(ops, logs, j, m) {
      QueuedNotInFlight(logs[j], m);
    }
  }

  /** A message is acknowledged exactly when its last delivery was. */
  lemma AckedIffLastDeliveryAcked(timeout: real, ops: seq<Op>, logs: seq<Log>, n: nat, m: Message)
    requires Trace(timeout, ops, logs) && n <= |ops|
    ensures m in logs[n].acked <==> LastDeliveryAcked(ops, logs, n, m)
  {
    if m in logs[n].acked {
      var a := AckedByWhom(timeout, ops, logs, n, m);
      AckRetiresLatestDelivery(timeout, ops, logs, a);
      var i: nat :| i < a && Delivers(ops, logs, i, m) && forall j: nat :: i < j < a ==> !Delivers(ops, logs, j, m);
      forall j: nat | i < j < n
        ensures !Delivers(ops, logs, j, m)
      {
        if j > a {
          AckedNotDelivered(timeout, ops, logs, a + 1, j, m);
        }
      }
      assert AckedLast(ops, logs, n, m, i, a);
    } else if LastDeliveryAcked(ops, logs, n, m) {
      var i: nat, a: nat :| AckedLast(ops, logs, n, m, i, a);
      assert StepAt(timeout, ops, logs, a);
      AckedStays(timeout, ops, logs, a + 1, n, m);
    }
  }

  lemma DrainedIffAllAcked(log: Log)
    requires Placed(log)
    ensures log.st == DRAINED <==> forall m :: m in log.published ==> m in log.acked
  {
    var queued, flying := multiset(log.st.queue), multiset(Messages(log.st.inFlight));
    if log.st == DRAINED {
      assert multiset(log.published) == multiset(log.acked);
      assert forall m :: m in log.published ==> m in multiset(log.acked);
    } else {
      var m := if log.st.queue != [] then log.st.queue[0] else log.st.inFlight[0].message;
      assert m in queued || m in flying by {
        assert log.st.queue == [] ==> Messages(log.st.inFlight)[0] == m;
      }
      FreshMultiset(log.published, m);
      assert m in multiset(log.published) && m in log.published;
      assert multiset(log.acked)[m] == 0;
      assert m !in log.acked;
    }
  }

  /** Nothing is left in the queue or in flight exactly when every published
      message has been delivered and its last delivery acknowledged. */
  lemma DrainedIffLastDeliveriesAcked(timeout: real, ops: seq<Op>, logs: seq<Log>, n: nat)
    requires Trace(timeout, ops, logs) && n <= |ops|
    ensures logs[n].st == DRAINED <==> forall m :: m in logs[n].published ==> LastDeliveryAcked(ops, logs, n, m)
  {
    LogKeeps(timeout, ops, logs, n);
    DrainedIffAllAcked(logs[n]);
    forall m
      ensures m in logs[n].acked <==> LastDeliveryAcked(ops, logs, n, m)
    {
      AckedIffLastDeliveryAcked(timeout, ops, logs, n, m);
    }
  }
}
