/** Acknowledgements carry a message id and no receipt: when does one retire the
    delivery it answers, and when somebody else's? */
module QueueReceipts {
  import opened Prelude
  import opened MessageQueue
  import opened QueueRuns
  import opened QueueTiming
  import Drain = QueueDrain

  /** Scan n reads, for the delivery made by operation i, a clock more than the
      timeout past its hand-out. */
  ghost predicate OverdueAt(timeout: real, ops: seq<Op>, logs: seq<Log>, i: nat, m: Message, n: nat)
    requires |logs| == |ops| + 1 && i < |ops| && ops[i].Receive?
  {
    && n < |ops| && ops[n].Requeue? && |ops[n].clocks| == |logs[n].st.inFlight|
    && exists k :: && 0 <= k < |ops[n].clocks| && logs[n].st.inFlight[k] == Entry(m, ops[i].now)
                   && Overdue(timeout, Entry(m, ops[i].now), ops[n].clocks[k])
  }

  ghost predicate OverdueBetween(timeout: real, ops: seq<Op>, logs: seq<Log>, i: nat, m: Message, a: nat)
    requires |logs| == |ops| + 1 && i < |ops| && ops[i].Receive?
  {
    exists n: nat :: i < n < a && OverdueAt(timeout, ops, logs, i, m, n)
  }

  ghost predicate DeliveredBetween(ops: seq<Op>, logs: seq<Log>, i: nat, m: Message, a: nat)
    requires |logs| == |ops| + 1
  {
    exists j: nat :: i < j < a && Delivers(ops, logs, j, m)
  }

  lemma {:induction false} SurvivesUnlessOverdue(timeout: real, es: seq<Entry>, clocks: seq<real>, k: nat)
    requires |clocks| == |es| && k < |es| && !Overdue(timeout, es[k], clocks[k])
    ensures es[k] in Survivors(timeout, es, clocks)
  {
    if k < |es| - 1 {
      SurvivesUnlessOverdue(timeout, es[..|es| - 1], clocks[..|es| - 1], k);
    }
  }

  /** An entry leaves the dict only by an acknowledgement or an overdue reading. */
  lemma EntryStaysUnlessOverdue(timeout: real, log: Log, op: Op, e: Entry, k: nat)
    requires Allowed(log, op) && Placed(log) && k < |log.st.inFlight| && log.st.inFlight[k] == e
    requires !(op.Ack? && op.id == e.message.id)
    requires op.Requeue? ==> !Overdue(timeout, e, op.clocks[k])
    ensures e in Next(timeout, log, op).st.inFlight
  {
    if op.Requeue? {
      SurvivesUnlessOverdue(timeout, log.st.inFlight, op.clocks, k);
    } else {
      EntryStays(timeout, log, op, e);
    }
  }

  lemma StillThere(timeout: real, ops: seq<Op>, logs: seq<Log>, i: nat, m: Message, n: nat)
    requires Trace(timeout, ops, logs) && i < n < |ops| && ops[i].Receive?
    requires Entry(m, ops[i].now) in logs[n].st.inFlight
    requires !(ops[n].Ack? && ops[n].id == m.id) && !OverdueAt(timeout, ops, logs, i, m, n)
    ensures Entry(m, ops[i].now) in logs[n + 1].st.inFlight
  {
    assert StepAt(timeout, ops, logs, n);
    LogKeeps(timeout, ops, logs, n);
    var e := Entry(m, ops[i].now);
    var k :| 0 <= k < |logs[n].st.inFlight| && logs[n].st.inFlight[k] == e;
    EntryStaysUnlessOverdue(timeout, logs[n], ops[n], e, k);
  }

  lemma HandedOutEntry(timeout: real, ops: seq<Op>, logs: seq<Log>, i: nat, m: Message)
    requires Trace(timeout, ops, logs) && Delivers(ops, logs, i, m)
    ensures Entry(m, ops[i].now) in logs[i + 1].st.inFlight
  {
    assert StepAt(timeout, ops, logs, i);
    LogKeeps(timeout, ops, logs, i);
    QueuedNotInFlight(logs[i], m);
  }

  /** While a message is in flight it is not handed out. */
  lemma FlyingNotDelivered(timeout: real, ops: seq<Op>, logs: seq<Log>, n: nat, e: Entry)
    requires Trace(timeout, ops, logs) && n <= |ops| && e in logs[n].st.inFlight
    ensures !Delivers(ops, logs, n, e.message)
  {
    var k :| 0 <= k < |logs[n].st.inFlight| && logs[n].st.inFlight[k] == e;
    LogKeeps(timeout, ops, logs, n);
    InFlightPublished(logs[n], k);
  }

  /** Until an overdue reading the delivery stays in flight, and it is the only one
      of its message. */
  lemma {:induction false} OwnDeliveryStays(timeout: real, ops: seq<Op>, logs: seq<Log>, i: nat, m: Message, n: nat)
    requires Trace(timeout, ops, logs) && Delivers(ops, logs, i, m) && i < n <= |ops|
    requires !AckedBetween(ops, i, n, m.id) && !OverdueBetween(timeout, ops, logs, i, m, n)
    ensures Entry(m, ops[i].now) in logs[n].st.inFlight
    ensures !DeliveredBetween(ops, logs, i, m, n)
    decreases n
  {
    if n == i + 1 {
      HandedOutEntry(timeout, ops, logs, i, m);
    } else {
      assert !AckedBetween(ops, i, n - 1, m.id) && !OverdueBetween(timeout, ops, logs, i, m, n - 1);
      OwnDeliveryStays(timeout, ops, logs, i, m, n - 1);
      FlyingNotDelivered(timeout, ops, logs, n - 1, Entry(m, ops[i].now));
      StillThere(timeout, ops, logs, i, m, n - 1);
    }
  }

  /** An overdue reading puts the message back in the queue. */
  lemma OverdueIsQueued(timeout: real, ops: seq<Op>, logs: seq<Log>, i: nat, m: Message, n: nat)
    requires Trace(timeout, ops, logs) && i < |ops| && ops[i].Receive? && OverdueAt(timeout, ops, logs, i, m, n)
    ensures m in logs[n + 1].st.queue
  {
    assert StepAt(timeout, ops, logs, n);
    LogKeeps(timeout, ops, logs, n);
    var es, clocks := logs[n].st.inFlight, ops[n].clocks;
    var k :| 0 <= k < |clocks| && es[k] == Entry(m, ops[i].now) && Overdue(timeout, es[k], clocks[k]);
    ExpiredHasOverdue(timeout, es, clocks, k);
    ReverseHas(ExpiredOf(timeout, es, clocks), m);
  }

  lemma QueuedStays(timeout: real, ops: seq<Op>, logs: seq<Log>, n: nat, m: Message)
    requires Trace(timeout, ops, logs) && n < |ops| && m in logs[n].st.queue && !Delivers(ops, logs, n, m)
    ensures m in logs[n + 1].st.queue
  {
    assert StepAt(timeout, ops, logs, n);
  }

  /** It stays there until it is handed out again. */
  lemma {:induction false} QueuedUntilDelivered(timeout: real, ops: seq<Op>, logs: seq<Log>, q: nat, m: Message, n: nat)
    requires Trace(timeout, ops, logs) && q <= n <= |ops| && m in logs[q].st.queue
    requires forall j: nat :: q <= j < n ==> !Delivers(ops, logs, j, m)
    ensures m in logs[n].st.queue
    decreases n
  {
    if q < n {
      QueuedUntilDelivered(timeout, ops, logs, q, m, n - 1);
      QueuedStays(timeout, ops, logs, n - 1, m);
    }
  }

  lemma RetiresFlying(timeout: real, ops: seq<Op>, logs: seq<Log>, a: nat, e: Entry)
    requires Trace(timeout, ops, logs) && a < |ops| && ops[a].Ack? && ops[a].id == e.message.id
    requires e in logs[a].st.inFlight
    ensures Retires(logs[a].st, ops[a]) == Some(e.message)
  {
    LogKeeps(timeout, ops, logs, a);
    var es := logs[a].st.inFlight;
    var k :| 0 <= k < |es| && es[k] == e;
    assert Find(es, ops[a].id) == k;
  }

  /** The acknowledgement of a message retires the delivery made by operation i. */
  ghost predicate RetiresOwn(ops: seq<Op>, logs: seq<Log>, i: nat, m: Message, a: nat)
    requires |logs| == |ops| + 1 && a < |ops|
  {
    Retires(logs[a].st, ops[a]) == Some(m) && !DeliveredBetween(ops, logs, i, m, a)
  }

  lemma {:induction false} FirstAck(ops: seq<Op>, i: nat, a: nat, id: string) returns (b: nat)
    requires a <= |ops| && AckedBetween(ops, i, a, id)
    ensures i < b < a && ops[b].Ack? && ops[b].id == id && !AckedBetween(ops, i, b, id)
    decreases a
  {
    b :| i < b < a && ops[b].Ack? && ops[b].id == id;
    if AckedBetween(ops, i, b, id) {
      b := FirstAck(ops, i, b, id);
    }
  }

  /** A second acknowledgement finds the delivery retired by the first. */
  lemma RetiredBefore(timeout: real, ops: seq<Op>, logs: seq<Log>, i: nat, m: Message, a: nat)
    requires Trace(timeout, ops, logs) && Delivers(ops, logs, i, m) && i < a < |ops|
    requires AckedBetween(ops, i, a, m.id) && !OverdueBetween(timeout, ops, logs, i, m, a)
    ensures Retires(logs[a].st, ops[a]) != Some(m)
  {
    var b := FirstAck(ops, i, a, m.id);
    OwnDeliveryStays(timeout, ops, logs, i, m, b);
    RetiresFlying(timeout, ops, logs, b, Entry(m, ops[i].now));
    assert StepAt(timeout, ops, logs, b);
    Drain.AckedStays(timeout, ops, logs, b + 1, a, m);
    AckedNotRetired(timeout, ops, logs, a, m);
  }

  lemma AckedNotRetired(timeout: real, ops: seq<Op>, logs: seq<Log>, a: nat, m: Message)
    requires Trace(timeout, ops, logs) && a < |ops| && m in logs[a].acked
    ensures Retires(logs[a].st, ops[a]) != Some(m)
  {
    LogKeeps(timeout, ops, logs, a);
    if Retires(logs[a].st, ops[a]) == Some(m) {
      var k := Find(logs[a].st.inFlight, ops[a].id);
      assert Messages(logs[a].st.inFlight)[k] == m;
      assert m in multiset(Messages(logs[a].st.inFlight)) && m in multiset(logs[a].acked);
      FreshMultiset(logs[a].published, m);
    }
  }

  /** A requeued message is not retired before it is handed out again. */
  lemma RequeuedNotOwn(timeout: real, ops: seq<Op>, logs: seq<Log>, i: nat, m: Message, a: nat)
    requires Trace(timeout, ops, logs) && Delivers(ops, logs, i, m) && i < a < |ops|
    requires ops[a].Ack? && ops[a].id == m.id && OverdueBetween(timeout, ops, logs, i, m, a)
    ensures !RetiresOwn(ops, logs, i, m, a)
  {
    if !DeliveredBetween(ops, logs, i, m, a) {
      var n: nat :| i < n < a && OverdueAt(timeout, ops, logs, i, m, n);
      OverdueIsQueued(timeout, ops, logs, i, m, n);
      QueuedUntilDelivered(timeout, ops, logs, n + 1, m, a);
      LogKeeps(timeout, ops, logs, a);
      QueuedNotInFlight(logs[a], m);
    }
  }

  /** An acknowledgement after a delivery retires that very delivery exactly when
      since then no scan has read a clock more than the timeout past its hand-out
      and nobody has acknowledged the message, however late it comes. */
  lemma AckRetiresOwnIffUntouched(timeout: real, ops: seq<Op>, logs: seq<Log>, i: nat, m: Message, a: nat)
    requires Trace(timeout, ops, logs) && Delivers(ops, logs, i, m)
    requires i < a < |ops| && ops[a].Ack? && ops[a].id == m.id
    ensures RetiresOwn(ops, logs, i, m, a)
       <==> !OverdueBetween(timeout, ops, logs, i, m, a) && !AckedBetween(ops, i, a, m.id)
  {
    if OverdueBetween(timeout, ops, logs, i, m, a) {
      RequeuedNotOwn(timeout, ops, logs, i, m, a);
    } else if AckedBetween(ops, i, a, m.id) {
      RetiredBefore(timeout, ops, logs, i, m, a);
    } else {
      OwnDeliveryStays(timeout, ops, logs, i, m, a);
      RetiresFlying(timeout, ops, logs, a, Entry(m, ops[i].now));
    }
  }

  /* ---- A stale acknowledgement retires somebody else's delivery ---- */

  function StaleRun(m: Message, t: real, c: real, u: real, v: real): seq<Op>
  {
    [Publish(m), Receive(t), Requeue([c]), Receive(u), Ack(m.id, v)]
  }

  function StaleLogs(m: Message, t: real, u: real): seq<Log>
  {
    [EMPTY,
     Log(State([m], []), [m], [], [], []),
     Log(State([], [Entry(m, t)]), [m], [m], [], []),
     Log(State([m], []), [m], [m], [], [m]),
     Log(State([], [Entry(m, u)]), [m], [m, m], [], [m]),
     Log(State([], []), [m], [m, m], [m], [m])]
  }

  /** A scan that finds the only entry overdue. */
  lemma ScanOfOne(timeout: real, e: Entry, c: real)
    requires Overdue(timeout, e, c)
    ensures Apply(timeout, State([], [e]), Requeue([c])) == State([e.message], [])
    ensures ExpiredOf(timeout, [e], [c]) == [e.message]
  {
    ScanSnoc(timeout, [], [], e, c);
    assert [] + [e] == [e] && [] + [c] == [c];
    ReverseSnoc([], e.message);
    assert [] + [e.message] == [e.message];
  }

  lemma StaleStep(timeout: real, m: Message, t: real, c: real, u: real, v: real, n: nat)
    requires c - t > timeout && n < 5
    ensures StepAt(timeout, StaleRun(m, t, c, u, v), StaleLogs(m, t, u), n)
  {
    var op, log := StaleRun(m, t, c, u, v)[n], StaleLogs(m, t, u)[n];
    match op {
      case Publish(_) =>
      case Receive(now) => assert [m][1..] == [];
      case Ack(_, _) => assert Without([Entry(m, u)], m.id) == [];
      case Requeue(_) => ScanOfOne(timeout, Entry(m, t), c);
    }
  }

  lemma StaleTrace(timeout: real, m: Message, t: real, c: real, u: real, v: real)
    requires c - t > timeout
    ensures Trace(timeout, StaleRun(m, t, c, u, v), StaleLogs(m, t, u))
  {
    forall n: nat | n < 5
      ensures StepAt(timeout, StaleRun(m, t, c, u, v), StaleLogs(m, t, u), n)
    {
      StaleStep(timeout, m, t, c, u, v, n);
    }
  }

  /** For every timeout: the consumer of operation 1 acknowledges after its delivery
      was requeued and handed out again, and retires the delivery of operation 3. */
  lemma StaleAckRetiresAnother(timeout: real, m: Message, t: real, c: real, u: real, v: real)
    requires c - t > timeout
    ensures
      var ops, logs := StaleRun(m, t, c, u, v), StaleLogs(m, t, u);
      && Trace(timeout, ops, logs)
      && Delivers(ops, logs, 1, m) && Delivers(ops, logs, 3, m)
      && RetiresOwn(ops, logs, 3, m, 4) && !RetiresOwn(ops, logs, 1, m, 4)
  {
    StaleTrace(timeout, m, t, c, u, v);
    assert Delivers(StaleRun(m, t, c, u, v), StaleLogs(m, t, u), 3, m);
  }

  /* ---- And leaves the consumer of that delivery with nothing to acknowledge ---- */

  lemma TraceMore(timeout: real, ops: seq<Op>, logs: seq<Log>, op: Op, log: Log)
    requires Trace(timeout, ops, logs) && Allowed(logs[|ops|], op) && log == Next(timeout, logs[|ops|], op)
    ensures Trace(timeout, ops + [op], logs + [log])
  {
    var ops', logs' := ops + [op], logs + [log];
    forall n: nat | n < |ops'|
      ensures StepAt(timeout, ops', logs', n)
    {
      if n < |ops| {
        assert StepAt(timeout, ops, logs, n);
      }
    }
  }

  /** The run goes on: the consumer of operation 3 acknowledges as well. No scan
      found its delivery overdue, yet it fails with a KeyError. */
  lemma RobbedConsumerFails(timeout: real, m: Message, t: real, c: real, u: real, v: real, w: real)
    requires c - t > timeout
    ensures
      var ops := StaleRun(m, t, c, u, v) + [Ack(m.id, w)];
      var logs := StaleLogs(m, t, u) + [StaleLogs(m, t, u)[5]];
      && Trace(timeout, ops, logs)
      && Delivers(ops, logs, 3, m) && !OverdueBetween(timeout, ops, logs, 3, m, 5)
      && Retires(logs[5].st, ops[5]) == None
  {
    StaleTrace(timeout, m, t, c, u, v);
    TraceMore(timeout, StaleRun(m, t, c, u, v), StaleLogs(m, t, u), Ack(m.id, w), StaleLogs(m, t, u)[5]);
  }
}
