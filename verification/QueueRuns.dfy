/** Whole runs of the message queue, with the histories they leave behind. */
module QueueRuns {
  import opened Prelude
  import opened MessageQueue

  /** The state together with what has happened to messages so far, each history
      oldest first. */
  datatype Log = Log(
    st: State,
    published: seq<Message>,
    delivered: seq<Message>,
    acked: seq<Message>,
    requeued: seq<Message>)

  const EMPTY := Log(State([], []), [], [], [], [])

  /** Published ids are fresh. */
  predicate Allowed(log: Log, op: Op)
  {
    && Clocked(log.st, op)
    && (op.Publish? ==> op.message.id !in Ids(log.published))
  }

  /** The message an operation hands out, if it is a receive that finds one. */
  function HandsOut(st: State, op: Op): Option<Message>
  {
    if op.Receive? && st.queue != [] then Some(st.queue[0]) else None
  }

  /** The message an acknowledgement retires; None when the key is missing and
      the deletion fails. */
  function Retires(st: State, op: Op): Option<Message>
  {
    if op.Ack? && Find(st.inFlight, op.id) < |st.inFlight|
    then Some(st.inFlight[Find(st.inFlight, op.id)].message) else None
  }

  function Appended(xs: seq<Message>, x: Option<Message>): seq<Message>
  {
    if x.Some? then xs + [x.value] else xs
  }

  function Next(timeout: real, log: Log, op: Op): Log
    requires Allowed(log, op)
  {
    Log(Apply(timeout, log.st, op),
        if op.Publish? then log.published + [op.message] else log.published,
        Appended(log.delivered, HandsOut(log.st, op)),
        Appended(log.acked, Retires(log.st, op)),
        if op.Requeue? then log.requeued + ExpiredOf(timeout, log.st.inFlight, op.clocks) else log.requeued)
  }

  predicate ValidRun(timeout: real, ops: seq<Op>)
    decreases |ops|, 0
  {
    ops == [] ||
    var n := |ops| - 1;
    ValidRun(timeout, ops[..n]) && Allowed(Exec(timeout, ops[..n]), ops[n])
  }

  /** The log after a run, from an empty queue. */
  function Exec(timeout: real, ops: seq<Op>): Log
    requires ValidRun(timeout, ops)
    decreases |ops|, 1
  {
    if ops == [] then EMPTY else
      var n := |ops| - 1;
      Next(timeout, Exec(timeout, ops[..n]), ops[n])
  }

  /* ---- What every run keeps ---- */

  ghost predicate FreshIds(ms: seq<Message>)
  {
    forall i, j :: 0 <= i < j < |ms| ==> ms[i].id != ms[j].id
  }

  /** Deliveries with every repetition dropped. */
  function Firsts(ms: seq<Message>): (r: seq<Message>)
    ensures |r| <= |ms|
  {
    if ms == [] then [] else
      var n := |ms| - 1;
      Firsts(ms[..n]) + if ms[n] in ms[..n] then [] else [ms[n]]
  }

  lemma {:induction false} FirstsMembers(ms: seq<Message>)
    ensures forall m :: m in Firsts(ms) <==> m in ms
  {
    if ms != [] {
      var n := |ms| - 1;
      FirstsMembers(ms[..n]);
      assert ms == ms[..n] + [ms[n]];
    }
  }

  /** Published messages are in the queue, in flight or acknowledged, each in one
      place and once. */
  ghost predicate Placed(log: Log)
  {
    && FreshIds(log.published)
    && UniqueKeys(log.st.inFlight)
    && multiset(log.published)
       == multiset(log.st.queue) + multiset(Messages(log.st.inFlight)) + multiset(log.acked)
  }

  /** Deliveries are accounted for by requeues, acknowledgements and what is
      still in flight. */
  ghost predicate Accounted(log: Log)
  {
    multiset(log.delivered)
    == multiset(log.requeued) + multiset(log.acked) + multiset(Messages(log.st.inFlight))
  }

  /** The queue is R ++ F: F is the never-delivered messages in publish order, R
      only holds messages delivered before. */
  ghost predicate Ordered(log: Log)
  {
    var k := |Firsts(log.delivered)|;
    && k <= |log.published|
    && Firsts(log.delivered) == log.published[..k]
    && |log.published| - k <= |log.st.queue|
    && (var r := |log.st.queue| - (|log.published| - k);
        && log.st.queue[r..] == log.published[k..]
        && forall i :: 0 <= i < r ==> log.st.queue[i] in log.delivered)
    && forall e :: e in log.st.inFlight ==> e.message in log.delivered
  }

  lemma {:induction false} FreshMultiset(ms: seq<Message>, m: Message)
    requires FreshIds(ms)
    ensures multiset(ms)[m] == if m in ms then 1 else 0
  {
    if ms != [] {
      var n := |ms| - 1;
      FreshMultiset(ms[..n], m);
      assert ms == ms[..n] + [ms[n]];
    }
  }

  lemma InFlightPublished(log: Log, i: nat)
    requires Placed(log) && i < |log.st.inFlight|
    ensures log.st.inFlight[i].message in log.published
    ensures log.st.inFlight[i].message !in log.st.queue
  {
    var m := Messages(log.st.inFlight)[i];
    assert m in multiset(Messages(log.st.inFlight));
    assert m in multiset(log.published);
    FreshMultiset(log.published, m);
  }

  /** No in-flight key clashes with a queued message. */
  lemma QueuedNotInFlight(log: Log, m: Message)
    requires Placed(log) && m in log.st.queue
    ensures Find(log.st.inFlight, m.id) == |log.st.inFlight|
    ensures m in log.published && m !in log.acked
  {
    assert m in multiset(log.st.queue);
    assert m in multiset(log.published);
    FreshMultiset(log.published, m);
    forall i | 0 <= i < |log.st.inFlight|
      ensures log.st.inFlight[i].message.id != m.id
    {
      InFlightPublished(log, i);
    }
  }

  /** A scan splits what is in flight into what it expires and what survives. */
  ghost predicate SplitByScan(timeout: real, es: seq<Entry>, clocks: seq<real>)
    requires |clocks| == |es|
  {
    multiset(Messages(es))
    == multiset(ExpiredOf(timeout, es, clocks)) + multiset(Messages(Survivors(timeout, es, clocks)))
  }

  lemma SplitSnoc(timeout: real, es: seq<Entry>, clocks: seq<real>, e: Entry, clock: real)
    requires |clocks| == |es| && SplitByScan(timeout, es, clocks)
    ensures SplitByScan(timeout, es + [e], clocks + [clock])
  {
    ScanSnoc(timeout, es, clocks, e, clock);
    MessagesSnoc(es, e);
    MessagesSnoc(Survivors(timeout, es, clocks), e);
    assert Survivors(timeout, es, clocks) + [] == Survivors(timeout, es, clocks);
  }

  lemma MessagesSnoc(es: seq<Entry>, e: Entry)
    ensures Messages(es + [e]) == Messages(es) + [e.message]
  {
  }

  lemma {:induction false} ScanSplits(timeout: real, es: seq<Entry>, clocks: seq<real>)
    requires |clocks| == |es|
    ensures SplitByScan(timeout, es, clocks)
  {
    if es != [] {
      var init, last, early, late := es[..|es| - 1], es[|es| - 1], clocks[..|es| - 1], clocks[|es| - 1];
      assert es == init + [last] && clocks == early + [late];
      ScanSplits(timeout, init, early);
      SplitSnoc(timeout, init, early, last, late);
    }
  }

  lemma MessagesConcat(a: seq<Entry>, b: seq<Entry>)
    ensures Messages(a + b) == Messages(a) + Messages(b)
  {
  }

  lemma RemovalSplits(es: seq<Entry>, i: nat)
    requires i < |es|
    ensures multiset(Messages(es)) == multiset(Messages(es[..i] + es[i + 1..])) + multiset{es[i].message}
  {
    var a, e, b := es[..i], [es[i]], es[i + 1..];
    assert es == a + (e + b);
    MessagesConcat(a, e + b);
    MessagesConcat(e, b);
    MessagesConcat(a, b);
    assert Messages(e) == [es[i].message];
  }

  lemma WithoutSplits(es: seq<Entry>, id: string)
    requires Find(es, id) < |es|
    ensures multiset(Messages(es)) == multiset(Messages(Without(es, id))) + multiset{es[Find(es, id)].message}
  {
    RemovalSplits(es, Find(es, id));
  }

  lemma PublishKeeps(timeout: real, log: Log, op: Op)
    requires op.Publish? && Allowed(log, op) && Placed(log) && Accounted(log) && Ordered(log)
    ensures var d := Next(timeout, log, op); Placed(d) && Accounted(d) && Ordered(d)
  {
    var d := Next(timeout, log, op);
    forall i | 0 <= i < |log.published|
      ensures log.published[i].id != op.message.id
    {
      assert Ids(log.published)[i] == log.published[i].id;
    }
    var k := |Firsts(log.delivered)|;
    var r := |log.st.queue| - (|log.published| - k);
    assert d.st.queue[r..] == log.st.queue[r..] + [op.message];
    assert d.published[k..] == log.published[k..] + [op.message];
  }

  /** Receiving moves the front message from the queue to the end of the dict. */
  lemma ReceiveMoves(timeout: real, log: Log, now: real)
    requires Placed(log) && log.st.queue != []
    ensures
      var d := Apply(timeout, log.st, Receive(now));
      var m := log.st.queue[0];
      && UniqueKeys(d.inFlight)
      && Messages(d.inFlight) == Messages(log.st.inFlight) + [m]
      && [m] + d.queue == log.st.queue
  {
    var q := log.st.queue;
    QueuedNotInFlight(log, q[0]);
    MessagesSnoc(log.st.inFlight, Entry(q[0], now));
  }

  lemma ReceiveKeepsPlaces(timeout: real, log: Log, op: Op)
    requires op.Receive? && Placed(log) && Accounted(log)
    ensures var d := Next(timeout, log, op); Placed(d) && Accounted(d)
  {
    if log.st.queue != [] {
      ReceiveMoves(timeout, log, op.now);
      var d, m := Next(timeout, log, op), log.st.queue[0];
      assert multiset(log.st.queue) == multiset{m} + multiset(d.st.queue);
      assert multiset(Messages(d.st.inFlight)) == multiset(Messages(log.st.inFlight)) + multiset{m};
    }
  }

  /** Handing out a message that was delivered before leaves the split where it is. */
  lemma RedeliveryKeepsOrder(timeout: real, log: Log, op: Op)
    requires op.Receive? && Placed(log) && Ordered(log)
    requires |log.st.queue| > |log.published| - |Firsts(log.delivered)|
    ensures Ordered(Next(timeout, log, op))
  {
    var q, d := log.st.queue, Next(timeout, log, op);
    var r := |q| - (|log.published| - |Firsts(log.delivered)|);
    QueuedNotInFlight(log, q[0]);
    assert q[0] in log.delivered;
    assert d.delivered[..|log.delivered|] == log.delivered;
    assert d.st.queue[r - 1..] == q[r..];
  }

  /** Handing out the first message never delivered moves it across the split. */
  lemma FirstDeliveryKeepsOrder(timeout: real, log: Log, op: Op)
    requires op.Receive? && Placed(log) && Ordered(log) && log.st.queue != []
    requires |log.st.queue| == |log.published| - |Firsts(log.delivered)|
    ensures Ordered(Next(timeout, log, op))
  {
    var q, d, k := log.st.queue, Next(timeout, log, op), |Firsts(log.delivered)|;
    QueuedNotInFlight(log, q[0]);
    assert q == log.published[k..];
    NeverDelivered(log, 0);
    assert d.delivered[..|log.delivered|] == log.delivered;
    assert Firsts(d.delivered) == Firsts(log.delivered) + [q[0]];
    assert log.published[..k + 1] == log.published[..k] + [log.published[k]];
    assert d.st.queue == log.published[k + 1..];
  }

  lemma ReceiveKeepsOrder(timeout: real, log: Log, op: Op)
    requires op.Receive? && Placed(log) && Ordered(log)
    ensures Ordered(Next(timeout, log, op))
  {
    if log.st.queue != [] {
      if |log.st.queue| > |log.published| - |Firsts(log.delivered)| {
        RedeliveryKeepsOrder(timeout, log, op);
      } else {
        FirstDeliveryKeepsOrder(timeout, log, op);
      }
    }
  }

  lemma AckKeepsPlaces(timeout: real, log: Log, op: Op)
    requires op.Ack? && Placed(log) && Accounted(log)
    ensures var d := Next(timeout, log, op); Placed(d) && Accounted(d)
  {
    ApplyKeepsKeys(timeout, log.st, op);
    var retired := Retires(log.st, op);
    if retired.Some? {
      WithoutSplits(log.st.inFlight, op.id);
      assert multiset(log.acked + [retired.value]) == multiset(log.acked) + multiset{retired.value};
    }
  }

  lemma AckKeepsOrder(timeout: real, log: Log, op: Op)
    requires op.Ack? && Ordered(log)
    ensures Ordered(Next(timeout, log, op))
  {
    var i := Find(log.st.inFlight, op.id);
    if i < |log.st.inFlight| {
      forall e | e in Without(log.st.inFlight, op.id)
        ensures e in log.st.inFlight
      {
      }
    }
  }

  lemma RequeueKeepsPlaces(timeout: real, log: Log, op: Op)
    requires op.Requeue? && Allowed(log, op) && Placed(log) && Accounted(log)
    ensures var d := Next(timeout, log, op); Placed(d) && Accounted(d)
  {
    var expired := ExpiredOf(timeout, log.st.inFlight, op.clocks);
    ScanSplits(timeout, log.st.inFlight, op.clocks);
    ExpiredAmong(timeout, log.st.inFlight, op.clocks);
    ReverseMultiset(expired);
  }

  lemma ReverseMembers<T>(xs: seq<T>, x: T)
    requires x in Reverse(xs)
    ensures x in xs
  {
    ReverseMultiset(xs);
    assert x in multiset(Reverse(xs));
  }

  lemma ExpiredWereDelivered(timeout: real, log: Log, clocks: seq<real>, m: Message)
    requires |clocks| == |log.st.inFlight| && Ordered(log)
    requires m in Reverse(ExpiredOf(timeout, log.st.inFlight, clocks))
    ensures m in log.delivered
  {
    var es := log.st.inFlight;
    ReverseMembers(ExpiredOf(timeout, es, clocks), m);
    ExpiredAmong(timeout, es, clocks);
    var j :| 0 <= j < |es| && Messages(es)[j] == m;
    assert es[j] in es;
  }

  /** Putting delivered messages in front keeps the split. */
  lemma FrontKeepsOrder(log: Log, front: seq<Message>, d: Log)
    requires Ordered(log) && forall i :: 0 <= i < |front| ==> front[i] in log.delivered
    requires d.published == log.published && d.delivered == log.delivered
    requires d.st.queue == front + log.st.queue && forall e :: e in d.st.inFlight ==> e in log.st.inFlight
    ensures Ordered(d)
  {
    var r := |log.st.queue| - (|log.published| - |Firsts(log.delivered)|);
    assert d.st.queue[r + |front|..] == log.st.queue[r..];
  }

  lemma RequeueKeepsOrder(timeout: real, log: Log, op: Op)
    requires op.Requeue? && Allowed(log, op) && Ordered(log)
    ensures Ordered(Next(timeout, log, op))
  {
    var front := Reverse(ExpiredOf(timeout, log.st.inFlight, op.clocks));
    forall i | 0 <= i < |front|
      ensures front[i] in log.delivered
    {
      ExpiredWereDelivered(timeout, log, op.clocks, front[i]);
    }
    ExpiredAmong(timeout, log.st.inFlight, op.clocks);
    FrontKeepsOrder(log, front, Next(timeout, log, op));
  }

  lemma NextKeeps(timeout: real, log: Log, op: Op)
    requires Allowed(log, op) && Placed(log) && Accounted(log) && Ordered(log)
    ensures var d := Next(timeout, log, op); Placed(d) && Accounted(d) && Ordered(d)
  {
    match op {
      case Publish(_) => PublishKeeps(timeout, log, op);
      case Receive(_) =>
        ReceiveKeepsPlaces(timeout, log, op);
        ReceiveKeepsOrder(timeout, log, op);
      case Ack(_, _) =>
        AckKeepsPlaces(timeout, log, op);
        AckKeepsOrder(timeout, log, op);
      case Requeue(_) =>
        RequeueKeepsPlaces(timeout, log, op);
        RequeueKeepsOrder(timeout, log, op);
    }
  }

  lemma {:induction false} RunKeeps(timeout: real, ops: seq<Op>)
    requires ValidRun(timeout, ops)
    ensures var log := Exec(timeout, ops); Placed(log) && Accounted(log) && Ordered(log)
  {
    if ops != [] {
      var n := |ops| - 1;
      RunKeeps(timeout, ops[..n]);
      NextKeeps(timeout, Exec(timeout, ops[..n]), ops[n]);
    }
  }

  /* ---- The theorems about every run ---- */

  lemma NeverDelivered(log: Log, i: nat)
    requires Placed(log) && Ordered(log)
    requires |log.st.queue| - (|log.published| - |Firsts(log.delivered)|) <= i < |log.st.queue|
    ensures log.st.queue[i] !in log.delivered
  {
    var k := |Firsts(log.delivered)|;
    var r := |log.st.queue| - (|log.published| - k);
    FirstsMembers(log.delivered);
    assert log.st.queue[i] == log.st.queue[r..][i - r] == log.published[k + i - r];
    assert forall x :: x in log.published[..k] ==> x.id != log.published[k + i - r].id;
  }

  /** The queue is r redelivered messages followed by `unseen`, none of which was
      ever handed out. */
  ghost predicate SplitsAt(log: Log, r: nat, unseen: seq<Message>)
  {
    && r <= |log.st.queue|
    && log.st.queue[r..] == unseen
    && (forall i :: 0 <= i < r ==> log.st.queue[i] in log.delivered)
    && (forall i :: r <= i < |log.st.queue| ==> log.st.queue[i] !in log.delivered)
  }

  lemma OrderedSplits(log: Log)
    requires Placed(log) && Ordered(log)
    ensures exists r :: SplitsAt(log, r, log.published[|Firsts(log.delivered)|..])
  {
    var k := |Firsts(log.delivered)|;
    var r := |log.st.queue| - (|log.published| - k);
    forall i | r <= i < |log.st.queue|
      ensures log.st.queue[i] !in log.delivered
    {
      NeverDelivered(log, i);
    }
    assert SplitsAt(log, r, log.published[k..]);
  }

  /** On every run, first deliveries happen in publish order and the queue is R
      followed by exactly the messages never delivered, in publish order. */
  lemma FirstDeliveriesInPublishOrder(timeout: real, ops: seq<Op>)
    requires ValidRun(timeout, ops)
    ensures
      var log := Exec(timeout, ops);
      var k := |Firsts(log.delivered)|;
      && k <= |log.published| && Firsts(log.delivered) == log.published[..k]
      && exists r :: SplitsAt(log, r, log.published[k..])
  {
    RunKeeps(timeout, ops);
    OrderedSplits(Exec(timeout, ops));
  }

  /** On every run and for every published message: it is in exactly one of the
      queue, the in-flight dict and the acknowledged, and
      deliveries = requeues + acknowledgements + (1 if in flight). */
  lemma DeliveryAccounting(timeout: real, ops: seq<Op>, m: Message)
    requires ValidRun(timeout, ops)
    ensures
      var log := Exec(timeout, ops);
      var flying := multiset(Messages(log.st.inFlight))[m];
      && multiset(log.st.queue)[m] + flying + multiset(log.acked)[m] == (if m in log.published then 1 else 0)
      && multiset(log.delivered)[m] == multiset(log.requeued)[m] + multiset(log.acked)[m] + flying
  {
    RunKeeps(timeout, ops);
    FreshMultiset(Exec(timeout, ops).published, m);
  }
}
