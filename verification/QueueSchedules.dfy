/** Every sequential run of the queue is a run of the threaded one: for each there
    is a schedule with the same calls, the same replies and the same data. */
module QueueSchedules {
  import opened Prelude
  import opened MessageQueue
  import opened QueueThreads
  import opened QueueCalls
  import Runs = QueueRuns

  /** From m some run leads to n in which thread t makes these calls and returns
      with these replies. */
  ghost predicate Does(timeout: real, m: Machine, t: nat, calls: seq<Call>, replies: seq<Reply>, n: Machine)
  {
    exists steps :: Reaches(timeout, m, steps, n) && Calls(steps, t) == calls && Replies(timeout, m, steps, t) == replies
  }

  lemma {:induction false} ReachesThen(timeout: real, m: Machine, steps: seq<Step>, n: Machine, t: nat, s: Step)
    requires Reaches(timeout, m, steps, n) && Enabled(n, s)
    ensures Reaches(timeout, m, steps + [s], Next(timeout, n, s))
    ensures Calls(steps + [s], t) == Calls(steps, t) + CallIn(s, t)
    ensures Replies(timeout, m, steps + [s], t) == Replies(timeout, m, steps, t) + ReplyIn(n, s, t)
    decreases |steps|
  {
    if steps == [] {
      assert [] + [s] == [s] && [s][1..] == [];
    } else {
      var next := Next(timeout, m, steps[0]);
      ReachesThen(timeout, next, steps[1..], n, t, s);
      assert (steps + [s])[1..] == steps[1..] + [s];
      AddedUp(CallIn(steps[0], t), Calls(steps[1..], t), CallIn(s, t));
      AddedUp(ReplyIn(m, steps[0], t), Replies(timeout, next, steps[1..], t), ReplyIn(n, s, t));
    }
  }

  /** One more step. */
  lemma Then(timeout: real, m: Machine, t: nat, calls: seq<Call>, replies: seq<Reply>, n: Machine, s: Step)
      returns (o: Machine)
    requires Does(timeout, m, t, calls, replies, n) && Enabled(n, s)
    ensures o == Next(timeout, n, s)
    ensures Does(timeout, m, t, calls + CallIn(s, t), replies + ReplyIn(n, s, t), o)
  {
    o := Next(timeout, n, s);
    var steps :| Reaches(timeout, m, steps, n) && Calls(steps, t) == calls && Replies(timeout, m, steps, t) == replies;
    ReachesThen(timeout, m, steps, n, t, s);
  }

  /** One more step inside a call. */
  lemma Goes(timeout: real, m: Machine, t: nat, calls: seq<Call>, replies: seq<Reply>, n: Machine, s: Step)
      returns (o: Machine)
    requires Does(timeout, m, t, calls, replies, n) && Enabled(n, s) && !s.Invoke? && !s.Leave?
    ensures o == Next(timeout, n, s) && Does(timeout, m, t, calls, replies, o)
  {
    o := Then(timeout, m, t, calls, replies, n, s);
    assert calls + [] == calls && replies + [] == replies;
  }

  /** The queue at rest: the lock is free and every thread outside. */
  function Resting(k: nat, data: State, committed: seq<Op>): Machine
  {
    Machine(data, None, seq(k, _ => Outside), committed)
  }

  /** Thread 0 is alone inside, with the lock. */
  function Inside(k: nat, pc: Pc, data: State, committed: seq<Op>): Machine
    requires k > 0
  {
    Machine(data, Some(0), seq(k, _ => Outside)[0 := pc], committed)
  }

  lemma Begins(timeout: real, m: Machine, k: nat, calls: seq<Call>, replies: seq<Reply>,
               data: State, committed: seq<Op>, call: Call)
    requires k > 0 && Does(timeout, m, 0, calls, replies, Resting(k, data, committed))
    ensures Does(timeout, m, 0, calls + [call], replies, Inside(k, Entered(call), data, committed))
  {
    var n := Then(timeout, m, 0, calls, replies, Resting(k, data, committed), Invoke(0, call));
    assert replies + [] == replies;
    n := Goes(timeout, m, 0, calls + [call], replies, n, Enter(0));
    assert n == Inside(k, Entered(call), data, committed);
  }

  lemma Returns(timeout: real, m: Machine, k: nat, calls: seq<Call>, replies: seq<Reply>,
                data: State, committed: seq<Op>, reply: Reply)
    requires k > 0 && Does(timeout, m, 0, calls, replies, Inside(k, Leaving(reply), data, committed))
    ensures Does(timeout, m, 0, calls, replies + [reply], Resting(k, data, committed))
  {
    var n := Then(timeout, m, 0, calls, replies, Inside(k, Leaving(reply), data, committed), Leave(0));
    assert calls + [] == calls;
    assert n == Resting(k, data, committed);
  }

  lemma NotifiesAndReturns(timeout: real, m: Machine, k: nat, calls: seq<Call>, replies: seq<Reply>,
                           data: State, committed: seq<Op>, reply: Reply)
    requires k > 0 && Does(timeout, m, 0, calls, replies, Inside(k, Notifying(reply), data, committed))
    ensures Does(timeout, m, 0, calls, replies + [reply], Resting(k, data, committed))
  {
    var n := Goes(timeout, m, 0, calls, replies, Inside(k, Notifying(reply), data, committed), NotifyAll(0));
    assert n == Inside(k, Leaving(reply), data, committed);
    Returns(timeout, m, k, calls, replies, data, committed, reply);
  }

  lemma Publishes(timeout: real, m: Machine, k: nat, calls: seq<Call>, replies: seq<Reply>,
                  data: State, committed: seq<Op>, message: Message)
    requires k > 0 && Does(timeout, m, 0, calls, replies, Resting(k, data, committed))
    requires FreshFor(committed, message.id)
    ensures Does(timeout, m, 0, calls + [Call.Publish(message.body)], replies + [MessageId(message.id)],
                 Resting(k, data.(queue := data.queue + [message]), committed + [Op.Publish(message)]))
  {
    var call := Call.Publish(message.body);
    Begins(timeout, m, k, calls, replies, data, committed, call);
    var n := Goes(timeout, m, 0, calls + [call], replies, Inside(k, Appending(message.body), data, committed),
                  Append(0, message.id));
    var data', committed' := data.(queue := data.queue + [message]), committed + [Op.Publish(message)];
    assert n == Inside(k, Notifying(MessageId(message.id)), data', committed');
    NotifiesAndReturns(timeout, m, k, calls + [call], replies, data', committed', MessageId(message.id));
  }

  lemma Receives(timeout: real, m: Machine, k: nat, calls: seq<Call>, replies: seq<Reply>,
                 data: State, committed: seq<Op>, now: real)
    requires k > 0 && Does(timeout, m, 0, calls, replies, Resting(k, data, committed)) && data.queue != []
    ensures Does(timeout, m, 0, calls + [Call.Receive], replies + [Received(data.queue[0])],
                 Resting(k, Apply(timeout, data, Op.Receive(now)), committed + [Op.Receive(now)]))
  {
    var message, calls' := data.queue[0], calls + [Call.Receive];
    Begins(timeout, m, k, calls, replies, data, committed, Call.Receive);
    var n := Goes(timeout, m, 0, calls', replies, Inside(k, Checking(false), data, committed), Take(0));
    var data' := data.(queue := data.queue[1..]);
    assert n == Inside(k, Storing(message), data', committed);
    n := Goes(timeout, m, 0, calls', replies, n, Store(0, now));
    var data'' := Apply(timeout, data, Op.Receive(now));
    assert n == Inside(k, Leaving(Received(message)), data'', committed + [Op.Receive(now)]);
    Returns(timeout, m, k, calls', replies, data'', committed + [Op.Receive(now)], Received(message));
  }

  lemma ReceivesNothing(timeout: real, m: Machine, k: nat, calls: seq<Call>, replies: seq<Reply>,
                        data: State, committed: seq<Op>)
    requires k > 0 && Does(timeout, m, 0, calls, replies, Resting(k, data, committed)) && data.queue == []
    ensures Does(timeout, m, 0, calls + [Call.Receive], replies + [NoMessage], Resting(k, data, committed))
  {
    var calls' := calls + [Call.Receive];
    Begins(timeout, m, k, calls, replies, data, committed, Call.Receive);
    var n := Goes(timeout, m, 0, calls', replies, Inside(k, Checking(false), data, committed), Sleep(0));
    n := Goes(timeout, m, 0, calls', replies, n, WakeUp(0));
    n := Goes(timeout, m, 0, calls', replies, n, Reenter(0));
    assert n == Inside(k, Checking(true), data, committed);
    n := Goes(timeout, m, 0, calls', replies, n, GiveUp(0));
    assert n == Inside(k, Leaving(NoMessage), data, committed);
    Returns(timeout, m, k, calls', replies, data, committed, NoMessage);
  }

  lemma Acks(timeout: real, m: Machine, k: nat, calls: seq<Call>, replies: seq<Reply>,
             data: State, committed: seq<Op>, id: string, at: real)
    requires k > 0 && Does(timeout, m, 0, calls, replies, Resting(k, data, committed))
    ensures Does(timeout, m, 0, calls + [Call.Ack(id)], replies + [ReplyTo(data, Op.Ack(id, at))],
                 Resting(k, Apply(timeout, data, Op.Ack(id, at)), committed + [Op.Ack(id, at)]))
  {
    var op, reply := Op.Ack(id, at), ReplyTo(data, Op.Ack(id, at));
    Begins(timeout, m, k, calls, replies, data, committed, Call.Ack(id));
    var n := Goes(timeout, m, 0, calls + [Call.Ack(id)], replies, Inside(k, Deleting(id), data, committed), Delete(0, at));
    assert n == Inside(k, Leaving(reply), Apply(timeout, data, op), committed + [op]);
    Returns(timeout, m, k, calls + [Call.Ack(id)], replies, Apply(timeout, data, op), committed + [op], reply);
  }

  lemma ScansOne(timeout: real, m: Machine, k: nat, calls: seq<Call>, replies: seq<Reply>,
                 data: State, committed: seq<Op>, clocks: seq<real>, clock: real, toDelete: seq<string>)
      returns (data': State, toDelete': seq<string>)
    requires k > 0 && Does(timeout, m, 0, calls, replies, Inside(k, Scanning(clocks, toDelete), data, committed))
    requires |clocks| < |data.inFlight|
    ensures Does(timeout, m, 0, calls, replies, Inside(k, Scanning(clocks + [clock], toDelete'), data', committed))
    ensures data'.inFlight == data.inFlight
  {
    var before := Inside(k, Scanning(clocks, toDelete), data, committed);
    var n := Goes(timeout, m, 0, calls, replies, before, ScanOne(0, clock));
    data', toDelete' := n.data, n.pcs[0].toDelete;
    assert n.pcs == before.pcs[0 := Scanning(clocks + [clock], toDelete')];
    assert n == Inside(k, Scanning(clocks + [clock], toDelete'), data', committed);
  }

  /** The scan looks at one entry after another, reading the given clocks. */
  lemma {:induction false} Scans(timeout: real, m: Machine, k: nat, calls: seq<Call>, replies: seq<Reply>,
                                 data: State, committed: seq<Op>, clocks: seq<real>, i: nat)
      returns (data': State, toDelete: seq<string>)
    requires k > 0 && Does(timeout, m, 0, calls, replies, Inside(k, Scanning([], []), data, committed))
    requires i <= |clocks| == |data.inFlight|
    ensures Does(timeout, m, 0, calls, replies, Inside(k, Scanning(clocks[..i], toDelete), data', committed))
    ensures data'.inFlight == data.inFlight
  {
    if i == 0 {
      data', toDelete := data, [];
      assert clocks[..0] == [];
    } else {
      data', toDelete := Scans(timeout, m, k, calls, replies, data, committed, clocks, i - 1);
      assert clocks[..i] == clocks[..i - 1] + [clocks[i - 1]];
      data', toDelete :=
        ScansOne(timeout, m, k, calls, replies, data', committed, clocks[..i - 1], clocks[i - 1], toDelete);
    }
  }

  lemma {:induction false} Purges(timeout: real, m: Machine, k: nat, calls: seq<Call>, replies: seq<Reply>,
                                  data: State, committed: seq<Op>, clocks: seq<real>, toDelete: seq<string>, d: nat)
      returns (data': State)
    requires k > 0 && Does(timeout, m, 0, calls, replies, Inside(k, Purging(clocks, toDelete, 0), data, committed))
    requires d <= |toDelete|
    ensures Does(timeout, m, 0, calls, replies, Inside(k, Purging(clocks, toDelete, d), data', committed))
  {
    if d == 0 {
      data' := data;
    } else {
      data' := Purges(timeout, m, k, calls, replies, data, committed, clocks, toDelete, d - 1);
      var n := Goes(timeout, m, 0, calls, replies, Inside(k, Purging(clocks, toDelete, d - 1), data', committed),
                    PurgeOne(0));
      data' := n.data;
      assert n == Inside(k, Purging(clocks, toDelete, d), data', committed);
    }
  }

  lemma Requeues(timeout: real, m: Machine, k: nat, calls: seq<Call>, replies: seq<Reply>,
                 data: State, committed: seq<Op>, clocks: seq<real>) returns (data': State)
    requires k > 0 && Does(timeout, m, 0, calls, replies, Resting(k, data, committed))
    requires |clocks| == |data.inFlight|
    ensures Does(timeout, m, 0, calls + [Call.Requeue], replies + [Done],
                 Resting(k, data', committed + [Op.Requeue(clocks)]))
  {
    var calls' := calls + [Call.Requeue];
    Begins(timeout, m, k, calls, replies, data, committed, Call.Requeue);
    var toDelete;
    data', toDelete := Scans(timeout, m, k, calls', replies, data, committed, clocks, |clocks|);
    assert clocks[..|clocks|] == clocks;
    var n := Goes(timeout, m, 0, calls', replies, Inside(k, Scanning(clocks, toDelete), data', committed), ScanDone(0));
    assert n == Inside(k, Purging(clocks, toDelete, 0), data', committed);
    data' := Purges(timeout, m, k, calls', replies, data', committed, clocks, toDelete, |toDelete|);
    n := Goes(timeout, m, 0, calls', replies, Inside(k, Purging(clocks, toDelete, |toDelete|), data', committed),
              PurgeDone(0));
    assert n == Inside(k, Notifying(Done), data', committed + [Op.Requeue(clocks)]);
    NotifiesAndReturns(timeout, m, k, calls', replies, data', committed + [Op.Requeue(clocks)], Done);
  }

  /* ---- Whole runs ---- */

  function CallFor(op: Op): Call
  {
    match op
    case Publish(message) => Call.Publish(message.body)
    case Receive(_) => Call.Receive
    case Ack(id, _) => Call.Ack(id)
    case Requeue(_) => Call.Requeue
  }

  function CallsFor(ops: seq<Op>): seq<Call>
  {
    if ops == [] then [] else CallsFor(ops[..|ops| - 1]) + [CallFor(ops[|ops| - 1])]
  }

  function SequentialReplies(timeout: real, ops: seq<Op>): seq<Reply>
    requires Runs.ValidRun(timeout, ops)
  {
    if ops == [] then [] else
      var n := |ops| - 1;
      SequentialReplies(timeout, ops[..n]) + [ReplyTo(Runs.Exec(timeout, ops[..n]).st, ops[n])]
  }

  /** Without receives that found nothing: they have no effect to commit. */
  function Effective(timeout: real, ops: seq<Op>): seq<Op>
    requires Runs.ValidRun(timeout, ops)
  {
    if ops == [] then [] else
      var n := |ops| - 1;
      var idle := ops[n].Receive? && Runs.Exec(timeout, ops[..n]).st.queue == [];
      Effective(timeout, ops[..n]) + if idle then [] else [ops[n]]
  }

  lemma {:induction false} CommittedWasPublished(timeout: real, ops: seq<Op>, x: Message)
    requires Runs.ValidRun(timeout, ops) && Op.Publish(x) in Effective(timeout, ops)
    ensures x in Runs.Exec(timeout, ops).published
  {
    var n := |ops| - 1;
    if Op.Publish(x) in Effective(timeout, ops[..n]) {
      CommittedWasPublished(timeout, ops[..n], x);
    }
  }

  lemma AllowedIsFresh(timeout: real, ops: seq<Op>, message: Message)
    requires Runs.ValidRun(timeout, ops) && Runs.Allowed(Runs.Exec(timeout, ops), Op.Publish(message))
    ensures FreshFor(Effective(timeout, ops), message.id)
  {
    forall op | op in Effective(timeout, ops) && op.Publish?
      ensures op.message.id != message.id
    {
      CommittedWasPublished(timeout, ops, op.message);
      var published := Runs.Exec(timeout, ops).published;
      var i :| 0 <= i < |published| && published[i] == op.message;
      assert Ids(published)[i] in Ids(published);
    }
  }

  /** The data at rest is that of the committed run. */
  lemma RestingData(timeout: real, k: nat, calls: seq<Call>, replies: seq<Reply>, data: State, committed: seq<Op>)
    requires Does(timeout, Start(k), 0, calls, replies, Resting(k, data, committed))
    ensures Runs.ValidRun(timeout, committed) && data == Runs.Exec(timeout, committed).st
  {
    var steps :| Reaches(timeout, Start(k), steps, Resting(k, data, committed));
    ThreadsRunSequentially(timeout, k, steps, Resting(k, data, committed));
  }

  lemma OneMoreOp(timeout: real, k: nat, calls: seq<Call>, replies: seq<Reply>, data: State, committed: seq<Op>, op: Op)
    requires k > 0 && Does(timeout, Start(k), 0, calls, replies, Resting(k, data, committed))
    requires Clocked(data, op) && (op.Publish? ==> FreshFor(committed, op.message.id))
    ensures
      var idle := op.Receive? && data.queue == [];
      Does(timeout, Start(k), 0, calls + [CallFor(op)], replies + [ReplyTo(data, op)],
           Resting(k, Apply(timeout, data, op), if idle then committed else committed + [op]))
  {
    match op {
      case Publish(message) => Publishes(timeout, Start(k), k, calls, replies, data, committed, message);
      case Receive(now) =>
        if data.queue == [] {
          ReceivesNothing(timeout, Start(k), k, calls, replies, data, committed);
        } else {
          Receives(timeout, Start(k), k, calls, replies, data, committed, now);
        }
      case Ack(id, at) => Acks(timeout, Start(k), k, calls, replies, data, committed, id, at);
      case Requeue(clocks) =>
        var data' := Requeues(timeout, Start(k), k, calls, replies, data, committed, clocks);
        RestingData(timeout, k, calls, replies, data, committed);
        RestingData(timeout, k, calls + [CallFor(op)], replies + [Done], data', committed + [op]);
        assert (committed + [op])[..|committed|] == committed;
    }
  }

  /** For every sequential run there is a schedule of the threads whose calls,
      replies and final data are those of the run. */
  lemma {:induction false} EverySequentialRunHappens(timeout: real, k: nat, ops: seq<Op>)
    requires k > 0 && Runs.ValidRun(timeout, ops)
    ensures Does(timeout, Start(k), 0, CallsFor(ops), SequentialReplies(timeout, ops),
                 Resting(k, Runs.Exec(timeout, ops).st, Effective(timeout, ops)))
  {
    if ops == [] {
      assert Start(k) == Resting(k, State([], []), []);
      assert Reaches(timeout, Start(k), [], Start(k)) && Calls([], 0) == [] && Replies(timeout, Start(k), [], 0) == [];
    } else {
      var n := |ops| - 1;
      var before, op := Runs.Exec(timeout, ops[..n]), ops[n];
      EverySequentialRunHappens(timeout, k, ops[..n]);
      if op.Publish? {
        AllowedIsFresh(timeout, ops[..n], op.message);
      }
      OneMoreOp(timeout, k, CallsFor(ops[..n]), SequentialReplies(timeout, ops[..n]), before.st,
                Effective(timeout, ops[..n]), op);
      assert Effective(timeout, ops[..n]) + [] == Effective(timeout, ops[..n]);
    }
  }

  /* ---- Two threads ---- */

  /** Some run without a timer or spurious wakeup leads from m to n. */
  ghost predicate Leads(timeout: real, m: Machine, n: Machine)
  {
    exists steps :: Reaches(timeout, m, steps, n) && NoWakeUp(steps)
  }

  ghost predicate NoWakeUp(steps: seq<Step>)
  {
    forall i :: 0 <= i < |steps| ==> !steps[i].WakeUp?
  }

  lemma LeadsThen(timeout: real, m: Machine, n: Machine, s: Step, o: Machine)
    requires Leads(timeout, m, n) && Enabled(n, s) && !s.WakeUp? && Next(timeout, n, s) == o
    ensures Leads(timeout, m, o)
  {
    var steps :| Reaches(timeout, m, steps, n) && NoWakeUp(steps);
    ReachesThen(timeout, m, steps, n, 0, s);
    assert NoWakeUp(steps + [s]);
  }

  /** Two threads, `owner` holding the lock, nothing in flight. */
  function Two(owner: Option<nat>, pc0: Pc, pc1: Pc, queue: seq<Message>, committed: seq<Op>): Machine
  {
    Machine(State(queue, []), owner, [pc0, pc1], committed)
  }

  lemma ReceiverSleeps(timeout: real, m: Machine)
    requires m == Two(None, Outside, Outside, [], [])
    ensures Leads(timeout, m, Two(None, Outside, Asleep, [], []))
  {
    assert Reaches(timeout, m, [], m) && NoWakeUp([]);
    var calling := Two(None, Outside, Calling(Call.Receive), [], []);
    var checking := Two(Some(1), Outside, Checking(false), [], []);
    LeadsThen(timeout, m, m, Invoke(1, Call.Receive), calling);
    LeadsThen(timeout, m, calling, Enter(1), checking);
    LeadsThen(timeout, m, checking, Sleep(1), Two(None, Outside, Asleep, [], []));
  }

  lemma PublisherAppends(timeout: real, m: Machine, message: Message)
    requires Leads(timeout, m, Two(None, Outside, Asleep, [], []))
    ensures Leads(timeout, m, Two(Some(0), Notifying(MessageId(message.id)), Asleep, [message], [Op.Publish(message)]))
  {
    var call := Call.Publish(message.body);
    var calling := Two(None, Calling(call), Asleep, [], []);
    var appending := Two(Some(0), Appending(message.body), Asleep, [], []);
    LeadsThen(timeout, m, Two(None, Outside, Asleep, [], []), Invoke(0, call), calling);
    LeadsThen(timeout, m, calling, Enter(0), appending);
    assert [] + [message] == [message] && [] + [Op.Publish(message)] == [Op.Publish(message)];
    LeadsThen(timeout, m, appending, Append(0, message.id),
              Two(Some(0), Notifying(MessageId(message.id)), Asleep, [message], [Op.Publish(message)]));
  }

  lemma PublisherWakes(timeout: real, m: Machine, message: Message)
    requires Leads(timeout, m, Two(Some(0), Notifying(MessageId(message.id)), Asleep, [message], [Op.Publish(message)]))
    ensures Leads(timeout, m, Two(None, Outside, Woken, [message], [Op.Publish(message)]))
  {
    var reply := MessageId(message.id);
    var notifying := Two(Some(0), Notifying(reply), Asleep, [message], [Op.Publish(message)]);
    var leaving := Two(Some(0), Leaving(reply), Woken, [message], [Op.Publish(message)]);
    assert Wake(notifying.pcs)[0 := Leaving(reply)] == leaving.pcs;
    LeadsThen(timeout, m, notifying, NotifyAll(0), leaving);
    LeadsThen(timeout, m, leaving, Leave(0), Two(None, Outside, Woken, [message], [Op.Publish(message)]));
  }

  lemma ReceiverTakes(timeout: real, m: Machine, message: Message, now: real)
    requires Leads(timeout, m, Two(None, Outside, Woken, [message], [Op.Publish(message)]))
    ensures Leads(timeout, m, Served(message, now))
  {
    var checking := Two(Some(1), Outside, Checking(true), [message], [Op.Publish(message)]);
    var storing := Two(Some(1), Outside, Storing(message), [], [Op.Publish(message)]);
    LeadsThen(timeout, m, Two(None, Outside, Woken, [message], [Op.Publish(message)]), Reenter(1), checking);
    assert [message][1..] == [];
    LeadsThen(timeout, m, checking, Take(1), storing);
    assert [] + [Entry(message, now)] == [Entry(message, now)];
    assert [Op.Publish(message)] + [Op.Receive(now)] == [Op.Publish(message), Op.Receive(now)];
    LeadsThen(timeout, m, storing, Store(1, now), Served(message, now));
  }

  /** Thread 1 is about to return the message. */
  function Served(message: Message, now: real): Machine
  {
    Machine(State([], [Entry(message, now)]), Some(1), [Outside, Leaving(Received(message))],
            [Op.Publish(message), Op.Receive(now)])
  }

  /** A receiver asleep on the empty queue returns the message another thread
      publishes, with no timer or spurious wakeup. */
  lemma SleepingReceiverIsServed(timeout: real, message: Message, now: real)
    ensures Leads(timeout, Start(2), Two(None, Outside, Asleep, [], []))
    ensures Leads(timeout, Two(None, Outside, Asleep, [], []), Served(message, now))
  {
    var asleep := Two(None, Outside, Asleep, [], []);
    assert Start(2) == Two(None, Outside, Outside, [], []);
    ReceiverSleeps(timeout, Start(2));
    assert Reaches(timeout, asleep, [], asleep) && NoWakeUp([]);
    PublisherAppends(timeout, asleep, message);
    PublisherWakes(timeout, asleep, message);
    ReceiverTakes(timeout, asleep, message, now);
  }
}
