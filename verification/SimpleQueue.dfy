/** The queue class. Every public method runs under the class's one lock, so its
    body is one atomic step; clock readings and the generated message id are
    parameters. */
module SimpleQueueClass {
  import opened Prelude
  import opened MessageQueue
  import opened QueueRuns

  lemma Extended(timeout: real, ops: seq<Op>, op: Op)
    requires ValidRun(timeout, ops) && Allowed(Exec(timeout, ops), op)
    ensures ValidRun(timeout, ops + [op])
    ensures Exec(timeout, ops + [op]) == Next(timeout, Exec(timeout, ops), op)
  {
    assert (ops + [op])[..|ops|] == ops;
  }

  lemma KeysUnique(timeout: real, ops: seq<Op>)
    requires ValidRun(timeout, ops)
    ensures UniqueKeys(Exec(timeout, ops).st.inFlight)
  {
    RunKeeps(timeout, ops);
  }

  class SimpleQueue {
    var queue: seq<Message>
    var inFlight: seq<Entry>
    const visibilityTimeout: real
    /** The operations performed so far. */
    ghost var history: seq<Op>

    ghost function Model(): State
      reads this
    {
      State(queue, inFlight)
    }

    /** The fields are what the operations so far make of an empty queue, so every
        theorem about runs holds of this object. */
    ghost predicate Valid()
      reads this
    {
      ValidRun(visibilityTimeout, history) && Exec(visibilityTimeout, history).st == Model()
    }

    constructor (timeout: real)
      ensures Valid() && visibilityTimeout == timeout
      ensures queue == [] && inFlight == [] && history == []
    {
      queue, inFlight := [], [];
      visibilityTimeout := timeout;
      history := [];
    }

    method Publish(id: string, body: string) returns (messageId: string)
      requires Valid()
      requires id !in Ids(Exec(visibilityTimeout, history).published)
      modifies this
      ensures Valid() && history == old(history) + [Op.Publish(Message(id, body))]
      ensures messageId == id
      ensures queue == old(queue) + [Message(id, body)] && inFlight == old(inFlight)
    {
      var message := Message(id, body);
      Extended(visibilityTimeout, history, Op.Publish(message));
      history := history + [Op.Publish(message)];
      queue := queue + [message];
      messageId := message.id;
    }

    /** What `receive` does once its wait is over: None only for an empty queue. */
    method Receive(now: real) returns (message: Option<Message>)
      requires Valid()
      modifies this
      ensures Valid() && history == old(history) + [Op.Receive(now)]
      ensures message == HandsOut(old(Model()), Op.Receive(now))
      ensures message.None? <==> old(queue) == []
      ensures message.None? ==> queue == [] && inFlight == old(inFlight)
      ensures message.Some? ==>
        && [message.value] + queue == old(queue)
        && inFlight == old(inFlight) + [Entry(message.value, now)]
    {
      ghost var log := Exec(visibilityTimeout, history);
      RunKeeps(visibilityTimeout, history);
      Extended(visibilityTimeout, history, Op.Receive(now));
      history := history + [Op.Receive(now)];
      if |queue| == 0 {
        return None;
      }
      QueuedNotInFlight(log, queue[0]);
      message := Some(queue[0]);
      queue := queue[1..];
      inFlight := Put(inFlight, Entry(message.value, now));
    }

    /** False stands for the KeyError of deleting a missing key. */
    method Ack(messageId: string, ghost at: real) returns (ok: bool)
      requires Valid()
      modifies this
      ensures Valid() && history == old(history) + [Op.Ack(messageId, at)]
      ensures queue == old(queue)
      ensures ok <==> HasKey(old(inFlight), messageId)
      ensures ok <==> Retires(old(Model()), Op.Ack(messageId, at)).Some?
      ensures inFlight == Without(old(inFlight), messageId)
    {
      FoundIffPresent(inFlight, messageId);
      Extended(visibilityTimeout, history, Op.Ack(messageId, at));
      history := history + [Op.Ack(messageId, at)];
      ok := Find(inFlight, messageId) < |inFlight|;
      if ok {
        inFlight := Without(inFlight, messageId);
      }
    }

    /** `clocks` are the readings of the clock, one for each entry in turn. */
    method RequeueExpired(clocks: seq<real>)
      requires Valid() && |clocks| == |inFlight|
      modifies this
      ensures Valid() && history == old(history) + [Op.Requeue(clocks)]
      ensures queue == Reverse(ExpiredOf(visibilityTimeout, old(inFlight), clocks)) + old(queue)
      ensures inFlight == Survivors(visibilityTimeout, old(inFlight), clocks)
    {
      var toDelete := Scan(clocks);
      Purge(toDelete);
      KeysUnique(visibilityTimeout, history);
      PurgeLeavesSurvivors(visibilityTimeout, old(inFlight), clocks);
      Extended(visibilityTimeout, history, Op.Requeue(clocks));
      history := history + [Op.Requeue(clocks)];
    }

    /** The first loop: move overdue messages to the front, collecting their keys. */
    method Scan(clocks: seq<real>) returns (toDelete: seq<string>)
      requires |clocks| == |inFlight|
      modifies this`queue
      ensures queue == Reverse(ExpiredOf(visibilityTimeout, inFlight, clocks)) + old(queue)
      ensures toDelete == Ids(ExpiredOf(visibilityTimeout, inFlight, clocks))
    {
      var items, timeout := inFlight, visibilityTimeout;
      toDelete := [];
      var i := 0;
      while i < |items|
        modifies this`queue
        invariant 0 <= i <= |items|
        invariant Scanned(timeout, items, clocks[..i], old(queue), queue, toDelete)
      {
        assert clocks[..i + 1] == clocks[..i] + [clocks[i]];
        ScannedOneMore(timeout, items, clocks[..i], clocks[i], old(queue), queue, toDelete);
        if clocks[i] - items[i].handedOut > timeout {
          queue := [items[i].message] + queue;
          toDelete := toDelete + [items[i].message.id];
        }
        i := i + 1;
      }
      assert items[..i] == items && clocks[..i] == clocks;
    }

    /** The second loop: delete the collected keys one by one. */
    method Purge(toDelete: seq<string>)
      modifies this`inFlight
      ensures inFlight == WithoutAll(old(inFlight), toDelete)
    {
      var d := 0;
      while d < |toDelete|
        modifies this`inFlight
        invariant 0 <= d <= |toDelete|
        invariant inFlight == WithoutAll(old(inFlight), toDelete[..d])
      {
        assert toDelete[..d + 1][..d] == toDelete[..d];
        inFlight := Without(inFlight, toDelete[d]);
        d := d + 1;
      }
      assert toDelete[..d] == toDelete;
    }
  }

  lemma LatestUndone(es: seq<Entry>, e: Entry)
    requires UniqueKeys(es + [e])
    ensures Without(es + [e], e.message.id) == es
  {
    forall x | x in es
      ensures x.message.id != e.message.id
    {
      var i :| 0 <= i < |es| && es[i] == x;
      assert (es + [e])[i] == x && (es + [e])[|es|] == e;
    }
    WithoutLast(es, e);
  }

  /** Acknowledging the delivery just received undoes its hand-out. */
  method AckLatest(q: SimpleQueue, message: Message, ghost at: real, ghost before: seq<Entry>, ghost now: real)
    requires q.Valid() && q.inFlight == before + [Entry(message, now)]
    modifies q
    ensures q.Valid() && q.inFlight == before && q.queue == old(q.queue)
  {
    KeysUnique(q.visibilityTimeout, q.history);
    assert q.inFlight[|before|] in q.inFlight;
    LatestUndone(before, Entry(message, now));
    var ok := q.Ack(message.id, at);
    assert ok;
  }

  /** `good_consumer` with the queue to itself: it takes everything waiting, in
      order, and every acknowledgement it sends succeeds. */
  method GoodConsumer(q: SimpleQueue, clock: nat -> real) returns (received: seq<Message>)
    requires q.Valid()
    modifies q
    ensures q.Valid() && received == old(q.queue)
    ensures q.queue == [] && q.inFlight == old(q.inFlight)
  {
    received := [];
    var message := q.Receive(clock(0));
    ghost var now := clock(0);
    while message.Some?
      invariant q.Valid()
      invariant message.None? ==> q.queue == [] && q.inFlight == old(q.inFlight) && received == old(q.queue)
      invariant message.Some? ==> received + [message.value] + q.queue == old(q.queue)
      invariant message.Some? ==> q.inFlight == old(q.inFlight) + [Entry(message.value, now)]
      decreases message.Some?, |q.queue|
    {
      AckLatest(q, message.value, clock(2 * |received|), old(q.inFlight), now);
      received := received + [message.value];
      assert received + q.queue == old(q.queue);
      now := clock(2 * |received| + 1);
      message := q.Receive(clock(2 * |received| + 1));
    }
  }
}
