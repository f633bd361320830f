/** The message queue under threads: every statement of the four methods is its
    own step, the lock and the condition variable are explicit, and any thread
    may move at any time. The instant of an acknowledgement is that of its
    deletion, under the lock. */
module QueueThreads {
  import opened Prelude
  import opened MessageQueue
  import Runs = QueueRuns
  import Timing = QueueTiming
  import Cls = SimpleQueueClass

  datatype Reply = MessageId(id: string) | Received(message: Message) | NoMessage | Done | KeyError

  datatype Call = Publish(body: string) | Receive | Ack(id: string) | Requeue

  datatype Pc =
    | Outside
    | Calling(call: Call)          // waiting for the lock at the start of a method
    | Appending(body: string)      // the states up to Leaving hold the lock
    | Checking(waited: bool)       // at the predicate of wait_for
    | Storing(message: Message)    // popped, not yet in the dict
    | Deleting(id: string)
    | Scanning(clocks: seq<real>, toDelete: seq<string>)
    | Purging(clocks: seq<real>, toDelete: seq<string>, d: nat)
    | Notifying(reply: Reply)      // about to notify_all
    | Leaving(reply: Reply)        // about to release the lock and return
    | Asleep                       // in the waiter set, lock released
    | Woken                        // notified, timed out or woken spuriously

  /** `committed` records the operations in the order in which their effect
      became complete. */
  datatype Machine = Machine(data: State, lock: Option<nat>, pcs: seq<Pc>, committed: seq<Op>)

  datatype Step =
    | Invoke(t: nat, call: Call)
    | Enter(t: nat)
    | Append(t: nat, id: string)
    | NotifyAll(t: nat)
    | Take(t: nat)
    | Store(t: nat, now: real)
    | Sleep(t: nat)
    | WakeUp(t: nat)
    | Reenter(t: nat)
    | GiveUp(t: nat)
    | Delete(t: nat, at: real)
    | ScanOne(t: nat, clock: real)
    | ScanDone(t: nat)
    | PurgeOne(t: nat)
    | PurgeDone(t: nat)
    | Leave(t: nat)

  function Start(k: nat): Machine
  {
    Machine(State([], []), None, seq(k, _ => Outside), [])
  }

  predicate HoldsLock(pc: Pc)
  {
    !(pc.Outside? || pc.Calling? || pc.Asleep? || pc.Woken?)
  }

  /** Generated ids do not repeat. */
  predicate FreshFor(ops: seq<Op>, id: string)
  {
    forall op :: op in ops && op.Publish? ==> op.message.id != id
  }

  predicate Enabled(m: Machine, s: Step)
  {
    && s.t < |m.pcs|
    && var pc := m.pcs[s.t];
       match s
       case Invoke(_, _) => pc.Outside?
       case Enter(_) => pc.Calling? && m.lock == None
       case Append(_, id) => pc.Appending? && FreshFor(m.committed, id)
       case NotifyAll(_) => pc.Notifying?
       case Take(_) => pc.Checking? && m.data.queue != []
       case Store(_, _) => pc.Storing?
       case Sleep(_) => pc.Checking? && m.data.queue == []
       case WakeUp(_) => pc.Asleep?
       case Reenter(_) => pc.Woken? && m.lock == None
       case GiveUp(_) => pc.Checking? && pc.waited && m.data.queue == []
       case Delete(_, _) => pc.Deleting?
       case ScanOne(_, _) => pc.Scanning? && |pc.clocks| < |m.data.inFlight|
       case ScanDone(_) => pc.Scanning? && |pc.clocks| >= |m.data.inFlight|
       case PurgeOne(_) => pc.Purging? && pc.d < |pc.toDelete|
       case PurgeDone(_) => pc.Purging? && pc.d >= |pc.toDelete|
       case Leave(_) => pc.Leaving?
  }

  function Entered(call: Call): Pc
  {
    match call
    case Publish(body) => Appending(body)
    case Receive => Checking(false)
    case Ack(id) => Deleting(id)
    case Requeue => Scanning([], [])
  }

  function Wake(pcs: seq<Pc>): (r: seq<Pc>)
    ensures |r| == |pcs|
  {
    seq(|pcs|, i requires 0 <= i < |pcs| => if pcs[i].Asleep? then Woken else pcs[i])
  }

  function Move(m: Machine, t: nat, pc: Pc): Machine
    requires t < |m.pcs|
  {
    m.(pcs := m.pcs[t := pc])
  }

  function Next(timeout: real, m: Machine, s: Step): Machine
    requires Enabled(m, s)
  {
    var pc := m.pcs[s.t];
    match s
    case Invoke(t, call) => Move(m, t, Calling(call))
    case Enter(t) => Move(m, t, Entered(pc.call)).(lock := Some(t))
    case Append(t, id) =>
      var message := Message(id, pc.body);
      Move(m, t, Notifying(MessageId(id))).(data := m.data.(queue := m.data.queue + [message]),
                             committed := m.committed + [Op.Publish(message)])
    case NotifyAll(t) => m.(pcs := Wake(m.pcs)[t := Leaving(pc.reply)])
    case Take(t) => Move(m, t, Storing(m.data.queue[0])).(data := m.data.(queue := m.data.queue[1..]))
    case Store(t, now) =>
      Move(m, t, Leaving(Received(pc.message))).(data := m.data.(inFlight := Put(m.data.inFlight, Entry(pc.message, now))),
                           committed := m.committed + [Op.Receive(now)])
    case Sleep(t) => Move(m, t, Asleep).(lock := None)
    case WakeUp(t) => Move(m, t, Woken)
    case Reenter(t) => Move(m, t, Checking(true)).(lock := Some(t))
    case GiveUp(t) => Move(m, t, Leaving(NoMessage))
    case Delete(t, at) =>
      var found := Find(m.data.inFlight, pc.id) < |m.data.inFlight|;
      Move(m, t, Leaving(if found then Done else KeyError)).(data := m.data.(inFlight := Without(m.data.inFlight, pc.id)),
                           committed := m.committed + [Op.Ack(pc.id, at)])
    case ScanOne(t, clock) =>
      var e := m.data.inFlight[|pc.clocks|];
      if clock - e.handedOut > timeout
      then Move(m, t, Scanning(pc.clocks + [clock], pc.toDelete + [e.message.id]))
           .(data := m.data.(queue := [e.message] + m.data.queue))
      else Move(m, t, Scanning(pc.clocks + [clock], pc.toDelete))
    case ScanDone(t) => Move(m, t, Purging(pc.clocks, pc.toDelete, 0))
    case PurgeOne(t) =>
      Move(m, t, pc.(d := pc.d + 1))
      .(data := m.data.(inFlight := Without(m.data.inFlight, pc.toDelete[pc.d])))
    case PurgeDone(t) => Move(m, t, Notifying(Done)).(committed := m.committed + [Op.Requeue(pc.clocks)])
    case Leave(t) => Move(m, t, Outside).(lock := None)
  }

  ghost predicate Reaches(timeout: real, m: Machine, steps: seq<Step>, n: Machine)
    decreases |steps|
  {
    if steps == [] then m == n
    else Enabled(m, steps[0]) && Reaches(timeout, Next(timeout, m, steps[0]), steps[1..], n)
  }

  /* ---- Mutual exclusion ---- */

  ghost predicate LockInv(m: Machine)
  {
    && (m.lock.Some? ==> m.lock.value < |m.pcs|)
    && forall t: nat :: t < |m.pcs| ==> (HoldsLock(m.pcs[t]) <==> m.lock == Some(t))
  }

  lemma LockStep(timeout: real, m: Machine, s: Step)
    requires LockInv(m) && Enabled(m, s)
    ensures LockInv(Next(timeout, m, s))
  {
  }

  /* ---- No receiver sleeps beside a message ---- */

  /** The owner will notify everyone before it leaves. */
  predicate Obliged(pc: Pc)
  {
    pc.Scanning? || pc.Purging? || pc.Notifying?
  }

  ghost predicate SleepInv(m: Machine)
  {
    forall t: nat :: t < |m.pcs| && m.pcs[t].Asleep? && m.data.queue != [] ==>
      m.lock.Some? && m.lock.value < |m.pcs| && Obliged(m.pcs[m.lock.value])
  }

  lemma SleepStep(timeout: real, m: Machine, s: Step)
    requires LockInv(m) && SleepInv(m) && Enabled(m, s)
    ensures SleepInv(Next(timeout, m, s))
  {
    var n := Next(timeout, m, s);
    assert HoldsLock(m.pcs[s.t]) ==> m.lock == Some(s.t);
    forall t: nat | t < |n.pcs| && n.pcs[t].Asleep? && n.data.queue != []
      ensures n.lock.Some? && n.lock.value < |n.pcs| && Obliged(n.pcs[n.lock.value])
    {
      assert !s.NotifyAll? && !s.Sleep? && m.pcs[t].Asleep?;
    }
  }

  /* ---- Every run is a sequential run of the four operations ---- */

  function OwnerPc(m: Machine): Pc
  {
    if m.lock.Some? && m.lock.value < |m.pcs| then m.pcs[m.lock.value] else Outside
  }

  /** How far the lock owner has carried the sequential state `base`. */
  ghost predicate Pending(timeout: real, base: State, data: State, pc: Pc)
  {
    match pc
    case Storing(message) =>
      && base.queue != [] && message == base.queue[0]
      && data == State(base.queue[1..], base.inFlight)
    case Scanning(clocks, toDelete) =>
      && |clocks| <= |base.inFlight| && data.inFlight == base.inFlight
      && Scanned(timeout, base.inFlight, clocks, base.queue, data.queue, toDelete)
    case Purging(clocks, toDelete, d) =>
      && |clocks| == |base.inFlight| && d <= |toDelete|
      && Scanned(timeout, base.inFlight, clocks, base.queue, data.queue, toDelete)
      && data.inFlight == WithoutAll(base.inFlight, toDelete[..d])
    case _ => data == base
  }

  ghost predicate DataInv(timeout: real, m: Machine)
  {
    && Runs.ValidRun(timeout, m.committed)
    && Pending(timeout, Runs.Exec(timeout, m.committed).st, m.data, OwnerPc(m))
  }

  /** The committed operations do not change the state except as one more step. */
  lemma Commit(timeout: real, ops: seq<Op>, op: Op)
    requires Runs.ValidRun(timeout, ops) && Runs.Allowed(Runs.Exec(timeout, ops), op)
    ensures Runs.ValidRun(timeout, ops + [op])
    ensures Runs.Exec(timeout, ops + [op]).st == Apply(timeout, Runs.Exec(timeout, ops).st, op)
  {
    Cls.Extended(timeout, ops, op);
  }

  lemma {:induction false} PublishedWasCommitted(timeout: real, ops: seq<Op>, x: Message)
    requires Runs.ValidRun(timeout, ops) && x in Runs.Exec(timeout, ops).published
    ensures Op.Publish(x) in ops
  {
    var n := |ops| - 1;
    var log := Runs.Exec(timeout, ops[..n]);
    if x in log.published {
      PublishedWasCommitted(timeout, ops[..n], x);
    }
  }

  lemma FreshIsAllowed(timeout: real, ops: seq<Op>, message: Message)
    requires Runs.ValidRun(timeout, ops) && FreshFor(ops, message.id)
    ensures Runs.Allowed(Runs.Exec(timeout, ops), Op.Publish(message))
  {
    var published := Runs.Exec(timeout, ops).published;
    forall i | 0 <= i < |published|
      ensures Ids(published)[i] != message.id
    {
      PublishedWasCommitted(timeout, ops, published[i]);
    }
  }

  lemma AppendData(timeout: real, m: Machine, s: Step)
    requires LockInv(m) && DataInv(timeout, m) && Enabled(m, s) && s.Append?
    ensures DataInv(timeout, Next(timeout, m, s))
  {
    var message := Message(s.id, m.pcs[s.t].body);
    FreshIsAllowed(timeout, m.committed, message);
    Commit(timeout, m.committed, Op.Publish(message));
  }

  lemma StoreData(timeout: real, m: Machine, s: Step)
    requires LockInv(m) && DataInv(timeout, m) && Enabled(m, s) && s.Store?
    ensures DataInv(timeout, Next(timeout, m, s))
  {
    assert HoldsLock(m.pcs[s.t]);
    Commit(timeout, m.committed, Op.Receive(s.now));
  }

  lemma DeleteData(timeout: real, m: Machine, s: Step)
    requires LockInv(m) && DataInv(timeout, m) && Enabled(m, s) && s.Delete?
    ensures DataInv(timeout, Next(timeout, m, s))
  {
    assert HoldsLock(m.pcs[s.t]) && OwnerPc(m) == m.pcs[s.t];
    assert m.data == Runs.Exec(timeout, m.committed).st;
    Commit(timeout, m.committed, Op.Ack(m.pcs[s.t].id, s.at));
  }

  lemma ScanOneData(timeout: real, m: Machine, s: Step)
    requires LockInv(m) && DataInv(timeout, m) && Enabled(m, s) && s.ScanOne?
    ensures DataInv(timeout, Next(timeout, m, s))
  {
    assert HoldsLock(m.pcs[s.t]);
    var pc := m.pcs[s.t];
    var base := Runs.Exec(timeout, m.committed).st;
    ScannedOneMore(timeout, base.inFlight, pc.clocks, s.clock, base.queue, m.data.queue, pc.toDelete);
  }

  lemma ScanDoneData(timeout: real, m: Machine, s: Step)
    requires LockInv(m) && DataInv(timeout, m) && Enabled(m, s) && s.ScanDone?
    ensures DataInv(timeout, Next(timeout, m, s))
  {
    assert HoldsLock(m.pcs[s.t]);
  }

  lemma PurgeOnePending(timeout: real, base: State, data: State, pc: Pc)
    requires pc.Purging? && Pending(timeout, base, data, pc) && pc.d < |pc.toDelete|
    ensures Pending(timeout, base, data.(inFlight := Without(data.inFlight, pc.toDelete[pc.d])), pc.(d := pc.d + 1))
  {
    assert pc.toDelete[..pc.d + 1][..pc.d] == pc.toDelete[..pc.d];
  }

  lemma PurgeOneData(timeout: real, m: Machine, s: Step)
    requires LockInv(m) && DataInv(timeout, m) && Enabled(m, s) && s.PurgeOne?
    ensures DataInv(timeout, Next(timeout, m, s))
  {
    assert HoldsLock(m.pcs[s.t]);
    PurgeOnePending(timeout, Runs.Exec(timeout, m.committed).st, m.data, m.pcs[s.t]);
  }

  /** A finished purge has carried out the whole requeue. */
  lemma PurgedIsRequeued(timeout: real, base: State, data: State, pc: Pc)
    requires pc.Purging? && Pending(timeout, base, data, pc) && pc.d == |pc.toDelete| && UniqueKeys(base.inFlight)
    ensures data == Apply(timeout, base, Op.Requeue(pc.clocks))
  {
    assert pc.toDelete[..pc.d] == pc.toDelete && base.inFlight[..|pc.clocks|] == base.inFlight;
    PurgeLeavesSurvivors(timeout, base.inFlight, pc.clocks);
  }

  lemma PurgeDoneData(timeout: real, m: Machine, s: Step)
    requires LockInv(m) && DataInv(timeout, m) && Enabled(m, s) && s.PurgeDone?
    ensures DataInv(timeout, Next(timeout, m, s))
  {
    assert HoldsLock(m.pcs[s.t]);
    var pc, base := m.pcs[s.t], Runs.Exec(timeout, m.committed).st;
    Cls.KeysUnique(timeout, m.committed);
    PurgedIsRequeued(timeout, base, m.data, pc);
    Commit(timeout, m.committed, Op.Requeue(pc.clocks));
  }

  lemma TakeData(timeout: real, m: Machine, s: Step)
    requires LockInv(m) && DataInv(timeout, m) && Enabled(m, s) && s.Take?
    ensures DataInv(timeout, Next(timeout, m, s))
  {
    assert HoldsLock(m.pcs[s.t]);
  }

  /** The data is still what the committed operations made it. */
  predicate AtBase(pc: Pc)
  {
    !pc.Storing? && !pc.Scanning? && !pc.Purging?
  }

  lemma SameData(timeout: real, m: Machine, n: Machine)
    requires DataInv(timeout, m) && n.data == m.data && n.committed == m.committed
    requires OwnerPc(n) == OwnerPc(m) || (AtBase(OwnerPc(n)) && AtBase(OwnerPc(m)))
    ensures DataInv(timeout, n)
  {
  }

  /** A thread that neither takes nor holds the lock leaves the owner where it was. */
  lemma BystanderData(timeout: real, m: Machine, s: Step)
    requires LockInv(m) && DataInv(timeout, m) && Enabled(m, s) && (s.Invoke? || s.WakeUp?)
    ensures DataInv(timeout, Next(timeout, m, s))
  {
    assert !HoldsLock(m.pcs[s.t]);
    SameData(timeout, m, Next(timeout, m, s));
  }

  /** A thread that takes the free lock has done nothing yet. */
  lemma EnteringData(timeout: real, m: Machine, s: Step)
    requires LockInv(m) && DataInv(timeout, m) && Enabled(m, s) && (s.Enter? || s.Reenter?)
    ensures DataInv(timeout, Next(timeout, m, s))
  {
    var n := Next(timeout, m, s);
    assert OwnerPc(m) == Outside;
    if s.Enter? && m.pcs[s.t].call.Requeue? {
      assert OwnerPc(n) == Scanning([], []);
      assert m.data == Runs.Exec(timeout, m.committed).st;
    } else {
      SameData(timeout, m, n);
    }
  }

  /** The owner moves on without touching the data or the record. */
  lemma QuietOwnerData(timeout: real, m: Machine, s: Step)
    requires LockInv(m) && DataInv(timeout, m) && Enabled(m, s)
    requires s.NotifyAll? || s.Sleep? || s.GiveUp? || s.Leave?
    ensures DataInv(timeout, Next(timeout, m, s))
  {
    assert HoldsLock(m.pcs[s.t]);
  }

  lemma StepInv(timeout: real, m: Machine, s: Step)
    requires LockInv(m) && SleepInv(m) && DataInv(timeout, m) && Enabled(m, s)
    ensures var n := Next(timeout, m, s); LockInv(n) && SleepInv(n) && DataInv(timeout, n)
  {
    LockStep(timeout, m, s);
    SleepStep(timeout, m, s);
    match s {
      case Append(_, _) => AppendData(timeout, m, s);
      case Store(_, _) => StoreData(timeout, m, s);
      case Delete(_, _) => DeleteData(timeout, m, s);
      case ScanOne(_, _) => ScanOneData(timeout, m, s);
      case ScanDone(_) => ScanDoneData(timeout, m, s);
      case PurgeOne(_) => PurgeOneData(timeout, m, s);
      case PurgeDone(_) => PurgeDoneData(timeout, m, s);
      case Take(_) => TakeData(timeout, m, s);
      case NotifyAll(_) => QuietOwnerData(timeout, m, s);
      case Sleep(_) => QuietOwnerData(timeout, m, s);
      case GiveUp(_) => QuietOwnerData(timeout, m, s);
      case Leave(_) => QuietOwnerData(timeout, m, s);
      case Enter(_) => EnteringData(timeout, m, s);
      case Reenter(_) => EnteringData(timeout, m, s);
      case _ => BystanderData(timeout, m, s);
    }
  }

  lemma {:induction false} ReachInv(timeout: real, m: Machine, steps: seq<Step>, n: Machine)
    requires LockInv(m) && SleepInv(m) && DataInv(timeout, m) && Reaches(timeout, m, steps, n)
    ensures LockInv(n) && SleepInv(n) && DataInv(timeout, n)
    decreases |steps|
  {
    if steps != [] {
      StepInv(timeout, m, steps[0]);
      ReachInv(timeout, Next(timeout, m, steps[0]), steps[1..], n);
    }
  }

  /** Whatever the threads do, whenever the lock is free the queue and the dict
      are what the committed operations make of an empty queue one after another,
      and no receiver is asleep beside a message. Every theorem about sequential
      runs therefore holds of the threaded queue. */
  lemma ThreadsRunSequentially(timeout: real, k: nat, steps: seq<Step>, m: Machine)
    requires Reaches(timeout, Start(k), steps, m) && m.lock == None
    ensures Runs.ValidRun(timeout, m.committed) && m.data == Runs.Exec(timeout, m.committed).st
    ensures (exists t :: 0 <= t < |m.pcs| && m.pcs[t].Asleep?) ==> m.data.queue == []
  {
    ReachInv(timeout, Start(k), steps, m);
  }

  /** `receive` returns None only while it holds the lock and the sequential queue
      is empty. */
  lemma NoneMeansEmpty(timeout: real, k: nat, steps: seq<Step>, m: Machine, t: nat)
    requires Reaches(timeout, Start(k), steps, m) && Enabled(m, GiveUp(t))
    ensures m.lock == Some(t)
    ensures Runs.ValidRun(timeout, m.committed) && Runs.Exec(timeout, m.committed).st.queue == []
  {
    ReachInv(timeout, Start(k), steps, m);
    assert HoldsLock(m.pcs[t]);
  }

  /* ---- The lock is always released ---- */

  /** The most steps its owner can still take before the lock is free; a scan may
      yet collect every entry it has not looked at. */
  function OwnerWork(data: State, pc: Pc): int
  {
    match pc
    case Appending(_) => 3
    case Checking(_) => 3
    case Storing(_) => 2
    case Deleting(_) => 2
    case Scanning(clocks, toDelete) => 2 * (|data.inFlight| - |clocks|) + |toDelete| + 4
    case Purging(_, toDelete, d) => |toDelete| - d + 3
    case Notifying(_) => 2
    case Leaving(_) => 1
    case _ => 0
  }

  lemma FreshOne(ops: seq<Op>) returns (id: string)
    ensures FreshFor(ops, id)
  {
    id := LongerThanAll(ops);
  }

  lemma {:induction false} LongerThanAll(ops: seq<Op>) returns (id: string)
    ensures forall op :: op in ops && op.Publish? ==> |op.message.id| < |id|
  {
    id := "x";
    if ops != [] {
      var n := |ops| - 1;
      id := LongerThanAll(ops[..n]);
      if ops[n].Publish? {
        id := id + ops[n].message.id + "x";
      }
      assert forall op :: op in ops ==> op == ops[n] || op in ops[..n];
    }
  }

  lemma OwnerMoves(m: Machine)
    requires LockInv(m) && m.lock.Some?
    ensures exists s :: Enabled(m, s) && s.t == m.lock.value
  {
    var t := m.lock.value;
    var pc := m.pcs[t];
    if pc.Appending? {
      var id := FreshOne(m.committed);
      assert Enabled(m, Append(t, id));
    } else if pc.Checking? {
      assert Enabled(m, if m.data.queue == [] then Sleep(t) else Take(t));
    } else if pc.Storing? {
      assert Enabled(m, Store(t, 0.0));
    } else if pc.Deleting? {
      assert Enabled(m, Delete(t, 0.0));
    } else if pc.Scanning? {
      assert Enabled(m, if |pc.clocks| < |m.data.inFlight| then ScanOne(t, 0.0) else ScanDone(t));
    } else if pc.Purging? {
      assert Enabled(m, if pc.d < |pc.toDelete| then PurgeOne(t) else PurgeDone(t));
    } else if pc.Notifying? {
      assert Enabled(m, NotifyAll(t));
    } else {
      assert Enabled(m, Leave(t));
    }
  }

  lemma WorkIsPositive(timeout: real, m: Machine)
    requires LockInv(m) && DataInv(timeout, m) && m.lock.Some?
    ensures OwnerWork(m.data, OwnerPc(m)) > 0
  {
    assert HoldsLock(m.pcs[m.lock.value]);
  }

  /** A scan has not looked at more entries than there are, a purge has not
      deleted more than was collected. */
  predicate InBounds(data: State, pc: Pc)
  {
    match pc
    case Scanning(clocks, _) => |clocks| <= |data.inFlight|
    case Purging(_, toDelete, d) => d <= |toDelete|
    case _ => true
  }

  lemma OwnerInBounds(timeout: real, m: Machine)
    requires DataInv(timeout, m)
    ensures InBounds(m.data, OwnerPc(m))
  {
  }

  lemma OwnStep(timeout: real, m: Machine, s: Step)
    requires Enabled(m, s) && HoldsLock(m.pcs[s.t]) && InBounds(m.data, m.pcs[s.t])
    ensures
      var n := Next(timeout, m, s);
      n.lock == None || (n.lock == m.lock && OwnerWork(n.data, n.pcs[s.t]) < OwnerWork(m.data, m.pcs[s.t]))
  {
  }

  lemma OtherStep(timeout: real, m: Machine, s: Step)
    requires LockInv(m) && Enabled(m, s) && m.lock.Some? && s.t != m.lock.value
    ensures
      var n := Next(timeout, m, s);
      n.lock == m.lock && n.data == m.data && n.pcs[m.lock.value] == m.pcs[m.lock.value]
  {
    assert !HoldsLock(m.pcs[s.t]);
  }

  /** A step of the owner frees the lock or uses up work; no other thread's step
      takes the lock away or changes what is left to do. */
  lemma OwnerWorkStep(timeout: real, m: Machine, s: Step)
    requires LockInv(m) && DataInv(timeout, m) && Enabled(m, s) && m.lock.Some?
    ensures
      var n := Next(timeout, m, s);
      var before, after := OwnerWork(m.data, OwnerPc(m)), OwnerWork(n.data, OwnerPc(n));
      if s.t == m.lock.value then n.lock == None || (n.lock == m.lock && after < before)
      else n.lock == m.lock && after == before
  {
    if s.t == m.lock.value {
      OwnerInBounds(timeout, m);
      OwnStep(timeout, m, s);
    } else {
      OtherStep(timeout, m, s);
    }
  }

  /** Thread t holds the lock all along the run. */
  ghost predicate HoldsAllAlong(timeout: real, m: Machine, steps: seq<Step>, t: nat)
    decreases |steps|
  {
    && m.lock == Some(t)
    && (steps != [] && Enabled(m, steps[0]) ==> HoldsAllAlong(timeout, Next(timeout, m, steps[0]), steps[1..], t))
  }

  function StepsOf(steps: seq<Step>, t: nat): nat
  {
    if steps == [] then 0 else (if steps[0].t == t then 1 else 0) + StepsOf(steps[1..], t)
  }

  lemma {:induction false} OwnerUsesWork(timeout: real, m: Machine, steps: seq<Step>, n: Machine, t: nat)
    requires LockInv(m) && SleepInv(m) && DataInv(timeout, m)
    requires Reaches(timeout, m, steps, n) && HoldsAllAlong(timeout, m, steps, t)
    ensures StepsOf(steps, t) < OwnerWork(m.data, OwnerPc(m))
    decreases |steps|
  {
    WorkIsPositive(timeout, m);
    if steps != [] {
      StepInv(timeout, m, steps[0]);
      OwnerWorkStep(timeout, m, steps[0]);
      OwnerUsesWork(timeout, Next(timeout, m, steps[0]), steps[1..], n, t);
    }
  }

  /** No thread holds the lock for ever: its owner always has a step to take, and
      while it keeps the lock it takes fewer than `OwnerWork` of them, whatever
      the other threads do in between. */
  lemma LockIsReleased(timeout: real, k: nat, before: seq<Step>, m: Machine, steps: seq<Step>, n: Machine, t: nat)
    requires Reaches(timeout, Start(k), before, m)
    requires Reaches(timeout, m, steps, n) && HoldsAllAlong(timeout, m, steps, t)
    ensures exists s :: Enabled(m, s) && s.t == t
    ensures StepsOf(steps, t) < OwnerWork(m.data, OwnerPc(m))
  {
    ReachInv(timeout, Start(k), before, m);
    OwnerMoves(m);
    OwnerUsesWork(timeout, m, steps, n, t);
  }

  /* ---- No deadlock ---- */

  /** Steps that need neither a new call nor a timer or spurious wakeup. */
  predicate Helps(s: Step)
  {
    !s.Invoke? && !s.WakeUp?
  }

  /** The thread is outside or has nothing to wait for but a message. */
  predicate AtRest(m: Machine, t: nat)
    requires t < |m.pcs|
  {
    m.pcs[t].Outside? || (m.pcs[t].Asleep? && m.data.queue == [])
  }

  lemma RestlessMoves(m: Machine, t: nat)
    requires LockInv(m) && SleepInv(m) && t < |m.pcs| && !AtRest(m, t)
    ensures exists s :: Enabled(m, s) && Helps(s)
  {
    if m.lock.Some? {
      OwnerMoves(m);
      var s :| Enabled(m, s) && s.t == m.lock.value;
      assert HoldsLock(m.pcs[s.t]);
    } else {
      assert !HoldsLock(m.pcs[t]);
      var s := if m.pcs[t].Calling? then Enter(t) else Reenter(t);
      assert Enabled(m, s) && Helps(s);
    }
  }

  /** No deadlock: on every run no step can be taken, other than new calls and
      timer or spurious wakeups, exactly when every thread is outside or asleep on
      an empty queue. */
  lemma StuckIffAllAtRest(timeout: real, k: nat, steps: seq<Step>, m: Machine)
    requires Reaches(timeout, Start(k), steps, m)
    ensures (exists s :: Enabled(m, s) && Helps(s)) <==> (exists t: nat :: t < |m.pcs| && !AtRest(m, t))
  {
    ReachInv(timeout, Start(k), steps, m);
    if s :| Enabled(m, s) && Helps(s) {
      assert !AtRest(m, s.t);
    }
    if t: nat :| t < |m.pcs| && !AtRest(m, t) {
      RestlessMoves(m, t);
    }
  }

  /* ---- The clock of the threads is the clock of the sequential run ---- */

  /** The clock readings of a run, in the order in which they happen. */
  function Readings(steps: seq<Step>): seq<real>
  {
    if steps == [] then [] else Reading(steps[0]) + Readings(steps[1..])
  }

  function Reading(s: Step): seq<real>
  {
    match s
    case Store(_, now) => [now]
    case Delete(_, at) => [at]
    case ScanOne(_, clock) => [clock]
    case _ => []
  }

  /** The readings tied to committed operations, in their order. */
  function Committed(ops: seq<Op>): seq<real>
  {
    if ops == [] then [] else Committed(ops[..|ops| - 1]) + Timing.Instants(ops[|ops| - 1])
  }

  lemma CommittedSnoc(ops: seq<Op>, op: Op)
    ensures Committed(ops + [op]) == Committed(ops) + Timing.Instants(op)
  {
    assert (ops + [op])[..|ops|] == ops;
  }

  /** What the owner has read for an operation not yet committed. */
  function Uncommitted(pc: Pc): seq<real>
  {
    match pc
    case Scanning(clocks, _) => clocks
    case Purging(clocks, _, _) => clocks
    case _ => []
  }

  function ReadSoFar(m: Machine): seq<real>
  {
    Committed(m.committed) + Uncommitted(OwnerPc(m))
  }

  /** Completing an operation commits what was read for it. */
  lemma CommitReads(timeout: real, m: Machine, s: Step, op: Op)
    requires LockInv(m) && Enabled(m, s)
    requires Next(timeout, m, s).committed == m.committed + [op]
    requires Uncommitted(m.pcs[s.t]) + Reading(s) == Timing.Instants(op)
    requires m.lock == Some(s.t) && Uncommitted(OwnerPc(Next(timeout, m, s))) == []
    ensures ReadSoFar(Next(timeout, m, s)) == ReadSoFar(m) + Reading(s)
  {
    CommittedSnoc(m.committed, op);
    assert OwnerPc(m) == m.pcs[s.t];
  }

  lemma OwnerReads(timeout: real, m: Machine, s: Step)
    requires LockInv(m) && Enabled(m, s) && m.lock == Some(s.t)
    ensures ReadSoFar(Next(timeout, m, s)) == ReadSoFar(m) + Reading(s)
  {
    var pc := m.pcs[s.t];
    assert OwnerPc(m) == pc;
    match s {
      case Append(_, id) => CommitReads(timeout, m, s, Op.Publish(Message(id, pc.body)));
      case Store(_, now) => CommitReads(timeout, m, s, Op.Receive(now));
      case Delete(_, at) => CommitReads(timeout, m, s, Op.Ack(pc.id, at));
      case PurgeDone(_) => CommitReads(timeout, m, s, Op.Requeue(pc.clocks));
      case _ => QuietReads(timeout, m, s);
    }
  }

  lemma QuietReads(timeout: real, m: Machine, s: Step)
    requires LockInv(m) && Enabled(m, s) && m.lock == Some(s.t)
    requires !s.Append? && !s.Store? && !s.Delete? && !s.PurgeDone?
    ensures ReadSoFar(Next(timeout, m, s)) == ReadSoFar(m) + Reading(s)
  {
    var n := Next(timeout, m, s);
    assert n.committed == m.committed;
    assert Uncommitted(OwnerPc(n)) == Uncommitted(m.pcs[s.t]) + Reading(s);
  }

  lemma OtherReads(timeout: real, m: Machine, s: Step)
    requires LockInv(m) && Enabled(m, s) && m.lock != Some(s.t)
    ensures ReadSoFar(Next(timeout, m, s)) == ReadSoFar(m) + Reading(s)
  {
    assert !HoldsLock(m.pcs[s.t]);
    var n := Next(timeout, m, s);
    assert n.committed == m.committed && Reading(s) == [];
    assert Uncommitted(OwnerPc(n)) == Uncommitted(OwnerPc(m));
  }

  lemma {:induction false} ReachReads(timeout: real, m: Machine, steps: seq<Step>, n: Machine)
    requires LockInv(m) && Reaches(timeout, m, steps, n)
    ensures ReadSoFar(n) == ReadSoFar(m) + Readings(steps)
    decreases |steps|
  {
    if steps != [] {
      LockStep(timeout, m, steps[0]);
      if m.lock == Some(steps[0].t) {
        OwnerReads(timeout, m, steps[0]);
      } else {
        OtherReads(timeout, m, steps[0]);
      }
      ReachReads(timeout, Next(timeout, m, steps[0]), steps[1..], n);
      Assoc(ReadSoFar(m), Reading(steps[0]), Readings(steps[1..]));
    }
  }

  lemma Assoc(a: seq<real>, b: seq<real>, c: seq<real>)
    ensures (a + b) + c == a + (b + c)
  {
  }

  ghost predicate Sorted(xs: seq<real>)
  {
    forall i, j :: 0 <= i < j < |xs| ==> xs[i] <= xs[j]
  }

  lemma {:induction false} InstantsAmong(ops: seq<Op>, i: nat, c: real)
    requires i < |ops| && c in Timing.Instants(ops[i])
    ensures c in Committed(ops)
  {
    if i < |ops| - 1 {
      InstantsAmong(ops[..|ops| - 1], i, c);
    }
  }

  lemma {:induction false} SortedIsMonotone(ops: seq<Op>)
    requires Sorted(Committed(ops))
    ensures Timing.Monotone(ops)
  {
    if ops != [] {
      var n := |ops| - 1;
      var init := ops[..n];
      assert forall i :: 0 <= i < |Committed(init)| ==> Committed(init)[i] == Committed(ops)[i];
      SortedIsMonotone(init);
      forall i, j, c, d | 0 <= i < j < |ops| && c in Timing.Instants(ops[i]) && d in Timing.Instants(ops[j])
        ensures c <= d
      {
        if j == n {
          InstantsAmong(init, i, c);
          SortedAcross(Committed(init), Timing.Instants(ops[n]), c, d);
        } else {
          assert init[i] == ops[i] && init[j] == ops[j];
        }
      }
    }
  }

  lemma SortedAcross(xs: seq<real>, ys: seq<real>, c: real, d: real)
    requires Sorted(xs + ys) && c in xs && d in ys
    ensures c <= d
  {
    var i :| 0 <= i < |xs| && xs[i] == c;
    var j :| 0 <= j < |ys| && ys[j] == d;
    assert (xs + ys)[i] == c && (xs + ys)[|xs| + j] == d;
  }

  /** When the readings of a threaded run never go back, the sequential run it
      commits has a monotone clock. */
  lemma ThreadsKeepTheClockInOrder(timeout: real, k: nat, steps: seq<Step>, m: Machine)
    requires Reaches(timeout, Start(k), steps, m) && Sorted(Readings(steps))
    ensures Timing.Monotone(m.committed)
  {
    ReachReads(timeout, Start(k), steps, m);
    var read := Committed(m.committed);
    assert read + Uncommitted(OwnerPc(m)) == Readings(steps);
    assert forall i :: 0 <= i < |read| ==> read[i] == Readings(steps)[i];
    SortedIsMonotone(m.committed);
  }

  /** So timely acknowledgements give exactly-once delivery to threads as well. */
  lemma ThreadedTimelyAcks(timeout: real, k: nat, steps: seq<Step>, m: Machine, logs: seq<Runs.Log>)
    requires Reaches(timeout, Start(k), steps, m) && Sorted(Readings(steps))
    requires Timing.Trace(timeout, m.committed, logs)
    requires Timing.AckedInTime(timeout, m.committed, logs) && Timing.AcksAnswerDeliveries(timeout, m.committed, logs)
    ensures logs[|m.committed|].requeued == []
    ensures forall x :: multiset(logs[|m.committed|].delivered)[x] <= 1
    ensures forall a :: 0 <= a < |m.committed| && m.committed[a].Ack? ==>
      Runs.Retires(logs[a].st, m.committed[a]).Some?
  {
    ThreadsKeepTheClockInOrder(timeout, k, steps, m);
    Timing.TimelyAcksGiveExactlyOnce(timeout, m.committed, logs);
  }
}
