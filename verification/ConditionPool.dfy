/** The condition-variable pool under threads: `borrow` and `return_conn` statement
    by statement, with barging borrowers, spurious wakeups and timeouts. */
module ConditionPool {
  import opened Prelude
  import Spec = PoolSpec

  type Conn = Spec.Conn

  datatype Pc =
    | Outside
    | Calling                // waiting for the lock at the start of borrow
    | Checking(resumed: bool) // at the while test, lock held; resumed by notify
    | Taking(conn: Conn)     // popped, lock still held
    | Asleep                 // in wait, lock released
    | Notified               // woken by notify, lock not yet reacquired
    | Spurious               // woken for no reason
    | TimedOut               // wait gave up
    | Raising                // about to raise TimeoutError, lock held
    | Holding(conn: Conn)    // using the connection, no lock
    | Returning(conn: Conn)  // waiting for the lock in return_conn
    | Appending(conn: Conn)
    | Notifying              // appended, about to notify
    | Leaving

  /** `idle` is the list; borrowers pop its end. */
  datatype Machine = Machine(idle: seq<Conn>, lock: Option<nat>, pcs: seq<Pc>)

  datatype Step =
    | Invoke(t: nat)
    | Enter(t: nat)
    | Pop(t: nat)
    | Sleep(t: nat)
    | WakeSpuriously(t: nat)
    | TimeOut(t: nat)
    | Resume(t: nat)
    | Release(t: nat)
    | GiveBack(t: nat)
    | Append(t: nat)
    | Notify(t: nat, woken: nat)

  function Start(conns: seq<Conn>, k: nat): Machine
  {
    Machine(conns, None, seq(k, _ => Outside))
  }

  predicate HoldsLock(pc: Pc)
  {
    pc.Checking? || pc.Taking? || pc.Raising? || pc.Appending? || pc.Notifying? || pc.Leaving?
  }

  predicate IsAsleep(m: Machine, t: nat) { t < |m.pcs| && m.pcs[t].Asleep? }

  /** Threads in the waiter set, and those notified that have not yet resumed. */
  function Sleepers(m: Machine): set<nat> { set t: nat | t < |m.pcs| && m.pcs[t].Asleep? }

  function Woken(m: Machine): set<nat> { set t: nat | t < |m.pcs| && m.pcs[t].Notified? }

  /** `notify` wakes one sleeper, any one, if there is one. */
  predicate Enabled(m: Machine, s: Step)
  {
    && s.t < |m.pcs|
    && var pc := m.pcs[s.t];
       match s
       case Invoke(_) => pc.Outside?
       case Enter(_) => (pc.Calling? || pc.Returning?) && m.lock == None
       case Pop(_) => pc.Checking? && m.idle != []
       case Sleep(_) => pc.Checking? && m.idle == []
       case WakeSpuriously(_) => pc.Asleep?
       case TimeOut(_) => pc.Asleep?
       case Resume(_) => (pc.Notified? || pc.Spurious? || pc.TimedOut?) && m.lock == None
       case Release(_) => pc.Taking? || pc.Raising? || pc.Leaving?
       case GiveBack(_) => pc.Holding?
       case Append(_) => pc.Appending?
       case Notify(_, w) => pc.Notifying? && (IsAsleep(m, w) || Sleepers(m) == {})
  }

  function Move(m: Machine, t: nat, pc: Pc): Machine
    requires t < |m.pcs|
  {
    m.(pcs := m.pcs[t := pc])
  }

  function Next(m: Machine, s: Step): Machine
    requires Enabled(m, s)
  {
    var pc := m.pcs[s.t];
    match s
    case Invoke(t) => Move(m, t, Calling)
    case Enter(t) => Move(m, t, if pc.Calling? then Checking(false) else Appending(pc.conn)).(lock := Some(t))
    case Pop(t) =>
      var last := |m.idle| - 1;
      Move(m, t, Taking(m.idle[last])).(idle := m.idle[..last])
    case Sleep(t) => Move(m, t, Asleep).(lock := None)
    case WakeSpuriously(t) => Move(m, t, Spurious)
    case TimeOut(t) => Move(m, t, TimedOut)
    case Resume(t) =>
      Move(m, t, if pc.TimedOut? then Raising else Checking(pc.Notified?)).(lock := Some(t))
    case Release(t) => Move(m, t, if pc.Taking? then Holding(pc.conn) else Outside).(lock := None)
    case GiveBack(t) => Move(m, t, Returning(pc.conn))
    case Append(t) => Move(m, t, Notifying).(idle := m.idle + [pc.conn])
    case Notify(t, w) =>
      if IsAsleep(m, w) then m.(pcs := m.pcs[w := Notified][t := Leaving]) else Move(m, t, Leaving)
  }

  ghost predicate Reaches(m: Machine, steps: seq<Step>, n: Machine)
    decreases |steps|
  {
    if steps == [] then m == n
    else Enabled(m, steps[0]) && Reaches(Next(m, steps[0]), steps[1..], n)
  }

  /* ---- Mutual exclusion and the wakeup count ---- */

  ghost predicate LockInv(m: Machine)
  {
    && (m.lock.Some? ==> m.lock.value < |m.pcs|)
    && forall t: nat :: t < |m.pcs| ==> (HoldsLock(m.pcs[t]) <==> m.lock == Some(t))
  }

  /** One connection may be idle on account of the lock owner: it has appended it
      and not yet notified, or it was notified of it and has not yet popped. */
  function Slack(m: Machine): nat
  {
    if m.lock.Some? && m.lock.value < |m.pcs|
       && (m.pcs[m.lock.value].Notifying? || m.pcs[m.lock.value] == Checking(true))
    then 1 else 0
  }

  ghost predicate WakeInv(m: Machine)
  {
    Sleepers(m) != {} ==> |m.idle| <= |Woken(m)| + Slack(m)
  }

  lemma LockStep(m: Machine, s: Step)
    requires LockInv(m) && Enabled(m, s)
    ensures LockInv(Next(m, s))
  {
  }

  lemma SleeperLeaves(m: Machine, s: Step)
    requires WakeInv(m) && Enabled(m, s) && (s.WakeSpuriously? || s.TimeOut?)
    ensures WakeInv(Next(m, s))
  {
    var n := Next(m, s);
    assert Sleepers(n) == Sleepers(m) - {s.t} && Woken(n) == Woken(m);
  }

  lemma ResumeWake(m: Machine, s: Step)
    requires WakeInv(m) && Enabled(m, s) && s.Resume?
    ensures WakeInv(Next(m, s))
  {
    var n := Next(m, s);
    assert Sleepers(n) == Sleepers(m) && Woken(n) == Woken(m) - {s.t};
  }

  lemma NotifyWake(m: Machine, s: Step)
    requires LockInv(m) && WakeInv(m) && Enabled(m, s) && s.Notify?
    ensures WakeInv(Next(m, s))
  {
    var n := Next(m, s);
    assert m.lock == Some(s.t) by {
      assert HoldsLock(m.pcs[s.t]);
    }
    if IsAsleep(m, s.woken) {
      assert s.woken in Sleepers(m);
      assert Woken(n) == Woken(m) + {s.woken};
    } else {
      assert Sleepers(n) == {};
    }
  }

  lemma OtherWake(m: Machine, s: Step)
    requires LockInv(m) && WakeInv(m) && Enabled(m, s)
    requires s.Invoke? || s.Enter? || s.Pop? || s.Release? || s.GiveBack? || s.Append?
    ensures WakeInv(Next(m, s))
  {
    var n := Next(m, s);
    assert Sleepers(n) == Sleepers(m) && Woken(n) == Woken(m);
    assert HoldsLock(m.pcs[s.t]) ==> m.lock == Some(s.t);
  }

  lemma WakeStep(m: Machine, s: Step)
    requires LockInv(m) && WakeInv(m) && Enabled(m, s)
    ensures WakeInv(Next(m, s))
  {
    match s {
      case Sleep(_) =>
      case WakeSpuriously(_) => SleeperLeaves(m, s);
      case TimeOut(_) => SleeperLeaves(m, s);
      case Resume(_) => ResumeWake(m, s);
      case Notify(_, _) => NotifyWake(m, s);
      case _ => OtherWake(m, s);
    }
  }

  lemma {:induction false} ReachWakeInv(m: Machine, steps: seq<Step>, n: Machine)
    requires LockInv(m) && WakeInv(m) && Reaches(m, steps, n)
    ensures LockInv(n) && WakeInv(n)
    decreases |steps|
  {
    if steps != [] {
      LockStep(m, steps[0]);
      WakeStep(m, steps[0]);
      ReachWakeInv(Next(m, steps[0]), steps[1..], n);
    }
  }

  /** No lost wakeup with wake-one: whenever the lock is free and some thread is
      asleep in `borrow`, there are at least as many notified threads on their way
      as idle connections. So a connection never sits idle while all waiters
      sleep: some notified thread can take the lock. */
  lemma NoLostWakeup(conns: seq<Conn>, k: nat, steps: seq<Step>, m: Machine)
    requires Reaches(Start(conns, k), steps, m)
    requires m.lock == None && Sleepers(m) != {}
    ensures |m.idle| <= |Woken(m)|
    ensures m.idle != [] ==> exists t: nat :: Enabled(m, Resume(t)) && m.pcs[t].Notified?
  {
    StartInv(conns, k);
    ReachWakeInv(Start(conns, k), steps, m);
    if m.idle != [] {
      var t :| t in Woken(m);
      assert Enabled(m, Resume(t));
    }
  }

  /* ---- The lock is always released ---- */

  /** The most steps its owner can still take before the lock is free. */
  function OwnerWork(pc: Pc): nat
  {
    match pc
    case Appending(_) => 3
    case Checking(_) => 2
    case Notifying => 2
    case Taking(_) => 1
    case Raising => 1
    case Leaving => 1
    case _ => 0
  }

  lemma OwnerMoves(m: Machine)
    requires LockInv(m) && m.lock.Some?
    ensures exists s :: Enabled(m, s) && s.t == m.lock.value && Helps(s)
  {
    var t := m.lock.value;
    var pc := m.pcs[t];
    if pc.Checking? {
      var s := if m.idle == [] then Sleep(t) else Pop(t);
      assert Enabled(m, s) && Helps(s);
    } else if pc.Appending? {
      assert Enabled(m, Append(t)) && Helps(Append(t));
    } else if pc.Notifying? {
      var w: nat :| Sleepers(m) != {} ==> w in Sleepers(m);
      assert Enabled(m, Notify(t, w)) && Helps(Notify(t, w));
    } else {
      assert Enabled(m, Release(t)) && Helps(Release(t));
    }
  }

  /** A step of the owner frees the lock or uses up work; no other thread's step
      takes the lock away or changes what is left to do. */
  lemma OwnerWorkStep(m: Machine, s: Step)
    requires LockInv(m) && Enabled(m, s) && m.lock.Some?
    ensures
      var n, t := Next(m, s), m.lock.value;
      if s.t == t then n.lock == None || (n.lock == m.lock && OwnerWork(n.pcs[t]) < OwnerWork(m.pcs[t]))
      else n.lock == m.lock && n.pcs[t] == m.pcs[t]
  {
    if s.t != m.lock.value {
      assert !HoldsLock(m.pcs[s.t]);
    }
  }

  /** Thread t holds the lock all along the run. */
  ghost predicate HoldsAllAlong(m: Machine, steps: seq<Step>, t: nat)
    decreases |steps|
  {
    && m.lock == Some(t)
    && (steps != [] && Enabled(m, steps[0]) ==> HoldsAllAlong(Next(m, steps[0]), steps[1..], t))
  }

  function StepsOf(steps: seq<Step>, t: nat): nat
  {
    if steps == [] then 0 else (if steps[0].t == t then 1 else 0) + StepsOf(steps[1..], t)
  }

  lemma {:induction false} OwnerUsesWork(m: Machine, steps: seq<Step>, n: Machine, t: nat)
    requires LockInv(m) && Reaches(m, steps, n) && HoldsAllAlong(m, steps, t)
    ensures StepsOf(steps, t) < OwnerWork(m.pcs[t])
    decreases |steps|
  {
    assert HoldsLock(m.pcs[t]);
    if steps != [] {
      LockStep(m, steps[0]);
      OwnerWorkStep(m, steps[0]);
      OwnerUsesWork(Next(m, steps[0]), steps[1..], n, t);
    }
  }

  lemma StartInv(conns: seq<Conn>, k: nat)
    ensures LockInv(Start(conns, k)) && WakeInv(Start(conns, k))
  {
    assert Sleepers(Start(conns, k)) == {};
  }

  /** No thread holds the lock for ever: its owner always has a step to take, and
      frees the lock with its third step at the latest, whatever the other threads
      do in between. */
  lemma LockIsReleased(
      conns: seq<Conn>, k: nat, before: seq<Step>, m: Machine, steps: seq<Step>, n: Machine, t: nat)
    requires Reaches(Start(conns, k), before, m)
    requires Reaches(m, steps, n) && HoldsAllAlong(m, steps, t)
    ensures exists s :: Enabled(m, s) && s.t == t
    ensures StepsOf(steps, t) < 3
  {
    StartInv(conns, k);
    ReachWakeInv(Start(conns, k), before, m);
    OwnerMoves(m);
    OwnerUsesWork(m, steps, n, t);
  }

  /* ---- No deadlock ---- */

  /** Steps that do not depend on a timer, a spurious wakeup or a new caller. */
  predicate Helps(s: Step)
  {
    !s.Invoke? && !s.TimeOut? && !s.WakeSpuriously?
  }

  /** A thread that neither sleeps nor is outside can move once the lock is free. */
  lemma AwakeMoves(m: Machine, t: nat)
    requires LockInv(m) && m.lock == None && t < |m.pcs| && !m.pcs[t].Outside? && !m.pcs[t].Asleep?
    ensures exists s :: Enabled(m, s) && Helps(s)
  {
    assert !HoldsLock(m.pcs[t]);
    var s := if m.pcs[t].Holding? then GiveBack(t)
             else if m.pcs[t].Calling? || m.pcs[t].Returning? then Enter(t) else Resume(t);
    assert Enabled(m, s) && Helps(s);
  }

  /** No deadlock on a pool that is not empty: while any thread is inside `borrow`,
      asleep or not, or has a connection, some step can be taken that is no
      timeout, no spurious wakeup and no new call. */
  lemma NoDeadlock(conns: seq<Conn>, k: nat, steps: seq<Step>, m: Machine)
    requires NoDuplicates(conns) && conns != [] && Reaches(Start(conns, k), steps, m)
    requires exists t: nat :: t < |m.pcs| && !m.pcs[t].Outside?
    ensures exists s :: Enabled(m, s) && Helps(s)
  {
    StartInv(conns, k);
    ReachWakeInv(Start(conns, k), steps, m);
    if m.lock.Some? {
      OwnerMoves(m);
    } else if m.idle == [] {
      LifoPoolConserves(conns, k, steps, m);
      var t :| t in Held(m);
      AwakeMoves(m, t);
    } else if Sleepers(m) != {} {
      NoLostWakeup(conns, k, steps, m);
      var t: nat :| Enabled(m, Resume(t));
      assert Helps(Resume(t));
    } else {
      var t: nat :| t < |m.pcs| && !m.pcs[t].Outside?;
      assert t !in Sleepers(m);
      AwakeMoves(m, t);
    }
  }

  /* ---- Refinement of the pool specification ---- */

  predicate HasConn(pc: Pc)
  {
    pc.Taking? || pc.Holding? || pc.Returning? || pc.Appending?
  }

  function Held(m: Machine): map<nat, Conn>
  {
    map t: nat | t < |m.pcs| && HasConn(m.pcs[t]) :: m.pcs[t].conn
  }

  function Abstract(m: Machine): Spec.Spec
  {
    Spec.Spec(Spec.Members(m.idle), Held(m))
  }

  lemma PopRefines(m: Machine, s: Step)
    requires s.Pop? && Enabled(m, s) && NoDuplicates(m.idle)
    ensures Spec.Borrow(Abstract(m), Abstract(Next(m, s))) && NoDuplicates(Next(m, s).idle)
  {
    var n, last := Next(m, s), |m.idle| - 1;
    var c := m.idle[last];
    assert m.idle == n.idle + [c];
    assert Spec.Members(n.idle) == Spec.Members(m.idle) - {c};
    assert Held(n) == Held(m)[s.t := c];
    assert c in Spec.Members(m.idle) && s.t !in Held(m);
  }

  lemma AppendRefines(all: set<Conn>, m: Machine, s: Step)
    requires s.Append? && Enabled(m, s) && NoDuplicates(m.idle) && Spec.Inv(all, Abstract(m))
    ensures Spec.Return(Abstract(m), Abstract(Next(m, s))) && NoDuplicates(Next(m, s).idle)
  {
    var n, c := Next(m, s), m.pcs[s.t].conn;
    assert s.t in Held(m) && Held(m)[s.t] == c;
    assert c in Held(m).Values;
    assert c !in Spec.Members(m.idle);
    assert Spec.Members(n.idle) == Spec.Members(m.idle) + {c};
    assert Held(n) == Held(m) - {s.t};
  }

  /** Popping refines the abstract borrow, appending the abstract return, and
      nothing else touches a connection. */
  lemma StepRefines(all: set<Conn>, m: Machine, s: Step)
    requires Enabled(m, s) && NoDuplicates(m.idle) && Spec.Inv(all, Abstract(m))
    ensures Spec.Step(Abstract(m), Abstract(Next(m, s))) && NoDuplicates(Next(m, s).idle)
  {
    if s.Pop? {
      PopRefines(m, s);
    } else if s.Append? {
      AppendRefines(all, m, s);
    } else {
      assert Held(Next(m, s)) == Held(m);
    }
  }

  lemma {:induction false} ReachRefines(all: set<Conn>, m: Machine, steps: seq<Step>, n: Machine)
    requires Reaches(m, steps, n) && NoDuplicates(m.idle) && Spec.Inv(all, Abstract(m))
    ensures NoDuplicates(n.idle) && Spec.Inv(all, Abstract(n))
    decreases |steps|
  {
    if steps != [] {
      StepRefines(all, m, steps[0]);
      Spec.StepKeepsInv(all, Abstract(m), Abstract(Next(m, steps[0])));
      ReachRefines(all, Next(m, steps[0]), steps[1..], n);
    }
  }

  /** On every run idle plus held is a permutation of the initial connections, no
      connection has two holders, and at most all of them are held. */
  lemma LifoPoolConserves(conns: seq<Conn>, k: nat, steps: seq<Step>, m: Machine)
    requires NoDuplicates(conns) && Reaches(Start(conns, k), steps, m)
    ensures NoDuplicates(m.idle) && Spec.Inv(Spec.Members(conns), Abstract(m))
    ensures |m.idle| + |Held(m)| == |conns|
  {
    StartsFull(conns, k);
    ReachRefines(Spec.Members(conns), Start(conns, k), steps, m);
    Spec.Conservation(Spec.Members(conns), Abstract(m));
    Spec.MembersSize(m.idle);
  }

  /* ---- The order of reissue ---- */

  /** The list keeps at least h connections all along the run. */
  ghost predicate KeepsAtLeast(m: Machine, steps: seq<Step>, h: nat)
    decreases |steps|
  {
    && h <= |m.idle|
    && (steps != [] && Enabled(m, steps[0]) ==> KeepsAtLeast(Next(m, steps[0]), steps[1..], h))
  }

  lemma {:induction false} BottomUntouched(m: Machine, steps: seq<Step>, n: Machine, h: nat)
    requires Reaches(m, steps, n) && KeepsAtLeast(m, steps, h)
    ensures h <= |n.idle| && n.idle[..h] == m.idle[..h]
    decreases |steps|
  {
    if steps != [] {
      var next := Next(m, steps[0]);
      BottomUntouched(next, steps[1..], n, h);
      assert next.idle[..h] == m.idle[..h];
    }
  }

  /** A connection returned on top of `below` is the next to be issued once all
      those returned after it are out again; nothing of `below` goes before it. */
  lemma ReturnedLastIssuedFirst(
      m: Machine, below: seq<Conn>, c: Conn, steps: seq<Step>, n: Machine, t: nat)
    requires m.idle == below + [c] && Reaches(m, steps, n) && KeepsAtLeast(m, steps, |below| + 1)
    requires Enabled(n, Pop(t)) && |n.idle| == |below| + 1
    ensures Next(n, Pop(t)).pcs[t] == Taking(c) && Next(n, Pop(t)).idle == below
  {
    BottomUntouched(m, steps, n, |below| + 1);
    assert n.idle == n.idle[..|below| + 1] == m.idle[..|below| + 1] == below + [c];
  }

  /* ---- A timeout beside an idle connection ---- */

  ghost predicate Leads(m: Machine, n: Machine)
  {
    exists steps :: Reaches(m, steps, n)
  }

  lemma {:induction false} ReachesOn(m: Machine, first: seq<Step>, n: Machine, second: seq<Step>, o: Machine)
    requires Reaches(m, first, n) && Reaches(n, second, o)
    ensures Reaches(m, first + second, o)
    decreases |first|
  {
    if first == [] {
      assert first + second == second;
    } else {
      ReachesOn(Next(m, first[0]), first[1..], n, second, o);
      assert (first + second)[1..] == first[1..] + second;
    }
  }

  lemma LeadsOn(m: Machine, n: Machine, o: Machine)
    requires Leads(m, n) && Leads(n, o)
    ensures Leads(m, o)
  {
    var first :| Reaches(m, first, n);
    var second :| Reaches(n, second, o);
    ReachesOn(m, first, n, second, o);
  }

  lemma OneStep(m: Machine, s: Step)
    requires Enabled(m, s)
    ensures Leads(m, Next(m, s))
  {
    assert [s][1..] == [];
    assert Reaches(m, [s], Next(m, s));
  }

  /** Takes step s after whatever led from m to n. */
  lemma ThenStep(m: Machine, n: Machine, s: Step) returns (o: Machine)
    requires Leads(m, n) && Enabled(n, s)
    ensures o == Next(n, s) && Leads(m, o)
  {
    o := Next(n, s);
    OneStep(n, s);
    LeadsOn(m, n, o);
  }

  /** A thread outside enters `borrow` as far as the while test. */
  lemma Arrives(m: Machine, t: nat)
    requires m.lock == None && t < |m.pcs| && m.pcs[t].Outside?
    ensures Leads(m, Machine(m.idle, Some(t), m.pcs[t := Checking(false)]))
  {
    OneStep(m, Invoke(t));
    var n := ThenStep(m, Next(m, Invoke(t)), Enter(t));
    assert n == Machine(m.idle, Some(t), m.pcs[t := Checking(false)]);
  }

  lemma BorrowsOne(m: Machine, t: nat)
    requires m.lock == None && t < |m.pcs| && m.pcs[t].Outside? && m.idle != []
    ensures
      var last := |m.idle| - 1;
      Leads(m, Machine(m.idle[..last], None, m.pcs[t := Holding(m.idle[last])]))
  {
    Arrives(m, t);
    var last := |m.idle| - 1;
    var n := ThenStep(m, Machine(m.idle, Some(t), m.pcs[t := Checking(false)]), Pop(t));
    n := ThenStep(m, n, Release(t));
    assert n == Machine(m.idle[..last], None, m.pcs[t := Holding(m.idle[last])]);
  }

  lemma WaitsInVain(m: Machine, t: nat)
    requires m.lock == None && t < |m.pcs| && m.pcs[t].Outside? && m.idle == []
    ensures Leads(m, Machine([], None, m.pcs[t := TimedOut]))
  {
    Arrives(m, t);
    var n := ThenStep(m, Machine([], Some(t), m.pcs[t := Checking(false)]), Sleep(t));
    n := ThenStep(m, n, TimeOut(t));
    assert n == Machine([], None, m.pcs[t := TimedOut]);
  }

  lemma EntersToReturn(m: Machine, t: nat, c: Conn)
    requires m.lock == None && t < |m.pcs| && m.pcs[t] == Holding(c)
    ensures Leads(m, Machine(m.idle + [c], Some(t), m.pcs[t := Notifying]))
  {
    OneStep(m, GiveBack(t));
    var n := ThenStep(m, Next(m, GiveBack(t)), Enter(t));
    n := ThenStep(m, n, Append(t));
    assert n == Machine(m.idle + [c], Some(t), m.pcs[t := Notifying]);
  }

  lemma ReturnsOne(m: Machine, t: nat, c: Conn)
    requires m.lock == None && t < |m.pcs| && m.pcs[t] == Holding(c) && Sleepers(m) == {}
    ensures Leads(m, Machine(m.idle + [c], None, m.pcs[t := Outside]))
  {
    EntersToReturn(m, t, c);
    var n := Machine(m.idle + [c], Some(t), m.pcs[t := Notifying]);
    assert Sleepers(n) == {} by {
      assert forall i: nat :: i < |n.pcs| && n.pcs[i].Asleep? ==> i in Sleepers(m);
    }
    assert !IsAsleep(n, t);
    n := ThenStep(m, n, Notify(t, t));
    n := ThenStep(m, n, Release(t));
    assert n == Machine(m.idle + [c], None, m.pcs[t := Outside]);
  }

  /** The first j of k threads hold the connections popped so far. */
  function Lent(conns: seq<Conn>, k: nat, j: nat): Machine
    requires j <= |conns|
  {
    Machine(conns[..|conns| - j], None,
            seq(k, i requires 0 <= i => if i < j then Holding(conns[|conns| - 1 - i]) else Outside))
  }

  lemma {:induction false} AllLent(conns: seq<Conn>, k: nat, j: nat)
    requires j <= |conns| <= k
    ensures Leads(Start(conns, k), Lent(conns, k, j))
  {
    if j == 0 {
      assert Lent(conns, k, 0) == Start(conns, k);
      assert Reaches(Start(conns, k), [], Lent(conns, k, 0));
    } else {
      AllLent(conns, k, j - 1);
      var m := Lent(conns, k, j - 1);
      var last := |m.idle| - 1;
      BorrowsOne(m, j - 1);
      assert m.idle[..last] == conns[..|conns| - j];
      assert m.pcs[j - 1 := Holding(m.idle[last])] == Lent(conns, k, j).pcs;
      LeadsOn(Start(conns, k), m, Lent(conns, k, j));
    }
  }

  /** Some thread raises TimeoutError beside an idle connection. */
  ghost predicate RaisesBesideIdle(m: Machine)
  {
    m.idle != [] && exists t: nat :: t < |m.pcs| && m.pcs[t].Raising?
  }

  /** With fewer connections than threads: all are out, one more thread's wait times
      out, and a connection comes back before it has the lock again. The list is not
      looked at again. */
  lemma TimeoutBesideIdle(conns: seq<Conn>, k: nat) returns (m: Machine)
    requires 1 <= |conns| < k
    ensures Leads(Start(conns, k), m) && RaisesBesideIdle(m)
  {
    var p, start := |conns|, Start(conns, k);
    AllLent(conns, k, p);
    var lent := Lent(conns, k, p);
    WaitsInVain(lent, p);
    var late := Machine([], None, lent.pcs[p := TimedOut]);
    LeadsOn(start, lent, late);
    ReturnsOne(late, 0, conns[p - 1]);
    m := Machine([] + [conns[p - 1]], None, late.pcs[0 := Outside]);
    LeadsOn(start, late, m);
    m := ThenStep(start, m, Resume(p));
    assert m.pcs[p].Raising?;
  }

  /** Asleep, or woken from there and not back at the while test. */
  predicate Waited(pc: Pc)
  {
    pc.Asleep? || pc.Notified? || pc.Spurious? || pc.TimedOut? || pc.Raising?
  }

  ghost predicate NobodyWaited(m: Machine)
  {
    forall t: nat :: t < |m.pcs| ==> !Waited(m.pcs[t])
  }

  function Below(n: nat): (s: set<nat>)
    ensures |s| == n && forall t: nat :: t in s <==> t < n
  {
    if n == 0 then {} else Below(n - 1) + {n - 1}
  }

  /** With a connection for every thread the list is not empty while a thread looks
      for one. */
  lemma EnoughForAll(all: set<Conn>, m: Machine, t: nat)
    requires NoDuplicates(m.idle) && Spec.Inv(all, Abstract(m)) && |m.pcs| <= |all|
    requires t < |m.pcs| && !HasConn(m.pcs[t])
    ensures m.idle != []
  {
    var others := Below(|m.pcs|) - {t};
    Spec.Conservation(all, Abstract(m));
    assert Held(m).Keys <= others;
    SubsetSize(Held(m).Keys, others);
    assert |Held(m)| == |Held(m).Keys|;
  }

  lemma NobodyWaitsStep(all: set<Conn>, m: Machine, s: Step)
    requires NoDuplicates(m.idle) && Spec.Inv(all, Abstract(m)) && |m.pcs| <= |all|
    requires NobodyWaited(m) && Enabled(m, s)
    ensures NobodyWaited(Next(m, s)) && |Next(m, s).pcs| == |m.pcs|
  {
    if s.Sleep? {
      EnoughForAll(all, m, s.t);
    } else {
      OnlySleepersWait(m, s);
    }
  }

  lemma OnlySleepersWait(m: Machine, s: Step)
    requires NobodyWaited(m) && Enabled(m, s) && !s.Sleep?
    ensures NobodyWaited(Next(m, s)) && |Next(m, s).pcs| == |m.pcs|
  {
    var n := Next(m, s);
    assert !Waited(m.pcs[s.t]);
    assert s.Notify? ==> !IsAsleep(m, s.woken);
    assert n.pcs == m.pcs[s.t := n.pcs[s.t]];
  }

  lemma {:induction false} NobodyWaits(all: set<Conn>, m: Machine, steps: seq<Step>, n: Machine)
    requires NoDuplicates(m.idle) && Spec.Inv(all, Abstract(m)) && |m.pcs| <= |all|
    requires NobodyWaited(m) && Reaches(m, steps, n)
    ensures NobodyWaited(n)
    decreases |steps|
  {
    if steps != [] {
      var next := Next(m, steps[0]);
      NobodyWaitsStep(all, m, steps[0]);
      StepRefines(all, m, steps[0]);
      Spec.StepKeepsInv(all, Abstract(m), Abstract(next));
      NobodyWaits(all, next, steps[1..], n);
    }
  }

  /** Without connections none is idle, and with one for every thread nobody ever
      waits. */
  lemma NeverBesideIdle(conns: seq<Conn>, k: nat, steps: seq<Step>, m: Machine)
    requires NoDuplicates(conns) && Reaches(Start(conns, k), steps, m)
    requires conns == [] || k <= |conns|
    ensures !RaisesBesideIdle(m)
  {
    if conns == [] {
      LifoPoolConserves(conns, k, steps, m);
    } else {
      StartsFull(conns, k);
      NobodyWaits(Spec.Members(conns), Start(conns, k), steps, m);
    }
  }

  lemma StartsFull(conns: seq<Conn>, k: nat)
    requires NoDuplicates(conns)
    ensures Spec.Inv(Spec.Members(conns), Abstract(Start(conns, k))) && |Spec.Members(conns)| == |conns|
    ensures NobodyWaited(Start(conns, k))
  {
    Spec.MembersSize(conns);
    assert Held(Start(conns, k)) == map[];
  }

  /** `borrow` can raise TimeoutError beside an idle connection exactly when there
      are connections but fewer than threads. */
  lemma TimeoutBesideIdleIff(conns: seq<Conn>, k: nat)
    requires NoDuplicates(conns)
    ensures (exists m :: Leads(Start(conns, k), m) && RaisesBesideIdle(m)) <==> 1 <= |conns| < k
  {
    if 1 <= |conns| < k {
      var m := TimeoutBesideIdle(conns, k);
    } else {
      forall m | Leads(Start(conns, k), m)
        ensures !RaisesBesideIdle(m)
      {
        var steps :| Reaches(Start(conns, k), steps, m);
        NeverBesideIdle(conns, k, steps, m);
      }
    }
  }

  /* ---- How `borrow` can end ---- */

  /** TimeoutError is raised only by a thread whose own wait has timed out: not by
      one that was notified or woken for no reason and found the list empty. */
  lemma {:induction false} RaisesOnlyAfterTimeOut(m: Machine, steps: seq<Step>, n: Machine, t: nat)
    requires Reaches(m, steps, n) && t < |m.pcs|
    requires !m.pcs[t].TimedOut? && !m.pcs[t].Raising?
    requires forall i :: 0 <= i < |steps| ==> steps[i] != TimeOut(t)
    ensures t < |n.pcs| && !n.pcs[t].TimedOut? && !n.pcs[t].Raising?
    decreases |steps|
  {
    if steps != [] {
      assert steps[0] != TimeOut(t);
      assert forall i :: 0 <= i < |steps[1..]| ==> steps[1..][i] == steps[i + 1];
      RaisesOnlyAfterTimeOut(Next(m, steps[0]), steps[1..], n, t);
    }
  }

  /** In `borrow`, with neither a connection nor a timeout so far. */
  predicate Seeking(pc: Pc)
  {
    pc.Calling? || pc.Checking? || pc.Asleep? || pc.Notified? || pc.Spurious?
  }

  /** Without a connection and without a timeout a thread stays in `borrow`, however
      often it is woken. */
  lemma {:induction false} SeeksUntilPopOrTimeOut(m: Machine, steps: seq<Step>, n: Machine, t: nat)
    requires Reaches(m, steps, n) && t < |m.pcs| && Seeking(m.pcs[t])
    requires forall i :: 0 <= i < |steps| ==> steps[i] != TimeOut(t) && steps[i] != Pop(t)
    ensures t < |n.pcs| && Seeking(n.pcs[t])
    decreases |steps|
  {
    if steps != [] {
      assert steps[0] != TimeOut(t) && steps[0] != Pop(t);
      assert forall i :: 0 <= i < |steps[1..]| ==> steps[1..][i] == steps[i + 1];
      SeeksUntilPopOrTimeOut(Next(m, steps[0]), steps[1..], n, t);
    }
  }

  /** A woken thread that finds the list empty goes back to sleep. */
  lemma WokenWaitsAgain(m: Machine, t: nat)
    requires m.lock == None && t < |m.pcs| && (m.pcs[t].Notified? || m.pcs[t].Spurious?) && m.idle == []
    ensures Leads(m, Machine([], None, m.pcs[t := Asleep]))
  {
    OneStep(m, Resume(t));
    var n := ThenStep(m, Next(m, Resume(t)), Sleep(t));
    assert n == Machine([], None, m.pcs[t := Asleep]);
  }

  /** A sleeper may wake for no reason and take an idle connection meant for
      another. */
  lemma SleeperMayBarge(m: Machine, t: nat)
    requires m.lock == None && t < |m.pcs| && m.pcs[t].Asleep? && m.idle != []
    ensures
      var last := |m.idle| - 1;
      Leads(m, Machine(m.idle[..last], None, m.pcs[t := Holding(m.idle[last])]))
  {
    OneStep(m, WakeSpuriously(t));
    var n := ThenStep(m, Next(m, WakeSpuriously(t)), Resume(t));
    n := ThenStep(m, n, Pop(t));
    n := ThenStep(m, n, Release(t));
    assert n == Machine(m.idle[..|m.idle| - 1], None, m.pcs[t := Holding(m.idle[|m.idle| - 1])]);
  }

  /** A wait may time out at any time, and the thread then raises whatever the list
      holds. */
  lemma SleeperMayTimeOut(m: Machine, t: nat)
    requires m.lock == None && t < |m.pcs| && m.pcs[t].Asleep?
    ensures Leads(m, Machine(m.idle, Some(t), m.pcs[t := Raising]))
  {
    OneStep(m, TimeOut(t));
    var n := ThenStep(m, Next(m, TimeOut(t)), Resume(t));
    assert n == Machine(m.idle, Some(t), m.pcs[t := Raising]);
  }

  lemma ReturnsToSleeper(m: Machine, t: nat, c: Conn, w: nat)
    requires m.lock == None && t < |m.pcs| && m.pcs[t] == Holding(c) && IsAsleep(m, w)
    ensures Leads(m, Machine(m.idle + [c], None, m.pcs[t := Outside][w := Notified]))
  {
    EntersToReturn(m, t, c);
    var n := Machine(m.idle + [c], Some(t), m.pcs[t := Notifying]);
    n := ThenStep(m, n, Notify(t, w));
    n := ThenStep(m, n, Release(t));
    assert n.pcs == m.pcs[t := Outside][w := Notified];
  }

  /** Three threads and one connection: thread 1 is notified of its return, thread 2
      takes it first, and thread 1 waits again. */
  lemma BargedBorrowerWaitsAgain(c: Conn)
    ensures Leads(Start([c], 3), Machine([], None, [Outside, Notified, Holding(c)]))
    ensures Leads(Machine([], None, [Outside, Notified, Holding(c)]), Machine([], None, [Outside, Asleep, Holding(c)]))
  {
    var start := Start([c], 3);
    BorrowsOne(start, 0);
    var m := Machine([], None, [Holding(c), Outside, Outside]);
    assert Machine([c][..0], None, start.pcs[0 := Holding(c)]) == m;
    Arrives(m, 1);
    LeadsOn(start, m, Machine([], Some(1), m.pcs[1 := Checking(false)]));
    var sleeping := ThenStep(start, Machine([], Some(1), m.pcs[1 := Checking(false)]), Sleep(1));
    assert sleeping == Machine([], None, [Holding(c), Asleep, Outside]);
    BargedFrom(start, c);
    WokenWaitsAgain(Machine([], None, [Outside, Notified, Holding(c)]), 1);
    assert [Outside, Notified, Holding(c)][1 := Asleep] == [Outside, Asleep, Holding(c)];
  }

  lemma BargedFrom(start: Machine, c: Conn)
    requires Leads(start, Machine([], None, [Holding(c), Asleep, Outside]))
    ensures Leads(start, Machine([], None, [Outside, Notified, Holding(c)]))
  {
    var sleeping := Machine([], None, [Holding(c), Asleep, Outside]);
    var notified := Machine([c], None, [Outside, Notified, Outside]);
    ReturnsToSleeper(sleeping, 0, c, 1);
    assert Machine([] + [c], None, sleeping.pcs[0 := Outside][1 := Notified]) == notified;
    BorrowsOne(notified, 2);
    assert Machine([c][..0], None, notified.pcs[2 := Holding(c)]) == Machine([], None, [Outside, Notified, Holding(c)]);
    LeadsOn(start, sleeping, notified);
    LeadsOn(start, notified, Machine([], None, [Outside, Notified, Holding(c)]));
  }

  function Notifies(steps: seq<Step>): nat
  {
    if steps == [] then 0 else (if steps[0].Notify? then 1 else 0) + Notifies(steps[1..])
  }

  lemma NotifyWakesOne(m: Machine, s: Step)
    requires Enabled(m, s)
    ensures Woken(Next(m, s)) <= Woken(m) + if s.Notify? then {s.woken} else {}
  {
  }

  /** `notify` wakes one thread: no run has more notified threads than returns. */
  lemma {:induction false} WokenAtMostNotifies(m: Machine, steps: seq<Step>, n: Machine)
    requires Reaches(m, steps, n)
    ensures |Woken(n)| <= |Woken(m)| + Notifies(steps)
    decreases |steps|
  {
    if steps != [] {
      var next, s := Next(m, steps[0]), steps[0];
      NotifyWakesOne(m, s);
      SubsetSize(Woken(next), Woken(m) + if s.Notify? then {s.woken} else {});
      WokenAtMostNotifies(next, steps[1..], n);
    }
  }
}
