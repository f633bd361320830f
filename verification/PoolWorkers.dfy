/** The demo of the bounded-queue pools, for any number of workers: each borrows,
    executes and returns, or gives up waiting; when all have finished the pool is
    closed. */
module PoolWorkers {
  import opened Prelude
  import Spec = PoolSpec
  import Fifo = FifoOrder

  type Conn = Spec.Conn

  /** Crashed: executed on a closed connection and never returned it. */
  datatype Worker = Waiting | Using(conn: Conn) | Used(conn: Conn) | Done | GaveUp | Crashed

  /** `size` bounds the queue `idle`; `closed` lists closed connections in order. */
  datatype System = System(size: nat, idle: seq<Conn>, workers: seq<Worker>, closed: seq<Conn>)

  datatype Step = Get(w: nat) | GiveUp(w: nat) | Execute(w: nat) | Release(w: nat) | CloseNext

  function Start(conns: seq<Conn>, workers: nat): System
  {
    System(|conns|, conns, seq(workers, _ => Waiting), [])
  }

  predicate Finished(w: Worker) { w.Done? || w.GaveUp? || w.Crashed? }

  predicate AllFinished(s: System)
  {
    forall w :: 0 <= w < |s.workers| ==> Finished(s.workers[w])
  }

  /** A wait may time out at any moment; a return needs room in the queue. */
  predicate Enabled(s: System, step: Step)
  {
    if step.CloseNext? then AllFinished(s) && s.idle != []
    else
      && step.w < |s.workers|
      && var worker := s.workers[step.w];
         match step
         case Get(_) => worker.Waiting? && s.idle != []
         case GiveUp(_) => worker.Waiting?
         case Execute(_) => worker.Using?
         case Release(_) => worker.Used? && |s.idle| < s.size
  }

  function Next(s: System, step: Step): System
    requires Enabled(s, step)
  {
    match step
    case Get(w) => s.(idle := s.idle[1..], workers := s.workers[w := Using(s.idle[0])])
    case GiveUp(w) => s.(workers := s.workers[w := GaveUp])
    case Execute(w) =>
      var conn := s.workers[w].conn;
      s.(workers := s.workers[w := if conn in s.closed then Crashed else Used(conn)])
    case Release(w) => s.(idle := s.idle + [s.workers[w].conn], workers := s.workers[w := Done])
    case CloseNext => s.(idle := s.idle[1..], closed := s.closed + [s.idle[0]])
  }

  ghost predicate Reaches(s: System, steps: seq<Step>, t: System)
    decreases |steps|
  {
    if steps == [] then s == t
    else Enabled(s, steps[0]) && Reaches(Next(s, steps[0]), steps[1..], t)
  }

  function Held(s: System): map<nat, Conn>
  {
    map w: nat | w < |s.workers| && (s.workers[w].Using? || s.workers[w].Used?) :: s.workers[w].conn
  }

  function Abstract(s: System): Spec.Spec
  {
    Spec.Spec(Spec.Members(s.idle), Held(s))
  }

  /** The open connections satisfy the pool specification; closing starts only
      when no worker is left. */
  ghost predicate Inv(all: set<Conn>, s: System)
  {
    && s.size == |all|
    && NoDuplicates(s.idle) && NoDuplicates(s.closed)
    && Spec.Members(s.closed) <= all
    && Spec.Inv(all - Spec.Members(s.closed), Abstract(s))
    && (s.closed != [] ==> AllFinished(s))
    && forall w :: 0 <= w < |s.workers| ==> !s.workers[w].Crashed?
  }

  lemma GetRefines(all: set<Conn>, s: System, step: Step)
    requires step.Get? && Enabled(s, step) && Inv(all, s)
    ensures Spec.Borrow(Abstract(s), Abstract(Next(s, step))) && Inv(all, Next(s, step))
  {
    var t, c := Next(s, step), s.idle[0];
    assert s.closed == [] by { assert !Finished(s.workers[step.w]); }
    assert s.idle == [c] + t.idle;
    assert Spec.Members(t.idle) == Spec.Members(s.idle) - {c};
    assert Held(t) == Held(s)[step.w := c];
    assert c in Spec.Members(s.idle) && step.w !in Held(s);
    Spec.StepKeepsInv(all - Spec.Members(s.closed), Abstract(s), Abstract(t));
  }

  lemma ReleaseRefines(all: set<Conn>, s: System, step: Step)
    requires step.Release? && Enabled(s, step) && Inv(all, s)
    ensures Spec.Return(Abstract(s), Abstract(Next(s, step))) && Inv(all, Next(s, step))
  {
    var t, c := Next(s, step), s.workers[step.w].conn;
    assert s.closed == [] by { assert !Finished(s.workers[step.w]); }
    assert step.w in Held(s) && Held(s)[step.w] == c;
    assert c in Held(s).Values;
    assert c !in Spec.Members(s.idle);
    assert Spec.Members(t.idle) == Spec.Members(s.idle) + {c};
    assert Held(t) == Held(s) - {step.w};
    Spec.StepKeepsInv(all - Spec.Members(s.closed), Abstract(s), Abstract(t));
  }

  lemma CloseKeeps(all: set<Conn>, s: System)
    requires Enabled(s, CloseNext) && Inv(all, s)
    ensures Inv(all, Next(s, CloseNext))
  {
    var t, c := Next(s, CloseNext), s.idle[0];
    assert s.idle == [c] + t.idle;
    assert c in Spec.Members(s.idle);
    assert Held(s) == map[] && Held(t) == map[];
    assert Spec.Members(t.idle) == Spec.Members(s.idle) - {c};
    assert Spec.Members(t.closed) == Spec.Members(s.closed) + {c};
    assert c !in Spec.Members(s.closed);
  }

  lemma QuietKeeps(all: set<Conn>, s: System, step: Step)
    requires (step.Execute? || step.GiveUp?) && Enabled(s, step) && Inv(all, s)
    ensures Inv(all, Next(s, step)) && Abstract(Next(s, step)) == Abstract(s)
  {
    assert s.closed == [] by { assert !Finished(s.workers[step.w]); }
    assert Held(Next(s, step)) == Held(s);
  }

  lemma StepKeeps(all: set<Conn>, s: System, step: Step)
    requires Enabled(s, step) && Inv(all, s)
    ensures Inv(all, Next(s, step))
  {
    match step {
      case Get(_) => GetRefines(all, s, step);
      case Release(_) => ReleaseRefines(all, s, step);
      case CloseNext => CloseKeeps(all, s);
      case _ => QuietKeeps(all, s, step);
    }
  }

  /* ---- Termination ---- */

  /** The steps a worker still has to take, and one for closing the connection it
      holds. A worker that gave up has two left that it never takes, so that giving
      up counts as one step like any other. */
  function Weight(w: Worker): nat
  {
    match w
    case Waiting => 3
    case Using(_) => 3
    case Used(_) => 2
    case Crashed => 2
    case GaveUp => 2
    case Done => 0
  }

  function Weights(ws: seq<Worker>): (r: seq<nat>)
    ensures |r| == |ws|
  {
    seq(|ws|, i requires 0 <= i < |ws| => Weight(ws[i]))
  }

  function Measure(s: System): nat { Sum(Weights(s.workers)) + |s.idle| }

  /** Every step takes exactly one off the measure. */
  lemma MeasureDrops(s: System, step: Step)
    requires Enabled(s, step)
    ensures Measure(Next(s, step)) == Measure(s) - 1
  {
    var t := Next(s, step);
    if !step.CloseNext? {
      assert Weights(t.workers) == Weights(s.workers)[step.w := Weight(t.workers[step.w])];
      SumUpdate(Weights(s.workers), step.w, Weight(t.workers[step.w]));
    }
  }

  lemma {:induction false} ReachInv(all: set<Conn>, s: System, steps: seq<Step>, t: System)
    requires Inv(all, s) && Reaches(s, steps, t)
    ensures Inv(all, t) && |t.workers| == |s.workers|
    ensures Measure(t) + |steps| == Measure(s)
    decreases |steps|
  {
    if steps != [] {
      StepKeeps(all, s, steps[0]);
      MeasureDrops(s, steps[0]);
      ReachInv(all, Next(s, steps[0]), steps[1..], t);
    }
  }

  lemma StartInv(conns: seq<Conn>, workers: nat)
    requires NoDuplicates(conns)
    ensures Inv(Spec.Members(conns), Start(conns, workers))
    ensures Measure(Start(conns, workers)) == 3 * workers + |conns|
  {
    var s := Start(conns, workers);
    assert Held(s) == map[];
    Spec.MembersSize(conns);
    assert Spec.Members(conns) - Spec.Members([]) == Spec.Members(conns);
    SumConstant(Weights(s.workers), 3);
  }

  lemma InvCounts(all: set<Conn>, s: System)
    requires Inv(all, s)
    ensures |s.idle| + |Held(s)| + |s.closed| == |all|
  {
    Spec.Conservation(all - Spec.Members(s.closed), Abstract(s));
    Spec.MembersSize(s.idle);
    Spec.MembersSize(s.closed);
    DifferenceSize(all, Spec.Members(s.closed));
  }

  lemma DifferenceSize(a: set<Conn>, b: set<Conn>)
    requires b <= a
    ensures |a - b| == |a| - |b|
  {
    assert a == (a - b) + b;
  }

  lemma WorkerIsSafe(all: set<Conn>, s: System, w: nat)
    requires Inv(all, s) && w < |s.workers|
    ensures s.workers[w].Using? ==> s.workers[w].conn !in s.closed
    ensures s.workers[w].Used? ==> Enabled(s, Release(w))
  {
    if s.workers[w].Used? {
      InvCounts(all, s);
      assert w in Held(s);
      assert |Held(s)| > 0;
    }
  }

  /** Safety of every run over P distinct connections: idle, held and closed are
      the P connections in one place each, at most P workers hold one, no return
      blocks, nobody ever executes on a closed connection, and nothing is closed
      before the last worker has finished. */
  lemma RunsAreSafe(conns: seq<Conn>, workers: nat, steps: seq<Step>, s: System)
    requires NoDuplicates(conns) && Reaches(Start(conns, workers), steps, s)
    ensures Inv(Spec.Members(conns), s)
    ensures |s.idle| + |Held(s)| + |s.closed| == |conns|
    ensures forall w :: 0 <= w < |s.workers| && s.workers[w].Used? ==> Enabled(s, Release(w))
    ensures forall w :: 0 <= w < |s.workers| && s.workers[w].Using? ==> s.workers[w].conn !in s.closed
    ensures forall w :: 0 <= w < |s.workers| ==> !s.workers[w].Crashed?
  {
    var all := Spec.Members(conns);
    StartInv(conns, workers);
    ReachInv(all, Start(conns, workers), steps, s);
    InvCounts(all, s);
    Spec.MembersSize(conns);
    forall w | 0 <= w < |s.workers|
      ensures s.workers[w].Using? ==> s.workers[w].conn !in s.closed
      ensures s.workers[w].Used? ==> Enabled(s, Release(w))
    {
      WorkerIsSafe(all, s, w);
    }
  }

  /** No deadlock, without counting on timeouts: while a worker is unfinished some
      worker can get, execute or release. */
  lemma NoDeadlock(conns: seq<Conn>, workers: nat, steps: seq<Step>, s: System)
    requires NoDuplicates(conns) && conns != [] && Reaches(Start(conns, workers), steps, s)
    requires !AllFinished(s)
    ensures exists step :: Enabled(s, step) && !step.GiveUp? && !step.CloseNext?
  {
    RunsAreSafe(conns, workers, steps, s);
    if w :| 0 <= w < |s.workers| && s.workers[w].Using? {
      assert Enabled(s, Execute(w));
    } else if w :| 0 <= w < |s.workers| && s.workers[w].Used? {
      assert Enabled(s, Release(w));
    } else {
      var w :| 0 <= w < |s.workers| && !Finished(s.workers[w]);
      assert Held(s) == map[];
      assert s.closed == [];
      assert Enabled(s, Get(w));
    }
  }

  lemma StuckIsClosed(all: set<Conn>, s: System)
    requires Inv(all, s) && forall step :: !Enabled(s, step)
    ensures forall w :: 0 <= w < |s.workers| ==> s.workers[w].Done? || s.workers[w].GaveUp?
    ensures s.idle == [] && Spec.Members(s.closed) == all
  {
    forall w | 0 <= w < |s.workers|
      ensures Finished(s.workers[w])
    {
      WorkerIsSafe(all, s, w);
      assert !Enabled(s, GiveUp(w)) && !Enabled(s, Execute(w));
    }
    assert !Enabled(s, CloseNext);
    assert Held(s) == map[] && Held(s).Values == {};
    assert all - Spec.Members(s.closed) == {};
    assert forall c :: c in all ==> c in all - Spec.Members(s.closed) || c in Spec.Members(s.closed);
  }

  function GaveUps(ws: seq<Worker>): nat
  {
    if ws == [] then 0 else GaveUps(ws[..|ws| - 1]) + if ws[|ws| - 1].GaveUp? then 1 else 0
  }

  lemma {:induction false} WeightsAtTheEnd(ws: seq<Worker>)
    requires forall w :: 0 <= w < |ws| ==> ws[w].Done? || ws[w].GaveUp?
    ensures Sum(Weights(ws)) == 2 * GaveUps(ws)
  {
    if ws != [] {
      var n := |ws| - 1;
      assert Weights(ws)[..n] == Weights(ws[..n]);
      WeightsAtTheEnd(ws[..n]);
    }
  }

  /** Every run is finite, and one that cannot be continued ends with all workers
      done or timed out and every connection closed exactly once, after exactly
      three steps for a worker that is done, one for a worker that gave up and one
      for every connection. */
  lemma EveryRunEndsClosed(conns: seq<Conn>, workers: nat, steps: seq<Step>, s: System)
    requires NoDuplicates(conns) && Reaches(Start(conns, workers), steps, s)
    ensures |steps| <= 3 * workers + |conns|
    ensures (forall step :: !Enabled(s, step)) ==>
      && (forall w :: 0 <= w < |s.workers| ==> s.workers[w].Done? || s.workers[w].GaveUp?)
      && s.idle == []
      && NoDuplicates(s.closed) && Spec.Members(s.closed) == Spec.Members(conns)
      && |steps| == 3 * workers + |conns| - 2 * GaveUps(s.workers)
  {
    StartInv(conns, workers);
    ReachInv(Spec.Members(conns), Start(conns, workers), steps, s);
    if forall step :: !Enabled(s, step) {
      StuckIsClosed(Spec.Members(conns), s);
      WeightsAtTheEnd(s.workers);
    }
  }

  /** When the last worker has finished and before anything is closed, all the
      connections are back in the queue. */
  lemma AllIdleAtTheEnd(conns: seq<Conn>, workers: nat, steps: seq<Step>, s: System)
    requires NoDuplicates(conns) && Reaches(Start(conns, workers), steps, s)
    requires AllFinished(s) && s.closed == []
    ensures NoDuplicates(s.idle) && Spec.Members(s.idle) == Spec.Members(conns)
  {
    RunsAreSafe(conns, workers, steps, s);
    assert Held(s) == map[];
    assert Spec.Members(conns) - Spec.Members([]) == Spec.Members(conns);
  }

  /* ---- The bound is attained ---- */

  lemma {:induction false} ReachesThen(s: System, steps: seq<Step>, t: System, step: Step)
    requires Reaches(s, steps, t) && Enabled(t, step)
    ensures Reaches(s, steps + [step], Next(t, step))
    decreases |steps|
  {
    if steps == [] {
      assert [step][1..] == [];
    } else {
      ReachesThen(Next(s, steps[0]), steps[1..], t, step);
      assert (steps + [step])[1..] == steps[1..] + [step];
    }
  }

  predicate NobodyGaveUp(s: System)
  {
    forall w :: 0 <= w < |s.workers| ==> !s.workers[w].GaveUp?
  }

  lemma {:induction false} NoGaveUps(ws: seq<Worker>)
    requires forall w :: 0 <= w < |ws| ==> !ws[w].GaveUp?
    ensures GaveUps(ws) == 0
  {
    if ws != [] {
      NoGaveUps(ws[..|ws| - 1]);
    }
  }

  /** A run in which nobody gave up can go on until everything is closed. */
  lemma {:induction false} FinishPatiently(conns: seq<Conn>, workers: nat, before: seq<Step>, m: System)
      returns (steps: seq<Step>, s: System)
    requires NoDuplicates(conns) && conns != [] && Reaches(Start(conns, workers), before, m) && NobodyGaveUp(m)
    ensures Reaches(Start(conns, workers), steps, s) && NobodyGaveUp(s)
    ensures forall step :: !Enabled(s, step)
    decreases Measure(m)
  {
    if AllFinished(m) && m.idle == [] {
      steps, s := before, m;
    } else {
      if !AllFinished(m) {
        NoDeadlock(conns, workers, before, m);
      } else {
        assert Enabled(m, CloseNext);
      }
      var step :| Enabled(m, step) && !step.GiveUp?;
      ReachesThen(Start(conns, workers), before, m, step);
      MeasureDrops(m, step);
      steps, s := FinishPatiently(conns, workers, before + [step], Next(m, step));
    }
  }

  /** So some run takes exactly 3W + P steps, for any number of connections. */
  lemma BoundIsAttained(conns: seq<Conn>, workers: nat) returns (steps: seq<Step>, s: System)
    requires NoDuplicates(conns) && conns != []
    ensures Reaches(Start(conns, workers), steps, s) && |steps| == 3 * workers + |conns|
  {
    steps, s := FinishPatiently(conns, workers, [], Start(conns, workers));
    EveryRunEndsClosed(conns, workers, steps, s);
    NoGaveUps(s.workers);
  }

  /* ---- All connections can be in use at once ---- */

  /** The first j workers have taken the first j connections. */
  function Busy(conns: seq<Conn>, workers: nat, j: nat): System
    requires j <= |conns|
  {
    System(|conns|, conns[j..], seq(workers, w requires 0 <= w => if w < j then Using(conns[w]) else Waiting), [])
  }

  /** Workers do not wait for one another while connections are idle: as many as
      there are connections can use one at the same time. */
  lemma {:induction false} AllInUseAtOnce(conns: seq<Conn>, workers: nat, j: nat) returns (steps: seq<Step>)
    requires j <= |conns| && j <= workers
    ensures Reaches(Start(conns, workers), steps, Busy(conns, workers, j))
  {
    if j == 0 {
      steps := [];
      assert Busy(conns, workers, 0) == Start(conns, workers);
    } else {
      steps := AllInUseAtOnce(conns, workers, j - 1);
      var s := Busy(conns, workers, j - 1);
      ReachesThen(Start(conns, workers), steps, s, Get(j - 1));
      assert Next(s, Get(j - 1)) == Busy(conns, workers, j);
      steps := steps + [Get(j - 1)];
    }
  }

  /* ---- The order of reissue ---- */

  /** What a run does to the queue. */
  ghost function Events(s: System, steps: seq<Step>): seq<Fifo.Event<Conn>>
    decreases |steps|
  {
    if steps == [] || !Enabled(s, steps[0]) then [] else
      var rest := Events(Next(s, steps[0]), steps[1..]);
      match steps[0]
      case Get(w) => [Fifo.Handed(Next(s, steps[0]).workers[w].conn)] + rest
      case Release(w) => [Fifo.Released(s.workers[w].conn)] + rest
      case CloseNext => [Fifo.Handed(s.idle[0])] + rest
      case _ => rest
  }

  /** Every run of the workers takes connections from the queue in the order in
      which they entered it. */
  lemma {:induction false} RunsAreFifo(s: System, steps: seq<Step>, t: System)
    requires Reaches(s, steps, t)
    ensures Fifo.Follows(s.idle, Events(s, steps), t.idle)
    decreases |steps|
  {
    if steps != [] {
      RunsAreFifo(Next(s, steps[0]), steps[1..], t);
      var events := Events(s, steps);
      if !steps[0].Execute? && !steps[0].GiveUp? {
        assert events[1..] == Events(Next(s, steps[0]), steps[1..]);
      }
    }
  }
}
