/** The two repaired counters: one lock around the read and the write, and one
    private counter per thread. */
module LockedCounter {
  import opened Prelude
  import Racy = RacyCounter

  /** Where a thread is in `with lock: counter += 1`. */
  datatype Pc = Outside | Entered | Loaded(v: int) | Stored

  datatype Thread = Thread(done: nat, pc: Pc)

  datatype Config = Config(counter: int, owner: Option<nat>, threads: seq<Thread>)

  datatype Step = Acquire(t: nat) | Read(t: nat) | Write(t: nat) | Release(t: nat)

  function Start(k: nat): Config
  {
    Config(0, None, seq(k, _ => Thread(0, Outside)))
  }

  predicate Enabled(n: nat, c: Config, s: Step)
  {
    && s.t < |c.threads|
    && var th := c.threads[s.t];
       match s
       case Acquire(_) => th.pc.Outside? && th.done < n && c.owner == None
       case Read(_) => th.pc.Entered?
       case Write(_) => th.pc.Loaded?
       case Release(_) => th.pc.Stored?
  }

  function Apply(n: nat, c: Config, s: Step): Config
    requires Enabled(n, c, s)
  {
    var th := c.threads[s.t];
    match s
    case Acquire(t) => c.(owner := Some(t), threads := c.threads[t := th.(pc := Entered)])
    case Read(t) => c.(threads := c.threads[t := th.(pc := Loaded(c.counter))])
    case Write(t) => c.(counter := th.pc.v + 1, threads := c.threads[t := Thread(th.done + 1, Stored)])
    case Release(t) => c.(owner := None, threads := c.threads[t := th.(pc := Outside)])
  }

  ghost predicate Runs(n: nat, c: Config, sched: seq<Step>, d: Config)
    decreases |sched|
  {
    if sched == [] then c == d
    else Enabled(n, c, sched[0]) && Runs(n, Apply(n, c, sched[0]), sched[1..], d)
  }

  /** A run that cannot be continued. */
  ghost predicate Maximal(n: nat, k: nat, sched: seq<Step>, d: Config)
  {
    Runs(n, Start(k), sched, d) && forall s :: !Enabled(n, d, s)
  }

  function Dones(ts: seq<Thread>): (r: seq<nat>)
    ensures |r| == |ts|
  {
    seq(|ts|, i requires 0 <= i < |ts| => ts[i].done)
  }

  /** Mutual exclusion, and what it buys: the value loaded is never stale. */
  ghost predicate Inv(n: nat, c: Config)
  {
    && c.counter == Sum(Dones(c.threads))
    && (c.owner.Some? ==> c.owner.value < |c.threads|)
    && forall t :: 0 <= t < |c.threads| ==>
         && c.threads[t].done <= n
         && (c.threads[t].pc.Outside? <==> c.owner != Some(t))
         && (c.threads[t].pc.Entered? || c.threads[t].pc.Loaded? ==> c.threads[t].done < n)
         && (c.threads[t].pc.Loaded? ==> c.threads[t].pc.v == c.counter)
  }

  /** Steps a thread still has to take. */
  function Left(n: nat, th: Thread): nat
  {
    Max(0, 4 * (n - th.done) + match th.pc case Outside => 0 case Entered => -1 case Loaded(_) => -2 case Stored => 1)
  }

  function Lefts(n: nat, ts: seq<Thread>): (r: seq<nat>)
    ensures |r| == |ts|
  {
    seq(|ts|, i requires 0 <= i < |ts| => Left(n, ts[i]))
  }

  lemma StartInv(n: nat, k: nat)
    ensures Inv(n, Start(k)) && Sum(Lefts(n, Start(k).threads)) == 4 * (k * n)
  {
    SumConstant(Dones(Start(k).threads), 0);
    SumConstant(Lefts(n, Start(k).threads), 4 * n);
    assert k * (4 * n) == 4 * (k * n);
  }

  lemma StepInv(n: nat, c: Config, s: Step)
    requires Inv(n, c) && Enabled(n, c, s)
    ensures Inv(n, Apply(n, c, s)) && |Apply(n, c, s).threads| == |c.threads|
  {
    var d := Apply(n, c, s);
    assert Dones(d.threads) == Dones(c.threads)[s.t := d.threads[s.t].done];
    SumUpdate(Dones(c.threads), s.t, d.threads[s.t].done);
  }

  lemma StepLeft(n: nat, c: Config, s: Step)
    requires Inv(n, c) && Enabled(n, c, s)
    ensures Sum(Lefts(n, Apply(n, c, s).threads)) == Sum(Lefts(n, c.threads)) - 1
  {
    var d := Apply(n, c, s);
    assert Lefts(n, d.threads) == Lefts(n, c.threads)[s.t := Left(n, d.threads[s.t])];
    SumUpdate(Lefts(n, c.threads), s.t, Left(n, d.threads[s.t]));
  }

  lemma {:induction false} RunInv(n: nat, c: Config, sched: seq<Step>, d: Config)
    requires Inv(n, c) && Runs(n, c, sched, d)
    ensures Inv(n, d) && |d.threads| == |c.threads|
    ensures Sum(Lefts(n, d.threads)) == Sum(Lefts(n, c.threads)) - |sched|
    decreases |sched|
  {
    if sched != [] {
      StepInv(n, c, sched[0]);
      StepLeft(n, c, sched[0]);
      RunInv(n, Apply(n, c, sched[0]), sched[1..], d);
    }
  }

  /** Deadlock is impossible: unless every iteration is finished, someone can move. */
  lemma SomeoneCanMove(n: nat, c: Config)
    requires Inv(n, c)
    ensures (forall s :: !Enabled(n, c, s))
       <==> forall t :: 0 <= t < |c.threads| ==> c.threads[t] == Thread(n, Outside)
  {
    if c.owner.Some? {
      var t := c.owner.value;
      var th := c.threads[t];
      assert Enabled(n, c, if th.pc.Entered? then Read(t) else if th.pc.Loaded? then Write(t) else Release(t));
    } else if t :| 0 <= t < |c.threads| && c.threads[t] != Thread(n, Outside) {
      assert Enabled(n, c, Acquire(t));
    }
  }

  /** Every maximal interleaving of k locked threads takes 4 * k * n steps and
      ends with exactly k * n in the counter and the lock free. */
  lemma LockedCounterIsExact(n: nat, k: nat, sched: seq<Step>, d: Config)
    requires Maximal(n, k, sched, d)
    ensures d.counter == k * n && d.owner == None && |sched| == 4 * (k * n)
  {
    StartInv(n, k);
    RunInv(n, Start(k), sched, d);
    SomeoneCanMove(n, d);
    SumConstant(Dones(d.threads), n);
    SumConstant(Lefts(n, d.threads), 0);
  }

  /* ---- The lock only removes interleavings ---- */

  function Forget(c: Config): Racy.Config
  {
    Racy.Config(c.counter, seq(|c.threads|, t requires 0 <= t < |c.threads| =>
      Racy.Thread(c.threads[t].done, if c.threads[t].pc.Loaded? then Some(c.threads[t].pc.v) else None)))
  }

  function Access(s: Step): seq<Racy.Step>
  {
    match s
    case Read(t) => [Racy.Read(t)]
    case Write(t) => [Racy.Write(t)]
    case _ => []
  }

  /** The reads and writes of a schedule, without the lock operations. */
  function Accesses(sched: seq<Step>): seq<Racy.Step>
  {
    if sched == [] then [] else Access(sched[0]) + Accesses(sched[1..])
  }

  lemma StepIsRacy(n: nat, c: Config, s: Step)
    requires Inv(n, c) && Enabled(n, c, s)
    ensures Racy.Runs(n, Forget(c), Access(s), Forget(Apply(n, c, s)))
  {
    var d := Apply(n, c, s);
    if s.Read? || s.Write? {
      var a := Access(s)[0];
      assert Racy.Apply(n, Forget(c), a).threads == Forget(d).threads;
      assert [a][1..] == [] && Racy.Runs(n, Forget(d), [], Forget(d));
    } else {
      assert Forget(c).threads == Forget(d).threads;
    }
  }

  /** Dropping the lock operations from a locked run leaves a run of the racy
      counter with the same counter value. */
  lemma {:induction false} LockedRunIsRacyRun(n: nat, c: Config, sched: seq<Step>, d: Config)
    requires Inv(n, c) && Runs(n, c, sched, d)
    ensures Racy.Runs(n, Forget(c), Accesses(sched), Forget(d)) && Forget(d).counter == d.counter
    decreases |sched|
  {
    if sched != [] {
      var e := Apply(n, c, sched[0]);
      StepInv(n, c, sched[0]);
      StepIsRacy(n, c, sched[0]);
      LockedRunIsRacyRun(n, e, sched[1..], d);
      Racy.RunsConcat(n, Forget(c), Access(sched[0]), Forget(e), Accesses(sched[1..]), Forget(d));
    }
  }

  /** Without the lock, every complete interleaving yields the sequential sum
      only when there is nothing to interleave. */
  lemma UnlockedIsExactOnlyWithoutRivals(k: nat, n: nat)
    requires k >= 1
    ensures (forall sched, v :: Racy.EndsWith(k, n, sched, v) ==> v == k * n) <==> k == 1 || n == 0
  {
    if k == 1 || n == 0 {
      forall sched, v | Racy.EndsWith(k, n, sched, v)
        ensures v == k * n
      {
        Racy.ExactFinalValues(k, n, v);
      }
    } else {
      var low := Racy.Lowest(k, n);
      assert k * n >= 2 * n;
      Racy.ExactFinalValues(k, n, low);
      var sched :| Racy.EndsWith(k, n, sched, low);
    }
  }
}

/** `increment_isolated`: every thread counts locally and stores once into its
    own slot. */
module IsolatedCounter {
  import opened Prelude

  /** The thread body, on the shared list it stores into. */
  method IncrementIsolated(results: array<int>, index: nat, n: nat)
    requires index < results.Length
    modifies results
    ensures results[..] == old(results[..])[index := n]
  {
    var localCounter := 0;
    for i := 0 to n
      invariant localCounter == i
    {
      localCounter := localCounter + 1;
    }
    results[index] := localCounter;
  }

  datatype Thread = Thread(local: nat, stored: bool)

  datatype Config = Config(results: seq<int>, threads: seq<Thread>)

  datatype Step = Bump(t: nat) | Store(t: nat)

  function Start(k: nat): Config
  {
    Config(seq(k, _ => 0), seq(k, _ => Thread(0, false)))
  }

  predicate Enabled(n: nat, c: Config, s: Step)
  {
    && s.t < |c.threads|
    && !c.threads[s.t].stored
    && (if s.Bump? then c.threads[s.t].local < n else c.threads[s.t].local == n)
  }

  function Apply(n: nat, c: Config, s: Step): Config
    requires |c.results| == |c.threads| && Enabled(n, c, s)
  {
    var th := c.threads[s.t];
    match s
    case Bump(t) => c.(threads := c.threads[t := th.(local := th.local + 1)])
    case Store(t) => Config(c.results[t := th.local], c.threads[t := th.(stored := true)])
  }

  ghost predicate Runs(n: nat, c: Config, sched: seq<Step>, d: Config)
    requires |c.results| == |c.threads|
    decreases |sched|
  {
    if sched == [] then c == d
    else Enabled(n, c, sched[0]) && Runs(n, Apply(n, c, sched[0]), sched[1..], d)
  }

  function Total(xs: seq<int>): int
  {
    if xs == [] then 0 else Total(xs[..|xs| - 1]) + xs[|xs| - 1]
  }

  lemma {:induction false} TotalConstant(xs: seq<int>, v: int)
    requires forall i :: 0 <= i < |xs| ==> xs[i] == v
    ensures Total(xs) == |xs| * v
  {
    if xs != [] {
      TotalConstant(xs[..|xs| - 1], v);
    }
  }

  ghost predicate Inv(n: nat, c: Config)
  {
    && |c.results| == |c.threads|
    && forall t :: 0 <= t < |c.threads| ==>
         && c.threads[t].local <= n
         && (c.threads[t].stored ==> c.results[t] == n)
  }

  lemma {:induction false} RunInv(n: nat, c: Config, sched: seq<Step>, d: Config)
    requires Inv(n, c) && Runs(n, c, sched, d)
    ensures Inv(n, d) && |d.threads| == |c.threads|
    decreases |sched|
  {
    if sched != [] {
      RunInv(n, Apply(n, c, sched[0]), sched[1..], d);
    }
  }

  /** However the isolated threads interleave, once none can move the slots add
      up to exactly k * n. */
  lemma IsolatedCounterIsExact(n: nat, k: nat, sched: seq<Step>, d: Config)
    requires Runs(n, Start(k), sched, d) && forall s :: !Enabled(n, d, s)
    ensures d.results == seq(k, _ => n) && Total(d.results) == k * n
  {
    RunInv(n, Start(k), sched, d);
    forall t | 0 <= t < |d.threads|
      ensures d.threads[t].stored
    {
      assert !Enabled(n, d, Bump(t)) && !Enabled(n, d, Store(t));
    }
    TotalConstant(d.results, n);
  }
}
