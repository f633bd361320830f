/** The unlocked counter: `counter += 1` split into its read and its write.
    K threads perform n iterations each; a schedule is any interleaving of
    their reads and writes. */
module RacyCounter {
  import opened Prelude

  /** `done` counts finished iterations; `reg` is the value read but not yet
      written back. */
  datatype Thread = Thread(done: nat, reg: Option<int>)

  datatype Config = Config(counter: int, threads: seq<Thread>)

  datatype Step = Read(t: nat) | Write(t: nat)

  function Start(k: nat): Config
  {
    Config(0, seq(k, _ => Thread(0, None)))
  }

  predicate Enabled(n: nat, c: Config, s: Step)
  {
    && s.t < |c.threads|
    && match s
       case Read(t) => c.threads[t].reg.None? && c.threads[t].done < n
       case Write(t) => c.threads[t].reg.Some?
  }

  function Apply(n: nat, c: Config, s: Step): Config
    requires Enabled(n, c, s)
  {
    var th := c.threads[s.t];
    match s
    case Read(t) => c.(threads := c.threads[t := th.(reg := Some(c.counter))])
    case Write(t) => Config(th.reg.value + 1, c.threads[t := Thread(th.done + 1, None)])
  }

  ghost predicate Runs(n: nat, c: Config, sched: seq<Step>, d: Config)
    decreases |sched|
  {
    if sched == [] then c == d
    else Enabled(n, c, sched[0]) && Runs(n, Apply(n, c, sched[0]), sched[1..], d)
  }

  ghost predicate Finished(n: nat, c: Config)
  {
    forall t :: 0 <= t < |c.threads| ==> c.threads[t] == Thread(n, None)
  }

  /** `sched` is a complete interleaving of k threads of n iterations and
      leaves `v` in the counter. */
  ghost predicate EndsWith(k: nat, n: nat, sched: seq<Step>, v: int)
  {
    exists d :: Runs(n, Start(k), sched, d) && Finished(n, d) && d.counter == v
  }

  /* ---- Every interleaving stays inside the bounds ---- */

  function Dones(ts: seq<Thread>): (r: seq<nat>)
    ensures |r| == |ts|
  {
    seq(|ts|, i requires 0 <= i < |ts| => ts[i].done)
  }

  function Total(c: Config): nat { Sum(Dones(c.threads)) }

  function Lowest(k: nat, n: nat): nat
  {
    if k == 1 then n else Min(n, 2)
  }

  ghost predicate ThreadOk(n: nat, c: Config, th: Thread)
  {
    && th.done <= n
    && (th.done >= 1 ==> c.counter >= 1)
    && (th.reg.Some? ==>
          && th.done < n
          && 0 <= th.reg.value <= Total(c)
          && (th.done >= 1 ==> th.reg.value >= 1))
  }

  ghost predicate Inv(n: nat, c: Config)
  {
    && |c.threads| >= 1
    && 0 <= c.counter <= Total(c)
    && (forall t :: 0 <= t < |c.threads| ==> ThreadOk(n, c, c.threads[t]))
    && (|c.threads| == 1 ==>
          && c.counter == c.threads[0].done
          && (c.threads[0].reg.Some? ==> c.threads[0].reg.value == c.counter))
    && (Finished(n, c) ==> c.counter >= Lowest(|c.threads|, n))
  }

  lemma StartInv(k: nat, n: nat)
    requires k >= 1
    ensures Inv(n, Start(k))
  {
    var c := Start(k);
    SumConstant(Dones(c.threads), 0);
    assert !c.threads[0].reg.Some? && c.threads[0].done == 0;
  }

  lemma StepInv(n: nat, c: Config, s: Step)
    requires Inv(n, c) && Enabled(n, c, s)
    ensures Inv(n, Apply(n, c, s)) && |Apply(n, c, s).threads| == |c.threads|
  {
    var d := Apply(n, c, s);
    var th := c.threads[s.t];
    assert ThreadOk(n, c, th);
    assert Dones(d.threads) == Dones(c.threads)[s.t := d.threads[s.t].done];
    SumUpdate(Dones(c.threads), s.t, d.threads[s.t].done);
    assert d.threads[s.t] != Thread(n, None) || s.Write?;
    forall t | 0 <= t < |d.threads|
      ensures ThreadOk(n, d, d.threads[t])
    {
      assert ThreadOk(n, c, c.threads[t]);
    }
    if Finished(n, d) {
      assert d.threads[s.t] == Thread(n, None);
    }
  }

  lemma {:induction false} RunInv(n: nat, c: Config, sched: seq<Step>, d: Config)
    requires Inv(n, c) && Runs(n, c, sched, d)
    ensures Inv(n, d) && |d.threads| == |c.threads|
    decreases |sched|
  {
    if sched != [] {
      StepInv(n, c, sched[0]);
      RunInv(n, Apply(n, c, sched[0]), sched[1..], d);
    }
  }

  /** No interleaving of k threads escapes Lowest(k, n) .. k * n. */
  lemma FinalValueInRange(k: nat, n: nat, sched: seq<Step>, v: int)
    requires k >= 1 && EndsWith(k, n, sched, v)
    ensures Lowest(k, n) <= v <= k * n
  {
    var d :| Runs(n, Start(k), sched, d) && Finished(n, d) && d.counter == v;
    StartInv(k, n);
    RunInv(n, Start(k), sched, d);
    SumConstant(Dones(d.threads), n);
  }

  /* ---- Every value inside the bounds has a schedule ---- */

  lemma {:induction false} RunsConcat(n: nat, c: Config, s1: seq<Step>, d: Config, s2: seq<Step>, e: Config)
    requires Runs(n, c, s1, d) && Runs(n, d, s2, e)
    ensures Runs(n, c, s1 + s2, e)
    decreases |s1|
  {
    if s1 == [] {
      assert s1 + s2 == s2;
    } else {
      RunsConcat(n, Apply(n, c, s1[0]), s1[1..], d, s2, e);
      assert (s1 + s2)[1..] == s1[1..] + s2;
    }
  }

  /** A configuration given by its columns: finished iterations and pending
      reads, thread by thread. */
  function Shape(counter: int, done: seq<nat>, regs: seq<Option<int>>): Config
    requires |done| == |regs|
  {
    Config(counter, seq(|done|, t requires 0 <= t < |done| => Thread(done[t], regs[t])))
  }

  ghost predicate Reaches(n: nat, sched: seq<Step>, v: int, done: seq<nat>, regs: seq<Option<int>>)
  {
    |done| == |regs| && Runs(n, Start(|done|), sched, Shape(v, done, regs))
  }

  lemma ThenRead(n: nat, sched: seq<Step>, v: int, done: seq<nat>, regs: seq<Option<int>>, t: nat)
    requires Reaches(n, sched, v, done, regs)
    requires t < |done| && done[t] < n && regs[t].None?
    ensures Reaches(n, sched + [Read(t)], v, done, regs[t := Some(v)])
  {
    var c, d := Shape(v, done, regs), Shape(v, done, regs[t := Some(v)]);
    assert Apply(n, c, Read(t)).threads == d.threads;
    assert Runs(n, d, [], d) && [Read(t)][1..] == [];
    RunsConcat(n, Start(|done|), sched, c, [Read(t)], d);
  }

  lemma ThenWrite(n: nat, sched: seq<Step>, v: int, done: seq<nat>, regs: seq<Option<int>>, t: nat)
    requires Reaches(n, sched, v, done, regs)
    requires t < |done| && regs[t].Some?
    ensures Reaches(n, sched + [Write(t)], regs[t].value + 1, done[t := done[t] + 1], regs[t := None])
  {
    var c := Shape(v, done, regs);
    var d := Shape(regs[t].value + 1, done[t := done[t] + 1], regs[t := None]);
    assert Apply(n, c, Write(t)).threads == d.threads;
    assert Runs(n, d, [], d) && [Write(t)][1..] == [];
    RunsConcat(n, Start(|done|), sched, c, [Write(t)], d);
  }

  ghost predicate Below(a: seq<nat>, b: seq<nat>)
  {
    |a| == |b| && forall t :: 0 <= t < |a| ==> a[t] <= b[t]
  }

  lemma {:induction false} SumMonotone(a: seq<nat>, b: seq<nat>)
    requires Below(a, b)
    ensures Sum(a) <= Sum(b) && (a != b ==> Sum(a) < Sum(b))
  {
    if a != [] {
      var m := |a| - 1;
      SumMonotone(a[..m], b[..m]);
      if a != b && a[..m] == b[..m] {
        assert a == a[..m] + [a[m]] && b == b[..m] + [b[m]];
      }
    }
  }

  /** Uninterrupted iterations, in any amount and of any threads without a
      pending read, all count. */
  lemma {:induction false} ThenSolo(n: nat, sched: seq<Step>, v: int, done: seq<nat>, regs: seq<Option<int>>, goal: seq<nat>)
      returns (more: seq<Step>)
    requires Reaches(n, sched, v, done, regs) && Below(done, goal)
    requires forall t :: 0 <= t < |done| ==> goal[t] <= n && (regs[t].Some? ==> goal[t] == done[t])
    ensures Reaches(n, more, v + Sum(goal) - Sum(done), goal, regs)
    decreases Sum(goal) - Sum(done)
  {
    SumMonotone(done, goal);
    if done == goal {
      more := sched;
    } else {
      var t :| 0 <= t < |done| && done[t] != goal[t];
      ThenRead(n, sched, v, done, regs, t);
      ThenWrite(n, sched + [Read(t)], v, done, regs[t := Some(v)], t);
      var done' := done[t := done[t] + 1];
      assert regs[t := Some(v)][t := None] == regs;
      SumUpdate(done, t, done[t] + 1);
      SumMonotone(done', goal);
      more := ThenSolo(n, sched + [Read(t)] + [Write(t)], v + 1, done', regs, goal);
    }
  }

  function Copies<T>(k: nat, x: T): (r: seq<T>)
    ensures |r| == k && forall t :: 0 <= t < k ==> r[t] == x
  {
    seq(k, _ => x)
  }

  lemma Started(n: nat, k: nat)
    ensures Reaches(n, [], 0, Copies(k, 0), Copies(k, None))
  {
    assert Start(k).threads == Shape(0, Copies(k, 0), Copies(k, None)).threads;
  }

  lemma Ended(n: nat, sched: seq<Step>, v: int, done: seq<nat>, regs: seq<Option<int>>)
    requires Reaches(n, sched, v, done, regs)
    requires forall t :: 0 <= t < |done| ==> done[t] == n && regs[t] == None
    ensures EndsWith(|done|, n, sched, v)
  {
    assert Finished(n, Shape(v, done, regs));
  }

  lemma {:induction false} SumTwoMore(a: nat, b: nat, rest: seq<nat>)
    ensures Sum([a, b] + rest) == a + b + Sum(rest)
  {
    if rest == [] {
      assert [a, b] + rest == [a, b] && [a, b][..1] == [a];
      assert Sum([a]) == Sum([a][..0]) + a;
    } else {
      SumTwoMore(a, b, rest[..|rest| - 1]);
      assert ([a, b] + rest)[..|rest| + 1] == [a, b] + rest[..|rest| - 1];
    }
  }

  /** `s` iterations spread over k threads with room for n each. */
  lemma {:induction false} Spread(k: nat, n: nat, s: nat) returns (xs: seq<nat>)
    requires s <= k * n
    ensures |xs| == k && Sum(xs) == s && forall t :: 0 <= t < k ==> xs[t] <= n
  {
    if k == 0 {
      xs := [];
    } else {
      var last := Min(s, n);
      assert (k - 1) * n + n == k * n;
      assert s - last <= (k - 1) * n by {
        if last == s { assert (k - 1) * n >= 0; }
      }
      var init := Spread(k - 1, n, s - last);
      xs := init + [last];
      assert xs[..k - 1] == init;
    }
  }

  /** One lost-update window: thread t reads, `rest` runs in the window, and the
      write of t leaves its own increment as the only trace of it. */
  lemma Window(n: nat, sched: seq<Step>, v: int, done: seq<nat>, t: nat, rest: seq<nat>) returns (more: seq<Step>)
    requires Reaches(n, sched, v, done, Copies(|done|, None))
    requires t < |done| && done[t] < n && Below(done, rest) && rest[t] == done[t]
    requires forall u :: 0 <= u < |done| ==> rest[u] <= n
    ensures Reaches(n, more, v + 1, rest[t := done[t] + 1], Copies(|done|, None))
  {
    var idle := Copies(|done|, None);
    ThenRead(n, sched, v, done, idle, t);
    more := ThenSolo(n, sched + [Read(t)], v, done, idle[t := Some(v)], rest);
    ThenWrite(n, more, v + Sum(rest) - Sum(done), rest, idle[t := Some(v)], t);
    more := more + [Write(t)];
    assert idle[t := Some(v)][t := None] == idle;
  }

  /** The other threads run `part` of their iterations and thread 1 runs i; the
      window of thread 0 swallows everything else but the last of thread 1. */
  lemma FirstWindow(n: nat, part: seq<nat>, i: nat) returns (sched: seq<Step>)
    requires i < n && forall t :: 0 <= t < |part| ==> part[t] <= n
    ensures Reaches(n, sched, Sum(part) + i + 1, [1, n - 1] + Copies(|part|, n), Copies(|part| + 2, None))
  {
    var k, full := |part| + 2, Copies(|part|, n);
    SumConstant(Copies(k, 0), 0);
    SumTwoMore(0, i, part);
    Started(n, k);
    sched := ThenSolo(n, [], 0, Copies(k, 0), Copies(k, None), [0, i] + part);
    sched := Window(n, sched, Sum(part) + i, [0, i] + part, 0, [0, n - 1] + full);
    assert ([0, n - 1] + full)[0 := 1] == [1, n - 1] + full;
  }

  /** Then j iterations of thread 0 count and the window of thread 1 swallows the
      rest of them. */
  lemma SecondWindow(n: nat, sched: seq<Step>, v: int, full: seq<nat>, j: nat) returns (more: seq<Step>)
    requires j < n && forall t :: 0 <= t < |full| ==> full[t] == n
    requires Reaches(n, sched, v, [1, n - 1] + full, Copies(|full| + 2, None))
    ensures Reaches(n, more, v + j + 1, [n, n] + full, Copies(|full| + 2, None))
  {
    SumTwoMore(1, n - 1, full);
    SumTwoMore(1 + j, n - 1, full);
    var done1, done2, done3 := [1, n - 1] + full, [1 + j, n - 1] + full, [n, n - 1] + full;
    more := ThenSolo(n, sched, v, done1, Copies(|full| + 2, None), done2);
    more := Window(n, more, v + j, done2, 1, done3);
    assert done3[1 := n] == [n, n] + full;
  }

  lemma LostUpdates(n: nat, part: seq<nat>, i: nat, j: nat) returns (sched: seq<Step>)
    requires i < n && j < n && forall t :: 0 <= t < |part| ==> part[t] <= n
    ensures EndsWith(|part| + 2, n, sched, Sum(part) + i + j + 2)
  {
    var full := Copies(|part|, n);
    sched := FirstWindow(n, part, i);
    sched := SecondWindow(n, sched, Sum(part) + i + 1, full, j);
    Ended(n, sched, Sum(part) + i + j + 2, [n, n] + full, Copies(|part| + 2, None));
  }

  /** With one iteration each, threads 0 and 1 can both read before anything is
      written and write after everything else, losing all but one iteration. */
  lemma AllLost(k: nat) returns (sched: seq<Step>)
    requires k >= 2
    ensures EndsWith(k, 1, sched, 1)
  {
    var zero, idle := Copies(k, 0), Copies(k, None);
    var regs := idle[0 := Some(0)][1 := Some(0)];
    var done := Copies(k, 1)[0 := 0][1 := 0];
    Started(1, k);
    ThenRead(1, [], 0, zero, idle, 0);
    ThenRead(1, [] + [Read(0)], 0, zero, idle[0 := Some(0)], 1);
    sched := ThenSolo(1, [] + [Read(0)] + [Read(1)], 0, zero, regs, done);
    ThenWrite(1, sched, 0 + Sum(done) - Sum(zero), done, regs, 0);
    ThenWrite(1, sched + [Write(0)], 1, done[0 := 1], regs[0 := None], 1);
    sched := sched + [Write(0)] + [Write(1)];
    Ended(1, sched, 1, done[0 := 1][1 := 1], regs[0 := None][1 := None]);
  }

  /** Uninterrupted iterations of every thread lose nothing. */
  lemma NoneLost(k: nat, n: nat) returns (sched: seq<Step>)
    ensures EndsWith(k, n, sched, k * n)
  {
    SumConstant(Copies(k, 0), 0);
    SumConstant(Copies(k, n), n);
    Started(n, k);
    sched := ThenSolo(n, [], 0, Copies(k, 0), Copies(k, None), Copies(k, n));
    Ended(n, sched, k * n, Copies(k, n), Copies(k, None));
  }

  lemma SplitTarget(n: nat, k: nat, v: nat) returns (s: nat, i: nat, j: nat)
    requires k >= 2 && n >= 1 && 2 <= v <= k * n
    ensures s <= (k - 2) * n && i < n && j < n && v == s + i + j + 2
  {
    assert (k - 2) * n + 2 * n == k * n;
    s := Min(v - 2, (k - 2) * n);
    i := Min(v - 2 - s, n - 1);
    j := v - 2 - s - i;
  }

  lemma EveryValueReached(k: nat, n: nat, v: int) returns (sched: seq<Step>)
    requires k >= 1 && Lowest(k, n) <= v <= k * n
    ensures EndsWith(k, n, sched, v)
  {
    if k == 1 || n == 0 {
      assert k * n == v;
      sched := NoneLost(k, n);
    } else if v == 1 {
      sched := AllLost(k);
    } else {
      var s, i, j := SplitTarget(n, k, v);
      var part := Spread(k - 2, n, s);
      sched := LostUpdates(n, part, i, j);
    }
  }

  /** The values k unlocked threads of n iterations can leave in the counter
      are exactly Lowest(k, n) .. k * n: from 2 to k * n for two or more threads
      of two or more iterations. */
  lemma ExactFinalValues(k: nat, n: nat, v: int)
    requires k >= 1
    ensures (exists sched :: EndsWith(k, n, sched, v)) <==> Lowest(k, n) <= v <= k * n
  {
    if sched :| EndsWith(k, n, sched, v) {
      FinalValueInRange(k, n, sched, v);
    }
    if Lowest(k, n) <= v <= k * n {
      var sched := EveryValueReached(k, n, v);
    }
  }
}
