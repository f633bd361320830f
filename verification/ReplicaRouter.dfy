/** Round-robin over the replicas with probing and fallback. */
module ReplicaRouter {
  import opened Prelude

  /** NotInitialised stands for the AssertionError of an unopened primary pool. */
  datatype Choice = Primary | Replica(index: nat) | NotInitialised

  /** The next index of the cycle over 0 .. n - 1. */
  function Succ(n: nat, p: nat): nat
  {
    if p + 1 < n then p + 1 else 0
  }

  /** The first healthy replica among those probed at offsets i .. n - 1 from
      `start`. */
  function Pick(start: nat, healthy: seq<bool>, i: nat): (r: Option<nat>)
    requires start < |healthy| && i <= |healthy|
    ensures r.Some? ==> r.value < |healthy| && healthy[r.value]
    decreases |healthy| - i
  {
    if i == |healthy| then None else
      var idx := (start + i) % |healthy|;
      if healthy[idx] then Some(idx) else Pick(start, healthy, i + 1)
  }

  function Chosen(start: nat, healthy: seq<bool>): Choice
    requires start < |healthy|
  {
    match Pick(start, healthy, 0) case Some(idx) => Replica(idx) case None => Primary
  }

  class Database {
    var primaryOpen: bool
    var replicas: nat
    /** The index the cycle yields next; None before start-up and after shutdown. */
    var cycle: Option<nat>

    ghost predicate Valid()
      reads this
    {
      && (cycle.Some? ==> cycle.value < Max(1, replicas))
      && (replicas > 0 ==> cycle.Some?)
    }

    constructor ()
      ensures Valid() && !primaryOpen && replicas == 0 && cycle == None
    {
      primaryOpen, replicas, cycle := false, 0, None;
    }

    /** `ports` is the number of configured replicas. A second start-up without a
        shutdown adds its replicas to those already open and restarts the cycle. */
    method InitPools(ports: nat)
      requires Valid()
      modifies this
      ensures Valid() && primaryOpen && replicas == old(replicas) + ports && cycle == Some(0)
    {
      primaryOpen := true;
      for i := 0 to ports
        invariant replicas == old(replicas) + i && primaryOpen
      {
        replicas := replicas + 1;
      }
      cycle := Some(0);
    }

    method ClosePools()
      requires Valid()
      modifies this
      ensures Valid() && !primaryOpen && replicas == 0 && cycle == None
    {
      primaryOpen := false;
      replicas := 0;
      cycle := None;
    }

    method GetPrimaryPool() returns (choice: Choice)
      ensures choice == if primaryOpen then Primary else NotInitialised
    {
      choice := if primaryOpen then Primary else NotInitialised;
    }

    /** `healthy` says which probes succeed during this call. The cycle advances by
        one whatever the probes find. */
    method GetReplicaPool(healthy: seq<bool>) returns (choice: Choice)
      requires Valid() && |healthy| == replicas
      modifies this`cycle
      ensures Valid()
      ensures replicas == 0 ==> cycle == old(cycle) && choice == if primaryOpen then Primary else NotInitialised
      ensures replicas > 0 ==>
        && cycle == Some(Succ(replicas, old(cycle).value))
        && choice == (match Chosen(old(cycle).value, healthy)
                      case Replica(idx) => Replica(idx)
                      case _ => if primaryOpen then Primary else NotInitialised)
    {
      if replicas == 0 {
        choice := GetPrimaryPool();
        return;
      }
      var start := cycle.value;
      cycle := Some(Succ(replicas, start));
      var i := 0;
      while i < replicas
        invariant 0 <= i <= replicas
        invariant Pick(start, healthy, 0) == Pick(start, healthy, i)
      {
        var idx := (start + i) % replicas;
        if healthy[idx] {
          return Replica(idx);
        }
        i := i + 1;
      }
      choice := GetPrimaryPool();
    }
  }

  /* ---- The load law ---- */

  /** The position j steps before r on the cycle. */
  function Back(n: nat, r: nat, j: nat): (p: nat)
    requires r < n && j <= n
    ensures p < n
  {
    if j <= r then r - j else r + n - j
  }

  /** The d replicas before the healthy r are dead and the one before them is not. */
  ghost predicate DeadBefore(healthy: seq<bool>, r: nat, d: nat)
  {
    && r < |healthy| && healthy[r] && d < |healthy|
    && (forall j :: 1 <= j <= d ==> !healthy[Back(|healthy|, r, j)])
    && healthy[Back(|healthy|, r, d + 1)]
  }

  lemma ModOnce(n: nat, x: nat)
    requires x < n
    ensures x % n == x && (x + n) % n == x
  {
  }

  /** A call starting at the position j before r probes the position j - i before
      r at offset i. */
  lemma ProbedAt(n: nat, r: nat, j: nat, i: nat)
    requires r < n && i <= j < n
    ensures (Back(n, r, j) + i) % n == Back(n, r, j - i)
  {
    ModOnce(n, Back(n, r, j - i));
    if j > r && j - i <= r {
      assert Back(n, r, j) + i == Back(n, r, j - i) + n;
    } else {
      assert Back(n, r, j) + i == Back(n, r, j - i);
    }
  }

  lemma {:induction false} PickReaches(healthy: seq<bool>, r: nat, d: nat, j: nat, i: nat)
    requires DeadBefore(healthy, r, d) && i <= j <= d
    ensures Pick(Back(|healthy|, r, j), healthy, i) == Some(r)
    decreases j - i
  {
    ProbedAt(|healthy|, r, j, i);
    if i < j {
      PickReaches(healthy, r, d, j, i + 1);
    }
  }

  lemma {:induction false} PickStopsShort(healthy: seq<bool>, r: nat, d: nat, j: nat, i: nat)
    requires DeadBefore(healthy, r, d) && d < j < |healthy| && i <= j - d - 1
    ensures Pick(Back(|healthy|, r, j), healthy, i) != Some(r)
    decreases j - i
  {
    ProbedAt(|healthy|, r, j, i);
    if i < j - d - 1 {
      PickStopsShort(healthy, r, d, j, i + 1);
    }
  }

  /** The replica probed i places after `start`. */
  function Probed(n: nat, start: nat, i: nat): (idx: nat)
    requires start < n
    ensures idx < n
  {
    (start + i) % n
  }

  /** Replica r is healthy and every replica from `start` up to it, going round, is
      dead. */
  ghost predicate FirstHealthy(healthy: seq<bool>, start: nat, r: nat)
    requires start < |healthy|
  {
    exists i: nat :: i < |healthy| && ProbedAfter(healthy, start, r, i)
  }

  ghost predicate ProbedAfter(healthy: seq<bool>, start: nat, r: nat, i: nat)
    requires start < |healthy|
  {
    && r == Probed(|healthy|, start, i) && healthy[r]
    && forall j: nat :: j < i ==> !healthy[Probed(|healthy|, start, j)]
  }

  lemma {:induction false} PickIsFirst(start: nat, healthy: seq<bool>, i: nat) returns (k: nat)
    requires start < |healthy| && i <= |healthy|
    requires forall j: nat :: j < i ==> !healthy[Probed(|healthy|, start, j)]
    ensures Pick(start, healthy, i).Some? ==> k < |healthy| && ProbedAfter(healthy, start, Pick(start, healthy, i).value, k)
    decreases |healthy| - i
  {
    k := i;
    if i < |healthy| && !healthy[Probed(|healthy|, start, i)] {
      k := PickIsFirst(start, healthy, i + 1);
    }
  }

  /** There is only one first. */
  lemma OneFirst(healthy: seq<bool>, start: nat, r: nat, i: nat, q: nat, j: nat)
    requires start < |healthy| && ProbedAfter(healthy, start, r, i) && ProbedAfter(healthy, start, q, j)
    ensures i == j && r == q
  {
  }

  /** A call returns replica r exactly when r is the first healthy one from the
      cycle's position on. */
  lemma ChosenIsFirstHealthy(start: nat, healthy: seq<bool>, r: nat)
    requires start < |healthy|
    ensures Chosen(start, healthy) == Replica(r) <==> FirstHealthy(healthy, start, r)
  {
    var k := PickIsFirst(start, healthy, 0);
    if i: nat :| i < |healthy| && ProbedAfter(healthy, start, r, i) {
      FallbackOnlyWhenAllDead(start, healthy);
      OneFirst(healthy, start, r, i, Pick(start, healthy, 0).value, k);
    }
  }

  /** The fallback to the primary happens exactly when every probe fails. */
  lemma FallbackOnlyWhenAllDead(start: nat, healthy: seq<bool>)
    requires start < |healthy|
    ensures Chosen(start, healthy) == Primary <==> forall r :: 0 <= r < |healthy| ==> !healthy[r]
  {
    if Pick(start, healthy, 0).None? {
      forall r | 0 <= r < |healthy|
        ensures !healthy[r]
      {
        var j := if start <= r then r - start else r + |healthy| - start;
        assert Back(|healthy|, r, j) == start;
        PickFinds(healthy, r, j, 0);
      }
    }
  }

  lemma {:induction false} PickFinds(healthy: seq<bool>, r: nat, j: nat, i: nat)
    requires r < |healthy| && i <= j < |healthy|
    ensures healthy[r] ==> Pick(Back(|healthy|, r, j), healthy, i).Some?
    decreases j - i
  {
    ProbedAt(|healthy|, r, j, i);
    if i < j {
      PickFinds(healthy, r, j, i + 1);
    }
  }

  /** How many of `calls` consecutive calls from cycle position p return r. */
  function Served(healthy: seq<bool>, r: nat, p: nat, calls: nat): nat
    requires p < |healthy|
    decreases calls
  {
    if calls == 0 then 0 else
      (if Chosen(p, healthy) == Replica(r) then 1 else 0) + Served(healthy, r, Succ(|healthy|, p), calls - 1)
  }

  function Advance(n: nat, p: nat, calls: nat): (q: nat)
    requires p < n
    ensures q < n
    decreases calls
  {
    if calls == 0 then p else Advance(n, Succ(n, p), calls - 1)
  }

  lemma {:induction false} ServedSplit(healthy: seq<bool>, r: nat, p: nat, a: nat, b: nat)
    requires p < |healthy|
    ensures Served(healthy, r, p, a + b) == Served(healthy, r, p, a) + Served(healthy, r, Advance(|healthy|, p, a), b)
    decreases a
  {
    if a > 0 {
      ServedSplit(healthy, r, Succ(|healthy|, p), a - 1, b);
    }
  }

  lemma {:induction false} AdvanceTo(n: nat, p: nat, calls: nat)
    requires p + calls < n
    ensures Advance(n, p, calls) == p + calls
    decreases calls
  {
    if calls > 0 {
      AdvanceTo(n, p + 1, calls - 1);
    }
  }

  lemma {:induction false} AdvanceSplit(n: nat, p: nat, a: nat, b: nat)
    requires p < n
    ensures Advance(n, p, a + b) == Advance(n, Advance(n, p, a), b)
    decreases a
  {
    if a > 0 {
      AdvanceSplit(n, Succ(n, p), a - 1, b);
    }
  }

  /** The cycle has period n. */
  lemma FullTurn(n: nat, p: nat)
    requires p < n
    ensures Advance(n, p, n) == p
  {
    AdvanceTo(n, p, n - 1 - p);
    AdvanceTo(n, 0, p);
    AdvanceSplit(n, p, n - 1 - p, 1 + p);
    assert Advance(n, n - 1, 1 + p) == Advance(n, 0, p);
  }

  /** A full turn serves r equally often wherever it starts. */
  lemma {:induction false} TurnFromZero(healthy: seq<bool>, r: nat, p: nat)
    requires p < |healthy|
    ensures Served(healthy, r, p, |healthy|) == Served(healthy, r, 0, |healthy|)
  {
    var n := |healthy|;
    if p > 0 {
      TurnFromZero(healthy, r, p - 1);
      FullTurn(n, p - 1);
      ServedSplit(healthy, r, p - 1, n, 1);
      ServedSplit(healthy, r, p - 1, 1, n);
      assert Served(healthy, r, p - 1, 1) == (if Chosen(p - 1, healthy) == Replica(r) then 1 else 0)
                                             + Served(healthy, r, Succ(n, p - 1), 0);
    }
  }

  lemma {:induction false} ServedUpTo(healthy: seq<bool>, r: nat, d: nat, m: nat)
    requires DeadBefore(healthy, r, d) && 0 < m <= |healthy|
    ensures Served(healthy, r, Back(|healthy|, r, m - 1), m) == Min(m, d + 1)
    decreases m
  {
    var n, p := |healthy|, Back(|healthy|, r, m - 1);
    if m - 1 <= d {
      PickReaches(healthy, r, d, m - 1, 0);
    } else {
      PickStopsShort(healthy, r, d, m - 1, 0);
    }
    if m > 1 {
      ServedUpTo(healthy, r, d, m - 1);
      assert Succ(n, p) == Back(n, r, m - 2);
    }
  }

  lemma OneTurn(healthy: seq<bool>, r: nat, d: nat, p: nat)
    requires DeadBefore(healthy, r, d) && p < |healthy|
    ensures Served(healthy, r, p, |healthy|) == d + 1
  {
    TurnFromZero(healthy, r, p);
    TurnFromZero(healthy, r, Back(|healthy|, r, |healthy| - 1));
    ServedUpTo(healthy, r, d, |healthy|);
  }

  lemma OneTurnMore(healthy: seq<bool>, r: nat, d: nat, p: nat, calls: nat)
    requires DeadBefore(healthy, r, d) && p < |healthy|
    ensures Served(healthy, r, p, |healthy| + calls) == 1 + d + Served(healthy, r, p, calls)
    ensures Advance(|healthy|, p, |healthy| + calls) == Advance(|healthy|, p, calls)
  {
    OneTurn(healthy, r, d, p);
    FullTurn(|healthy|, p);
    ServedSplit(healthy, r, p, |healthy|, calls);
    AdvanceSplit(|healthy|, p, |healthy|, calls);
  }

  lemma OneFactorMore(k: nat, x: nat)
    requires k > 0
    ensures k * x == x + (k - 1) * x
  {
  }

  /** With the set of healthy replicas fixed, any k * n consecutive calls return
      the healthy replica r exactly k * (1 + d) times, d being the number of dead
      replicas immediately before it on the cycle. */
  lemma {:induction false} LoadLaw(healthy: seq<bool>, r: nat, d: nat, p: nat, k: nat)
    requires DeadBefore(healthy, r, d) && p < |healthy|
    ensures Served(healthy, r, p, k * |healthy|) == k * (1 + d)
    ensures Advance(|healthy|, p, k * |healthy|) == p
    decreases k
  {
    if k > 0 {
      var calls := (k - 1) * |healthy|;
      OneFactorMore(k, |healthy|);
      OneFactorMore(k, 1 + d);
      LoadLaw(healthy, r, d, p, k - 1);
      assert k * |healthy| == |healthy| + calls;
      OneTurnMore(healthy, r, d, p, calls);
    }
  }

  /** When all replicas are healthy, any window of calls serves any two of them
      equally often, give or take one. */
  lemma EvenLoad(healthy: seq<bool>, a: nat, b: nat, p: nat, calls: nat)
    requires (forall i :: 0 <= i < |healthy| ==> healthy[i])
    requires a < |healthy| && b < |healthy| && p < |healthy|
    ensures -1 <= Served(healthy, a, p, calls) - Served(healthy, b, p, calls) <= 1
  {
    WithinOne(healthy, a, p, calls);
    WithinOne(healthy, b, p, calls);
  }

  lemma WithinOne(healthy: seq<bool>, r: nat, p: nat, calls: nat)
    requires (forall i :: 0 <= i < |healthy| ==> healthy[i])
    requires r < |healthy| && p < |healthy|
    ensures calls / |healthy| <= Served(healthy, r, p, calls) <= calls / |healthy| + 1
  {
    var n := |healthy|;
    var q, rest := calls / n, calls % n;
    assert calls == q * n + rest;
    LoadLaw(healthy, r, 0, p, q);
    ServedSplit(healthy, r, p, q * n, rest);
    LoadLaw(healthy, r, 0, p, 1);
    ServedSplit(healthy, r, p, rest, n - rest);
  }

  /* ---- When load is evenly distributed ---- */

  /** Every healthy replica has some number of dead ones before it. */
  lemma {:induction false} GapFrom(healthy: seq<bool>, r: nat, j: nat) returns (d: nat)
    requires r < |healthy| && healthy[r] && j < |healthy|
    requires forall i :: 1 <= i <= j ==> !healthy[Back(|healthy|, r, i)]
    ensures DeadBefore(healthy, r, d)
    decreases |healthy| - j
  {
    assert Back(|healthy|, r, |healthy|) == r;
    if healthy[Back(|healthy|, r, j + 1)] {
      d := j;
    } else {
      d := GapFrom(healthy, r, j + 1);
    }
  }

  /** So the d of the load law exists, and there is only one. */
  lemma OneGap(healthy: seq<bool>, r: nat)
    requires r < |healthy| && healthy[r]
    ensures exists d: nat :: DeadBefore(healthy, r, d)
    ensures forall d: nat, e: nat :: DeadBefore(healthy, r, d) && DeadBefore(healthy, r, e) ==> d == e
  {
    var _ := GapFrom(healthy, r, 0);
    forall d: nat, e: nat | DeadBefore(healthy, r, d) && DeadBefore(healthy, r, e)
      ensures d == e
    {
      assert healthy[Back(|healthy|, r, d + 1)] && healthy[Back(|healthy|, r, e + 1)];
    }
  }

  lemma {:induction false} DeadNeverServed(healthy: seq<bool>, r: nat, p: nat, calls: nat)
    requires r < |healthy| && !healthy[r] && p < |healthy|
    ensures Served(healthy, r, p, calls) == 0
    decreases calls
  {
    if calls > 0 {
      DeadNeverServed(healthy, r, Succ(|healthy|, p), calls - 1);
    }
  }

  /** k full turns serve a healthy replica at least k times. */
  lemma ServedEveryTurn(healthy: seq<bool>, r: nat, p: nat, k: nat)
    requires r < |healthy| && healthy[r] && p < |healthy|
    ensures Served(healthy, r, p, k * |healthy|) >= k
  {
    var d := GapFrom(healthy, r, 0);
    LoadLaw(healthy, r, d, p, k);
    AtLeast(k, d);
  }

  lemma AtLeast(k: nat, d: nat)
    ensures k * (1 + d) >= k
  {
  }

  /** Over every window of calls any two replicas are returned equally often, give
      or take one. */
  ghost predicate Even(healthy: seq<bool>)
  {
    forall a: nat, b: nat, p: nat, calls: nat :: a < |healthy| && b < |healthy| && p < |healthy| ==>
      Served(healthy, a, p, calls) - Served(healthy, b, p, calls) <= 1
  }

  /** Load is evenly distributed exactly when all replicas are healthy, or none. */
  lemma EvenIffAllAlike(healthy: seq<bool>)
    ensures Even(healthy) <==>
      (forall i :: 0 <= i < |healthy| ==> healthy[i]) || (forall i :: 0 <= i < |healthy| ==> !healthy[i])
  {
    if a, b :| 0 <= a < |healthy| && 0 <= b < |healthy| && healthy[a] && !healthy[b] {
      ServedEveryTurn(healthy, a, 0, 2);
      DeadNeverServed(healthy, b, 0, 2 * |healthy|);
    } else {
      forall a: nat, b: nat, p: nat, calls: nat | a < |healthy| && b < |healthy| && p < |healthy|
        ensures Served(healthy, a, p, calls) - Served(healthy, b, p, calls) <= 1
      {
        if healthy[a] {
          EvenLoad(healthy, a, b, p, calls);
        } else {
          DeadNeverServed(healthy, a, p, calls);
        }
      }
    }
  }

  /** With the last of three replicas dead, the first serves twice as many calls as
      the second. */
  lemma OneDeadOfThree(p: nat, k: nat)
    requires p < 3
    ensures Served([true, true, false], 0, p, k * 3) == k * 2
    ensures Served([true, true, false], 1, p, k * 3) == k
    ensures Served([true, true, false], 2, p, k * 3) == 0
  {
    var healthy := [true, true, false];
    LoadLaw(healthy, 0, 1, p, k);
    LoadLaw(healthy, 1, 0, p, k);
    DeadNeverServed(healthy, 2, p, k * 3);
  }
}
