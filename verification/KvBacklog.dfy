/** How far the batched cleanup falls behind. */
module KvBacklog {
  import opened Prelude
  import opened KvStore
  import opened KvRuns

  /** One turn of the cleanup loop and the requests served until the next. */
  datatype Cycle = Cycle(now: int, doomed: set<Key>, traffic: seq<Op>)

  /** The table before cycle i. */
  function TableAt(t: Table, cycles: seq<Cycle>, i: nat): Table
    requires i <= |cycles|
  {
    if i == 0 then t else
      var c := cycles[i - 1];
      Run(Apply(TableAt(t, cycles, i - 1), Cleanup(c.now, c.doomed)), c.traffic)
  }

  /** The dead rows cycle i finds. */
  function Dead(t: Table, cycles: seq<Cycle>, i: nat): set<Key>
    requires i < |cycles|
  {
    Collectable(TableAt(t, cycles, i), cycles[i].now)
  }

  /** The dead rows cycle i leaves. */
  function Leftover(t: Table, cycles: seq<Cycle>, i: nat): set<Key>
    requires i < |cycles|
  {
    Collectable(Apply(TableAt(t, cycles, i), Cleanup(cycles[i].now, cycles[i].doomed)), cycles[i].now)
  }

  /** The rows that die between cycle i and the next, by DELETE, by expiry or by
      being written with a deadline already past. */
  function NewlyDead(t: Table, cycles: seq<Cycle>, i: nat): set<Key>
    requires i + 1 < |cycles|
  {
    Dead(t, cycles, i + 1) - Leftover(t, cycles, i)
  }

  ghost predicate Batched(t: Table, cycles: seq<Cycle>, limit: nat)
  {
    forall i: nat :: i < |cycles| ==> IsBatch(TableAt(t, cycles, i), cycles[i].now, limit, cycles[i].doomed)
  }

  /** At any clock a row is either visible or collectable. A cleanup changes no row
      that is visible at its clock, invents none, and leaves all but a batch of the
      dead. */
  lemma CleanupTakesOnlyDeadRows(t: Table, now: int, limit: nat, doomed: set<Key>)
    requires IsBatch(t, now, limit, doomed)
    ensures
      var t' := Apply(t, Cleanup(now, doomed));
      && (forall k :: k in t ==> (Visible(t, k, now) <==> k !in Collectable(t, now)))
      && (forall k :: Visible(t, k, now) ==> k in t' && t'[k] == t[k])
      && (forall k :: k in t' ==> k in t && t'[k] == t[k])
      && |Collectable(t', now)| == Max(0, |Collectable(t, now)| - limit)
  {
    var t' := Apply(t, Cleanup(now, doomed));
    assert doomed * Collectable(t, now) == doomed;
    assert Collectable(t', now) == Collectable(t, now) - doomed;
  }

  /** From cycle to cycle: max(0, dead - limit) plus the newly dead. */
  lemma BacklogStep(t: Table, cycles: seq<Cycle>, limit: nat, i: nat)
    requires Batched(t, cycles, limit) && i + 1 < |cycles|
    ensures |Dead(t, cycles, i + 1)| <= Max(0, |Dead(t, cycles, i)| - limit) + |NewlyDead(t, cycles, i)|
  {
    CleanupTakesOnlyDeadRows(TableAt(t, cycles, i), cycles[i].now, limit, cycles[i].doomed);
    var kept := Dead(t, cycles, i + 1) * Leftover(t, cycles, i);
    assert Dead(t, cycles, i + 1) == kept + NewlyDead(t, cycles, i);
    SubsetSize(kept, Leftover(t, cycles, i));
  }

  lemma {:induction false} Decay(d: seq<nat>, n: nat, room: nat, i: nat)
    requires i < |d|
    requires forall j :: 0 <= j < |d| - 1 ==> d[j + 1] <= Max(0, d[j] - (n + room)) + n
    ensures d[i] <= Max(n, d[0] - i * room)
  {
    if i > 0 {
      Decay(d, n, room, i - 1);
      assert i * room == (i - 1) * room + room;
      assert d[i - 1 + 1] <= Max(0, d[i - 1] - (n + room)) + n;
    }
  }

  ghost function Sizes(t: Table, cycles: seq<Cycle>, m: nat): (r: seq<nat>)
    requires m <= |cycles|
    ensures |r| == m && forall j: nat :: j < m ==> r[j] == |Dead(t, cycles, j)|
  {
    seq(m, j requires 0 <= j < m => |Dead(t, cycles, j)|)
  }

  /** At most n rows die before each of the next m cycles. */
  ghost predicate DeathsAtMost(t: Table, cycles: seq<Cycle>, m: nat, n: nat)
    requires m < |cycles|
  {
    forall j: nat :: j < m ==> |NewlyDead(t, cycles, j)| <= n
  }

  /** With at most n deaths per cycle and batches with room for `room` more, the
      backlog sheds `room` rows per cycle until no more than n are left. */
  lemma BacklogBound(t: Table, cycles: seq<Cycle>, n: nat, room: nat, i: nat)
    requires Batched(t, cycles, n + room) && i < |cycles| && DeathsAtMost(t, cycles, i, n)
    ensures |Dead(t, cycles, i)| <= Max(n, |Dead(t, cycles, 0)| - i * room)
  {
    var d := Sizes(t, cycles, i + 1);
    forall j | 0 <= j < |d| - 1
      ensures d[j + 1] <= Max(0, d[j] - (n + room)) + n
    {
      BacklogStep(t, cycles, n + room, j);
    }
    Decay(d, n, room, i);
  }

  lemma DivisionBounds(x: nat, limit: nat)
    requires limit > 0
    ensures x / limit * limit <= x < x / limit * limit + limit
  {
    assert x == x / limit * limit + x % limit;
  }

  lemma Scaled(a: int, b: int, limit: nat)
    requires a <= b
    ensures a * limit <= b * limit
  {
  }

  /** i cycles are ceil(d / limit) or more exactly when i batches hold d rows. */
  lemma CeilingIsCover(d: nat, limit: nat, i: nat)
    requires limit > 0
    ensures i >= (d + limit - 1) / limit <==> i * limit >= d
  {
    var q := (d + limit - 1) / limit;
    DivisionBounds(d + limit - 1, limit);
    if i >= q {
      Scaled(q, i, limit);
    } else {
      Scaled(i, q - 1, limit);
      assert (q - 1) * limit == q * limit - limit;
    }
  }

  /** With no new deaths, D dead rows are gone once i batches hold D rows. */
  lemma CoveredVanishes(t: Table, cycles: seq<Cycle>, limit: nat, i: nat)
    requires Batched(t, cycles, limit) && i < |cycles| && DeathsAtMost(t, cycles, i, 0)
    requires |Dead(t, cycles, 0)| <= i * limit
    ensures |Dead(t, cycles, i)| == 0
  {
    BacklogBound(t, cycles, 0, limit, i);
  }

  /** With no new deaths, D dead rows are gone after ceil(D / limit) cycles. */
  lemma CeilingVanishes(t: Table, cycles: seq<Cycle>, limit: nat, i: nat)
    requires Batched(t, cycles, limit) && i < |cycles| && DeathsAtMost(t, cycles, i, 0)
    requires limit > 0 && i >= (|Dead(t, cycles, 0)| + limit - 1) / limit
    ensures |Dead(t, cycles, i)| == 0
  {
    CeilingIsCover(|Dead(t, cycles, 0)|, limit, i);
    CoveredVanishes(t, cycles, limit, i);
  }

  /* ---- Which rows die between two cycles ---- */

  predicate Written(ops: seq<Op>, key: Key)
  {
    exists i :: 0 <= i < |ops| && Writes(ops[i], key)
  }

  lemma {:induction false} UnwrittenStays(t: Table, ops: seq<Op>, key: Key)
    requires forall i :: 0 <= i < |ops| ==> !Writes(ops[i], key)
    requires key in Run(t, ops)
    ensures key in t && Run(t, ops)[key] == t[key]
  {
    if ops != [] {
      UnwrittenStays(t, ops[..|ops| - 1], key);
    }
  }

  /** The rows cycle i finds whose deadline lies in (from, to]. */
  function Expiring(t: Table, cycles: seq<Cycle>, i: nat, from: int, to: int): set<Key>
    requires i < |cycles|
  {
    var rows := TableAt(t, cycles, i);
    set k | k in rows && rows[k].expireAt != NEVER && from < rows[k].expireAt <= to
  }

  /** A row newly dead at the next cycle was written in between, or its deadline
      passed in between: nothing the cleanup found dead and took comes back. */
  lemma NewlyDeadWereWrittenOrExpired(t: Table, cycles: seq<Cycle>, i: nat, key: Key)
    requires i + 1 < |cycles| && key in NewlyDead(t, cycles, i)
    ensures Written(cycles[i].traffic, key) || key in Expiring(t, cycles, i, cycles[i].now, cycles[i + 1].now)
  {
    if !Written(cycles[i].traffic, key) {
      UnwrittenStays(Apply(TableAt(t, cycles, i), Cleanup(cycles[i].now, cycles[i].doomed)), cycles[i].traffic, key);
    }
  }

  /** After cycle i nothing is written and no deadline passes before the next. */
  ghost predicate QuietCycle(t: Table, cycles: seq<Cycle>, i: nat)
    requires i + 1 < |cycles|
  {
    && (forall op :: op in cycles[i].traffic ==> !op.Put? && !op.Delete?)
    && Expiring(t, cycles, i, cycles[i].now, cycles[i + 1].now) == {}
  }

  lemma QuietMeansNoDeaths(t: Table, cycles: seq<Cycle>, i: nat)
    requires i + 1 < |cycles| && QuietCycle(t, cycles, i)
    ensures NewlyDead(t, cycles, i) == {}
  {
    if key :| key in NewlyDead(t, cycles, i) {
      NewlyDeadWereWrittenOrExpired(t, cycles, i, key);
      var n :| 0 <= n < |cycles[i].traffic| && Writes(cycles[i].traffic[n], key);
      assert cycles[i].traffic[n] in cycles[i].traffic;
    }
  }

  /** While nothing is written and no deadline passes, D dead rows are gone after
      ceil(D / limit) cycles. */
  lemma BacklogVanishes(t: Table, cycles: seq<Cycle>, limit: nat, i: nat)
    requires Batched(t, cycles, limit) && i < |cycles|
    requires forall j: nat :: j < i ==> QuietCycle(t, cycles, j)
    requires limit > 0 && i >= (|Dead(t, cycles, 0)| + limit - 1) / limit
    ensures |Dead(t, cycles, i)| == 0
  {
    forall j: nat | j < i
      ensures |NewlyDead(t, cycles, j)| <= 0
    {
      assert QuietCycle(t, cycles, j);
      QuietMeansNoDeaths(t, cycles, j);
    }
    CeilingVanishes(t, cycles, limit, i);
  }

  /* ---- The cycles are one log ---- */

  /** The statements of the first i cycles, cleanups included. */
  function LogOf(cycles: seq<Cycle>, i: nat): seq<Op>
    requires i <= |cycles|
  {
    if i == 0 then [] else
      LogOf(cycles, i - 1) + [Cleanup(cycles[i - 1].now, cycles[i - 1].doomed)] + cycles[i - 1].traffic
  }

  lemma {:induction false} RunConcat(t: Table, a: seq<Op>, b: seq<Op>)
    ensures Run(t, a + b) == Run(Run(t, a), b)
  {
    if b == [] {
      assert a + b == a;
    } else {
      assert (a + b)[..|a| + |b| - 1] == a + b[..|b| - 1];
      RunConcat(t, a, b[..|b| - 1]);
    }
  }

  /** The table a cycle finds is what the log of all statements before it makes of
      the first table, so the theorems about logs hold of it. */
  lemma {:induction false} TableAtIsRun(t: Table, cycles: seq<Cycle>, i: nat)
    requires i <= |cycles|
    ensures TableAt(t, cycles, i) == Run(t, LogOf(cycles, i))
  {
    if i > 0 {
      var c := cycles[i - 1];
      var clean := Cleanup(c.now, c.doomed);
      TableAtIsRun(t, cycles, i - 1);
      RunConcat(t, LogOf(cycles, i - 1) + [clean], c.traffic);
      RunConcat(t, LogOf(cycles, i - 1), [clean]);
      assert [clean][..0] == [];
    }
  }

  /* ---- Not a cycle sooner ---- */

  /** Nothing is written between the cycles, and no clock is behind an earlier one. */
  ghost predicate Idle(cycles: seq<Cycle>)
  {
    && (forall i :: 0 <= i < |cycles| ==> cycles[i].traffic == [])
    && (forall i, j :: 0 <= i < j < |cycles| ==> cycles[i].now <= cycles[j].now)
  }

  lemma LeftoverStaysDead(t: Table, cycles: seq<Cycle>, i: nat)
    requires Idle(cycles) && i + 1 < |cycles|
    ensures Leftover(t, cycles, i) <= Dead(t, cycles, i + 1)
  {
  }

  /** On an idle table each cycle removes no more than a batch, so the bound of
      ceil(D / limit) cycles cannot be improved. */
  lemma {:induction false} NoSooner(t: Table, cycles: seq<Cycle>, limit: nat, i: nat)
    requires Batched(t, cycles, limit) && i < |cycles| && Idle(cycles)
    ensures |Dead(t, cycles, i)| >= |Dead(t, cycles, 0)| - i * limit
  {
    if i > 0 {
      NoSooner(t, cycles, limit, i - 1);
      var c := cycles[i - 1];
      CleanupTakesOnlyDeadRows(TableAt(t, cycles, i - 1), c.now, limit, c.doomed);
      LeftoverStaysDead(t, cycles, i - 1);
      SubsetSize(Leftover(t, cycles, i - 1), Dead(t, cycles, i));
      OneBatchMore(i, limit);
    }
  }

  lemma OneBatchMore(i: int, limit: int)
    ensures i * limit == (i - 1) * limit + limit
  {
  }

  /** On an idle table whose dead rows do not grow, they are gone after i cycles
      exactly when i >= ceil(D / limit). */
  lemma GoneIffEnoughCycles(t: Table, cycles: seq<Cycle>, limit: nat, i: nat)
    requires Batched(t, cycles, limit) && i < |cycles| && DeathsAtMost(t, cycles, i, 0) && Idle(cycles)
    requires limit > 0
    ensures |Dead(t, cycles, i)| == 0 <==> i >= (|Dead(t, cycles, 0)| + limit - 1) / limit
  {
    CeilingIsCover(|Dead(t, cycles, 0)|, limit, i);
    NoSooner(t, cycles, limit, i);
    if |Dead(t, cycles, 0)| <= i * limit {
      CoveredVanishes(t, cycles, limit, i);
    }
  }

  /** With at most `limit` deaths per cycle the backlog never exceeds the larger
      of what it was and one batch. */
  lemma BacklogStaysBounded(t: Table, cycles: seq<Cycle>, limit: nat, i: nat)
    requires Batched(t, cycles, limit) && i < |cycles| && DeathsAtMost(t, cycles, i, limit)
    ensures |Dead(t, cycles, i)| <= Max(|Dead(t, cycles, 0)|, limit)
  {
    BacklogBound(t, cycles, limit, 0, i);
  }
}
