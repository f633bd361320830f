/** The order in which a bounded queue reissues its connections. */
module FifoOrder {
  import opened Prelude

  datatype Event<T> = Handed(conn: T) | Released(conn: T)

  /** `events` turn the queue `q` into `r`. */
  ghost predicate Follows<T>(q: seq<T>, events: seq<Event<T>>, r: seq<T>)
    decreases |events|
  {
    if events == [] then q == r
    else
      match events[0]
      case Handed(c) => q != [] && q[0] == c && Follows(q[1..], events[1..], r)
      case Released(c) => Follows(q + [c], events[1..], r)
  }

  function HandedOut<T>(events: seq<Event<T>>): seq<T>
  {
    if events == [] then [] else
      (if events[0].Handed? then [events[0].conn] else []) + HandedOut(events[1..])
  }

  function GivenBack<T>(events: seq<Event<T>>): seq<T>
  {
    if events == [] then [] else
      (if events[0].Released? then [events[0].conn] else []) + GivenBack(events[1..])
  }

  /** What was handed out, followed by what is left, is what was there followed by
      what was given back. */
  lemma {:induction false} FifoLaw<T>(q: seq<T>, events: seq<Event<T>>, r: seq<T>)
    requires Follows(q, events, r)
    ensures HandedOut(events) + r == q + GivenBack(events)
    decreases |events|
  {
    if events != [] {
      match events[0] {
        case Handed(c) =>
          FifoLaw(q[1..], events[1..], r);
          assert q == [c] + q[1..];
          assert [c] + (HandedOut(events[1..]) + r) == ([c] + HandedOut(events[1..])) + r;
        case Released(c) =>
          FifoLaw(q + [c], events[1..], r);
          assert (q + [c]) + GivenBack(events[1..]) == q + ([c] + GivenBack(events[1..]));
      }
    }
  }

  /** A connection released while `q` is idle is reissued only after all of `q`, in
      the order of `q`. */
  lemma ReissuedAfterThoseIdle<T>(q: seq<T>, c: T, later: seq<Event<T>>, r: seq<T>, i: nat)
    requires Follows(q + [c], later, r) && c !in q
    requires i < |HandedOut(later)| && HandedOut(later)[i] == c
    ensures i >= |q| && HandedOut(later)[..|q|] == q
  {
    FifoLaw(q + [c], later, r);
    var total := HandedOut(later) + r;
    assert total == q + [c] + GivenBack(later);
    assert total[i] == c;
    assert forall j :: 0 <= j < |q| ==> total[j] == q[j];
    assert HandedOut(later)[..|q|] == total[..|q|];
  }

  lemma {:induction false} FollowsThen<T>(q: seq<T>, events: seq<Event<T>>, r: seq<T>, e: Event<T>, r': seq<T>)
    requires Follows(q, events, r)
    requires match e case Handed(c) => r == [c] + r' case Released(c) => r' == r + [c]
    ensures Follows(q, events + [e], r')
    decreases |events|
  {
    if events == [] {
      assert [e][1..] == [];
    } else {
      var q' := if events[0].Handed? then q[1..] else q + [events[0].conn];
      FollowsThen(q', events[1..], r, e, r');
      assert (events + [e])[1..] == events[1..] + [e];
    }
  }

  /** Callers have given back no more than they were handed. */
  ghost predicate Disciplined<T>(events: seq<Event<T>>)
  {
    multiset(GivenBack(events)) <= multiset(HandedOut(events))
  }

  /** The connections out with callers. */
  ghost function Out<T>(events: seq<Event<T>>): multiset<T>
  {
    multiset(HandedOut(events)) - multiset(GivenBack(events))
  }

  /** Idle plus out is a permutation of the initial connections, so a caller that
      returns what it holds finds room in a queue bounded by their number. */
  lemma HolderFindsRoom<T>(q: seq<T>, events: seq<Event<T>>, r: seq<T>)
    requires Follows(q, events, r) && Disciplined(events)
    ensures multiset(q) == multiset(r) + Out(events)
    ensures Out(events) != multiset{} ==> |r| < |q|
  {
    FifoLaw(q, events, r);
    assert multiset(HandedOut(events) + r) == multiset(q + GivenBack(events));
    Balance(multiset(q), multiset(r), multiset(HandedOut(events)), multiset(GivenBack(events)));
  }

  lemma {:induction false} DistinctIffCountedOnce<T>(xs: seq<T>)
    ensures NoDuplicates(xs) <==> forall x :: multiset(xs)[x] <= 1
  {
    if xs != [] {
      var n := |xs| - 1;
      DistinctIffCountedOnce(xs[..n]);
      assert xs == xs[..n] + [xs[n]];
      if NoDuplicates(xs) {
        assert xs[n] !in xs[..n];
      } else if NoDuplicates(xs[..n]) {
        var i :| 0 <= i < n && xs[i] == xs[n];
        assert xs[n] in multiset(xs[..n]);
        assert multiset(xs)[xs[n]] > 1;
      } else {
        var x :| multiset(xs[..n])[x] > 1;
        assert multiset(xs)[x] > 1;
      }
    }
  }

  /** How often x is among the first n. */
  ghost function Times<T>(xs: seq<T>, n: nat, x: T): nat
    requires n <= |xs|
  {
    if n == 0 then 0 else Times(xs, n - 1, x) + if xs[n - 1] == x then 1 else 0
  }

  lemma {:induction false} TimesIsCount<T>(xs: seq<T>, n: nat, x: T)
    requires n <= |xs|
    ensures Times(xs, n, x) == multiset(xs[..n])[x]
  {
    if n > 0 {
      TimesIsCount(xs, n - 1, x);
      assert xs[..n] == xs[..n - 1] + [xs[n - 1]];
    }
  }

  lemma TimesIsMultiset<T>(xs: seq<T>)
    ensures forall x :: Times(xs, |xs|, x) == multiset(xs)[x]
  {
    forall x
      ensures Times(xs, |xs|, x) == multiset(xs)[x]
    {
      TimesIsCount(xs, |xs|, x);
      assert xs[..|xs|] == xs;
    }
  }

  /** Disciplined callers never put a connection into the queue twice. */
  lemma DisciplineKeepsDistinct<T>(q: seq<T>, events: seq<Event<T>>, r: seq<T>)
    requires Follows(q, events, r) && Disciplined(events) && NoDuplicates(q)
    ensures NoDuplicates(r)
  {
    HolderFindsRoom(q, events, r);
    DistinctIffCountedOnce(q);
    DistinctIffCountedOnce(r);
    forall x
      ensures multiset(r)[x] <= 1
    {
      assert multiset(q)[x] == multiset(r)[x] + Out(events)[x];
    }
  }

  /** Whatever disciplined callers do, no connection has two holders, and none is
      held and idle at once. */
  lemma NoTwoHolders<T>(q: seq<T>, events: seq<Event<T>>, r: seq<T>)
    requires Follows(q, events, r) && Disciplined(events) && NoDuplicates(q)
    ensures forall x :: Out(events)[x] <= 1
    ensures forall x :: x in Out(events) ==> x !in r
  {
    HolderFindsRoom(q, events, r);
    DistinctIffCountedOnce(q);
    forall x
      ensures Out(events)[x] + multiset(r)[x] <= 1
    {
      assert multiset(q)[x] == multiset(r)[x] + Out(events)[x];
    }
  }

  lemma DisciplineGivesOne<T>(q: seq<T>, events: seq<Event<T>>, r: seq<T>)
    requires Follows(q, events, r) && Disciplined(events) && NoDuplicates(q)
    ensures forall x :: x in r ==> multiset(r)[x] == 1
  {
    DisciplineKeepsDistinct(q, events, r);
    DistinctIffCountedOnce(r);
  }

  lemma {:induction false} OneMore<T>(events: seq<Event<T>>, e: Event<T>)
    ensures HandedOut(events + [e]) == HandedOut(events) + if e.Handed? then [e.conn] else []
    ensures GivenBack(events + [e]) == GivenBack(events) + if e.Released? then [e.conn] else []
  {
    if events == [] {
      assert events + [e] == [e];
    } else {
      assert (events + [e])[1..] == events[1..] + [e];
      OneMore(events[1..], e);
    }
  }

  /** A connection taken and given back leaves the callers as disciplined as they
      were, with the same connections out. */
  lemma RoundTripKeepsOut<T>(events: seq<Event<T>>, c: T)
    requires Disciplined(events)
    ensures Disciplined(events + [Handed(c)] + [Released(c)])
    ensures Out(events + [Handed(c)] + [Released(c)]) == Out(events)
  {
    OneMore(events, Handed(c));
    OneMore(events + [Handed(c)], Released(c));
    var after := events + [Handed(c)] + [Released(c)];
    assert multiset(HandedOut(after)) == multiset(HandedOut(events)) + multiset{c};
    assert multiset(GivenBack(after)) == multiset(GivenBack(events)) + multiset{c};
  }

  lemma Balance<T>(q: multiset<T>, r: multiset<T>, handed: multiset<T>, back: multiset<T>)
    requires handed + r == q + back && back <= handed
    ensures q == r + (handed - back)
    ensures handed - back != multiset{} ==> |r| < |q|
  {
    forall x
      ensures q[x] == (r + (handed - back))[x]
    {
      assert (handed + r)[x] == (q + back)[x];
    }
    assert q == r + (handed - back);
    assert |q| == |r| + |handed - back|;
  }
}

/** A database connection, the same in both pools. */
module Connections {

  class Connection {
    const id: nat
    var closed: bool
    /** How often `Close` was called. */
    ghost var closes: nat

    constructor (id: nat)
      ensures this.id == id && !closed && closes == 0
    {
      this.id := id;
      closed := false;
      closes := 0;
    }

    /** False stands for the error raised on a closed connection. */
    method Execute() returns (ok: bool)
      ensures ok <==> !closed
    {
      ok := !closed;
    }

    method Close()
      modifies this
      ensures closed && closes == old(closes) + 1
    {
      closed := true;
      closes := closes + 1;
    }
  }

  /** `size` open connections numbered after `counter`. */
  method OpenAll(size: nat, counter: nat) returns (queue: seq<Connection>)
    ensures |queue| == size && fresh(queue)
    ensures forall i, j :: 0 <= i < j < size ==> queue[i] != queue[j]
    ensures forall i :: 0 <= i < size ==> !queue[i].closed && queue[i].closes == 0 && queue[i].id == counter + 1 + i
  {
    queue := [];
    for n := 0 to size
      invariant |queue| == n && fresh(queue)
      invariant forall i, j :: 0 <= i < j < n ==> queue[i] != queue[j]
      invariant forall i :: 0 <= i < n ==> !queue[i].closed && queue[i].closes == 0 && queue[i].id == counter + 1 + i
    {
      var conn := new Connection(counter + 1 + n);
      queue := queue + [conn];
    }
  }
}

/** `connection-pooling/pool.py`. */
module PythonPool {
  import opened Prelude
  import opened FifoOrder
  import opened Connections

  /** ValueError for a size that is not positive: null. */
  method NewPool(poolSize: int, counter: nat) returns (pool: ConnectionPool?)
    ensures pool == null <==> poolSize <= 0
    ensures pool != null ==> fresh(pool) && pool.Valid() && pool.poolSize == poolSize && |pool.idle| == poolSize
    ensures pool != null ==> fresh(pool.idle) && NoDuplicates(pool.idle)
    ensures pool != null ==> forall i :: 0 <= i < poolSize ==> !pool.idle[i].closed && pool.idle[i].id == counter + 1 + i
  {
    if poolSize <= 0 {
      return null;
    }
    pool := new ConnectionPool(poolSize, counter);
  }

  class ConnectionPool {
    const poolSize: nat
    /** The bounded queue. */
    var idle: seq<Connection>
    ghost const initial: seq<Connection>
    /** Connections handed out and taken back so far. */
    ghost var events: seq<Event<Connection>>

    ghost predicate Valid()
      reads this
    {
      && |idle| <= poolSize && |initial| == poolSize && NoDuplicates(initial)
      && Follows(initial, events, idle)
    }

    constructor (poolSize: nat, counter: nat)
      requires poolSize > 0
      ensures Valid() && this.poolSize == poolSize && idle == initial && events == []
      ensures fresh(idle) && NoDuplicates(idle)
      ensures forall i :: 0 <= i < poolSize ==> !idle[i].closed && idle[i].closes == 0 && idle[i].id == counter + 1 + i
    {
      this.poolSize := poolSize;
      var queue := OpenAll(poolSize, counter);
      idle := queue;
      initial := queue;
      events := [];
    }

    method TakeFront() returns (conn: Connection)
      requires Valid() && idle != []
      modifies this
      ensures Valid() && [conn] + idle == old(idle) && events == old(events) + [Handed(conn)]
    {
      conn := idle[0];
      FollowsThen(initial, events, idle, Handed(idle[0]), idle[1..]);
      idle := idle[1..];
      events := events + [Handed(conn)];
    }

    /** Null stands for the TimeoutError; a wait only times out on an empty queue. */
    method GetConn() returns (conn: Connection?)
      requires Valid()
      modifies this
      ensures Valid()
      ensures conn == null <==> old(idle) == []
      ensures conn == null ==> idle == old(idle) && events == old(events)
      ensures conn != null ==> [conn] + idle == old(idle) && events == old(events) + [Handed(conn)]
    {
      if idle == [] {
        return null;
      }
      conn := TakeFront();
    }

    /** True when `put` would block for ever because the queue is full. */
    method ReleaseConn(conn: Connection) returns (blocked: bool)
      requires Valid()
      modifies this
      ensures Valid()
      ensures blocked <==> |old(idle)| == poolSize
      ensures blocked ==> idle == old(idle) && events == old(events)
      ensures !blocked ==> idle == old(idle) + [conn] && events == old(events) + [Released(conn)]
    {
      blocked := |idle| == poolSize;
      if !blocked {
        FollowsThen(initial, events, idle, Released(conn), idle + [conn]);
        idle := idle + [conn];
        events := events + [Released(conn)];
      }
    }

    /** Drains the queue and closes what is in it: a connection as often as it is
        there, which is once when callers gave back only what they were handed. */
    method Close()
      requires Valid()
      modifies this, idle
      ensures Valid() && idle == []
      ensures forall c :: c in old(idle) ==> c.closed && c.closes == old(c.closes) + multiset(old(idle))[c]
      ensures Disciplined(old(events)) ==> forall c :: c in old(idle) ==> c.closes == old(c.closes) + 1
    {
      ghost var n, conns := 0, idle;
      while idle != []
        invariant Valid()
        invariant 0 <= n <= |conns| && idle == conns[n..]
        invariant forall i :: 0 <= i < n ==> conns[i].closed
        invariant forall c :: c in conns ==> c.closes == old(c.closes) + Times(conns, n, c)
        decreases |idle|
      {
        var conn := TakeFront();
        assert conn == conns[n];
        conn.Close();
        n := n + 1;
      }
      TimesIsMultiset(conns);
      if Disciplined(old(events)) {
        DisciplineGivesOne(initial, old(events), conns);
      }
    }
  }

  datatype Outcome = Completed | NoConnection | OnClosed

  /** A worker with the pool to itself. It gives up only on an empty pool and fails
      only on a closed connection, which it then keeps; otherwise its connection
      goes from the front of the queue to the back and the callers hold what they
      held before. */
  method Worker(pool: ConnectionPool) returns (outcome: Outcome)
    requires pool.Valid()
    modifies pool
    ensures pool.Valid()
    ensures outcome == NoConnection <==> old(pool.idle) == []
    ensures outcome == OnClosed <==> old(pool.idle) != [] && old(pool.idle)[0].closed
    ensures match outcome
            case NoConnection => pool.idle == old(pool.idle) && pool.events == old(pool.events)
            case OnClosed => pool.idle == old(pool.idle)[1..]
            case Completed => && pool.idle == old(pool.idle)[1..] + [old(pool.idle)[0]]
                              && (Disciplined(old(pool.events)) ==>
                                    Disciplined(pool.events) && Out(pool.events) == Out(old(pool.events)))
  {
    var conn := pool.GetConn();
    if conn == null {
      return NoConnection;
    }
    var ok := conn.Execute();
    if !ok {
      return OnClosed;
    }
    var blocked := pool.ReleaseConn(conn);
    assert !blocked;
    if Disciplined(old(pool.events)) {
      RoundTripKeepsOut(old(pool.events), conn);
    }
    outcome := Completed;
  }
}

/** `connection-pooling/pool.go`: the queue is a buffered channel. */
module GoPool {
  import opened Prelude
  import opened FifoOrder
  import opened Connections

  datatype GetResult = Got(conn: Connection) | TimedOut | GetPanics

  datatype SendResult = Sent | Blocks | SendPanics

  /** A channel cannot be made with a negative capacity: null. */
  method NewPool(size: int, counter: nat) returns (pool: Pool?)
    ensures pool == null <==> size < 0
    ensures pool != null ==> fresh(pool) && pool.Valid() && pool.poolSize == size && |pool.conns| == size
    ensures pool != null ==> fresh(pool.conns) && NoDuplicates(pool.conns) && !pool.chanClosed
    ensures pool != null ==> forall i :: 0 <= i < size ==> !pool.conns[i].closed && pool.conns[i].id == counter + 1 + i
  {
    if size < 0 {
      return null;
    }
    pool := new Pool(size, counter);
  }

  class Pool {
    const poolSize: nat
    /** The contents of the channel, and whether it is closed. */
    var conns: seq<Connection>
    var chanClosed: bool
    ghost const initial: seq<Connection>
    /** Connections handed out and taken back so far. */
    ghost var events: seq<Event<Connection>>

    ghost predicate Valid()
      reads this
    {
      && |conns| <= poolSize && |initial| == poolSize && NoDuplicates(initial)
      && Follows(initial, events, conns)
      && (chanClosed ==> conns == [])
    }

    constructor (size: nat, counter: nat)
      ensures Valid() && poolSize == size && conns == initial && events == [] && !chanClosed
      ensures fresh(conns) && NoDuplicates(conns)
      ensures forall i :: 0 <= i < size ==> !conns[i].closed && conns[i].closes == 0 && conns[i].id == counter + 1 + i
    {
      poolSize := size;
      var queue := OpenAll(size, counter);
      conns := queue;
      initial := queue;
      chanClosed := false;
      events := [];
    }

    method TakeFront() returns (conn: Connection)
      requires Follows(initial, events, conns) && conns != []
      modifies this
      ensures [conn] + conns == old(conns) && events == old(events) + [Handed(conn)]
      ensures Follows(initial, events, conns) && chanClosed == old(chanClosed)
    {
      conn := conns[0];
      FollowsThen(initial, events, conns, Handed(conns[0]), conns[1..]);
      conns := conns[1..];
      events := events + [Handed(conn)];
    }

    /** `timerWins` is the choice of `select` when the timer has fired: it may win
        even over a ready connection. A closed, drained channel yields a nil whose
        field access panics; an empty open one leaves only the timer. */
    method Get(timerWins: bool) returns (result: GetResult)
      requires Valid()
      modifies this
      ensures Valid() && chanClosed == old(chanClosed)
      ensures result.Got? <==> !timerWins && old(conns) != []
      ensures result.GetPanics? <==> !timerWins && old(chanClosed)
      ensures result.Got? ==> [result.conn] + conns == old(conns) && events == old(events) + [Handed(result.conn)]
      ensures !result.Got? ==> conns == old(conns) && events == old(events)
    {
      if timerWins || (conns == [] && !chanClosed) {
        return TimedOut;
      }
      if conns == [] {
        return GetPanics;
      }
      var conn := TakeFront();
      result := Got(conn);
    }

    /** A send panics on a closed channel and blocks on a full one. */
    method Release(conn: Connection) returns (result: SendResult)
      requires Valid()
      modifies this
      ensures Valid() && chanClosed == old(chanClosed)
      ensures result.SendPanics? <==> old(chanClosed)
      ensures result.Blocks? <==> !old(chanClosed) && |old(conns)| == poolSize
      ensures result.Sent? ==> conns == old(conns) + [conn] && events == old(events) + [Released(conn)]
      ensures !result.Sent? ==> conns == old(conns) && events == old(events)
    {
      if chanClosed {
        return SendPanics;
      }
      if |conns| == poolSize {
        return Blocks;
      }
      FollowsThen(initial, events, conns, Released(conn), conns + [conn]);
      conns := conns + [conn];
      events := events + [Released(conn)];
      result := Sent;
    }

    /** Closes the channel, then what is still in it: a connection as often as it is
        there, which is once when callers gave back only what they were handed. A
        second close panics. */
    method Close() returns (panicked: bool)
      requires Valid()
      modifies this, conns
      ensures Valid() && chanClosed && conns == []
      ensures panicked <==> old(chanClosed)
      ensures forall c :: c in old(conns) ==> c.closed && c.closes == old(c.closes) + multiset(old(conns))[c]
      ensures Disciplined(old(events)) ==> forall c :: c in old(conns) ==> c.closes == old(c.closes) + 1
    {
      if chanClosed {
        return true;
      }
      panicked := false;
      chanClosed := true;
      ghost var n, all := 0, conns;
      while conns != []
        invariant chanClosed && |conns| <= poolSize && Follows(initial, events, conns)
        invariant 0 <= n <= |all| && conns == all[n..]
        invariant forall i :: 0 <= i < n ==> all[i].closed
        invariant forall c :: c in all ==> c.closes == old(c.closes) + Times(all, n, c)
        decreases |conns|
      {
        var conn := TakeFront();
        assert conn == all[n];
        conn.Close();
        n := n + 1;
      }
      TimesIsMultiset(all);
      if Disciplined(old(events)) {
        DisciplineGivesOne(initial, old(events), all);
      }
    }
  }

  datatype Outcome = Completed | NoConnection | OnClosed | Panicked

  /** A worker with the pool to itself: as in the Python program, but a fired timer
      may win over a ready connection, and a drained closed channel panics. */
  method Worker(pool: Pool, timerWins: bool) returns (outcome: Outcome)
    requires pool.Valid()
    modifies pool
    ensures pool.Valid() && pool.chanClosed == old(pool.chanClosed)
    ensures outcome == Panicked <==> !timerWins && old(pool.chanClosed)
    ensures outcome == NoConnection <==> timerWins || (old(pool.conns) == [] && !old(pool.chanClosed))
    ensures outcome == OnClosed <==> !timerWins && old(pool.conns) != [] && old(pool.conns)[0].closed
    ensures match outcome
            case Completed => && pool.conns == old(pool.conns)[1..] + [old(pool.conns)[0]]
                              && (Disciplined(old(pool.events)) ==>
                                    Disciplined(pool.events) && Out(pool.events) == Out(old(pool.events)))
            case OnClosed => pool.conns == old(pool.conns)[1..]
            case _ => pool.conns == old(pool.conns) && pool.events == old(pool.events)
  {
    var got := pool.Get(timerWins);
    if got.TimedOut? {
      return NoConnection;
    }
    if got.GetPanics? {
      return Panicked;
    }
    var ok := got.conn.Execute();
    if !ok {
      return OnClosed;
    }
    var sent := pool.Release(got.conn);
    assert sent.Sent?;
    if Disciplined(old(pool.events)) {
      RoundTripKeepsOut(old(pool.events), got.conn);
    }
    outcome := Completed;
  }
}
