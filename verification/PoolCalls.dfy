/** What the callers of the condition-variable pool see: every `borrow` ends once,
    with a connection or with TimeoutError, and every `return_conn` ends once and
    gives back the connection the thread held. */
module PoolCalls {
  import opened Prelude
  import opened ConditionPool
  import Spec = PoolSpec

  datatype Call = Borrow | ReturnConn(conn: Spec.Conn)

  datatype Outcome = Got(conn: Spec.Conn) | Raised | Returned

  /** What one thread has done so far. */
  datatype History = History(calls: seq<Call>, outcomes: seq<Outcome>)

  const NOTHING := History([], [])

  function Plus(h: History, later: History): History
  {
    History(h.calls + later.calls, h.outcomes + later.outcomes)
  }

  /** A call begins when the thread leaves the outside or what it does with its
      connection; it ends when the thread releases the lock other than to sleep. */
  function SeenIn(m: Machine, s: Step, t: nat): History
    requires Enabled(m, s)
  {
    if s.t != t then NOTHING
    else
      var pc, after := m.pcs[t], Next(m, s).pcs[t];
      match s
      case Invoke(_) => History([Borrow], [])
      case GiveBack(_) => History([ReturnConn(pc.conn)], [])
      case Release(_) => History([], [if after.Holding? then Got(after.conn) else if pc.Raising? then Raised else Returned])
      case _ => NOTHING
  }

  function Seen(m: Machine, steps: seq<Step>, t: nat): History
    decreases |steps|
  {
    if steps == [] || !Enabled(m, steps[0]) then NOTHING
    else Plus(SeenIn(m, steps[0], t), Seen(Next(m, steps[0]), steps[1..], t))
  }

  predicate Ends(call: Call, outcome: Outcome)
  {
    if call.Borrow? then outcome.Got? || outcome.Raised? else outcome.Returned?
  }

  /** The thread is still in the call. */
  predicate Serves(pc: Pc, call: Call)
  {
    match pc
    case Calling => call.Borrow?
    case Checking(_) => call.Borrow?
    case Taking(_) => call.Borrow?
    case Asleep => call.Borrow?
    case Notified => call.Borrow?
    case Spurious => call.Borrow?
    case TimedOut => call.Borrow?
    case Raising => call.Borrow?
    case Returning(c) => call == ReturnConn(c)
    case Appending(c) => call == ReturnConn(c)
    case Notifying => call.ReturnConn?
    case Leaving => call.ReturnConn?
    case _ => false
  }

  /** A connection is returned only right after it was borrowed. */
  ghost predicate ReturnsWhatItGot(h: History)
  {
    forall i :: 0 <= i < |h.calls| && h.calls[i].ReturnConn? ==>
      0 < i <= |h.outcomes| && h.outcomes[i - 1] == Got(h.calls[i].conn)
  }

  ghost predicate Matched(pc: Pc, h: History)
  {
    && |h.outcomes| <= |h.calls|
    && (forall i :: 0 <= i < |h.outcomes| ==> Ends(h.calls[i], h.outcomes[i]))
    && ReturnsWhatItGot(h)
    && match pc
       case Outside => |h.calls| == |h.outcomes|
       case Holding(c) => |h.calls| == |h.outcomes| > 0 && h.outcomes[|h.outcomes| - 1] == Got(c)
       case _ => |h.calls| == |h.outcomes| + 1 && Serves(pc, h.calls[|h.calls| - 1])
  }

  lemma PlusNothing(h: History)
    ensures Plus(h, NOTHING) == h && Plus(NOTHING, h) == h
  {
    assert h.calls + [] == h.calls && h.outcomes + [] == h.outcomes;
    assert [] + h.calls == h.calls && [] + h.outcomes == h.outcomes;
  }

  lemma PlusTwice(a: History, b: History, c: History)
    ensures Plus(Plus(a, b), c) == Plus(a, Plus(b, c))
  {
    assert (a.calls + b.calls) + c.calls == a.calls + (b.calls + c.calls);
    assert (a.outcomes + b.outcomes) + c.outcomes == a.outcomes + (b.outcomes + c.outcomes);
  }

  lemma AfterCall(pc: Pc, h: History, call: Call, after: Pc)
    requires Matched(pc, h) && Serves(after, call)
    requires (pc.Outside? && call.Borrow?) || (pc.Holding? && call == ReturnConn(pc.conn))
    ensures Matched(after, Plus(h, History([call], [])))
  {
  }

  lemma AfterEnd(pc: Pc, h: History, outcome: Outcome, after: Pc)
    requires Matched(pc, h) && !pc.Outside? && !pc.Holding? && Ends(h.calls[|h.calls| - 1], outcome)
    requires if outcome.Got? then after == Holding(outcome.conn) else after.Outside?
    ensures Matched(after, Plus(h, History([], [outcome])))
  {
  }

  lemma AfterOther(pc: Pc, h: History, after: Pc)
    requires Matched(pc, h) && forall call :: Serves(pc, call) ==> Serves(after, call)
    requires !pc.Outside? && !pc.Holding? && !after.Outside? && !after.Holding?
    ensures Matched(after, h)
  {
  }

  lemma InsideStep(m: Machine, s: Step)
    requires Enabled(m, s) && !s.Invoke? && !s.GiveBack? && !s.Release?
    ensures SeenIn(m, s, s.t) == NOTHING
    ensures var pc, after := m.pcs[s.t], Next(m, s).pcs[s.t];
            && !pc.Outside? && !pc.Holding? && !after.Outside? && !after.Holding?
            && forall call :: Serves(pc, call) ==> Serves(after, call)
  {
  }

  lemma MatchedOwn(m: Machine, s: Step, h: History)
    requires Enabled(m, s) && Matched(m.pcs[s.t], h)
    ensures Matched(Next(m, s).pcs[s.t], Plus(h, SeenIn(m, s, s.t)))
  {
    var pc, after, seen := m.pcs[s.t], Next(m, s).pcs[s.t], SeenIn(m, s, s.t);
    if s.Invoke? || s.GiveBack? {
      AfterCall(pc, h, seen.calls[0], after);
    } else if s.Release? {
      AfterEnd(pc, h, seen.outcomes[0], after);
    } else {
      InsideStep(m, s);
      PlusNothing(h);
      AfterOther(pc, h, after);
    }
  }

  lemma MatchedOther(m: Machine, s: Step, t: nat, h: History)
    requires Enabled(m, s) && t < |m.pcs| && s.t != t && Matched(m.pcs[t], h)
    ensures Matched(Next(m, s).pcs[t], Plus(h, SeenIn(m, s, t)))
  {
    var after := Next(m, s).pcs[t];
    assert after == m.pcs[t] || (m.pcs[t].Asleep? && after.Notified?);
    PlusNothing(h);
  }

  lemma {:induction false} ReachMatched(m: Machine, steps: seq<Step>, n: Machine, t: nat, h: History)
    requires Reaches(m, steps, n) && t < |m.pcs| && Matched(m.pcs[t], h)
    ensures t < |n.pcs| && Matched(n.pcs[t], Plus(h, Seen(m, steps, t)))
    decreases |steps|
  {
    if steps == [] {
      PlusNothing(h);
    } else {
      var s, next := steps[0], Next(m, steps[0]);
      if s.t == t {
        MatchedOwn(m, s, h);
      } else {
        MatchedOther(m, s, t, h);
      }
      ReachMatched(next, steps[1..], n, t, Plus(h, SeenIn(m, s, t)));
      PlusTwice(h, SeenIn(m, s, t), Seen(next, steps[1..], t));
    }
  }

  /** On every run each call of a thread ends at most once, a `borrow` with a
      connection or with TimeoutError; only the last call may not have ended; what
      is returned is what the borrow before it got; and a thread that uses a
      connection is using the last one it got. */
  lemma CallsEndOnce(conns: seq<Spec.Conn>, k: nat, steps: seq<Step>, m: Machine, t: nat)
    requires Reaches(Start(conns, k), steps, m) && t < k
    ensures
      var h := Seen(Start(conns, k), steps, t);
      && |h.outcomes| <= |h.calls| <= |h.outcomes| + 1
      && (forall i :: 0 <= i < |h.outcomes| ==> Ends(h.calls[i], h.outcomes[i]))
      && ReturnsWhatItGot(h)
      && t < |m.pcs|
      && (m.pcs[t].Outside? || m.pcs[t].Holding? <==> |h.calls| == |h.outcomes|)
      && (m.pcs[t].Holding? ==> h.outcomes != [] && h.outcomes[|h.outcomes| - 1] == Got(m.pcs[t].conn))
  {
    ReachMatched(Start(conns, k), steps, m, t, NOTHING);
    PlusNothing(Seen(Start(conns, k), steps, t));
  }
}
