/** What the callers of the threaded queue see: every call takes effect once,
    between its start and its return, with the reply of the sequential queue; and
    every sequential run can happen. */
module QueueCalls {
  import opened Prelude
  import opened MessageQueue
  import opened QueueThreads
  import Runs = QueueRuns

  /** The calls thread t has made, in order. */
  function Calls(steps: seq<Step>, t: nat): seq<Call>
  {
    if steps == [] then [] else CallIn(steps[0], t) + Calls(steps[1..], t)
  }

  function CallIn(s: Step, t: nat): seq<Call>
  {
    if s.Invoke? && s.t == t then [s.call] else []
  }

  /** The replies thread t has returned with, in order. */
  function Replies(timeout: real, m: Machine, steps: seq<Step>, t: nat): seq<Reply>
    decreases |steps|
  {
    if steps == [] || !Enabled(m, steps[0]) then []
    else ReplyIn(m, steps[0], t) + Replies(timeout, Next(timeout, m, steps[0]), steps[1..], t)
  }

  function ReplyIn(m: Machine, s: Step, t: nat): seq<Reply>
    requires Enabled(m, s)
  {
    if s.Leave? && s.t == t then [m.pcs[t].reply] else []
  }

  /** What the sequential queue replies. */
  function ReplyTo(st: State, op: Op): Reply
  {
    match op
    case Publish(message) => MessageId(message.id)
    case Receive(_) => (match Runs.HandsOut(st, op) case Some(message) => Received(message) case None => NoMessage)
    case Ack(_, _) => if Runs.Retires(st, op).Some? then Done else KeyError
    case Requeue(_) => Done
  }

  /** The effect of a call: the operation it committed, or none for a receive that
      gave up, and what the sequential queue replies to it. */
  datatype Effect = Effect(op: Option<Op>, reply: Reply)

  ghost function EffectIn(timeout: real, m: Machine, s: Step, t: nat): seq<Effect>
    requires Enabled(m, s)
  {
    var n := Next(timeout, m, s);
    if s.t != t then []
    else if |n.committed| > |m.committed| && Runs.ValidRun(timeout, m.committed) then
      var op := n.committed[|m.committed|];
      [Effect(Some(op), ReplyTo(Runs.Exec(timeout, m.committed).st, op))]
    else if s.GiveUp? then [Effect(None, NoMessage)]
    else []
  }

  /** The effects of the calls of thread t, in order. */
  ghost function Effects(timeout: real, m: Machine, steps: seq<Step>, t: nat): seq<Effect>
    decreases |steps|
  {
    if steps == [] || !Enabled(m, steps[0]) then []
    else EffectIn(timeout, m, steps[0], t) + Effects(timeout, Next(timeout, m, steps[0]), steps[1..], t)
  }

  /** The operation does what the call asks for. */
  predicate Carries(op: Option<Op>, call: Call)
  {
    match call
    case Publish(body) => op.Some? && op.value.Publish? && op.value.message.body == body
    case Receive => op.None? || op.value.Receive?
    case Ack(id) => op.Some? && op.value.Ack? && op.value.id == id
    case Requeue => op.Some? && op.value.Requeue?
  }

  /** The thread has begun the call and it has not taken effect. */
  predicate Serves(pc: Pc, call: Call)
  {
    match pc
    case Calling(c) => c == call
    case Appending(body) => call == Call.Publish(body)
    case Checking(_) => call.Receive?
    case Storing(_) => call.Receive?
    case Asleep => call.Receive?
    case Woken => call.Receive?
    case Deleting(id) => call == Call.Ack(id)
    case Scanning(_, _) => call.Requeue?
    case Purging(_, _, _) => call.Requeue?
    case _ => false
  }

  /** What one thread has done so far. */
  datatype History = History(calls: seq<Call>, effects: seq<Effect>, replies: seq<Reply>)

  const NOTHING := History([], [], [])

  function Plus(h: History, later: History): History
  {
    History(h.calls + later.calls, h.effects + later.effects, h.replies + later.replies)
  }

  lemma PlusNothing(h: History)
    ensures Plus(h, NOTHING) == h && Plus(NOTHING, h) == h
  {
    assert h.calls + [] == h.calls && h.effects + [] == h.effects && h.replies + [] == h.replies;
    assert [] + h.calls == h.calls && [] + h.effects == h.effects && [] + h.replies == h.replies;
  }

  lemma PlusTwice(a: History, b: History, c: History)
    ensures Plus(Plus(a, b), c) == Plus(a, Plus(b, c))
  {
    AddedUp(a.calls, b.calls, c.calls);
    AddedUp(a.effects, b.effects, c.effects);
    AddedUp(a.replies, b.replies, c.replies);
  }

  ghost function SeenIn(timeout: real, m: Machine, s: Step, t: nat): History
    requires Enabled(m, s)
  {
    History(CallIn(s, t), EffectIn(timeout, m, s, t), ReplyIn(m, s, t))
  }

  ghost function Seen(timeout: real, m: Machine, steps: seq<Step>, t: nat): History
  {
    History(Calls(steps, t), Effects(timeout, m, steps, t), Replies(timeout, m, steps, t))
  }

  lemma SeenFirst(timeout: real, m: Machine, steps: seq<Step>, t: nat)
    requires steps != [] && Enabled(m, steps[0])
    ensures Seen(timeout, m, steps, t)
         == Plus(SeenIn(timeout, m, steps[0], t), Seen(timeout, Next(timeout, m, steps[0]), steps[1..], t))
  {
  }

  /** Calls, effects and replies of one thread agree one by one; at most the last
      call has not taken effect yet or not returned yet. */
  ghost predicate Matched(pc: Pc, h: History)
  {
    && |h.replies| <= |h.effects| <= |h.calls|
    && (forall i :: 0 <= i < |h.effects| ==> Carries(h.effects[i].op, h.calls[i]))
    && (forall i :: 0 <= i < |h.replies| ==> h.replies[i] == h.effects[i].reply)
    && match pc
       case Outside => |h.replies| == |h.effects| == |h.calls|
       case Notifying(reply) => Owes(h, reply)
       case Leaving(reply) => Owes(h, reply)
       case _ => |h.replies| == |h.effects| == |h.calls| - 1 && Serves(pc, h.calls[|h.calls| - 1])
  }

  /** The last call has taken effect and has this reply still to return. */
  ghost predicate Owes(h: History, reply: Reply)
  {
    |h.replies| + 1 == |h.effects| == |h.calls| && reply == h.effects[|h.effects| - 1].reply
  }

  lemma AfterInvoke(h: History, call: Call)
    requires Matched(Outside, h)
    ensures Matched(Calling(call), Plus(h, History([call], [], [])))
  {
  }

  lemma AfterEffect(pc: Pc, h: History, e: Effect, after: Pc)
    requires Matched(pc, h) && (exists call :: Serves(pc, call))
    requires Carries(e.op, h.calls[|h.calls| - 1])
    requires (after.Notifying? || after.Leaving?) && after.reply == e.reply
    ensures Matched(after, Plus(h, History([], [e], [])))
  {
  }

  lemma AfterLeave(h: History, reply: Reply)
    requires Matched(Leaving(reply), h)
    ensures Matched(Outside, Plus(h, History([], [], [reply])))
  {
  }

  /** A step at which a call takes effect. */
  predicate TakesEffect(s: Step)
  {
    s.Append? || s.Store? || s.Delete? || s.PurgeDone? || s.GiveUp?
  }

  lemma EffectStep(timeout: real, m: Machine, s: Step, call: Call) returns (e: Effect)
    requires LockInv(m) && DataInv(timeout, m) && Enabled(m, s) && TakesEffect(s) && Serves(m.pcs[s.t], call)
    ensures SeenIn(timeout, m, s, s.t) == History([], [e], []) && Carries(e.op, call)
    ensures var pc := Next(timeout, m, s).pcs[s.t]; (pc.Notifying? || pc.Leaving?) && pc.reply == e.reply
  {
    assert HoldsLock(m.pcs[s.t]) && OwnerPc(m) == m.pcs[s.t];
    var effects := EffectIn(timeout, m, s, s.t);
    assert |effects| == 1;
    e := effects[0];
  }

  /** The thread is in the same call before and after. */
  predicate Continues(pc: Pc, after: Pc)
  {
    if pc.Notifying? then after == Leaving(pc.reply)
    else !pc.Outside? && !pc.Leaving? && !after.Outside? && !after.Leaving? && !after.Notifying?
  }

  lemma QuietStep(timeout: real, m: Machine, s: Step)
    requires Enabled(m, s) && !TakesEffect(s) && !s.Invoke? && !s.Leave?
    ensures SeenIn(timeout, m, s, s.t) == NOTHING
    ensures var pc, after := m.pcs[s.t], Next(timeout, m, s).pcs[s.t];
            Continues(pc, after) && forall call :: Serves(pc, call) ==> Serves(after, call)
  {
  }

  lemma MatchedContinues(pc: Pc, h: History, after: Pc)
    requires Matched(pc, h) && Continues(pc, after) && forall call :: Serves(pc, call) ==> Serves(after, call)
    ensures Matched(after, h)
  {
  }

  /** Steps of the thread itself keep the agreement. */
  lemma MatchedOwn(timeout: real, m: Machine, s: Step, h: History)
    requires LockInv(m) && DataInv(timeout, m) && Enabled(m, s) && Matched(m.pcs[s.t], h)
    ensures Matched(Next(timeout, m, s).pcs[s.t], Plus(h, SeenIn(timeout, m, s, s.t)))
  {
    var pc, after := m.pcs[s.t], Next(timeout, m, s).pcs[s.t];
    if TakesEffect(s) {
      var call := h.calls[|h.calls| - 1];
      var e := EffectStep(timeout, m, s, call);
      AfterEffect(pc, h, e, after);
    } else if s.Invoke? {
      AfterInvoke(h, s.call);
    } else if s.Leave? {
      AfterLeave(h, pc.reply);
    } else {
      QuietStep(timeout, m, s);
      PlusNothing(h);
      MatchedContinues(pc, h, after);
    }
  }

  /** Steps of other threads leave it alone; at most they wake the thread. */
  lemma MatchedOther(timeout: real, m: Machine, s: Step, t: nat, h: History)
    requires Enabled(m, s) && t < |m.pcs| && s.t != t && Matched(m.pcs[t], h)
    ensures Matched(Next(timeout, m, s).pcs[t], Plus(h, SeenIn(timeout, m, s, t)))
  {
    var pc := Next(timeout, m, s).pcs[t];
    assert pc == m.pcs[t] || (m.pcs[t].Asleep? && pc.Woken?);
    assert SeenIn(timeout, m, s, t) == NOTHING;
    PlusNothing(h);
  }

  lemma {:induction false} ReachMatched(timeout: real, m: Machine, steps: seq<Step>, n: Machine, t: nat, h: History)
    requires LockInv(m) && SleepInv(m) && DataInv(timeout, m) && Reaches(timeout, m, steps, n)
    requires t < |m.pcs| && Matched(m.pcs[t], h)
    ensures t < |n.pcs| && Matched(n.pcs[t], Plus(h, Seen(timeout, m, steps, t)))
    decreases |steps|
  {
    if steps == [] {
      PlusNothing(h);
    } else {
      var s, rest, next := steps[0], steps[1..], Next(timeout, m, steps[0]);
      StepInv(timeout, m, s);
      if s.t == t {
        MatchedOwn(timeout, m, s, h);
      } else {
        MatchedOther(timeout, m, s, t, h);
      }
      ReachMatched(timeout, next, rest, n, t, Plus(h, SeenIn(timeout, m, s, t)));
      SeenFirst(timeout, m, steps, t);
      PlusTwice(h, SeenIn(timeout, m, s, t), Seen(timeout, next, rest, t));
    }
  }

  lemma AddedUp<T>(a: seq<T>, b: seq<T>, c: seq<T>)
    ensures (a + b) + c == a + (b + c)
  {
  }

  /** On every run the calls of a thread take effect one by one in the order in
      which it makes them, each as an operation that does what the call asks for,
      and each returns what the sequential queue replies to that operation. */
  lemma CallsTakeEffectOnce(timeout: real, k: nat, steps: seq<Step>, m: Machine, t: nat)
    requires Reaches(timeout, Start(k), steps, m) && t < k
    ensures
      var calls, effects := Calls(steps, t), Effects(timeout, Start(k), steps, t);
      var replies := Replies(timeout, Start(k), steps, t);
      && |replies| <= |effects| <= |calls| <= |replies| + 1
      && (forall i :: 0 <= i < |effects| ==> Carries(effects[i].op, calls[i]))
      && (forall i :: 0 <= i < |replies| ==> replies[i] == effects[i].reply)
      && t < |m.pcs| && (m.pcs[t].Outside? ==> |replies| == |calls|)
  {
    ReachMatched(timeout, Start(k), steps, m, t, NOTHING);
    PlusNothing(Seen(timeout, Start(k), steps, t));
  }

  /* ---- Nothing else is committed ---- */

  function Ops(effects: seq<Effect>): seq<Op>
  {
    if effects == [] then [] else (if effects[0].op.Some? then [effects[0].op.value] else []) + Ops(effects[1..])
  }

  /** The effects of all threads, in the order in which they happen. */
  ghost function AllEffects(timeout: real, m: Machine, steps: seq<Step>): seq<Effect>
    decreases |steps|
  {
    if steps == [] || !Enabled(m, steps[0]) then []
    else EffectIn(timeout, m, steps[0], steps[0].t) + AllEffects(timeout, Next(timeout, m, steps[0]), steps[1..])
  }

  lemma CommitsItsEffect(timeout: real, m: Machine, s: Step)
    requires DataInv(timeout, m) && Enabled(m, s)
    ensures Next(timeout, m, s).committed == m.committed + Ops(EffectIn(timeout, m, s, s.t))
    ensures |EffectIn(timeout, m, s, s.t)| <= 1
  {
    var n := Next(timeout, m, s);
    assert |n.committed| > |m.committed| ==> n.committed == m.committed + [n.committed[|m.committed|]];
  }

  lemma OpsFirst(first: seq<Effect>, rest: seq<Effect>)
    requires |first| <= 1
    ensures Ops(first + rest) == Ops(first) + Ops(rest)
  {
    if first == [] {
      assert first + rest == rest;
    } else {
      assert (first + rest)[1..] == rest && Ops(first[1..]) == [];
    }
  }

  /** The sequential run consists of the effects of the threads' calls, in their
      order, and of nothing else. */
  lemma {:induction false} CommittedIsAllEffects(timeout: real, m: Machine, steps: seq<Step>, n: Machine)
    requires LockInv(m) && SleepInv(m) && DataInv(timeout, m) && Reaches(timeout, m, steps, n)
    ensures n.committed == m.committed + Ops(AllEffects(timeout, m, steps))
    decreases |steps|
  {
    if steps != [] {
      var s, next := steps[0], Next(timeout, m, steps[0]);
      StepInv(timeout, m, s);
      CommittedIsAllEffects(timeout, next, steps[1..], n);
      CommitsFirst(timeout, m, s, AllEffects(timeout, next, steps[1..]));
    }
  }

  lemma CommitsFirst(timeout: real, m: Machine, s: Step, rest: seq<Effect>)
    requires DataInv(timeout, m) && Enabled(m, s)
    ensures Next(timeout, m, s).committed + Ops(rest) == m.committed + Ops(EffectIn(timeout, m, s, s.t) + rest)
  {
    CommitsItsEffect(timeout, m, s);
    OpsFirst(EffectIn(timeout, m, s, s.t), rest);
    AddedUp(m.committed, Ops(EffectIn(timeout, m, s, s.t)), Ops(rest));
  }

  /* ---- A receive returns None only after it has slept ---- */

  /** The thread is in a receive that has not slept yet, or in another call. */
  predicate NotWaited(pc: Pc)
  {
    !pc.Asleep? && !pc.Woken? && !(pc.Checking? && pc.waited)
  }

  lemma {:induction false} NoneOnlyAfterSleep(timeout: real, m: Machine, steps: seq<Step>, n: Machine, t: nat)
    requires Reaches(timeout, m, steps, n) && t < |m.pcs| && NotWaited(m.pcs[t])
    requires forall i :: 0 <= i < |steps| ==> steps[i] != Sleep(t)
    ensures !Enabled(n, GiveUp(t))
    decreases |steps|
  {
    if steps != [] {
      var next := Next(timeout, m, steps[0]);
      assert NotWaited(next.pcs[t]);
      assert forall i :: 0 <= i < |steps[1..]| ==> steps[1..][i] == steps[i + 1];
      NoneOnlyAfterSleep(timeout, next, steps[1..], n, t);
    }
  }
}
