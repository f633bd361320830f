/** The ack-based message queue: a deque and an insertion-ordered in-flight dict,
    as a state function (the specification) and as the class that mutates them. */
module MessageQueue {
  import opened Prelude

  datatype Message = Message(id: string, body: string)

  /** One item of the in-flight dict, keyed by the id of its message. */
  datatype Entry = Entry(message: Message, handedOut: real)

  datatype State = State(queue: seq<Message>, inFlight: seq<Entry>)

  /* ---- The dict, as a sequence of entries in insertion order ---- */

  /** The position of a key, or |es|. */
  function Find(es: seq<Entry>, id: string): (i: nat)
    ensures i <= |es|
    ensures i < |es| ==> es[i].message.id == id
    ensures forall j :: 0 <= j < i ==> es[j].message.id != id
  {
    if es == [] || es[0].message.id == id then 0 else 1 + Find(es[1..], id)
  }

  /** Assignment to a key: a present key keeps its place, a new one goes last. */
  function Put(es: seq<Entry>, e: Entry): seq<Entry>
  {
    var i := Find(es, e.message.id);
    if i < |es| then es[i := e] else es + [e]
  }

  /** Deletion of a key; without effect when the key is missing. */
  function Without(es: seq<Entry>, id: string): seq<Entry>
  {
    var i := Find(es, id);
    if i < |es| then es[..i] + es[i + 1..] else es
  }

  ghost predicate UniqueKeys(es: seq<Entry>)
  {
    forall i, j :: 0 <= i < j < |es| ==> es[i].message.id != es[j].message.id
  }

  function Messages(es: seq<Entry>): (ms: seq<Message>)
    ensures |ms| == |es|
    ensures forall i :: 0 <= i < |es| ==> ms[i] == es[i].message
  {
    seq(|es|, i requires 0 <= i < |es| => es[i].message)
  }

  function Ids(ms: seq<Message>): (ids: seq<string>)
    ensures |ids| == |ms|
    ensures forall i :: 0 <= i < |ms| ==> ids[i] == ms[i].id
  {
    seq(|ms|, i requires 0 <= i < |ms| => ms[i].id)
  }

  /* ---- The visibility-timeout scan ---- */

  predicate Overdue(timeout: real, e: Entry, clock: real)
  {
    clock - e.handedOut > timeout
  }

  /** The messages found overdue, in hand-out order; the clock is read once for
      every entry. */
  function ExpiredOf(timeout: real, es: seq<Entry>, clocks: seq<real>): seq<Message>
    requires |clocks| == |es|
  {
    if es == [] then [] else
      var m := |es| - 1;
      ExpiredOf(timeout, es[..m], clocks[..m]) +
        if Overdue(timeout, es[m], clocks[m]) then [es[m].message] else []
  }

  function Survivors(timeout: real, es: seq<Entry>, clocks: seq<real>): seq<Entry>
    requires |clocks| == |es|
  {
    if es == [] then [] else
      var m := |es| - 1;
      Survivors(timeout, es[..m], clocks[..m]) +
        if Overdue(timeout, es[m], clocks[m]) then [] else [es[m]]
  }

  /** One more entry, looked at last. */
  lemma ScanSnoc(timeout: real, es: seq<Entry>, clocks: seq<real>, e: Entry, clock: real)
    requires |clocks| == |es|
    ensures ExpiredOf(timeout, es + [e], clocks + [clock])
         == ExpiredOf(timeout, es, clocks) + if Overdue(timeout, e, clock) then [e.message] else []
    ensures Survivors(timeout, es + [e], clocks + [clock])
         == Survivors(timeout, es, clocks) + if Overdue(timeout, e, clock) then [] else [e]
  {
    assert (es + [e])[..|es|] == es && (clocks + [clock])[..|es|] == clocks;
  }

  function Reverse<T>(xs: seq<T>): (r: seq<T>)
    ensures |r| == |xs|
  {
    if xs == [] then [] else [xs[|xs| - 1]] + Reverse(xs[..|xs| - 1])
  }

  lemma {:induction false} ReverseAt<T>(xs: seq<T>, i: nat)
    requires i < |xs|
    ensures Reverse(xs)[i] == xs[|xs| - 1 - i]
  {
    if i > 0 {
      ReverseAt(xs[..|xs| - 1], i - 1);
    }
  }

  lemma {:induction false} ReverseMultiset<T>(xs: seq<T>)
    ensures multiset(Reverse(xs)) == multiset(xs)
  {
    if xs != [] {
      ReverseMultiset(xs[..|xs| - 1]);
      assert xs == xs[..|xs| - 1] + [xs[|xs| - 1]];
    }
  }

  lemma ReverseSnoc<T>(xs: seq<T>, x: T)
    ensures Reverse(xs + [x]) == [x] + Reverse(xs)
  {
    assert (xs + [x])[..|xs|] == xs;
  }

  /** After as many entries as there are `clocks`, the scan has turned `before`
      into `queue` and collected `toDelete`. */
  ghost predicate Scanned(
      timeout: real, es: seq<Entry>, clocks: seq<real>, before: seq<Message>, queue: seq<Message>, toDelete: seq<string>)
    requires |clocks| <= |es|
  {
    var expired := ExpiredOf(timeout, es[..|clocks|], clocks);
    queue == Reverse(expired) + before && toDelete == Ids(expired)
  }

  /** One turn of the scanning loop. */
  lemma ScannedOneMore(
      timeout: real, es: seq<Entry>, clocks: seq<real>, clock: real,
      before: seq<Message>, queue: seq<Message>, toDelete: seq<string>)
    requires |clocks| < |es| && Scanned(timeout, es, clocks, before, queue, toDelete)
    ensures
      var e := es[|clocks|];
      if clock - e.handedOut > timeout
      then Scanned(timeout, es, clocks + [clock], before, [e.message] + queue, toDelete + [e.message.id])
      else Scanned(timeout, es, clocks + [clock], before, queue, toDelete)
  {
    var n := |clocks|;
    assert es[..n + 1] == es[..n] + [es[n]];
    ScanSnoc(timeout, es[..n], clocks, es[n], clock);
    var expired := ExpiredOf(timeout, es[..n], clocks);
    ReverseSnoc(expired, es[n].message);
    assert expired + [] == expired;
  }

  /* ---- The four operations on the state ---- */

  datatype Op =
    | Publish(message: Message)
    | Receive(now: real)
    | Ack(id: string, at: real)
    | Requeue(clocks: seq<real>)

  /** What the environment promises: a requeue reads the clock once per entry. */
  predicate Clocked(st: State, op: Op)
  {
    op.Requeue? ==> |op.clocks| == |st.inFlight|
  }

  function Apply(timeout: real, st: State, op: Op): State
    requires Clocked(st, op)
  {
    match op
    case Publish(m) => st.(queue := st.queue + [m])
    case Receive(now) =>
      if st.queue == [] then st
      else State(st.queue[1..], Put(st.inFlight, Entry(st.queue[0], now)))
    case Ack(id, _) => st.(inFlight := Without(st.inFlight, id))
    case Requeue(clocks) =>
      State(Reverse(ExpiredOf(timeout, st.inFlight, clocks)) + st.queue,
            Survivors(timeout, st.inFlight, clocks))
  }

  /* ---- The second loop of the scan deletes exactly the expired entries ---- */

  function WithoutAll(es: seq<Entry>, ids: seq<string>): seq<Entry>
  {
    if ids == [] then es else Without(WithoutAll(es, ids[..|ids| - 1]), ids[|ids| - 1])
  }

  lemma WithoutLast(es: seq<Entry>, e: Entry)
    requires forall x :: x in es ==> x.message.id != e.message.id
    ensures Without(es + [e], e.message.id) == es
  {
    assert (es + [e])[|es|] == e;
    assert Find(es + [e], e.message.id) == |es|;
  }

  lemma WithoutEarlier(es: seq<Entry>, e: Entry, id: string)
    requires e.message.id != id
    ensures Without(es + [e], id) == Without(es, id) + [e]
  {
    var i, j := Find(es + [e], id), Find(es, id);
    assert forall k :: 0 <= k < |es| ==> (es + [e])[k] == es[k];
    assert i < |es| + 1 ==> i < |es|;
    if j < |es| {
      assert (es + [e])[j].message.id == id;
      assert i == j;
    }
  }

  lemma {:induction false} WithoutAllEarlier(es: seq<Entry>, e: Entry, ids: seq<string>)
    requires e.message.id !in ids
    ensures WithoutAll(es + [e], ids) == WithoutAll(es, ids) + [e]
  {
    if ids != [] {
      var m := |ids| - 1;
      WithoutAllEarlier(es, e, ids[..m]);
      WithoutEarlier(WithoutAll(es, ids[..m]), e, ids[m]);
    }
  }

  lemma {:induction false} ExpiredAmong(timeout: real, es: seq<Entry>, clocks: seq<real>)
    requires |clocks| == |es|
    ensures forall m :: m in ExpiredOf(timeout, es, clocks) ==> m in Messages(es)
    ensures forall e :: e in Survivors(timeout, es, clocks) ==> e in es
    ensures UniqueKeys(es) ==> UniqueKeys(Survivors(timeout, es, clocks))
  {
    if es != [] {
      var m := |es| - 1;
      ExpiredAmong(timeout, es[..m], clocks[..m]);
      assert Messages(es) == Messages(es[..m]) + [es[m].message];
      var kept := Survivors(timeout, es[..m], clocks[..m]);
      if UniqueKeys(es) {
        forall i | 0 <= i < |kept|
          ensures kept[i].message.id != es[m].message.id
        {
          assert kept[i] in es[..m];
        }
      }
    }
  }

  /** Deleting the collected keys one after another leaves the survivors. */
  ghost predicate PurgesToSurvivors(timeout: real, es: seq<Entry>, clocks: seq<real>)
    requires |clocks| == |es|
  {
    WithoutAll(es, Ids(ExpiredOf(timeout, es, clocks))) == Survivors(timeout, es, clocks)
  }

  lemma IdsSnoc(ms: seq<Message>, m: Message)
    ensures Ids(ms + [m]) == Ids(ms) + [m.id]
  {
  }

  lemma PurgeSnoc(timeout: real, es: seq<Entry>, clocks: seq<real>, e: Entry, clock: real)
    requires |clocks| == |es| && PurgesToSurvivors(timeout, es, clocks)
    requires forall x :: x in es ==> x.message.id != e.message.id
    ensures PurgesToSurvivors(timeout, es + [e], clocks + [clock])
  {
    var expired, kept := ExpiredOf(timeout, es, clocks), Survivors(timeout, es, clocks);
    ScanSnoc(timeout, es, clocks, e, clock);
    ExpiredAmong(timeout, es, clocks);
    forall i | 0 <= i < |expired|
      ensures Ids(expired)[i] != e.message.id
    {
      assert expired[i] in Messages(es);
    }
    WithoutAllEarlier(es, e, Ids(expired));
    if Overdue(timeout, e, clock) {
      IdsSnoc(expired, e.message);
      WithoutLast(kept, e);
      assert (Ids(expired) + [e.message.id])[..|expired|] == Ids(expired);
      assert kept + [] == kept;
    } else {
      assert expired + [] == expired;
    }
  }

  /** Deleting, one key after another, the keys collected by the first loop
      leaves exactly the entries that were not overdue, in their old order. */
  lemma {:induction false} PurgeLeavesSurvivors(timeout: real, es: seq<Entry>, clocks: seq<real>)
    requires UniqueKeys(es) && |clocks| == |es|
    ensures PurgesToSurvivors(timeout, es, clocks)
  {
    if es != [] {
      var init, last, early, late := es[..|es| - 1], es[|es| - 1], clocks[..|es| - 1], clocks[|es| - 1];
      assert es == init + [last] && clocks == early + [late];
      PurgeLeavesSurvivors(timeout, init, early);
      PurgeSnoc(timeout, init, early, last, late);
    }
  }

  ghost predicate HasKey(es: seq<Entry>, id: string)
  {
    exists e :: e in es && e.message.id == id
  }

  lemma WithoutMember(es: seq<Entry>, id: string, e: Entry)
    requires UniqueKeys(es)
    ensures e in Without(es, id) <==> e in es && e.message.id != id
  {
    var i := Find(es, id);
    if i < |es| {
      assert es == es[..i] + [es[i]] + es[i + 1..];
    }
  }

  lemma FoundIffPresent(es: seq<Entry>, id: string)
    ensures Find(es, id) < |es| <==> HasKey(es, id)
  {
    if Find(es, id) < |es| {
      assert es[Find(es, id)] in es;
    }
  }

  /** Deleting a present key of a dict with unique keys takes out one entry and
      leaves the others in place; the key is gone afterwards. */
  lemma WithoutRemovesOne(es: seq<Entry>, id: string)
    requires UniqueKeys(es)
    ensures if HasKey(es, id)
            then exists i :: && 0 <= i < |es| && es[i].message.id == id
                             && Without(es, id) == es[..i] + es[i + 1..]
            else Without(es, id) == es
    ensures !HasKey(Without(es, id), id)
  {
    FoundIffPresent(es, id);
    forall e | e in Without(es, id)
      ensures e.message.id != id
    {
      WithoutMember(es, id, e);
    }
  }

  /** Every operation keeps the keys of the dict unique. */
  lemma ApplyKeepsKeys(timeout: real, st: State, op: Op)
    requires UniqueKeys(st.inFlight) && Clocked(st, op)
    ensures UniqueKeys(Apply(timeout, st, op).inFlight)
  {
    if op.Requeue? {
      ExpiredAmong(timeout, st.inFlight, op.clocks);
    }
  }
}
