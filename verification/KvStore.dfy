/** The key-value store: the table with its sentinels, the four SQL statements as
    table transformers, and the class whose methods issue them. */
module KvStore {
  import opened Prelude

  type Key = string
  type Value = string

  /** `expireAt` is an epoch second, or one of two sentinels. */
  datatype Row = Row(value: Value, expireAt: int)

  type Table = map<Key, Row>

  const NEVER := 0
  const DELETED := -1

  /** WHERE expire_at > now OR expire_at = 0. */
  predicate Visible(t: Table, key: Key, now: int)
  {
    key in t && (t[key].expireAt > now || t[key].expireAt == NEVER)
  }

  /** WHERE expire_at != 0 AND expire_at <= now. */
  function Collectable(t: Table, now: int): set<Key>
  {
    set key | key in t && t[key].expireAt != NEVER && t[key].expireAt <= now
  }

  /** A missing ttl and a ttl of 0 both mean "never expires". */
  function ExpireAt(ttl: Option<int>, now: int): int
  {
    if ttl.Some? && ttl.value != 0 then now + ttl.value else NEVER
  }

  /** `doomed` is what the LIMIT of a cleanup happened to pick. */
  datatype Op =
    | Put(key: Key, value: Value, ttl: Option<int>, now: int)
    | Get(key: Key, now: int)
    | Delete(key: Key, now: int)
    | Cleanup(now: int, doomed: set<Key>)

  datatype Response = Stored | Found(value: Value) | Deleted | NotFound | Silent

  function Apply(t: Table, op: Op): Table
  {
    match op
    case Put(key, value, ttl, now) => t[key := Row(value, ExpireAt(ttl, now))]
    case Get(_, _) => t
    case Delete(key, now) => if Visible(t, key, now) then t[key := t[key].(expireAt := DELETED)] else t
    case Cleanup(now, doomed) => t - (doomed * Collectable(t, now))
  }

  function Respond(t: Table, op: Op): Response
  {
    match op
    case Put(_, _, _, _) => Stored
    case Get(key, now) => if Visible(t, key, now) then Found(t[key].value) else NotFound
    case Delete(key, now) => if Visible(t, key, now) then Deleted else NotFound
    case Cleanup(_, _) => Silent
  }

  function Run(t: Table, ops: seq<Op>): Table
  {
    if ops == [] then t else Apply(Run(t, ops[..|ops| - 1]), ops[|ops| - 1])
  }

  /** A batch takes only collectable rows, and as many as the limit allows. */
  predicate IsBatch(t: Table, now: int, limit: nat, doomed: set<Key>)
  {
    doomed <= Collectable(t, now) && |doomed| == Min(limit, |Collectable(t, now)|)
  }

  lemma {:induction false} BatchExists(s: set<Key>, n: nat) returns (r: set<Key>)
    requires n <= |s|
    ensures r <= s && |r| == n
    decreases s
  {
    if n == |s| {
      r := s;
    } else {
      var x :| x in s;
      r := BatchExists(s - {x}, n);
    }
  }

  class Server {
    var store: Table
    /** The statements executed so far. */
    ghost var log: seq<Op>

    ghost predicate Valid()
      reads this
    {
      store == Run(map[], log)
    }

    constructor ()
      ensures Valid() && log == []
    {
      store := map[];
      log := [];
    }

    ghost method Record(op: Op)
      requires store == Apply(Run(map[], log), op)
      modifies this`log
      ensures Valid() && log == old(log) + [op]
    {
      assert (log + [op])[..|log|] == log;
      log := log + [op];
    }

    method PutKey(key: Key, value: Value, ttl: Option<int>, now: int) returns (response: Response)
      requires Valid()
      modifies this
      ensures Valid() && log == old(log) + [Put(key, value, ttl, now)]
      ensures response == Stored == Respond(old(store), Put(key, value, ttl, now))
      ensures key in store && store[key].value == value && store - {key} == old(store) - {key}
      ensures store[key].expireAt == if ttl == None || ttl == Some(0) then 0 else now + ttl.value
    {
      var expireAt := if ttl.Some? && ttl.value != 0 then now + ttl.value else NEVER;
      store := store[key := Row(value, expireAt)];
      Record(Put(key, value, ttl, now));
      response := Stored;
    }

    method GetKey(key: Key, now: int) returns (response: Response)
      requires Valid()
      ensures Valid()
      ensures response == if key in store && (store[key].expireAt > now || store[key].expireAt == 0)
                          then Found(store[key].value) else NotFound
      ensures response == Respond(store, Get(key, now))
    {
      if key in store && (store[key].expireAt > now || store[key].expireAt == NEVER) {
        response := Found(store[key].value);
      } else {
        response := NotFound;
      }
    }

    method DeleteKey(key: Key, now: int) returns (response: Response)
      requires Valid()
      modifies this
      ensures Valid() && log == old(log) + [Delete(key, now)]
      ensures response == if key in old(store) && (old(store)[key].expireAt > now || old(store)[key].expireAt == 0)
                          then Deleted else NotFound
      ensures response == Respond(old(store), Delete(key, now))
      ensures response == NotFound ==> store == old(store)
      ensures response == Deleted ==>
        store.Keys == old(store).Keys && store[key] == Row(old(store)[key].value, -1)
        && store - {key} == old(store) - {key}
    {
      var hit := Visible(store, key, now);
      if hit {
        store := store[key := store[key].(expireAt := DELETED)];
      }
      Record(Delete(key, now));
      response := if hit then Deleted else NotFound;
    }

    /** One turn of the cleanup loop: at most `limit` collectable rows go, which of
        them is not specified. */
    method CleanupOnce(now: int, limit: nat) returns (deleted: nat)
      requires Valid()
      modifies this
      ensures Valid()
      ensures deleted == Min(limit, |Collectable(old(store), now)|)
      ensures exists doomed :: && IsBatch(old(store), now, limit, doomed)
                               && (forall k :: k in doomed ==> old(store)[k].expireAt != 0 && old(store)[k].expireAt <= now)
                               && store == old(store) - doomed
                               && log == old(log) + [Cleanup(now, doomed)]
    {
      var garbage := Collectable(store, now);
      deleted := Min(limit, |garbage|);
      ghost var batch := BatchExists(garbage, deleted);
      var doomed :| doomed <= garbage && |doomed| == deleted;
      assert doomed * garbage == doomed;
      store := store - doomed;
      Record(Cleanup(now, doomed));
    }
  }
}
