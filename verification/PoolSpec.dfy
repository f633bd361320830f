/** What every connection pool of the repository promises, whatever order it
    keeps its idle connections in. */
module PoolSpec {
  import opened Prelude

  type Conn = nat
  type Client = nat

  datatype Spec = Spec(idle: set<Conn>, held: map<Client, Conn>)

  /** Idle and held connections partition `all`, and no connection has two
      holders. */
  ghost predicate Inv(all: set<Conn>, s: Spec)
  {
    && s.idle + s.held.Values == all
    && s.idle !! s.held.Values
    && forall a, b :: a in s.held && b in s.held && a != b ==> s.held[a] != s.held[b]
  }

  ghost predicate Borrow(s: Spec, t: Spec)
  {
    exists w: Client, c: Conn :: w !in s.held && c in s.idle && t == Spec(s.idle - {c}, s.held[w := c])
  }

  ghost predicate Return(s: Spec, t: Spec)
  {
    exists w :: w in s.held && t == Spec(s.idle + {s.held[w]}, s.held - {w})
  }

  ghost predicate Step(s: Spec, t: Spec)
  {
    s == t || Borrow(s, t) || Return(s, t)
  }

  lemma StepKeepsInv(all: set<Conn>, s: Spec, t: Spec)
    requires Inv(all, s) && Step(s, t)
    ensures Inv(all, t)
  {
    if Borrow(s, t) {
      var w: Client, c: Conn :| w !in s.held && c in s.idle && t == Spec(s.idle - {c}, s.held[w := c]);
      assert forall x :: x in s.held ==> x in t.held && t.held[x] == s.held[x];
      assert t.held.Values == s.held.Values + {c} by {
        assert t.held[w] == c;
      }
    } else if Return(s, t) {
      var w :| w in s.held && t == Spec(s.idle + {s.held[w]}, s.held - {w});
      assert t.held.Values == s.held.Values - {s.held[w]} by {
        assert forall x :: x in t.held ==> t.held[x] == s.held[x];
        forall c | c in s.held.Values && c != s.held[w]
          ensures c in t.held.Values
        {
          var x :| x in s.held && s.held[x] == c;
          assert x in t.held;
        }
      }
    }
  }

  lemma {:induction false} InjectiveSize(m: map<Client, Conn>)
    requires forall a, b :: a in m && b in m && a != b ==> m[a] != m[b]
    ensures |m.Values| == |m|
    decreases |m|
  {
    if m == map[] {
      assert m.Values == {};
    } else {
      var w :| w in m;
      var rest := m - {w};
      assert forall x :: x in rest ==> rest[x] == m[x];
      InjectiveSize(rest);
      assert m.Values == rest.Values + {m[w]};
      assert m.Keys == rest.Keys + {w};
    }
  }

  /** Nothing is lost and nothing is made: idle plus held is the whole pool. So at
      most all of it is held, and while anything is held a pool bounded by its
      size has room for a return. */
  lemma Conservation(all: set<Conn>, s: Spec)
    requires Inv(all, s)
    ensures |s.idle| + |s.held| == |all|
    ensures s.held != map[] ==> |s.idle| < |all|
  {
    InjectiveSize(s.held);
    if s.held != map[] {
      assert s.held.Keys != {};
    }
  }

  function Members(xs: seq<Conn>): set<Conn> { set x | x in xs }

  lemma {:induction false} MembersSize(xs: seq<Conn>)
    requires NoDuplicates(xs)
    ensures |Members(xs)| == |xs|
  {
    if xs != [] {
      MembersSize(xs[1..]);
      assert xs[0] !in xs[1..];
      assert Members(xs) == Members(xs[1..]) + {xs[0]};
    }
  }
}
