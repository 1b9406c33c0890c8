/** rbac_api.rs: all roles a user inherits, by a worklist over the direct role relation. */
module RoleClosure {

  /** The roles the role manager reports for each name, within one domain. */
  type Roles = map<string, seq<string>>

  function GetRoles(m: Roles, name: string): seq<string> {
    if name in m then m[name] else []
  }

  predicate Edge(m: Roles, a: string, b: string) {
    a in m && b in m[a]
  }

  ghost predicate IsPath(m: Roles, p: seq<string>) {
    forall i :: 0 <= i < |p| - 1 ==> Edge(m, p[i], p[i + 1])
  }

  /** `p` leads from `a` to `b` over at least one edge. */
  ghost predicate Leads(m: Roles, p: seq<string>, a: string, b: string) {
    |p| >= 2 && p[0] == a && p[|p| - 1] == b && IsPath(m, p)
  }

  ghost predicate Reachable(m: Roles, a: string, b: string) {
    exists p :: Leads(m, p, a, b)
  }

  ghost function AllRoles(m: Roles): set<string> {
    set k, r | k in m && r in m[k] :: r
  }

  lemma OneEdge(m: Roles, a: string, b: string)
    requires Edge(m, a, b)
    ensures Reachable(m, a, b)
  {
    assert Leads(m, [a, b], a, b);
  }

  lemma OneMoreEdge(m: Roles, a: string, b: string, c: string)
    requires Reachable(m, a, b) && Edge(m, b, c)
    ensures Reachable(m, a, c)
  {
    var p :| Leads(m, p, a, b);
    var q := p + [c];
    forall i | 0 <= i < |q| - 1
      ensures Edge(m, q[i], q[i + 1])
    {
      if i < |p| - 1 {
        assert Edge(m, p[i], p[i + 1]);
      }
    }
    assert Leads(m, q, a, c);
  }

  /** A set that contains the user's roles and, with a role, its roles contains all reachable ones. */
  lemma {:induction false} ClosedContains(m: Roles, name: string, res: set<string>, p: seq<string>)
    requires |p| >= 2 && p[0] == name && IsPath(m, p)
    requires forall x, r :: (x == name || x in res) && Edge(m, x, r) ==> r in res
    ensures p[|p| - 1] in res
  {
    var n := |p| - 2;
    assert Edge(m, p[n], p[n + 1]);
    if |p| > 2 {
      var front := p[..n + 1];
      forall i | 0 <= i < |front| - 1
        ensures Edge(m, front[i], front[i + 1])
      {
        assert Edge(m, p[i], p[i + 1]);
      }
      ClosedContains(m, name, res, front);
    }
  }

  /** `swap_remove(0)`: the last element takes the place of the first. */
  function SwapRemoveFirst(q: seq<string>): (r: seq<string>)
    requires q != []
    ensures |r| == |q| - 1
    ensures multiset(q) == multiset(r) + multiset{q[0]}
  {
    var n := |q| - 1;
    if n == 0 then
      assert q == [q[0]];
      []
    else
      assert q == [q[0]] + q[1..n] + [q[n]];
      [q[n]] + q[1..n]
  }

  /** What the worklist keeps while `x` is being expanded and its first `k` roles are done. */
  ghost predicate Expanding(m: Roles, name: string, res: set<string>, q: seq<string>, x: string, k: nat)
    requires k <= |GetRoles(m, x)|
  {
    && (x == name || x in res)
    && (forall y :: y in q ==> y == name || y in res)
    && (forall r :: r in res ==> Reachable(m, name, r))
    && (forall y, r :: (y == name || y in res) && y !in q && y != x && Edge(m, y, r) ==> r in res)
    && (forall j :: 0 <= j < k ==> GetRoles(m, x)[j] in res)
  }

  ghost predicate Tracked(m: Roles, name: string, res: set<string>, q: seq<string>) {
    && (forall y :: y in q ==> y == name || y in res)
    && (forall r :: r in res ==> Reachable(m, name, r))
    && (forall y, r :: (y == name || y in res) && y !in q && Edge(m, y, r) ==> r in res)
  }

  lemma StartExpanding(m: Roles, name: string, res: set<string>, q: seq<string>)
    requires Tracked(m, name, res, q) && q != []
    ensures Expanding(m, name, res, SwapRemoveFirst(q), q[0], 0)
  {
    var r := SwapRemoveFirst(q);
    forall y
      ensures y in r ==> y in q
      ensures y in q && y != q[0] ==> y in r
    {
      assert y in q <==> y in multiset(q);
      assert y in r <==> y in multiset(r);
    }
  }

  lemma DoneExpanding(m: Roles, name: string, res: set<string>, q: seq<string>, x: string)
    requires Expanding(m, name, res, q, x, |GetRoles(m, x)|)
    ensures Tracked(m, name, res, q)
  {
  }

  lemma ExpandOne(m: Roles, name: string, res: set<string>, q: seq<string>, x: string, k: nat)
    requires k < |GetRoles(m, x)| && Expanding(m, name, res, q, x, k)
    ensures var r := GetRoles(m, x)[k];
            && r in AllRoles(m)
            && (r in res ==> Expanding(m, name, res, q, x, k + 1))
            && Expanding(m, name, res + {r}, q + [r], x, k + 1)
  {
    var r := GetRoles(m, x)[k];
    assert Edge(m, x, r);
    if x == name {
      OneEdge(m, name, r);
    }
    if x in res {
      OneMoreEdge(m, name, x, r);
    }
  }

  ghost predicate NoRepeats(s: seq<string>) {
    forall i, j :: 0 <= i < j < |s| ==> s[i] != s[j]
  }

  /**
   * Exactly the roles reachable over one or more edges, each listed once; `pushed` is every role in
   * the order in which it was put on the queue, and none was put there twice.
   */
  method GetImplicitRolesForUser(m: Roles, name: string) returns (roles: seq<string>, ghost pushed: seq<string>)
    ensures forall r :: r in roles <==> Reachable(m, name, r)
    ensures NoRepeats(roles)
    ensures NoRepeats(pushed) && forall r :: r in pushed <==> r in roles
  {
    var res: set<string> := {};
    var q := [name];
    pushed := [];
    while q != []
      invariant Tracked(m, name, res, q)
      invariant res <= AllRoles(m)
      invariant NoRepeats(pushed) && forall r :: r in pushed <==> r in res
      decreases AllRoles(m) - res, |q|
    {
      hide AllRoles;
      var x := q[0];
      StartExpanding(m, name, res, q);
      ghost var before, queued := res, |q|;
      q := SwapRemoveFirst(q);
      var found := GetRoles(m, x);
      for k := 0 to |found|
        invariant Expanding(m, name, res, q, x, k)
        invariant res <= AllRoles(m) && before <= res
        invariant res == before ==> |q| == queued - 1
        invariant NoRepeats(pushed) && forall r :: r in pushed <==> r in res
      {
        hide Expanding;
        var r := found[k];
        ExpandOne(m, name, res, q, x, k);
        if r !in res {
          res := res + {r};
          q := q + [r];
          pushed := pushed + [r];
          assert r !in before;
        }
      }
      DoneExpanding(m, name, res, q, x);
      assert res != before ==> AllRoles(m) - res < AllRoles(m) - before by {
        if res != before {
          StrictlyLess(AllRoles(m), before, res);
        }
      }
    }
    forall r
      ensures r in res <==> Reachable(m, name, r)
    {
      if Reachable(m, name, r) {
        var p :| Leads(m, p, name, r);
        ClosedContains(m, name, res, p);
      }
    }
    roles := Collect(res);
  }

  lemma StrictlyLess(all: set<string>, a: set<string>, b: set<string>)
    requires a <= b <= all && a != b
    ensures all - b < all - a
  {
    var r :| r in b && r !in a;
    assert r in all - a && r !in all - b;
  }

  /** `into_iter().collect()`: the members of a hash set in some order. */
  method Collect(s: set<string>) returns (r: seq<string>)
    ensures NoRepeats(r) && forall x :: x in r <==> x in s
  {
    r := [];
    var left := s;
    while left != {}
      invariant left <= s
      invariant NoRepeats(r) && forall x :: x in r <==> x in s && x !in left
      decreases left
    {
      var x :| x in left;
      r := r + [x];
      left := left - {x};
    }
  }
}
