/**
 Reachability in a profile include graph. The three traversals of the system
 (policy compilation, the bounded loader, the legacy migration walk) are all
 judged against these path-based definitions, which mention no traversal.
 */
module IncludeGraph {
  import opened Text

  /** Each node's outgoing include list; a name outside the map has no file. */
  type Graph = map<string, seq<string>>

  ghost predicate Edge(g: Graph, a: string, b: string) {
    a in g && b in g[a]
  }

  ghost predicate IsPath(g: Graph, p: seq<string>)
    decreases |p|
  {
    |p| > 0 && (|p| > 1 ==> Edge(g, p[|p| - 2], p[|p| - 1]) && IsPath(g, p[..|p| - 1]))
  }

  /** A path of `edges` include steps leads from `a` to `b`. */
  ghost predicate Walks(g: Graph, a: string, b: string, edges: nat) {
    exists p :: IsPath(g, p) && |p| == edges + 1 && p[0] == a && p[|p| - 1] == b
  }

  ghost predicate Reaches(g: Graph, a: string, b: string) {
    exists edges :: Walks(g, a, b, edges)
  }

  /** At least one include step leads from `a` to `b`. */
  ghost predicate ReachesOnward(g: Graph, a: string, b: string) {
    exists edges :: edges > 0 && Walks(g, a, b, edges)
  }

  ghost predicate Reachable(g: Graph, roots: seq<string>, n: string) {
    exists r :: r in roots && Reaches(g, r, n)
  }

  ghost predicate OnCycle(g: Graph, n: string) {
    ReachesOnward(g, n, n)
  }

  lemma {:induction false} WalkZero(g: Graph, a: string)
    ensures Walks(g, a, a, 0) && Reaches(g, a, a)
  {
    assert IsPath(g, [a]) && |[a]| == 0 + 1 && [a][0] == a;
    assert Walks(g, a, a, 0);
  }

  lemma {:induction false} WalkStep(g: Graph, a: string, b: string, c: string, edges: nat)
    requires Walks(g, a, b, edges) && Edge(g, b, c)
    ensures Walks(g, a, c, edges + 1) && ReachesOnward(g, a, c) && Reaches(g, a, c)
  {
    var p :| IsPath(g, p) && |p| == edges + 1 && p[0] == a && p[|p| - 1] == b;
    var q := p + [c];
    assert q[..|q| - 1] == p;
    assert IsPath(g, q) && |q| == (edges + 1) + 1 && q[0] == a && q[|q| - 1] == c;
    assert Walks(g, a, c, edges + 1);
  }

  lemma {:induction false} ReachStep(g: Graph, a: string, b: string, c: string)
    requires Reaches(g, a, b) && Edge(g, b, c)
    ensures ReachesOnward(g, a, c) && Reaches(g, a, c)
  {
    var edges :| Walks(g, a, b, edges);
    WalkStep(g, a, b, c, edges);
  }

  lemma {:induction false} ReachableFromMore(g: Graph, roots: seq<string>, more: seq<string>, n: string)
    requires Reachable(g, roots, n) && forall r :: r in roots ==> r in more
    ensures Reachable(g, more, n)
  {
  }

  /** Two walks join: what `b` reaches, `a` reaches. */
  lemma {:induction false} WalkJoin(g: Graph, a: string, b: string, c: string, m: nat, n: nat)
    requires Walks(g, a, b, m) && Walks(g, b, c, n)
    ensures Walks(g, a, c, m + n)
    decreases n
  {
    var p :| IsPath(g, p) && |p| == n + 1 && p[0] == b && p[|p| - 1] == c;
    if n > 0 {
      var q := p[..|p| - 1];
      assert IsPath(g, q) && |q| == (n - 1) + 1 && q[0] == b;
      assert Walks(g, b, q[|q| - 1], n - 1);
      WalkJoin(g, a, b, q[|q| - 1], m, n - 1);
      WalkStep(g, a, q[|q| - 1], c, m + n - 1);
    }
  }

  /** What an edge's target reaches, its source reaches by at least one step. */
  lemma {:induction false} EdgeReaches(g: Graph, a: string, b: string, c: string)
    requires Edge(g, a, b) && Reaches(g, b, c)
    ensures ReachesOnward(g, a, c) && Reaches(g, a, c)
  {
    WalkZero(g, a);
    WalkStep(g, a, a, b, 0);
    var n :| Walks(g, b, c, n);
    WalkJoin(g, a, b, c, 1, n);
  }

  /** What a node's includes reach, the node reaches. */
  lemma {:induction false} IncludesReach(g: Graph, a: string, n: string)
    requires a in g && Reachable(g, g[a], n)
    ensures Reaches(g, a, n)
  {
    var b :| b in g[a] && Reaches(g, b, n);
    EdgeReaches(g, a, b, n);
  }

  ghost predicate Closed(g: Graph, s: set<string>) {
    forall a, b :: a in s && Edge(g, a, b) ==> b in s
  }

  lemma {:induction false} ClosedWalk(g: Graph, s: set<string>, a: string, b: string, edges: nat)
    requires Closed(g, s) && a in s && Walks(g, a, b, edges)
    ensures b in s
    decreases edges
  {
    var p :| IsPath(g, p) && |p| == edges + 1 && p[0] == a && p[|p| - 1] == b;
    if edges > 0 {
      var q := p[..|p| - 1];
      assert IsPath(g, q) && |q| == (edges - 1) + 1 && q[0] == a;
      assert Walks(g, a, q[|q| - 1], edges - 1);
      ClosedWalk(g, s, a, q[|q| - 1], edges - 1);
      assert Edge(g, q[|q| - 1], b);
    }
  }

  /** A closed set holding the roots holds everything reachable. */
  lemma {:induction false} ClosedHoldsReachable(g: Graph, s: set<string>, roots: seq<string>, n: string)
    requires Closed(g, s) && (forall r :: r in roots ==> r in s)
    requires Reachable(g, roots, n)
    ensures n in s
  {
    var r :| r in roots && Reaches(g, r, n);
    var edges :| Walks(g, r, n, edges);
    ClosedWalk(g, s, r, n, edges);
  }

  ghost predicate ListedBefore(order: seq<string>, i: int, b: string) {
    exists j :: 0 <= j < i && j < |order| && order[j] == b
  }

  /** Every include of an entry appears strictly before the entry. */
  ghost predicate IncludesFirst(g: Graph, order: seq<string>) {
    forall i, b :: 0 <= i < |order| && Edge(g, order[i], b) ==> ListedBefore(order, i, b)
  }

  /** Every include of an entry appears strictly before the entry or was done before. */
  ghost predicate FollowsFrom(g: Graph, order: seq<string>, done: set<string>) {
    forall i, b :: 0 <= i < |order| && Edge(g, order[i], b) ==> ListedBefore(order, i, b) || b in done
  }

  lemma {:induction false} ListedInJoin(a: seq<string>, b: seq<string>, i: nat, c: string)
    requires i < |a + b|
    requires if i < |a| then ListedBefore(a, i, c) else ListedBefore(b, i - |a|, c) || c in a
    ensures ListedBefore(a + b, i, c)
  {
    if i < |a| || c in a {
      var j :| 0 <= j < |a| && (i < |a| ==> j < i) && a[j] == c;
      assert (a + b)[j] == c;
    } else {
      var j :| 0 <= j < i - |a| && j < |b| && b[j] == c;
      assert (a + b)[|a| + j] == c;
    }
  }

  /** Two orders join when the second builds on what was done before it. */
  lemma {:induction false} JoinOrders(g: Graph, a: seq<string>, b: seq<string>, done: set<string>, mid: set<string>)
    requires Distinct(a) && Distinct(b) && (forall n :: n in b ==> n !in a)
    requires FollowsFrom(g, a, done) && FollowsFrom(g, b, mid) && forall n :: n in mid ==> n in done || n in a
    ensures Distinct(a + b) && FollowsFrom(g, a + b, done)
  {
    forall i, j | 0 <= i < j < |a + b|
      ensures (a + b)[i] != (a + b)[j]
    {
      assert j >= |a| ==> (a + b)[j] in b;
      assert i < |a| ==> (a + b)[i] in a;
    }
    forall i, c | 0 <= i < |a + b| && Edge(g, (a + b)[i], c)
      ensures ListedBefore(a + b, i, c) || c in done
    {
      if i < |a| {
        assert ListedBefore(a, i, c) || c in done;
      } else {
        assert ListedBefore(b, i - |a|, c) || c in mid;
      }
      if c !in done {
        ListedInJoin(a, b, i, c);
      }
    }
  }

  /** A node follows once all its includes are done. */
  lemma {:induction false} AppendOrder(g: Graph, a: seq<string>, n: string, done: set<string>)
    requires Distinct(a) && n !in a && FollowsFrom(g, a, done)
    requires forall b :: Edge(g, n, b) ==> b in a || b in done
    ensures Distinct(a + [n]) && FollowsFrom(g, a + [n], done)
  {
    JoinOrders(g, a, [n], done, done + set b | b in a);
  }

  lemma {:induction false} OrderedWalk(g: Graph, order: seq<string>, i: nat, b: string, edges: nat)
    requires Distinct(order) && IncludesFirst(g, order)
    requires i < |order| && Walks(g, order[i], b, edges)
    ensures exists j :: 0 <= j <= i && order[j] == b && (edges > 0 ==> j < i)
    decreases edges
  {
    var a := order[i];
    var p :| IsPath(g, p) && |p| == edges + 1 && p[0] == a && p[|p| - 1] == b;
    if edges > 0 {
      var q := p[..|p| - 1];
      assert IsPath(g, q) && |q| == (edges - 1) + 1 && q[0] == a;
      assert Walks(g, a, q[|q| - 1], edges - 1);
      OrderedWalk(g, order, i, q[|q| - 1], edges - 1);
      var j :| 0 <= j <= i && order[j] == q[|q| - 1];
      assert Edge(g, order[j], b);
      assert ListedBefore(order, j, b);
    }
  }

  /** An order that lists includes first has no cycle through its entries. */
  lemma {:induction false} OrderedAcyclic(g: Graph, order: seq<string>, n: string)
    requires Distinct(order) && IncludesFirst(g, order) && n in order
    ensures !OnCycle(g, n)
  {
    if OnCycle(g, n) {
      var edges :| edges > 0 && Walks(g, n, n, edges);
      var i :| 0 <= i < |order| && order[i] == n;
      OrderedWalk(g, order, i, n, edges);
    }
  }
}
