/** Directed graphs over string names: paths, reachability, cycles, and the two facts the
    graph checkers rest on: a reverse topological order excludes cycles, and a set in which
    every node has a successor in the set contains one. */
module Graphs {
  import opened Ordering

  type Node = string
  type Graph = map<Node, set<Node>>

  function Succ(g: Graph, n: Node): set<Node> {
    if n in g then g[n] else {}
  }

  ghost predicate IsPath(g: Graph, p: seq<Node>) {
    p != [] && forall i :: 0 <= i < |p| - 1 ==> p[i + 1] in Succ(g, p[i])
  }

  ghost predicate PathBetween(g: Graph, p: seq<Node>, a: Node, b: Node) {
    IsPath(g, p) && p[0] == a && p[|p| - 1] == b
  }

  ghost predicate Reachable(g: Graph, a: Node, b: Node) {
    exists p :: PathBetween(g, p, a, b)
  }

  /** A closed walk of at least one edge. */
  ghost predicate IsCycle(g: Graph, p: seq<Node>) {
    IsPath(g, p) && |p| > 1 && p[0] == p[|p| - 1]
  }

  ghost predicate Acyclic(g: Graph) {
    forall p :: !IsCycle(g, p)
  }

  lemma ReachableSelf(g: Graph, a: Node)
    ensures Reachable(g, a, a)
  {
    assert PathBetween(g, [a], a, a);
  }

  lemma ReachableEdge(g: Graph, a: Node, b: Node, c: Node)
    requires Reachable(g, a, b) && c in Succ(g, b)
    ensures Reachable(g, a, c)
  {
    var p :| PathBetween(g, p, a, b);
    assert PathBetween(g, p + [c], a, c);
  }

  ghost predicate ClosedUnder(g: Graph, s: set<Node>) {
    forall n, m :: n in s && m in Succ(g, n) ==> m in s
  }

  /** Paths cannot leave a closed set. */
  lemma {:induction false} ClosedKeepsPaths(g: Graph, s: set<Node>, p: seq<Node>)
    requires ClosedUnder(g, s) && IsPath(g, p) && p[0] in s
    ensures forall i :: 0 <= i < |p| ==> p[i] in s
  {
    if |p| > 1 {
      var q := p[..|p| - 1];
      ClosedKeepsPaths(g, s, q);
      assert q[|q| - 1] == p[|p| - 2];
      assert forall i :: 0 <= i < |q| ==> p[i] == q[i];
    }
  }

  // ----- orders -----

  /** Every successor of a listed node is listed before it. */
  ghost predicate ReverseTopological(g: Graph, order: seq<Node>) {
    && Distinct(order)
    && forall i, m :: 0 <= i < |order| && m in Succ(g, order[i]) ==> exists j :: 0 <= j < i && order[j] == m
  }

  lemma {:induction false} PathDescends(g: Graph, order: seq<Node>, p: seq<Node>, i: nat) returns (j: nat)
    requires ReverseTopological(g, order) && IsPath(g, p) && i < |order| && order[i] == p[0]
    ensures j <= i && order[j] == p[|p| - 1] && (|p| > 1 ==> j < i)
    decreases |p|
  {
    j := i;
    if |p| > 1 {
      assert p[1] in Succ(g, order[i]);
      var k :| 0 <= k < i && order[k] == p[1];
      var q := p[1..];
      SubPath(g, p, 1, |p|);
      assert q == p[1..|p|];
      j := PathDescends(g, order, q, k);
    }
  }

  /** A listed node lies on no cycle. */
  lemma OrderExcludesCycles(g: Graph, order: seq<Node>, p: seq<Node>)
    requires ReverseTopological(g, order) && IsCycle(g, p)
    ensures p[0] !in order
  {
    if p[0] in order {
      var i :| 0 <= i < |order| && order[i] == p[0];
      var j := PathDescends(g, order, p, i);
    }
  }

  lemma CycleStartsInside(g: Graph, p: seq<Node>)
    requires IsCycle(g, p)
    ensures p[0] in g
  {
    assert p[1] in Succ(g, p[0]);
  }

  lemma OrderOfAllIsAcyclic(g: Graph, order: seq<Node>)
    requires ReverseTopological(g, order) && forall n :: n in g ==> n in order
    ensures Acyclic(g)
  {
    forall p ensures !IsCycle(g, p) {
      if IsCycle(g, p) {
        CycleStartsInside(g, p);
        OrderExcludesCycles(g, order, p);
      }
    }
  }

  lemma OrderExtends(g: Graph, order: seq<Node>, n: Node)
    requires ReverseTopological(g, order) && n !in order && forall m :: m in Succ(g, n) ==> m in order
    ensures ReverseTopological(g, order + [n])
  {
    var longer := order + [n];
    forall i, m | 0 <= i < |longer| && m in Succ(g, longer[i]) ensures exists j :: 0 <= j < i && longer[j] == m {
      if i < |order| {
        var j :| 0 <= j < i && order[j] == m;
        assert longer[j] == m;
      } else {
        var j :| 0 <= j < |order| && order[j] == m;
        assert longer[j] == m;
      }
    }
  }

  // ----- endless sets -----

  /** A walk of a given number of edges that never leaves s, if every node of s has a
      successor in s. */
  lemma {:induction false} WalkInside(g: Graph, s: set<Node>, a: Node, n: nat) returns (p: seq<Node>)
    requires a in s && forall x :: x in s ==> Succ(g, x) * s != {}
    ensures IsPath(g, p) && |p| == n + 1 && p[0] == a && forall i :: 0 <= i < |p| ==> p[i] in s
    decreases n
  {
    if n == 0 {
      p := [a];
    } else {
      var b :| b in Succ(g, a) * s;
      var q := WalkInside(g, s, b, n - 1);
      p := [a] + q;
      assert forall i :: 1 <= i < |p| ==> p[i] == q[i - 1];
    }
  }

  /** A sequence longer than the set it draws from repeats an element. */
  lemma {:induction false} Pigeonhole(s: set<Node>, p: seq<Node>) returns (i: nat, j: nat)
    requires |p| > |s| && forall k :: 0 <= k < |p| ==> p[k] in s
    ensures i < j < |p| && p[i] == p[j]
  {
    DistinctBySize(p);
    var elements := set x | x in p;
    assert elements <= s;
    SubsetSize(elements, s);
    assert !Distinct(p);
    i, j :| 0 <= i < j < |p| && p[i] == p[j];
  }

  lemma SubsetSize(a: set<Node>, b: set<Node>)
    requires a <= b
    ensures |a| <= |b|
  {
    assert b == a + (b - a);
    assert |b| == |a| + |b - a|;
  }

  lemma SubPath(g: Graph, p: seq<Node>, i: nat, j: nat)
    requires IsPath(g, p) && i < j <= |p|
    ensures IsPath(g, p[i..j])
  {
    var q := p[i..j];
    forall k | 0 <= k < |q| - 1 ensures q[k + 1] in Succ(g, q[k]) {
      assert q[k] == p[i + k] && q[k + 1] == p[i + k + 1];
    }
  }

  /** From every node of a finite set without an exit, a cycle can be reached. */
  lemma EndlessReachesCycle(g: Graph, s: set<Node>, a: Node) returns (cycle: seq<Node>)
    requires a in s && forall x :: x in s ==> Succ(g, x) * s != {}
    ensures IsCycle(g, cycle) && Reachable(g, a, cycle[0])
  {
    var p := WalkInside(g, s, a, |s|);
    var i, j := Pigeonhole(s, p);
    cycle := p[i..j + 1];
    SubPath(g, p, i, j + 1);
    SubPath(g, p, 0, i + 1);
    assert PathBetween(g, p[0..i + 1], a, cycle[0]);
  }

  /** A cycle through a node of an acyclic graph's subset, by closing a path with an edge back. */
  lemma PathBackIsCycle(g: Graph, stack: seq<Node>, n: Node)
    requires IsPath(g, stack + [n]) && n in stack
    ensures !Acyclic(g)
  {
    var k :| 0 <= k < |stack| && stack[k] == n;
    var p := stack + [n];
    SubPath(g, p, k, |p|);
    assert IsCycle(g, p[k..]) by { assert p[k..] == p[k..|p|]; }
  }
}
