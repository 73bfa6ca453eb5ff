/** Directed graphs over the nodes 0..|g|, and the nodes reachable from a set of roots. */
module Graph {

  type Graph = seq<set<nat>>

  ghost predicate WellFormed(g: Graph) {
    forall j, k :: 0 <= j < |g| && k in g[j] ==> k < |g|
  }

  ghost predicate Closed(g: Graph, nodes: set<nat>) {
    forall j, k :: j in nodes && j < |g| && k in g[j] ==> k in nodes
  }

  /** `node` is at the end of a path of `length` edges that starts in `roots`. */
  ghost predicate ReachIn(g: Graph, roots: set<nat>, length: nat, node: nat) {
    && node < |g|
    && if length == 0 then node in roots
       else exists j: nat :: ReachIn(g, roots, length - 1, j) && node in g[j]
  }

  ghost predicate Reachable(g: Graph, roots: set<nat>, node: nat) {
    exists length: nat :: ReachIn(g, roots, length, node)
  }

  ghost function Reach(g: Graph, roots: set<nat>): set<nat> {
    set k: nat | k < |g| && Reachable(g, roots, k)
  }

  lemma ReachStep(g: Graph, roots: set<nat>, j: nat, k: nat)
    requires j in Reach(g, roots) && k < |g| && k in g[j]
    ensures k in Reach(g, roots)
  {
    var length: nat :| ReachIn(g, roots, length, j);
    assert ReachIn(g, roots, length + 1, k);
  }

  lemma ReachRoot(g: Graph, roots: set<nat>, k: nat)
    requires k in roots && k < |g|
    ensures k in Reach(g, roots)
  {
    assert ReachIn(g, roots, 0, k);
  }

  lemma ReachClosed(g: Graph, roots: set<nat>)
    requires WellFormed(g)
    ensures Closed(g, Reach(g, roots))
  {
    forall j, k | j in Reach(g, roots) && j < |g| && k in g[j]
      ensures k in Reach(g, roots)
    {
      ReachStep(g, roots, j, k);
    }
  }

  lemma {:induction false} PathStaysInside(g: Graph, roots: set<nat>, nodes: set<nat>, length: nat, k: nat)
    requires Closed(g, nodes) && (forall r :: r in roots && r < |g| ==> r in nodes)
    requires ReachIn(g, roots, length, k)
    ensures k in nodes
  {
    if length > 0 {
      var j: nat :| ReachIn(g, roots, length - 1, j) && k in g[j];
      PathStaysInside(g, roots, nodes, length - 1, j);
    }
  }

  /** The reachable nodes are the least closed set that holds the roots. */
  lemma ReachLeast(g: Graph, roots: set<nat>, nodes: set<nat>)
    requires Closed(g, nodes) && (forall r :: r in roots && r < |g| ==> r in nodes)
    ensures Reach(g, roots) <= nodes
  {
    forall k | k in Reach(g, roots)
      ensures k in nodes
    {
      var length: nat :| ReachIn(g, roots, length, k);
      PathStaysInside(g, roots, nodes, length, k);
    }
  }

  lemma {:induction false} PathFromMoreRoots(g: Graph, roots: set<nat>, more: set<nat>, length: nat, k: nat)
    requires roots <= more && ReachIn(g, roots, length, k)
    ensures ReachIn(g, more, length, k)
  {
    if length > 0 {
      var j: nat :| ReachIn(g, roots, length - 1, j) && k in g[j];
      PathFromMoreRoots(g, roots, more, length - 1, j);
    }
  }

  lemma ReachMonotone(g: Graph, roots: set<nat>, more: set<nat>)
    requires roots <= more
    ensures Reach(g, roots) <= Reach(g, more)
  {
    forall k | k in Reach(g, roots)
      ensures k in Reach(g, more)
    {
      var length: nat :| ReachIn(g, roots, length, k);
      PathFromMoreRoots(g, roots, more, length, k);
    }
  }

  lemma ReachUnion(g: Graph, a: set<nat>, b: set<nat>)
    requires WellFormed(g)
    ensures Reach(g, a + b) == Reach(g, a) + Reach(g, b)
  {
    ReachClosed(g, a);
    ReachClosed(g, b);
    forall r | r in a + b && r < |g|
      ensures r in Reach(g, a) + Reach(g, b)
    {
      if r in a { ReachRoot(g, a, r); } else { ReachRoot(g, b, r); }
    }
    ReachLeast(g, a + b, Reach(g, a) + Reach(g, b));
    ReachMonotone(g, a, a + b);
    ReachMonotone(g, b, a + b);
  }

  /** At most n different numbers are below n: why the queue of a marking never
      needs more cells than there are objects. */
  lemma {:induction false} Pigeonhole(s: seq<nat>, n: nat)
    requires forall i :: 0 <= i < |s| ==> s[i] < n
    requires forall i, j :: 0 <= i < j < |s| ==> s[i] != s[j]
    ensures |s| <= n
  {
    if s != [] {
      var i := if n - 1 in s then (var i :| 0 <= i < |s| && s[i] == n - 1; i) else |s| - 1;
      Pigeonhole(s[..i] + s[i + 1..], n - 1);
    }
  }
}
