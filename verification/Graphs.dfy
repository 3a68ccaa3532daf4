/** Finite dependency graphs: paths, cycles and longest-path levels.

    A graph maps every node to the set of nodes it points to. For tasks an edge
    leads from a task to one of its dependencies; for artifacts it leads from an
    artifact to one of its parents. */
module Graphs {
  type Id = string
  type Graph = map<Id, set<Id>>

  /** Every edge leads to a node of the graph. */
  ghost predicate Closed(g: Graph) {
    forall t, d :: t in g && d in g[t] ==> d in g
  }

  ghost predicate IsPath(g: Graph, p: seq<Id>) {
    && p != []
    && (forall i :: 0 <= i < |p| ==> p[i] in g)
    && (forall i :: 0 < i < |p| ==> p[i] in g[p[i - 1]])
  }

  /** A path from a to b; a single node counts as a path of no edges. */
  ghost predicate Connects(g: Graph, p: seq<Id>, a: Id, b: Id) {
    IsPath(g, p) && p[0] == a && p[|p| - 1] == b
  }

  ghost predicate Reaches(g: Graph, a: Id, b: Id) {
    exists p :: Connects(g, p, a, b)
  }

  ghost predicate IsCycle(g: Graph, p: seq<Id>) {
    |p| >= 2 && Connects(g, p, p[0], p[0])
  }

  ghost predicate Acyclic(g: Graph) {
    forall p :: !IsCycle(g, p)
  }

  ghost predicate OnCycle(g: Graph, t: Id) {
    exists p :: IsCycle(g, p) && p[0] == t
  }

  /** Every member of s points to another member of s. */
  ghost predicate Stuck(g: Graph, s: set<Id>) {
    s <= g.Keys && forall t :: t in s ==> g[t] * s != {}
  }

  lemma JoinPaths(g: Graph, p: seq<Id>, q: seq<Id>, a: Id, b: Id, c: Id)
    requires Connects(g, p, a, b) && Connects(g, q, b, c)
    ensures Connects(g, p + q[1..], a, c)
  {
    var r := p + q[1..];
    forall i | 0 < i < |r|
      ensures r[i] in g[r[i - 1]]
    {
      if i >= |p| {
        assert r[i] == q[i - |p| + 1] && r[i - 1] == q[i - |p|];
      }
    }
  }

  /** An edge followed by a path is a path. */
  lemma EdgeThenPath(g: Graph, t: Id, d: Id, p: seq<Id>)
    requires t in g && d in g[t] && IsPath(g, p) && p[0] == d
    ensures Connects(g, [t] + p, t, p[|p| - 1])
  {
  }

  /** A path never leaves a set that contains the successors of its members. */
  lemma {:induction false} PathStaysInside(g: Graph, s: set<Id>, p: seq<Id>)
    requires IsPath(g, p) && p[0] in s
    requires forall t :: t in s && t in g ==> g[t] <= s
    ensures forall i :: 0 <= i < |p| ==> p[i] in s
  {
    if |p| > 1 {
      PathStaysInside(g, s, p[1..]);
    }
  }

  lemma {:induction false} DistinctBound(p: seq<Id>, s: set<Id>)
    requires forall i :: 0 <= i < |p| ==> p[i] in s
    requires forall i, j :: 0 <= i < j < |p| ==> p[i] != p[j]
    ensures |p| <= |s|
  {
    if p != [] {
      var rest := s - {p[|p| - 1]};
      DistinctBound(p[..|p| - 1], rest);
      assert |rest| == |s| - 1;
    }
  }

  /** Inside a stuck set one can walk on for as long as one likes. */
  lemma {:induction false} WalkInside(g: Graph, s: set<Id>, n: nat) returns (p: seq<Id>)
    requires Stuck(g, s) && s != {}
    ensures IsPath(g, p) && |p| == n + 1 && forall i :: 0 <= i < |p| ==> p[i] in s
  {
    if n == 0 {
      var t :| t in s;
      p := [t];
    } else {
      var q := WalkInside(g, s, n - 1);
      var d :| d in g[q[n - 1]] * s;
      p := q + [d];
    }
  }

  /** A non-empty set with no ready node contains a cycle. */
  lemma StuckSetHasCycle(g: Graph, s: set<Id>) returns (c: seq<Id>)
    requires Stuck(g, s) && s != {}
    ensures IsCycle(g, c) && forall i :: 0 <= i < |c| ==> c[i] in s
  {
    var p := WalkInside(g, s, |s|);
    if forall i, j :: 0 <= i < j < |p| ==> p[i] != p[j] {
      DistinctBound(p, s);
    }
    var i, j :| 0 <= i < j < |p| && p[i] == p[j];
    c := p[i..j + 1];
  }

  /** Every non-empty set of nodes of an acyclic graph has a member without successors in it. */
  lemma MinimalMember(g: Graph, s: set<Id>) returns (t: Id)
    requires Acyclic(g) && s <= g.Keys && s != {}
    ensures t in s && g[t] * s == {}
  {
    if Stuck(g, s) {
      var c := StuckSetHasCycle(g, s);
      assert false;
    }
    t :| t in s && g[t] * s == {};
  }

  /** Some path of exactly n edges starts at t. */
  ghost predicate ChainFrom(g: Graph, t: Id, n: nat) {
    exists p :: IsPath(g, p) && p[0] == t && |p| == n + 1
  }

  /** The longest dependency chain below t has exactly k edges. */
  ghost predicate AtLevel(g: Graph, t: Id, k: nat) {
    ChainFrom(g, t, k) && !ChainFrom(g, t, k + 1)
  }

  lemma ChainStep(g: Graph, t: Id, n: nat)
    requires t in g
    ensures ChainFrom(g, t, n + 1) <==> exists d :: d in g[t] && ChainFrom(g, d, n)
    ensures ChainFrom(g, t, n + 1) ==> ChainFrom(g, t, n)
    ensures ChainFrom(g, t, 0)
  {
    assert IsPath(g, [t]);
    if ChainFrom(g, t, n + 1) {
      var p :| IsPath(g, p) && p[0] == t && |p| == n + 2;
      assert IsPath(g, p[1..]) && IsPath(g, p[..n + 1]);
      assert p[1] in g[t] && ChainFrom(g, p[1], n);
    }
    if exists d :: d in g[t] && ChainFrom(g, d, n) {
      var d :| d in g[t] && ChainFrom(g, d, n);
      var p :| IsPath(g, p) && p[0] == d && |p| == n + 1;
      EdgeThenPath(g, t, d, p);
    }
  }

  lemma {:induction false} ShorterChains(g: Graph, t: Id, m: nat, n: nat)
    requires m <= n && ChainFrom(g, t, n)
    ensures ChainFrom(g, t, m)
  {
    var p :| IsPath(g, p) && p[0] == t && |p| == n + 1;
    assert IsPath(g, p[..m + 1]);
  }

  lemma LevelUnique(g: Graph, t: Id, j: nat, k: nat)
    requires AtLevel(g, t, j) && AtLevel(g, t, k)
    ensures j == k
  {
    if j < k {
      ShorterChains(g, t, j + 1, k);
    } else if k < j {
      ShorterChains(g, t, k + 1, j);
    }
  }

  lemma RepetitionIsCycle(g: Graph, p: seq<Id>, i: nat, j: nat)
    requires IsPath(g, p) && i < j < |p| && p[i] == p[j]
    ensures !Acyclic(g)
  {
    assert IsCycle(g, p[i..j + 1]);
  }

  /** In an acyclic graph chains are shorter than the number of nodes, so every node has a level. */
  lemma ChainsAreShort(g: Graph, t: Id)
    requires Acyclic(g)
    ensures !ChainFrom(g, t, |g.Keys|)
  {
    if ChainFrom(g, t, |g.Keys|) {
      var p :| IsPath(g, p) && p[0] == t && |p| == |g.Keys| + 1;
      if forall i, j :: 0 <= i < j < |p| ==> p[i] != p[j] {
        DistinctBound(p, g.Keys);
      }
      var i, j :| 0 <= i < j < |p| && p[i] == p[j];
      RepetitionIsCycle(g, p, i, j);
    }
  }

  lemma {:induction false} LevelBelow(g: Graph, t: Id, n: nat) returns (k: nat)
    requires t in g && !ChainFrom(g, t, n)
    ensures k < n && AtLevel(g, t, k)
  {
    ChainStep(g, t, 0);
    if n == 1 || ChainFrom(g, t, n - 1) {
      k := n - 1;
    } else {
      k := LevelBelow(g, t, n - 1);
    }
  }

  /** The nodes removed by the first k rounds of repeatedly taking out all nodes whose
      successors are gone. */
  ghost function Peeled(g: Graph, k: nat): set<Id> {
    if k == 0 then {} else set t | t in g && g[t] <= Peeled(g, k - 1)
  }

  /** Peeling removes a node in round k exactly when no chain of k edges starts there. */
  lemma {:induction false} PeeledMeansShortChains(g: Graph, t: Id, k: nat)
    requires Closed(g) && t in g
    ensures t in Peeled(g, k) <==> !ChainFrom(g, t, k)
    decreases k
  {
    if k == 0 {
      ChainStep(g, t, 0);
    } else {
      ChainStep(g, t, k - 1);
      forall d | d in g[t]
        ensures d in Peeled(g, k - 1) <==> !ChainFrom(g, d, k - 1)
      {
        PeeledMeansShortChains(g, d, k - 1);
      }
    }
  }

  lemma PeeledGrows(g: Graph, k: nat)
    requires Closed(g)
    ensures Peeled(g, k) <= Peeled(g, k + 1)
  {
    forall t | t in Peeled(g, k)
      ensures t in Peeled(g, k + 1)
    {
      PeeledMeansShortChains(g, t, k);
      PeeledMeansShortChains(g, t, k + 1);
      ChainStep(g, t, k);
    }
  }

  /** If everything can be peeled, no cycle exists: chains around a cycle never end. */
  lemma PeelingAllMeansAcyclic(g: Graph, k: nat)
    requires Closed(g) && Peeled(g, k) == g.Keys
    ensures Acyclic(g)
  {
    forall c
      ensures !IsCycle(g, c)
    {
      if IsCycle(g, c) {
        CycleGivesLongChains(g, c, k);
        PeeledMeansShortChains(g, c[0], k);
      }
    }
  }

  lemma {:induction false} CycleGivesLongChains(g: Graph, c: seq<Id>, n: nat)
    requires IsCycle(g, c)
    ensures ChainFrom(g, c[0], n)
  {
    if n == 0 {
      ChainStep(g, c[0], 0);
    } else {
      CycleGivesLongChains(g, c, n - 1);
      var p :| IsPath(g, p) && p[0] == c[0] && |p| == n;
      JoinPaths(g, c, p, c[0], c[0], p[|p| - 1]);
      var q := c + p[1..];
      assert IsPath(g, q) && q[0] == c[0] && |q| >= n + 1;
      assert ChainFrom(g, c[0], |q| - 1);
      ShorterChains(g, c[0], n, |q| - 1);
    }
  }
}
