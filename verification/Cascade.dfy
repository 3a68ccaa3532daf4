/** How failures spread through a task graph, round by round, described by paths only.

    good is the set of nodes that succeed when they are run. In round k the scheduler runs
    the nodes at level k of which everything below succeeds; a node is cancelled one round
    after the first of its dependencies failed or was cancelled. */
module Cascade {
  import opened Common
  import opened Graphs

  /** Everything strictly below t succeeds. */
  ghost predicate Clean(g: Graph, good: set<Id>, t: Id) {
    forall p :: IsPath(g, p) && p[0] == t && |p| >= 2 ==> p[|p| - 1] in good
  }

  ghost predicate Ran(g: Graph, good: set<Id>, t: Id, k: nat) {
    Clean(g, good, t) && !ChainFrom(g, t, k)
  }

  /** Nodes run in the first k rounds: clean, and no dependency chain of k edges below. */
  ghost function RanSet(g: Graph, good: set<Id>, k: nat): set<Id> {
    set t | t in g && Ran(g, good, t, k)
  }

  /** p leads down from a node to one that was run and failed, early enough for the failure
      to climb back along p within the first k rounds. */
  ghost predicate BlamePath(g: Graph, good: set<Id>, p: seq<Id>, k: nat) {
    && IsPath(g, p) && 2 <= |p| <= k
    && p[|p| - 1] !in good
    && Ran(g, good, p[|p| - 1], k + 1 - |p|)
  }

  ghost predicate Blamed(g: Graph, good: set<Id>, t: Id, k: nat) {
    exists p :: BlamePath(g, good, p, k) && p[0] == t
  }

  /** Nodes cancelled because of a failed dependency in the first k rounds. */
  ghost function BlockedSet(g: Graph, good: set<Id>, k: nat): set<Id> {
    set t | t in g && Blamed(g, good, t, k)
  }

  lemma CleanStep(g: Graph, good: set<Id>, t: Id)
    requires Closed(g) && t in g
    ensures Clean(g, good, t) <==> forall d :: d in g[t] ==> d in good && Clean(g, good, d)
  {
    if Clean(g, good, t) {
      forall d | d in g[t]
        ensures d in good && Clean(g, good, d)
      {
        assert IsPath(g, [t, d]);
        forall p | IsPath(g, p) && p[0] == d && |p| >= 2
          ensures p[|p| - 1] in good
        {
          EdgeThenPath(g, t, d, p);
        }
      }
    }
    if forall d :: d in g[t] ==> d in good && Clean(g, good, d) {
      forall p | IsPath(g, p) && p[0] == t && |p| >= 2
        ensures p[|p| - 1] in good
      {
        assert p[1] in g[t];
        var rest := p[1..];
        assert IsPath(g, rest) && rest[|rest| - 1] == p[|p| - 1];
      }
    }
  }

  /** A node runs within k + 1 rounds exactly when its dependencies ran within k and succeeded. */
  lemma RanStep(g: Graph, good: set<Id>, t: Id, k: nat)
    requires Closed(g) && t in g
    ensures t in RanSet(g, good, k + 1) <==> g[t] <= RanSet(g, good, k) * good
  {
    CleanStep(g, good, t);
    ChainStep(g, t, k);
    if t in RanSet(g, good, k + 1) {
      forall d | d in g[t]
        ensures d in RanSet(g, good, k) * good
      {
      }
    }
  }

  lemma BlameHasSource(g: Graph, good: set<Id>, t: Id, k: nat, p: seq<Id>)
    requires BlamePath(g, good, p, k + 1) && p[0] == t
    ensures p[1] in g[t] && p[1] in (RanSet(g, good, k) - good) + BlockedSet(g, good, k)
  {
    var d, rest := p[1], p[1..];
    assert d in g[t] && rest[|rest| - 1] == p[|p| - 1];
    if |p| > 2 {
      assert IsPath(g, rest) && BlamePath(g, good, rest, k);
    }
  }

  lemma BlameClimbs(g: Graph, good: set<Id>, t: Id, k: nat, d: Id)
    requires Closed(g) && t in g && d in g[t]
    requires d in (RanSet(g, good, k) - good) + BlockedSet(g, good, k)
    ensures t in BlockedSet(g, good, k + 1)
  {
    if d in BlockedSet(g, good, k) {
      var q :| BlamePath(g, good, q, k) && q[0] == d;
      EdgeThenPath(g, t, d, q);
      assert BlamePath(g, good, [t] + q, k + 1);
    } else {
      ChainStep(g, d, 0);
      assert BlamePath(g, good, [t, d], k + 1);
    }
  }

  /** A node is blocked within k + 1 rounds exactly when a dependency failed or was blocked
      within k. */
  lemma BlockedStep(g: Graph, good: set<Id>, t: Id, k: nat)
    requires Closed(g) && t in g
    ensures t in BlockedSet(g, good, k + 1)
            <==> exists d :: d in g[t] && d in (RanSet(g, good, k) - good) + BlockedSet(g, good, k)
  {
    if t in BlockedSet(g, good, k + 1) {
      var p :| BlamePath(g, good, p, k + 1) && p[0] == t;
      BlameHasSource(g, good, t, k, p);
    }
    if d :| d in g[t] && d in (RanSet(g, good, k) - good) + BlockedSet(g, good, k) {
      BlameClimbs(g, good, t, k, d);
    }
  }

  lemma RanGrows(g: Graph, good: set<Id>, j: nat, k: nat)
    requires j <= k
    ensures RanSet(g, good, j) <= RanSet(g, good, k)
  {
    forall t | t in RanSet(g, good, j)
      ensures !ChainFrom(g, t, k)
    {
      if ChainFrom(g, t, k) {
        ShorterChains(g, t, j, k);
      }
    }
  }

  lemma BlockedGrows(g: Graph, good: set<Id>, j: nat, k: nat)
    requires j <= k
    ensures BlockedSet(g, good, j) <= BlockedSet(g, good, k)
  {
    forall t | t in BlockedSet(g, good, j)
      ensures t in BlockedSet(g, good, k)
    {
      var p :| BlamePath(g, good, p, j) && p[0] == t;
      var f := p[|p| - 1];
      if ChainFrom(g, f, k + 1 - |p|) {
        ShorterChains(g, f, j + 1 - |p|, k + 1 - |p|);
      }
      assert BlamePath(g, good, p, k);
    }
  }

  /** A node is never both run and blocked. */
  lemma RanNotBlocked(g: Graph, good: set<Id>, j: nat, k: nat)
    ensures RanSet(g, good, j) !! BlockedSet(g, good, k)
  {
    forall t | t in BlockedSet(g, good, k)
      ensures !Clean(g, good, t)
    {
      var p :| BlamePath(g, good, p, k) && p[0] == t;
    }
  }

  /** The nodes of round k: clean and at level k. */
  lemma WaveIsLevel(g: Graph, good: set<Id>, t: Id, k: nat)
    ensures t in RanSet(g, good, k + 1) - RanSet(g, good, k) <==> t in g && Clean(g, good, t) && AtLevel(g, t, k)
  {
  }

  /** Round k finds no node to run although some node has no outcome yet. */
  ghost predicate StuckAt(g: Graph, good: set<Id>, k: nat) {
    && RanSet(g, good, k + 1) == RanSet(g, good, k)
    && RanSet(g, good, k) + BlockedSet(g, good, k + 1) != g.Keys
  }

  /** A stuck round always has an unsettled node with a dependency blocked in that very round. */
  lemma StuckNeedsFreshBlock(g: Graph, good: set<Id>, k: nat) returns (t: Id, d: Id)
    requires Closed(g) && Acyclic(g) && StuckAt(g, good, k)
    ensures t in g.Keys - RanSet(g, good, k) - BlockedSet(g, good, k + 1)
    ensures d in g[t] && d in BlockedSet(g, good, k + 1) - BlockedSet(g, good, k)
  {
    var unsettled := g.Keys - RanSet(g, good, k) - BlockedSet(g, good, k + 1);
    BlockedGrows(g, good, k, k + 1);
    EmptyDifference(g.Keys, RanSet(g, good, k) + BlockedSet(g, good, k + 1));
    assert unsettled == g.Keys - (RanSet(g, good, k) + BlockedSet(g, good, k + 1));
    t := MinimalMember(g, unsettled);
    RanStep(g, good, t, k);
    BlockedStep(g, good, t, k);
    d :| d in g[t] && d !in RanSet(g, good, k) * good;
    assert d !in g[t] * unsettled;
  }

  /** Without a failing node no round gets stuck, and the rounds are the longest-path levels,
      which are also the sets Kahn's peeling removes. */
  lemma AllGoodWaves(g: Graph, k: nat)
    requires Closed(g) && Acyclic(g)
    ensures !StuckAt(g, g.Keys, k)
    ensures RanSet(g, g.Keys, k) == Peeled(g, k)
    ensures BlockedSet(g, g.Keys, k) == {}
  {
    forall t, n | t in g
      ensures t !in BlockedSet(g, g.Keys, n)
    {
      assert forall p :: IsPath(g, p) ==> p[|p| - 1] in g.Keys;
    }
    if StuckAt(g, g.Keys, k) {
      var t, d := StuckNeedsFreshBlock(g, g.Keys, k);
    }
    forall t | t in g
      ensures t in RanSet(g, g.Keys, k) <==> t in Peeled(g, k)
    {
      PeeledMeansShortChains(g, t, k);
      assert Clean(g, g.Keys, t);
    }
  }

  function ChainOfThree(): Graph {
    map["a" := {}, "b" := {"a"}, "c" := {"b"}]
  }

  lemma ChainOfThreeIsAcyclic()
    ensures ChainOfThree().Keys == {"a", "b", "c"} && Closed(ChainOfThree()) && Acyclic(ChainOfThree())
  {
    var g := ChainOfThree();
    assert g.Keys == {"a", "b", "c"};
    assert Peeled(g, 1) == {"a"};
    assert Peeled(g, 2) == {"a", "b"};
    assert Peeled(g, 3) == g.Keys;
    PeelingAllMeansAcyclic(g, 3);
  }

  lemma FirstRoundOfThree(t: Id)
    requires t in ChainOfThree()
    ensures t in RanSet(ChainOfThree(), {"b", "c"}, 1) <==> t == "a"
    ensures t !in BlockedSet(ChainOfThree(), {"b", "c"}, 1)
  {
    var g, good := ChainOfThree(), {"b", "c"};
    forall d | d in g ensures d !in RanSet(g, good, 0) && d !in BlockedSet(g, good, 0) {
      ChainStep(g, d, 0);
    }
    RanStep(g, good, t, 0);
    BlockedStep(g, good, t, 0);
  }

  /** A chain of three whose first task fails: the second round blocks the second task and
      leaves the third neither blocked nor ready. */
  lemma ChainOfThreeGetsStuck()
    ensures Closed(ChainOfThree()) && Acyclic(ChainOfThree())
    ensures StuckAt(ChainOfThree(), {"b", "c"}, 1)
  {
    var g, good := ChainOfThree(), {"b", "c"};
    ChainOfThreeIsAcyclic();
    forall t | t in g
      ensures t in RanSet(g, good, 1) <==> t == "a"
      ensures t !in BlockedSet(g, good, 1)
    {
      FirstRoundOfThree(t);
    }
    forall t | t in g
      ensures t in RanSet(g, good, 2) <==> t == "a"
      ensures t in BlockedSet(g, good, 2) <==> t == "b"
    {
      RanStep(g, good, t, 1);
      BlockedStep(g, good, t, 1);
    }
    assert "c" !in RanSet(g, good, 1) + BlockedSet(g, good, 2);
  }
}
