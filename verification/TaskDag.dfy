/** TaskDAG: validation of a task graph before it is scheduled. */
module TaskDag {
  import opened Common
  import opened Graphs

  /** One executable node; the operation itself is a parameter of a scheduler run. */
  datatype TaskNode = TaskNode(taskId: Id, dependencyIds: seq<Id>, timeoutSeconds: real, maxAttempts: int) {
    /** What the node's constructor enforces. */
    predicate Valid() {
      && 0.0 < timeoutSeconds <= 1800.0
      && 1 <= maxAttempts <= 10
      && forall i, j :: 0 <= i < j < |dependencyIds| ==> dependencyIds[i] != dependencyIds[j]
    }
  }

  datatype DagError =
    | NoNodes
    | TooManyNodes
    | DuplicateIds
    | MissingDependency(taskId: Id)
    | SelfDependency(taskId: Id)
    | CycleFound

  function Ids(nodes: seq<TaskNode>): seq<Id> {
    seq(|nodes|, i requires 0 <= i < |nodes| => nodes[i].taskId)
  }

  /** The dictionary built from the node list; a repeated id keeps its last node. */
  function ById(nodes: seq<TaskNode>): (m: map<Id, TaskNode>)
    ensures m.Keys == Elements(Ids(nodes))
    ensures forall t :: t in m ==> m[t] in nodes && m[t].taskId == t
  {
    if nodes == [] then map[]
    else
      var init, last := nodes[..|nodes| - 1], nodes[|nodes| - 1];
      assert nodes == init + [last] && Ids(nodes) == Ids(init) + [last.taskId];
      ElementsByLast(Ids(init), last.taskId);
      ById(init)[last.taskId := last]
  }

  function Edges(nodes: map<Id, TaskNode>): (g: Graph)
    ensures g.Keys == nodes.Keys
  {
    map t | t in nodes :: set d | d in nodes[t].dependencyIds
  }

  ghost predicate NoSelfEdge(g: Graph) {
    forall t :: t in g ==> t !in g[t]
  }

  /** What the peeling loop holds once the nodes in gone have been removed. */
  ghost predicate HoldsWithout(g: Graph, remaining: Graph, gone: set<Id>) {
    && remaining.Keys == g.Keys - gone
    && forall t :: t in remaining ==> remaining[t] == g[t] - gone
  }

  function Ready(remaining: Graph): set<Id> {
    set t | t in remaining && remaining[t] == {}
  }

  function Without(remaining: Graph, ready: set<Id>): (next: Graph)
    ensures next.Keys == remaining.Keys - ready
  {
    map t | t in remaining && t !in ready :: remaining[t] - ready
  }

  lemma DifferenceTwice(a: set<Id>, b: set<Id>, c: set<Id>)
    ensures (a - b) - c == a - (b + c)
  {
  }

  lemma RemovingReady(g: Graph, remaining: Graph, gone: set<Id>, ready: set<Id>)
    requires HoldsWithout(g, remaining, gone) && ready <= remaining.Keys
    ensures HoldsWithout(g, Without(remaining, ready), gone + ready)
    ensures ready != {} ==> |Without(remaining, ready).Keys| < |remaining.Keys|
  {
    forall t | t in remaining && t !in ready
      ensures remaining[t] - ready == g[t] - (gone + ready)
    {
      DifferenceTwice(g[t], gone, ready);
    }
    DifferenceTwice(g.Keys, gone, ready);
    SubsetSize(Without(remaining, ready).Keys, remaining.Keys);
  }

  lemma ReadyIsNextWave(g: Graph, remaining: Graph, k: nat)
    requires Closed(g) && HoldsWithout(g, remaining, Peeled(g, k))
    ensures Peeled(g, k) + Ready(remaining) == Peeled(g, k + 1)
  {
    PeeledGrows(g, k);
    var gone := Peeled(g, k);
    forall t | t in g && t !in gone
      ensures g[t] <= gone <==> t in Ready(remaining)
    {
      assert remaining[t] == g[t] - gone;
      assert g[t] <= gone + (g[t] - gone);
    }
  }

  lemma NoReadyNodeMeansCycle(g: Graph, remaining: Graph, gone: set<Id>)
    requires HoldsWithout(g, remaining, gone) && Closed(g)
    requires remaining.Keys != {} && Ready(remaining) == {}
    ensures !Acyclic(g)
  {
    forall t | t in remaining.Keys
      ensures g[t] * remaining.Keys != {}
    {
      assert t !in Ready(remaining);
      var d :| d in remaining[t];
      assert d in g[t] * remaining.Keys;
    }
    var cycle := StuckSetHasCycle(g, remaining.Keys);
  }

  /** Kahn's peeling: repeatedly drop every task whose dependencies are all gone. */
  method ValidateAcyclic(g: Graph) returns (acyclic: bool)
    requires Closed(g)
    ensures acyclic <==> Acyclic(g)
  {
    var remaining := g;
    ghost var k := 0;
    while remaining.Keys != {}
      invariant HoldsWithout(g, remaining, Peeled(g, k))
      decreases |remaining.Keys|
    {
      var ready := Ready(remaining);
      if ready == {} {
        NoReadyNodeMeansCycle(g, remaining, Peeled(g, k));
        return false;
      }
      RemovingReady(g, remaining, Peeled(g, k), ready);
      ReadyIsNextWave(g, remaining, k);
      remaining := Without(remaining, ready);
      k := k + 1;
    }
    assert Peeled(g, k) == g.Keys;
    PeelingAllMeansAcyclic(g, k);
    acyclic := true;
  }

  /** The first node that names a missing dependency or itself. */
  method ValidateDependencies(nodes: seq<TaskNode>, known: set<Id>) returns (fault: Option<DagError>)
    ensures fault.None? <==> forall n :: n in nodes ==> NodeFits(n, known)
    ensures fault.Some? ==> fault.value.MissingDependency? || fault.value.SelfDependency?
    ensures fault.Some? ==> exists i ::
              && 0 <= i < |nodes| && nodes[i].taskId == fault.value.taskId
              && !NodeFits(nodes[i], known)
              && (forall j :: 0 <= j < i ==> NodeFits(nodes[j], known))
              && (fault.value.SelfDependency? <==> forall d :: d in nodes[i].dependencyIds ==> d in known)
  {
    for i := 0 to |nodes|
      invariant forall j :: 0 <= j < i ==> NodeFits(nodes[j], known)
    {
      var node := nodes[i];
      assert node in nodes;
      var missing := (set d | d in node.dependencyIds) - known;
      if missing != {} {
        return Some(MissingDependency(node.taskId));
      }
      assert forall d :: d in node.dependencyIds ==> d in known || d in missing;
      if node.taskId in node.dependencyIds {
        return Some(SelfDependency(node.taskId));
      }
    }
    fault := None;
  }

  /** What a list of nodes must satisfy to become a task graph. */
  ghost predicate Acceptable(nodes: seq<TaskNode>) {
    && Distinct(Ids(nodes))
    && WellConnected(nodes)
    && Acyclic(Edges(ById(nodes)))
  }

  ghost predicate WellConnected(nodes: seq<TaskNode>) {
    Closed(Edges(ById(nodes))) && NoSelfEdge(Edges(ById(nodes)))
  }

  ghost predicate NodeFits(n: TaskNode, known: set<Id>) {
    n.taskId !in n.dependencyIds && forall d :: d in n.dependencyIds ==> d in known
  }

  /** In a duplicate-free list the dictionary holds every listed node. */
  lemma DistinctNodesAreKept(nodes: seq<TaskNode>, n: TaskNode)
    requires Distinct(Ids(nodes)) && n in nodes
    ensures n.taskId in ById(nodes) && ById(nodes)[n.taskId] == n
  {
    var i :| 0 <= i < |nodes| && nodes[i] == n;
    assert Ids(nodes)[i] == n.taskId && n.taskId in Elements(Ids(nodes));
    var kept := ById(nodes)[n.taskId];
    assert kept in nodes && kept.taskId == n.taskId;
    var j :| 0 <= j < |nodes| && nodes[j] == kept;
    assert Ids(nodes)[j] == Ids(nodes)[i];
  }

  lemma AllFitMeansWellConnected(nodes: seq<TaskNode>)
    requires Distinct(Ids(nodes))
    ensures (forall n :: n in nodes ==> NodeFits(n, ById(nodes).Keys)) <==> WellConnected(nodes)
  {
    var byId := ById(nodes);
    var g := Edges(byId);
    if WellConnected(nodes) {
      forall n | n in nodes
        ensures NodeFits(n, byId.Keys)
      {
        DistinctNodesAreKept(nodes, n);
        assert n.taskId !in g[n.taskId];
        forall d | d in n.dependencyIds
          ensures d in byId.Keys
        {
          assert d in g[n.taskId];
        }
      }
    }
    if forall n :: n in nodes ==> NodeFits(n, byId.Keys) {
      forall t | t in g
        ensures g[t] <= g.Keys && t !in g[t]
      {
        assert NodeFits(byId[t], byId.Keys);
      }
    }
  }

  /** The constructor: the checks in their order, and the dictionary when all pass. */
  method Build(nodes: seq<TaskNode>, maxNodes: int) returns (r: Result<map<Id, TaskNode>, DagError>)
    ensures r.Ok? <==> 0 < |nodes| <= maxNodes && Acceptable(nodes)
    ensures r.Ok? ==> r.value == ById(nodes)
    ensures r == Err(NoNodes) <==> nodes == []
    ensures r == Err(TooManyNodes) <==> nodes != [] && |nodes| > maxNodes
    ensures r == Err(DuplicateIds) <==> 0 < |nodes| <= maxNodes && !Distinct(Ids(nodes))
    ensures r == Err(CycleFound) <==>
              0 < |nodes| <= maxNodes && Distinct(Ids(nodes)) && WellConnected(nodes) && !Acyclic(Edges(ById(nodes)))
  {
    if nodes == [] {
      return Err(NoNodes);
    }
    if |nodes| > maxNodes {
      return Err(TooManyNodes);
    }
    var byId := ById(nodes);
    DistinctSize(Ids(nodes));
    if |byId.Keys| != |nodes| {
      return Err(DuplicateIds);
    }
    AllFitMeansWellConnected(nodes);
    var fault := ValidateDependencies(nodes, byId.Keys);
    if fault.Some? {
      return Err(fault.value);
    }
    var acyclic := ValidateAcyclic(Edges(byId));
    if !acyclic {
      return Err(CycleFound);
    }
    r := Ok(byId);
  }
}
