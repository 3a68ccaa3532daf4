/** The coordinator's task-graph validator: a recursive depth-first search. */
module Coordinator {
  import opened Common
  import opened Graphs
  import TaskDag

  datatype TaskBlueprint = TaskBlueprint(taskId: Id, taskType: Id, recipientAgent: Id, dependencyIds: seq<Id>)

  datatype GraphError =
    | DuplicateIds
    | UnknownDependencies(taskId: Id)
    | SelfDependency(taskId: Id)
    | CycleFound

  function Ids(tasks: seq<TaskBlueprint>): seq<Id> {
    seq(|tasks|, i requires 0 <= i < |tasks| => tasks[i].taskId)
  }

  /** The dependencies of the first task with this id. */
  function Lookup(tasks: seq<TaskBlueprint>, id: Id): (deps: seq<Id>)
    requires id in Ids(tasks)
    ensures exists i :: 0 <= i < |tasks| && tasks[i].taskId == id && tasks[i].dependencyIds == deps
  {
    if tasks[0].taskId == id then tasks[0].dependencyIds
    else
      assert Ids(tasks) == [tasks[0].taskId] + Ids(tasks[1..]);
      Lookup(tasks[1..], id)
  }

  function Edges(tasks: seq<TaskBlueprint>): (g: Graph)
    ensures g.Keys == Elements(Ids(tasks))
  {
    map t | t in Ids(tasks) :: Elements(Lookup(tasks, t))
  }

  /** What the search may rely on about the nodes it has finished. */
  ghost predicate Finished(g: Graph, visited: set<Id>) {
    && visited <= g.Keys
    && forall v :: v in visited ==> g[v] <= visited && !OnCycle(g, v)
  }

  /** The nodes being visited form a path that leads to the next node. */
  ghost predicate LeadsTo(g: Graph, stack: seq<Id>, t: Id) {
    stack != [] ==> IsPath(g, stack) && t in g[stack[|stack| - 1]]
  }

  lemma BackEdgeIsCycle(g: Graph, stack: seq<Id>, t: Id)
    requires LeadsTo(g, stack, t) && t in stack && t in g
    ensures !Acyclic(g)
  {
    var i :| 0 <= i < |stack| && stack[i] == t;
    assert IsCycle(g, stack[i..] + [t]);
  }

  /** A node whose successors are all finished is not on a cycle. */
  lemma FinishingNode(g: Graph, visited: set<Id>, t: Id)
    requires Finished(g, visited) && t in g && t !in visited && g[t] <= visited
    ensures Finished(g, visited + {t})
  {
    if OnCycle(g, t) {
      var c :| IsCycle(g, c) && c[0] == t;
      var tail := c[1..];
      assert IsPath(g, tail) && tail[|tail| - 1] == t;
      PathStaysInside(g, visited, tail);
    }
  }

  lemma AllFinishedMeansAcyclic(g: Graph)
    requires Finished(g, g.Keys)
    ensures Acyclic(g)
  {
    forall c | IsCycle(g, c)
      ensures OnCycle(g, c[0]) && c[0] in g.Keys
    {
    }
  }

  /** g is the dependency graph of the tasks. */
  ghost predicate Describes(g: Graph, tasks: seq<TaskBlueprint>) {
    && (forall t :: t in g <==> t in Ids(tasks))
    && (forall t, d :: t in g && d in Lookup(tasks, t) ==> d in g[t])
    && (forall t, d :: t in g && d in g[t] ==> d in Lookup(tasks, t))
  }

  /** What holds between visits: finished nodes are safe and disjoint from the stack. */
  ghost predicate Consistent(g: Graph, visiting: set<Id>, visited: set<Id>) {
    Finished(g, visited) && visiting !! visited
  }

  lemma PushNode(g: Graph, stack: seq<Id>, t: Id, d: Id)
    requires LeadsTo(g, stack, t) && t in g && d in g[t]
    ensures LeadsTo(g, stack + [t], d)
  {
  }

  /** The two sets the nested function of the validator updates. */
  class Visitor {
    const tasks: seq<TaskBlueprint>
    ghost const g: Graph
    var visiting: set<Id>
    var visited: set<Id>

    constructor (tasks: seq<TaskBlueprint>, ghost g: Graph)
      ensures this.tasks == tasks && this.g == g && visiting == {} && visited == {}
    {
      this.tasks := tasks;
      this.g := g;
      visiting := {};
      visited := {};
    }

    /** Depth-first visit; false stands for the cycle error. */
    method Visit(t: Id, ghost stack: seq<Id>) returns (ok: bool)
      requires Describes(g, tasks) && Closed(g) && t in g
      requires visiting == Elements(stack) && LeadsTo(g, stack, t)
      requires Consistent(g, visiting, visited)
      modifies this
      ensures !ok ==> !Acyclic(g)
      ensures ok ==> t in visited && old(visited) <= visited && visiting == old(visiting)
      ensures ok ==> Consistent(g, visiting, visited)
      decreases g.Keys - visiting
    {
      if t in visited {
        return true;
      }
      if t in visiting {
        BackEdgeIsCycle(g, stack, t);
        return false;
      }
      visiting := visiting + {t};
      ElementsByLast(stack, t);
      var dependencyIds := Lookup(tasks, t);
      for i := 0 to |dependencyIds|
        invariant visiting == old(visiting) + {t} == Elements(stack + [t])
        invariant old(visited) <= visited && Consistent(g, visiting, visited)
        invariant forall j :: 0 <= j < i ==> dependencyIds[j] in visited
      {
        PushNode(g, stack, t, dependencyIds[i]);
        ok := Visit(dependencyIds[i], stack + [t]);
        if !ok {
          return;
        }
      }
      FinishingNode(g, visited, t);
      visiting := visiting - {t};
      visited := visited + {t};
      ok := true;
    }
  }

  ghost predicate TaskFits(task: TaskBlueprint, known: set<Id>) {
    task.taskId !in task.dependencyIds && Elements(task.dependencyIds) <= known
  }

  ghost predicate WellConnected(tasks: seq<TaskBlueprint>) {
    forall task :: task in tasks ==> TaskFits(task, Elements(Ids(tasks)))
  }

  lemma WellConnectedMeansClosed(tasks: seq<TaskBlueprint>)
    requires WellConnected(tasks)
    ensures Closed(Edges(tasks))
  {
    var g := Edges(tasks);
    forall t, d | t in g && d in g[t]
      ensures d in g
    {
      var i :| 0 <= i < |tasks| && tasks[i].taskId == t && tasks[i].dependencyIds == Lookup(tasks, t);
      assert TaskFits(tasks[i], Elements(Ids(tasks)));
    }
  }

  method CheckReferences(tasks: seq<TaskBlueprint>, known: set<Id>) returns (fault: Option<GraphError>)
    requires known == Elements(Ids(tasks))
    ensures fault.None? <==> WellConnected(tasks)
    ensures fault.Some? ==> fault.value.UnknownDependencies? || fault.value.SelfDependency?
  {
    for i := 0 to |tasks|
      invariant forall j :: 0 <= j < i ==> TaskFits(tasks[j], known)
    {
      assert tasks[i] in tasks;
      EmptyDifference(Elements(tasks[i].dependencyIds), known);
      if Elements(tasks[i].dependencyIds) - known != {} {
        return Some(UnknownDependencies(tasks[i].taskId));
      }
      if tasks[i].taskId in tasks[i].dependencyIds {
        return Some(SelfDependency(tasks[i].taskId));
      }
    }
    fault := None;
  }

  method SearchCycles(tasks: seq<TaskBlueprint>, ghost g: Graph) returns (acyclic: bool)
    requires g == Edges(tasks) && Closed(g)
    ensures acyclic <==> Acyclic(g)
  {
    var taskIds := Ids(tasks);
    var visitor := new Visitor(tasks, g);
    for i := 0 to |taskIds|
      invariant visitor.visiting == {} && Consistent(g, {}, visitor.visited)
      invariant forall j :: 0 <= j < i ==> taskIds[j] in visitor.visited
    {
      var ok := visitor.Visit(taskIds[i], []);
      if !ok {
        return false;
      }
    }
    assert visitor.visited == g.Keys;
    AllFinishedMeansAcyclic(g);
    acyclic := true;
  }

  /** The model validator: None when the graph is accepted. */
  method GraphIsClosedAndAcyclic(tasks: seq<TaskBlueprint>) returns (fault: Option<GraphError>)
    ensures fault.None? <==> Distinct(Ids(tasks)) && WellConnected(tasks) && Acyclic(Edges(tasks))
    ensures fault == Some(DuplicateIds) <==> !Distinct(Ids(tasks))
    ensures fault == Some(CycleFound) <==>
              Distinct(Ids(tasks)) && WellConnected(tasks) && !Acyclic(Edges(tasks))
  {
    var taskIds := Ids(tasks);
    var known := Elements(taskIds);
    DistinctSize(taskIds);
    if |taskIds| != |known| {
      return Some(DuplicateIds);
    }
    fault := CheckReferences(tasks, known);
    if fault.None? {
      WellConnectedMeansClosed(tasks);
      var acyclic := SearchCycles(tasks, Edges(tasks));
      fault := if acyclic then None else Some(CycleFound);
    }
  }

  /** The same graph proposed to the coordinator. */
  function Blueprint(node: TaskDag.TaskNode): TaskBlueprint {
    TaskBlueprint(node.taskId, node.taskId, node.taskId, node.dependencyIds)
  }

  function Blueprints(nodes: seq<TaskDag.TaskNode>): seq<TaskBlueprint> {
    seq(|nodes|, i requires 0 <= i < |nodes| => Blueprint(nodes[i]))
  }

  lemma SameDependencies(nodes: seq<TaskDag.TaskNode>, t: Id)
    requires Distinct(TaskDag.Ids(nodes)) && t in TaskDag.Ids(nodes)
    requires Ids(Blueprints(nodes)) == TaskDag.Ids(nodes)
    ensures t in TaskDag.ById(nodes) && Lookup(Blueprints(nodes), t) == TaskDag.ById(nodes)[t].dependencyIds
  {
    var tasks := Blueprints(nodes);
    var i :| 0 <= i < |tasks| && tasks[i].taskId == t && tasks[i].dependencyIds == Lookup(tasks, t);
    TaskDag.DistinctNodesAreKept(nodes, nodes[i]);
  }

  lemma SameGraph(nodes: seq<TaskDag.TaskNode>)
    requires Distinct(TaskDag.Ids(nodes))
    ensures Ids(Blueprints(nodes)) == TaskDag.Ids(nodes)
    ensures Edges(Blueprints(nodes)) == TaskDag.Edges(TaskDag.ById(nodes))
  {
    assert Ids(Blueprints(nodes)) == TaskDag.Ids(nodes);
    forall t | t in TaskDag.Ids(nodes)
      ensures Edges(Blueprints(nodes))[t] == TaskDag.Edges(TaskDag.ById(nodes))[t]
    {
      SameDependencies(nodes, t);
    }
  }

  lemma SameFit(nodes: seq<TaskDag.TaskNode>, i: nat, known: set<Id>)
    requires i < |nodes|
    ensures TaskFits(Blueprints(nodes)[i], known) <==> TaskDag.NodeFits(nodes[i], known)
  {
    var deps := nodes[i].dependencyIds;
    assert Elements(deps) <= known <==> forall d :: d in deps ==> d in known;
  }

  lemma SameConnections(nodes: seq<TaskDag.TaskNode>)
    requires Distinct(TaskDag.Ids(nodes))
    ensures WellConnected(Blueprints(nodes)) <==> TaskDag.WellConnected(nodes)
  {
    var tasks, known := Blueprints(nodes), TaskDag.ById(nodes).Keys;
    SameGraph(nodes);
    TaskDag.AllFitMeansWellConnected(nodes);
    if WellConnected(tasks) {
      forall n | n in nodes ensures TaskDag.NodeFits(n, known) {
        var i :| 0 <= i < |nodes| && nodes[i] == n;
        assert tasks[i] in tasks;
        SameFit(nodes, i, known);
      }
    }
    if TaskDag.WellConnected(nodes) {
      forall task | task in tasks ensures TaskFits(task, known) {
        var i :| 0 <= i < |tasks| && tasks[i] == task;
        assert nodes[i] in nodes;
        SameFit(nodes, i, known);
      }
    }
  }

  /** Both validators reject exactly the same graphs, and for the same reason when it is a cycle. */
  method DetectorsAgree(nodes: seq<TaskDag.TaskNode>)
    returns (kahn: Result<map<Id, TaskDag.TaskNode>, TaskDag.DagError>, search: Option<GraphError>)
    requires nodes != []
    ensures kahn.Ok? <==> search.None?
    ensures kahn == Err(TaskDag.CycleFound) <==> search == Some(CycleFound)
    ensures kahn == Err(TaskDag.DuplicateIds) <==> search == Some(DuplicateIds)
  {
    kahn := TaskDag.Build(nodes, |nodes|);
    search := GraphIsClosedAndAcyclic(Blueprints(nodes));
    assert Ids(Blueprints(nodes)) == TaskDag.Ids(nodes);
    if Distinct(TaskDag.Ids(nodes)) {
      SameGraph(nodes);
      SameConnections(nodes);
    }
  }
}
