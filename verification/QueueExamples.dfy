/** Concrete histories of the task queue: an accepted cycle, an expired lease that no lease call
    offers, and a worker that completes its task after its lease has expired. */
module QueueExamples {
  import opened Common
  import opened Graphs
  import opened TaskStates
  import opened Repository
  import opened LeaseHistory
  import opened QueueProgress

  function Waiting(id: Id, dependencies: seq<Id>): TaskRecord {
    TaskRecord(id, "r", Pending, dependencies, 0, 0, 2, 0, 100 * SECOND, None, None, None, None, 0, 0)
  }

  // ----- An accepted cycle -----

  function CyclicBatch(): seq<TaskRecord> {
    [Waiting("a", ["b"]), Waiting("b", ["a"])]
  }

  function Holding(order: seq<Id>, tasks: map<Id, TaskRecord>): Store {
    Store({"r"}, order, tasks, map[], {}, map[])
  }

  function StoreWithCycle(): Store {
    Holding(["a", "b"], map["a" := Waiting("a", ["b"]), "b" := Waiting("b", ["a"])])
  }

  /** Into a repository with only the run: no missing run or dependency, no repeated id. */
  lemma BatchIsAdded(records: seq<TaskRecord>)
    requires Distinct(TaskIds(records)) && AddFault({"r"}, Elements(TaskIds(records)), records).None?
    ensures AddTasksStep(Holding([], map[]), records) == (Holding(TaskIds(records), TasksWith(map[], records)), Done)
  {
    var s, incoming := Holding([], map[]), Elements(TaskIds(records));
    DistinctSize(TaskIds(records));
    assert incoming * s.tasks.Keys == {} && incoming + s.tasks.Keys == incoming;
    assert s.order + TaskIds(records) == TaskIds(records);
  }

  lemma TasksOfPair(a: TaskRecord, b: TaskRecord)
    ensures TasksWith(map[], [a, b]) == map[a.taskId := a, b.taskId := b]
  {
    assert [a, b][..1] == [a] && [a][..0] == [];
    assert TasksWith(map[], [a]) == map[a.taskId := a];
  }

  lemma NoFaultInPair(runs: set<Id>, known: set<Id>, a: TaskRecord, b: TaskRecord)
    requires a.runId in runs && b.runId in runs
    requires Elements(a.dependencyIds) <= known && Elements(b.dependencyIds) <= known
    ensures AddFault(runs, known, [a, b]).None?
  {
    EmptyDifference(Elements(a.dependencyIds), known);
    EmptyDifference(Elements(b.dependencyIds), known);
    assert [a, b][1..] == [b] && [b][1..] == [];
    assert AddFault(runs, known, [b]) == None;
  }

  lemma PairIsAdded(a: TaskRecord, b: TaskRecord)
    requires a.taskId != b.taskId && a.runId == b.runId == "r"
    requires Elements(a.dependencyIds) + Elements(b.dependencyIds) <= {a.taskId, b.taskId}
    ensures AddTasksStep(Holding([], map[]), [a, b]) ==
              (Holding([a.taskId, b.taskId], map[a.taskId := a, b.taskId := b]), Done)
  {
    var records := [a, b];
    assert TaskIds(records) == [a.taskId, b.taskId];
    assert Elements(TaskIds(records)) == {a.taskId, b.taskId};
    NoFaultInPair({"r"}, Elements(TaskIds(records)), a, b);
    BatchIsAdded(records);
    TasksOfPair(a, b);
  }

  lemma RunIsAdded()
    ensures CreateRunStep(EMPTY, "r") == (Holding([], map[]), Done)
  {
    assert EMPTY.runs + {"r"} == {"r"};
  }

  lemma HistoryStarts()
    ensures History([EMPTY], []) && FreshHistory([])
  {
  }

  lemma HistoryGoesOn(states: seq<Store>, cmds: seq<Command>, c: Command)
    requires History(states, cmds) && FreshHistory(cmds) && Indexed(states[|cmds|]) && AddsFresh(c)
    ensures History(states + [Apply(states[|cmds|], c).0], cmds + [c]) && FreshHistory(cmds + [c])
  {
    var states', cmds' := states + [Apply(states[|cmds|], c).0], cmds + [c];
    forall k: nat | k < |cmds'| ensures Happens(states', cmds', k) {
      if k < |cmds| {
        assert Happens(states, cmds, k);
        assert states'[k] == states[k] && states'[k + 1] == states[k + 1] && cmds'[k] == cmds[k];
      }
    }
  }

  /** A run is created first. */
  lemma FirstCall()
    ensures History([EMPTY, Holding([], map[])], [CreateRun("r")]) && FreshHistory([CreateRun("r")])
  {
    RunIsAdded();
    HistoryStarts();
    HistoryGoesOn([EMPTY], [], CreateRun("r"));
    assert [EMPTY] + [Holding([], map[])] == [EMPTY, Holding([], map[])] && [] + [CreateRun("r")] == [CreateRun("r")];
  }

  lemma SecondCall(records: seq<TaskRecord>, s: Store)
    requires AddTasksStep(Holding([], map[]), records) == (s, Done) && forall t :: t in records ==> Fresh(t)
    ensures History([EMPTY, Holding([], map[]), s], [CreateRun("r"), AddTasks(records)])
    ensures FreshHistory([CreateRun("r"), AddTasks(records)])
  {
    FirstCall();
    var states, cmds := [EMPTY, Holding([], map[])], [CreateRun("r")];
    HistoryGoesOn(states, cmds, AddTasks(records));
    assert states + [s] == [EMPTY, Holding([], map[]), s];
    assert cmds + [AddTasks(records)] == [CreateRun("r"), AddTasks(records)];
  }

  /** A batch of two tasks that depend on each other is accepted. */
  lemma CyclicBatchIsAccepted()
    ensures AddTasksStep(Holding([], map[]), CyclicBatch()) == (StoreWithCycle(), Done)
    ensures History([EMPTY, Holding([], map[]), StoreWithCycle()], [CreateRun("r"), AddTasks(CyclicBatch())])
    ensures FreshHistory([CreateRun("r"), AddTasks(CyclicBatch())])
  {
    var a, b := Waiting("a", ["b"]), Waiting("b", ["a"]);
    assert Elements(["b"]) == {"b"} && Elements(["a"]) == {"a"};
    PairIsAdded(a, b);
    SecondCall(CyclicBatch(), StoreWithCycle());
  }

  /** Both tasks of that batch are on a cycle. */
  lemma AcceptedTasksAreOnACycle()
    ensures OnCycle(TaskGraph(StoreWithCycle().tasks), "a") && OnCycle(TaskGraph(StoreWithCycle().tasks), "b")
  {
    var g := TaskGraph(StoreWithCycle().tasks);
    assert Elements(["b"]) == {"b"} && Elements(["a"]) == {"a"};
    assert g["a"] == {"b"} && g["b"] == {"a"};
    assert IsCycle(g, ["a", "b", "a"]) && IsCycle(g, ["b", "a", "b"]);
  }

  lemma OnCycleReachesIt(g: Graph, x: Id)
    requires OnCycle(g, x)
    ensures ReachesCycle(g, x)
  {
    assert IsPath(g, [x]);
  }

  lemma BothReachTheCycle()
    ensures forall x :: x in StoreWithCycle().tasks ==> ReachesCycle(TaskGraph(StoreWithCycle().tasks), x)
  {
    var g := TaskGraph(StoreWithCycle().tasks);
    AcceptedTasksAreOnACycle();
    OnCycleReachesIt(g, "a");
    OnCycleReachesIt(g, "b");
  }

  lemma AllWaitMeansStuck(states: seq<Store>, cmds: seq<Command>, s: Store,
                          workerId: Id, now: Time, leaseSeconds: int)
    requires History(states, cmds) && FreshHistory(cmds) && s == states[|cmds|]
    requires leaseSeconds >= 1 && Quiet(s.tasks, now)
    requires forall x :: x in s.tasks ==> ReachesCycle(TaskGraph(s.tasks), x)
    ensures Indexed(s) && !Apply(s, LeaseTask(workerId, now, leaseSeconds, None)).1.Granted?
  {
    QueueMovesExactly(states, cmds, workerId, now, leaseSeconds);
  }

  lemma CyclicQueueIsQuiet(now: Time)
    requires 0 <= now < 100 * SECOND
    ensures Quiet(StoreWithCycle().tasks, now)
  {
  }

  /** Nobody is ever offered either of them, although nothing has failed, is leased or has to wait. */
  lemma CyclicQueueIsStuck(workerId: Id, now: Time, leaseSeconds: int)
    requires leaseSeconds >= 1 && 0 <= now < 100 * SECOND
    ensures Quiet(StoreWithCycle().tasks, now) && Indexed(StoreWithCycle())
    ensures !Apply(StoreWithCycle(), LeaseTask(workerId, now, leaseSeconds, None)).1.Granted?
  {
    CyclicBatchIsAccepted();
    BothReachTheCycle();
    CyclicQueueIsQuiet(now);
    AllWaitMeansStuck([EMPTY, Holding([], map[]), StoreWithCycle()], [CreateRun("r"), AddTasks(CyclicBatch())],
                      StoreWithCycle(), workerId, now, leaseSeconds);
  }

  // ----- An expired lease -----

  /** No call grants a leased task, expired or not; it must be recovered first. */
  lemma LeasedIsNotOffered(s: Store, c: Command, t: Id)
    requires Indexed(s) && KeyedById(s.tasks) && t in s.tasks && s.tasks[t].state == Leased
    ensures !(Apply(s, c).1.Granted? && Apply(s, c).1.task.taskId == t)
  {
    GrantIsReplied(s, c, t);
    ChangeHappens(s, c, t);
  }

  function Lone(): TaskRecord {
    Waiting("a", [])
  }

  function OneTask(t: TaskRecord): Store {
    Holding(["a"], map["a" := t])
  }

  /** The task under a lease that ends after one second. */
  function HeldLone(): TaskRecord {
    WithLease(Lone(), "w", 0, 1)
  }

  lemma OneIsAdded(t: TaskRecord)
    requires t.taskId == "a" && t.runId == "r" && t.dependencyIds == []
    ensures AddTasksStep(Holding([], map[]), [t]) == (OneTask(t), Done)
  {
    var records := [t];
    assert TaskIds(records) == [t.taskId];
    assert records[1..] == [] && records[..0] == [];
    EmptyDifference(Elements(t.dependencyIds), Elements(TaskIds(records)));
    BatchIsAdded(records);
  }

  lemma LoneIsSelected(t: TaskRecord, now: Time)
    ensures Select(map["a" := t], ["a"], now, None) == if Leasable(map["a" := t], t, now, None) then Some("a") else None
  {
    assert ["a"][..0] == [] && Elements(["a"]) == {"a"};
  }

  lemma LoneIsLeased()
    ensures Indexed(OneTask(Lone())) && Indexed(OneTask(HeldLone()))
    ensures LeaseTaskStep(OneTask(Lone()), "w", 0, 1, None) == (OneTask(HeldLone()), Granted(HeldLone()))
  {
    assert Elements(["a"]) == {"a"};
    LoneIsSelected(Lone(), 0);
    assert OneTask(Lone()).tasks["a" := HeldLone()] == map["a" := HeldLone()];
  }

  /** The store with the leased task is reached by creating a run, adding the task and leasing it. */
  lemma LateHistory()
    ensures History([EMPTY, Holding([], map[]), OneTask(Lone()), OneTask(HeldLone())],
                    [CreateRun("r"), AddTasks([Lone()]), LeaseTask("w", 0, 1, None)])
  {
    OneIsAdded(Lone());
    SecondCall([Lone()], OneTask(Lone()));
    LoneIsLeased();
    var states, cmds := [EMPTY, Holding([], map[]), OneTask(Lone())], [CreateRun("r"), AddTasks([Lone()])];
    HistoryGoesOn(states, cmds, LeaseTask("w", 0, 1, None));
    assert states + [OneTask(HeldLone())] == [EMPTY, Holding([], map[]), OneTask(Lone()), OneTask(HeldLone())];
    assert cmds + [LeaseTask("w", 0, 1, None)] == [CreateRun("r"), AddTasks([Lone()]), LeaseTask("w", 0, 1, None)];
  }

  /** Ten seconds later the lease has expired. A lease call offers nothing; after a recovery it
      grants the task; and without one the first worker can still complete it. */
  lemma ExpiredLease()
    ensures Indexed(OneTask(HeldLone())) && HeldLone().state == Leased && HeldLone().leaseUntil == Some(1 * SECOND)
    ensures Apply(OneTask(HeldLone()), LeaseTask("v", 10 * SECOND, 1, None)) == (OneTask(HeldLone()), NoTask)
    ensures var recovered := Apply(OneTask(HeldLone()), RecoverLeases(10 * SECOND)).0;
            Indexed(recovered) && Apply(recovered, LeaseTask("v", 10 * SECOND, 1, None)).1.Granted?
    ensures Apply(OneTask(HeldLone()), CompleteTask("a", "w", 10 * SECOND)).1 == Done
  {
    LoneIsLeased();
    LoneIsSelected(HeldLone(), 10 * SECOND);
    var s := OneTask(HeldLone());
    var again := Recovered(HeldLone(), 10 * SECOND);
    assert Apply(s, RecoverLeases(10 * SECOND)).0.tasks == map["a" := again];
    LoneIsSelected(again, 10 * SECOND);
  }
}
