/** What every history of the task queue guarantees: dependency safety, bounded work, progress. */
module QueueProgress {
  import opened Common
  import opened Graphs
  import opened TaskStates
  import opened Repository
  import opened LeaseHistory

  ghost function TaskGraph(tasks: map<Id, TaskRecord>): Graph {
    map t | t in tasks :: Elements(tasks[t].dependencyIds)
  }

  // ----- Dependency safety -----

  /** A task that was ever started has all its transitive dependencies succeeded. */
  lemma {:induction false} TransitiveDependenciesSucceeded(s: Store, p: seq<Id>)
    requires Sound(s) && IsPath(TaskGraph(s.tasks), p) && |p| >= 2
    requires s.tasks[p[0]].attempt >= 1
    ensures s.tasks[p[|p| - 1]].state == Succeeded
  {
    var t, d := p[0], p[1];
    assert TaskOk(s.tasks, t, s.tasks[t]);
    assert d in TaskGraph(s.tasks)[t];
    assert s.tasks[d].state == Succeeded && TaskOk(s.tasks, d, s.tasks[d]);
    if |p| > 2 {
      var rest := p[1..];
      assert IsPath(TaskGraph(s.tasks), rest);
      TransitiveDependenciesSucceeded(s, rest);
    }
  }

  lemma {:induction false} DependenciesNeverChange(states: seq<Store>, cmds: seq<Command>, k: nat, n: nat, t: Id)
    requires History(states, cmds) && k <= n <= |cmds| && t in states[k].tasks
    ensures t in states[n].tasks && states[n].tasks[t].dependencyIds == states[k].tasks[t].dependencyIds
  {
    if k < n {
      DependenciesNeverChange(states, cmds, k, n - 1, t);
      TaskStays(states, cmds, n - 1, t);
    }
  }

  ghost predicate NeverStarted(tasks: map<Id, TaskRecord>, t: Id) {
    t in tasks ==> tasks[t].state == Pending && tasks[t].attempt == 0
  }

  /** One call cannot start a task with a dependency that was never started. */
  lemma NotStartedYet(states: seq<Store>, cmds: seq<Command>, k: nat, t: Id, d: Id)
    requires History(states, cmds) && FreshHistory(cmds) && k < |cmds|
    requires NeverStarted(states[k].tasks, t) && NeverStarted(states[k].tasks, d)
    requires t in states[k].tasks ==> d in states[k].tasks[t].dependencyIds
    ensures NeverStarted(states[k + 1].tasks, t)
  {
    assert Happens(states, cmds, k);
    if t in states[k].tasks {
      ChangeHappens(states[k], cmds[k], t);
    } else if t in states[k + 1].tasks {
      NewTaskIsFresh(states[k], cmds[k], t);
    }
  }

  lemma NewTaskIsFresh(s: Store, c: Command, t: Id)
    requires Indexed(s) && AddsFresh(c) && t !in s.tasks && t in Apply(s, c).0.tasks
    ensures c.AddTasks? && Fresh(Apply(s, c).0.tasks[t])
  {
    if c.AddTasks? {
      TasksWithKeys(s.tasks, c.records);
    } else {
      SameTasks(s, c);
    }
  }

  /** Tasks that wait for each other stay untouched in every state of the history. */
  lemma {:induction false} StuckTasksNeverStart(states: seq<Store>, cmds: seq<Command>, k: nat, stuck: set<Id>)
    requires History(states, cmds) && FreshHistory(cmds) && k <= |cmds|
    requires Stuck(TaskGraph(states[|cmds|].tasks), stuck)
    ensures forall t :: t in stuck ==> NeverStarted(states[k].tasks, t)
  {
    if k > 0 {
      StuckTasksNeverStart(states, cmds, k - 1, stuck);
      forall t | t in stuck
        ensures NeverStarted(states[k].tasks, t)
      {
        var d :| d in TaskGraph(states[|cmds|].tasks)[t] * stuck;
        if t in states[k - 1].tasks {
          DependenciesNeverChange(states, cmds, k - 1, |cmds|, t);
        }
        NotStartedYet(states, cmds, k - 1, t, d);
      }
    }
  }

  /** From t one gets to a cycle. */
  ghost predicate ReachesCycle(g: Graph, t: Id) {
    exists p :: IsPath(g, p) && p[0] == t && OnCycle(g, p[|p| - 1])
  }

  /** On the way to a cycle there is always a next dependency that gets there too. */
  lemma NextReachesCycle(g: Graph, t: Id) returns (d: Id)
    requires t in g && ReachesCycle(g, t)
    ensures d in g[t] && d in g && ReachesCycle(g, d)
  {
    var p :| IsPath(g, p) && p[0] == t && OnCycle(g, p[|p| - 1]);
    if |p| == 1 {
      var c :| IsCycle(g, c) && c[0] == t;
      d := c[1];
      assert IsPath(g, c[1..]) && c[1..][0] == d;
    } else {
      d := p[1];
      assert IsPath(g, p[1..]) && p[1..][0] == d;
    }
  }

  lemma DependentReachesCycle(g: Graph, t: Id, d: Id)
    requires t in g && d in g[t] && ReachesCycle(g, d)
    ensures ReachesCycle(g, t)
  {
    var p :| IsPath(g, p) && p[0] == d && OnCycle(g, p[|p| - 1]);
    EdgeThenPath(g, t, d, p);
    var q := [t] + p;
    assert q[|q| - 1] == p[|p| - 1] && q[0] == t;
  }

  lemma CycleReachersAreStuck(g: Graph)
    ensures Stuck(g, set t | t in g && ReachesCycle(g, t))
  {
    var s := set t | t in g && ReachesCycle(g, t);
    forall t | t in s ensures g[t] * s != {} {
      var d := NextReachesCycle(g, t);
      assert d in g[t] * s;
    }
  }

  /** add_tasks accepts cycles; whatever is on or downstream of one stays pending for ever. */
  lemma CyclesStayPending(states: seq<Store>, cmds: seq<Command>, t: Id)
    requires History(states, cmds) && FreshHistory(cmds)
    requires t in states[|cmds|].tasks && ReachesCycle(TaskGraph(states[|cmds|].tasks), t)
    ensures forall k :: 0 <= k <= |cmds| ==> NeverStarted(states[k].tasks, t)
  {
    var g := TaskGraph(states[|cmds|].tasks);
    CycleReachersAreStuck(g);
    forall k | 0 <= k <= |cmds|
      ensures NeverStarted(states[k].tasks, t)
    {
      StuckTasksNeverStart(states, cmds, k, set u | u in g && ReachesCycle(g, u));
    }
  }

  // ----- Bounded work -----

  /** Grants, recoveries and completions a task can still go through. */
  function WorkLeft(t: TaskRecord): int {
    if t.state == Leased then 2 * (t.maxAttempts - t.attempt) + 1
    else if t.state in {Pending, WaitingRetry} then 2 * (t.maxAttempts - t.attempt)
    else 0
  }

  ghost function TotalWork(tasks: map<Id, TaskRecord>, ids: seq<Id>): int
    requires Elements(ids) <= tasks.Keys
  {
    if ids == [] then 0
    else
      assert ids[0] in Elements(ids) && Elements(ids[1..]) <= Elements(ids);
      WorkLeft(tasks[ids[0]]) + TotalWork(tasks, ids[1..])
  }

  ghost function Budget(tasks: map<Id, TaskRecord>, ids: seq<Id>): int
    requires Elements(ids) <= tasks.Keys
  {
    if ids == [] then 0
    else
      assert ids[0] in Elements(ids) && Elements(ids[1..]) <= Elements(ids);
      2 * tasks[ids[0]].maxAttempts + Budget(tasks, ids[1..])
  }

  predicate IsTransition(change: Change) {
    change.Grant? || change.Recovery? || change.Completion?
  }

  /** How many of the listed tasks a call grants, recovers or completes. */
  ghost function Transitions(s: Store, c: Command, ids: seq<Id>): nat
    requires Indexed(s) && Elements(ids) <= s.tasks.Keys
  {
    if ids == [] then 0
    else
      assert ids[0] in Elements(ids) && Elements(ids[1..]) <= Elements(ids);
      (if IsTransition(ChangeOf(s, c, ids[0])) then 1 else 0) + Transitions(s, c, ids[1..])
  }

  /** Every transition uses up one unit of a task's work, and nothing gives any back. */
  lemma WorkShrinks(s: Store, c: Command, t: Id)
    requires Sound(s) && t in s.tasks
    ensures t in Apply(s, c).0.tasks && Apply(s, c).0.tasks[t].maxAttempts == s.tasks[t].maxAttempts
    ensures var step := if IsTransition(ChangeOf(s, c, t)) then 1 else 0;
            WorkLeft(Apply(s, c).0.tasks[t]) + step <= WorkLeft(s.tasks[t])
  {
    ChangeHappens(s, c, t);
    assert TaskOk(s.tasks, t, s.tasks[t]);
  }

  lemma {:induction false} TotalWorkShrinks(s: Store, c: Command, s': Store, ids: seq<Id>)
    requires Sound(s) && s' == Apply(s, c).0 && Elements(ids) <= s.tasks.Keys
    ensures Elements(ids) <= s'.tasks.Keys
    ensures TotalWork(s'.tasks, ids) + Transitions(s, c, ids) <= TotalWork(s.tasks, ids)
    ensures Budget(s'.tasks, ids) == Budget(s.tasks, ids)
  {
    if ids != [] {
      assert ids[0] in Elements(ids) && Elements(ids[1..]) <= Elements(ids);
      assert forall x :: x in Elements(ids) ==> x == ids[0] || x in Elements(ids[1..]);
      TotalWorkShrinks(s, c, s', ids[1..]);
      WorkShrinks(s, c, ids[0]);
    }
  }

  lemma {:induction false} WorkOfConcatenation(tasks: map<Id, TaskRecord>, a: seq<Id>, b: seq<Id>)
    requires Elements(a) <= tasks.Keys && Elements(b) <= tasks.Keys
    ensures Elements(a + b) <= tasks.Keys
    ensures TotalWork(tasks, a + b) == TotalWork(tasks, a) + TotalWork(tasks, b)
    ensures Budget(tasks, a + b) == Budget(tasks, a) + Budget(tasks, b)
  {
    ElementsOfSum(a, b);
    if a == [] {
      assert a + b == b;
    } else {
      assert (a + b)[1..] == a[1..] + b && (a + b)[0] == a[0];
      assert a[0] in Elements(a) && Elements(a[1..]) <= Elements(a);
      WorkOfConcatenation(tasks, a[1..], b);
    }
  }

  /** New tasks bring exactly their own budget of work. */
  lemma {:induction false} FreshWork(tasks: map<Id, TaskRecord>, ids: seq<Id>)
    requires Elements(ids) <= tasks.Keys && forall t :: t in ids ==> Fresh(tasks[t])
    ensures TotalWork(tasks, ids) == Budget(tasks, ids)
  {
    if ids != [] {
      assert ids[0] in Elements(ids) && Elements(ids[1..]) <= Elements(ids);
      FreshWork(tasks, ids[1..]);
    }
  }

  lemma AddedAreFresh(s: Store, records: seq<TaskRecord>)
    requires Indexed(s) && AddTasksStep(s, records).1 == Done && forall r :: r in records ==> Fresh(r)
    ensures forall t :: t in TaskIds(records) ==>
              t in AddTasksStep(s, records).0.tasks && Fresh(AddTasksStep(s, records).0.tasks[t])
  {
    TasksWithKeys(s.tasks, records);
    forall t | t in TaskIds(records)
      ensures t !in s.tasks && t in Elements(TaskIds(records))
    {
      assert t !in Elements(TaskIds(records)) * s.tasks.Keys;
    }
  }

  /** The tasks a call adds come last and are fresh. */
  lemma OrderGrows(s: Store, c: Command, s': Store) returns (added: seq<Id>)
    requires Indexed(s) && AddsFresh(c) && s' == Apply(s, c).0
    ensures Indexed(s') && s'.order == s.order + added
    ensures forall t :: t in added ==> t in s'.tasks && Fresh(s'.tasks[t])
  {
    ApplyKeepsIndex(s, c);
    if c.AddTasks? && Apply(s, c).1 == Done {
      added := TaskIds(c.records);
      AddedAreFresh(s, c.records);
    } else {
      added := [];
      if !c.AddTasks? {
        SameTasks(s, c);
      }
    }
  }

  lemma GrownWork(tasks: map<Id, TaskRecord>, order: seq<Id>, added: seq<Id>)
    requires Elements(order) <= tasks.Keys && Elements(order + added) <= tasks.Keys
    requires forall t :: t in added ==> t in tasks && Fresh(tasks[t])
    ensures TotalWork(tasks, order + added) - Budget(tasks, order + added)
         == TotalWork(tasks, order) - Budget(tasks, order)
  {
    ElementsOfSum(order, added);
    WorkOfConcatenation(tasks, order, added);
    FreshWork(tasks, added);
  }

  lemma WorkStep(s: Store, c: Command, s': Store)
    requires Sound(s) && AddsFresh(c) && s' == Apply(s, c).0
    ensures Indexed(s')
    ensures TotalWork(s'.tasks, s'.order) + Transitions(s, c, s.order) - Budget(s'.tasks, s'.order)
         <= TotalWork(s.tasks, s.order) - Budget(s.tasks, s.order)
  {
    var added := OrderGrows(s, c, s');
    TotalWorkShrinks(s, c, s', s.order);
    GrownWork(s'.tasks, s.order, added);
  }

  /** Transitions made by the first k calls. */
  ghost function TransitionsSoFar(states: seq<Store>, cmds: seq<Command>, k: nat): nat
    requires |states| == |cmds| + 1 && k <= |cmds| && forall i :: 0 <= i < k ==> Indexed(states[i])
  {
    if k == 0 then 0
    else TransitionsSoFar(states, cmds, k - 1) + Transitions(states[k - 1], cmds[k - 1], states[k - 1].order)
  }

  lemma WorkStepAt(states: seq<Store>, cmds: seq<Command>, k: nat)
    requires History(states, cmds) && FreshHistory(cmds) && k < |cmds| && Sound(states[k])
    ensures Indexed(states[k + 1])
    ensures TotalWork(states[k + 1].tasks, states[k + 1].order) + Transitions(states[k], cmds[k], states[k].order)
              - Budget(states[k + 1].tasks, states[k + 1].order)
         <= TotalWork(states[k].tasks, states[k].order) - Budget(states[k].tasks, states[k].order)
  {
    assert Happens(states, cmds, k);
    WorkStep(states[k], cmds[k], states[k + 1]);
  }

  lemma {:induction false} BoundedWorkSoFar(states: seq<Store>, cmds: seq<Command>, k: nat)
    requires History(states, cmds) && FreshHistory(cmds) && k <= |cmds|
    requires (forall i :: 0 <= i < k ==> Indexed(states[i])) && Indexed(states[k])
    ensures TransitionsSoFar(states, cmds, k) + TotalWork(states[k].tasks, states[k].order)
         <= Budget(states[k].tasks, states[k].order)
  {
    if k > 0 {
      assert Indexed(states[k - 1]);
      BoundedWorkSoFar(states, cmds, k - 1);
      AlwaysSound(states, cmds, k - 1);
      WorkStepAt(states, cmds, k - 1);
    }
  }

  /** All grants, recoveries and completions of a history together are at most twice the sum of
      the attempts its tasks allow. */
  lemma BoundedWork(states: seq<Store>, cmds: seq<Command>)
    requires History(states, cmds) && FreshHistory(cmds)
    ensures forall i :: 0 <= i < |states| ==> Indexed(states[i])
    ensures var last := states[|cmds|];
            Indexed(last) && TransitionsSoFar(states, cmds, |cmds|) <= Budget(last.tasks, last.order)
  {
    forall i | 0 <= i < |states|
      ensures Indexed(states[i])
    {
      LastIsIndexed(states, cmds, i);
    }
    AlwaysSound(states, cmds, |cmds|);
    BoundedWorkSoFar(states, cmds, |cmds|);
    WorkIsNatural(states[|cmds|], states[|cmds|].order);
  }

  lemma {:induction false} WorkIsNatural(s: Store, ids: seq<Id>)
    requires Sound(s) && Elements(ids) <= s.tasks.Keys
    ensures 0 <= TotalWork(s.tasks, ids)
  {
    if ids != [] {
      assert ids[0] in Elements(ids) && Elements(ids[1..]) <= Elements(ids);
      WorkIsNatural(s, ids[1..]);
      assert TaskOk(s.tasks, ids[0], s.tasks[ids[0]]);
    }
  }

  /** Attempts never exceed their limit, and a task that waits to be granted has one left. */
  lemma AttemptsAreBounded(states: seq<Store>, cmds: seq<Command>, k: nat, t: Id)
    requires History(states, cmds) && FreshHistory(cmds) && k <= |cmds| && t in states[k].tasks
    ensures states[k].tasks[t].attempt <= states[k].tasks[t].maxAttempts
    ensures states[k].tasks[t].state in {Pending, WaitingRetry} ==>
              states[k].tasks[t].attempt < states[k].tasks[t].maxAttempts
  {
    AlwaysSound(states, cmds, k);
    assert TaskOk(states[k].tasks, t, states[k].tasks[t]);
  }

  // ----- Progress -----

  /** The unfinished tasks that wait for no cycle. */
  ghost function OpenTasks(tasks: map<Id, TaskRecord>): set<Id> {
    set t | t in tasks && tasks[t].state != Succeeded && !ReachesCycle(TaskGraph(tasks), t)
  }

  lemma CycleReachesItself(g: Graph, c: seq<Id>)
    requires IsCycle(g, c)
    ensures ReachesCycle(g, c[0])
  {
    assert IsPath(g, [c[0]]) && OnCycle(g, c[0]);
  }

  lemma MinimalOpenTask(tasks: map<Id, TaskRecord>) returns (t: Id)
    requires exists x :: x in OpenTasks(tasks)
    ensures t in OpenTasks(tasks) && TaskGraph(tasks)[t] * OpenTasks(tasks) == {}
  {
    var g, open := TaskGraph(tasks), OpenTasks(tasks);
    if Stuck(g, open) {
      var c := StuckSetHasCycle(g, open);
      CycleReachesItself(g, c);
    }
    t :| t in open && g[t] * open == {};
  }

  lemma MinimalOpenTaskIsLeasable(s: Store, t: Id, now: Time)
    requires Sound(s) && t in OpenTasks(s.tasks) && s.tasks[t].state in {Pending, WaitingRetry}
    requires TaskGraph(s.tasks)[t] * OpenTasks(s.tasks) == {}
    requires s.tasks[t].availableAt <= now < s.tasks[t].deadline
    ensures Leasable(s.tasks, s.tasks[t], now, None)
  {
    var g := TaskGraph(s.tasks);
    assert TaskOk(s.tasks, t, s.tasks[t]);
    forall d | d in s.tasks[t].dependencyIds ensures d in s.tasks && s.tasks[d].state == Succeeded {
      assert d in g[t] && d !in g[t] * OpenTasks(s.tasks);
      if ReachesCycle(g, d) {
        DependentReachesCycle(g, t, d);
      }
    }
  }

  lemma LeasableMeansGranted(s: Store, workerId: Id, now: Time, leaseSeconds: int, t: Id)
    requires Indexed(s) && leaseSeconds >= 1 && t in s.tasks && Leasable(s.tasks, s.tasks[t], now, None)
    ensures Apply(s, LeaseTask(workerId, now, leaseSeconds, None)).1.Granted?
  {
    var i := SelectMeaning(s.tasks, s.order, now, None);
    assert t in Elements(s.order);
  }

  /** Nothing failed or leased, and everything available and before its deadline. */
  ghost predicate Quiet(tasks: map<Id, TaskRecord>, now: Time) {
    forall t :: t in tasks ==> tasks[t].state !in {Failed, Leased} && tasks[t].availableAt <= now < tasks[t].deadline
  }

  /** In a quiet queue an unfinished task that waits for no cycle makes the next lease call return a task. */
  lemma QueueIsNotStuck(s: Store, workerId: Id, now: Time, leaseSeconds: int, x: Id)
    requires Sound(s) && leaseSeconds >= 1 && Quiet(s.tasks, now)
    requires x in s.tasks && s.tasks[x].state != Succeeded && !ReachesCycle(TaskGraph(s.tasks), x)
    ensures Apply(s, LeaseTask(workerId, now, leaseSeconds, None)).1.Granted?
  {
    assert x in OpenTasks(s.tasks);
    var t := MinimalOpenTask(s.tasks);
    assert TaskOk(s.tasks, t, s.tasks[t]);
    MinimalOpenTaskIsLeasable(s, t, now);
    LeasableMeansGranted(s, workerId, now, leaseSeconds, t);
  }

  lemma CycleTaskIsPending(states: seq<Store>, cmds: seq<Command>, t: Id)
    requires History(states, cmds) && FreshHistory(cmds)
    requires t in states[|cmds|].tasks && ReachesCycle(TaskGraph(states[|cmds|].tasks), t)
    ensures states[|cmds|].tasks[t].state == Pending
  {
    CyclesStayPending(states, cmds, t);
    assert NeverStarted(states[|cmds|].tasks, t);
  }

  /** Whatever a lease call grants waits for no cycle. */
  lemma GrantedWaitsForNoCycle(states: seq<Store>, cmds: seq<Command>, workerId: Id, now: Time, leaseSeconds: int)
    returns (x: Id)
    requires History(states, cmds) && FreshHistory(cmds) && Indexed(states[|cmds|])
    requires Apply(states[|cmds|], LeaseTask(workerId, now, leaseSeconds, None)).1.Granted?
    ensures var tasks := states[|cmds|].tasks;
            x in tasks && tasks[x].state != Succeeded && !ReachesCycle(TaskGraph(tasks), x)
  {
    var s := states[|cmds|];
    var g := TaskGraph(s.tasks);
    var i := SelectMeaning(s.tasks, s.order, now, None);
    x := s.order[i];
    if ReachesCycle(g, x) {
      var d := NextReachesCycle(g, x);
      CycleTaskIsPending(states, cmds, d);
    }
  }

  /** In every reachable quiet queue a lease call returns a task exactly when some unfinished task
      waits for no cycle. */
  lemma QueueMovesExactly(states: seq<Store>, cmds: seq<Command>, workerId: Id, now: Time, leaseSeconds: int)
    requires History(states, cmds) && FreshHistory(cmds) && leaseSeconds >= 1 && Quiet(states[|cmds|].tasks, now)
    ensures Indexed(states[|cmds|])
    ensures var s := states[|cmds|];
            Apply(s, LeaseTask(workerId, now, leaseSeconds, None)).1.Granted? <==>
              exists x :: x in s.tasks && s.tasks[x].state != Succeeded && !ReachesCycle(TaskGraph(s.tasks), x)
  {
    var s := states[|cmds|];
    AlwaysSound(states, cmds, |cmds|);
    if x :| x in s.tasks && s.tasks[x].state != Succeeded && !ReachesCycle(TaskGraph(s.tasks), x) {
      QueueIsNotStuck(s, workerId, now, leaseSeconds, x);
    }
    if Apply(s, LeaseTask(workerId, now, leaseSeconds, None)).1.Granted? {
      var y := GrantedWaitsForNoCycle(states, cmds, workerId, now, leaseSeconds);
    }
  }
}
