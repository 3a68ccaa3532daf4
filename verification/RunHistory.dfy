/** Whole histories of the run table: which runs are known, and that every record belongs to one. */
module RunHistory {
  import opened Common
  import opened Graphs
  import opened Repository
  import opened LeaseHistory

  /** Every stored task and event names a known run. */
  ghost predicate RecordsHaveRuns(s: Store) {
    && (forall t :: t in s.tasks ==> s.tasks[t].runId in s.runs)
    && (forall e :: e in s.events ==> s.events[e].runId in s.runs)
  }

  lemma OnlyCreatingAddsRuns(s: Store, c: Command)
    requires Indexed(s)
    ensures Apply(s, c).0.runs == s.runs + if c.CreateRun? then {c.runId} else {}
  {
  }

  lemma TasksHaveRuns(s: Store, c: Command)
    requires Indexed(s) && RecordsHaveRuns(s)
    ensures forall t :: t in Apply(s, c).0.tasks ==> Apply(s, c).0.tasks[t].runId in Apply(s, c).0.runs
  {
    var s' := Apply(s, c).0;
    OnlyCreatingAddsRuns(s, c);
    forall t | t in s'.tasks ensures s'.tasks[t].runId in s'.runs {
      if t in s.tasks {
        ChangeHappens(s, c, t);
      } else if c.AddTasks? {
        TasksWithKeys(s.tasks, c.records);
        NoFaultMeans(s.runs, Elements(TaskIds(c.records)) + s.tasks.Keys, c.records);
      } else {
        SameTasks(s, c);
      }
    }
  }

  lemma EventHasARun(s: Store, c: Command, e: Id)
    requires Indexed(s) && RecordsHaveRuns(s) && e in Apply(s, c).0.events
    ensures Apply(s, c).0.events[e].runId in s.runs
  {
  }

  lemma EventsHaveRuns(s: Store, c: Command)
    requires Indexed(s) && RecordsHaveRuns(s)
    ensures forall e :: e in Apply(s, c).0.events ==> Apply(s, c).0.events[e].runId in Apply(s, c).0.runs
  {
    OnlyCreatingAddsRuns(s, c);
    forall e | e in Apply(s, c).0.events ensures Apply(s, c).0.events[e].runId in s.runs {
      EventHasARun(s, c, e);
    }
  }

  /** In every reachable store each task and each event belongs to a known run. */
  lemma {:induction false} EveryRecordHasARun(states: seq<Store>, cmds: seq<Command>, k: nat)
    requires History(states, cmds) && k <= |cmds|
    ensures RecordsHaveRuns(states[k])
  {
    if k > 0 {
      EveryRecordHasARun(states, cmds, k - 1);
      assert Happens(states, cmds, k - 1);
      TasksHaveRuns(states[k - 1], cmds[k - 1]);
      EventsHaveRuns(states[k - 1], cmds[k - 1]);
    }
  }

  ghost predicate CreatedBefore(cmds: seq<Command>, k: nat, runId: Id)
    requires k <= |cmds|
  {
    exists j :: 0 <= j < k && cmds[j] == CreateRun(runId)
  }

  /** The known runs are exactly those some earlier call asked to create. */
  lemma {:induction false} KnownRunsWereCreated(states: seq<Store>, cmds: seq<Command>, k: nat, runId: Id)
    requires History(states, cmds) && k <= |cmds|
    ensures runId in states[k].runs <==> CreatedBefore(cmds, k, runId)
  {
    if k > 0 {
      KnownRunsWereCreated(states, cmds, k - 1, runId);
      assert Happens(states, cmds, k - 1);
      OnlyCreatingAddsRuns(states[k - 1], cmds[k - 1]);
      if CreatedBefore(cmds, k - 1, runId) {
        var j :| 0 <= j < k - 1 && cmds[j] == CreateRun(runId);
        assert CreatedBefore(cmds, k, runId);
      }
    }
  }

  /** A run is created by the first call for it only; every later one raises and changes nothing. */
  lemma RunIsCreatedOnce(states: seq<Store>, cmds: seq<Command>, k: nat, runId: Id)
    requires History(states, cmds) && k < |cmds| && cmds[k] == CreateRun(runId)
    ensures Indexed(states[k])
    ensures var reply := Apply(states[k], cmds[k]).1;
            if CreatedBefore(cmds, k, runId) then reply == Raised(RunExists) && states[k + 1] == states[k]
            else reply == Done && states[k + 1] == states[k].(runs := states[k].runs + {runId})
  {
    LastIsIndexed(states, cmds, k);
    KnownRunsWereCreated(states, cmds, k, runId);
    assert Happens(states, cmds, k);
  }
}
