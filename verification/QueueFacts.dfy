/** What the calls on the task queue do, condition by condition and field by field. */
module QueueFacts {
  import opened Common
  import opened Graphs
  import opened TaskStates
  import opened Repository
  import opened LeaseHistory

  // ----- Leasing -----

  /** A task that waits to be handed out at this moment, of any run or of the one asked for. */
  ghost predicate Waits(s: Store, id: Id, now: Time, runFilter: Option<Id>) {
    && id in s.tasks
    && var t := s.tasks[id];
       && (t.state == Pending || t.state == WaitingRetry)
       && t.availableAt <= now && now < t.deadline
       && (t.leaseUntil.Some? ==> t.leaseUntil.value < now)
       && (runFilter.Some? ==> t.runId == runFilter.value)
       && forall d :: d in t.dependencyIds ==> d in s.tasks && s.tasks[d].state == TaskState.Succeeded
  }

  ghost predicate AddedBefore(s: Store, a: Id, b: Id) {
    exists i, j :: 0 <= i < j < |s.order| && s.order[i] == a && s.order[j] == b
  }

  /** The task has the higher priority, or the same and was created earlier, or is the same in both and was added
      first. */
  ghost predicate ComesBefore(s: Store, a: Id, b: Id)
    requires a in s.tasks && b in s.tasks
  {
    var t, u := s.tasks[a], s.tasks[b];
    || t.priority > u.priority
    || (t.priority == u.priority && t.createdAt < u.createdAt)
    || (t.priority == u.priority && t.createdAt == u.createdAt && AddedBefore(s, a, b))
  }

  lemma WaitingIsLeasable(s: Store, id: Id, now: Time, runFilter: Option<Id>)
    requires id in s.tasks
    ensures Waits(s, id, now, runFilter) <==> Leasable(s.tasks, s.tasks[id], now, runFilter)
  {
  }

  lemma PickComesBefore(s: Store, i: nat, j: nat, now: Time, runFilter: Option<Id>)
    requires Indexed(s) && IsPick(s.tasks, s.order, i, now, runFilter) && j < |s.order| && j != i
    requires s.order[j] in s.tasks && Leasable(s.tasks, s.tasks[s.order[j]], now, runFilter)
    ensures ComesBefore(s, s.order[i], s.order[j])
  {
    if i < j {
      assert AddedBefore(s, s.order[i], s.order[j]);
    }
  }

  /** A lease call hands out a waiting task that comes before every other waiting task, under a new lease and with
      one more attempt, and changes nothing else. It returns no task exactly if none waits. */
  lemma LeaseHandsOutTheFirst(s: Store, workerId: Id, now: Time, leaseSeconds: int, runFilter: Option<Id>)
    requires Indexed(s) && KeyedById(s.tasks) && leaseSeconds >= 1
    ensures var (s', reply) := Apply(s, LeaseTask(workerId, now, leaseSeconds, runFilter));
            match reply
            case NoTask => s' == s && forall id :: !Waits(s, id, now, runFilter)
            case Granted(t) =>
              && Waits(s, t.taskId, now, runFilter)
              && (forall id :: Waits(s, id, now, runFilter) && id != t.taskId ==> ComesBefore(s, t.taskId, id))
              && t == s.tasks[t.taskId].(state := Leased, leaseOwner := Some(workerId),
                                         leaseUntil := Some(now + leaseSeconds * 1_000_000), heartbeatAt := Some(now),
                                         attempt := s.tasks[t.taskId].attempt + 1, updatedAt := now)
              && s' == s.(tasks := s.tasks[t.taskId := t])
            case _ => false
  {
    var i := SelectMeaning(s.tasks, s.order, now, runFilter);
    var reply := Apply(s, LeaseTask(workerId, now, leaseSeconds, runFilter)).1;
    forall id | id in s.tasks
      ensures Waits(s, id, now, runFilter) <==> Leasable(s.tasks, s.tasks[id], now, runFilter)
      ensures id in s.order
    {
      WaitingIsLeasable(s, id, now, runFilter);
      assert id in Elements(s.order);
    }
    if reply.Granted? {
      var g := s.order[i];
      assert s.tasks[g].taskId == g;
      forall id | Waits(s, id, now, runFilter) && id != g ensures ComesBefore(s, g, id) {
        var j :| 0 <= j < |s.order| && s.order[j] == id;
        PickComesBefore(s, i, j, now, runFilter);
      }
    }
  }

  /** A lease must last at least a second. */
  lemma LeaseMustLast(s: Store, c: Command)
    requires Indexed(s) && (c.LeaseTask? || c.HeartbeatTask?)
    ensures Apply(s, c).1 == Raised(BadLeaseSeconds) <==> c.leaseSeconds < 1
    ensures c.leaseSeconds < 1 ==> Apply(s, c).0 == s
  {
  }

  // ----- Holding -----

  /** Of two tasks of different priority a lease call hands out the one with the higher. */
  lemma HigherPriorityFirst(s: Store, workerId: Id, now: Time, leaseSeconds: int, a: Id, b: Id)
    requires Indexed(s) && KeyedById(s.tasks) && leaseSeconds >= 1
    requires Waits(s, a, now, None) && Waits(s, b, now, None)
    requires s.tasks[a].priority > s.tasks[b].priority
    ensures var reply := Apply(s, LeaseTask(workerId, now, leaseSeconds, None)).1;
            reply.Granted? && reply.task.taskId != b && reply.task.priority >= s.tasks[a].priority
  {
    LeaseHandsOutTheFirst(s, workerId, now, leaseSeconds, None);
  }

  /** A heartbeat renews the lease exactly for the worker that holds it and before it ends; it changes nothing
      else. */
  lemma HeartbeatIsExact(s: Store, taskId: Id, workerId: Id, now: Time, leaseSeconds: int)
    requires Indexed(s) && leaseSeconds >= 1
    ensures var (s', reply) := Apply(s, HeartbeatTask(taskId, workerId, now, leaseSeconds));
            var holds :=
              && taskId in s.tasks && s.tasks[taskId].leaseOwner == Some(workerId)
              && (s.tasks[taskId].state == Leased || s.tasks[taskId].state == Running
                  || s.tasks[taskId].state == WaitingTool)
              && s.tasks[taskId].leaseUntil.Some? && now < s.tasks[taskId].leaseUntil.value;
            && reply == Flag(holds)
            && s' == if !holds then s
                     else s.(tasks := s.tasks[taskId := s.tasks[taskId].(
                               heartbeatAt := Some(now), leaseUntil := Some(now + leaseSeconds * 1_000_000),
                               updatedAt := now)])
  {
  }

  /** After the end of its lease, or from another worker, a heartbeat is refused. */
  lemma LateHeartbeatIsRefused(s: Store, taskId: Id, workerId: Id, now: Time, leaseSeconds: int)
    requires Sound(s) && leaseSeconds >= 1 && taskId in s.tasks && s.tasks[taskId].state == Leased
    requires s.tasks[taskId].leaseOwner != Some(workerId) || s.tasks[taskId].leaseUntil.value <= now
    requires s.tasks[taskId].leaseUntil.Some?
    ensures Apply(s, HeartbeatTask(taskId, workerId, now, leaseSeconds)) == (s, Flag(false))
  {
    HeartbeatIsExact(s, taskId, workerId, now, leaseSeconds);
  }

  // ----- Recovery -----

  ghost predicate LeaseEnded(t: TaskRecord, now: Time) {
    && (t.state == Leased || t.state == Running || t.state == WaitingTool || t.state == Validating)
    && t.leaseUntil.Some? && t.leaseUntil.value < now
  }

  /** A recovery gives up each task whose lease has ended, for good when its attempts are used up, leaves the others
      alone and counts what it gave up. */
  lemma RecoveryIsExact(s: Store, now: Time)
    requires Indexed(s)
    ensures var (s', reply) := Apply(s, RecoverLeases(now));
            && s' == s.(tasks := s'.tasks) && s'.tasks.Keys == s.tasks.Keys
            && reply == Count(|set id | id in s.tasks && LeaseEnded(s.tasks[id], now)|)
            && forall id :: id in s.tasks ==>
                 if LeaseEnded(s.tasks[id], now)
                 then s'.tasks[id] == s.tasks[id].(
                        state := if s.tasks[id].attempt >= s.tasks[id].maxAttempts then Failed else WaitingRetry,
                        leaseOwner := None, leaseUntil := None, lastErrorCode := Some("lease_expired"),
                        updatedAt := now)
                 else s'.tasks[id] == s.tasks[id]
  {
    assert (set id | id in s.tasks && LeaseEnded(s.tasks[id], now)) == ExpiredIds(s.tasks, now);
  }

  // ----- Completion -----

  /** A completed task keeps everything but its state, its lease and its instants. */
  lemma CompletedRecord(s: Store, taskId: Id, workerId: Id, now: Time)
    requires Indexed(s) && Apply(s, CompleteTask(taskId, workerId, now)).1 == Done
    ensures taskId in s.tasks && s.tasks[taskId].state == Leased && s.tasks[taskId].leaseOwner == Some(workerId)
    ensures Apply(s, CompleteTask(taskId, workerId, now)).0 ==
              s.(tasks := s.tasks[taskId := s.tasks[taskId].(
                   state := TaskState.Succeeded, leaseOwner := None, leaseUntil := None,
                   heartbeatAt := Some(now), updatedAt := now)])
  {
  }

  // ----- Adding -----

  ghost predicate DifferentIds(records: seq<TaskRecord>) {
    forall i, j :: 0 <= i < j < |records| ==> records[i].taskId != records[j].taskId
  }

  lemma IdsOfRecords(records: seq<TaskRecord>)
    ensures forall id :: id in Elements(TaskIds(records)) <==> exists q :: q in records && q.taskId == id
    ensures |Elements(TaskIds(records))| == |records| <==> DifferentIds(records)
  {
    var ids := TaskIds(records);
    DistinctSize(ids);
    forall id ensures id in Elements(ids) <==> exists q :: q in records && q.taskId == id {
      if id in ids {
        var i :| 0 <= i < |ids| && ids[i] == id;
        assert records[i] in records;
      }
      if q :| q in records && q.taskId == id {
        var i :| 0 <= i < |records| && records[i] == q;
        assert ids[i] == id;
      }
    }
    assert forall i :: 0 <= i < |ids| ==> ids[i] == records[i].taskId;
  }

  lemma {:induction false} FirstFault(runs: set<Id>, known: set<Id>, records: seq<TaskRecord>) returns (i: nat)
    ensures match AddFault(runs, known, records)
            case None =>
              forall r :: r in records ==> r.runId in runs && forall d :: d in r.dependencyIds ==> d in known
            case Some(e) =>
              && i < |records|
              && (forall r :: r in records[..i] ==> r.runId in runs && forall d :: d in r.dependencyIds ==> d in known)
              && (e == RunMissing(records[i].runId) <==> records[i].runId !in runs)
              && (records[i].runId in runs ==>
                    && e == DependenciesMissing(records[i].taskId)
                    && exists d :: d in records[i].dependencyIds && d !in known)
  {
    i := 0;
    if records != [] {
      var first := records[0];
      EmptyDifference(Elements(first.dependencyIds), known);
      assert forall d :: d in first.dependencyIds <==> d in Elements(first.dependencyIds);
      assert forall r :: r in records <==> r == first || r in records[1..];
      if first.runId in runs && Elements(first.dependencyIds) - known == {} {
        var j := FirstFault(runs, known, records[1..]);
        i := j + 1;
        assert j < |records[1..]| ==> forall r :: r in records[..i] <==> r == first || r in records[1..][..j];
      } else if first.runId in runs {
        var d :| d in Elements(first.dependencyIds) - known;
      }
    }
  }

  lemma {:induction false} RecordIsStored(tasks: map<Id, TaskRecord>, records: seq<TaskRecord>, i: nat)
    requires DifferentIds(records) && i < |records|
    ensures records[i].taskId in TasksWith(tasks, records) && TasksWith(tasks, records)[records[i].taskId] == records[i]
  {
    var n := |records| - 1;
    if i < n {
      RecordIsStored(tasks, records[..n], i);
    }
  }

  ghost predicate Fits(s: Store, records: seq<TaskRecord>, r: TaskRecord) {
    r.runId in s.runs && forall d :: d in r.dependencyIds ==> d in s.tasks || exists q :: q in records && q.taskId == d
  }

  lemma KnownIds(s: Store, records: seq<TaskRecord>, r: TaskRecord)
    ensures Fits(s, records, r) <==>
              r.runId in s.runs && forall d :: d in r.dependencyIds ==> d in Elements(TaskIds(records)) + s.tasks.Keys
  {
    IdsOfRecords(records);
  }

  lemma FirstMisfit(s: Store, records: seq<TaskRecord>) returns (i: nat)
    ensures match AddFault(s.runs, Elements(TaskIds(records)) + s.tasks.Keys, records)
            case None => forall r :: r in records ==> Fits(s, records, r)
            case Some(e) =>
              && i < |records| && !Fits(s, records, records[i])
              && (forall r :: r in records[..i] ==> Fits(s, records, r))
              && e == if records[i].runId in s.runs then DependenciesMissing(records[i].taskId)
                      else RunMissing(records[i].runId)
  {
    i := FirstFault(s.runs, Elements(TaskIds(records)) + s.tasks.Keys, records);
    forall r ensures Fits(s, records, r) <==>
        r.runId in s.runs && forall d :: d in r.dependencyIds ==> d in Elements(TaskIds(records)) + s.tasks.Keys
    {
      KnownIds(s, records, r);
    }
  }

  /** A batch is refused for a repeated id, then for an id already stored, then for its first record with an unknown
      run or an unknown dependency; a refused batch changes nothing, any other is added. */
  lemma AddingIsExact(s: Store, records: seq<TaskRecord>) returns (i: nat)
    requires Indexed(s)
    ensures var (s', reply) := Apply(s, AddTasks(records));
            && (reply != Done ==> s' == s)
            && if !DifferentIds(records) then reply == Raised(DuplicateTaskIds)
               else if exists r :: r in records && r.taskId in s.tasks then reply == Raised(TaskExists)
               else if forall r :: r in records ==> Fits(s, records, r) then reply == Done
               else
                 && i < |records| && !Fits(s, records, records[i])
                 && (forall r :: r in records[..i] ==> Fits(s, records, r))
                 && reply == Raised(if records[i].runId in s.runs then DependenciesMissing(records[i].taskId)
                                    else RunMissing(records[i].runId))
  {
    IdsOfRecords(records);
    NewIds(s, records);
    i := FirstMisfit(s, records);
    assert i < |records| ==> records[i] in records;
  }

  /** An added batch is stored record by record, after what was there, and nothing else changes. */
  lemma BatchIsStored(s: Store, records: seq<TaskRecord>)
    requires Indexed(s) && Apply(s, AddTasks(records)).1 == Done
    ensures var s' := Apply(s, AddTasks(records)).0;
            && s' == s.(tasks := s'.tasks, order := s'.order)
            && |s'.order| == |s.order| + |records| && s.order <= s'.order
            && (forall i :: 0 <= i < |records| ==> s'.order[|s.order| + i] == records[i].taskId)
            && (forall r :: r in records ==> r.taskId in s'.tasks && s'.tasks[r.taskId] == r)
            && (forall id :: id in s.tasks ==> id in s'.tasks && s'.tasks[id] == s.tasks[id])
            && (forall id :: id in s'.tasks ==> id in s.tasks || exists r :: r in records && r.taskId == id)
  {
    IdsOfRecords(records);
    NewIds(s, records);
    TableWithBatch(s.tasks, records);
  }

  lemma TableWithBatch(tasks: map<Id, TaskRecord>, records: seq<TaskRecord>)
    requires DifferentIds(records) && forall r :: r in records ==> r.taskId !in tasks
    ensures var after := TasksWith(tasks, records);
            && (forall r :: r in records ==> r.taskId in after && after[r.taskId] == r)
            && (forall id :: id in tasks ==> id in after && after[id] == tasks[id])
            && (forall id :: id in after ==> id in tasks || exists r :: r in records && r.taskId == id)
  {
    IdsOfRecords(records);
    TasksWithKeys(tasks, records);
    forall r | r in records ensures r.taskId in TasksWith(tasks, records) && TasksWith(tasks, records)[r.taskId] == r {
      var i :| 0 <= i < |records| && records[i] == r;
      RecordIsStored(tasks, records, i);
    }
  }

  lemma NewIds(s: Store, records: seq<TaskRecord>)
    ensures Elements(TaskIds(records)) * s.tasks.Keys == {} <==> forall r :: r in records ==> r.taskId !in s.tasks
  {
    IdsOfRecords(records);
    var both := Elements(TaskIds(records)) * s.tasks.Keys;
    if r :| r in records && r.taskId in s.tasks {
      assert r.taskId in both;
    }
    if id :| id in both {
      var q :| q in records && q.taskId == id;
    }
  }
}
