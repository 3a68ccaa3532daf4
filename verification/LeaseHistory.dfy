/** Whole histories of the task queue: what a sequence of calls can do to one task. */
module LeaseHistory {
  import opened Common
  import opened Graphs
  import opened TaskStates
  import opened Repository

  /** A task as it is created: the defaults of the record type. */
  predicate Fresh(t: TaskRecord) {
    && t.state == Pending && t.attempt == 0 && 1 <= t.maxAttempts
    && t.leaseOwner.None? && t.leaseUntil.None?
  }

  ghost predicate AddsFresh(c: Command) {
    c.AddTasks? ==> forall t :: t in c.records ==> Fresh(t)
  }

  ghost predicate FreshHistory(cmds: seq<Command>) {
    forall i :: 0 <= i < |cmds| ==> AddsFresh(cmds[i])
  }

  /** The instant a call was made with. */
  function Clock(c: Command): Option<Time> {
    match c
    case LeaseTask(_, now, _, _) => Some(now)
    case CompleteTask(_, _, now) => Some(now)
    case HeartbeatTask(_, _, now, _) => Some(now)
    case RecoverLeases(now) => Some(now)
    case CompleteWithOutbox(_, _, now, _, _) => Some(now)
    case LeaseOutbox(_, now, _, _) => Some(now)
    case MarkPublished(_, _, now) => Some(now)
    case _ => None
  }

  ghost predicate ClockNeverGoesBack(cmds: seq<Command>) {
    forall i, j :: 0 <= i < j < |cmds| && Clock(cmds[i]).Some? && Clock(cmds[j]).Some? ==>
      Clock(cmds[i]).value <= Clock(cmds[j]).value
  }

  /** Call number k leads from one store to the next. */
  ghost predicate Happens(states: seq<Store>, cmds: seq<Command>, k: nat)
    requires k < |cmds| && |states| == |cmds| + 1
  {
    Indexed(states[k]) && states[k + 1] == Apply(states[k], cmds[k]).0
  }

  /** Any sequence of calls on an empty repository, with the stores in between. */
  ghost predicate History(states: seq<Store>, cmds: seq<Command>) {
    && |states| == |cmds| + 1 && states[0] == EMPTY
    && forall k: nat {:trigger Happens(states, cmds, k)} :: k < |cmds| ==> Happens(states, cmds, k)
  }

  // ----- One call, one task -----

  datatype Change = Unchanged | Grant(workerId: Id, until: Time) | Renewal(until: Time) | Recovery | Completion

  /** What a call does to a stored task. */
  ghost function ChangeOf(s: Store, c: Command, t: Id): Change
    requires Indexed(s) && t in s.tasks
  {
    match c
    case LeaseTask(workerId, now, leaseSeconds, runFilter) =>
      if leaseSeconds >= 1 && Select(s.tasks, s.order, now, runFilter) == Some(t)
      then Grant(workerId, now + leaseSeconds * SECOND) else Unchanged
    case CompleteTask(taskId, workerId, now) =>
      if t == taskId && OwnsLease(s.tasks[t], workerId) then Completion else Unchanged
    case CompleteWithOutbox(taskId, workerId, now, event, row) =>
      if t == taskId && CompleteWithOutboxStep(s, taskId, workerId, now, event, row).1 == Done
      then Completion else Unchanged
    case HeartbeatTask(taskId, workerId, now, leaseSeconds) =>
      if leaseSeconds >= 1 && t == taskId && Renewable(s.tasks[t], workerId, now)
      then Renewal(now + leaseSeconds * SECOND) else Unchanged
    case RecoverLeases(now) => if Expired(s.tasks[t], now) then Recovery else Unchanged
    case _ => Unchanged
  }

  /** How the record of a task looks before and after a change. */
  ghost predicate Moves(c: Command, a: TaskRecord, b: TaskRecord, change: Change) {
    && b.taskId == a.taskId && b.runId == a.runId
    && b.dependencyIds == a.dependencyIds && b.maxAttempts == a.maxAttempts
    && match change
       case Unchanged => b == a
       case Grant(workerId, until) =>
         && c.LeaseTask? && a.state in {Pending, WaitingRetry}
         && b.state == Leased && b.leaseOwner == Some(workerId) && b.leaseUntil == Some(until)
         && b.attempt == a.attempt + 1
       case Renewal(until) =>
         && c.HeartbeatTask? && Renewable(a, c.workerId, c.now)
         && b.state == a.state && b.leaseOwner == a.leaseOwner && b.leaseUntil == Some(until)
         && b.attempt == a.attempt
       case Recovery =>
         && c.RecoverLeases? && Expired(a, c.now) && b.attempt == a.attempt
         && b.state == (if a.attempt >= a.maxAttempts then Failed else WaitingRetry)
         && b.leaseOwner.None? && b.leaseUntil.None?
       case Completion =>
         && a.state == Leased && b.state == Succeeded && b.attempt == a.attempt
         && b.leaseOwner.None? && b.leaseUntil.None?
  }

  /** The id at position i is leasable, nothing leasable is more urgent, and whatever is equally
      urgent comes later. */
  ghost predicate IsPick(tasks: map<Id, TaskRecord>, ids: seq<Id>, i: nat, now: Time, runFilter: Option<Id>)
    requires Elements(ids) <= tasks.Keys
  {
    && i < |ids| && ids[i] in tasks && Leasable(tasks, tasks[ids[i]], now, runFilter)
    && forall j :: 0 <= j < |ids| && j != i && ids[j] in tasks && Leasable(tasks, tasks[ids[j]], now, runFilter) ==>
         if j < i then MoreUrgent(tasks[ids[i]], tasks[ids[j]]) else !MoreUrgent(tasks[ids[j]], tasks[ids[i]])
  }

  lemma PickOneMore(tasks: map<Id, TaskRecord>, init: seq<Id>, id: Id, i: nat, now: Time, runFilter: Option<Id>)
    requires Elements(init) <= tasks.Keys && Elements(init + [id]) <= tasks.Keys && id in tasks
    requires IsPick(tasks, init, i, now, runFilter)
    ensures var better := Leasable(tasks, tasks[id], now, runFilter) && MoreUrgent(tasks[id], tasks[init[i]]);
            IsPick(tasks, init + [id], if better then |init| else i, now, runFilter)
  {
    var ids := init + [id];
    assert forall j :: 0 <= j < |init| ==> ids[j] == init[j];
    assert ids[|init|] == id;
  }

  /** The selection picks the most urgent leasable task, and nothing only if none is leasable. */
  lemma {:induction false} SelectMeaning(tasks: map<Id, TaskRecord>, ids: seq<Id>, now: Time, runFilter: Option<Id>)
    returns (i: nat)
    requires Elements(ids) <= tasks.Keys
    ensures var r := Select(tasks, ids, now, runFilter);
            && (r.Some? ==> IsPick(tasks, ids, i, now, runFilter) && ids[i] == r.value)
            && (r.None? ==> forall id :: id in ids ==> id in tasks && !Leasable(tasks, tasks[id], now, runFilter))
  {
    i := 0;
    if ids != [] {
      var init, id := ids[..|ids| - 1], ids[|ids| - 1];
      assert ids == init + [id];
      ElementsByLast(init, id);
      assert id in Elements(ids);
      i := SelectMeaning(tasks, init, now, runFilter);
      var best := Select(tasks, init, now, runFilter);
      if best.Some? {
        PickOneMore(tasks, init, id, i, now, runFilter);
        if MoreUrgent(tasks[id], tasks[best.value]) && Leasable(tasks, tasks[id], now, runFilter) {
          i := |init|;
        }
      } else {
        i := |init|;
        assert forall j :: 0 <= j < |init| ==> init[j] in init;
      }
    }
  }

  lemma AddingKeepsTask(s: Store, records: seq<TaskRecord>, t: Id)
    requires Indexed(s) && t in s.tasks
    ensures t in AddTasksStep(s, records).0.tasks && AddTasksStep(s, records).0.tasks[t] == s.tasks[t]
  {
    TasksWithKeys(s.tasks, records);
    if t in TaskIds(records) {
      assert t in Elements(TaskIds(records)) * s.tasks.Keys;
    }
  }

  lemma LeasingMovesTask(s: Store, c: Command, t: Id)
    requires Indexed(s) && t in s.tasks && c.LeaseTask?
    ensures t in Apply(s, c).0.tasks && Moves(c, s.tasks[t], Apply(s, c).0.tasks[t], ChangeOf(s, c, t))
    ensures ChangeOf(s, c, t).Grant? ==> DependenciesDone(s.tasks, s.tasks[t])
  {
    var i := SelectMeaning(s.tasks, s.order, c.now, c.runFilter);
  }

  lemma CompletingMovesTask(s: Store, c: Command, t: Id)
    requires Indexed(s) && t in s.tasks && c.CompleteWithOutbox?
    ensures t in Apply(s, c).0.tasks && Moves(c, s.tasks[t], Apply(s, c).0.tasks[t], ChangeOf(s, c, t))
  {
  }

  lemma ChangeHappens(s: Store, c: Command, t: Id)
    requires Indexed(s) && t in s.tasks
    ensures t in Apply(s, c).0.tasks
    ensures Moves(c, s.tasks[t], Apply(s, c).0.tasks[t], ChangeOf(s, c, t))
    ensures ChangeOf(s, c, t).Grant? ==> DependenciesDone(s.tasks, s.tasks[t])
  {
    match c {
      case AddTasks(records) => AddingKeepsTask(s, records, t);
      case LeaseTask(_, _, _, _) => LeasingMovesTask(s, c, t);
      case CompleteWithOutbox(_, _, _, _, _) => CompletingMovesTask(s, c, t);
      case _ =>
    }
  }

  ghost predicate KeyedById(tasks: map<Id, TaskRecord>) {
    forall id :: id in tasks ==> tasks[id].taskId == id
  }

  /** The reply tells the worker which task was granted, and to nobody else that it was. */
  lemma GrantIsReplied(s: Store, c: Command, t: Id)
    requires Indexed(s) && KeyedById(s.tasks)
    ensures Apply(s, c).1.Granted? && Apply(s, c).1.task.taskId == t <==>
              c.LeaseTask? && t in s.tasks && ChangeOf(s, c, t).Grant?
  {
  }

  // ----- Reachable stores -----

  ghost predicate TaskOk(tasks: map<Id, TaskRecord>, id: Id, t: TaskRecord) {
    && t.taskId == id
    && t.state in {Pending, Leased, WaitingRetry, Succeeded, Failed}
    && (forall d :: d in t.dependencyIds ==> d in tasks)
    && 1 <= t.maxAttempts && t.attempt <= t.maxAttempts
    && (t.state == Pending <==> t.attempt == 0)
    && (t.state in {Pending, WaitingRetry} ==> t.attempt < t.maxAttempts)
    && (t.state == Leased <==> t.leaseUntil.Some?) && (t.state == Leased <==> t.leaseOwner.Some?)
    && (t.attempt >= 1 ==> DependenciesDone(tasks, t))
  }

  ghost predicate Sound(s: Store) {
    && Indexed(s) && Distinct(s.order)
    && forall id :: id in s.tasks ==> TaskOk(s.tasks, id, s.tasks[id])
  }

  lemma OldTaskStaysOk(s: Store, c: Command, t: Id)
    requires Sound(s) && t in s.tasks
    ensures t in Apply(s, c).0.tasks && TaskOk(Apply(s, c).0.tasks, t, Apply(s, c).0.tasks[t])
  {
    var s' := Apply(s, c).0;
    ChangeHappens(s, c, t);
    var a, b := s.tasks[t], s'.tasks[t];
    forall d | d in a.dependencyIds
      ensures d in s'.tasks
      ensures s.tasks[d].state == Succeeded ==> s'.tasks[d].state == Succeeded
    {
      ChangeHappens(s, c, d);
    }
    assert b.attempt >= 1 ==> DependenciesDone(s.tasks, a);
  }

  lemma {:induction false} NoFaultMeans(runs: set<Id>, known: set<Id>, records: seq<TaskRecord>)
    requires AddFault(runs, known, records).None?
    ensures forall r :: r in records ==> r.runId in runs && forall d :: d in r.dependencyIds ==> d in known
  {
    if records != [] {
      NoFaultMeans(runs, known, records[1..]);
      EmptyDifference(Elements(records[0].dependencyIds), known);
      assert forall d :: d in records[0].dependencyIds ==> d in Elements(records[0].dependencyIds);
    }
  }

  lemma NewTaskIsOk(s: Store, c: Command, t: Id)
    requires Sound(s) && AddsFresh(c) && t !in s.tasks && t in Apply(s, c).0.tasks
    ensures TaskOk(Apply(s, c).0.tasks, t, Apply(s, c).0.tasks[t])
  {
    if !c.AddTasks? {
      SameTasks(s, c);
      assert false;
    }
    TasksWithKeys(s.tasks, c.records);
    NoFaultMeans(s.runs, Elements(TaskIds(c.records)) + s.tasks.Keys, c.records);
  }

  lemma AppendedDistinct(a: seq<Id>, b: seq<Id>)
    requires Distinct(a) && Distinct(b) && Elements(a) * Elements(b) == {}
    ensures Distinct(a + b)
  {
    forall i, j | 0 <= i < j < |a + b|
      ensures (a + b)[i] != (a + b)[j]
    {
      if i < |a| <= j {
        assert a[i] in Elements(a) && b[j - |a|] in Elements(b);
        assert b[j - |a|] !in Elements(a) * Elements(b);
      }
    }
  }

  lemma OrderStaysDistinct(s: Store, c: Command)
    requires Indexed(s) && Distinct(s.order)
    ensures Distinct(Apply(s, c).0.order)
  {
    if c.AddTasks? {
      DistinctSize(TaskIds(c.records));
      if Apply(s, c).1 == Done {
        AppendedDistinct(s.order, TaskIds(c.records));
      }
    } else {
      SameTasks(s, c);
    }
  }

  lemma SoundStep(s: Store, c: Command)
    requires Sound(s) && AddsFresh(c)
    ensures Sound(Apply(s, c).0)
  {
    ApplyKeepsIndex(s, c);
    OrderStaysDistinct(s, c);
    var s' := Apply(s, c).0;
    forall t | t in s'.tasks
      ensures TaskOk(s'.tasks, t, s'.tasks[t])
    {
      if t in s.tasks {
        OldTaskStaysOk(s, c, t);
      } else {
        NewTaskIsOk(s, c, t);
      }
    }
  }

  lemma SoundAfter(states: seq<Store>, cmds: seq<Command>, k: nat)
    requires History(states, cmds) && FreshHistory(cmds) && k < |cmds| && Sound(states[k])
    ensures Sound(states[k + 1])
  {
    assert Happens(states, cmds, k);
    SoundStep(states[k], cmds[k]);
  }

  /** Every store reached by calls that add only fresh tasks is sound. */
  lemma {:induction false} AlwaysSound(states: seq<Store>, cmds: seq<Command>, k: nat)
    requires History(states, cmds) && FreshHistory(cmds) && k <= |cmds|
    ensures Sound(states[k])
  {
    if k > 0 {
      AlwaysSound(states, cmds, k - 1);
      SoundAfter(states, cmds, k - 1);
    }
  }

  // ----- The life of one task -----

  /** Consecutive records of one task, the changes between them and the calls that made them. */
  ghost predicate Life(rs: seq<TaskRecord>, changes: seq<Change>, cs: seq<Command>) {
    && |rs| == |changes| + 1 == |cs| + 1
    && forall k: nat {:trigger changes[k]} :: k < |changes| ==> Moves(cs[k], rs[k], rs[k + 1], changes[k])
  }

  /** The end of the lease granted by change number 0, as promised by the calls up to k: the
      grant's own end, or that of the latest successful heartbeat. */
  ghost function Promised(changes: seq<Change>, k: nat): Time
    requires 0 < k <= |changes| && changes[0].Grant?
  {
    if k == 1 then changes[0].until
    else if changes[k - 1].Renewal? then changes[k - 1].until
    else Promised(changes, k - 1)
  }

  /** The task is held under the grant made by change number 0. */
  ghost predicate Held(rs: seq<TaskRecord>, changes: seq<Change>, k: nat)
    requires 0 < k <= |changes| == |rs| - 1 && changes[0].Grant?
  {
    && rs[k].state == Leased && rs[k].leaseOwner == Some(changes[0].workerId)
    && rs[k].attempt == rs[0].attempt + 1 && rs[k].leaseUntil == Some(Promised(changes, k))
  }

  lemma {:induction false} LifeStaysSucceeded(rs: seq<TaskRecord>, changes: seq<Change>, cs: seq<Command>,
                                              i: nat, k: nat)
    requires Life(rs, changes, cs) && i <= k < |rs| && rs[i].state == Succeeded
    ensures rs[k].state == Succeeded
  {
    if i < k {
      LifeStaysSucceeded(rs, changes, cs, i, k - 1);
      assert Moves(cs[k - 1], rs[k - 1], rs[k], changes[k - 1]);
    }
  }

  /** From a grant on, the task is held until it is recovered or completed. */
  lemma {:induction false} FollowGrant(rs: seq<TaskRecord>, changes: seq<Change>, cs: seq<Command>, k: nat)
    returns (r: nat)
    requires Life(rs, changes, cs) && 0 < k <= |changes| && changes[0].Grant?
    ensures 0 < r <= k && forall m :: 0 < m <= r ==> Held(rs, changes, m)
    ensures r < k ==> changes[r].Recovery? || (changes[r].Completion? && rs[k].state == Succeeded)
  {
    assert Moves(cs[k - 1], rs[k - 1], rs[k], changes[k - 1]);
    if k == 1 {
      r := 1;
    } else {
      r := FollowGrant(rs, changes, cs, k - 1);
      assert Held(rs, changes, r);
      if r == k - 1 && (changes[r].Unchanged? || changes[r].Renewal?) {
        r := k;
        assert Held(rs, changes, k);
      }
    }
  }

  /** A grant and a later moment at which the task can be granted again are separated by a
      recovery after the first lease ended. */
  lemma ExclusionInLife(rs: seq<TaskRecord>, changes: seq<Change>, cs: seq<Command>) returns (r: nat)
    requires Life(rs, changes, cs) && |changes| >= 1
    requires changes[0].Grant? && rs[|changes|].state in {Pending, WaitingRetry}
    ensures 0 < r < |changes| && changes[r].Recovery? && cs[r].RecoverLeases?
    ensures Promised(changes, r) < cs[r].now
    ensures forall m :: 0 < m <= r ==> Held(rs, changes, m)
  {
    r := FollowGrant(rs, changes, cs, |changes|);
    assert Held(rs, changes, r);
    assert Moves(cs[r], rs[r], rs[r + 1], changes[r]);
  }

  // ----- The life of one task in a history -----

  ghost function RecordsOf(states: seq<Store>, i: nat, j: nat, t: Id): (rs: seq<TaskRecord>)
    requires i <= j < |states| && forall k :: i <= k <= j ==> t in states[k].tasks
    ensures |rs| == j - i + 1 && forall m :: 0 <= m < |rs| ==> rs[m] == states[i + m].tasks[t]
  {
    seq(j - i + 1, m requires 0 <= m < j - i + 1 => states[i + m].tasks[t])
  }

  ghost function ChangesOf(states: seq<Store>, cmds: seq<Command>, i: nat, j: nat, t: Id): (changes: seq<Change>)
    requires |states| == |cmds| + 1 && i <= j <= |cmds|
    requires forall k :: i <= k <= j ==> Indexed(states[k]) && t in states[k].tasks
    ensures |changes| == j - i
    ensures forall m :: 0 <= m < |changes| ==> changes[m] == ChangeOf(states[i + m], cmds[i + m], t)
  {
    seq(j - i, m requires 0 <= m < j - i => ChangeOf(states[i + m], cmds[i + m], t))
  }

  lemma {:induction false} TasksStay(states: seq<Store>, cmds: seq<Command>, i: nat, k: nat, t: Id)
    requires History(states, cmds) && i <= k <= |cmds| && t in states[i].tasks
    ensures t in states[k].tasks
  {
    if i < k {
      TasksStay(states, cmds, i, k - 1, t);
      TaskStays(states, cmds, k - 1, t);
    }
  }

  lemma TaskStays(states: seq<Store>, cmds: seq<Command>, k: nat, t: Id)
    requires History(states, cmds) && k < |cmds| && t in states[k].tasks
    ensures t in states[k + 1].tasks && Indexed(states[k])
    ensures Moves(cmds[k], states[k].tasks[t], states[k + 1].tasks[t], ChangeOf(states[k], cmds[k], t))
  {
    assert Happens(states, cmds, k);
    ChangeHappens(states[k], cmds[k], t);
  }

  lemma LastIsIndexed(states: seq<Store>, cmds: seq<Command>, k: nat)
    requires History(states, cmds) && k <= |cmds|
    ensures Indexed(states[k])
  {
    if k > 0 {
      assert Happens(states, cmds, k - 1);
      ApplyKeepsIndex(states[k - 1], cmds[k - 1]);
    }
  }

  lemma LivesOn(states: seq<Store>, cmds: seq<Command>, i: nat, j: nat, t: Id)
    requires History(states, cmds) && i <= j <= |cmds| && t in states[i].tasks
    ensures forall k :: i <= k <= j ==> Indexed(states[k]) && t in states[k].tasks
    ensures Life(RecordsOf(states, i, j, t), ChangesOf(states, cmds, i, j, t), cmds[i..j])
  {
    forall k | i <= k <= j
      ensures Indexed(states[k]) && t in states[k].tasks
    {
      TasksStay(states, cmds, i, k, t);
      LastIsIndexed(states, cmds, k);
    }
    var rs, changes, cs := RecordsOf(states, i, j, t), ChangesOf(states, cmds, i, j, t), cmds[i..j];
    forall m: nat | m < |changes|
      ensures Moves(cs[m], rs[m], rs[m + 1], changes[m])
    {
      TaskStays(states, cmds, i + m, t);
      assert rs[m + 1] == states[i + m + 1].tasks[t];
    }
  }

  lemma KeysStay(s: Store, c: Command)
    requires Indexed(s) && KeyedById(s.tasks)
    ensures KeyedById(Apply(s, c).0.tasks)
  {
    var s' := Apply(s, c).0;
    forall id | id in s'.tasks ensures s'.tasks[id].taskId == id {
      if id in s.tasks {
        ChangeHappens(s, c, id);
      } else if c.AddTasks? {
        TasksWithKeys(s.tasks, c.records);
      } else {
        SameTasks(s, c);
      }
    }
  }

  lemma {:induction false} AlwaysKeyed(states: seq<Store>, cmds: seq<Command>, k: nat)
    requires History(states, cmds) && k <= |cmds|
    ensures KeyedById(states[k].tasks)
  {
    if k > 0 {
      AlwaysKeyed(states, cmds, k - 1);
      assert Happens(states, cmds, k - 1);
      KeysStay(states[k - 1], cmds[k - 1]);
    }
  }

  /** Call number k changes task t by a grant. */
  ghost predicate GrantChangeAt(states: seq<Store>, cmds: seq<Command>, k: nat, t: Id)
    requires |states| == |cmds| + 1
  {
    k < |cmds| && Indexed(states[k]) && t in states[k].tasks && ChangeOf(states[k], cmds[k], t).Grant?
  }

  /** Call number k replies to its worker that it has been granted task t. */
  ghost predicate GrantedAt(states: seq<Store>, cmds: seq<Command>, k: nat, t: Id)
    requires |states| == |cmds| + 1
  {
    && k < |cmds| && Indexed(states[k])
    && var reply := Apply(states[k], cmds[k]).1;
       reply.Granted? && reply.task.taskId == t
  }

  lemma GrantedMeansChange(states: seq<Store>, cmds: seq<Command>, k: nat, t: Id)
    requires History(states, cmds) && k < |cmds|
    ensures GrantedAt(states, cmds, k, t) <==> GrantChangeAt(states, cmds, k, t)
  {
    LastIsIndexed(states, cmds, k);
    AlwaysKeyed(states, cmds, k);
    GrantIsReplied(states[k], cmds[k], t);
  }

  /** In s the task is held under the grant made in s0. */
  ghost predicate HeldUnder(s0: Store, grant: Change, s: Store, t: Id) {
    && grant.Grant? && t in s0.tasks && t in s.tasks && s.tasks[t].state == Leased
    && s.tasks[t].leaseOwner == Some(grant.workerId)
    && s.tasks[t].attempt == s0.tasks[t].attempt + 1
  }

  lemma HeldInHistory(states: seq<Store>, i: nat, j: nat, m: nat, t: Id, changes: seq<Change>)
    requires i < m <= j < |states| && forall k :: i <= k <= j ==> t in states[k].tasks
    requires |changes| == j - i && changes[0].Grant? && Held(RecordsOf(states, i, j, t), changes, m - i)
    ensures HeldUnder(states[i], changes[0], states[m], t)
    ensures states[m].tasks[t].leaseUntil == Some(Promised(changes, m - i))
  {
    var rs := RecordsOf(states, i, j, t);
    assert rs[m - i] == states[i + (m - i)].tasks[t] && rs[0] == states[i + 0].tasks[t];
  }

  lemma HeldThroughout(states: seq<Store>, i: nat, j: nat, r: nat, t: Id, changes: seq<Change>)
    requires i < r <= j < |states| && forall k :: i <= k <= j ==> t in states[k].tasks
    requires |changes| == j - i && changes[0].Grant?
    requires forall m :: 0 < m <= r - i ==> Held(RecordsOf(states, i, j, t), changes, m)
    ensures forall m :: i < m <= r ==> HeldUnder(states[i], changes[0], states[m], t)
    ensures states[r].tasks[t].leaseUntil == Some(Promised(changes, r - i))
  {
    forall m | i < m <= r
      ensures HeldUnder(states[i], changes[0], states[m], t)
    {
      assert Held(RecordsOf(states, i, j, t), changes, m - i);
      HeldInHistory(states, i, j, m, t, changes);
    }
    assert Held(RecordsOf(states, i, j, t), changes, r - i);
    HeldInHistory(states, i, j, r, t, changes);
  }

  lemma ExclusionBetween(states: seq<Store>, i: nat, j: nat, t: Id, changes: seq<Change>, cs: seq<Command>)
    returns (r: nat)
    requires i < j < |states| && forall k :: i <= k <= j ==> t in states[k].tasks
    requires Life(RecordsOf(states, i, j, t), changes, cs) && changes[0].Grant?
    requires states[j].tasks[t].state in {Pending, WaitingRetry}
    ensures i < r < j && changes[r - i].Recovery? && cs[r - i].RecoverLeases?
    ensures states[r].tasks[t].leaseUntil == Some(Promised(changes, r - i))
    ensures Promised(changes, r - i) < cs[r - i].now
    ensures forall m :: i < m <= r ==> HeldUnder(states[i], changes[0], states[m], t)
  {
    var rs := RecordsOf(states, i, j, t);
    assert rs[j - i] == states[i + (j - i)].tasks[t];
    var x := ExclusionInLife(rs, changes, cs);
    r := i + x;
    HeldThroughout(states, i, j, r, t, changes);
  }

  lemma ExclusionOfChanges(states: seq<Store>, cmds: seq<Command>, i: nat, j: nat, t: Id) returns (r: nat)
    requires History(states, cmds) && ClockNeverGoesBack(cmds)
    requires i < j && GrantChangeAt(states, cmds, i, t) && GrantChangeAt(states, cmds, j, t)
    ensures forall k :: i <= k <= j ==> Indexed(states[k]) && t in states[k].tasks
    ensures var changes := ChangesOf(states, cmds, i, j, t);
            && i < r < j && cmds[r].RecoverLeases? && cmds[j].LeaseTask?
            && changes[0].Grant? && changes[r - i].Recovery?
            && states[r].tasks[t].leaseUntil == Some(Promised(changes, r - i))
            && Promised(changes, r - i) < cmds[r].now <= cmds[j].now
            && forall m :: i < m <= r ==> HeldUnder(states[i], changes[0], states[m], t)
  {
    LivesOn(states, cmds, i, j, t);
    TaskStays(states, cmds, j, t);
    var changes := ChangesOf(states, cmds, i, j, t);
    FirstChange(states, cmds, i, j, t);
    r := ExclusionBetween(states, i, j, t, changes, cmds[i..j]);
    ClockOrder(cmds, r, j);
  }

  /** Lease exclusion over whole histories: if two calls each reply that the same task is granted,
      then between them a call recovers it, at an instant strictly after the first grant's lease
      ended, all its heartbeats included, and not after the second grant. Until then the first
      worker holds it. */
  lemma LeaseExclusion(states: seq<Store>, cmds: seq<Command>, i: nat, j: nat, t: Id) returns (r: nat)
    requires History(states, cmds) && ClockNeverGoesBack(cmds)
    requires i < j && GrantedAt(states, cmds, i, t) && GrantedAt(states, cmds, j, t)
    ensures forall k :: i <= k <= j ==> Indexed(states[k]) && t in states[k].tasks
    ensures var changes := ChangesOf(states, cmds, i, j, t);
            && i < r < j && cmds[r].RecoverLeases? && cmds[j].LeaseTask?
            && changes[0].Grant? && changes[r - i].Recovery?
            && states[r].tasks[t].leaseUntil == Some(Promised(changes, r - i))
            && Promised(changes, r - i) < cmds[r].now <= cmds[j].now
            && forall m :: i < m <= r ==> HeldUnder(states[i], changes[0], states[m], t)
  {
    GrantedMeansChange(states, cmds, i, t);
    GrantedMeansChange(states, cmds, j, t);
    r := ExclusionOfChanges(states, cmds, i, j, t);
  }

  lemma FirstChange(states: seq<Store>, cmds: seq<Command>, i: nat, j: nat, t: Id)
    requires |states| == |cmds| + 1 && i < j <= |cmds|
    requires forall k :: i <= k <= j ==> Indexed(states[k]) && t in states[k].tasks
    ensures ChangesOf(states, cmds, i, j, t)[0] == ChangeOf(states[i], cmds[i], t)
  {
    assert ChangesOf(states, cmds, i, j, t)[0] == ChangeOf(states[i + 0], cmds[i + 0], t);
  }

  lemma ClockOrder(cmds: seq<Command>, r: nat, j: nat)
    requires ClockNeverGoesBack(cmds) && r < j < |cmds| && cmds[r].RecoverLeases? && cmds[j].LeaseTask?
    ensures cmds[r].now <= cmds[j].now
  {
    assert Clock(cmds[r]).Some? && Clock(cmds[j]).Some?;
  }

  /** Nothing is granted once it has succeeded. */
  lemma NoGrantAfterSuccess(states: seq<Store>, cmds: seq<Command>, i: nat, j: nat, t: Id)
    requires History(states, cmds) && i <= j < |cmds|
    requires t in states[i].tasks && states[i].tasks[t].state == Succeeded
    ensures t in states[j].tasks && states[j].tasks[t].state == Succeeded && !GrantedAt(states, cmds, j, t)
  {
    LivesOn(states, cmds, i, j, t);
    LifeStaysSucceeded(RecordsOf(states, i, j, t), ChangesOf(states, cmds, i, j, t), cmds[i..j], 0, j - i);
    TaskStays(states, cmds, j, t);
    GrantedMeansChange(states, cmds, j, t);
  }

  // ----- Completion by the worker of a grant -----

  predicate Ends(change: Change) {
    change.Recovery? || change.Completion?
  }

  lemma {:induction false} FreeUntilGranted(rs: seq<TaskRecord>, changes: seq<Change>, cs: seq<Command>,
                                            i: nat, k: nat)
    requires Life(rs, changes, cs) && i <= k < |rs| && rs[i].state != Leased
    requires forall m :: i <= m < k ==> !changes[m].Grant?
    ensures rs[k].state != Leased
  {
    if i < k {
      FreeUntilGranted(rs, changes, cs, i, k - 1);
      assert Moves(cs[k - 1], rs[k - 1], rs[k], changes[k - 1]);
    }
  }

  /** After its latest grant a task is leased exactly until it is recovered or completed. */
  lemma HeldUntilEnded(rs: seq<TaskRecord>, changes: seq<Change>, cs: seq<Command>)
    requires Life(rs, changes, cs) && |changes| >= 1 && changes[0].Grant?
    requires forall m :: 0 < m < |changes| ==> !changes[m].Grant?
    ensures rs[|changes|].state == Leased <==> forall m :: 0 < m < |changes| ==> !Ends(changes[m])
    ensures rs[|changes|].state == Leased ==> rs[|changes|].leaseOwner == Some(changes[0].workerId)
  {
    var k := |changes|;
    var r := FollowGrant(rs, changes, cs, k);
    assert Held(rs, changes, r);
    if r < k {
      assert Moves(cs[r], rs[r], rs[r + 1], changes[r]);
      FreeUntilGranted(rs, changes, cs, r + 1, k);
    } else {
      forall m | 0 < m < k ensures !Ends(changes[m]) {
        assert Held(rs, changes, m + 1);
        assert Moves(cs[m], rs[m], rs[m + 1], changes[m]);
      }
    }
  }

  lemma GrantsInBetween(states: seq<Store>, cmds: seq<Command>, i: nat, j: nat, t: Id)
    requires History(states, cmds) && i < j <= |cmds|
    requires forall k :: i <= k <= j ==> Indexed(states[k]) && t in states[k].tasks
    requires forall k :: i < k < j ==> !GrantedAt(states, cmds, k, t)
    ensures forall m :: 0 < m < j - i ==> !ChangesOf(states, cmds, i, j, t)[m].Grant?
  {
    var changes := ChangesOf(states, cmds, i, j, t);
    forall m | 0 < m < j - i ensures !changes[m].Grant? {
      GrantedMeansChange(states, cmds, i + m, t);
      assert !GrantedAt(states, cmds, i + m, t);
      assert changes[m] == ChangeOf(states[i + m], cmds[i + m], t);
    }
  }

  /** In the store before call j, the task is leased by the worker of its latest grant, or it has
      been recovered or completed. */
  lemma LeasedAfterGrant(states: seq<Store>, cmds: seq<Command>, i: nat, j: nat, t: Id)
    requires History(states, cmds) && i < j < |cmds| && GrantedAt(states, cmds, i, t)
    requires forall k :: i < k < j ==> !GrantedAt(states, cmds, k, t)
    ensures forall k :: i <= k <= j ==> Indexed(states[k]) && t in states[k].tasks
    ensures cmds[i].LeaseTask?
    ensures var record := states[j].tasks[t];
            && (record.state == Leased <==> forall m :: 0 < m < j - i ==> !Ends(ChangesOf(states, cmds, i, j, t)[m]))
            && (record.state == Leased ==> record.leaseOwner == Some(cmds[i].workerId))
  {
    GrantedMeansChange(states, cmds, i, t);
    LivesOn(states, cmds, i, j, t);
    FirstChange(states, cmds, i, j, t);
    GrantsInBetween(states, cmds, i, j, t);
    var rs := RecordsOf(states, i, j, t);
    HeldUntilEnded(rs, ChangesOf(states, cmds, i, j, t), cmds[i..j]);
    assert rs[j - i] == states[i + (j - i)].tasks[t];
  }

  /** complete_task succeeds exactly for the owner of the lease, whenever the lease ends. */
  lemma CompletionIsExact(s: Store, taskId: Id, workerId: Id, now: Time)
    ensures var (s', reply) := CompleteTaskStep(s, taskId, workerId, now);
            var owns :=
              && taskId in s.tasks && s.tasks[taskId].state == Leased
              && s.tasks[taskId].leaseOwner == Some(workerId);
            && (reply == Done <==> owns) && (!owns ==> reply.Raised? && s' == s)
            && (owns ==>
                  && s'.tasks.Keys == s.tasks.Keys && s' == s.(tasks := s'.tasks)
                  && s'.tasks[taskId].state == Succeeded
                  && s'.tasks[taskId].leaseOwner.None? && s'.tasks[taskId].leaseUntil.None?
                  && forall t :: t in s.tasks && t != taskId ==> s'.tasks[t] == s.tasks[t])
  {
  }

  /** The worker of the latest grant of a task completes it by any later call, its lease expired or
      not, exactly if since the grant no call recovered or completed the task. */
  lemma CompletionAfterGrant(states: seq<Store>, cmds: seq<Command>, i: nat, j: nat, t: Id, now: Time)
    requires History(states, cmds) && i < j < |cmds| && GrantedAt(states, cmds, i, t)
    requires forall k :: i < k < j ==> !GrantedAt(states, cmds, k, t)
    requires cmds[i].LeaseTask? && cmds[j] == CompleteTask(t, cmds[i].workerId, now)
    ensures forall k :: i <= k <= j ==> Indexed(states[k]) && t in states[k].tasks
    ensures Apply(states[j], cmds[j]).1 == Done <==>
              forall m :: 0 < m < j - i ==> !Ends(ChangesOf(states, cmds, i, j, t)[m])
  {
    LeasedAfterGrant(states, cmds, i, j, t);
    CompletionIsExact(states[j], t, cmds[i].workerId, now);
  }
}
