/** MemoryHarnessRepository: the lease queue, the event log and the transactional outbox.

    Every method of the repository holds one lock from start to end, so a call is one atomic
    step on the store. Apply is that step as a function of the store and the call; the class
    below performs it in place. Instants are microseconds. */
module Repository {
  import opened Common
  import opened Graphs
  import opened Ordering
  import opened TaskStates

  type Time = int
  const SECOND: Time := 1_000_000

  datatype TaskRecord = TaskRecord(
    taskId: Id, runId: Id, state: TaskState, dependencyIds: seq<Id>, priority: int,
    attempt: nat, maxAttempts: nat, availableAt: Time, deadline: Time,
    leaseOwner: Option<Id>, leaseUntil: Option<Time>, heartbeatAt: Option<Time>,
    lastErrorCode: Option<string>, createdAt: Time, updatedAt: Time)

  datatype EventRecord = EventRecord(
    eventId: Id, runId: Id, taskId: Option<Id>, idempotencyKey: string, payload: string, createdAt: Time)

  datatype OutboxRecord = OutboxRecord(
    outboxId: Id, eventId: Id, payload: string, availableAt: Time,
    leaseOwner: Option<Id>, leaseUntil: Option<Time>, attempt: nat, publishedAt: Option<Time>, createdAt: Time)

  datatype RepositoryError =
    | RunExists | DuplicateTaskIds | TaskExists | RunMissing(runId: Id) | DependenciesMissing(taskId: Id)
    | BadLeaseSeconds | UnknownTask | NotLeaseOwner | WrongEvent | WrongOutbox | KeyExists

  type EventKey = (Id, string)

  /** The dictionaries of the repository. A dictionary keeps its insertion order, which decides
      between equally urgent tasks, so the task ids are listed in that order. */
  datatype Store = Store(
    runs: set<Id>, order: seq<Id>, tasks: map<Id, TaskRecord>,
    events: map<Id, EventRecord>, eventKeys: set<EventKey>, outbox: map<Id, OutboxRecord>)

  const EMPTY := Store({}, [], map[], map[], {}, map[])

  datatype Command =
    | CreateRun(runId: Id)
    | AddTasks(records: seq<TaskRecord>)
    | LeaseTask(workerId: Id, now: Time, leaseSeconds: int, runFilter: Option<Id>)
    | CompleteTask(taskId: Id, workerId: Id, now: Time)
    | HeartbeatTask(taskId: Id, workerId: Id, now: Time, leaseSeconds: int)
    | RecoverLeases(now: Time)
    | AppendEvent(event: EventRecord)
    | AppendWithOutbox(event: EventRecord, row: OutboxRecord)
    | CompleteWithOutbox(taskId: Id, workerId: Id, now: Time, event: EventRecord, row: OutboxRecord)
    | LeaseOutbox(workerId: Id, now: Time, leaseSeconds: int, limit: int)
    | MarkPublished(outboxId: Id, workerId: Id, now: Time)

  datatype Reply =
    | Done
    | Raised(error: RepositoryError)
    | Granted(task: TaskRecord)
    | NoTask
    | Flag(value: bool)
    | Count(n: nat)
    | Rows(rows: seq<OutboxRecord>)

  function CreateRunStep(s: Store, runId: Id): (Store, Reply) {
    if runId in s.runs then (s, Raised(RunExists)) else (s.(runs := s.runs + {runId}), Done)
  }

  // ----- Tasks -----

  function TaskIds(records: seq<TaskRecord>): seq<Id> {
    seq(|records|, i requires 0 <= i < |records| => records[i].taskId)
  }

  /** The error of the first record with a missing run or missing dependencies. */
  function AddFault(runs: set<Id>, known: set<Id>, records: seq<TaskRecord>): Option<RepositoryError> {
    if records == [] then None
    else if records[0].runId !in runs then Some(RunMissing(records[0].runId))
    else if Elements(records[0].dependencyIds) - known != {} then Some(DependenciesMissing(records[0].taskId))
    else AddFault(runs, known, records[1..])
  }

  function TasksWith(tasks: map<Id, TaskRecord>, records: seq<TaskRecord>): map<Id, TaskRecord> {
    if records == [] then tasks
    else TasksWith(tasks, records[..|records| - 1])[records[|records| - 1].taskId := records[|records| - 1]]
  }

  function AddTasksStep(s: Store, records: seq<TaskRecord>): (Store, Reply) {
    var incoming := Elements(TaskIds(records));
    if |incoming| != |records| then (s, Raised(DuplicateTaskIds))
    else if incoming * s.tasks.Keys != {} then (s, Raised(TaskExists))
    else match AddFault(s.runs, incoming + s.tasks.Keys, records)
      case Some(e) => (s, Raised(e))
      case None => (s.(tasks := TasksWith(s.tasks, records), order := s.order + TaskIds(records)), Done)
  }

  predicate DependenciesDone(tasks: map<Id, TaskRecord>, t: TaskRecord) {
    forall d :: d in t.dependencyIds ==> d in tasks && tasks[d].state == Succeeded
  }

  /** The conditions a task must meet to be handed to a worker. */
  predicate Leasable(tasks: map<Id, TaskRecord>, t: TaskRecord, now: Time, runFilter: Option<Id>) {
    && (runFilter.None? || t.runId == runFilter.value)
    && t.state in {Pending, WaitingRetry}
    && t.availableAt <= now < t.deadline
    && (t.leaseUntil.None? || t.leaseUntil.value < now)
    && DependenciesDone(tasks, t)
  }

  /** Higher priority first, then the older task. */
  predicate MoreUrgent(a: TaskRecord, b: TaskRecord) {
    a.priority > b.priority || (a.priority == b.priority && a.createdAt < b.createdAt)
  }

  /** The most urgent leasable task; among equally urgent ones the first in the order given. */
  function Select(tasks: map<Id, TaskRecord>, ids: seq<Id>, now: Time, runFilter: Option<Id>): (r: Option<Id>)
    requires Elements(ids) <= tasks.Keys
    ensures r.Some? ==> r.value in ids
  {
    if ids == [] then None
    else
      var init, id := ids[..|ids| - 1], ids[|ids| - 1];
      assert ids == init + [id];
      var best := Select(tasks, init, now, runFilter);
      if Leasable(tasks, tasks[id], now, runFilter) && (best.None? || MoreUrgent(tasks[id], tasks[best.value]))
      then Some(id) else best
  }

  function WithLease(t: TaskRecord, workerId: Id, now: Time, leaseSeconds: int): TaskRecord {
    t.(state := Leased, leaseOwner := Some(workerId), leaseUntil := Some(now + leaseSeconds * SECOND),
       heartbeatAt := Some(now), attempt := t.attempt + 1, updatedAt := now)
  }

  function LeaseTaskStep(s: Store, workerId: Id, now: Time, leaseSeconds: int, runFilter: Option<Id>): (Store, Reply)
    requires Elements(s.order) == s.tasks.Keys
  {
    if leaseSeconds < 1 then (s, Raised(BadLeaseSeconds))
    else match Select(s.tasks, s.order, now, runFilter)
      case None => (s, NoTask)
      case Some(id) =>
        var leased := WithLease(s.tasks[id], workerId, now, leaseSeconds);
        (s.(tasks := s.tasks[id := leased]), Granted(leased))
  }

  predicate OwnsLease(t: TaskRecord, workerId: Id) {
    t.state == Leased && t.leaseOwner == Some(workerId)
  }

  function Finished(t: TaskRecord, now: Time): TaskRecord {
    t.(state := Succeeded, leaseOwner := None, leaseUntil := None, heartbeatAt := Some(now), updatedAt := now)
  }

  function CompleteTaskStep(s: Store, taskId: Id, workerId: Id, now: Time): (Store, Reply) {
    if taskId !in s.tasks then (s, Raised(UnknownTask))
    else if !OwnsLease(s.tasks[taskId], workerId) then (s, Raised(NotLeaseOwner))
    else (s.(tasks := s.tasks[taskId := Finished(s.tasks[taskId], now)]), Done)
  }

  predicate Renewable(t: TaskRecord, workerId: Id, now: Time) {
    && t.leaseOwner == Some(workerId)
    && t.state in {Leased, Running, WaitingTool}
    && t.leaseUntil.Some? && t.leaseUntil.value > now
  }

  function Renewed(t: TaskRecord, now: Time, leaseSeconds: int): TaskRecord {
    t.(heartbeatAt := Some(now), leaseUntil := Some(now + leaseSeconds * SECOND), updatedAt := now)
  }

  function HeartbeatStep(s: Store, taskId: Id, workerId: Id, now: Time, leaseSeconds: int): (Store, Reply) {
    if leaseSeconds < 1 then (s, Raised(BadLeaseSeconds))
    else if taskId !in s.tasks || !Renewable(s.tasks[taskId], workerId, now) then (s, Flag(false))
    else (s.(tasks := s.tasks[taskId := Renewed(s.tasks[taskId], now, leaseSeconds)]), Flag(true))
  }

  predicate Expired(t: TaskRecord, now: Time) {
    && t.state in {Leased, Running, WaitingTool, Validating}
    && t.leaseUntil.Some? && t.leaseUntil.value < now
  }

  function Recovered(t: TaskRecord, now: Time): TaskRecord {
    t.(state := if t.attempt >= t.maxAttempts then Failed else WaitingRetry,
       leaseOwner := None, leaseUntil := None, lastErrorCode := Some("lease_expired"), updatedAt := now)
  }

  function RecoverOne(t: TaskRecord, now: Time): TaskRecord {
    if Expired(t, now) then Recovered(t, now) else t
  }

  function ExpiredIds(tasks: map<Id, TaskRecord>, now: Time): set<Id> {
    set id | id in tasks && Expired(tasks[id], now)
  }

  function RecoverStep(s: Store, now: Time): (Store, Reply) {
    (s.(tasks := map id | id in s.tasks :: RecoverOne(s.tasks[id], now)), Count(|ExpiredIds(s.tasks, now)|))
  }

  // ----- Events and outbox -----

  function KeyOf(event: EventRecord): EventKey {
    (event.runId, event.idempotencyKey)
  }

  function StoreEvent(s: Store, event: EventRecord): Store {
    s.(eventKeys := s.eventKeys + {KeyOf(event)}, events := s.events[event.eventId := event])
  }

  function AppendEventStep(s: Store, event: EventRecord): (Store, Reply) {
    if KeyOf(event) in s.eventKeys then (s, Flag(false))
    else if event.runId !in s.runs then (s, Raised(RunMissing(event.runId)))
    else (StoreEvent(s, event), Flag(true))
  }

  function AppendWithOutboxStep(s: Store, event: EventRecord, row: OutboxRecord): (Store, Reply) {
    if KeyOf(event) in s.eventKeys then (s, Flag(false))
    else if event.runId !in s.runs then (s, Raised(RunMissing(event.runId)))
    else if row.eventId != event.eventId then (s, Raised(WrongOutbox))
    else (StoreEvent(s, event).(outbox := s.outbox[row.outboxId := row]), Flag(true))
  }

  function CompleteWithOutboxStep(s: Store, taskId: Id, workerId: Id, now: Time,
                                  event: EventRecord, row: OutboxRecord): (Store, Reply) {
    if taskId !in s.tasks then (s, Raised(UnknownTask))
    else if !OwnsLease(s.tasks[taskId], workerId) then (s, Raised(NotLeaseOwner))
    else if event.taskId != Some(taskId) || event.runId != s.tasks[taskId].runId then (s, Raised(WrongEvent))
    else if row.eventId != event.eventId then (s, Raised(WrongOutbox))
    else if KeyOf(event) in s.eventKeys then (s, Raised(KeyExists))
    else (StoreEvent(s, event).(tasks := s.tasks[taskId := Finished(s.tasks[taskId], now)],
                                outbox := s.outbox[row.outboxId := row]), Done)
  }

  predicate Due(row: OutboxRecord, now: Time) {
    && row.publishedAt.None?
    && row.availableAt <= now
    && (row.leaseUntil.None? || row.leaseUntil.value < now)
  }

  function DueIds(outbox: map<Id, OutboxRecord>, now: Time): set<Id> {
    set id | id in outbox && Due(outbox[id], now)
  }

  /** The order rows are published in: by age, then by id. */
  predicate Sooner(outbox: map<Id, OutboxRecord>, a: Id, b: Id)
    requires a in outbox && b in outbox
  {
    outbox[a].createdAt < outbox[b].createdAt || (outbox[a].createdAt == outbox[b].createdAt && Less(a, b))
  }

  lemma SoonerIsTotal(outbox: map<Id, OutboxRecord>, a: Id, b: Id)
    requires a in outbox && b in outbox
    ensures a == b || Sooner(outbox, a, b) || Sooner(outbox, b, a)
    ensures Sooner(outbox, a, b) ==> a != b && !Sooner(outbox, b, a)
  {
    LessTrichotomy(a, b);
  }

  ghost predicate IsSoonest(outbox: map<Id, OutboxRecord>, ids: set<Id>, m: Id)
    requires ids <= outbox.Keys
  {
    m in ids && forall x :: x in ids && x != m ==> Sooner(outbox, m, x)
  }

  /** One pass over a set of rows for the one to be published first. */
  method FindSoonest(outbox: map<Id, OutboxRecord>, ids: set<Id>) returns (m: Id)
    requires ids != {} && ids <= outbox.Keys
    ensures IsSoonest(outbox, ids, m)
  {
    m :| m in ids;
    var rest := ids - {m};
    while rest != {}
      invariant rest <= ids && m in ids - rest
      invariant IsSoonest(outbox, ids - rest, m)
      decreases |rest|
    {
      var x :| x in rest;
      SoonerIsTotal(outbox, x, m);
      if Sooner(outbox, x, m) {
        forall y | y in ids - rest && y != m
          ensures Sooner(outbox, x, y)
        {
          SoonerTransitive(outbox, x, m, y);
        }
        m := x;
      }
      rest := rest - {x};
    }
    assert ids - rest == ids;
  }

  lemma SoonerTransitive(outbox: map<Id, OutboxRecord>, a: Id, b: Id, c: Id)
    requires a in outbox && b in outbox && c in outbox
    requires Sooner(outbox, a, b) && Sooner(outbox, b, c)
    ensures Sooner(outbox, a, c)
  {
    if outbox[a].createdAt == outbox[c].createdAt {
      LessTransitive(a, b, c);
    }
  }

  lemma SoonestExists(outbox: map<Id, OutboxRecord>, ids: set<Id>)
    requires ids != {} && ids <= outbox.Keys
    ensures exists m :: IsSoonest(outbox, ids, m)
  {
    var x :| x in ids;
    var rest := ids - {x};
    assert forall y :: y in ids ==> y == x || y in rest;
    if rest == {} {
      assert IsSoonest(outbox, ids, x);
    } else {
      SoonestExists(outbox, rest);
      var m :| IsSoonest(outbox, rest, m);
      SoonerIsTotal(outbox, x, m);
      forall y | y in rest && y != m && Sooner(outbox, x, m)
        ensures Sooner(outbox, x, y)
      {
        SoonerTransitive(outbox, x, m, y);
      }
      assert IsSoonest(outbox, ids, if Sooner(outbox, x, m) then x else m);
    }
  }

  lemma SoonestIsUnique(outbox: map<Id, OutboxRecord>, ids: set<Id>, m: Id, n: Id)
    requires ids <= outbox.Keys && IsSoonest(outbox, ids, m) && IsSoonest(outbox, ids, n)
    ensures m == n
  {
    SoonerIsTotal(outbox, m, n);
  }

  ghost function Soonest(outbox: map<Id, OutboxRecord>, ids: set<Id>): (m: Id)
    requires ids != {} && ids <= outbox.Keys
    ensures IsSoonest(outbox, ids, m)
  {
    SoonestExists(outbox, ids);
    var m :| IsSoonest(outbox, ids, m); m
  }

  /** The first limit rows of the sorted due rows. */
  ghost function Batch(outbox: map<Id, OutboxRecord>, due: set<Id>, limit: nat): (ids: seq<Id>)
    requires due <= outbox.Keys
    ensures Elements(ids) <= due
  {
    if due == {} || limit == 0 then []
    else
      var m := Soonest(outbox, due);
      [m] + Batch(outbox, due - {m}, limit - 1)
  }

  /** The batch is sorted, as long as the limit allows, and nothing left out comes before it. */
  lemma {:induction false} BatchMeaning(outbox: map<Id, OutboxRecord>, due: set<Id>, limit: nat)
    requires due <= outbox.Keys
    ensures var ids := Batch(outbox, due, limit);
            && |ids| == (if |due| < limit then |due| else limit)
            && (forall i, j :: 0 <= i < j < |ids| ==> Sooner(outbox, ids[i], ids[j]))
            && (forall i, x :: 0 <= i < |ids| && x in due && x !in ids ==> Sooner(outbox, ids[i], x))
  {
    if due != {} && limit != 0 {
      var m := Soonest(outbox, due);
      BatchMeaning(outbox, due - {m}, limit - 1);
    }
  }

  function Claimed(row: OutboxRecord, workerId: Id, now: Time, leaseSeconds: int): OutboxRecord {
    row.(leaseOwner := Some(workerId), leaseUntil := Some(now + leaseSeconds * SECOND), attempt := row.attempt + 1)
  }

  function ClaimAll(outbox: map<Id, OutboxRecord>, ids: seq<Id>, workerId: Id, now: Time,
                    leaseSeconds: int): seq<OutboxRecord>
    requires Elements(ids) <= outbox.Keys
  {
    seq(|ids|, i requires 0 <= i < |ids| =>
      assert ids[i] in Elements(ids); Claimed(outbox[ids[i]], workerId, now, leaseSeconds))
  }

  ghost function LeaseOutboxStep(s: Store, workerId: Id, now: Time, leaseSeconds: int, limit: int): (Store, Reply) {
    if leaseSeconds < 1 || limit < 1 then (s, Raised(BadLeaseSeconds))
    else
      var ids := Batch(s.outbox, DueIds(s.outbox, now), limit);
      (s.(outbox := map id | id in s.outbox ::
            if id in ids then Claimed(s.outbox[id], workerId, now, leaseSeconds) else s.outbox[id]),
       Rows(ClaimAll(s.outbox, ids, workerId, now, leaseSeconds)))
  }

  predicate Markable(row: OutboxRecord, workerId: Id) {
    row.leaseOwner == Some(workerId) && row.publishedAt.None?
  }

  function Published(row: OutboxRecord, now: Time): OutboxRecord {
    row.(publishedAt := Some(now), leaseOwner := None, leaseUntil := None)
  }

  function MarkStep(s: Store, outboxId: Id, workerId: Id, now: Time): (Store, Reply) {
    if outboxId !in s.outbox || !Markable(s.outbox[outboxId], workerId) then (s, Flag(false))
    else (s.(outbox := s.outbox[outboxId := Published(s.outbox[outboxId], now)]), Flag(true))
  }

  // ----- One call -----

  /** The listed order names exactly the stored tasks. */
  ghost predicate Indexed(s: Store) {
    Elements(s.order) == s.tasks.Keys
  }

  ghost function Apply(s: Store, c: Command): (Store, Reply)
    requires Indexed(s)
  {
    match c
    case CreateRun(runId) => CreateRunStep(s, runId)
    case AddTasks(records) => AddTasksStep(s, records)
    case LeaseTask(workerId, now, leaseSeconds, runFilter) => LeaseTaskStep(s, workerId, now, leaseSeconds, runFilter)
    case CompleteTask(taskId, workerId, now) => CompleteTaskStep(s, taskId, workerId, now)
    case HeartbeatTask(taskId, workerId, now, leaseSeconds) => HeartbeatStep(s, taskId, workerId, now, leaseSeconds)
    case RecoverLeases(now) => RecoverStep(s, now)
    case AppendEvent(event) => AppendEventStep(s, event)
    case AppendWithOutbox(event, row) => AppendWithOutboxStep(s, event, row)
    case CompleteWithOutbox(taskId, workerId, now, event, row) =>
      CompleteWithOutboxStep(s, taskId, workerId, now, event, row)
    case LeaseOutbox(workerId, now, leaseSeconds, limit) => LeaseOutboxStep(s, workerId, now, leaseSeconds, limit)
    case MarkPublished(outboxId, workerId, now) => MarkStep(s, outboxId, workerId, now)
  }

  lemma {:induction false} TasksWithKeys(tasks: map<Id, TaskRecord>, records: seq<TaskRecord>)
    ensures TasksWith(tasks, records).Keys == tasks.Keys + Elements(TaskIds(records))
    ensures forall id :: id in tasks && id !in TaskIds(records) ==> TasksWith(tasks, records)[id] == tasks[id]
    ensures forall id :: id in TasksWith(tasks, records) && id !in tasks ==>
              TasksWith(tasks, records)[id] in records && TasksWith(tasks, records)[id].taskId == id
  {
    if records != [] {
      var init, last := records[..|records| - 1], records[|records| - 1];
      TasksWithKeys(tasks, init);
      ElementsByLast(TaskIds(init), last.taskId);
      assert TaskIds(records) == TaskIds(init) + [last.taskId];
    }
  }

  lemma ElementsOfSum<T>(a: seq<T>, b: seq<T>)
    ensures Elements(a + b) == Elements(a) + Elements(b)
  {
  }

  /** Only adding tasks changes which tasks there are. */
  lemma SameTasks(s: Store, c: Command)
    requires Indexed(s) && !c.AddTasks?
    ensures Apply(s, c).0.tasks.Keys == s.tasks.Keys
    ensures Apply(s, c).0.order == s.order
  {
  }

  lemma AddedTasks(s: Store, records: seq<TaskRecord>)
    requires Indexed(s)
    ensures Indexed(AddTasksStep(s, records).0)
  {
    TasksWithKeys(s.tasks, records);
    ElementsOfSum(s.order, TaskIds(records));
  }

  lemma ApplyKeepsIndex(s: Store, c: Command)
    requires Indexed(s)
    ensures Indexed(Apply(s, c).0)
  {
    if c.AddTasks? {
      AddedTasks(s, c.records);
    } else {
      SameTasks(s, c);
    }
  }

  /** All tasks but those still to be looked at have been recovered if expired. */
  ghost predicate RecoveredExcept(before: map<Id, TaskRecord>, tasks: map<Id, TaskRecord>, todo: set<Id>, now: Time) {
    && todo <= before.Keys && tasks.Keys == before.Keys
    && forall id :: id in before ==> tasks[id] == if id in todo then before[id] else RecoverOne(before[id], now)
  }

  lemma ExpiredOneMore(before: map<Id, TaskRecord>, tasks: map<Id, TaskRecord>, todo: set<Id>, now: Time, id: Id)
    requires RecoveredExcept(before, tasks, todo, now) && id in todo
    ensures RecoveredExcept(before, if Expired(tasks[id], now) then tasks[id := Recovered(tasks[id], now)] else tasks,
                            todo - {id}, now)
    ensures |ExpiredIds(before, now) - (todo - {id})|
         == |ExpiredIds(before, now) - todo| + if Expired(tasks[id], now) then 1 else 0
  {
    var due := ExpiredIds(before, now);
    if Expired(tasks[id], now) {
      assert due - (todo - {id}) == (due - todo) + {id};
    } else {
      assert due - (todo - {id}) == due - todo;
    }
  }

  lemma NothingRecovered(tasks: map<Id, TaskRecord>, now: Time)
    ensures RecoveredExcept(tasks, tasks, tasks.Keys, now) && |ExpiredIds(tasks, now) - tasks.Keys| == 0
  {
    assert ExpiredIds(tasks, now) - tasks.Keys == {};
  }

  lemma AllRecovered(s: Store, tasks: map<Id, TaskRecord>, now: Time)
    requires RecoveredExcept(s.tasks, tasks, {}, now)
    ensures RecoverStep(s, now) == (s.(tasks := tasks), Count(|ExpiredIds(s.tasks, now) - {}|))
  {
    assert ExpiredIds(s.tasks, now) - {} == ExpiredIds(s.tasks, now);
    assert tasks == map id | id in s.tasks :: RecoverOne(s.tasks[id], now);
  }

  /** The loop over the incoming records that looks for missing runs and dependencies. */
  method FindFault(runs: set<Id>, known: set<Id>, records: seq<TaskRecord>) returns (fault: Option<RepositoryError>)
    ensures fault == AddFault(runs, known, records)
  {
    for i := 0 to |records|
      invariant AddFault(runs, known, records) == AddFault(runs, known, records[i..])
    {
      if records[i].runId !in runs {
        return Some(RunMissing(records[i].runId));
      }
      if Elements(records[i].dependencyIds) - known != {} {
        return Some(DependenciesMissing(records[i].taskId));
      }
      assert records[i..][1..] == records[i + 1..];
    }
    fault := None;
  }

  /** The loop over the stored tasks that collects the candidates and keeps the most urgent. */
  method FindMostUrgent(tasks: map<Id, TaskRecord>, order: seq<Id>, now: Time, runFilter: Option<Id>)
    returns (best: Option<Id>)
    requires Elements(order) <= tasks.Keys
    ensures best == Select(tasks, order, now, runFilter)
  {
    best := None;
    for i := 0 to |order|
      invariant Elements(order[..i]) <= tasks.Keys
      invariant best == Select(tasks, order[..i], now, runFilter)
    {
      var id := order[i];
      assert id in Elements(order);
      ElementsByLast(order[..i], id);
      assert order[..i + 1] == order[..i] + [id];
      if Leasable(tasks, tasks[id], now, runFilter) && (best.None? || MoreUrgent(tasks[id], tasks[best.value])) {
        best := Some(id);
      }
    }
    assert order[..|order|] == order;
  }

  // ----- The repository object -----

  /** sorted(due)[:limit], by repeatedly taking the row that comes first. */
  method TakeBatch(outbox: map<Id, OutboxRecord>, due: set<Id>, limit: nat) returns (ids: seq<Id>)
    requires due <= outbox.Keys
    ensures ids == Batch(outbox, due, limit)
  {
    ids := [];
    var rest := due;
    while rest != {} && |ids| < limit
      invariant |ids| <= limit && rest <= due
      invariant Batch(outbox, due, limit) == ids + Batch(outbox, rest, limit - |ids|)
      decreases |rest|
    {
      var m := FindSoonest(outbox, rest);
      SoonestIsUnique(outbox, rest, m, Soonest(outbox, rest));
      assert ids + ([m] + Batch(outbox, rest - {m}, limit - |ids| - 1))
          == (ids + [m]) + Batch(outbox, rest - {m}, limit - |ids| - 1);
      ids, rest := ids + [m], rest - {m};
    }
  }

  class MemoryHarnessRepository {
    var runs: set<Id>
    var order: seq<Id>
    var tasks: map<Id, TaskRecord>
    var events: map<Id, EventRecord>
    var eventKeys: set<EventKey>
    var outbox: map<Id, OutboxRecord>

    ghost function State(): Store
      reads this
    {
      Store(runs, order, tasks, events, eventKeys, outbox)
    }

    ghost predicate Valid()
      reads this
    {
      Indexed(State())
    }

    constructor ()
      ensures State() == EMPTY && Valid()
    {
      runs, order, tasks := {}, [], map[];
      events, eventKeys, outbox := map[], {}, map[];
    }

    method CreateRun(runId: Id) returns (reply: Reply)
      requires Valid()
      modifies this
      ensures Valid() && (State(), reply) == CreateRunStep(old(State()), runId)
    {
      if runId in runs {
        return Raised(RunExists);
      }
      runs := runs + {runId};
      reply := Done;
    }

    method AddTasks(records: seq<TaskRecord>) returns (reply: Reply)
      requires Valid()
      modifies this
      ensures Valid() && (State(), reply) == AddTasksStep(old(State()), records)
    {
      AddedTasks(State(), records);
      var incoming := Elements(TaskIds(records));
      if |incoming| != |records| {
        return Raised(DuplicateTaskIds);
      }
      if incoming * tasks.Keys != {} {
        return Raised(TaskExists);
      }
      var fault := FindFault(runs, incoming + tasks.Keys, records);
      if fault.Some? {
        return Raised(fault.value);
      }
      order := order + TaskIds(records);
      tasks := TasksWith(tasks, records);
      reply := Done;
    }

    method LeaseNextTask(workerId: Id, now: Time, leaseSeconds: int, runFilter: Option<Id>) returns (reply: Reply)
      requires Valid()
      modifies this`tasks
      ensures Valid() && (State(), reply) == LeaseTaskStep(old(State()), workerId, now, leaseSeconds, runFilter)
    {
      if leaseSeconds < 1 {
        return Raised(BadLeaseSeconds);
      }
      var best := FindMostUrgent(tasks, order, now, runFilter);
      if best.None? {
        return NoTask;
      }
      var leased := WithLease(tasks[best.value], workerId, now, leaseSeconds);
      tasks := tasks[best.value := leased];
      assert tasks.Keys == old(tasks).Keys;
      reply := Granted(leased);
    }

    method CompleteTask(taskId: Id, workerId: Id, now: Time) returns (reply: Reply)
      requires Valid()
      modifies this`tasks
      ensures Valid() && (State(), reply) == CompleteTaskStep(old(State()), taskId, workerId, now)
    {
      if taskId !in tasks {
        return Raised(UnknownTask);
      }
      if !OwnsLease(tasks[taskId], workerId) {
        return Raised(NotLeaseOwner);
      }
      tasks := tasks[taskId := Finished(tasks[taskId], now)];
      assert tasks.Keys == old(tasks).Keys;
      reply := Done;
    }

    method HeartbeatTask(taskId: Id, workerId: Id, now: Time, leaseSeconds: int) returns (reply: Reply)
      requires Valid()
      modifies this`tasks
      ensures Valid()
      ensures (State(), reply) == HeartbeatStep(old(State()), taskId, workerId, now, leaseSeconds)
    {
      if leaseSeconds < 1 {
        return Raised(BadLeaseSeconds);
      }
      if taskId !in tasks || !Renewable(tasks[taskId], workerId, now) {
        return Flag(false);
      }
      tasks := tasks[taskId := Renewed(tasks[taskId], now, leaseSeconds)];
      assert tasks.Keys == old(tasks).Keys;
      reply := Flag(true);
    }

    method RecoverExpiredLeases(now: Time) returns (reply: Reply)
      requires Valid()
      modifies this`tasks
      ensures Valid() && (State(), reply) == RecoverStep(old(State()), now)
    {
      var recovered := RecoverEach(now);
      AllRecovered(old(State()), tasks, now);
      assert tasks.Keys == old(tasks).Keys;
      reply := Count(recovered);
    }

    /** The loop of the recovery. */
    method RecoverEach(now: Time) returns (recovered: nat)
      modifies this`tasks
      ensures RecoveredExcept(old(tasks), tasks, {}, now)
      ensures recovered == |ExpiredIds(old(tasks), now) - {}|
    {
      recovered := 0;
      var todo := tasks.Keys;
      NothingRecovered(tasks, now);
      while todo != {}
        invariant RecoveredExcept(old(tasks), tasks, todo, now)
        invariant recovered == |ExpiredIds(old(tasks), now) - todo|
        decreases |todo|
      {
        var id :| id in todo;
        ExpiredOneMore(old(tasks), tasks, todo, now, id);
        if Expired(tasks[id], now) {
          tasks := tasks[id := Recovered(tasks[id], now)];
          recovered := recovered + 1;
        }
        todo := todo - {id};
      }
    }

    method AppendEvent(event: EventRecord) returns (reply: Reply)
      requires Valid()
      modifies this`events, this`eventKeys
      ensures Valid() && (State(), reply) == AppendEventStep(old(State()), event)
    {
      if KeyOf(event) in eventKeys {
        return Flag(false);
      }
      if event.runId !in runs {
        return Raised(RunMissing(event.runId));
      }
      eventKeys, events := eventKeys + {KeyOf(event)}, events[event.eventId := event];
      reply := Flag(true);
    }

    method AppendEventWithOutbox(event: EventRecord, row: OutboxRecord) returns (reply: Reply)
      requires Valid()
      modifies this`events, this`eventKeys, this`outbox
      ensures Valid() && (State(), reply) == AppendWithOutboxStep(old(State()), event, row)
    {
      if KeyOf(event) in eventKeys {
        return Flag(false);
      }
      if event.runId !in runs {
        return Raised(RunMissing(event.runId));
      }
      if row.eventId != event.eventId {
        return Raised(WrongOutbox);
      }
      eventKeys, events := eventKeys + {KeyOf(event)}, events[event.eventId := event];
      outbox := outbox[row.outboxId := row];
      reply := Flag(true);
    }

    method CompleteTaskWithEventOutbox(taskId: Id, workerId: Id, now: Time, event: EventRecord, row: OutboxRecord)
      returns (reply: Reply)
      requires Valid()
      modifies this`tasks, this`events, this`eventKeys, this`outbox
      ensures Valid()
      ensures (State(), reply) == CompleteWithOutboxStep(old(State()), taskId, workerId, now, event, row)
    {
      if taskId !in tasks {
        return Raised(UnknownTask);
      }
      var task := tasks[taskId];
      if !OwnsLease(task, workerId) {
        return Raised(NotLeaseOwner);
      }
      if event.taskId != Some(taskId) || event.runId != task.runId {
        return Raised(WrongEvent);
      }
      if row.eventId != event.eventId {
        return Raised(WrongOutbox);
      }
      if KeyOf(event) in eventKeys {
        return Raised(KeyExists);
      }
      tasks := tasks[taskId := Finished(task, now)];
      eventKeys, events := eventKeys + {KeyOf(event)}, events[event.eventId := event];
      outbox := outbox[row.outboxId := row];
      assert tasks.Keys == old(tasks).Keys;
      reply := Done;
    }

    method LeaseOutbox(workerId: Id, now: Time, leaseSeconds: int, limit: int) returns (reply: Reply)
      requires Valid()
      modifies this`outbox
      ensures Valid() && (State(), reply) == LeaseOutboxStep(old(State()), workerId, now, leaseSeconds, limit)
    {
      if leaseSeconds < 1 || limit < 1 {
        return Raised(BadLeaseSeconds);
      }
      var ids := TakeBatch(outbox, DueIds(outbox, now), limit);
      var rows := ClaimAll(outbox, ids, workerId, now, leaseSeconds);
      outbox := map id | id in outbox ::
        if id in ids then Claimed(outbox[id], workerId, now, leaseSeconds) else outbox[id];
      reply := Rows(rows);
    }

    method MarkOutboxPublished(outboxId: Id, workerId: Id, now: Time) returns (reply: Reply)
      requires Valid()
      modifies this`outbox
      ensures Valid() && (State(), reply) == MarkStep(old(State()), outboxId, workerId, now)
    {
      if outboxId !in outbox || !Markable(outbox[outboxId], workerId) {
        return Flag(false);
      }
      outbox := outbox[outboxId := Published(outbox[outboxId], now)];
      reply := Flag(true);
    }
  }
}
