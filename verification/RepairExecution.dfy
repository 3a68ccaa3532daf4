/** TargetedRepairController.execute: running the handlers of a repair plan over a blackboard. */
module RepairExecution {
  import opened Common
  import opened Graphs
  import opened Repair
  import opened Blackboard

  datatype RepairContext = RepairContext(
    runId: Id, taskId: Id, revisionRound: nat, patches: seq<PatchRequest>, upstream: seq<Blackboard.ArtifactRef>)

  /** A handler sees only its context and does not write the board; None means that it raises. */
  type Handler = RepairContext -> Option<Blackboard.ArtifactRecord>

  datatype ExecuteError =
    | NotReady | MissingHandler(taskId: Id) | UnknownTask(taskId: Id) | MissingUpstream(dependency: Id)
    | HandlerRaised(taskId: Id) | WrongArtifact(taskId: Id) | WrongVersion(taskId: Id)
    | WriteRejected(error: BoardError)

  function UpstreamKey(runId: Id, dependency: Id): HeadKey {
    HeadKey(runId, dependency, if dependency in TASK_ARTIFACT_TYPES then TASK_ARTIFACT_TYPES[dependency] else "")
  }

  /** The reference of one dependency: the one published in this round, or else the latest stored. */
  function UpstreamRef(b: Blackboard.Board, runId: Id, published: map<Id, Blackboard.ArtifactRef>, d: Id)
    : Option<Blackboard.ArtifactRef>
  {
    if d in published then Some(published[d])
    else match Latest(b, UpstreamKey(runId, d))
      case None => None
      case Some(a) => Some(ToRef(a))
  }

  function Upstream(b: Blackboard.Board, runId: Id, published: map<Id, Blackboard.ArtifactRef>, deps: seq<Id>)
    : (r: Result<seq<Blackboard.ArtifactRef>, Id>)
    ensures r.Ok? ==> |r.value| == |deps|
                      && forall i :: 0 <= i < |deps| ==> UpstreamRef(b, runId, published, deps[i]) == Some(r.value[i])
    ensures r.Err? ==> r.error in deps && UpstreamRef(b, runId, published, r.error) == None
  {
    if deps == [] then Ok([])
    else
      var init, last := deps[..|deps| - 1], deps[|deps| - 1];
      match Upstream(b, runId, published, init)
      case Err(d) => Err(d)
      case Ok(refs) =>
        match UpstreamRef(b, runId, published, last)
        case None => Err(last)
        case Some(ref) => Ok(refs + [ref])
  }

  function PatchesFor(patches: seq<PatchRequest>, taskId: Id): seq<PatchRequest> {
    if patches == [] then []
    else if patches[0].targetAgent in AGENT_TASKS && AGENT_TASKS[patches[0].targetAgent] == taskId
    then [patches[0]] + PatchesFor(patches[1..], taskId)
    else PatchesFor(patches[1..], taskId)
  }

  function VersionOf(latest: Option<Blackboard.ArtifactRecord>): int {
    if latest.Some? then latest.value.version else 0
  }

  /** What running one task of the plan leads to: the artifact that is then written, or an error. */
  function RunTask(b: Blackboard.Board, plan: RepairPlan, handlers: map<Id, Handler>,
                   published: map<Id, Blackboard.ArtifactRef>, taskId: Id)
    : Result<Blackboard.ArtifactRecord, ExecuteError>
    requires plan.nextRound.Some?
  {
    if taskId !in handlers then Err(MissingHandler(taskId))
    else if taskId !in TASK_DEPENDENCIES then Err(UnknownTask(taskId))
    else match Upstream(b, plan.runId, published, TASK_DEPENDENCIES[taskId])
      case Err(d) => Err(MissingUpstream(d))
      case Ok(refs) =>
        var context := RepairContext(plan.runId, taskId, plan.nextRound.value, PatchesFor(plan.patches, taskId), refs);
        match handlers[taskId](context)
        case None => Err(HandlerRaised(taskId))
        case Some(a) =>
          if a.runId != plan.runId || a.taskId != taskId then Err(WrongArtifact(taskId))
          else
            var current := VersionOf(Latest(b, KeyOf(a)));
            if a.version != current + 1 then Err(WrongVersion(taskId))
            else match Write(b, a, current)
              case Err(e) => Err(WriteRejected(e))
              case Ok(_) => Ok(a)
  }

  /** The references published so far, by task. */
  function Refs(artifacts: seq<Blackboard.ArtifactRecord>): (m: map<Id, Blackboard.ArtifactRef>)
    ensures forall t :: t in m <==> exists i :: 0 <= i < |artifacts| && artifacts[i].taskId == t
  {
    if artifacts == [] then map[]
    else
      var init, last := artifacts[..|artifacts| - 1], artifacts[|artifacts| - 1];
      assert artifacts == init + [last];
      assert forall i :: 0 <= i < |init| ==> init[i] == artifacts[i];
      Refs(init)[last.taskId := ToRef(last)]
  }

  /** Running one task leads to this artifact, and writing it leads from b to b1. */
  ghost predicate Step(b: Blackboard.Board, b1: Blackboard.Board, plan: RepairPlan, handlers: map<Id, Handler>,
                       published: map<Id, Blackboard.ArtifactRef>, taskId: Id, artifact: Blackboard.ArtifactRecord)
    requires plan.nextRound.Some?
  {
    && RunTask(b, plan, handlers, published, taskId) == Ok(artifact)
    && Write(b, artifact, artifact.version - 1) == Ok(b1)
  }

  /** A run over the first tasks of the plan, with the boards before and after each write. */
  ghost predicate Executed(boards: seq<Blackboard.Board>, artifacts: seq<Blackboard.ArtifactRecord>,
                           plan: RepairPlan, handlers: map<Id, Handler>)
    requires plan.nextRound.Some?
  {
    && |boards| == |artifacts| + 1 && |artifacts| <= |plan.invalidated|
    && forall i :: 0 <= i < |artifacts| ==> StepAt(boards, artifacts, plan, handlers, i)
  }

  ghost predicate StepAt(boards: seq<Blackboard.Board>, artifacts: seq<Blackboard.ArtifactRecord>,
                         plan: RepairPlan, handlers: map<Id, Handler>, i: nat)
    requires plan.nextRound.Some? && |boards| == |artifacts| + 1 && i < |artifacts| <= |plan.invalidated|
  {
    Step(boards[i], boards[i + 1], plan, handlers, Refs(artifacts[..i]), plan.invalidated[i], artifacts[i])
  }

  lemma StepAtKept(boards: seq<Blackboard.Board>, artifacts: seq<Blackboard.ArtifactRecord>, plan: RepairPlan,
                   handlers: map<Id, Handler>, next: Blackboard.ArtifactRecord, b: Blackboard.Board, i: nat)
    requires plan.nextRound.Some? && |boards| == |artifacts| + 1 && i < |artifacts| < |plan.invalidated|
    requires StepAt(boards, artifacts, plan, handlers, i)
    ensures StepAt(boards + [b], artifacts + [next], plan, handlers, i)
  {
    var bs, arts := boards + [b], artifacts + [next];
    assert arts[..i] == artifacts[..i] && arts[i] == artifacts[i];
    assert bs[i] == boards[i] && bs[i + 1] == boards[i + 1];
  }

  lemma StepAtEnd(boards: seq<Blackboard.Board>, artifacts: seq<Blackboard.ArtifactRecord>, plan: RepairPlan,
                  handlers: map<Id, Handler>, next: Blackboard.ArtifactRecord, b: Blackboard.Board)
    requires plan.nextRound.Some? && |boards| == |artifacts| + 1 && |artifacts| < |plan.invalidated|
    requires Step(boards[|artifacts|], b, plan, handlers, Refs(artifacts), plan.invalidated[|artifacts|], next)
    ensures StepAt(boards + [b], artifacts + [next], plan, handlers, |artifacts|)
  {
    assert (artifacts + [next])[..|artifacts|] == artifacts;
  }

  lemma ExecutedOneMore(boards: seq<Blackboard.Board>, artifacts: seq<Blackboard.ArtifactRecord>,
                        plan: RepairPlan, handlers: map<Id, Handler>, next: Blackboard.ArtifactRecord,
                        b: Blackboard.Board)
    requires plan.nextRound.Some? && Executed(boards, artifacts, plan, handlers) && |artifacts| < |plan.invalidated|
    requires Step(boards[|artifacts|], b, plan, handlers, Refs(artifacts), plan.invalidated[|artifacts|], next)
    ensures Executed(boards + [b], artifacts + [next], plan, handlers)
  {
    StepAtEnd(boards, artifacts, plan, handlers, next, b);
    forall i | 0 <= i < |artifacts| ensures StepAt(boards + [b], artifacts + [next], plan, handlers, i) {
      StepAtKept(boards, artifacts, plan, handlers, next, b, i);
    }
  }

  /** The run so far leads from the first board to the present one and has published these references. */
  ghost predicate Progress(first: Blackboard.Board, boards: seq<Blackboard.Board>,
                           artifacts: seq<Blackboard.ArtifactRecord>, published: seq<Blackboard.ArtifactRef>,
                           plan: RepairPlan, handlers: map<Id, Handler>, now: Blackboard.Board)
    requires plan.nextRound.Some?
  {
    && Executed(boards, artifacts, plan, handlers)
    && boards[0] == first && boards[|artifacts|] == now
    && |published| == |artifacts| && forall j :: 0 <= j < |published| ==> published[j] == ToRef(artifacts[j])
  }

  lemma ProgressOneMore(first: Blackboard.Board, boards: seq<Blackboard.Board>,
                        artifacts: seq<Blackboard.ArtifactRecord>, published: seq<Blackboard.ArtifactRef>,
                        plan: RepairPlan, handlers: map<Id, Handler>, next: Blackboard.ArtifactRecord,
                        b: Blackboard.Board)
    requires plan.nextRound.Some? && |artifacts| < |plan.invalidated| && |boards| == |artifacts| + 1
    requires Progress(first, boards, artifacts, published, plan, handlers, boards[|artifacts|])
    requires Step(boards[|artifacts|], b, plan, handlers, Refs(artifacts), plan.invalidated[|artifacts|], next)
    ensures Progress(first, boards + [b], artifacts + [next], published + [ToRef(next)], plan, handlers, b)
  {
    ExecutedOneMore(boards, artifacts, plan, handlers, next, b);
  }

  /** The version a task's artifact must follow is the head of its key. */
  lemma RunTaskWrites(b: Blackboard.Board, plan: RepairPlan, handlers: map<Id, Handler>,
                      published: map<Id, Blackboard.ArtifactRef>, taskId: Id)
    requires Valid(b) && plan.nextRound.Some? && RunTask(b, plan, handlers, published, taskId).Ok?
    ensures var a := RunTask(b, plan, handlers, published, taskId).value;
            a.runId == plan.runId && a.taskId == taskId
            && a.version == Head(b, KeyOf(a)) + 1 && Write(b, a, a.version - 1).Ok?
  {
    var a := RunTask(b, plan, handlers, published, taskId).value;
    LatestVersionIsHead(b, KeyOf(a));
  }

  class TargetedRepairController {
    const blackboard: MemoryBlackboard

    constructor (blackboard: MemoryBlackboard)
      ensures this.blackboard == blackboard
    {
      this.blackboard := blackboard;
    }

    /** Runs the handler of one task and writes what it returns. */
    method Publish(plan: RepairPlan, handlers: map<Id, Handler>, published: map<Id, Blackboard.ArtifactRef>, taskId: Id)
      returns (r: Result<Blackboard.ArtifactRecord, ExecuteError>)
      requires Valid(blackboard.State()) && plan.nextRound.Some?
      modifies blackboard
      ensures Valid(blackboard.State())
      ensures r.Ok? ==> Step(old(blackboard.State()), blackboard.State(), plan, handlers, published, taskId, r.value)
      ensures r.Err? ==> blackboard.State() == old(blackboard.State())
                         && RunTask(blackboard.State(), plan, handlers, published, taskId) == r
    {
      var b := Board(blackboard.records, blackboard.order, blackboard.logical, blackboard.heads);
      r := RunTask(b, plan, handlers, published, taskId);
      if r.Ok? {
        RunTaskWrites(b, plan, handlers, published, taskId);
        var reference := blackboard.WriteArtifact(r.value, r.value.version - 1);
      }
    }

    /** Runs the tasks of the plan in order. Whatever the outcome, exactly the artifacts
        returned have been written, one for each task of a prefix of the plan. */
    method Execute(plan: RepairPlan, handlers: map<Id, Handler>)
      returns (r: Result<seq<Blackboard.ArtifactRef>, ExecuteError>, artifacts: seq<Blackboard.ArtifactRecord>,
               ghost boards: seq<Blackboard.Board>)
      requires Valid(blackboard.State())
      modifies blackboard
      ensures Valid(blackboard.State())
      ensures plan.status != Ready || plan.nextRound.None? ==>
                r == Err(NotReady) && artifacts == [] && blackboard.State() == old(blackboard.State())
      ensures plan.status == Ready && plan.nextRound.Some? ==>
                && Executed(boards, artifacts, plan, handlers)
                && boards[0] == old(blackboard.State()) && boards[|artifacts|] == blackboard.State()
                && match r
                   case Ok(refs) =>
                     && |refs| == |artifacts| == |plan.invalidated|
                     && forall i :: 0 <= i < |refs| ==> refs[i] == ToRef(artifacts[i])
                   case Err(e) =>
                     && |artifacts| < |plan.invalidated|
                     && RunTask(boards[|artifacts|], plan, handlers, Refs(artifacts), plan.invalidated[|artifacts|])
                        == Err(e)
    {
      artifacts, boards := [], [blackboard.State()];
      ghost var first := blackboard.State();
      if plan.status != Ready || plan.nextRound.None? {
        return Err(NotReady), artifacts, boards;
      }
      var published: seq<Blackboard.ArtifactRef> := [];
      for i := 0 to |plan.invalidated|
        invariant Valid(blackboard.State()) && |artifacts| == i
        invariant Progress(first, boards, artifacts, published, plan, handlers, blackboard.State())
      {
        var step := Publish(plan, handlers, Refs(artifacts), plan.invalidated[i]);
        if step.Err? {
          return Err(step.error), artifacts, boards;
        }
        ProgressOneMore(first, boards, artifacts, published, plan, handlers, step.value, blackboard.State());
        boards, artifacts := boards + [blackboard.State()], artifacts + [step.value];
        published := published + [ToRef(step.value)];
      }
      r := Ok(published);
    }
  }

  lemma LatestVersionIsHead(b: Blackboard.Board, key: HeadKey)
    requires Valid(b)
    ensures VersionOf(Latest(b, key)) == Head(b, key)
  {
    if key in b.heads {
      assert (key, b.heads[key]) in b.logical;
    }
  }

  // ----- What an execution guarantees -----

  /** A write leaves every other key alone. */
  lemma WriteLeavesOthers(b: Blackboard.Board, a: Blackboard.ArtifactRecord, expected: int, key: HeadKey)
    requires Valid(b) && Write(b, a, expected).Ok? && key != KeyOf(a)
    ensures var b' := Write(b, a, expected).value;
            Head(b', key) == Head(b, key) && Latest(b', key) == Latest(b, key)
  {
    if key in b.heads {
      assert (key, b.heads[key]) in b.logical;
    }
  }

  /** From b to b1 only the key of a changed, its head by one, and nothing stored was lost. */
  ghost predicate Bumps(b: Blackboard.Board, b1: Blackboard.Board, a: Blackboard.ArtifactRecord) {
    && Extends(b, b1)
    && a.version == Head(b, KeyOf(a)) + 1 == Head(b1, KeyOf(a))
    && forall key :: key != KeyOf(a) ==> Head(b1, key) == Head(b, key) && Latest(b1, key) == Latest(b, key)
  }

  lemma StepBumps(b: Blackboard.Board, b1: Blackboard.Board, plan: RepairPlan, handlers: map<Id, Handler>,
                  published: map<Id, Blackboard.ArtifactRef>, taskId: Id, a: Blackboard.ArtifactRecord)
    requires Valid(b) && plan.nextRound.Some? && Step(b, b1, plan, handlers, published, taskId, a)
    ensures a.runId == plan.runId && a.taskId == taskId
    ensures Valid(b1) && Bumps(b, b1, a)
  {
    RunTaskWrites(b, plan, handlers, published, taskId);
    WriteKeepsValid(b, a, a.version - 1);
    WriteExtends(b, a, a.version - 1);
    forall key | key != KeyOf(a)
      ensures Head(b1, key) == Head(b, key) && Latest(b1, key) == Latest(b, key)
    {
      WriteLeavesOthers(b, a, a.version - 1, key);
    }
  }

  /** Each artifact belongs to its task and bumps the board it was written to. */
  ghost predicate BumpsInTurn(boards: seq<Blackboard.Board>, artifacts: seq<Blackboard.ArtifactRecord>,
                              plan: RepairPlan) {
    && |boards| == |artifacts| + 1 && |artifacts| <= |plan.invalidated|
    && forall i {:trigger artifacts[i]} :: 0 <= i < |artifacts| ==>
         && artifacts[i].runId == plan.runId && artifacts[i].taskId == plan.invalidated[i]
         && Bumps(boards[i], boards[i + 1], artifacts[i])
  }

  lemma {:induction false} BoardsStayValid(boards: seq<Blackboard.Board>, artifacts: seq<Blackboard.ArtifactRecord>,
                                           plan: RepairPlan, handlers: map<Id, Handler>, k: nat)
    requires plan.nextRound.Some? && Executed(boards, artifacts, plan, handlers) && k <= |artifacts| && Valid(boards[0])
    ensures Valid(boards[k])
  {
    if k > 0 {
      BoardsStayValid(boards, artifacts, plan, handlers, k - 1);
      var a := artifacts[k - 1];
      assert StepAt(boards, artifacts, plan, handlers, k - 1);
      StepBumps(boards[k - 1], boards[k], plan, handlers, Refs(artifacts[..k - 1]), plan.invalidated[k - 1], a);
    }
  }

  lemma ExecutionBumps(boards: seq<Blackboard.Board>, artifacts: seq<Blackboard.ArtifactRecord>,
                       plan: RepairPlan, handlers: map<Id, Handler>)
    requires plan.nextRound.Some? && Executed(boards, artifacts, plan, handlers) && Valid(boards[0])
    ensures BumpsInTurn(boards, artifacts, plan)
  {
    forall i | 0 <= i < |artifacts|
      ensures artifacts[i].runId == plan.runId && artifacts[i].taskId == plan.invalidated[i]
      ensures Bumps(boards[i], boards[i + 1], artifacts[i])
    {
      BoardsStayValid(boards, artifacts, plan, handlers, i);
      assert StepAt(boards, artifacts, plan, handlers, i);
      StepBumps(boards[i], boards[i + 1], plan, handlers, Refs(artifacts[..i]), plan.invalidated[i], artifacts[i]);
    }
  }

  /** A key that no artifact of the range bears is as it was at the start of the range. */
  lemma {:induction false} KeyUntouched(boards: seq<Blackboard.Board>, artifacts: seq<Blackboard.ArtifactRecord>,
                                        plan: RepairPlan, i: nat, k: nat, key: HeadKey)
    requires BumpsInTurn(boards, artifacts, plan) && i <= k <= |artifacts|
    requires forall j :: i <= j < k ==> key != KeyOf(artifacts[j])
    ensures Head(boards[k], key) == Head(boards[i], key) && Latest(boards[k], key) == Latest(boards[i], key)
  {
    if i < k {
      KeyUntouched(boards, artifacts, plan, i, k - 1, key);
      assert Bumps(boards[k - 1], boards[k], artifacts[k - 1]);
    }
  }

  lemma {:induction false} NothingLost(boards: seq<Blackboard.Board>, artifacts: seq<Blackboard.ArtifactRecord>,
                                       plan: RepairPlan, k: nat)
    requires BumpsInTurn(boards, artifacts, plan) && k <= |artifacts|
    ensures Extends(boards[0], boards[k])
  {
    if k > 0 {
      NothingLost(boards, artifacts, plan, k - 1);
      assert Bumps(boards[k - 1], boards[k], artifacts[k - 1]);
    }
  }

  /** Whatever its outcome, an execution over a plan without repetition has published one
      version for each task of a prefix of the plan, in order, each following its head, and has
      left every other key and everything stored before untouched. */
  lemma ExecutionIsTargeted(boards: seq<Blackboard.Board>, artifacts: seq<Blackboard.ArtifactRecord>,
                            plan: RepairPlan, handlers: map<Id, Handler>)
    requires plan.nextRound.Some? && Executed(boards, artifacts, plan, handlers)
    requires Valid(boards[0]) && Distinct(plan.invalidated)
    ensures var last := boards[|artifacts|];
            && Extends(boards[0], last)
            && (forall i :: 0 <= i < |artifacts| ==>
                  && artifacts[i].runId == plan.runId && artifacts[i].taskId == plan.invalidated[i]
                  && artifacts[i].version == Head(last, KeyOf(artifacts[i]))
                  && artifacts[i].version == Head(boards[0], KeyOf(artifacts[i])) + 1)
            && (forall key :: (forall i :: 0 <= i < |artifacts| ==> key != KeyOf(artifacts[i])) ==>
                  Head(last, key) == Head(boards[0], key) && Latest(last, key) == Latest(boards[0], key))
  {
    var n := |artifacts|;
    ExecutionBumps(boards, artifacts, plan, handlers);
    NothingLost(boards, artifacts, plan, n);
    forall i | 0 <= i < n
      ensures artifacts[i].version == Head(boards[0], KeyOf(artifacts[i])) + 1 == Head(boards[n], KeyOf(artifacts[i]))
    {
      var key := KeyOf(artifacts[i]);
      KeyUntouched(boards, artifacts, plan, 0, i, key);
      KeyUntouched(boards, artifacts, plan, i + 1, n, key);
    }
    forall key | forall i :: 0 <= i < n ==> key != KeyOf(artifacts[i])
      ensures Head(boards[n], key) == Head(boards[0], key) && Latest(boards[n], key) == Latest(boards[0], key)
    {
      KeyUntouched(boards, artifacts, plan, 0, n, key);
    }
  }

  lemma {:induction false} RefsAt(artifacts: seq<Blackboard.ArtifactRecord>, j: nat)
    requires j < |artifacts|
    requires forall i :: 0 <= i < |artifacts| && i != j ==> artifacts[i].taskId != artifacts[j].taskId
    ensures artifacts[j].taskId in Refs(artifacts) && Refs(artifacts)[artifacts[j].taskId] == ToRef(artifacts[j])
  {
    var init := artifacts[..|artifacts| - 1];
    if j < |init| {
      assert init[j] == artifacts[j];
      RefsAt(init, j);
    }
  }

  /** A dependency repaired earlier in the round is seen as just published. */
  lemma RepairedDependencyIsFresh(b: Blackboard.Board, plan: RepairPlan, before: seq<Blackboard.ArtifactRecord>, j: nat)
    requires Distinct(plan.invalidated) && j < |before| <= |plan.invalidated|
    requires forall k :: 0 <= k < |before| ==> before[k].taskId == plan.invalidated[k]
    ensures UpstreamRef(b, plan.runId, Refs(before), plan.invalidated[j]) == Some(ToRef(before[j]))
  {
    RefsAt(before, j);
  }

  /** A dependency not repaired in the round is seen as it was latest before the round began. */
  lemma OtherDependencyIsUnchanged(boards: seq<Blackboard.Board>, artifacts: seq<Blackboard.ArtifactRecord>,
                                   plan: RepairPlan, i: nat, d: Id)
    requires BumpsInTurn(boards, artifacts, plan) && i <= |artifacts| && d !in plan.invalidated[..i]
    ensures UpstreamRef(boards[i], plan.runId, Refs(artifacts[..i]), d) == UpstreamRef(boards[0], plan.runId, map[], d)
  {
    forall j | 0 <= j < i
      ensures artifacts[j].taskId != d
    {
      assert plan.invalidated[j] in plan.invalidated[..i];
    }
    KeyUntouched(boards, artifacts, plan, 0, i, UpstreamKey(plan.runId, d));
  }

  lemma FreshRefs(boards: seq<Blackboard.Board>, artifacts: seq<Blackboard.ArtifactRecord>, plan: RepairPlan,
                  i: nat, d: Id)
    requires BumpsInTurn(boards, artifacts, plan) && Distinct(plan.invalidated) && i <= |artifacts|
    ensures var seen := UpstreamRef(boards[i], plan.runId, Refs(artifacts[..i]), d);
            && (forall j :: 0 <= j < i && plan.invalidated[j] == d ==> seen == Some(ToRef(artifacts[j])))
            && (d !in plan.invalidated[..i] ==> seen == UpstreamRef(boards[0], plan.runId, map[], d))
  {
    forall j | 0 <= j < i && plan.invalidated[j] == d
      ensures UpstreamRef(boards[i], plan.runId, Refs(artifacts[..i]), d) == Some(ToRef(artifacts[j]))
    {
      RepairedDependencyIsFresh(boards[i], plan, artifacts[..i], j);
    }
    if d !in plan.invalidated[..i] {
      OtherDependencyIsUnchanged(boards, artifacts, plan, i, d);
    }
  }

  /** A handler gets, for a dependency repaired earlier in the round, the reference just
      published, and for any other dependency what was latest before the round began. */
  lemma HandlersSeeFreshRefs(boards: seq<Blackboard.Board>, artifacts: seq<Blackboard.ArtifactRecord>,
                             plan: RepairPlan, handlers: map<Id, Handler>, i: nat, d: Id)
    requires plan.nextRound.Some? && Executed(boards, artifacts, plan, handlers)
    requires Valid(boards[0]) && Distinct(plan.invalidated) && i <= |artifacts|
    ensures var seen := UpstreamRef(boards[i], plan.runId, Refs(artifacts[..i]), d);
            && (forall j :: 0 <= j < i && plan.invalidated[j] == d ==> seen == Some(ToRef(artifacts[j])))
            && (d !in plan.invalidated[..i] ==> seen == UpstreamRef(boards[0], plan.runId, map[], d))
  {
    ExecutionBumps(boards, artifacts, plan, handlers);
    FreshRefs(boards, artifacts, plan, i, d);
  }

  // ----- Plans as the controller makes them -----

  /** What one handler of the round was given: its task, the round, the patches for its agent, and for each
      dependency in order the reference that the round makes or leaves current. */
  ghost predicate IsFreshContext(boards: seq<Blackboard.Board>, artifacts: seq<Blackboard.ArtifactRecord>,
                                 plan: RepairPlan, i: nat, context: RepairContext)
    requires plan.nextRound.Some? && i < |artifacts| <= |plan.invalidated| && boards != []
  {
    var task := plan.invalidated[i];
    && context.runId == plan.runId && context.taskId == task && context.revisionRound == plan.nextRound.value
    && context.patches == PatchesFor(plan.patches, task)
    && task in TASK_DEPENDENCIES && |context.upstream| == |TASK_DEPENDENCIES[task]|
    && forall k :: 0 <= k < |context.upstream| ==>
         IsCurrentRef(boards[0], artifacts[..i], plan, TASK_DEPENDENCIES[task][k], context.upstream[k])
  }

  /** The reference of a dependency: for one that the plan repairs the artifact published for it earlier in the
      round, for any other the one stored latest before the round began. */
  ghost predicate IsCurrentRef(before: Blackboard.Board, earlier: seq<Blackboard.ArtifactRecord>, plan: RepairPlan,
                               d: Id, ref: Blackboard.ArtifactRef)
    requires |earlier| <= |plan.invalidated|
  {
    if d in plan.invalidated then exists j :: 0 <= j < |earlier| && plan.invalidated[j] == d && ref == ToRef(earlier[j])
    else UpstreamRef(before, plan.runId, map[], d) == Some(ref)
  }

  lemma CurrentRef(boards: seq<Blackboard.Board>, artifacts: seq<Blackboard.ArtifactRecord>, plan: RepairPlan,
                   seeds: set<Id>, i: nat, d: Id, ref: Blackboard.ArtifactRef)
    requires BumpsInTurn(boards, artifacts, plan) && Targets(plan.invalidated, seeds) && i < |artifacts|
    requires d in TASK_DEPENDENCIES[plan.invalidated[i]]
    requires UpstreamRef(boards[i], plan.runId, Refs(artifacts[..i]), d) == Some(ref)
    ensures IsCurrentRef(boards[0], artifacts[..i], plan, d, ref)
  {
    FreshRefs(boards, artifacts, plan, i, d);
    if d in plan.invalidated {
      assert d in plan.invalidated[..i];
      var j :| 0 <= j < i && plan.invalidated[..i][j] == d;
      assert plan.invalidated[j] == d && artifacts[..i][j] == artifacts[j];
    } else {
      assert forall x :: x in plan.invalidated[..i] ==> x in plan.invalidated;
    }
  }

  /** For the plans that planning and resuming make, each handler is given exactly the current references: every
      repaired dependency has been published before it, since dependencies come first. */
  lemma PlannedHandlersAreFresh(boards: seq<Blackboard.Board>, artifacts: seq<Blackboard.ArtifactRecord>,
                                plan: RepairPlan, handlers: map<Id, Handler>, seeds: set<Id>, i: nat)
    returns (context: RepairContext)
    requires plan.nextRound.Some? && Executed(boards, artifacts, plan, handlers) && Valid(boards[0])
    requires Targets(plan.invalidated, seeds) && i < |artifacts|
    ensures IsFreshContext(boards, artifacts, plan, i, context)
    ensures plan.invalidated[i] in handlers && handlers[plan.invalidated[i]](context) == Some(artifacts[i])
  {
    ExecutionBumps(boards, artifacts, plan, handlers);
    var task := plan.invalidated[i];
    context := GivenContext(boards, artifacts, plan, handlers, i);
    forall k | 0 <= k < |context.upstream|
      ensures IsCurrentRef(boards[0], artifacts[..i], plan, TASK_DEPENDENCIES[task][k], context.upstream[k])
    {
      CurrentRef(boards, artifacts, plan, seeds, i, TASK_DEPENDENCIES[task][k], context.upstream[k]);
    }
  }

  /** The context the executed task's handler was called with. */
  lemma GivenContext(boards: seq<Blackboard.Board>, artifacts: seq<Blackboard.ArtifactRecord>, plan: RepairPlan,
                     handlers: map<Id, Handler>, i: nat)
    returns (context: RepairContext)
    requires plan.nextRound.Some? && Executed(boards, artifacts, plan, handlers) && i < |artifacts|
    ensures var task := plan.invalidated[i];
            && task in handlers && task in TASK_DEPENDENCIES && handlers[task](context) == Some(artifacts[i])
            && context.runId == plan.runId && context.taskId == task
            && context.revisionRound == plan.nextRound.value && context.patches == PatchesFor(plan.patches, task)
            && |context.upstream| == |TASK_DEPENDENCIES[task]|
            && forall k :: 0 <= k < |context.upstream| ==>
                 UpstreamRef(boards[i], plan.runId, Refs(artifacts[..i]), TASK_DEPENDENCIES[task][k])
                 == Some(context.upstream[k])
  {
    assert StepAt(boards, artifacts, plan, handlers, i);
    var task := plan.invalidated[i];
    var refs := Upstream(boards[i], plan.runId, Refs(artifacts[..i]), TASK_DEPENDENCIES[task]).value;
    context := RepairContext(plan.runId, task, plan.nextRound.value, PatchesFor(plan.patches, task), refs);
  }
}
