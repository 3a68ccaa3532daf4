/** Which tasks a repair runs again, whom it asks what, and what it hands to whom, by the names the system uses. */
module RepairFacts {
  import opened Common
  import opened Graphs
  import opened Repair
  import opened RepairExecution
  import opened Blackboard
  import opened BoardFacts

  // ----- Which tasks -----

  /** The task an agent's patch concerns. */
  ghost predicate Concerns(p: PatchRequest, t: Id) {
    || (p.targetAgent == "destination_intelligence" && t == "destination_intelligence")
    || (p.targetAgent == "mobility_lodging" && t == "mobility_lodging")
    || (p.targetAgent == "itinerary_planner" && t == "itinerary_planning")
    || (p.targetAgent == "critic" && t == "critic_review")
  }

  lemma SeedsByAgent(patches: seq<PatchRequest>, t: Id)
    ensures t in Seeds(patches) <==> exists p :: p in patches && Concerns(p, t)
  {
    if p :| p in patches && Concerns(p, t) {
      assert p.targetAgent in AGENT_TASKS && AGENT_TASKS[p.targetAgent] == t;
    }
  }

  predicate StartsWith(text: string, prefix: string) {
    |prefix| <= |text| && text[..|prefix|] == prefix
  }

  /** Answers about lodging and transport only concern that task, answers about the destination only the other, and
      any mixture concerns both. */
  lemma SeedsByAnswer(names: seq<string>, t: Id)
    ensures t in AnswerSeeds(names) <==>
              if forall n :: n in names ==> StartsWith(n, "lodging") || StartsWith(n, "transport")
              then t == "mobility_lodging"
              else if forall n :: n in names ==> StartsWith(n, "destination") then t == "destination_intelligence"
              else t == "mobility_lodging" || t == "destination_intelligence"
  {
    forall n | n in names
      ensures "lodging" <= n <==> StartsWith(n, "lodging")
      ensures "transport" <= n <==> StartsWith(n, "transport")
      ensures "destination" <= n <==> StartsWith(n, "destination")
    {
    }
  }

  /** The tasks to run again, one by one. */
  ghost predicate AreTheTasks(tasks: seq<Id>, seeds: set<Id>) {
    var research := "destination_intelligence" in seeds || "mobility_lodging" in seeds;
    var routes := research || "build_route_matrix" in seeds;
    var planning := routes || "itinerary_planning" in seeds;
    && ("destination_intelligence" in tasks <==> "destination_intelligence" in seeds)
    && ("mobility_lodging" in tasks <==> "mobility_lodging" in seeds)
    && ("build_route_matrix" in tasks <==> routes)
    && ("itinerary_planning" in tasks <==> planning)
    && ("critic_review" in tasks <==> planning || "critic_review" in seeds)
    && forall t :: t in tasks ==>
         t in {"destination_intelligence", "mobility_lodging", "build_route_matrix", "itinerary_planning",
               "critic_review"}
  }

  /** The tasks themselves and those that follow them. */
  ghost function Downstream(seeds: set<Id>): set<Id> {
    var research := "destination_intelligence" in seeds || "mobility_lodging" in seeds;
    var routes := research || "build_route_matrix" in seeds;
    var planning := routes || "itinerary_planning" in seeds;
    seeds + (if routes then {"build_route_matrix"} else {}) + (if planning then {"itinerary_planning"} else {})
          + (if planning then {"critic_review"} else {})
  }

  lemma DownstreamHoldsDependents(seeds: set<Id>)
    ensures HoldsDependents(TASK_DEPENDENCIES, Downstream(seeds))
  {
  }

  lemma DependentsFollow(tasks: set<Id>)
    requires HoldsDependents(TASK_DEPENDENCIES, tasks)
    ensures "destination_intelligence" in tasks || "mobility_lodging" in tasks ==> "build_route_matrix" in tasks
    ensures "build_route_matrix" in tasks ==> "itinerary_planning" in tasks
    ensures "itinerary_planning" in tasks ==> "critic_review" in tasks
  {
    assert TASK_DEPENDENCIES["build_route_matrix"][0] == "destination_intelligence";
    assert TASK_DEPENDENCIES["build_route_matrix"][1] == "mobility_lodging";
    assert TASK_DEPENDENCIES["itinerary_planning"][0] == "build_route_matrix";
    assert TASK_DEPENDENCIES["critic_review"][0] == "itinerary_planning";
  }

  lemma TargetsAreTheTasks(tasks: seq<Id>, seeds: set<Id>)
    requires Targets(tasks, seeds)
    ensures AreTheTasks(tasks, seeds)
  {
    DownstreamHoldsDependents(seeds);
    DependentsFollow(Elements(tasks));
    assert forall t :: t in tasks <==> t in Elements(tasks);
    assert Elements(tasks) <= Downstream(seeds);
    assert forall t :: t in tasks ==> t in TASK_DEPENDENCIES;
  }

  /** Patches invalidate exactly the tasks of their agents and what follows from them. */
  lemma PatchesInvalidate(tasks: seq<Id>, patches: seq<PatchRequest>)
    requires Targets(tasks, Seeds(patches))
    ensures var destination := exists p :: p in patches && p.targetAgent == "destination_intelligence";
            var mobility := exists p :: p in patches && p.targetAgent == "mobility_lodging";
            var planner := exists p :: p in patches && p.targetAgent == "itinerary_planner";
            var critic := exists p :: p in patches && p.targetAgent == "critic";
            && ("destination_intelligence" in tasks <==> destination)
            && ("mobility_lodging" in tasks <==> mobility)
            && ("build_route_matrix" in tasks <==> destination || mobility)
            && ("itinerary_planning" in tasks <==> destination || mobility || planner)
            && ("critic_review" in tasks <==> destination || mobility || planner || critic)
  {
    TargetsAreTheTasks(tasks, Seeds(patches));
    forall t ensures t in Seeds(patches) <==> exists p :: p in patches && Concerns(p, t) {
      SeedsByAgent(patches, t);
    }
  }

  /** The position of a task in the workflow. */
  ghost function Rank(t: Id): nat {
    match t
    case "destination_intelligence" => 0
    case "mobility_lodging" => 1
    case "build_route_matrix" => 2
    case "itinerary_planning" => 3
    case _ => 4
  }

  ghost predicate InWorkflowOrder(tasks: seq<Id>) {
    forall i, j :: 0 <= i < j < |tasks| ==> Rank(tasks[i]) < Rank(tasks[j])
  }

  lemma {:induction false} FilterIsRanked(order: seq<Id>, s: set<Id>)
    requires InWorkflowOrder(order)
    ensures InWorkflowOrder(Filter(order, s))
  {
    if order != [] {
      var init, last := order[..|order| - 1], order[|order| - 1];
      FilterIsRanked(init, s);
      forall t | t in Filter(init, s) ensures Rank(t) < Rank(last) {
        var i :| 0 <= i < |init| && init[i] == t;
        assert order[i] == t;
      }
    }
  }

  /** They are run again in the order of the workflow. */
  lemma TargetsAreInOrder(tasks: seq<Id>)
    requires InTableOrder(tasks)
    ensures InWorkflowOrder(tasks)
  {
    FilterIsRanked(TASK_ORDER, Elements(tasks));
  }

  // ----- What the user is asked -----

  /** The user is asked for the field a patch to the coordinator names, or for the whole request. */
  lemma FieldsAsked(patches: seq<PatchRequest>, f: string)
    ensures f in Fields(patches) <==>
              exists p :: p in patches && p.targetAgent == "coordinator"
                       && (p.fieldPath == Some(f) || (p.fieldPath.None? && f == "trip_request"))
  {
    if p :| p in patches && p.targetAgent == "coordinator"
            && (p.fieldPath == Some(f) || (p.fieldPath.None? && f == "trip_request")) {
      assert AsksUser(p) && FieldOf(p) == f;
    }
    if f in Fields(patches) {
      var p :| p in patches && AsksUser(p) && FieldOf(p) == f;
    }
  }

  /** Later patches only add questions after the earlier ones. */
  lemma {:induction false} QuestionsKeepTheirOrder(a: seq<PatchRequest>, b: seq<PatchRequest>)
    ensures Fields(a) <= Fields(a + b)
    decreases |b|
  {
    if b == [] {
      assert a + b == a;
    } else {
      var init, last := b[..|b| - 1], b[|b| - 1];
      assert (a + b)[..|a + b| - 1] == a + init && (a + b)[|a + b| - 1] == last;
      QuestionsKeepTheirOrder(a, init);
    }
  }

  // ----- What a handler gets -----

  /** A task's handler gets one patch exactly if it is for the agent of the task. */
  lemma PatchOfAgent(p: PatchRequest, t: Id)
    ensures PatchesFor([p], t) == if Concerns(p, t) then [p] else []
  {
    assert [p][1..] == [];
  }

  /** And of several patches those it would get of each, in order. */
  lemma {:induction false} PatchesInOrder(a: seq<PatchRequest>, b: seq<PatchRequest>, t: Id)
    ensures PatchesFor(a + b, t) == PatchesFor(a, t) + PatchesFor(b, t)
  {
    if a == [] {
      assert a + b == b;
    } else {
      assert (a + b)[1..] == a[1..] + b && (a + b)[0] == a[0];
      PatchesInOrder(a[1..], b, t);
    }
  }

  ghost function TypeOf(t: Id): string {
    match t
    case "destination_intelligence" => "destination_intel"
    case "mobility_lodging" => "mobility_lodging"
    case "build_route_matrix" => "route_matrix"
    case "itinerary_planning" => "plan_candidates"
    case "critic_review" => "review"
    case _ => ""
  }

  lemma TypeOfTask(t: Id)
    ensures t in TASK_ARTIFACT_TYPES <==> TypeOf(t) != ""
    ensures t in TASK_ARTIFACT_TYPES ==> TASK_ARTIFACT_TYPES[t] == TypeOf(t)
  {
  }

  /** The reference to the artifact, field by field. */
  ghost predicate RefersTo(ref: Blackboard.ArtifactRef, a: Blackboard.ArtifactRecord) {
    && ref.artifactId == a.artifactId && ref.runId == a.runId && ref.artifactType == a.artifactType
    && ref.version == a.version && ref.contentHash == a.contentHash
  }

  /** For a dependency not repaired in the round a handler gets the reference to the stored artifact of that run and
      task, of the task's type, with the largest version. */
  lemma StoredDependency(b: Blackboard.Board, runId: Id, d: Id, ref: Blackboard.ArtifactRef)
    requires Valid(b)
    ensures UpstreamRef(b, runId, map[], d) == Some(ref) <==>
              exists a :: && Stored(b, a) && a.artifactId in Versions(b, runId, d, TypeOf(d)) && RefersTo(ref, a)
                          && forall id :: id in Versions(b, runId, d, TypeOf(d)) ==> b.records[id].version <= a.version
  {
    TypeOfTask(d);
    var latest := Latest(b, HeadKey(runId, d, TypeOf(d)));
    forall a ensures latest == Some(a) <==>
        && Stored(b, a) && a.artifactId in Versions(b, runId, d, TypeOf(d))
        && forall id :: id in Versions(b, runId, d, TypeOf(d)) ==> b.records[id].version <= a.version
    {
      LatestFindsByFields(b, runId, d, TypeOf(d), a);
    }
    if latest.Some? && RefersTo(ref, latest.value) {
      assert ref == ToRef(latest.value);
    }
  }

  /** For a dependency repaired in the round it gets the reference to what was published for it. */
  lemma PublishedDependency(b: Blackboard.Board, runId: Id, before: seq<Blackboard.ArtifactRecord>, j: nat)
    requires j < |before|
    requires forall i :: 0 <= i < |before| && i != j ==> before[i].taskId != before[j].taskId
    ensures var seen := UpstreamRef(b, runId, Refs(before), before[j].taskId);
            seen.Some? && RefersTo(seen.value, before[j])
  {
    RefsAt(before, j);
  }

  // ----- Publishing -----

  /** The artifact a handler returns is accepted: it is for the run and the task, brings the next version of its type,
      has a new id, and its parents are stored in the run. */
  ghost predicate Acceptable(b: Blackboard.Board, runId: Id, t: Id, a: Blackboard.ArtifactRecord) {
    && a.runId == runId && a.taskId == t
    && a.version == |Versions(b, runId, t, a.artifactType)| + 1
    && a.artifactId !in b.records && ParentsFit(b, a)
  }

  lemma LatestIsCounted(b: Blackboard.Board, a: Blackboard.ArtifactRecord)
    requires Valid(b)
    ensures VersionOf(Latest(b, KeyOf(a))) == |Versions(b, a.runId, a.taskId, a.artifactType)|
  {
    LatestVersionIsHead(b, KeyOf(a));
    KeyNamesFields(a, a.runId, a.taskId, a.artifactType);
    HeadCountsVersions(b, a.runId, a.taskId, a.artifactType);
  }

  /** Given one reference for each dependency, the handler returns the artifact. */
  ghost predicate Returns(b: Blackboard.Board, plan: RepairPlan, handlers: map<Id, Handler>,
                          published: map<Id, Blackboard.ArtifactRef>, t: Id, a: Blackboard.ArtifactRecord)
    requires plan.nextRound.Some? && t in handlers && t in TASK_DEPENDENCIES
  {
    var (round, patches) := (plan.nextRound.value, PatchesFor(plan.patches, t));
    exists refs: seq<Blackboard.ArtifactRef> ::
      && AreGiven(b, plan, published, t, refs)
      && handlers[t](RepairContext(plan.runId, t, round, patches, refs)) == Some(a)
  }

  lemma ReturnsExactly(b: Blackboard.Board, plan: RepairPlan, handlers: map<Id, Handler>,
                       published: map<Id, Blackboard.ArtifactRef>, t: Id, a: Blackboard.ArtifactRecord)
    requires plan.nextRound.Some? && t in handlers && t in TASK_DEPENDENCIES
    ensures var refs := Upstream(b, plan.runId, published, TASK_DEPENDENCIES[t]);
            Returns(b, plan, handlers, published, t, a) <==>
              && refs.Ok?
              && handlers[t](RepairContext(plan.runId, t, plan.nextRound.value, PatchesFor(plan.patches, t),
                                           refs.value)) == Some(a)
  {
    var refs := Upstream(b, plan.runId, published, TASK_DEPENDENCIES[t]);
    UpstreamIsExact(b, plan.runId, published, TASK_DEPENDENCIES[t]);
    if refs.Ok? {
      assert AreGiven(b, plan, published, t, refs.value);
    }
  }

  lemma WriteIsAcceptable(b: Blackboard.Board, plan: RepairPlan, t: Id, a: Blackboard.ArtifactRecord)
    requires Valid(b) && a.runId == plan.runId && a.taskId == t
    ensures var current := VersionOf(Latest(b, KeyOf(a)));
            Acceptable(b, plan.runId, t, a) <==> a.version == current + 1 && Write(b, a, current).Ok?
  {
    LatestIsCounted(b, a);
    WriteIsExact(b, a, VersionOf(Latest(b, KeyOf(a))));
  }

  /** A task is published exactly if it has a handler and known dependencies, each of which has a reference, and the
      handler, given these, returns an acceptable artifact. */
  lemma PublishedExactly(b: Blackboard.Board, plan: RepairPlan, handlers: map<Id, Handler>,
                         published: map<Id, Blackboard.ArtifactRef>, t: Id, a: Blackboard.ArtifactRecord)
    requires Valid(b) && plan.nextRound.Some?
    ensures RunTask(b, plan, handlers, published, t) == Ok(a) <==>
              && t in handlers && t in TASK_DEPENDENCIES && Returns(b, plan, handlers, published, t, a)
              && Acceptable(b, plan.runId, t, a)
  {
    if t in handlers && t in TASK_DEPENDENCIES {
      ReturnsExactly(b, plan, handlers, published, t, a);
    }
    if a.runId == plan.runId && a.taskId == t {
      WriteIsAcceptable(b, plan, t, a);
    }
  }

  /** The references handed over: one for each dependency, in order. */
  ghost predicate AreGiven(b: Blackboard.Board, plan: RepairPlan, published: map<Id, Blackboard.ArtifactRef>, t: Id,
                           refs: seq<Blackboard.ArtifactRef>)
    requires t in TASK_DEPENDENCIES
  {
    AreRefs(b, plan.runId, published, TASK_DEPENDENCIES[t], refs)
  }

  ghost predicate AreRefs(b: Blackboard.Board, runId: Id, published: map<Id, Blackboard.ArtifactRef>, deps: seq<Id>,
                          refs: seq<Blackboard.ArtifactRef>)
  {
    && |refs| == |deps|
    && forall i :: 0 <= i < |deps| ==> UpstreamRef(b, runId, published, deps[i]) == Some(refs[i])
  }

  lemma UpstreamIsExact(b: Blackboard.Board, runId: Id, published: map<Id, Blackboard.ArtifactRef>, deps: seq<Id>)
    ensures forall refs :: Upstream(b, runId, published, deps) == Ok(refs) <==> AreRefs(b, runId, published, deps, refs)
  {
    var r := Upstream(b, runId, published, deps);
    forall refs ensures r == Ok(refs) <==> AreRefs(b, runId, published, deps, refs) {
      if AreRefs(b, runId, published, deps, refs) && r.Ok? {
        assert refs == r.value;
      }
      if r.Err? {
        var i :| 0 <= i < |deps| && deps[i] == r.error;
      }
    }
  }

  /** What a task that is not published lacks. */
  lemma ErrorsHaveTheirCause(b: Blackboard.Board, plan: RepairPlan, handlers: map<Id, Handler>,
                             published: map<Id, Blackboard.ArtifactRef>, t: Id)
    requires Valid(b) && plan.nextRound.Some? && RunTask(b, plan, handlers, published, t).Err?
    ensures match RunTask(b, plan, handlers, published, t).error
            case MissingHandler(x) => x == t && t !in handlers
            case UnknownTask(x) => x == t && t in handlers && t !in TASK_DEPENDENCIES
            case MissingUpstream(d) =>
              t in TASK_DEPENDENCIES && d in TASK_DEPENDENCIES[t] && UpstreamRef(b, plan.runId, published, d).None?
            case HandlerRaised(x) =>
              && x == t && t in handlers && t in TASK_DEPENDENCIES
              && (exists refs :: AreGiven(b, plan, published, t, refs))
              && forall a :: !Returns(b, plan, handlers, published, t, a)
            case WrongArtifact(x) =>
              && x == t && t in handlers && t in TASK_DEPENDENCIES
              && exists a :: Returns(b, plan, handlers, published, t, a) && (a.runId != plan.runId || a.taskId != t)
            case WrongVersion(x) =>
              && x == t && t in handlers && t in TASK_DEPENDENCIES
              && exists a :: Returns(b, plan, handlers, published, t, a)
                          && a.version != |Versions(b, plan.runId, t, a.artifactType)| + 1
            case WriteRejected(e) =>
              && e != VersionConflict && t in handlers && t in TASK_DEPENDENCIES
              && exists a :: Returns(b, plan, handlers, published, t, a)
                          && (a.artifactId in b.records || !ParentsFit(b, a))
            case NotReady => false
  {
    if t in handlers && t in TASK_DEPENDENCIES {
      var refs := Upstream(b, plan.runId, published, TASK_DEPENDENCIES[t]);
      UpstreamIsExact(b, plan.runId, published, TASK_DEPENDENCIES[t]);
      if refs.Ok? {
        assert AreGiven(b, plan, published, t, refs.value);
        var context := RepairContext(plan.runId, t, plan.nextRound.value, PatchesFor(plan.patches, t), refs.value);
        forall a ensures Returns(b, plan, handlers, published, t, a) ==> handlers[t](context) == Some(a) {
          ReturnsExactly(b, plan, handlers, published, t, a);
        }
        if handlers[t](context).Some? {
          var a := handlers[t](context).value;
          ReturnsExactly(b, plan, handlers, published, t, a);
          LatestIsCounted(b, a);
          WriteIsExact(b, a, VersionOf(Latest(b, KeyOf(a))));
        }
      }
    }
  }
}
