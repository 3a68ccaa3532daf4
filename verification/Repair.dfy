/** TargetedRepairController: which tasks a review invalidates, and republishing only those. */
module Repair {
  import opened Common
  import opened Graphs
  import Blackboard

  type Board = Blackboard.Board
  type ArtifactRecord = Blackboard.ArtifactRecord
  type ArtifactRef = Blackboard.ArtifactRef

  const DESTINATION: Id := "destination_intelligence"
  const MOBILITY: Id := "mobility_lodging"
  const ROUTES: Id := "build_route_matrix"
  const PLANNING: Id := "itinerary_planning"
  const REVIEW: Id := "critic_review"

  const TASK_ORDER: seq<Id> := [DESTINATION, MOBILITY, ROUTES, PLANNING, REVIEW]
  const TASK_DEPENDENCIES: map<Id, seq<Id>> := map[
    DESTINATION := [], MOBILITY := [], ROUTES := [DESTINATION, MOBILITY], PLANNING := [ROUTES], REVIEW := [PLANNING]]
  const TASK_ARTIFACT_TYPES: map<Id, string> := map[
    DESTINATION := "destination_intel", MOBILITY := "mobility_lodging", ROUTES := "route_matrix",
    PLANNING := "plan_candidates", REVIEW := "review"]
  const AGENT_TASKS: map<Id, Id> := map[
    "destination_intelligence" := DESTINATION, "mobility_lodging" := MOBILITY,
    "itinerary_planner" := PLANNING, "critic" := REVIEW]
  /** The most rounds a plan record can hold. */
  const RECORDED_ROUNDS := 2

  // ----- The invalidation closure, for any dependency table -----

  ghost function DependencyGraph(deps: map<Id, seq<Id>>): Graph {
    map t | t in deps :: Elements(deps[t])
  }

  /** The tasks that depend on a seed, directly or through other tasks, and the seeds. */
  ghost predicate Affected(deps: map<Id, seq<Id>>, seeds: set<Id>, t: Id) {
    t in seeds || exists s :: s in seeds && Reaches(DependencyGraph(deps), t, s)
  }

  /** Every task with a dependency in s is in s. */
  ghost predicate HoldsDependents(deps: map<Id, seq<Id>>, s: set<Id>) {
    forall t, d :: t in deps && d in deps[t] && d in s ==> t in s
  }

  /** A set that holds the seeds and their dependents holds everything affected. */
  lemma {:induction false} AffectedStaysInside(deps: map<Id, seq<Id>>, s: set<Id>, p: seq<Id>)
    requires HoldsDependents(deps, s) && IsPath(DependencyGraph(deps), p) && p[|p| - 1] in s
    ensures p[0] in s
  {
    if |p| > 1 {
      assert IsPath(DependencyGraph(deps), p[1..]);
      AffectedStaysInside(deps, s, p[1..]);
      assert p[1] in DependencyGraph(deps)[p[0]];
    }
  }

  /** A dependent of something affected is affected. */
  lemma DependentIsAffected(deps: map<Id, seq<Id>>, seeds: set<Id>, t: Id, d: Id)
    requires Closed(DependencyGraph(deps)) && seeds <= deps.Keys
    requires t in deps && d in deps[t] && Affected(deps, seeds, d)
    ensures Affected(deps, seeds, t)
  {
    var g := DependencyGraph(deps);
    assert d in g[t];
    if d in seeds {
      assert Connects(g, [t, d], t, d);
      assert Reaches(g, t, d);
    } else {
      var s :| s in seeds && Reaches(g, d, s);
      var p :| Connects(g, p, d, s);
      EdgeThenPath(g, t, d, p);
      assert Reaches(g, t, s);
    }
  }

  function Filter(order: seq<Id>, s: set<Id>): (r: seq<Id>)
    ensures forall t :: t in r <==> t in order && t in s
  {
    if order == [] then []
    else
      var init, last := order[..|order| - 1], order[|order| - 1];
      assert order == init + [last];
      Filter(init, s) + if last in s then [last] else []
  }

  ghost predicate WellFormedTable(deps: map<Id, seq<Id>>, order: seq<Id>) {
    Elements(order) == deps.Keys && Closed(DependencyGraph(deps))
  }

  /** The while-changed loop; the set it reaches is exactly the affected tasks, the smallest set
      with the seeds that holds the dependents of its members. */
  method DependencyClosure(deps: map<Id, seq<Id>>, order: seq<Id>, seeds: set<Id>)
    returns (r: seq<Id>, invalidated: set<Id>)
    requires WellFormedTable(deps, order) && seeds <= deps.Keys
    ensures r == Filter(order, invalidated)
    ensures forall t :: t in invalidated <==> Affected(deps, seeds, t)
    ensures seeds <= invalidated && HoldsDependents(deps, invalidated)
    ensures forall s :: seeds <= s && HoldsDependents(deps, s) ==> invalidated <= s
  {
    invalidated := seeds;
    var changed := true;
    while changed
      invariant seeds <= invalidated <= deps.Keys
      invariant forall t :: t in invalidated ==> Affected(deps, seeds, t)
      invariant !changed ==> HoldsDependents(deps, invalidated)
      decreases deps.Keys - invalidated, changed
    {
      changed := false;
      ghost var before := invalidated;
      for i := 0 to |order|
        invariant before <= invalidated <= deps.Keys
        invariant forall t :: t in invalidated ==> Affected(deps, seeds, t)
        invariant changed <==> invalidated != before
        invariant !changed ==>
                    forall j :: 0 <= j < i ==> order[j] in invalidated || Elements(deps[order[j]]) * invalidated == {}
      {
        var t := order[i];
        assert t in Elements(order);
        if t !in invalidated && Elements(deps[t]) * invalidated != {} {
          ghost var d :| d in Elements(deps[t]) * invalidated;
          DependentIsAffected(deps, seeds, t, d);
          invalidated := invalidated + {t};
          changed := true;
        }
      }
      if !changed {
        QuietPassMeansClosed(deps, order, invalidated);
      }
    }
    AffectedIsLeast(deps, seeds, invalidated);
    r := Filter(order, invalidated);
  }

  lemma QuietPassMeansClosed(deps: map<Id, seq<Id>>, order: seq<Id>, s: set<Id>)
    requires Elements(order) == deps.Keys
    requires forall j :: 0 <= j < |order| ==> order[j] in s || Elements(deps[order[j]]) * s == {}
    ensures HoldsDependents(deps, s)
  {
    forall t, d | t in deps && d in deps[t] && d in s
      ensures t in s
    {
      assert t in Elements(order);
      var j :| 0 <= j < |order| && order[j] == t;
      assert d in Elements(deps[t]);
      assert d in Elements(deps[t]) * s;
    }
  }

  lemma AffectedIsLeast(deps: map<Id, seq<Id>>, seeds: set<Id>, r: set<Id>)
    requires seeds <= r && HoldsDependents(deps, r) && forall t :: t in r ==> Affected(deps, seeds, t)
    ensures forall t :: t in r <==> Affected(deps, seeds, t)
    ensures forall s :: seeds <= s && HoldsDependents(deps, s) ==> r <= s
  {
    forall s, t | seeds <= s && HoldsDependents(deps, s) && Affected(deps, seeds, t)
      ensures t in s
    {
      if t !in seeds {
        var x :| x in seeds && Reaches(DependencyGraph(deps), t, x);
        var p :| Connects(DependencyGraph(deps), p, t, x);
        AffectedStaysInside(deps, s, p);
      }
    }
  }

  // ----- Planning a repair -----

  datatype PatchRequest = PatchRequest(targetAgent: Id, action: Id, planId: Id, fieldPath: Option<string>)

  datatype Verdict = Pass | Revise | Reject

  datatype Review = Review(runId: Id, verdict: Verdict, patches: seq<PatchRequest>)

  datatype Status = Ready | WaitingUser

  datatype RepairPlan = RepairPlan(
    runId: Id, status: Status, completedRounds: nat, nextRound: Option<nat>,
    invalidated: seq<Id>, patches: seq<PatchRequest>, clarificationFields: seq<string>)

  datatype PlanError = NotARevision | RevisionLimit | NoTarget | NotWaiting | NoAnswers | InvalidRounds

  predicate AsksUser(p: PatchRequest) {
    p.targetAgent == "coordinator"
  }

  /** The tasks of the registered agents the patches are addressed to. */
  function Seeds(patches: seq<PatchRequest>): set<Id> {
    set p | p in patches && p.targetAgent in AGENT_TASKS :: AGENT_TASKS[p.targetAgent]
  }

  /** The fields to ask for, each once, in the order of the patches. */
  function Fields(patches: seq<PatchRequest>): (fields: seq<string>)
    ensures forall f :: f in fields <==> exists p :: p in patches && AsksUser(p) && FieldOf(p) == f
    ensures Distinct(fields)
  {
    if patches == [] then []
    else
      var init, last := patches[..|patches| - 1], patches[|patches| - 1];
      assert patches == init + [last];
      if AsksUser(last) && FieldOf(last) !in Fields(init) then Fields(init) + [FieldOf(last)] else Fields(init)
  }

  function FieldOf(p: PatchRequest): string {
    if p.fieldPath.Some? then p.fieldPath.value else "trip_request"
  }

  /** Every dependency of a listed task that is listed at all is listed before it. */
  ghost predicate DependenciesFirst(deps: map<Id, seq<Id>>, tasks: seq<Id>) {
    forall i, d :: 0 <= i < |tasks| && tasks[i] in deps && d in deps[tasks[i]] && d in tasks ==> d in tasks[..i]
  }

  lemma TableIsWellFormed()
    ensures WellFormedTable(TASK_DEPENDENCIES, TASK_ORDER) && Distinct(TASK_ORDER)
    ensures forall a :: a in AGENT_TASKS ==> AGENT_TASKS[a] in TASK_DEPENDENCIES
    ensures TASK_ARTIFACT_TYPES.Keys == TASK_DEPENDENCIES.Keys
  {
    assert Elements(TASK_ORDER) == TASK_DEPENDENCIES.Keys;
  }

  lemma TableIsSorted()
    ensures DependenciesFirst(TASK_DEPENDENCIES, TASK_ORDER)
  {
    assert TASK_ORDER[..2] == [DESTINATION, MOBILITY];
    assert TASK_ORDER[..3] == [DESTINATION, MOBILITY, ROUTES];
    assert TASK_ORDER[..4] == [DESTINATION, MOBILITY, ROUTES, PLANNING];
  }

  lemma SortedPrefix(deps: map<Id, seq<Id>>, init: seq<Id>, last: Id)
    requires Distinct(init + [last]) && DependenciesFirst(deps, init + [last])
    ensures Distinct(init) && last !in init && DependenciesFirst(deps, init)
    ensures forall t :: t in init + [last] && t in deps ==> last !in deps[t]
  {
    ElementsByLast(init, last);
    var order := init + [last];
    forall i, d | 0 <= i < |order| && order[i] in deps && d in deps[order[i]] && d in order
      ensures d in init[..i] && d != last
    {
      assert order[..i] == init[..i];
    }
    forall i, d | 0 <= i < |init| && init[i] in deps && d in deps[init[i]] && d in init
      ensures d in init[..i]
    {
      assert order[i] == init[i] && d in order;
    }
  }

  lemma {:induction false} FilterKeepsOrder(deps: map<Id, seq<Id>>, order: seq<Id>, s: set<Id>)
    requires Distinct(order) && DependenciesFirst(deps, order)
    ensures Distinct(Filter(order, s)) && DependenciesFirst(deps, Filter(order, s))
  {
    if order != [] {
      var init, last := order[..|order| - 1], order[|order| - 1];
      assert order == init + [last];
      SortedPrefix(deps, init, last);
      FilterKeepsOrder(deps, init, s);
      if last in s {
        AppendSorted(deps, Filter(init, s), last);
      }
    }
  }

  lemma AppendSorted(deps: map<Id, seq<Id>>, kept: seq<Id>, last: Id)
    requires Distinct(kept) && DependenciesFirst(deps, kept) && last !in kept
    requires forall t :: t in kept + [last] && t in deps ==> last !in deps[t]
    ensures Distinct(kept + [last]) && DependenciesFirst(deps, kept + [last])
  {
    ElementsByLast(kept, last);
    var r := kept + [last];
    assert forall t :: t in kept ==> t in r;
    forall i, d | 0 <= i < |r| && r[i] in deps && d in deps[r[i]] && d in r
      ensures d in r[..i]
    {
      if i < |kept| {
        assert r[..i] == kept[..i] && d in kept;
      } else {
        assert r[..i] == kept;
      }
    }
  }

  /** The tasks to run again: exactly what the seeds affect, the least set that holds the seeds
      and all dependents of its members, each task once and after its dependencies. */
  ghost predicate Targets(tasks: seq<Id>, seeds: set<Id>) {
    && (forall t :: t in tasks <==> Affected(TASK_DEPENDENCIES, seeds, t))
    && Distinct(tasks) && DependenciesFirst(TASK_DEPENDENCIES, tasks) && Elements(tasks) <= TASK_DEPENDENCIES.Keys
    && seeds <= Elements(tasks) && HoldsDependents(TASK_DEPENDENCIES, Elements(tasks))
    && forall s :: seeds <= s && HoldsDependents(TASK_DEPENDENCIES, s) ==> Elements(tasks) <= s
  }

  /** Listed in the order of the table. */
  ghost predicate InTableOrder(tasks: seq<Id>) {
    tasks == Filter(TASK_ORDER, Elements(tasks))
  }

  method Invalidate(seeds: set<Id>) returns (tasks: seq<Id>)
    requires seeds <= TASK_DEPENDENCIES.Keys
    ensures Targets(tasks, seeds) && InTableOrder(tasks)
  {
    TableIsWellFormed();
    TableIsSorted();
    var invalidated;
    tasks, invalidated := DependencyClosure(TASK_DEPENDENCIES, TASK_ORDER, seeds);
    FilterKeepsOrder(TASK_DEPENDENCIES, TASK_ORDER, invalidated);
    assert forall t :: t in invalidated ==> t in Elements(TASK_ORDER);
    assert Elements(tasks) == invalidated;
  }

  /** The rounds a plan record admits; it refuses others whatever the controller's limit. */
  predicate FitsRecord(completedRounds: int, nextRound: Option<int>) {
    && 0 <= completedRounds <= RECORDED_ROUNDS
    && (nextRound.Some? ==> 1 <= nextRound.value <= RECORDED_ROUNDS)
  }

  /** TargetedRepairController.plan. */
  method Plan(review: Review, completedRounds: int, maxRounds: int := 2)
    returns (r: Result<RepairPlan, PlanError>)
    ensures var revises := review.verdict == Revise && review.patches != [];
            var asks := exists p :: p in review.patches && AsksUser(p);
            var goesOn := revises && completedRounds < maxRounds;
            && (r == Err(NotARevision) <==> !revises)
            && (r == Err(RevisionLimit) <==> revises && completedRounds >= maxRounds)
            && (r == Err(NoTarget) <==> goesOn && !asks && Seeds(review.patches) == {})
            && (r == Err(InvalidRounds) <==>
                  && goesOn && (asks || Seeds(review.patches) != {})
                  && !(0 <= completedRounds <= if asks then 2 else 1))
            && (r.Err? ==> r.error in {NotARevision, RevisionLimit, NoTarget, InvalidRounds})
            && (r.Ok? ==> completedRounds >= 0)
            && (r.Ok? && asks ==> r.value == RepairPlan(review.runId, WaitingUser, completedRounds, None, [],
                                                         review.patches, Fields(review.patches)))
            && (r.Ok? && !asks ==>
                  && r.value == RepairPlan(review.runId, Ready, completedRounds, Some(completedRounds + 1),
                                           r.value.invalidated, review.patches, [])
                  && Targets(r.value.invalidated, Seeds(review.patches)) && InTableOrder(r.value.invalidated))
  {
    if review.verdict != Revise || review.patches == [] {
      return Err(NotARevision);
    }
    if completedRounds >= maxRounds {
      return Err(RevisionLimit);
    }
    if exists p :: p in review.patches && AsksUser(p) {
      if !FitsRecord(completedRounds, None) {
        return Err(InvalidRounds);
      }
      return Ok(RepairPlan(review.runId, WaitingUser, completedRounds, None, [],
                           review.patches, Fields(review.patches)));
    }
    var seeds := Seeds(review.patches);
    if seeds == {} {
      return Err(NoTarget);
    }
    TableIsWellFormed();
    var invalidated := Invalidate(seeds);
    if !FitsRecord(completedRounds, Some(completedRounds + 1)) {
      return Err(InvalidRounds);
    }
    r := Ok(RepairPlan(review.runId, Ready, completedRounds, Some(completedRounds + 1), invalidated,
                       review.patches, []));
  }

  /** The tasks an answer to the named fields concerns. */
  function AnswerSeeds(names: seq<string>): set<Id> {
    if forall n :: n in names ==> "lodging" <= n || "transport" <= n then {MOBILITY}
    else if forall n :: n in names ==> "destination" <= n then {DESTINATION}
    else {DESTINATION, MOBILITY}
  }

  /** TargetedRepairController.resume_after_clarification. */
  method Resume(waiting: RepairPlan, resolvedFields: seq<string>, maxRounds: int := 2)
    returns (r: Result<RepairPlan, PlanError>)
    ensures r == Err(NotWaiting) <==> waiting.status != WaitingUser
    ensures r == Err(NoAnswers) <==> waiting.status == WaitingUser && resolvedFields == []
    ensures r == Err(RevisionLimit) <==>
              waiting.status == WaitingUser && resolvedFields != [] && waiting.completedRounds >= maxRounds
    ensures r == Err(InvalidRounds) <==>
              && waiting.status == WaitingUser && resolvedFields != []
              && 2 <= waiting.completedRounds < maxRounds
    ensures r.Err? ==> r.error in {NotWaiting, NoAnswers, RevisionLimit, InvalidRounds}
    ensures r.Ok? ==>
              && r.value == RepairPlan(waiting.runId, Ready, waiting.completedRounds, Some(waiting.completedRounds + 1),
                                       r.value.invalidated, waiting.patches, [])
              && Targets(r.value.invalidated, AnswerSeeds(resolvedFields)) && InTableOrder(r.value.invalidated)
  {
    if waiting.status != WaitingUser {
      return Err(NotWaiting);
    }
    if resolvedFields == [] {
      return Err(NoAnswers);
    }
    if waiting.completedRounds >= maxRounds {
      return Err(RevisionLimit);
    }
    var invalidated := Invalidate(AnswerSeeds(resolvedFields));
    if !FitsRecord(waiting.completedRounds, Some(waiting.completedRounds + 1)) {
      return Err(InvalidRounds);
    }
    r := Ok(RepairPlan(waiting.runId, Ready, waiting.completedRounds, Some(waiting.completedRounds + 1),
                       invalidated, waiting.patches, []));
  }
}
