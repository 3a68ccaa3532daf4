/** What a returned variant means for the traveller. */
module PlanFacts {
  import opened Common
  import opened Itinerary
  import opened RouteOrder
  import opened DaySchedule
  import opened Overlaps
  import opened Validators
  import opened References
  import opened ReferenceAudit
  import opened PlanAudit
  import opened Planner
  import opened DayFacts
  import P = Partition

  /** The item of a day that visits stop number k of its tour, with its identifier. */
  lemma ItemOfStop(c: Context, tour: seq<Place>, day: Day, k: nat)
    requires c.request.Valid() && DayFollows(c, tour, day) && k < |tour|
    ensures k < |day.items| && Fits(c, tour[k], day.items[k].startAt)
    ensures day.items[k] == ItemAt(c, tour, k, day.items[k].startAt)
  {
    var starts := EarliestDayKeeps(c, tour, day);
    assert StopFits(c, tour, starts, k);
    assert day.items[k] == ItemAt(c, tour, k, starts[k]);
  }

  /** Some item of the day runs exactly from the appointment's start to its end, at a chosen place of its name. */
  ghost predicate Honours(day: Day, chosen: seq<Place>, a: Appointment) {
    exists item :: item in day.items && item.startAt == At(a.date, a.start) && item.endAt == At(a.date, a.end)
                && exists p :: p in chosen && p.name == a.placeName && p.placeId == item.placeId
  }

  lemma StopHonours(c: Context, tour: seq<Place>, day: Day, chosen: seq<Place>, a: Appointment, place: Place)
    requires c.request.Valid() && P.DistinctNames(c.request.appointments) && DayFollows(c, tour, day)
    requires a in c.request.appointments && a.date == c.date && place.name == a.placeName
    requires place in tour && place in chosen
    ensures Honours(day, chosen, a)
  {
    var k :| 0 <= k < |tour| && tour[k] == place;
    ItemOfStop(c, tour, day, k);
    var found := AppointmentFor(c.request.appointments, c.date, place.name);
    assert found.Some? && found.value == a;
    var item := day.items[k];
    assert item in day.items && item.startAt == At(a.date, a.start) && item.endAt == At(a.date, a.end);
  }

  lemma ItineraryKeepsAppointment(request: TripRequest, sources: Sources, strategy: Strategy, chosen: seq<Place>,
                                  tours: seq<seq<Place>>, plan: Plan, a: Appointment)
    requires request.Valid() && P.DistinctNames(request.appointments) && a in request.appointments
    requires IsItinerary(request, sources, strategy, chosen, tours, plan)
    requires P.Named(chosen, request.appointments) && AppointmentsAssigned(request, chosen, tours)
    ensures Honours(plan.days[a.date - request.startDate], chosen, a)
  {
    var d := a.date - request.startDate;
    P.LastNamedIsExact(chosen, a.placeName);
    assert AssignedOn(request, chosen, tours, a) && FollowsOn(request, sources, strategy, tours, plan.days, d);
    StopHonours(ContextOn(request, sources, strategy, d), tours[d], plan.days[d], chosen, a,
                P.LastNamed(chosen, a.placeName).value);
  }

  /** Every appointment is on the plan: on its date, from its start to its end, at a place of its name. */
  lemma AppointmentIsKept(request: TripRequest, sources: Sources, strategy: Strategy, candidates: seq<Place>,
                          chosen: seq<Place>, plan: Plan, a: Appointment)
    requires request.Valid() && P.DistinctNames(request.appointments) && a in request.appointments
    requires IsVariant(request, sources, strategy, candidates, chosen, plan)
    ensures 0 <= a.date - request.startDate < |plan.days|
    ensures Honours(plan.days[a.date - request.startDate], chosen, a)
  {
    var tours: seq<seq<Place>> :|
      IsItinerary(request, sources, strategy, chosen, tours, plan) && AppointmentsAssigned(request, chosen, tours);
    ItineraryKeepsAppointment(request, sources, strategy, chosen, tours, plan, a);
  }

  /** Every required name is visited. */
  lemma RequiredIsVisited(request: TripRequest, sources: Sources, strategy: Strategy, candidates: seq<Place>,
                          choice: seq<bool>, plan: Plan, name: string)
    requires WellPosed(request, candidates) && Posted(request, strategy, candidates, choice)
    requires name in request.mustVisit || exists a :: a in request.appointments && a.placeName == name
    requires IsVariant(request, sources, strategy, candidates, Chosen(candidates, choice), plan)
    ensures exists d, k, p :: 0 <= d < |plan.days| && 0 <= k < |plan.days[d].items| && p in candidates && p.name == name
                           && plan.days[d].items[k].placeId == p.placeId
  {
    var chosen := Chosen(candidates, choice);
    RequiredIsChosen(request, strategy, candidates, choice, name);
    ChosenAreCandidates(candidates, choice);
    var place :| place in chosen && place.name == name;
    var tours: seq<seq<Place>> :| IsItinerary(request, sources, strategy, chosen, tours, plan);
    RearrangedMember(P.Concat(tours), chosen, place);
    var d, k := ConcatIndex(tours, place);
    assert FollowsOn(request, sources, strategy, tours, plan.days, d);
    ItemOfStop(ContextOn(request, sources, strategy, d), tours[d], plan.days[d], k);
  }

  /** Every item visits a candidate, and no two items of the plan visit the same place or share an identifier. */
  lemma NothingIsVisitedTwice(request: TripRequest, sources: Sources, strategy: Strategy, candidates: seq<Place>,
                              chosen: seq<Place>, plan: Plan, d: nat, i: nat, e: nat, j: nat)
    requires request.Valid() && DistinctIds(chosen) && Different(plan, d, i, e, j)
    requires IsVariant(request, sources, strategy, candidates, chosen, plan)
    ensures exists p :: p in chosen && p.placeId == plan.days[d].items[i].placeId
    ensures plan.days[d].items[i].placeId != plan.days[e].items[j].placeId
    ensures plan.days[d].items[i].itemId != plan.days[e].items[j].itemId
  {
    var tours: seq<seq<Place>> :| IsItinerary(request, sources, strategy, chosen, tours, plan);
    StopOfItem(request, sources, strategy, chosen, tours, plan, d, i);
    StopOfItem(request, sources, strategy, chosen, tours, plan, e, j);
    IdsStayDistinct(P.Concat(tours), chosen);
    StopsDiffer(tours, d, i, e, j);
    ItemIdsFollowPlaceIds(strategy, tours[d][i].placeId, tours[e][j].placeId);
    TourPlaceIsChosen(tours, chosen, d, tours[d][i]);
  }

  lemma StopOfItem(request: TripRequest, sources: Sources, strategy: Strategy, chosen: seq<Place>,
                   tours: seq<seq<Place>>, plan: Plan, d: nat, i: nat)
    requires request.Valid() && IsItinerary(request, sources, strategy, chosen, tours, plan)
    requires d < |plan.days| && i < |plan.days[d].items|
    ensures d < |tours| && i < |tours[d]|
    ensures plan.days[d].items[i].placeId == tours[d][i].placeId
    ensures plan.days[d].items[i].itemId == ItemId(strategy, tours[d][i].placeId)
  {
    var c := ContextOn(request, sources, strategy, d);
    assert FollowsOn(request, sources, strategy, tours, plan.days, d);
    var starts := EarliestDayKeeps(c, tours[d], plan.days[d]);
    assert plan.days[d].items[i] == ItemAt(c, tours[d], i, starts[i]);
  }

  lemma ItemIdsFollowPlaceIds(strategy: Strategy, a: string, b: string)
    ensures ItemId(strategy, a) == ItemId(strategy, b) ==> a == b
  {
    var prefix := "item_" + StrategyName(strategy) + "_";
    assert ItemId(strategy, a)[|prefix|..] == a && ItemId(strategy, b)[|prefix|..] == b;
  }

  lemma DayShape(c: Context, tour: seq<Place>, day: Day)
    requires c.request.Valid() && ValidPlaces(tour) && DayFollows(c, tour, day)
    ensures day.date == c.date && day.items != [] && Lasting(day.items)
  {
    FollowedDayIsClean(c, tour, day);
    CleanDayLasts(c.request, c.date, tour, day);
  }

  lemma DayOfItinerary(request: TripRequest, sources: Sources, strategy: Strategy, chosen: seq<Place>,
                       tours: seq<seq<Place>>, plan: Plan, d: nat)
    requires request.Valid() && ValidPlaces(chosen) && IsItinerary(request, sources, strategy, chosen, tours, plan)
    requires d < |plan.days|
    ensures plan.days[d].date == request.startDate + d && plan.days[d].items != [] && Lasting(plan.days[d].items)
  {
    TourPlacesAreChosen(tours, chosen, d);
    assert FollowsOn(request, sources, strategy, tours, plan.days, d);
    DayShape(ContextOn(request, sources, strategy, d), tours[d], plan.days[d]);
  }

  /** The days follow each other from the start date, and every item lasts. */
  lemma VariantDays(request: TripRequest, sources: Sources, strategy: Strategy, candidates: seq<Place>,
                    chosen: seq<Place>, plan: Plan)
    requires request.Valid() && ValidPlaces(chosen) && IsVariant(request, sources, strategy, candidates, chosen, plan)
    ensures |plan.days| == request.days && LastingPlan(plan) && DistinctDates(plan)
    ensures forall d :: 0 <= d < |plan.days| ==> plan.days[d].date == request.startDate + d && plan.days[d].items != []
  {
    var tours: seq<seq<Place>> :| IsItinerary(request, sources, strategy, chosen, tours, plan);
    forall d | 0 <= d < |plan.days|
      ensures plan.days[d].date == request.startDate + d && plan.days[d].items != [] && Lasting(plan.days[d].items)
    {
      DayOfItinerary(request, sources, strategy, chosen, tours, plan, d);
    }
  }

  /** No two items of a returned plan overlap, on one day or across days. */
  lemma NothingOverlaps(request: TripRequest, sources: Sources, strategy: Strategy, candidates: seq<Place>,
                        chosen: seq<Place>, plan: Plan, d: nat, i: nat, e: nat, j: nat)
    requires request.Valid() && ValidPlaces(chosen) && Different(plan, d, i, e, j)
    requires IsVariant(request, sources, strategy, candidates, chosen, plan)
    ensures Apart(plan.days[d].items[i], plan.days[e].items[j])
  {
    VariantDays(request, sources, strategy, candidates, chosen, plan);
    var canonical :| IsCanonical(candidates, canonical) && Passes(plan, request, candidates, sources, canonical);
    assert forall x :: PlanIssue(plan, request, candidates, x) ==>
        Finding(plan, request, candidates, sources, canonical, x);
    PassingMeansApart(plan, request, candidates, d, i, e, j);
  }

  /** Every item of a returned plan but the first of its day is travelled to from the item before, along a given route
      and within the time between them; the first has no leg. */
  lemma TravelIsKept(request: TripRequest, sources: Sources, strategy: Strategy, candidates: seq<Place>,
                     chosen: seq<Place>, plan: Plan, d: nat, k: nat)
    requires request.Valid() && IsVariant(request, sources, strategy, candidates, chosen, plan)
    requires d < |plan.days| && k < |plan.days[d].items|
    ensures var items := plan.days[d].items;
            if k == 0 then items[0].leg.None? else Travelled(sources.routes, items[k - 1], items[k])
  {
    var tours: seq<seq<Place>> :| IsItinerary(request, sources, strategy, chosen, tours, plan);
    StopOfItem(request, sources, strategy, chosen, tours, plan, d, k);
    assert FollowsOn(request, sources, strategy, tours, plan.days, d);
    ItemsAreTravelled(ContextOn(request, sources, strategy, d), tours[d], plan.days[d], k);
  }

  /** The plans come back in the order of the strategies. */
  lemma PlansInOrder(request: TripRequest, sources: Sources, candidates: seq<Place>, choices: seq<Option<seq<bool>>>,
                     plans: seq<Plan>)
    requires request.Valid() && SolverAnswers(request, candidates, choices) && |plans| == 3
    requires AreVariants(request, sources, candidates, choices, plans)
    ensures plans[0].planId == "plan_balanced" && plans[1].planId == "plan_economy"
    ensures plans[2].planId == "plan_relaxed"
  {
    assert StrategyOrder()[0] == Balanced && StrategyOrder()[1] == Economy && StrategyOrder()[2] == Relaxed;
    var a, b, c := plans[0], plans[1], plans[2];
    assert a.planId == PlanName(StrategyOrder()[0]) && b.planId == PlanName(StrategyOrder()[1]);
    assert c.planId == PlanName(StrategyOrder()[2]);
  }

  // ----- What is selected from -----

  /** The candidates keep the order of the places found. */
  lemma {:induction false} CandidatesInOrder(a: seq<Place>, b: seq<Place>, excluded: seq<string>)
    ensures Candidates(a + b, excluded) == Candidates(a, excluded) + Candidates(b, excluded)
  {
    if b == [] {
      assert a + b == a;
    } else {
      var init, last := b[..|b| - 1], b[|b| - 1];
      assert (a + b)[..|a + b| - 1] == a + init && (a + b)[|a + b| - 1] == last;
      CandidatesInOrder(a, init, excluded);
    }
  }

  /** And so do the chosen ones. */
  lemma {:induction false} ChosenInOrder(a: seq<Place>, b: seq<Place>, c: seq<bool>, d: seq<bool>)
    requires |a| == |c| && |b| == |d|
    ensures Chosen(a + b, c + d) == Chosen(a, c) + Chosen(b, d)
  {
    if b == [] {
      assert a + b == a && c + d == c;
    } else {
      var n := |b| - 1;
      assert (a + b)[..|a + b| - 1] == a + b[..n] && (c + d)[..|a + b| - 1] == c + d[..n];
      ChosenInOrder(a, b[..n], c, d[..n]);
    }
  }

  ghost predicate IsRequired(request: TripRequest, place: Place) {
    place.name in request.mustVisit || exists a :: a in request.appointments && a.placeName == place.name
  }

  /** The positions before the n-th with a place that must be visited or has an appointment. */
  ghost function RequiredBefore(request: TripRequest, candidates: seq<Place>, n: nat): set<int>
    requires n <= |candidates|
  {
    set i | 0 <= i < n && IsRequired(request, candidates[i])
  }

  /** At least a place a day, and at least the required ones. */
  lemma MinimumIsExact(request: TripRequest, candidates: seq<Place>)
    ensures var required := |set i | 0 <= i < |candidates| && IsRequired(request, candidates[i])|;
            MinimumCount(request, candidates) == if required < request.days then request.days else required
  {
    CountRequired(request, candidates, |candidates|);
    assert candidates[..|candidates|] == candidates;
    assert RequiredBefore(request, candidates, |candidates|)
        == set i | 0 <= i < |candidates| && IsRequired(request, candidates[i]);
  }

  lemma OneMoreRequired(request: TripRequest, candidates: seq<Place>, n: nat)
    requires n < |candidates|
    ensures |RequiredBefore(request, candidates, n + 1)|
         == |RequiredBefore(request, candidates, n)| + if IsRequired(request, candidates[n]) then 1 else 0
  {
    assert RequiredBefore(request, candidates, n + 1)
        == RequiredBefore(request, candidates, n) + if IsRequired(request, candidates[n]) then {n} else {};
  }

  lemma {:induction false} CountRequired(request: TripRequest, candidates: seq<Place>, n: nat)
    requires n <= |candidates|
    ensures |RequiredAmong(candidates[..n], RequiredNames(request))| == |RequiredBefore(request, candidates, n)|
  {
    if n > 0 {
      CountRequired(request, candidates, n - 1);
      OneMoreRequired(request, candidates, n - 1);
      assert candidates[..n][..n - 1] == candidates[..n - 1];
      assert candidates[n - 1].name in RequiredNames(request) <==> IsRequired(request, candidates[n - 1]);
    } else {
      assert RequiredBefore(request, candidates, 0) == {};
    }
  }

  /** No day that took one more place would otherwise have had more than another, and among equals the earlier day
      takes it. */
  lemma LoadsAreLevel(chosen: seq<Place>, request: TripRequest, days: seq<seq<Place>>, e: nat, d: nat)
    requires P.Named(chosen, request.appointments) && P.IsPartition(chosen, request, days)
    requires e < |days| && d < |days|
    requires |days[e]| > |P.FixedOn(chosen, request.appointments, request.startDate + e)|
    ensures |days[e]| - 1 <= |days[d]| && (d < e ==> |days[e]| <= |days[d]|)
  {
    assert P.Before(|days[e]| - 1, e, |days[d]|, d);
  }
}
