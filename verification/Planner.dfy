/** Building the plan variants: a selection meeting the posted constraints is spread over the days, timed day
    by day and validated. */
module Planner {
  import opened Common
  import opened Itinerary
  import opened RouteOrder
  import opened DaySchedule
  import opened Overlaps
  import opened Validators
  import opened References
  import opened ReferenceAudit
  import opened PlanAudit
  import P = Partition

  // ----- What is planned -----

  function Candidates(places: seq<Place>, excluded: seq<string>): seq<Place> {
    if places == [] then []
    else
      var last := places[|places| - 1];
      Candidates(places[..|places| - 1], excluded) + if last.name in excluded then [] else [last]
  }

  function NamesOf(places: seq<Place>): set<string> {
    set p | p in places :: p.name
  }

  function AppointmentNames(request: TripRequest): set<string> {
    set a | a in request.appointments :: a.placeName
  }

  function RequiredNames(request: TripRequest): set<string> {
    Elements(request.mustVisit) + AppointmentNames(request)
  }

  function RequiredAmong(candidates: seq<Place>, names: set<string>): seq<Place> {
    if candidates == [] then []
    else
      var last := candidates[|candidates| - 1];
      RequiredAmong(candidates[..|candidates| - 1], names) + if last.name in names then [last] else []
  }

  function MinimumCount(request: TripRequest, candidates: seq<Place>): nat {
    var required := |RequiredAmong(candidates, RequiredNames(request))|;
    if request.days < required then required else request.days
  }

  function Chosen(candidates: seq<Place>, choice: seq<bool>): seq<Place>
    requires |choice| == |candidates|
  {
    if candidates == [] then []
    else
      var n := |candidates| - 1;
      Chosen(candidates[..n], choice[..n]) + if choice[n] then [candidates[n]] else []
  }

  /** The constraints posted to the solver; any selection meeting them may come back. */
  ghost predicate Posted(request: TripRequest, strategy: Strategy, candidates: seq<Place>, choice: seq<bool>) {
    && |choice| == |candidates|
    && (forall i :: 0 <= i < |candidates| && candidates[i].name in RequiredNames(request) ==> choice[i])
    && (if strategy.Balanced? then |Chosen(candidates, choice)| >= MinimumCount(request, candidates)
        else |Chosen(candidates, choice)| == MinimumCount(request, candidates))
    && (request.budget.policy.Hard? ==> UpperSum(PricesOf(Chosen(candidates, choice))) <= request.budget.total)
  }

  lemma {:induction false} ChosenAreCandidates(candidates: seq<Place>, choice: seq<bool>)
    requires |choice| == |candidates|
    ensures forall p :: p in Chosen(candidates, choice) ==> p in candidates
    ensures DistinctIds(candidates) ==> DistinctIds(Chosen(candidates, choice))
  {
    if candidates != [] {
      var n := |candidates| - 1;
      var before := Chosen(candidates[..n], choice[..n]);
      ChosenAreCandidates(candidates[..n], choice[..n]);
      if DistinctIds(candidates) {
        assert DistinctIds(candidates[..n]);
        forall i | 0 <= i < |before| ensures before[i].placeId != candidates[n].placeId {
          assert before[i] in candidates[..n];
        }
      }
    }
  }

  lemma {:induction false} SelectedIsChosen(candidates: seq<Place>, choice: seq<bool>, i: nat)
    requires i < |candidates| == |choice| && choice[i]
    ensures candidates[i] in Chosen(candidates, choice)
  {
    var n := |candidates| - 1;
    if i < n {
      SelectedIsChosen(candidates[..n], choice[..n], i);
    }
  }

  lemma {:induction false} CandidatesAreAllowed(places: seq<Place>, excluded: seq<string>)
    ensures forall p :: p in Candidates(places, excluded) <==> p in places && p.name !in excluded
    ensures DistinctIds(places) ==> DistinctIds(Candidates(places, excluded))
  {
    if places != [] {
      var n := |places| - 1;
      CandidatesAreAllowed(places[..n], excluded);
      assert places == places[..n] + [places[n]];
    }
  }

  /** The first candidate without a known price. */
  function FirstUnpriced(candidates: seq<Place>): (found: Option<Place>)
    ensures found.Some? ==> found.value in candidates && found.value.price.Unknown?
    ensures found.None? ==> forall p :: p in candidates ==> !p.price.Unknown?
  {
    if candidates == [] then None
    else if candidates[0].price.Unknown? then Some(candidates[0])
    else FirstUnpriced(candidates[1..])
  }

  ghost predicate IsFirstUnpriced(candidates: seq<Place>, i: int) {
    0 <= i < |candidates| && candidates[i].price.Unknown? && forall j :: 0 <= j < i ==> !candidates[j].price.Unknown?
  }

  lemma {:induction false} FirstUnpricedIsFirst(candidates: seq<Place>) returns (i: nat)
    requires FirstUnpriced(candidates).Some?
    ensures IsFirstUnpriced(candidates, i) && FirstUnpriced(candidates) == Some(candidates[i])
  {
    i := 0;
    if !candidates[0].price.Unknown? {
      var k := FirstUnpricedIsFirst(candidates[1..]);
      i := k + 1;
    }
  }

  // ----- Scheduling the days -----

  /** The first days are scheduled. */
  ghost predicate ScheduledSoFar(request: TripRequest, sources: Sources, strategy: Strategy,
                                 dayPlaces: seq<seq<Place>>, days: seq<Day>)
    requires request.Valid()
  {
    && |days| <= |dayPlaces|
    && forall d :: 0 <= d < |days| ==> DayScheduled(ContextOn(request, sources, strategy, d), dayPlaces[d], days[d])
  }

  lemma ScheduledStep(request: TripRequest, sources: Sources, strategy: Strategy, dayPlaces: seq<seq<Place>>,
                      days: seq<Day>, day: Day)
    requires request.Valid() && |days| < |dayPlaces|
    requires ScheduledSoFar(request, sources, strategy, dayPlaces, days)
    requires DayScheduled(ContextOn(request, sources, strategy, |days|), dayPlaces[|days|], day)
    ensures ScheduledSoFar(request, sources, strategy, dayPlaces, days + [day])
  {
    var longer := days + [day];
    forall e | 0 <= e < |longer|
      ensures DayScheduled(ContextOn(request, sources, strategy, e), dayPlaces[e], longer[e])
    {
      if e < |days| {
        assert longer[e] == days[e];
      } else {
        assert e == |days| && longer[e] == day;
      }
    }
  }

  ghost predicate SomeDayFails(request: TripRequest, sources: Sources, strategy: Strategy,
                               dayPlaces: seq<seq<Place>>, error: PlanningError)
    requires request.Valid()
  {
    exists d :: 0 <= d < |dayPlaces| && FailsFor(ContextOn(request, sources, strategy, d), dayPlaces[d], error)
             && !Schedulable(ContextOn(request, sources, strategy, d), dayPlaces[d])
  }

  ghost predicate AllSchedulable(request: TripRequest, sources: Sources, strategy: Strategy,
                                 dayPlaces: seq<seq<Place>>)
    requires request.Valid()
  {
    forall d :: 0 <= d < |dayPlaces| ==> Schedulable(ContextOn(request, sources, strategy, d), dayPlaces[d])
  }

  lemma FailedDayIsEmpty(request: TripRequest, sources: Sources, strategy: Strategy,
                         dayPlaces: seq<seq<Place>>, error: PlanningError)
    requires request.Valid() && SomeDayFails(request, sources, strategy, dayPlaces, error)
    ensures error.EmptyDay? ==> P.EmptyDays(dayPlaces) != {}
    ensures DayError(error) && !AllSchedulable(request, sources, strategy, dayPlaces)
  {
    var d :| 0 <= d < |dayPlaces| && FailsFor(ContextOn(request, sources, strategy, d), dayPlaces[d], error)
      && !Schedulable(ContextOn(request, sources, strategy, d), dayPlaces[d]);
    assert dayPlaces[d] == [] ==> d in P.EmptyDays(dayPlaces);
  }

  lemma ScheduledDaysAreFilled(request: TripRequest, sources: Sources, strategy: Strategy,
                               dayPlaces: seq<seq<Place>>, days: seq<Day>)
    requires request.Valid() && |days| == |dayPlaces| && ScheduledSoFar(request, sources, strategy, dayPlaces, days)
    ensures P.EmptyDays(dayPlaces) == {} && AllSchedulable(request, sources, strategy, dayPlaces)
  {
    forall d | 0 <= d < |dayPlaces|
      ensures Schedulable(ContextOn(request, sources, strategy, d), dayPlaces[d]) && dayPlaces[d] != []
    {
      assert DayScheduled(ContextOn(request, sources, strategy, d), dayPlaces[d], days[d]);
    }
    forall d: nat ensures d !in P.EmptyDays(dayPlaces) {
    }
  }

  method ScheduleDays(request: TripRequest, sources: Sources, strategy: Strategy, dayPlaces: seq<seq<Place>>)
    returns (r: Result<seq<Day>, PlanningError>)
    requires request.Valid() && forall d :: 0 <= d < |dayPlaces| ==> DistinctIds(dayPlaces[d])
    ensures r.Ok? ==> |r.value| == |dayPlaces| && ScheduledSoFar(request, sources, strategy, dayPlaces, r.value)
    ensures r.Err? ==> SomeDayFails(request, sources, strategy, dayPlaces, r.error)
  {
    var days: seq<Day> := [];
    for d := 0 to |dayPlaces|
      invariant |days| == d && ScheduledSoFar(request, sources, strategy, dayPlaces, days)
    {
      var day := ScheduleDay(ContextOn(request, sources, strategy, d), dayPlaces[d]);
      if day.Err? {
        return Err(day.error);
      }
      ScheduledStep(request, sources, strategy, dayPlaces, days, day.value);
      days := days + [day.value];
    }
    return Ok(days);
  }

  ghost function ToursOf(dayPlaces: seq<seq<Place>>, routes: seq<Route>): (tours: seq<seq<Place>>)
    requires forall d :: 0 <= d < |dayPlaces| ==> Order(dayPlaces[d], routes).Some?
    ensures |tours| == |dayPlaces| && forall d :: 0 <= d < |tours| ==> tours[d] == Order(dayPlaces[d], routes).value
  {
    seq(|dayPlaces|, d requires 0 <= d < |dayPlaces| => Order(dayPlaces[d], routes).value)
  }

  lemma {:induction false} DayByDayRearranged(a: seq<seq<Place>>, b: seq<seq<Place>>)
    requires |a| == |b| && forall d :: 0 <= d < |a| ==> Rearranges(a[d], b[d])
    ensures Rearranges(P.Concat(a), P.Concat(b))
  {
    if a != [] {
      var n := |a| - 1;
      DayByDayRearranged(a[..n], b[..n]);
      assert Rearranges(a[n], b[n]);
    }
  }

  lemma IdsStayDistinct(a: seq<Place>, b: seq<Place>)
    requires Rearranges(a, b) && DistinctIds(b)
    ensures DistinctIds(a)
  {
    RearrangedIsDistinct(a, b);
    forall i, j | 0 <= i < j < |a| ensures a[i].placeId != a[j].placeId {
      RearrangedMember(a, b, a[i]);
      RearrangedMember(a, b, a[j]);
    }
  }

  /** Position of a day's stop among all stops. */
  ghost function Offset(days: seq<seq<Place>>, d: nat): nat
    requires d <= |days|
  {
    |P.Concat(days[..d])|
  }

  lemma {:induction false} ConcatAt(days: seq<seq<Place>>, d: nat, i: nat)
    requires d < |days| && i < |days[d]|
    ensures Offset(days, d) + i < |P.Concat(days)| && P.Concat(days)[Offset(days, d) + i] == days[d][i]
  {
    var n := |days| - 1;
    if d < n {
      ConcatAt(days[..n], d, i);
      assert days[..n][..d] == days[..d];
    }
  }

  lemma {:induction false} OffsetsGrow(days: seq<seq<Place>>, d: nat, e: nat)
    requires d < e <= |days|
    ensures Offset(days, d) + |days[d]| <= Offset(days, e)
  {
    assert days[..e][..e - 1] == days[..e - 1];
    if d < e - 1 {
      OffsetsGrow(days, d, e - 1);
    }
  }

  /** Stops at different positions, on the same or on different days, are different places. */
  lemma StopsDiffer(days: seq<seq<Place>>, d: nat, i: nat, e: nat, j: nat)
    requires DistinctIds(P.Concat(days)) && d < |days| && e < |days| && i < |days[d]| && j < |days[e]|
    requires d != e || i != j
    ensures days[d][i].placeId != days[e][j].placeId
  {
    ConcatAt(days, d, i);
    ConcatAt(days, e, j);
    if d < e {
      OffsetsGrow(days, d, e);
    } else if e < d {
      OffsetsGrow(days, e, d);
    }
  }

  lemma DaysHaveDistinctIds(days: seq<seq<Place>>, d: nat)
    requires DistinctIds(P.Concat(days)) && d < |days|
    ensures DistinctIds(days[d])
  {
    forall i, j | 0 <= i < j < |days[d]| ensures days[d][i].placeId != days[d][j].placeId {
      StopsDiffer(days, d, i, d, j);
    }
  }

  // ----- One variant -----

  ghost predicate WellPosed(request: TripRequest, candidates: seq<Place>) {
    && request.Valid() && ValidPlaces(candidates) && DistinctIds(candidates)
    && P.DistinctNames(request.appointments) && RequiredNames(request) <= NamesOf(candidates)
  }

  /** A required name is the name of some chosen place. */
  lemma RequiredIsChosen(request: TripRequest, strategy: Strategy, candidates: seq<Place>, choice: seq<bool>,
                         name: string)
    requires WellPosed(request, candidates) && Posted(request, strategy, candidates, choice)
    requires name in RequiredNames(request)
    ensures name in NamesOf(Chosen(candidates, choice))
  {
    var p :| p in candidates && p.name == name;
    var i :| 0 <= i < |candidates| && candidates[i] == p;
    SelectedIsChosen(candidates, choice, i);
  }

  lemma ChosenIsPartitionable(request: TripRequest, strategy: Strategy, candidates: seq<Place>, choice: seq<bool>)
    requires WellPosed(request, candidates) && Posted(request, strategy, candidates, choice)
    ensures var chosen := Chosen(candidates, choice);
            DistinctIds(chosen) && ValidPlaces(chosen) && P.Named(chosen, request.appointments)
  {
    var chosen := Chosen(candidates, choice);
    ChosenAreCandidates(candidates, choice);
    forall a | a in request.appointments ensures P.LastNamed(chosen, a.placeName).Some? {
      RequiredIsChosen(request, strategy, candidates, choice, a.placeName);
      P.LastNamedIsExact(chosen, a.placeName);
    }
  }

  lemma PartitionHasDistinctDays(chosen: seq<Place>, dayPlaces: seq<seq<Place>>)
    requires Rearranges(P.Concat(dayPlaces), chosen) && DistinctIds(chosen)
    ensures forall d :: 0 <= d < |dayPlaces| ==> DistinctIds(dayPlaces[d])
  {
    IdsStayDistinct(P.Concat(dayPlaces), chosen);
    forall d | 0 <= d < |dayPlaces| ensures DistinctIds(dayPlaces[d]) {
      DaysHaveDistinctIds(dayPlaces, d);
    }
  }

  lemma ScheduledDayFollows(c: Context, places: seq<Place>, day: Day)
    requires c.request.Valid() && DistinctIds(places) && DayScheduled(c, places, day)
    ensures Order(places, c.sources.routes).Some?
    ensures DayFollows(c, Order(places, c.sources.routes).value, day)
    ensures Rearranges(Order(places, c.sources.routes).value, places)
  {
    OrderIsExact(places, c.sources.routes);
    RearrangedLength(Order(places, c.sources.routes).value, places);
  }

  /** The places of each appointment are in the tour of its date. */
  ghost predicate AssignedOn(request: TripRequest, chosen: seq<Place>, tours: seq<seq<Place>>, a: Appointment)
    requires P.Named(chosen, request.appointments) && a in request.appointments
  {
    && 0 <= a.date - request.startDate < |tours|
    && P.LastNamed(chosen, a.placeName).value in tours[a.date - request.startDate]
  }

  ghost predicate AppointmentsAssigned(request: TripRequest, chosen: seq<Place>, tours: seq<seq<Place>>)
    requires P.Named(chosen, request.appointments)
  {
    forall a {:trigger AssignedOn(request, chosen, tours, a)} ::
      a in request.appointments ==> AssignedOn(request, chosen, tours, a)
  }

  lemma {:induction false} FixedOnHasAppointment(places: seq<Place>, appointments: seq<Appointment>, a: Appointment)
    requires P.Named(places, appointments) && a in appointments
    ensures P.LastNamed(places, a.placeName).value in P.FixedOn(places, appointments, a.date)
  {
    var n := |appointments| - 1;
    if appointments[n] != a {
      assert a in appointments[..n];
      FixedOnHasAppointment(places, appointments[..n], a);
    }
  }

  lemma AppointmentsAreAssigned(request: TripRequest, chosen: seq<Place>, dayPlaces: seq<seq<Place>>,
                                tours: seq<seq<Place>>)
    requires request.Valid() && P.Named(chosen, request.appointments) && P.IsPartition(chosen, request, dayPlaces)
    requires |tours| == |dayPlaces| && forall d :: 0 <= d < |tours| ==> Rearranges(tours[d], dayPlaces[d])
    ensures AppointmentsAssigned(request, chosen, tours)
  {
    forall a | a in request.appointments
      ensures AssignedOn(request, chosen, tours, a)
    {
      var d, place := a.date - request.startDate, P.LastNamed(chosen, a.placeName).value;
      FixedOnHasAppointment(chosen, request.appointments, a);
      assert request.startDate + d == a.date;
      assert P.FixedOn(chosen, request.appointments, a.date) <= dayPlaces[d];
      assert Rearranges(tours[d], dayPlaces[d]);
      RearrangedMember(tours[d], dayPlaces[d], place);
    }
  }

  ghost predicate AreOrders(dayPlaces: seq<seq<Place>>, routes: seq<Route>, tours: seq<seq<Place>>) {
    |tours| == |dayPlaces| && forall d :: 0 <= d < |tours| ==> Order(dayPlaces[d], routes) == Some(tours[d])
  }

  lemma AssembledIsItinerary(request: TripRequest, sources: Sources, strategy: Strategy, chosen: seq<Place>,
                             dayPlaces: seq<seq<Place>>, plan: Plan) returns (tours: seq<seq<Place>>)
    requires request.Valid() && DistinctIds(chosen) && P.Named(chosen, request.appointments)
    requires P.IsPartition(chosen, request, dayPlaces) && |plan.days| == |dayPlaces|
    requires ScheduledSoFar(request, sources, strategy, dayPlaces, plan.days)
    requires plan.totalCost == CostTotal(DailyCosts(plan.days), request.budget.currency)
    ensures IsItinerary(request, sources, strategy, chosen, tours, plan)
    ensures AppointmentsAssigned(request, chosen, tours)
    ensures AreOrders(dayPlaces, sources.routes, tours)
  {
    PartitionHasDistinctDays(chosen, dayPlaces);
    forall d | 0 <= d < |dayPlaces|
      ensures var order := Order(dayPlaces[d], sources.routes);
              && order.Some? && Rearranges(order.value, dayPlaces[d])
              && DayFollows(ContextOn(request, sources, strategy, d), order.value, plan.days[d])
    {
      ScheduledDayFollows(ContextOn(request, sources, strategy, d), dayPlaces[d], plan.days[d]);
    }
    tours := ToursOf(dayPlaces, sources.routes);
    assert forall d :: 0 <= d < |tours| ==> FollowsOn(request, sources, strategy, tours, plan.days, d);
    DayByDayRearranged(tours, dayPlaces);
    AppointmentsAreAssigned(request, chosen, dayPlaces, tours);
  }

  ghost function PlanName(strategy: Strategy): string {
    match strategy
    case Balanced => "plan_balanced"
    case Economy => "plan_economy"
    case Relaxed => "plan_relaxed"
  }

  lemma PlanIsNamed(strategy: Strategy)
    ensures "plan_" + StrategyName(strategy) == PlanName(strategy)
  {
  }

  /** What every variant that is returned keeps. */
  ghost predicate IsVariant(request: TripRequest, sources: Sources, strategy: Strategy, candidates: seq<Place>,
                            chosen: seq<Place>, plan: Plan)
    requires request.Valid()
  {
    && plan.planId == PlanName(strategy) && P.Named(chosen, request.appointments)
    && (exists tours ::
          IsItinerary(request, sources, strategy, chosen, tours, plan) && AppointmentsAssigned(request, chosen, tours))
    && (exists canonical ::
          IsCanonical(candidates, canonical) && Passes(plan, request, candidates, sources, canonical))
    && (plan.executable <==> !plan.totalCost.Unknown?)
  }

  /** Fewer places without an appointment than days without one: some day must stay empty. */
  ghost predicate Shortage(request: TripRequest, chosen: seq<Place>) {
    |chosen| < |request.appointments| + |P.FreeDays(request)|
  }

  /** The order of the places has a leg whose route shares its identifier with a later one between other places. */
  ghost predicate ShadowedOrder(routes: seq<Route>, places: seq<Place>) {
    Order(places, routes).Some? && ShadowedTour(routes, Order(places, routes).value)
  }

  /** What validation demands, in terms of the partition: no chosen price in a foreign currency, sound inputs, and
      no shadowed leg on any day. */
  ghost predicate CleanInputs(request: TripRequest, sources: Sources, candidates: seq<Place>, chosen: seq<Place>,
                              dayPlaces: seq<seq<Place>>)
  {
    && !ForeignPrice(request, chosen) && SoundSources(candidates, sources)
    && forall d :: 0 <= d < |dayPlaces| ==> !ShadowedOrder(sources.routes, dayPlaces[d])
  }

  lemma CleanToursCleanInputs(request: TripRequest, sources: Sources, candidates: seq<Place>, chosen: seq<Place>,
                              dayPlaces: seq<seq<Place>>, tours: seq<seq<Place>>)
    requires AreOrders(dayPlaces, sources.routes, tours)
    ensures Clean(request, sources, candidates, chosen, tours)
       <==> CleanInputs(request, sources, candidates, chosen, dayPlaces)
  {
    forall d | 0 <= d < |dayPlaces|
      ensures ShadowedOrder(sources.routes, dayPlaces[d]) <==> ShadowedTour(sources.routes, tours[d])
    {
      assert Order(dayPlaces[d], sources.routes) == Some(tours[d]);
    }
  }

  lemma ChosenIsAffordable(request: TripRequest, strategy: Strategy, candidates: seq<Place>, choice: seq<bool>)
    requires Posted(request, strategy, candidates, choice)
    requires request.budget.policy.Hard? ==> forall p :: p in candidates ==> !p.price.Unknown?
    ensures Affordable(request, Chosen(candidates, choice))
  {
    ChosenAreCandidates(candidates, choice);
    var chosen := Chosen(candidates, choice);
    forall k | 0 <= k < |chosen| && request.budget.policy.Hard? ensures !PricesOf(chosen)[k].Unknown? {
      assert chosen[k] in chosen;
    }
  }

  /** The errors raised before any variant is built. */
  predicate RequestError(error: PlanningError) {
    error.RunMismatch? || error.DuplicateFixedPlace? || error.MissingMustVisit? || error.InsufficientCandidates?
  }

  /** The errors of scheduling one day. */
  predicate DayError(error: PlanningError) {
    match error
    case RouteMatrixIncomplete => true
    case ClosedPlace(_) => true
    case FixedAppointmentConflict(_) => true
    case TimeWindowInfeasible(_) => true
    case DailyActivityLimitExceeded(_) => true
    case EmptyDay(_) => true
    case _ => false
  }

  /** From the chosen places to the timed days. */
  method PlanDays(request: TripRequest, sources: Sources, strategy: Strategy, chosen: seq<Place>)
    returns (r: Result<seq<Day>, PlanningError>, ghost dayPlaces: seq<seq<Place>>)
    requires request.Valid() && DistinctIds(chosen)
    requires P.Named(chosen, request.appointments) && P.DistinctNames(request.appointments)
    ensures P.IsPartition(chosen, request, dayPlaces)
    ensures r.Ok? <==> AllSchedulable(request, sources, strategy, dayPlaces)
    ensures r.Ok? ==> |r.value| == |dayPlaces| && ScheduledSoFar(request, sources, strategy, dayPlaces, r.value)
    ensures r.Ok? ==> !Shortage(request, chosen)
    ensures r.Err? && r.error.EmptyDay? ==> Shortage(request, chosen)
    ensures r.Err? ==> DayError(r.error) && SomeDayFails(request, sources, strategy, dayPlaces, r.error)
  {
    var distribution := P.PartitionPlaces(chosen, request);
    dayPlaces := distribution;
    PartitionHasDistinctDays(chosen, distribution);
    r := ScheduleDays(request, sources, strategy, distribution);
    if r.Err? {
      FailedDayIsEmpty(request, sources, strategy, distribution, r.error);
    } else {
      ScheduledDaysAreFilled(request, sources, strategy, distribution, r.value);
    }
  }

  /** The outcome of a variant: a plan exactly when every day of the partition can be scheduled and the inputs are
      clean; otherwise the fault of some day, or the failed validation. */
  ghost predicate VariantOutcome(request: TripRequest, sources: Sources, strategy: Strategy, candidates: seq<Place>,
                                 chosen: seq<Place>, dayPlaces: seq<seq<Place>>, r: Result<Plan, PlanningError>)
    requires request.Valid()
  {
    && P.Named(chosen, request.appointments) && P.IsPartition(chosen, request, dayPlaces)
    && (r.Ok? <==>
          && AllSchedulable(request, sources, strategy, dayPlaces)
          && CleanInputs(request, sources, candidates, chosen, dayPlaces))
    && match r
       case Ok(plan) => IsVariant(request, sources, strategy, candidates, chosen, plan)
       case Err(e) =>
         if AllSchedulable(request, sources, strategy, dayPlaces) then e == DeterministicValidationFailed
         else DayError(e) && SomeDayFails(request, sources, strategy, dayPlaces, e)
  }

  /** From the timed days to the validated plan. */
  method FinishVariant(request: TripRequest, sources: Sources, strategy: Strategy, candidates: seq<Place>,
                       chosen: seq<Place>, ghost dayPlaces: seq<seq<Place>>, days: seq<Day>)
    returns (r: Result<Plan, PlanningError>)
    requires request.Valid() && DistinctIds(candidates) && forall p :: p in chosen ==> p in candidates
    requires DistinctIds(chosen) && ValidPlaces(chosen) && P.Named(chosen, request.appointments)
    requires Affordable(request, chosen) && P.IsPartition(chosen, request, dayPlaces)
    requires |days| == |dayPlaces| && ScheduledSoFar(request, sources, strategy, dayPlaces, days)
    ensures r.Ok? <==> CleanInputs(request, sources, candidates, chosen, dayPlaces)
    ensures r.Ok? ==> IsVariant(request, sources, strategy, candidates, chosen, r.value)
    ensures r.Err? ==> r.error == DeterministicValidationFailed
  {
    var total := CostTotal(DailyCosts(days), request.budget.currency);
    PlanIsNamed(strategy);
    var plan := Plan("plan_" + StrategyName(strategy), days, total, !total.Unknown?);
    ghost var tours := AssembledIsItinerary(request, sources, strategy, chosen, dayPlaces, plan);
    var issues, canonical := ValidateItinerary(plan, request, candidates, sources);
    ItineraryIsClean(request, sources, strategy, chosen, tours, plan, candidates, canonical);
    CleanToursCleanInputs(request, sources, candidates, chosen, dayPlaces, tours);
    if !Passed(issues) {
      return Err(DeterministicValidationFailed);
    }
    return Ok(plan);
  }

  /** From the chosen places to the validated plan. */
  method AssembleVariant(request: TripRequest, sources: Sources, strategy: Strategy, candidates: seq<Place>,
                         chosen: seq<Place>)
    returns (r: Result<Plan, PlanningError>, ghost dayPlaces: seq<seq<Place>>)
    requires request.Valid() && DistinctIds(candidates) && forall p :: p in chosen ==> p in candidates
    requires DistinctIds(chosen) && ValidPlaces(chosen) && P.DistinctNames(request.appointments)
    requires P.Named(chosen, request.appointments) && Affordable(request, chosen)
    ensures VariantOutcome(request, sources, strategy, candidates, chosen, dayPlaces, r)
    ensures Shortage(request, chosen) ==> r.Err?
    ensures r.Err? && r.error.EmptyDay? ==> Shortage(request, chosen)
  {
    var days;
    days, dayPlaces := PlanDays(request, sources, strategy, chosen);
    if days.Err? {
      r := Err(days.error);
    } else {
      r := FinishVariant(request, sources, strategy, candidates, chosen, dayPlaces, days.value);
    }
  }

  /** Some candidate has no price although the budget is hard. */
  ghost predicate Unverifiable(request: TripRequest, candidates: seq<Place>) {
    request.budget.policy.Hard? && exists p :: p in candidates && p.price.Unknown?
  }

  /** The outcome of one variant for a solver's answer, and the partition it was built from. */
  ghost predicate BuiltAs(request: TripRequest, sources: Sources, strategy: Strategy, candidates: seq<Place>,
                          choice: Option<seq<bool>>, dayPlaces: seq<seq<Place>>, r: Result<Plan, PlanningError>)
    requires request.Valid() && (choice.Some? ==> |choice.value| == |candidates|)
  {
    if Unverifiable(request, candidates) then
      exists i :: IsFirstUnpriced(candidates, i) && r == Err(PlanningError.BudgetUnverifiable(candidates[i].name))
    else if choice.None? then r == Err(HardConstraintsInfeasible)
    else VariantOutcome(request, sources, strategy, candidates, Chosen(candidates, choice.value), dayPlaces, r)
  }

  method BuildVariant(request: TripRequest, sources: Sources, strategy: Strategy, candidates: seq<Place>,
                      choice: Option<seq<bool>>)
    returns (r: Result<Plan, PlanningError>, ghost dayPlaces: seq<seq<Place>>)
    requires WellPosed(request, candidates)
    requires choice.Some? ==> Posted(request, strategy, candidates, choice.value)
    ensures BuiltAs(request, sources, strategy, candidates, choice, dayPlaces, r)
    ensures (r.Err? && r.error.BudgetUnverifiable?) <==> Unverifiable(request, candidates)
    ensures r == Err(HardConstraintsInfeasible) <==> !Unverifiable(request, candidates) && choice.None?
    ensures choice.Some? && Shortage(request, Chosen(candidates, choice.value)) ==> r.Err?
    ensures r.Err? && r.error.EmptyDay? ==> choice.Some? && Shortage(request, Chosen(candidates, choice.value))
  {
    dayPlaces := [];
    var unpriced := FirstUnpriced(candidates);
    if request.budget.policy.Hard? && unpriced.Some? {
      ghost var i := FirstUnpricedIsFirst(candidates);
      r := Err(PlanningError.BudgetUnverifiable(unpriced.value.name));
    } else if choice.None? {
      r := Err(HardConstraintsInfeasible);
    } else {
      var chosen := Chosen(candidates, choice.value);
      ChosenIsPartitionable(request, strategy, candidates, choice.value);
      ChosenAreCandidates(candidates, choice.value);
      ChosenIsAffordable(request, strategy, candidates, choice.value);
      r, dayPlaces := AssembleVariant(request, sources, strategy, candidates, chosen);
    }
  }

  /** The economy and relaxed variants select the minimum count, so for them the shortage shows in the request. */
  lemma TightVariantsRunShort(request: TripRequest, strategy: Strategy, candidates: seq<Place>, choice: seq<bool>)
    requires !strategy.Balanced? && Posted(request, strategy, candidates, choice)
    ensures Shortage(request, Chosen(candidates, choice)) <==>
              MinimumCount(request, candidates) < |request.appointments| + |P.FreeDays(request)|
  {
  }

  // ----- Solving -----

  function StrategyOrder(): (order: seq<Strategy>) {
    [Balanced, Economy, Relaxed]
  }

  ghost predicate SolverAnswers(request: TripRequest, candidates: seq<Place>, choices: seq<Option<seq<bool>>>) {
    && |choices| == 3
    && forall s :: 0 <= s < 3 && choices[s].Some? ==> Posted(request, StrategyOrder()[s], candidates, choices[s].value)
  }

  /** Plans for the first strategies, each built from its selection. */
  ghost predicate AreVariants(request: TripRequest, sources: Sources, candidates: seq<Place>,
                              choices: seq<Option<seq<bool>>>, plans: seq<Plan>)
    requires request.Valid() && SolverAnswers(request, candidates, choices)
  {
    && |plans| <= 3
    && forall s :: 0 <= s < |plans| ==>
         choices[s].Some?
         && IsVariant(request, sources, StrategyOrder()[s], candidates, Chosen(candidates, choices[s].value), plans[s])
  }

  /** Strategy number s, built from the given partition, has this outcome. */
  ghost predicate Attempt(request: TripRequest, sources: Sources, candidates: seq<Place>,
                          choices: seq<Option<seq<bool>>>, partitions: seq<seq<seq<Place>>>, s: nat,
                          r: Result<Plan, PlanningError>)
    requires request.Valid() && SolverAnswers(request, candidates, choices)
  {
    && s < 3 && s < |partitions|
    && BuiltAs(request, sources, StrategyOrder()[s], candidates, choices[s], partitions[s], r)
  }

  /** The strategies are tried in order, each on its own partition, until one fails. */
  ghost predicate Attempts(request: TripRequest, sources: Sources, candidates: seq<Place>,
                           choices: seq<Option<seq<bool>>>, partitions: seq<seq<seq<Place>>>, plans: seq<Plan>,
                           r: Result<seq<Plan>, PlanningError>)
    requires request.Valid() && SolverAnswers(request, candidates, choices)
  {
    && (forall s :: 0 <= s < |plans| ==> Attempt(request, sources, candidates, choices, partitions, s, Ok(plans[s])))
    && match r
       case Ok(all) => |plans| == |partitions| == 3 && all == plans
       case Err(e) =>
         && |partitions| == |plans| + 1
         && Attempt(request, sources, candidates, choices, partitions, |plans|, Err(e))
  }

  /** The condition for a strategy to bring a plan, as it can be read off its partition. */
  ghost predicate Succeeds(request: TripRequest, sources: Sources, candidates: seq<Place>,
                           choices: seq<Option<seq<bool>>>, partitions: seq<seq<seq<Place>>>, s: nat)
    requires request.Valid() && SolverAnswers(request, candidates, choices) && s < 3 && s < |partitions|
  {
    && !Unverifiable(request, candidates) && choices[s].Some?
    && CleanInputs(request, sources, candidates, Chosen(candidates, choices[s].value), partitions[s])
    && AllSchedulable(request, sources, StrategyOrder()[s], partitions[s])
  }

  /** A fault of the inputs that shows before anything is planned. */
  ghost predicate Faulty(request: TripRequest, sources: Sources, candidates: seq<Place>) {
    ForeignPrice(request, candidates) || !SoundSources(candidates, sources) || !DistinctRouteIds(sources.routes)
  }

  lemma UncleanMeansFaulty(request: TripRequest, sources: Sources, candidates: seq<Place>, chosen: seq<Place>,
                           dayPlaces: seq<seq<Place>>)
    requires !CleanInputs(request, sources, candidates, chosen, dayPlaces)
    requires forall p :: p in chosen ==> p in candidates
    ensures Faulty(request, sources, candidates)
  {
    if d :| 0 <= d < |dayPlaces| && ShadowedOrder(sources.routes, dayPlaces[d]) {
      if DistinctRouteIds(sources.routes) {
        UniqueIdsCastNoShadow(sources.routes, Order(dayPlaces[d], sources.routes).value);
      }
    }
  }

  lemma AttemptIsExact(request: TripRequest, sources: Sources, candidates: seq<Place>,
                       choices: seq<Option<seq<bool>>>, partitions: seq<seq<seq<Place>>>, s: nat,
                       r: Result<Plan, PlanningError>)
    requires request.Valid() && SolverAnswers(request, candidates, choices)
    requires Attempt(request, sources, candidates, choices, partitions, s, r)
    ensures r.Ok? <==> Succeeds(request, sources, candidates, choices, partitions, s)
    ensures r.Err? ==> !RequestError(r.error)
    ensures r == Err(DeterministicValidationFailed) ==> Faulty(request, sources, candidates)
    ensures r.Ok? ==> IsVariant(request, sources, StrategyOrder()[s], candidates,
                                Chosen(candidates, choices[s].value), r.value)
  {
    if choices[s].Some? {
      var chosen := Chosen(candidates, choices[s].value);
      ChosenAreCandidates(candidates, choices[s].value);
      if !CleanInputs(request, sources, candidates, chosen, partitions[s]) {
        UncleanMeansFaulty(request, sources, candidates, chosen, partitions[s]);
      }
    }
  }

  /** All three plans come back exactly if every strategy meets its condition; the first that does not gives the
      error. */
  lemma AttemptsAreExact(request: TripRequest, sources: Sources, candidates: seq<Place>,
                         choices: seq<Option<seq<bool>>>, partitions: seq<seq<seq<Place>>>, plans: seq<Plan>,
                         r: Result<seq<Plan>, PlanningError>)
    requires request.Valid() && SolverAnswers(request, candidates, choices)
    requires Attempts(request, sources, candidates, choices, partitions, plans, r)
    ensures 1 <= |partitions| <= 3
    ensures forall s :: 0 <= s < |partitions| - 1 ==> Succeeds(request, sources, candidates, choices, partitions, s)
    ensures r.Ok? <==> Succeeds(request, sources, candidates, choices, partitions, |partitions| - 1)
    ensures r.Ok? ==> |r.value| == 3 && AreVariants(request, sources, candidates, choices, r.value)
    ensures r.Err? ==> !RequestError(r.error)
    ensures r == Err(DeterministicValidationFailed) ==> Faulty(request, sources, candidates)
  {
    forall s: nat | s < |plans|
      ensures s < |partitions| && choices[s].Some?
      ensures Succeeds(request, sources, candidates, choices, partitions, s)
      ensures IsVariant(request, sources, StrategyOrder()[s], candidates,
                        Chosen(candidates, choices[s].value), plans[s])
    {
      AttemptIsExact(request, sources, candidates, choices, partitions, s, Ok(plans[s]));
    }
    if r.Err? {
      AttemptIsExact(request, sources, candidates, choices, partitions, |plans|, Err(r.error));
    }
  }

  lemma NamesCount(request: TripRequest)
    ensures |AppointmentNames(request)| == |request.appointments| <==> P.DistinctNames(request.appointments)
  {
    var appointments := request.appointments;
    var names := seq(|appointments|, i requires 0 <= i < |appointments| => appointments[i].placeName);
    DistinctSize(names);
    forall name ensures name in Elements(names) <==> name in AppointmentNames(request) {
      if name in AppointmentNames(request) {
        var a :| a in appointments && a.placeName == name;
        var i :| 0 <= i < |appointments| && appointments[i] == a;
        assert names[i] == name;
      }
    }
    assert Elements(names) == AppointmentNames(request);
    assert forall i :: 0 <= i < |names| ==> names[i] == appointments[i].placeName;
  }

  /** Every strategy tried so far brought its plan. */
  ghost predicate Tried(request: TripRequest, sources: Sources, candidates: seq<Place>,
                        choices: seq<Option<seq<bool>>>, partitions: seq<seq<seq<Place>>>, plans: seq<Plan>)
    requires request.Valid() && SolverAnswers(request, candidates, choices)
  {
    && |partitions| == |plans| <= 3
    && forall s :: 0 <= s < |plans| ==> Attempt(request, sources, candidates, choices, partitions, s, Ok(plans[s]))
  }

  lemma AttemptStays(request: TripRequest, sources: Sources, candidates: seq<Place>,
                     choices: seq<Option<seq<bool>>>, partitions: seq<seq<seq<Place>>>, next: seq<seq<Place>>,
                     s: nat, r: Result<Plan, PlanningError>)
    requires request.Valid() && SolverAnswers(request, candidates, choices)
    requires Attempt(request, sources, candidates, choices, partitions, s, r)
    ensures Attempt(request, sources, candidates, choices, partitions + [next], s, r)
  {
    assert (partitions + [next])[s] == partitions[s];
  }

  lemma AllAttemptsStay(request: TripRequest, sources: Sources, candidates: seq<Place>,
                        choices: seq<Option<seq<bool>>>, partitions: seq<seq<seq<Place>>>, next: seq<seq<Place>>,
                        plans: seq<Plan>)
    requires request.Valid() && SolverAnswers(request, candidates, choices)
    requires Tried(request, sources, candidates, choices, partitions, plans)
    ensures forall s :: 0 <= s < |plans| ==>
              Attempt(request, sources, candidates, choices, partitions + [next], s, Ok(plans[s]))
  {
    forall s: nat | s < |plans|
      ensures Attempt(request, sources, candidates, choices, partitions + [next], s, Ok(plans[s]))
    {
      AttemptStays(request, sources, candidates, choices, partitions, next, s, Ok(plans[s]));
    }
  }

  lemma AttemptIsAdded(request: TripRequest, sources: Sources, candidates: seq<Place>,
                       choices: seq<Option<seq<bool>>>, partitions: seq<seq<seq<Place>>>, next: seq<seq<Place>>,
                       r: Result<Plan, PlanningError>)
    requires request.Valid() && SolverAnswers(request, candidates, choices) && |partitions| < 3
    requires BuiltAs(request, sources, StrategyOrder()[|partitions|], candidates, choices[|partitions|], next, r)
    ensures Attempt(request, sources, candidates, choices, partitions + [next], |partitions|, r)
  {
    assert (partitions + [next])[|partitions|] == next;
  }

  /** One more strategy tried: either its plan joins the others, or its error ends the attempts. */
  lemma TriedOneMore(request: TripRequest, sources: Sources, candidates: seq<Place>,
                     choices: seq<Option<seq<bool>>>, partitions: seq<seq<seq<Place>>>, next: seq<seq<Place>>,
                     plans: seq<Plan>, r: Result<Plan, PlanningError>)
    requires request.Valid() && SolverAnswers(request, candidates, choices) && |plans| < 3
    requires Tried(request, sources, candidates, choices, partitions, plans)
    requires BuiltAs(request, sources, StrategyOrder()[|plans|], candidates, choices[|plans|], next, r)
    ensures r.Ok? ==> Tried(request, sources, candidates, choices, partitions + [next], plans + [r.value])
    ensures r.Err? ==> Attempts(request, sources, candidates, choices, partitions + [next], plans, Err(r.error))
  {
    AttemptIsAdded(request, sources, candidates, choices, partitions, next, r);
    AllAttemptsStay(request, sources, candidates, choices, partitions, next, plans);
  }

  method BuildVariants(request: TripRequest, sources: Sources, candidates: seq<Place>,
                       choices: seq<Option<seq<bool>>>)
    returns (r: Result<seq<Plan>, PlanningError>, ghost partitions: seq<seq<seq<Place>>>, ghost plans: seq<Plan>)
    requires WellPosed(request, candidates) && SolverAnswers(request, candidates, choices)
    ensures Attempts(request, sources, candidates, choices, partitions, plans, r)
  {
    var built: seq<Plan> := [];
    partitions := [];
    for s := 0 to 3
      invariant |built| == s && Tried(request, sources, candidates, choices, partitions, built)
    {
      var plan, dayPlaces := BuildVariant(request, sources, StrategyOrder()[s], candidates, choices[s]);
      TriedOneMore(request, sources, candidates, choices, partitions, dayPlaces, built, plan);
      partitions := partitions + [dayPlaces];
      if plan.Err? {
        return Err(plan.error), partitions, built;
      }
      built := built + [plan.value];
    }
    return Ok(built), partitions, built;
  }

  /** The request passes the checks made before any variant is built. */
  ghost predicate Answerable(request: TripRequest, candidates: seq<Place>) {
    && P.DistinctNames(request.appointments) && RequiredNames(request) <= NamesOf(candidates)
    && |candidates| >= request.days
  }

  /** What is wrong with a request that cannot be answered: the first check that fails. */
  ghost predicate RequestFault(request: TripRequest, candidates: seq<Place>, error: PlanningError) {
    var missing := RequiredNames(request) - NamesOf(candidates);
    match error
    case DuplicateFixedPlace => !P.DistinctNames(request.appointments)
    case MissingMustVisit(names) => P.DistinctNames(request.appointments) && names == missing && missing != {}
    case InsufficientCandidates =>
      P.DistinctNames(request.appointments) && missing == {} && |candidates| < request.days
    case _ => false
  }

  /** The checks made before any variant is built, in their order. */
  method CheckRequest(request: TripRequest, candidates: seq<Place>) returns (fault: Option<PlanningError>)
    ensures fault.None? <==> Answerable(request, candidates)
    ensures fault.Some? ==> RequestFault(request, candidates, fault.value)
  {
    NamesCount(request);
    if |AppointmentNames(request)| != |request.appointments| {
      return Some(DuplicateFixedPlace);
    }
    var missing := RequiredNames(request) - NamesOf(candidates);
    EmptyDifference(RequiredNames(request), NamesOf(candidates));
    if missing != {} {
      return Some(MissingMustVisit(missing));
    }
    return if |candidates| < request.days then Some(InsufficientCandidates) else None;
  }

  /** The whole planner, for the run of the request and those the two input artifacts belong to. */
  method Solve(request: TripRequest, runId: string, destinationRun: string, mobilityRun: string, places: seq<Place>,
               sources: Sources, choices: seq<Option<seq<bool>>>)
    returns (r: Result<seq<Plan>, PlanningError>, ghost partitions: seq<seq<seq<Place>>>, ghost plans: seq<Plan>)
    requires request.Valid() && ValidPlaces(places) && DistinctIds(places)
    requires SolverAnswers(request, Candidates(places, request.excluded), choices)
    ensures var candidates := Candidates(places, request.excluded);
            var ownRun := destinationRun == runId && mobilityRun == runId;
            && (r == Err(RunMismatch) <==> !ownRun)
            && (ownRun && !Answerable(request, candidates) ==> r.Err? && RequestFault(request, candidates, r.error))
            && (ownRun && Answerable(request, candidates) ==>
                  Attempts(request, sources, candidates, choices, partitions, plans, r))
            && (r.Ok? <==>
                  && ownRun && Answerable(request, candidates) && |partitions| == 3
                  && forall s :: 0 <= s < 3 ==> Succeeds(request, sources, candidates, choices, partitions, s))
    ensures r.Ok? ==> |r.value| == 3
    ensures r.Ok? ==> AreVariants(request, sources, Candidates(places, request.excluded), choices, r.value)
    ensures r == Err(DeterministicValidationFailed) ==>
              Faulty(request, sources, Candidates(places, request.excluded))
  {
    if destinationRun != runId || mobilityRun != runId {
      return Err(RunMismatch), [], [];
    }
    var candidates := Candidates(places, request.excluded);
    CandidatesAreAllowed(places, request.excluded);
    var fault := CheckRequest(request, candidates);
    if fault.Some? {
      return Err(fault.value), [], [];
    }
    r, partitions, plans := BuildVariants(request, sources, candidates, choices);
    AttemptsAreExact(request, sources, candidates, choices, partitions, plans, r);
  }
}
