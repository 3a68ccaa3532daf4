/** Excluding a place: the route matrix is checked against all places found, the plan against those the request
    does not exclude, so a route to an excluded place makes every variant fail. */
module ExcludedPlaces {
  import opened Common
  import opened Itinerary
  import opened RouteOrder
  import opened DaySchedule
  import opened Validators
  import opened References
  import opened ReferenceAudit
  import opened PlanAudit
  import opened Planner
  import opened CrowdedTrip
  import P = Partition

  // ----- The condition -----

  /** What a route matrix enforces for the places found. */
  ghost predicate MatrixFits(places: seq<Place>, routes: seq<Route>) {
    && DistinctRouteIds(routes)
    && forall r :: r in routes ==> r.origin in PlaceIds(places) && r.destination in PlaceIds(places)
  }

  ghost predicate IsExcluded(places: seq<Place>, excluded: seq<string>, id: string) {
    exists p :: p in places && p.name in excluded && p.placeId == id
  }

  /** Some route starts or ends at an excluded place. */
  ghost predicate ReachesExcluded(places: seq<Place>, excluded: seq<string>, routes: seq<Route>) {
    exists r :: r in routes && (IsExcluded(places, excluded, r.origin) || IsExcluded(places, excluded, r.destination))
  }

  lemma SamePlace(places: seq<Place>, p: Place, q: Place)
    requires DistinctIds(places) && p in places && q in places && p.placeId == q.placeId
    ensures p == q
  {
  }

  /** An identifier of a place found is that of a candidate unless the place is excluded. */
  lemma IdStays(places: seq<Place>, excluded: seq<string>, id: string)
    requires DistinctIds(places) && id in PlaceIds(places)
    ensures id in PlaceIds(Candidates(places, excluded)) <==> !IsExcluded(places, excluded, id)
  {
    CandidatesAreAllowed(places, excluded);
    var p :| p in places && p.placeId == id;
    forall q | q in places && q.placeId == id ensures q == p {
      SamePlace(places, p, q);
    }
  }

  lemma RouteStaysSound(places: seq<Place>, excluded: seq<string>, route: Route, evidence: seq<string>)
    requires DistinctIds(places) && SoundRoute(route, places, evidence)
    ensures SoundRoute(route, Candidates(places, excluded), evidence)
       <==> !IsExcluded(places, excluded, route.origin) && !IsExcluded(places, excluded, route.destination)
  {
    CandidatesAreAllowed(places, excluded);
    IdStays(places, excluded, route.origin);
    IdStays(places, excluded, route.destination);
  }

  /** Inputs that are sound for all places found stay sound for the candidates exactly if no route starts or ends
      at an excluded place. */
  lemma ExclusionIsSoundExactly(places: seq<Place>, excluded: seq<string>, sources: Sources)
    requires DistinctIds(places) && SoundSources(places, sources)
    ensures SoundSources(Candidates(places, excluded), sources)
       <==> !ReachesExcluded(places, excluded, sources.routes)
  {
    CandidatesAreAllowed(places, excluded);
    var candidates := Candidates(places, excluded);
    forall r | r in sources.routes
      ensures SoundRoute(r, candidates, sources.evidence)
         <==> !IsExcluded(places, excluded, r.origin) && !IsExcluded(places, excluded, r.destination)
    {
      RouteStaysSound(places, excluded, r, sources.evidence);
    }
  }

  lemma ReachingExcludedIsUnsound(places: seq<Place>, excluded: seq<string>, sources: Sources)
    requires DistinctIds(places) && MatrixFits(places, sources.routes)
    requires ReachesExcluded(places, excluded, sources.routes)
    ensures !SoundSources(Candidates(places, excluded), sources)
  {
    var route :| route in sources.routes
      && (IsExcluded(places, excluded, route.origin) || IsExcluded(places, excluded, route.destination));
    IdStays(places, excluded, route.origin);
    IdStays(places, excluded, route.destination);
    assert !SoundRoute(route, Candidates(places, excluded), sources.evidence);
  }

  lemma UnsoundNeverSucceeds(request: TripRequest, sources: Sources, candidates: seq<Place>,
                             choices: seq<Option<seq<bool>>>, partitions: seq<seq<seq<Place>>>, s: nat)
    requires request.Valid() && SolverAnswers(request, candidates, choices) && s < 3 && s < |partitions|
    requires !SoundSources(candidates, sources)
    ensures !Succeeds(request, sources, candidates, choices, partitions, s)
  {
  }

  lemma UnsoundFails(request: TripRequest, sources: Sources, candidates: seq<Place>,
                     choices: seq<Option<seq<bool>>>, partitions: seq<seq<seq<Place>>>, plans: seq<Plan>,
                     r: Result<seq<Plan>, PlanningError>)
    requires request.Valid() && SolverAnswers(request, candidates, choices) && !SoundSources(candidates, sources)
    requires Attempts(request, sources, candidates, choices, partitions, plans, r)
    ensures r.Err? && plans == []
  {
    forall s: nat | s < 3 && s < |partitions| ensures !Succeeds(request, sources, candidates, choices, partitions, s) {
      UnsoundNeverSucceeds(request, sources, candidates, choices, partitions, s);
    }
    AttemptsAreExact(request, sources, candidates, choices, partitions, plans, r);
    assert !Succeeds(request, sources, candidates, choices, partitions, 0);
  }

  /** A request that can be answered gets no plans when a route starts or ends at an excluded place. */
  lemma ReachingExcludedFails(request: TripRequest, places: seq<Place>, sources: Sources,
                              choices: seq<Option<seq<bool>>>, partitions: seq<seq<seq<Place>>>, plans: seq<Plan>,
                              r: Result<seq<Plan>, PlanningError>)
    requires request.Valid() && DistinctIds(places) && MatrixFits(places, sources.routes)
    requires SolverAnswers(request, Candidates(places, request.excluded), choices)
    requires Attempts(request, sources, Candidates(places, request.excluded), choices, partitions, plans, r)
    requires ReachesExcluded(places, request.excluded, sources.routes)
    ensures r.Err? && plans == []
  {
    ReachingExcludedIsUnsound(places, request.excluded, sources);
    UnsoundFails(request, sources, Candidates(places, request.excluded), choices, partitions, plans, r);
  }

  // ----- A one-day trip -----

  /** A day in the place "a"; a second place is excluded. */
  function DayTrip(): TripRequest {
    TripRequest(START, 1, Window(540, 1260), [], ["x"], [], 600, Budget(100, "CNY", Flexible))
  }

  function Found(): seq<Place> {
    [Stop("a"), Stop("x")]
  }

  /** The matrix with or without the route between the two places. */
  function Matrix(full: bool): Sources {
    Sources(if full then [Route("ax", "a", "x", 30, GCJ02, ["e"])] else [], [], ["e"])
  }

  lemma OnlyOneCandidate()
    ensures Candidates(Found(), DayTrip().excluded) == [Stop("a")]
  {
    assert Found()[..1] == [Stop("a")] && [Stop("a")][..0] == [];
    assert Candidates([Stop("a")], ["x"]) == [Stop("a")];
  }

  lemma MatrixIsSound(full: bool)
    ensures DistinctIds(Found()) && MatrixFits(Found(), Matrix(full).routes) && SoundSources(Found(), Matrix(full))
  {
    assert PlaceIds(Found())[0] == "a" && PlaceIds(Found())[1] == "x";
    assert forall p :: p in Found() ==> p.system == GCJ02 && p.evidenceIds == ["e"];
    assert forall r :: r in Matrix(full).routes ==> r == Matrix(full).routes[0];
    assert "e" in Matrix(full).evidence;
  }

  lemma RouteReachesExcluded(full: bool)
    ensures ReachesExcluded(Found(), DayTrip().excluded, Matrix(full).routes) <==> full
  {
    if full {
      var p, r := Found()[1], Matrix(full).routes[0];
      assert DayTrip().excluded[0] == "x";
      assert p in Found() && r in Matrix(full).routes && IsExcluded(Found(), DayTrip().excluded, r.destination);
    }
  }

  lemma NothingIsRequired()
    ensures RequiredNames(DayTrip()) == {}
  {
    assert AppointmentNames(DayTrip()) == {} && Elements(DayTrip().mustVisit) == {};
  }

  /** Every variant may select the one candidate, and nothing else. */
  lemma OneSelection(strategy: Strategy, choice: seq<bool>)
    ensures Posted(DayTrip(), strategy, [Stop("a")], choice) <==> choice == [true]
    ensures Chosen([Stop("a")], [true]) == [Stop("a")]
  {
    NothingIsRequired();
    assert [Stop("a")][..0] == [];
    assert RequiredAmong([Stop("a")], {}) == [];
    assert MinimumCount(DayTrip(), [Stop("a")]) == 1;
    assert Chosen([Stop("a")], [true]) == [Stop("a")] && Chosen([Stop("a")], [false]) == [];
    if |choice| == 1 {
      assert if choice[0] then choice == [true] else choice == [false];
    }
    assert forall p :: p in [Stop("a")] ==> p.name !in RequiredNames(DayTrip());
  }

  lemma OneDay(days: seq<seq<Place>>)
    requires P.Named([Stop("a")], DayTrip().appointments) && P.IsPartition([Stop("a")], DayTrip(), days)
    ensures days == [[Stop("a")]]
  {
    assert days == [days[0]] && days[..0] == [];
    assert P.Concat(days) == [] + days[0] == days[0];
    RearrangedLength(days[0], [Stop("a")]);
    RearrangedMember(days[0], [Stop("a")], days[0][0]);
    assert days[0] == [days[0][0]];
  }

  lemma TheDayIsSchedulable(full: bool, strategy: Strategy)
    ensures Schedulable(ContextOn(DayTrip(), Matrix(full), strategy, 0), [Stop("a")])
  {
    var c, place := ContextOn(DayTrip(), Matrix(full), strategy, 0), Stop("a");
    OpenOnBothDays("a", START);
    assert AppointmentFor(DayTrip().appointments, START, "a").None?;
    assert Stay(c, place) == 60;
    assert StopFits(c, [place], [At(START, 540)], 0);
    assert Feasible(c, [place], [At(START, 540)]);
    StayOfPair(c, place, place);
  }

  lemma TheDayIsClean(full: bool)
    ensures CleanInputs(DayTrip(), Matrix(full), [Stop("a")], [Stop("a")], [[Stop("a")]]) <==> !full
  {
    MatrixIsSound(full);
    OnlyOneCandidate();
    RouteReachesExcluded(full);
    ExclusionIsSoundExactly(Found(), DayTrip().excluded, Matrix(full));
    UniqueIdsCastNoShadow(Matrix(full).routes, [Stop("a")]);
  }

  /** Every variant of the trip succeeds without the route to the excluded place and fails its validation with it. */
  lemma RouteToExcludedFails(full: bool, strategy: Strategy, days: seq<seq<Place>>, r: Result<Plan, PlanningError>)
    requires VariantOutcome(DayTrip(), Matrix(full), strategy, [Stop("a")], [Stop("a")], days, r)
    ensures if full then r == Err(DeterministicValidationFailed) else r.Ok?
  {
    OneDay(days);
    TheDayIsSchedulable(full, strategy);
    TheDayIsClean(full);
    assert forall d :: 0 <= d < 1 ==> days[d] == [Stop("a")];
    assert AllSchedulable(DayTrip(), Matrix(full), strategy, days);
  }
}
