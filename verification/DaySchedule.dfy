/** Timing one day's visits along a route order: every visit starts as early as travel, opening hours and
    fixed appointments allow, and the day fails exactly when no timing of that order works. */
module DaySchedule {
  import opened Common
  import opened Itinerary
  import opened RouteOrder

  datatype PlanningError =
    | DuplicateFixedPlace
    | MissingMustVisit(names: set<string>)
    | InsufficientCandidates
    | RunMismatch
    | BudgetUnverifiable(name: string)
    | HardConstraintsInfeasible
    | RouteMatrixIncomplete
    | ClosedPlace(name: string)
    | FixedAppointmentConflict(title: string)
    | TimeWindowInfeasible(name: string)
    | DailyActivityLimitExceeded(date: int)
    | EmptyDay(date: int)
    | DeterministicValidationFailed

  datatype Context = Context(request: TripRequest, date: int, sources: Sources, strategy: Strategy)

  function FirstPeriod(periods: seq<OpeningPeriod>, weekday: nat): (found: Option<OpeningPeriod>)
    ensures found.Some? ==> found.value in periods && found.value.weekday == weekday
    ensures found.None? ==> forall p :: p in periods ==> p.weekday != weekday
  {
    if periods == [] then None
    else if periods[0].weekday == weekday then Some(periods[0])
    else FirstPeriod(periods[1..], weekday)
  }

  function OpeningOn(place: Place, date: int): Option<OpeningPeriod> {
    if place.opening.None? || date in place.opening.value.specialClosures then None
    else FirstPeriod(place.opening.value.periods, WeekdayOf(date))
  }

  function AppointmentFor(appointments: seq<Appointment>, date: int, name: string): (found: Option<Appointment>)
    ensures found.Some? ==>
              found.value in appointments && found.value.date == date && found.value.placeName == name
    ensures found.None? ==> forall a :: a in appointments ==> a.date != date || a.placeName != name
  {
    if appointments == [] then None
    else if appointments[0].date == date && appointments[0].placeName == name then Some(appointments[0])
    else AppointmentFor(appointments[1..], date, name)
  }

  /** When several routes join the same two places the last one listed is used. */
  function RouteBetween(routes: seq<Route>, origin: string, destination: string): (found: Option<Route>)
    ensures found.Some? ==>
              found.value in routes && found.value.origin == origin && found.value.destination == destination
    ensures found.None? ==> (origin, destination) !in EdgesOf(routes)
  {
    if routes == [] then None
    else
      var last := routes[|routes| - 1];
      if last.origin == origin && last.destination == destination then Some(last)
      else RouteBetween(routes[..|routes| - 1], origin, destination)
  }

  function Stay(c: Context, place: Place): nat
    requires c.request.Valid()
  {
    var appointment := AppointmentFor(c.request.appointments, c.date, place.name);
    if appointment.Some? then appointment.value.end - appointment.value.start
    else if c.strategy.Balanced? then place.maximumMinutes
    else place.minimumMinutes
  }

  function Travel(c: Context, from: Place, to: Place): nat {
    var route := RouteBetween(c.sources.routes, from.placeId, to.placeId);
    if route.Some? then route.value.minutes else 0
  }

  /** A visit to the place starting then keeps its appointment, its opening period and the daily window. */
  predicate Fits(c: Context, place: Place, start: int)
    requires c.request.Valid()
  {
    var opening := OpeningOn(place, c.date);
    var appointment := AppointmentFor(c.request.appointments, c.date, place.name);
    && opening.Some?
    && (appointment.Some? ==> start == At(c.date, appointment.value.start))
    && At(c.date, opening.value.opens) <= start
    && start + Stay(c, place) <= At(c.date, opening.value.closes)
    && start + Stay(c, place) <= At(c.date, c.request.window.end)
  }

  /** The start the scheduler picks for a place reached at the cursor. */
  function EarliestStart(c: Context, place: Place, cursor: int): Result<int, PlanningError>
    requires c.request.Valid()
  {
    var opening := OpeningOn(place, c.date);
    if opening.None? then Err(ClosedPlace(place.name))
    else
      var opensAt := At(c.date, opening.value.opens);
      var closesAt := At(c.date, opening.value.closes);
      var dayEnd := At(c.date, c.request.window.end);
      var appointment := AppointmentFor(c.request.appointments, c.date, place.name);
      if appointment.Some? && At(c.date, appointment.value.start) < cursor then
        Err(FixedAppointmentConflict(appointment.value.title))
      else
        var start := if appointment.Some? then At(c.date, appointment.value.start)
                     else if cursor < opensAt then opensAt else cursor;
        var end := start + Stay(c, place);
        if start < opensAt || end > closesAt || end > dayEnd then Err(TimeWindowInfeasible(place.name))
        else Ok(start)
  }

  /** Why no start from the cursor on fits the place. */
  ghost predicate Misfit(c: Context, place: Place, cursor: int, error: PlanningError) {
    match error
    case ClosedPlace(name) => name == place.name && OpeningOn(place, c.date).None?
    case FixedAppointmentConflict(title) =>
      exists a :: a in c.request.appointments && a.title == title && a.date == c.date
               && a.placeName == place.name && At(c.date, a.start) < cursor
    case TimeWindowInfeasible(name) => name == place.name && OpeningOn(place, c.date).Some?
    case _ => false
  }

  /** The picked start is the earliest one that fits, and none is picked only if none fits. */
  lemma EarliestStartIsExact(c: Context, place: Place, cursor: int)
    requires c.request.Valid()
    ensures match EarliestStart(c, place, cursor)
            case Ok(start) =>
              && cursor <= start && Fits(c, place, start)
              && (forall s :: cursor <= s && Fits(c, place, s) ==> start <= s)
            case Err(error) =>
              && (forall s :: cursor <= s ==> !Fits(c, place, s))
              && Misfit(c, place, cursor, error)
  {
  }

  // ----- Timings of a tour -----

  /** The earliest moment stop number k can be reached when the stops before it start as given. */
  function ReadyAt(c: Context, tour: seq<Place>, starts: seq<int>, k: nat): int
    requires c.request.Valid() && k < |tour| && k <= |starts|
  {
    if k == 0 then At(c.date, c.request.window.start)
    else starts[k - 1] + Stay(c, tour[k - 1]) + Travel(c, tour[k - 1], tour[k])
  }

  ghost predicate StopFits(c: Context, tour: seq<Place>, starts: seq<int>, k: nat)
    requires c.request.Valid() && k < |starts| <= |tour|
  {
    ReadyAt(c, tour, starts, k) <= starts[k] && Fits(c, tour[k], starts[k])
  }

  ghost predicate FeasibleSoFar(c: Context, tour: seq<Place>, starts: seq<int>)
    requires c.request.Valid()
  {
    |starts| <= |tour| && forall k :: 0 <= k < |starts| ==> StopFits(c, tour, starts, k)
  }

  ghost predicate Feasible(c: Context, tour: seq<Place>, starts: seq<int>)
    requires c.request.Valid()
  {
    |starts| == |tour| && FeasibleSoFar(c, tour, starts)
  }

  ghost predicate NoTiming(c: Context, tour: seq<Place>)
    requires c.request.Valid()
  {
    forall starts :: !Feasible(c, tour, starts)
  }

  predicate NoLater(starts: seq<int>, other: seq<int>) {
    |starts| <= |other| && forall k :: 0 <= k < |starts| ==> starts[k] <= other[k]
  }

  /** No feasible timing starts any of these stops earlier. */
  ghost predicate EarliestSoFar(c: Context, tour: seq<Place>, starts: seq<int>)
    requires c.request.Valid() && |starts| <= |tour|
  {
    forall other {:trigger NoLater(starts, other)} :: Feasible(c, tour, other) ==> NoLater(starts, other)
  }

  /** Stop number |starts| cannot be reached earlier than after the earliest timing of the stops before it. */
  lemma NoEarlierStop(c: Context, tour: seq<Place>, starts: seq<int>, other: seq<int>)
    requires c.request.Valid() && |starts| < |tour| && EarliestSoFar(c, tour, starts) && Feasible(c, tour, other)
    ensures ReadyAt(c, tour, starts, |starts|) <= other[|starts|] && Fits(c, tour[|starts|], other[|starts|])
  {
    var i := |starts|;
    assert StopFits(c, tour, other, i);
    assert NoLater(starts, other);
  }

  lemma OneMoreStop(c: Context, tour: seq<Place>, starts: seq<int>, start: int)
    requires c.request.Valid() && |starts| < |tour| && FeasibleSoFar(c, tour, starts)
    requires ReadyAt(c, tour, starts, |starts|) <= start && Fits(c, tour[|starts|], start)
    ensures FeasibleSoFar(c, tour, starts + [start])
  {
    var longer := starts + [start];
    forall k | 0 <= k < |longer| ensures StopFits(c, tour, longer, k) {
      assert ReadyAt(c, tour, longer, k) == ReadyAt(c, tour, starts, k);
      if k < |starts| {
        assert StopFits(c, tour, starts, k);
      }
    }
  }

  lemma NextStop(c: Context, tour: seq<Place>, starts: seq<int>)
    requires c.request.Valid() && |starts| < |tour|
    requires FeasibleSoFar(c, tour, starts) && EarliestSoFar(c, tour, starts)
    ensures var cursor := ReadyAt(c, tour, starts, |starts|);
            match EarliestStart(c, tour[|starts|], cursor)
            case Ok(start) => FeasibleSoFar(c, tour, starts + [start]) && EarliestSoFar(c, tour, starts + [start])
            case Err(error) => NoTiming(c, tour) && Misfit(c, tour[|starts|], cursor, error)
  {
    var i := |starts|;
    var cursor := ReadyAt(c, tour, starts, i);
    var next := EarliestStart(c, tour[i], cursor);
    EarliestStartIsExact(c, tour[i], cursor);
    forall other | Feasible(c, tour, other) ensures next.Ok? && NoLater(starts + [next.value], other) {
      NoEarlierStop(c, tour, starts, other);
      assert NoLater(starts, other);
    }
    if next.Ok? {
      OneMoreStop(c, tour, starts, next.value);
    }
  }

  // ----- The day -----

  function StrategyName(strategy: Strategy): string {
    match strategy
    case Balanced => "balanced"
    case Economy => "economy"
    case Relaxed => "relaxed"
  }

  /** The leg that leads to stop number k. */
  function LegTo(c: Context, tour: seq<Place>, k: nat): Option<Leg>
    requires k < |tour|
  {
    if k == 0 then None
    else
      var route := RouteBetween(c.sources.routes, tour[k - 1].placeId, tour[k].placeId);
      if route.Some? then Some(Leg(route.value.routeId, route.value.minutes)) else None
  }

  /** The evidence of stop number k and of the leg that leads to it. */
  function EvidenceOf(c: Context, tour: seq<Place>, k: nat): set<string>
    requires k < |tour|
  {
    var route := if k == 0 then None else RouteBetween(c.sources.routes, tour[k - 1].placeId, tour[k].placeId);
    Elements(tour[k].evidenceIds) + if route.Some? then Elements(route.value.evidenceIds) else {}
  }

  function ClaimIdsAbout(claims: seq<Claim>, placeId: string): set<string> {
    set claim | claim in claims && claim.subject == placeId :: claim.claimId
  }

  function ItemId(strategy: Strategy, placeId: string): string {
    "item_" + StrategyName(strategy) + "_" + placeId
  }

  function ItemAt(c: Context, tour: seq<Place>, k: nat, start: int): Item
    requires c.request.Valid() && k < |tour|
  {
    var place := tour[k];
    Item(ItemId(c.strategy, place.placeId), start, start + Stay(c, place), place.placeId, place.price,
         LegTo(c, tour, k), ClaimIdsAbout(c.sources.claims, place.placeId),
         EvidenceOf(c, tour, k))
  }

  ghost predicate Realises(c: Context, tour: seq<Place>, starts: seq<int>, items: seq<Item>)
    requires c.request.Valid()
  {
    && |items| == |starts| <= |tour|
    && forall k {:trigger items[k]} :: 0 <= k < |items| ==> items[k] == ItemAt(c, tour, k, starts[k])
  }

  lemma RealisesOneMore(c: Context, tour: seq<Place>, starts: seq<int>, items: seq<Item>, start: int)
    requires c.request.Valid() && Realises(c, tour, starts, items) && |starts| < |tour|
    ensures Realises(c, tour, starts + [start], items + [ItemAt(c, tour, |starts|, start)])
  {
  }

  function StayTotal(c: Context, tour: seq<Place>): nat
    requires c.request.Valid()
  {
    if tour == [] then 0 else StayTotal(c, tour[..|tour| - 1]) + Stay(c, tour[|tour| - 1])
  }

  lemma MinutesOfPrefix(items: seq<Item>, n: nat)
    requires n < |items|
    ensures MinutesOf(items[..n + 1]) == MinutesOf(items[..n]) + items[n].endAt - items[n].startAt
  {
    assert items[..n + 1][..n] == items[..n];
  }

  lemma StaysOfPrefix(c: Context, tour: seq<Place>, n: nat)
    requires c.request.Valid() && n < |tour|
    ensures StayTotal(c, tour[..n + 1]) == StayTotal(c, tour[..n]) + Stay(c, tour[n])
  {
    assert tour[..n + 1][..n] == tour[..n];
  }

  lemma {:induction false} PrefixMinutesAreStays(c: Context, tour: seq<Place>, starts: seq<int>, items: seq<Item>,
                                                 n: nat)
    requires c.request.Valid() && Realises(c, tour, starts, items) && n <= |items|
    ensures MinutesOf(items[..n]) == StayTotal(c, tour[..n])
  {
    if n > 0 {
      PrefixMinutesAreStays(c, tour, starts, items, n - 1);
      MinutesOfPrefix(items, n - 1);
      StaysOfPrefix(c, tour, n - 1);
      assert items[n - 1] == ItemAt(c, tour, n - 1, starts[n - 1]);
    }
  }

  lemma MinutesAreStays(c: Context, tour: seq<Place>, starts: seq<int>, items: seq<Item>)
    requires c.request.Valid() && Realises(c, tour, starts, items)
    ensures MinutesOf(items) == StayTotal(c, tour[..|items|])
  {
    PrefixMinutesAreStays(c, tour, starts, items, |items|);
    assert items[..|items|] == items;
  }

  /** The day can be travelled in this order, timed, and stays within the activity limit. */
  ghost predicate Schedulable(c: Context, places: seq<Place>)
    requires c.request.Valid()
  {
    && places != []
    && var tour := Order(places, c.sources.routes);
       && tour.Some?
       && !NoTiming(c, tour.value)
       && StayTotal(c, tour.value) <= c.request.maxActivityMinutes
  }

  /** The day holds the tour's stops at their earliest feasible times. */
  ghost predicate IsEarliestDay(c: Context, tour: seq<Place>, day: Day)
    requires c.request.Valid()
  {
    && day.date == c.date
    && day.dailyCost == CostTotal(CostsOf(day.items), c.request.budget.currency)
    && AreEarliestItems(c, tour, day.items)
  }

  ghost predicate DayScheduled(c: Context, places: seq<Place>, day: Day)
    requires c.request.Valid()
  {
    Schedulable(c, places) && IsEarliestDay(c, Order(places, c.sources.routes).value, day)
  }

  /** Why a day fails, error by error. */
  ghost predicate FailsFor(c: Context, places: seq<Place>, error: PlanningError)
    requires c.request.Valid()
  {
    var tour := Order(places, c.sources.routes);
    match error
    case RouteMatrixIncomplete => tour.None?
    case EmptyDay(date) => places == [] && date == c.date
    case DailyActivityLimitExceeded(date) =>
      && date == c.date && tour.Some? && !NoTiming(c, tour.value)
      && StayTotal(c, tour.value) > c.request.maxActivityMinutes
    case _ =>
      && tour.Some? && NoTiming(c, tour.value)
      && exists p, cursor :: p in tour.value && Misfit(c, p, cursor, error)
  }

  method ScheduleDay(c: Context, places: seq<Place>) returns (r: Result<Day, PlanningError>)
    requires c.request.Valid() && DistinctIds(places)
    ensures r.Ok? <==> Schedulable(c, places)
    ensures r.Ok? ==> DayScheduled(c, places, r.value)
    ensures r.Err? ==> FailsFor(c, places, r.error)
  {
    var ordered := Order(places, c.sources.routes);
    OrderIsExact(places, c.sources.routes);
    if ordered.None? {
      return Err(RouteMatrixIncomplete);
    }
    var tour := ordered.value;
    RearrangedLength(tour, places);
    var timed := TimeStops(c, tour);
    if timed.Err? {
      return Err(timed.error);
    }
    var items := timed.value;
    if MinutesOf(items) > c.request.maxActivityMinutes {
      return Err(DailyActivityLimitExceeded(c.date));
    }
    if items == [] {
      return Err(EmptyDay(c.date));
    }
    return Ok(Day(c.date, items, CostTotal(CostsOf(items), c.request.budget.currency)));
  }

  /** The items of a tour at its earliest feasible times. */
  ghost predicate AreEarliestItems(c: Context, tour: seq<Place>, items: seq<Item>)
    requires c.request.Valid()
  {
    exists starts :: Feasible(c, tour, starts) && EarliestSoFar(c, tour, starts) && Realises(c, tour, starts, items)
  }

  /** The loop over the ordered places. */
  method TimeStops(c: Context, tour: seq<Place>) returns (r: Result<seq<Item>, PlanningError>)
    requires c.request.Valid()
    ensures r.Ok? <==> !NoTiming(c, tour)
    ensures r.Ok? ==> AreEarliestItems(c, tour, r.value) && |r.value| == |tour|
    ensures r.Ok? ==> MinutesOf(r.value) == StayTotal(c, tour)
    ensures r.Err? ==> exists p, cursor :: p in tour && Misfit(c, p, cursor, r.error)
  {
    var cursor := At(c.date, c.request.window.start);
    var items: seq<Item> := [];
    ghost var starts: seq<int> := [];
    for i := 0 to |tour|
      invariant |starts| == i && FeasibleSoFar(c, tour, starts) && EarliestSoFar(c, tour, starts)
      invariant Realises(c, tour, starts, items)
      invariant cursor == if i == 0 then At(c.date, c.request.window.start) else starts[i - 1] + Stay(c, tour[i - 1])
    {
      var leg := LegTo(c, tour, i);
      if leg.Some? {
        cursor := cursor + leg.value.minutes;
      }
      assert cursor == ReadyAt(c, tour, starts, i);
      NextStop(c, tour, starts);
      var start := EarliestStart(c, tour[i], cursor);
      if start.Err? {
        assert tour[i] in tour;
        return Err(start.error);
      }
      RealisesOneMore(c, tour, starts, items, start.value);
      items := items + [ItemAt(c, tour, i, start.value)];
      starts := starts + [start.value];
      cursor := start.value + Stay(c, tour[i]);
    }
    assert Feasible(c, tour, starts);
    MinutesAreStays(c, tour, starts, items);
    assert tour[..|items|] == tour;
    return Ok(items);
  }
}
