/** What the items of a scheduled day say: who is visited when, how one gets there, and why no earlier. */
module DayFacts {
  import opened Common
  import opened Itinerary
  import opened RouteOrder
  import opened DaySchedule
  import opened Overlaps
  import opened Validators
  import opened PlanAudit

  // ----- Looking things up -----

  /** The route joins the two places and is the last one listed that does. */
  ghost predicate IsLastJoining(routes: seq<Route>, origin: string, destination: string, route: Route) {
    exists i :: 0 <= i < |routes| && routes[i] == route && route.origin == origin && route.destination == destination
             && forall j :: i < j < |routes| ==> routes[j].origin != origin || routes[j].destination != destination
  }

  lemma {:induction false} RouteBetweenIsLast(routes: seq<Route>, origin: string, destination: string)
    ensures match RouteBetween(routes, origin, destination)
            case Some(route) => IsLastJoining(routes, origin, destination, route)
            case None => forall r :: r in routes ==> r.origin != origin || r.destination != destination
  {
    if routes != [] {
      var init, last := routes[..|routes| - 1], routes[|routes| - 1];
      assert routes == init + [last];
      RouteBetweenIsLast(init, origin, destination);
      var found := RouteBetween(init, origin, destination);
      if last.origin == origin && last.destination == destination {
        assert routes[|init|] == last;
      } else if found.Some? {
        var i :| 0 <= i < |init| && init[i] == found.value
          && forall j :: i < j < |init| ==> init[j].origin != origin || init[j].destination != destination;
        assert routes[i] == found.value;
      }
    }
  }

  /** The first period listed for the weekday, unless the place is closed on the date. Day 1 is a Monday, which counts
      as weekday 0. */
  ghost predicate IsOpening(place: Place, date: int, period: OpeningPeriod) {
    && place.opening.Some? && date !in place.opening.value.specialClosures
    && var periods := place.opening.value.periods;
       exists i :: 0 <= i < |periods| && periods[i] == period && period.weekday == (date - 1) % 7
                && forall j :: 0 <= j < i ==> periods[j].weekday != (date - 1) % 7
  }

  lemma {:induction false} FirstPeriodIsFirst(periods: seq<OpeningPeriod>, weekday: nat) returns (i: nat)
    ensures match FirstPeriod(periods, weekday)
            case Some(p) =>
              && i < |periods| && periods[i] == p && p.weekday == weekday
              && forall j :: 0 <= j < i ==> periods[j].weekday != weekday
            case None => forall p :: p in periods ==> p.weekday != weekday
  {
    i := 0;
    if periods != [] && periods[0].weekday != weekday {
      var k := FirstPeriodIsFirst(periods[1..], weekday);
      i := k + 1;
    }
  }

  lemma OpeningIsExact(place: Place, date: int)
    ensures OpeningOn(place, date).Some? ==> IsOpening(place, date, OpeningOn(place, date).value)
    ensures OpeningOn(place, date).None? ==> forall p :: !IsOpening(place, date, p)
  {
    assert WeekdayOf(date) == (date - 1) % 7;
    if place.opening.Some? && date !in place.opening.value.specialClosures {
      var i := FirstPeriodIsFirst(place.opening.value.periods, WeekdayOf(date));
    }
  }

  // ----- One item -----

  /** The minutes a visit lasts without an appointment. */
  ghost function VisitMinutes(strategy: Strategy, place: Place): nat {
    if strategy == Balanced then place.maximumMinutes else place.minimumMinutes
  }

  ghost function ItemName(strategy: Strategy, place: Place): string {
    match strategy
    case Balanced => "item_balanced_" + place.placeId
    case Economy => "item_economy_" + place.placeId
    case Relaxed => "item_relaxed_" + place.placeId
  }

  lemma NameOfItem(strategy: Strategy, place: Place)
    ensures ItemId(strategy, place.placeId) == ItemName(strategy, place)
  {
    var id := place.placeId;
    assert "item_" + "balanced" + "_" + id == "item_balanced_" + id;
    assert "item_" + "economy" + "_" + id == "item_economy_" + id;
    assert "item_" + "relaxed" + "_" + id == "item_relaxed_" + id;
  }

  /** An item names its place, costs what the place costs, and cites the claims about the place and the evidence of
      the place and of the route that leads to it. */
  lemma ItemDescribesPlace(c: Context, tour: seq<Place>, day: Day, k: nat)
    requires c.request.Valid() && DayFollows(c, tour, day) && k < |tour|
    ensures |day.items| == |tour|
    ensures var item, place := day.items[k], tour[k];
            && item.itemId == ItemName(c.strategy, place) && item.placeId == place.placeId && item.cost == place.price
            && (forall id :: id in item.claimIds <==>
                  exists claim :: claim in c.sources.claims && claim.subject == place.placeId && claim.claimId == id)
            && forall id :: id in item.evidenceIds <==>
                 || id in place.evidenceIds
                 || (k > 0 && exists r :: IsLastJoining(c.sources.routes, tour[k - 1].placeId, place.placeId, r)
                                       && id in r.evidenceIds)
  {
    var starts := EarliestDayKeeps(c, tour, day);
    assert day.items[k] == ItemAt(c, tour, k, starts[k]);
    NameOfItem(c.strategy, tour[k]);
    if k > 0 {
      RouteBetweenIsLast(c.sources.routes, tour[k - 1].placeId, tour[k].placeId);
      LastJoiningIsUnique(c.sources.routes, tour[k - 1].placeId, tour[k].placeId);
    }
  }

  lemma LastJoiningIsUnique(routes: seq<Route>, origin: string, destination: string)
    ensures forall r, q ::
              IsLastJoining(routes, origin, destination, r) && IsLastJoining(routes, origin, destination, q) ==> r == q
    ensures forall r :: IsLastJoining(routes, origin, destination, r) ==> r in routes
  {
  }

  // ----- Travelling -----

  /** How one gets to an item that is not the first: along the last listed route from the place before, which takes
      the minutes that lie between the two visits at least. */
  ghost predicate Travelled(routes: seq<Route>, before: Item, item: Item) {
    && item.leg.Some?
    && (exists r :: IsLastJoining(routes, before.placeId, item.placeId, r)
                 && item.leg.value == Leg(r.routeId, r.minutes))
    && before.endAt + item.leg.value.minutes <= item.startAt
  }

  lemma LegOfItem(c: Context, tour: seq<Place>, day: Day, starts: seq<int>, k: nat)
    requires c.request.Valid() && Keeps(c, tour, day, starts) && Connected(EdgesOf(c.sources.routes), tour)
    requires 0 < k < |tour|
    ensures |day.items| == |tour| && day.items[k].leg.Some?
    ensures exists r :: IsLastJoining(c.sources.routes, tour[k - 1].placeId, tour[k].placeId, r)
                     && day.items[k].leg.value == Leg(r.routeId, r.minutes)
                     && Travel(c, tour[k - 1], tour[k]) == r.minutes
  {
    assert day.items[k] == ItemAt(c, tour, k, starts[k]);
    assert LinkedAt(EdgesOf(c.sources.routes), tour, k);
    RouteBetweenIsLast(c.sources.routes, tour[k - 1].placeId, tour[k].placeId);
  }

  /** Every item of a scheduled day but the first is travelled to; the first has no leg and is not before the window
      opens. */
  lemma ItemsAreTravelled(c: Context, tour: seq<Place>, day: Day, k: nat)
    requires c.request.Valid() && DayFollows(c, tour, day) && k < |tour|
    ensures |day.items| == |tour|
    ensures if k == 0 then day.items[0].leg.None? && c.date * 1440 + c.request.window.start <= day.items[0].startAt
            else Travelled(c.sources.routes, day.items[k - 1], day.items[k])
  {
    var starts := EarliestDayKeeps(c, tour, day);
    assert day.items[k] == ItemAt(c, tour, k, starts[k]);
    assert StopFits(c, tour, starts, k);
    if k > 0 {
      assert day.items[k - 1] == ItemAt(c, tour, k - 1, starts[k - 1]);
      LegOfItem(c, tour, day, starts, k);
    }
  }

  // ----- Starting as early as possible -----

  /** When one is at item number k: at the opening of the window, or after the item before and the way. */
  ghost function Arrival(c: Context, items: seq<Item>, k: nat): int
    requires k < |items|
  {
    if k == 0 then c.date * 1440 + c.request.window.start
    else if items[k].leg.Some? then items[k - 1].endAt + items[k].leg.value.minutes
    else items[k - 1].endAt
  }

  lemma ArrivalIsReady(c: Context, tour: seq<Place>, day: Day, starts: seq<int>, k: nat)
    requires c.request.Valid() && Keeps(c, tour, day, starts) && Connected(EdgesOf(c.sources.routes), tour)
    requires k < |tour|
    ensures |day.items| == |starts| == |tour| && Arrival(c, day.items, k) == ReadyAt(c, tour, starts, k)
  {
    if k > 0 {
      assert day.items[k - 1] == ItemAt(c, tour, k - 1, starts[k - 1]);
      LegOfItem(c, tour, day, starts, k);
    }
  }

  /** A stop moved to an earlier moment it can be reached and fits at leaves the timing feasible. */
  lemma MovedEarlier(c: Context, tour: seq<Place>, starts: seq<int>, k: nat, start: int)
    requires c.request.Valid() && Feasible(c, tour, starts) && k < |tour| && start <= starts[k]
    requires ReadyAt(c, tour, starts, k) <= start && Fits(c, tour[k], start)
    ensures Feasible(c, tour, starts[k := start])
  {
    var moved := starts[k := start];
    forall i | 0 <= i < |moved| ensures StopFits(c, tour, moved, i) {
      assert StopFits(c, tour, starts, i);
    }
  }

  ghost predicate HasAppointment(request: TripRequest, date: int, name: string) {
    exists a :: a in request.appointments && a.date == date && a.placeName == name
  }

  /** Without an appointment a visit starts on arrival or when the place opens, whichever is later, and lasts as the
      strategy says. */
  lemma StartsOnArrivalOrOpening(c: Context, tour: seq<Place>, day: Day, k: nat) returns (opening: OpeningPeriod)
    requires c.request.Valid() && DayFollows(c, tour, day) && k < |tour|
    requires !HasAppointment(c.request, c.date, tour[k].name)
    ensures |day.items| == |tour| && IsOpening(tour[k], c.date, opening)
    ensures var opens, arrival := c.date * 1440 + opening.opens, Arrival(c, day.items, k);
            day.items[k].startAt == if arrival < opens then opens else arrival
    ensures day.items[k].endAt == day.items[k].startAt + VisitMinutes(c.strategy, tour[k])
  {
    var starts: seq<int> :| Feasible(c, tour, starts) && EarliestSoFar(c, tour, starts)
      && Realises(c, tour, starts, day.items);
    assert Keeps(c, tour, day, starts);
    assert day.items[k] == ItemAt(c, tour, k, starts[k]);
    assert StopFits(c, tour, starts, k);
    ArrivalIsReady(c, tour, day, starts, k);
    OpeningIsExact(tour[k], c.date);
    opening := OpeningOn(tour[k], c.date).value;
    var opens, arrival := At(c.date, opening.opens), ReadyAt(c, tour, starts, k);
    var start := if arrival < opens then opens else arrival;
    MovedEarlier(c, tour, starts, k, start);
    assert NoLater(starts, starts[k := start]);
  }

  /** With an appointment a visit starts and ends with it. */
  lemma StartsWithAppointment(c: Context, tour: seq<Place>, day: Day, k: nat) returns (a: Appointment)
    requires c.request.Valid() && DayFollows(c, tour, day) && k < |tour|
    requires HasAppointment(c.request, c.date, tour[k].name)
    ensures |day.items| == |tour|
    ensures a in c.request.appointments && a.date == c.date && a.placeName == tour[k].name
    ensures day.items[k].startAt == c.date * 1440 + a.start && day.items[k].endAt == c.date * 1440 + a.end
  {
    var starts := EarliestDayKeeps(c, tour, day);
    assert day.items[k] == ItemAt(c, tour, k, starts[k]);
    assert StopFits(c, tour, starts, k);
    a := AppointmentFor(c.request.appointments, c.date, tour[k].name).value;
  }

  /** Every visit lies inside the daily window and one opening period of its place. */
  lemma VisitsWhileOpen(c: Context, tour: seq<Place>, day: Day, k: nat) returns (opening: OpeningPeriod)
    requires c.request.Valid() && DayFollows(c, tour, day) && k < |tour|
    ensures |day.items| == |tour| && IsOpening(tour[k], c.date, opening)
    ensures c.date * 1440 + opening.opens <= day.items[k].startAt
    ensures day.items[k].endAt <= c.date * 1440 + opening.closes
    ensures c.date * 1440 + c.request.window.start <= day.items[k].startAt
    ensures day.items[k].endAt <= c.date * 1440 + c.request.window.end
  {
    var starts := EarliestDayKeeps(c, tour, day);
    assert day.items[k] == ItemAt(c, tour, k, starts[k]);
    assert StopFits(c, tour, starts, k);
    NeverBeforeTheWindow(c, tour, starts, k);
    OpeningIsExact(tour[k], c.date);
    opening := OpeningOn(tour[k], c.date).value;
  }
}
