/** Trip requests, places, routes and itineraries. Dates are day numbers, clock times are minutes after
    midnight, timestamps are minutes in the request's one time zone and amounts are whole cents. */
module Itinerary {
  import opened Common

  const MINUTES_PER_DAY := 1440

  datatype Cost =
    | Unknown(currency: string)
    | Known(currency: string, amount: nat)
    | Range(currency: string, least: nat, most: nat)
  {
    predicate Valid() {
      Range? ==> least <= most
    }

    /** An unknown amount counts as zero in a sum. */
    function Lower(): nat {
      match this
      case Unknown(_) => 0
      case Known(_, amount) => amount
      case Range(_, least, _) => least
    }

    function Upper(): nat {
      match this
      case Unknown(_) => 0
      case Known(_, amount) => amount
      case Range(_, _, most) => most
    }
  }

  /** weekday counts from Monday as 0. */
  datatype OpeningPeriod = OpeningPeriod(weekday: nat, opens: nat, closes: nat) {
    predicate Valid() {
      weekday < 7 && opens < closes < MINUTES_PER_DAY
    }
  }

  datatype OpeningSchedule = OpeningSchedule(periods: seq<OpeningPeriod>, specialClosures: seq<int>) {
    predicate Valid() {
      periods != [] && forall p :: p in periods ==> p.Valid()
    }
  }

  datatype CoordinateSystem = WGS84 | GCJ02 | BD09

  /** system is that of the canonical coordinate. */
  datatype Place = Place(
    placeId: string, name: string, opening: Option<OpeningSchedule>, price: Cost,
    minimumMinutes: nat, maximumMinutes: nat, system: CoordinateSystem, evidenceIds: seq<string>)
  {
    predicate Valid() {
      && 1 <= minimumMinutes <= maximumMinutes <= MINUTES_PER_DAY
      && price.Valid()
      && (opening.Some? ==> opening.value.Valid())
    }
  }

  datatype Route = Route(
    routeId: string, origin: string, destination: string, minutes: nat, system: CoordinateSystem,
    evidenceIds: seq<string>)

  datatype Claim = Claim(
    claimId: string, subject: string, isUnknown: bool, requiredHard: bool, evidenceIds: seq<string>)

  /** What a plan refers to besides places: the route matrix, the claims and the ids of the evidence. */
  datatype Sources = Sources(routes: seq<Route>, claims: seq<Claim>, evidence: seq<string>)

  datatype Window = Window(start: nat, end: nat)

  datatype Appointment = Appointment(title: string, date: int, start: nat, end: nat, placeName: string)

  datatype Policy = Hard | Flexible

  datatype Budget = Budget(total: nat, currency: string, policy: Policy)

  datatype TripRequest = TripRequest(
    startDate: int, days: nat, window: Window, mustVisit: seq<string>, excluded: seq<string>,
    appointments: seq<Appointment>, maxActivityMinutes: nat, budget: Budget)
  {
    /** What the request model enforces on construction. */
    predicate Valid() {
      && 1 <= days <= 7
      && window.start < window.end < MINUTES_PER_DAY
      && (forall a :: a in appointments ==>
            a.start < a.end < MINUTES_PER_DAY && startDate <= a.date < startDate + days)
    }
  }

  datatype Strategy = Balanced | Economy | Relaxed

  datatype Leg = Leg(routeId: string, minutes: nat)

  datatype Item = Item(
    itemId: string, startAt: int, endAt: int, placeId: string, cost: Cost, leg: Option<Leg>,
    claimIds: set<string>, evidenceIds: set<string>)

  datatype Day = Day(date: int, items: seq<Item>, dailyCost: Cost)

  datatype Plan = Plan(planId: string, days: seq<Day>, totalCost: Cost, executable: bool)

  function At(date: int, minute: int): int {
    date * MINUTES_PER_DAY + minute
  }

  function DateOf(timestamp: int): int {
    timestamp / MINUTES_PER_DAY
  }

  function TimeOf(timestamp: int): nat {
    timestamp % MINUTES_PER_DAY
  }

  /** Day 1 of the calendar is a Monday. */
  function WeekdayOf(date: int): nat {
    (date + 6) % 7
  }

  lemma AtSplits(date: int, minute: nat)
    requires minute < MINUTES_PER_DAY
    ensures DateOf(At(date, minute)) == date && TimeOf(At(date, minute)) == minute
  {
  }

  ghost predicate DistinctIds(places: seq<Place>) {
    forall i, j :: 0 <= i < j < |places| ==> places[i].placeId != places[j].placeId
  }

  ghost predicate ValidPlaces(places: seq<Place>) {
    forall p :: p in places ==> p.Valid()
  }

  // ----- Costs -----

  function LowerSum(costs: seq<Cost>): nat {
    if costs == [] then 0 else LowerSum(costs[..|costs| - 1]) + costs[|costs| - 1].Lower()
  }

  function UpperSum(costs: seq<Cost>): nat {
    if costs == [] then 0 else UpperSum(costs[..|costs| - 1]) + costs[|costs| - 1].Upper()
  }

  ghost predicate AllPriced(costs: seq<Cost>) {
    forall c :: c in costs ==> !c.Unknown?
  }

  function CostTotal(costs: seq<Cost>, currency: string): (total: Cost)
    ensures total.Unknown? <==> !AllPriced(costs)
    ensures total.currency == currency
    ensures AllPriced(costs) ==> total.Lower() == LowerSum(costs) && total.Upper() == UpperSum(costs)
  {
    if exists c :: c in costs && c.Unknown? then Unknown(currency)
    else if LowerSum(costs) == UpperSum(costs) then Known(currency, LowerSum(costs))
    else Range(currency, LowerSum(costs), UpperSum(costs))
  }

  /** The total of one cost is that cost, a range of no width being a known amount. */
  lemma TotalOfOne(cost: Cost)
    requires cost.Valid()
    ensures CostTotal([cost], cost.currency) == match cost
                                                case Unknown(_) => cost
                                                case Known(_, _) => cost
                                                case Range(currency, least, most) =>
                                                  if least == most then Known(currency, least) else cost
  {
    assert [cost][0] in [cost] && [cost][..0] == [];
    assert LowerSum([cost]) == cost.Lower() && UpperSum([cost]) == cost.Upper();
  }

  lemma {:induction false} SumsOfConcatenation(a: seq<Cost>, b: seq<Cost>)
    ensures LowerSum(a + b) == LowerSum(a) + LowerSum(b)
    ensures UpperSum(a + b) == UpperSum(a) + UpperSum(b)
  {
    if b == [] {
      assert a + b == a;
    } else {
      var init, last := b[..|b| - 1], b[|b| - 1];
      SumsOfConcatenation(a, init);
      assert (a + b)[..|a + b| - 1] == a + init && (a + b)[|a + b| - 1] == last;
    }
  }

  function CostsOf(items: seq<Item>): (costs: seq<Cost>)
    ensures |costs| == |items| && forall k {:trigger costs[k]} :: 0 <= k < |items| ==> costs[k] == items[k].cost
  {
    seq(|items|, k requires 0 <= k < |items| => items[k].cost)
  }

  function MinutesOf(items: seq<Item>): int {
    if items == [] then 0
    else MinutesOf(items[..|items| - 1]) + items[|items| - 1].endAt - items[|items| - 1].startAt
  }
}
