/** What the timing of a day and the spreading over days guarantee to the validators. */
module PlanAudit {
  import opened Common
  import opened Itinerary
  import opened RouteOrder
  import opened DaySchedule
  import opened Overlaps
  import opened Validators
  import Partition

  // ----- One day -----

  /** Realises the tour's stops at feasible times; the part of IsEarliestDay the validators depend on. */
  ghost predicate Keeps(c: Context, tour: seq<Place>, day: Day, starts: seq<int>)
    requires c.request.Valid()
  {
    && Feasible(c, tour, starts) && Realises(c, tour, starts, day.items)
    && day.date == c.date && day.dailyCost == CostTotal(CostsOf(day.items), c.request.budget.currency)
  }

  lemma {:induction false} NeverBeforeTheWindow(c: Context, tour: seq<Place>, starts: seq<int>, k: nat)
    requires c.request.Valid() && FeasibleSoFar(c, tour, starts) && k < |starts|
    ensures At(c.date, c.request.window.start) <= starts[k]
  {
    assert StopFits(c, tour, starts, k);
    if k > 0 {
      NeverBeforeTheWindow(c, tour, starts, k - 1);
    }
  }

  lemma {:induction false} StopsInOrder(c: Context, tour: seq<Place>, starts: seq<int>, i: nat, j: nat)
    requires c.request.Valid() && FeasibleSoFar(c, tour, starts) && i < j < |starts|
    ensures starts[i] + Stay(c, tour[i]) <= starts[j]
  {
    assert StopFits(c, tour, starts, j);
    if i + 1 < j {
      StopsInOrder(c, tour, starts, i, j - 1);
    }
  }

  /** The item is a visit of the place inside the window, the opening period and the date. */
  ghost predicate Visits(request: TripRequest, date: int, place: Place, item: Item) {
    && item.placeId == place.placeId && item.cost == place.price
    && item.startAt < item.endAt
    && DateOf(item.startAt) == date && DateOf(item.endAt) == date
    && request.window.start <= TimeOf(item.startAt) && TimeOf(item.endAt) <= request.window.end
    && place.opening.Some? && OpenThroughout(place.opening.value, date, item)
  }

  lemma StayIsPositive(c: Context, place: Place)
    requires c.request.Valid() && place.Valid()
    ensures Stay(c, place) > 0
  {
  }

  /** Two moments of one date compare like their clock times. */
  lemma WithinTheDay(date: int, low: nat, high: nat, timestamp: int)
    requires At(date, low) <= timestamp <= At(date, high) && high < MINUTES_PER_DAY
    ensures DateOf(timestamp) == date && low <= TimeOf(timestamp) <= high
  {
    var minute := timestamp - At(date, 0);
    AtSplits(date, minute);
  }

  lemma FittingVisit(c: Context, place: Place, start: int, item: Item)
    requires c.request.Valid() && place.Valid() && Fits(c, place, start)
    requires At(c.date, c.request.window.start) <= start
    requires item.startAt == start && item.endAt == start + Stay(c, place)
    requires item.placeId == place.placeId && item.cost == place.price
    ensures Visits(c.request, c.date, place, item)
  {
    StayIsPositive(c, place);
    var period := OpeningOn(place, c.date).value;
    assert period in place.opening.value.periods;
    WithinTheDay(c.date, c.request.window.start, c.request.window.end, item.startAt);
    WithinTheDay(c.date, c.request.window.start, c.request.window.end, item.endAt);
    WithinTheDay(c.date, period.opens, period.closes, item.startAt);
    WithinTheDay(c.date, period.opens, period.closes, item.endAt);
  }

  lemma EveryItemVisits(c: Context, tour: seq<Place>, day: Day, starts: seq<int>, k: nat)
    requires c.request.Valid() && ValidPlaces(tour) && Keeps(c, tour, day, starts) && k < |day.items|
    ensures |day.items| == |tour| && Visits(c.request, c.date, tour[k], day.items[k])
  {
    NeverBeforeTheWindow(c, tour, starts, k);
    assert day.items[k] == ItemAt(c, tour, k, starts[k]);
    assert StopFits(c, tour, starts, k);
    assert tour[k] in tour;
    FittingVisit(c, tour[k], starts[k], day.items[k]);
  }

  lemma ItemsApart(c: Context, tour: seq<Place>, day: Day, starts: seq<int>)
    requires c.request.Valid() && Keeps(c, tour, day, starts)
    ensures AllApart(day.items)
  {
    forall i, j | 0 <= i < j < |day.items| ensures Apart(day.items[i], day.items[j]) {
      StopsInOrder(c, tour, starts, i, j);
      assert day.items[i] == ItemAt(c, tour, i, starts[i]);
      assert day.items[j] == ItemAt(c, tour, j, starts[j]);
    }
  }

  lemma DayMinutes(c: Context, tour: seq<Place>, day: Day, starts: seq<int>)
    requires c.request.Valid() && Keeps(c, tour, day, starts)
    ensures MinutesOf(day.items) == StayTotal(c, tour)
  {
    MinutesAreStays(c, tour, starts, day.items);
    assert tour[..|day.items|] == tour;
  }

  lemma EarliestDayKeeps(c: Context, tour: seq<Place>, day: Day) returns (starts: seq<int>)
    requires c.request.Valid() && IsEarliestDay(c, tour, day)
    ensures Keeps(c, tour, day, starts)
  {
    starts :| Feasible(c, tour, starts) && EarliestSoFar(c, tour, starts) && Realises(c, tour, starts, day.items);
  }

  // ----- The issues one day can raise -----

  lemma {:induction false} PlaceByIdFinds(places: seq<Place>, place: Place)
    requires DistinctIds(places) && place in places
    ensures PlaceById(places, place.placeId) == Some(place)
  {
    var init, last := places[..|places| - 1], places[|places| - 1];
    if last != place {
      assert place in init;
      PlaceByIdFinds(init, place);
    }
  }

  lemma NoOpeningIssue(request: TripRequest, day: Day, d: nat, k: nat, place: Place, places: seq<Place>, x: Issue)
    requires DistinctIds(places) && place in places
    requires k < |day.items| && Visits(request, day.date, place, day.items[k])
    requires x.path.ItemOf? && x.path.item == k
    ensures !ItemOpeningIssue(day, d, places, x) && !ItemWindowIssue(day, d, request.window, x)
  {
    PlaceByIdFinds(places, place);
  }

  lemma NoOverlapIssue(day: Day, d: nat, x: Issue)
    requires Lasting(day.items) && AllApart(day.items)
    ensures !DayOverlapIssue(day, d, x)
  {
    NeighboursDecide(day.items);
  }

  // ----- Costs -----

  function PricesOf(places: seq<Place>): (prices: seq<Cost>)
    ensures |prices| == |places| && forall k {:trigger prices[k]} :: 0 <= k < |places| ==> prices[k] == places[k].price
  {
    seq(|places|, k requires 0 <= k < |places| => places[k].price)
  }

  function DailyCosts(days: seq<Day>): (costs: seq<Cost>)
    ensures |costs| == |days| && forall k {:trigger costs[k]} :: 0 <= k < |days| ==> costs[k] == days[k].dailyCost
  {
    seq(|days|, k requires 0 <= k < |days| => days[k].dailyCost)
  }

  lemma PricesJoin(a: seq<Place>, b: seq<Place>)
    ensures PricesOf(a + b) == PricesOf(a) + PricesOf(b)
    ensures UpperSum(PricesOf(a + b)) == UpperSum(PricesOf(a)) + UpperSum(PricesOf(b))
  {
    assert PricesOf(a + b) == PricesOf(a) + PricesOf(b);
    SumsOfConcatenation(PricesOf(a), PricesOf(b));
  }

  lemma PriceOfOne(place: Place)
    ensures UpperSum(PricesOf([place])) == place.price.Upper()
  {
    assert PricesOf([place]) == [place.price];
    assert [place.price][..0] == [];
  }

  lemma CutPrice(places: seq<Place>, i: nat)
    requires i < |places|
    ensures UpperSum(PricesOf(places)) == UpperSum(PricesOf(places[..i] + places[i + 1..])) + places[i].price.Upper()
  {
    assert places == places[..i] + ([places[i]] + places[i + 1..]);
    PricesJoin(places[..i], [places[i]] + places[i + 1..]);
    PricesJoin([places[i]], places[i + 1..]);
    PricesJoin(places[..i], places[i + 1..]);
    PriceOfOne(places[i]);
  }

  lemma HeadPrice(places: seq<Place>)
    requires places != []
    ensures UpperSum(PricesOf(places)) == UpperSum(PricesOf(places[1..])) + places[0].price.Upper()
  {
    assert places == [places[0]] + places[1..];
    PricesJoin([places[0]], places[1..]);
    PriceOfOne(places[0]);
  }

  /** The sum of prices does not depend on the order of the places. */
  lemma {:induction false} OrderLeavesTheSum(a: seq<Place>, b: seq<Place>)
    requires Rearranges(a, b)
    ensures UpperSum(PricesOf(a)) == UpperSum(PricesOf(b))
    decreases |a|
  {
    if a == [] {
      RearrangedLength(a, b);
      assert b == a;
    } else {
      var j := CutHead(a, b);
      var rest := b[..j] + b[j + 1..];
      OrderLeavesTheSum(a[1..], rest);
      HeadPrice(a);
      CutPrice(b, j);
    }
  }

  /** The days cost what their tours' places cost. */
  lemma {:induction false} CostsFollowTours(tours: seq<seq<Place>>, days: seq<Day>)
    requires |tours| == |days| && forall d :: 0 <= d < |days| ==> CostsOf(days[d].items) == PricesOf(tours[d])
    ensures AllCosts(days) == PricesOf(Partition.Concat(tours))
  {
    if days != [] {
      var n := |days| - 1;
      CostsFollowTours(tours[..n], days[..n]);
      PricesJoin(Partition.Concat(tours[..n]), tours[n]);
    }
  }

  ghost predicate TotalledDays(days: seq<Day>, currency: string) {
    forall d :: 0 <= d < |days| ==> days[d].dailyCost == CostTotal(CostsOf(days[d].items), currency)
  }

  /** The two lists of costs have the same total. */
  ghost predicate SameTotal(a: seq<Cost>, b: seq<Cost>) {
    && (AllPriced(a) <==> AllPriced(b))
    && (AllPriced(a) ==> LowerSum(a) == LowerSum(b) && UpperSum(a) == UpperSum(b))
  }

  lemma SameTotalStep(a: seq<Cost>, b: seq<Cost>, more: seq<Cost>, currency: string)
    requires SameTotal(a, b)
    ensures SameTotal(a + [CostTotal(more, currency)], b + more)
  {
    var total := CostTotal(more, currency);
    SumsOfConcatenation(a, [total]);
    SumsOfConcatenation(b, more);
    assert [total][..0] == [];
    assert [total][0] in [total];
  }

  lemma {:induction false} DailyTotalsAgree(days: seq<Day>, currency: string)
    requires TotalledDays(days, currency)
    ensures SameTotal(DailyCosts(days), AllCosts(days))
  {
    if days != [] {
      var n := |days| - 1;
      DailyTotalsAgree(days[..n], currency);
      SameTotalStep(DailyCosts(days[..n]), AllCosts(days[..n]), CostsOf(days[n].items), currency);
      assert DailyCosts(days) == DailyCosts(days[..n]) + [days[n].dailyCost];
    }
  }

  lemma SameTotalSameCost(a: seq<Cost>, b: seq<Cost>, currency: string)
    requires SameTotal(a, b)
    ensures CostTotal(a, currency) == CostTotal(b, currency)
  {
  }

  /** Totalling the daily totals is totalling all items. */
  lemma DailyTotalsAddUp(days: seq<Day>, currency: string)
    requires TotalledDays(days, currency)
    ensures SameTotal(DailyCosts(days), AllCosts(days))
    ensures CostTotal(DailyCosts(days), currency) == CostTotal(AllCosts(days), currency)
  {
    DailyTotalsAgree(days, currency);
    SameTotalSameCost(DailyCosts(days), AllCosts(days), currency);
  }

  // ----- The whole itinerary -----

  function ContextOn(request: TripRequest, sources: Sources, strategy: Strategy, d: nat): Context {
    Context(request, request.startDate + d, sources, strategy)
  }

  /** The day visits the tour's stops, travels along routes only, as early as possible and within the limit. */
  ghost predicate DayFollows(c: Context, tour: seq<Place>, day: Day)
    requires c.request.Valid()
  {
    && tour != [] && Connected(EdgesOf(c.sources.routes), tour)
    && IsEarliestDay(c, tour, day) && StayTotal(c, tour) <= c.request.maxActivityMinutes
  }

  ghost predicate FollowsOn(request: TripRequest, sources: Sources, strategy: Strategy, tours: seq<seq<Place>>,
                            days: seq<Day>, d: nat)
    requires request.Valid() && d < |tours| == |days|
  {
    DayFollows(ContextOn(request, sources, strategy, d), tours[d], days[d])
  }

  /** The plan visits exactly the chosen places, each once, following one tour a day. */
  ghost predicate IsItinerary(request: TripRequest, sources: Sources, strategy: Strategy, chosen: seq<Place>,
                              tours: seq<seq<Place>>, plan: Plan)
    requires request.Valid()
  {
    && |plan.days| == |tours| == request.days
    && Rearranges(Partition.Concat(tours), chosen)
    && (forall d :: 0 <= d < |tours| ==> FollowsOn(request, sources, strategy, tours, plan.days, d))
    && plan.totalCost == CostTotal(DailyCosts(plan.days), request.budget.currency)
  }

  lemma {:induction false} ConcatMember(tours: seq<seq<Place>>, d: nat, p: Place)
    requires d < |tours| && p in tours[d]
    ensures p in Partition.Concat(tours)
  {
    var n := |tours| - 1;
    if d < n {
      ConcatMember(tours[..n], d, p);
    }
  }

  lemma TourPlaceIsChosen(tours: seq<seq<Place>>, chosen: seq<Place>, d: nat, p: Place)
    requires Rearranges(Partition.Concat(tours), chosen) && d < |tours| && p in tours[d]
    ensures p in chosen
  {
    ConcatMember(tours, d, p);
    RearrangedMember(Partition.Concat(tours), chosen, p);
  }

  ghost predicate VisitsStop(request: TripRequest, date: int, tour: seq<Place>, items: seq<Item>, k: nat)
    requires k < |tour| == |items|
  {
    Visits(request, date, tour[k], items[k])
  }

  /** Every item of the day visits a stop of the tour; the day is in order, within its limit and totalled. */
  ghost predicate CleanDay(request: TripRequest, date: int, tour: seq<Place>, day: Day) {
    && day.date == date && |day.items| == |tour|
    && (forall k :: 0 <= k < |tour| ==> VisitsStop(request, date, tour, day.items, k))
    && AllApart(day.items) && MinutesOf(day.items) <= request.maxActivityMinutes
    && day.dailyCost == CostTotal(CostsOf(day.items), request.budget.currency)
  }

  lemma FollowedDayIsClean(c: Context, tour: seq<Place>, day: Day)
    requires c.request.Valid() && ValidPlaces(tour) && DayFollows(c, tour, day)
    ensures CleanDay(c.request, c.date, tour, day) && CostsOf(day.items) == PricesOf(tour)
  {
    var starts := EarliestDayKeeps(c, tour, day);
    ItemsApart(c, tour, day, starts);
    DayMinutes(c, tour, day, starts);
    forall k | 0 <= k < |tour| ensures VisitsStop(c.request, c.date, tour, day.items, k) {
      EveryItemVisits(c, tour, day, starts, k);
    }
  }

  lemma CleanDayLasts(request: TripRequest, date: int, tour: seq<Place>, day: Day)
    requires CleanDay(request, date, tour, day)
    ensures Lasting(day.items)
  {
    forall k | 0 <= k < |tour| ensures day.items[k].startAt < day.items[k].endAt {
      assert VisitsStop(request, date, tour, day.items, k);
    }
  }

  lemma CleanDayHasNoIssue(request: TripRequest, d: nat, date: int, tour: seq<Place>, day: Day, places: seq<Place>,
                           planId: string, x: Issue)
    requires CleanDay(request, date, tour, day) && DistinctIds(places) && forall p :: p in tour ==> p in places
    ensures !DayWindowIssue(day, d, request, planId, x) && !DayOverlapIssue(day, d, x)
    ensures !ItemOpeningIssue(day, d, places, x)
    ensures DayBudgetIssue(day, d, request.budget.currency, planId, x) ==>
              x.code == CurrencyMismatch && exists p :: p in tour && p.price.currency != request.budget.currency
  {
    CleanDayLasts(request, date, tour, day);
    NoOverlapIssue(day, d, x);
    if x.path.ItemOf? && x.path.item < |tour| {
      var k := x.path.item;
      assert tour[k] in tour && VisitsStop(request, date, tour, day.items, k);
      NoOpeningIssue(request, day, d, k, tour[k], places, x);
    }
    if ItemCurrencyIssue(day.items, d, request.budget.currency, x) {
      var k := x.path.item;
      assert VisitsStop(request, date, tour, day.items, k);
      assert tour[k] in tour;
    }
  }

  lemma TourPlacesAreChosen(tours: seq<seq<Place>>, chosen: seq<Place>, d: nat)
    requires Rearranges(Partition.Concat(tours), chosen) && d < |tours|
    ensures forall p :: p in tours[d] ==> p in chosen
    ensures ValidPlaces(chosen) ==> ValidPlaces(tours[d])
  {
    forall p | p in tours[d] ensures p in chosen {
      TourPlaceIsChosen(tours, chosen, d, p);
    }
  }

  lemma OnDateIsClean(c: Context, request: TripRequest, date: int, tour: seq<Place>, day: Day)
    requires c.request == request && c.date == date && request.Valid() && ValidPlaces(tour) && DayFollows(c, tour, day)
    ensures CleanDay(request, date, tour, day) && CostsOf(day.items) == PricesOf(tour)
  {
    FollowedDayIsClean(c, tour, day);
  }

  lemma FollowedIsClean(request: TripRequest, sources: Sources, strategy: Strategy, tours: seq<seq<Place>>,
                        days: seq<Day>, d: nat)
    requires request.Valid() && d < |tours| == |days| && ValidPlaces(tours[d])
    requires FollowsOn(request, sources, strategy, tours, days, d)
    ensures CleanDay(request, request.startDate + d, tours[d], days[d])
    ensures CostsOf(days[d].items) == PricesOf(tours[d])
  {
    OnDateIsClean(ContextOn(request, sources, strategy, d), request, request.startDate + d, tours[d], days[d]);
  }

  lemma ItineraryDayIsClean(request: TripRequest, sources: Sources, strategy: Strategy, chosen: seq<Place>,
                            tours: seq<seq<Place>>, plan: Plan, d: nat)
    requires request.Valid() && ValidPlaces(chosen) && IsItinerary(request, sources, strategy, chosen, tours, plan)
    requires d < |tours|
    ensures CleanDay(request, request.startDate + d, tours[d], plan.days[d])
    ensures CostsOf(plan.days[d].items) == PricesOf(tours[d])
    ensures forall p :: p in tours[d] ==> p in chosen
  {
    TourPlacesAreChosen(tours, chosen, d);
    FollowedIsClean(request, sources, strategy, tours, plan.days, d);
  }

  /** The plan's items cost what the chosen places cost, and the declared total is that sum. */
  lemma ItineraryCosts(request: TripRequest, sources: Sources, strategy: Strategy, chosen: seq<Place>,
                       tours: seq<seq<Place>>, plan: Plan)
    requires request.Valid() && ValidPlaces(chosen) && IsItinerary(request, sources, strategy, chosen, tours, plan)
    ensures UpperSum(AllCosts(plan.days)) == UpperSum(PricesOf(chosen))
    ensures AllPriced(PricesOf(chosen)) ==> AllPriced(AllCosts(plan.days))
    ensures plan.totalCost == CostTotal(AllCosts(plan.days), request.budget.currency)
  {
    forall d | 0 <= d < |tours|
      ensures CostsOf(plan.days[d].items) == PricesOf(tours[d])
      ensures plan.days[d].dailyCost == CostTotal(CostsOf(plan.days[d].items), request.budget.currency)
    {
      ItineraryDayIsClean(request, sources, strategy, chosen, tours, plan, d);
    }
    CostsFollowTours(tours, plan.days);
    OrderLeavesTheSum(Partition.Concat(tours), chosen);
    DailyTotalsAddUp(plan.days, request.budget.currency);
    PricedWhenChosenPriced(Partition.Concat(tours), chosen);
  }

  lemma PricedWhenChosenPriced(all: seq<Place>, chosen: seq<Place>)
    requires Rearranges(all, chosen)
    ensures AllPriced(PricesOf(chosen)) ==> AllPriced(PricesOf(all))
  {
    forall k | 0 <= k < |all| && AllPriced(PricesOf(chosen)) ensures !PricesOf(all)[k].Unknown? {
      RearrangedMember(all, chosen, all[k]);
      var j :| 0 <= j < |chosen| && chosen[j] == all[k];
      assert PricesOf(chosen)[j] in PricesOf(chosen);
    }
  }

  /** Under a hard budget the chosen places are priced and their upper prices fit the budget. */
  ghost predicate Affordable(request: TripRequest, chosen: seq<Place>) {
    request.budget.policy.Hard? ==> AllPriced(PricesOf(chosen)) && UpperSum(PricesOf(chosen)) <= request.budget.total
  }

  lemma FollowedDayHasNoIssue(c: Context, d: nat, tour: seq<Place>, day: Day, places: seq<Place>,
                              planId: string, x: Issue)
    requires c.request.Valid() && ValidPlaces(tour) && DayFollows(c, tour, day)
    requires DistinctIds(places) && forall p :: p in tour ==> p in places
    ensures !DayWindowIssue(day, d, c.request, planId, x) && !DayOverlapIssue(day, d, x)
    ensures !ItemOpeningIssue(day, d, places, x)
    ensures DayBudgetIssue(day, d, c.request.budget.currency, planId, x) ==>
              x.code == CurrencyMismatch && exists p :: p in tour && p.price.currency != c.request.budget.currency
  {
    FollowedDayIsClean(c, tour, day);
    CleanDayHasNoIssue(c.request, d, c.date, tour, day, places, planId, x);
  }

  lemma ItineraryDayHasNoIssue(request: TripRequest, sources: Sources, strategy: Strategy, chosen: seq<Place>,
                               tours: seq<seq<Place>>, plan: Plan, d: nat, places: seq<Place>, x: Issue)
    requires request.Valid() && ValidPlaces(chosen) && IsItinerary(request, sources, strategy, chosen, tours, plan)
    requires DistinctIds(places) && (forall p :: p in chosen ==> p in places) && d < |plan.days|
    ensures var day := plan.days[d];
            && !DayWindowIssue(day, d, request, plan.planId, x) && !DayOverlapIssue(day, d, x)
            && !ItemOpeningIssue(day, d, places, x)
            && (DayBudgetIssue(day, d, request.budget.currency, plan.planId, x) ==>
                  x.code == CurrencyMismatch && exists p :: p in chosen && p.price.currency != request.budget.currency)
  {
    forall p | p in tours[d] ensures p in chosen {
      TourPlaceIsChosen(tours, chosen, d, p);
    }
    assert FollowsOn(request, sources, strategy, tours, plan.days, d);
    FollowedDayHasNoIssue(ContextOn(request, sources, strategy, d), d, tours[d], plan.days[d], places, plan.planId, x);
  }

  lemma CleanTotal(plan: Plan, request: TripRequest, x: Issue)
    requires plan.totalCost == CostTotal(AllCosts(plan.days), request.budget.currency)
    requires request.budget.policy.Hard? ==>
               AllPriced(AllCosts(plan.days)) && UpperSum(AllCosts(plan.days)) <= request.budget.total
    ensures TotalIssue(plan, request, x) ==> x.severity == Warning
  {
  }

  /** An issue is about the total or about the day its path names. */
  lemma PlanIssueIsLocal(plan: Plan, request: TripRequest, places: seq<Place>, x: Issue)
    requires PlanIssue(plan, request, places, x) && !TotalIssue(plan, request, x)
    ensures (x.path.ItemCost? || x.path.DayCost? || x.path.ItemOf? || x.path.ItemsOf?)
    ensures x.path.day < |plan.days|
    ensures var d, day := x.path.day, plan.days[x.path.day];
            || DayBudgetIssue(day, d, request.budget.currency, plan.planId, x)
            || DayWindowIssue(day, d, request, plan.planId, x)
            || DayOverlapIssue(day, d, x)
            || ItemOpeningIssue(day, d, places, x)
  {
  }

  /** The only error in an itinerary by itself is an item in a foreign currency. */
  lemma PlanIssueIsForeign(request: TripRequest, sources: Sources, strategy: Strategy, chosen: seq<Place>,
                           tours: seq<seq<Place>>, plan: Plan, places: seq<Place>, x: Issue)
    requires request.Valid() && ValidPlaces(chosen) && IsItinerary(request, sources, strategy, chosen, tours, plan)
    requires DistinctIds(places) && (forall p :: p in chosen ==> p in places) && Affordable(request, chosen)
    requires PlanIssue(plan, request, places, x) && x.severity == Error
    ensures x.code == CurrencyMismatch && exists p :: p in chosen && p.price.currency != request.budget.currency
  {
    ItineraryCosts(request, sources, strategy, chosen, tours, plan);
    CleanTotal(plan, request, x);
    PlanIssueIsLocal(plan, request, places, x);
    ItineraryDayHasNoIssue(request, sources, strategy, chosen, tours, plan, x.path.day, places, x);
  }

  ghost predicate ForeignPrice(request: TripRequest, chosen: seq<Place>) {
    exists p :: p in chosen && p.price.currency != request.budget.currency
  }

  /** Nothing but a price in a foreign currency is an error of the itinerary by itself. */
  lemma PlanErrorsAreForeign(request: TripRequest, sources: Sources, strategy: Strategy, places: seq<Place>,
                             chosen: seq<Place>, tours: seq<seq<Place>>, plan: Plan)
    requires request.Valid() && ValidPlaces(chosen) && DistinctIds(places) && Affordable(request, chosen)
    requires IsItinerary(request, sources, strategy, chosen, tours, plan) && forall p :: p in chosen ==> p in places
    ensures forall x :: PlanIssue(plan, request, places, x) && x.severity == Error ==> ForeignPrice(request, chosen)
  {
    forall x | PlanIssue(plan, request, places, x) && x.severity == Error ensures ForeignPrice(request, chosen) {
      PlanIssueIsForeign(request, sources, strategy, chosen, tours, plan, places, x);
    }
  }

  /** A price in a foreign currency is one. */
  lemma ForeignPriceIsFound(request: TripRequest, sources: Sources, strategy: Strategy, places: seq<Place>,
                            chosen: seq<Place>, tours: seq<seq<Place>>, plan: Plan)
    requires request.Valid() && ValidPlaces(chosen) && ForeignPrice(request, chosen)
    requires IsItinerary(request, sources, strategy, chosen, tours, plan)
    ensures exists x :: PlanIssue(plan, request, places, x) && x.severity == Error
  {
    var p :| p in chosen && p.price.currency != request.budget.currency;
    RearrangedMember(Partition.Concat(tours), chosen, p);
    var d, k := ConcatIndex(tours, p);
    ItineraryDayIsClean(request, sources, strategy, chosen, tours, plan, d);
    ForeignItemIsFound(plan, request, places, tours[d], d, k);
  }

  lemma ForeignItemIsFound(plan: Plan, request: TripRequest, places: seq<Place>, tour: seq<Place>, d: nat, k: nat)
    requires d < |plan.days| && CleanDay(request, request.startDate + d, tour, plan.days[d]) && k < |tour|
    requires tour[k].price.currency != request.budget.currency
    ensures exists x :: PlanIssue(plan, request, places, x) && x.severity == Error
  {
    var item := plan.days[d].items[k];
    assert VisitsStop(request, request.startDate + d, tour, plan.days[d].items, k);
    var x := Issue(CurrencyMismatch, Error, ItemCost(d, k), [item.itemId]);
    assert ItemCurrencyIssue(plan.days[d].items, d, request.budget.currency, x);
    assert PlanIssue(plan, request, places, x);
  }

  lemma {:induction false} ConcatIndex(tours: seq<seq<Place>>, p: Place) returns (d: nat, k: nat)
    requires p in Partition.Concat(tours)
    ensures d < |tours| && k < |tours[d]| && tours[d][k] == p
  {
    var n := |tours| - 1;
    if p in tours[n] {
      d := n;
      k :| 0 <= k < |tours[n]| && tours[n][k] == p;
    } else {
      d, k := ConcatIndex(tours[..n], p);
    }
  }
}
