/** The deterministic checks of a finished plan: budget, daily windows, overlaps and opening hours. */
module Validators {
  import opened Common
  import opened Itinerary
  import opened Overlaps

  datatype Code =
    | BudgetExceeded | BudgetUnverifiable | BudgetTotalMismatch | CurrencyMismatch
    | ItemOutsideDailyWindow | ItemDateMismatch | ItemOverlap | ActivityTimeExceeded
    | OpeningHoursConflict | OpeningHoursUnknown
    | CoordinateSystemMismatch | MissingPlaceReference | MissingRouteReference | RouteEndpointMismatch
    | MissingClaimReference | MissingEvidenceReference | UnknownHardConstraint

  datatype Severity = Warning | Error

  datatype Path =
    | ItemCost(day: nat, item: nat) | DayCost(day: nat) | ItemOf(day: nat, item: nat) | ItemsOf(day: nat) | TotalCost
    | PlaceOfItem(day: nat, item: nat) | ClaimsOfItem(day: nat, item: nat) | EvidenceOfItem(day: nat, item: nat)
    | RouteOfItem(day: nat, item: nat)
    | AllPlaces | EvidenceOfPlace(index: nat)
    | SystemOfRoute(index: nat) | OriginOfRoute(index: nat) | DestinationOfRoute(index: nat)
    | EvidenceOfRoute(index: nat)
    | EvidenceOfClaim(index: nat) | StatusOfClaim(index: nat)

  datatype Issue = Issue(code: Code, severity: Severity, path: Path, related: seq<string>)

  predicate Passed(issues: seq<Issue>) {
    forall x :: x in issues ==> x.severity != Error
  }

  // ----- Budget -----

  predicate Declares(cost: Cost, lower: nat, upper: nat) {
    !cost.Unknown? && cost.Lower() == lower && cost.Upper() == upper
  }

  ghost function AllCosts(days: seq<Day>): seq<Cost> {
    if days == [] then [] else AllCosts(days[..|days| - 1]) + CostsOf(days[|days| - 1].items)
  }

  ghost predicate ItemCurrencyIssue(items: seq<Item>, d: nat, currency: string, x: Issue) {
    && x.path.ItemCost? && x.path.day == d && x.path.item < |items|
    && var item := items[x.path.item];
       item.cost.currency != currency && x == Issue(CurrencyMismatch, Error, x.path, [item.itemId])
  }

  ghost predicate DayCostIssue(day: Day, d: nat, currency: string, planId: string, x: Issue) {
    && x.path == DayCost(d) && x.severity == Error && x.related == [planId]
    && var costs := CostsOf(day.items);
       || (x.code == CurrencyMismatch && day.dailyCost.currency != currency)
       || (x.code == BudgetTotalMismatch && AllPriced(costs)
           && !Declares(day.dailyCost, LowerSum(costs), UpperSum(costs)))
  }

  ghost predicate DayBudgetIssue(day: Day, d: nat, currency: string, planId: string, x: Issue) {
    ItemCurrencyIssue(day.items, d, currency, x) || DayCostIssue(day, d, currency, planId, x)
  }

  /** An issue of a declared total over items that cost between lower and upper. */
  predicate DeclaredTotalIssue(planId: string, declared: Cost, budget: Budget, lower: nat, upper: nat,
                               hasUnknown: bool, x: Issue)
  {
    && x.path == TotalCost && x.related == [planId]
    && match x.code
       case CurrencyMismatch => x.severity == Error && declared.currency != budget.currency
       case BudgetTotalMismatch => x.severity == Error && !hasUnknown && !Declares(declared, lower, upper)
       case BudgetUnverifiable => x.severity == SeverityUnder(budget.policy) && hasUnknown
       case BudgetExceeded => x.severity == SeverityUnder(budget.policy) && !hasUnknown && upper > budget.total
       case _ => false
  }

  ghost predicate TotalIssue(plan: Plan, request: TripRequest, x: Issue) {
    var costs := AllCosts(plan.days);
    DeclaredTotalIssue(plan.planId, plan.totalCost, request.budget, LowerSum(costs), UpperSum(costs),
                       !AllPriced(costs), x)
  }

  /** A hard budget makes an unprovable or exceeded total an error, a flexible one only a warning. */
  function SeverityUnder(policy: Policy): Severity {
    if policy.Hard? then Error else Warning
  }

  ghost predicate BudgetIssue(plan: Plan, request: TripRequest, x: Issue) {
    || TotalIssue(plan, request, x)
    || ((x.path.ItemCost? || x.path.DayCost?) && x.path.day < |plan.days|
        && DayBudgetIssue(plan.days[x.path.day], x.path.day, request.budget.currency, plan.planId, x))
  }

  lemma SumsOfPrefix(costs: seq<Cost>, i: nat)
    requires i < |costs|
    ensures LowerSum(costs[..i + 1]) == LowerSum(costs[..i]) + costs[i].Lower()
    ensures UpperSum(costs[..i + 1]) == UpperSum(costs[..i]) + costs[i].Upper()
    ensures AllPriced(costs[..i + 1]) <==> AllPriced(costs[..i]) && !costs[i].Unknown?
  {
    assert costs[..i + 1] == costs[..i] + [costs[i]];
    assert costs[..i + 1][..i] == costs[..i];
  }

  method ValidateDayBudget(day: Day, d: nat, currency: string, planId: string)
    returns (issues: seq<Issue>, lower: nat, upper: nat, hasUnknown: bool)
    ensures forall x :: x in issues <==> DayBudgetIssue(day, d, currency, planId, x)
    ensures lower == LowerSum(CostsOf(day.items)) && upper == UpperSum(CostsOf(day.items))
    ensures hasUnknown <==> !AllPriced(CostsOf(day.items))
  {
    issues, lower, upper, hasUnknown := [], 0, 0, false;
    ghost var costs := CostsOf(day.items);
    for i := 0 to |day.items|
      invariant forall x :: x in issues <==> ItemCurrencyIssue(day.items, d, currency, x) && x.path.item < i
      invariant lower == LowerSum(costs[..i]) && upper == UpperSum(costs[..i])
      invariant hasUnknown <==> !AllPriced(costs[..i])
    {
      var item := day.items[i];
      SumsOfPrefix(costs, i);
      if item.cost.currency != currency {
        issues := issues + [Issue(CurrencyMismatch, Error, ItemCost(d, i), [item.itemId])];
      }
      if item.cost.Unknown? {
        hasUnknown := true;
      } else {
        lower := lower + item.cost.Lower();
        upper := upper + item.cost.Upper();
      }
    }
    assert costs[..|day.items|] == costs;
    if day.dailyCost.currency != currency {
      issues := issues + [Issue(CurrencyMismatch, Error, DayCost(d), [planId])];
    }
    if !hasUnknown && !Declares(day.dailyCost, lower, upper) {
      issues := issues + [Issue(BudgetTotalMismatch, Error, DayCost(d), [planId])];
    }
  }

  lemma AllCostsByLast(days: seq<Day>, d: nat)
    requires d < |days|
    ensures var before, costs := AllCosts(days[..d]), CostsOf(days[d].items);
            && AllCosts(days[..d + 1]) == before + costs
            && LowerSum(before + costs) == LowerSum(before) + LowerSum(costs)
            && UpperSum(before + costs) == UpperSum(before) + UpperSum(costs)
            && (AllPriced(before + costs) <==> AllPriced(before) && AllPriced(costs))
  {
    assert days[..d + 1][..d] == days[..d];
    SumsOfConcatenation(AllCosts(days[..d]), CostsOf(days[d].items));
  }

  method ValidateTotal(planId: string, declared: Cost, budget: Budget, lower: nat, upper: nat, hasUnknown: bool)
    returns (issues: seq<Issue>)
    ensures forall x :: x in issues <==> DeclaredTotalIssue(planId, declared, budget, lower, upper, hasUnknown, x)
  {
    issues := [];
    if declared.currency != budget.currency {
      issues := issues + [Issue(CurrencyMismatch, Error, TotalCost, [planId])];
    }
    if !hasUnknown && !Declares(declared, lower, upper) {
      issues := issues + [Issue(BudgetTotalMismatch, Error, TotalCost, [planId])];
    }
    var severity := SeverityUnder(budget.policy);
    if hasUnknown {
      issues := issues + [Issue(BudgetUnverifiable, severity, TotalCost, [planId])];
    } else if upper > budget.total {
      issues := issues + [Issue(BudgetExceeded, severity, TotalCost, [planId])];
    }
  }

  /** The issues of the days before day d. */
  ghost predicate EarlierBudgetIssue(plan: Plan, request: TripRequest, d: nat, x: Issue) {
    && (x.path.ItemCost? || x.path.DayCost?) && x.path.day < d <= |plan.days|
    && DayBudgetIssue(plan.days[x.path.day], x.path.day, request.budget.currency, plan.planId, x)
  }

  lemma EarlierBudgetOneMore(plan: Plan, request: TripRequest, d: nat)
    requires d < |plan.days|
    ensures forall x :: EarlierBudgetIssue(plan, request, d + 1, x) <==>
              || EarlierBudgetIssue(plan, request, d, x)
              || DayBudgetIssue(plan.days[d], d, request.budget.currency, plan.planId, x)
  {
  }

  method ValidateBudget(plan: Plan, request: TripRequest) returns (issues: seq<Issue>)
    ensures forall x :: x in issues <==> BudgetIssue(plan, request, x)
  {
    issues := [];
    var lower, upper, hasUnknown := 0, 0, false;
    for d := 0 to |plan.days|
      invariant forall x :: x in issues <==> EarlierBudgetIssue(plan, request, d, x)
      invariant lower == LowerSum(AllCosts(plan.days[..d])) && upper == UpperSum(AllCosts(plan.days[..d]))
      invariant hasUnknown <==> !AllPriced(AllCosts(plan.days[..d]))
    {
      var found, dayLower, dayUpper, dayHasUnknown :=
        ValidateDayBudget(plan.days[d], d, request.budget.currency, plan.planId);
      AllCostsByLast(plan.days, d);
      EarlierBudgetOneMore(plan, request, d);
      issues := issues + found;
      lower, upper, hasUnknown := lower + dayLower, upper + dayUpper, hasUnknown || dayHasUnknown;
    }
    assert plan.days[..|plan.days|] == plan.days;
    var found := ValidateTotal(plan.planId, plan.totalCost, request.budget, lower, upper, hasUnknown);
    issues := issues + found;
  }

  // ----- Daily windows -----

  ghost predicate ItemWindowIssue(day: Day, d: nat, window: Window, x: Issue) {
    && x.path.ItemOf? && x.path.day == d && x.path.item < |day.items|
    && var item := day.items[x.path.item];
       && x.severity == Error && x.related == [item.itemId]
       && match x.code
          case ItemDateMismatch => DateOf(item.startAt) != day.date || DateOf(item.endAt) != day.date
          case ItemOutsideDailyWindow => TimeOf(item.startAt) < window.start || TimeOf(item.endAt) > window.end
          case _ => false
  }

  ghost predicate DayWindowIssue(day: Day, d: nat, request: TripRequest, planId: string, x: Issue) {
    || ItemWindowIssue(day, d, request.window, x)
    || (x == Issue(ActivityTimeExceeded, Error, ItemsOf(d), [planId])
        && MinutesOf(day.items) > request.maxActivityMinutes)
  }

  ghost predicate WindowIssue(plan: Plan, request: TripRequest, x: Issue) {
    && (x.path.ItemOf? || x.path.ItemsOf?) && x.path.day < |plan.days|
    && DayWindowIssue(plan.days[x.path.day], x.path.day, request, plan.planId, x)
  }

  method ValidateDayWindow(day: Day, d: nat, request: TripRequest, planId: string) returns (issues: seq<Issue>)
    ensures forall x :: x in issues <==> DayWindowIssue(day, d, request, planId, x)
  {
    issues := [];
    var minutes := 0;
    for i := 0 to |day.items|
      invariant forall x :: x in issues <==> ItemWindowIssue(day, d, request.window, x) && x.path.item < i
      invariant minutes == MinutesOf(day.items[..i])
    {
      var item := day.items[i];
      if DateOf(item.startAt) != day.date || DateOf(item.endAt) != day.date {
        issues := issues + [Issue(ItemDateMismatch, Error, ItemOf(d, i), [item.itemId])];
      }
      if TimeOf(item.startAt) < request.window.start || TimeOf(item.endAt) > request.window.end {
        issues := issues + [Issue(ItemOutsideDailyWindow, Error, ItemOf(d, i), [item.itemId])];
      }
      assert day.items[..i + 1][..i] == day.items[..i];
      minutes := minutes + item.endAt - item.startAt;
    }
    assert day.items[..|day.items|] == day.items;
    if minutes > request.maxActivityMinutes {
      issues := issues + [Issue(ActivityTimeExceeded, Error, ItemsOf(d), [planId])];
    }
  }

  method ValidateTimeWindows(plan: Plan, request: TripRequest) returns (issues: seq<Issue>)
    ensures forall x :: x in issues <==> WindowIssue(plan, request, x)
  {
    issues := [];
    for d := 0 to |plan.days|
      invariant forall x :: x in issues <==> WindowIssue(plan, request, x) && x.path.day < d
    {
      var found := ValidateDayWindow(plan.days[d], d, request, plan.planId);
      issues := issues + found;
    }
  }

  // ----- Overlaps -----

  predicate Collide(ordered: seq<Item>, k: nat) {
    0 < k < |ordered| && ordered[k].startAt < ordered[k - 1].endAt
  }

  function CollisionIssue(ordered: seq<Item>, d: nat, k: nat): Issue
    requires 0 < k < |ordered|
  {
    Issue(ItemOverlap, Error, ItemsOf(d), [ordered[k - 1].itemId, ordered[k].itemId])
  }

  /** Some neighbours before position n collide and are named by the issue. */
  ghost predicate CollisionBefore(ordered: seq<Item>, d: nat, n: int, x: Issue) {
    exists k: nat :: k < n && Collide(ordered, k) && x == CollisionIssue(ordered, d, k)
  }

  ghost predicate DayOverlapIssue(day: Day, d: nat, x: Issue) {
    CollisionBefore(ByStart(day.items), d, |day.items|, x)
  }

  ghost predicate OverlapIssue(plan: Plan, x: Issue) {
    x.path.ItemsOf? && x.path.day < |plan.days| && DayOverlapIssue(plan.days[x.path.day], x.path.day, x)
  }

  lemma CollisionStep(ordered: seq<Item>, d: nat, n: nat, x: Issue)
    ensures CollisionBefore(ordered, d, n + 1, x) <==>
              CollisionBefore(ordered, d, n, x) || (Collide(ordered, n) && x == CollisionIssue(ordered, d, n))
  {
    if k: nat :| k < n && Collide(ordered, k) && x == CollisionIssue(ordered, d, k) {
      assert k < n + 1;
    }
  }

  method CompareNeighbours(ordered: seq<Item>, d: nat) returns (issues: seq<Issue>)
    ensures forall x :: x in issues <==> CollisionBefore(ordered, d, |ordered|, x)
    ensures issues == [] <==> NeighboursApart(ordered)
  {
    issues := [];
    for k := 0 to |ordered|
      invariant forall x :: x in issues <==> CollisionBefore(ordered, d, k, x)
      invariant issues == [] <==> forall j: nat :: j < k ==> !Collide(ordered, j)
    {
      forall x ensures CollisionBefore(ordered, d, k + 1, x) <==>
                         || CollisionBefore(ordered, d, k, x)
                         || (Collide(ordered, k) && x == CollisionIssue(ordered, d, k))
      {
        CollisionStep(ordered, d, k, x);
      }
      if Collide(ordered, k) {
        issues := issues + [CollisionIssue(ordered, d, k)];
      }
    }
    assert forall j: nat :: 0 < j < |ordered| ==> (Collide(ordered, j) <==> ordered[j].startAt < ordered[j - 1].endAt);
  }

  method ValidateDayOverlaps(day: Day, d: nat) returns (issues: seq<Issue>)
    ensures forall x :: x in issues <==> DayOverlapIssue(day, d, x)
    ensures Lasting(day.items) ==> (issues == [] <==> AllApart(day.items))
  {
    var ordered := ByStart(day.items);
    ByStartRearranges(day.items);
    RearrangedLength(ordered, day.items);
    issues := CompareNeighbours(ordered, d);
    if Lasting(day.items) {
      NeighboursDecide(day.items);
    }
  }

  ghost predicate DaysApart(plan: Plan) {
    forall d :: 0 <= d < |plan.days| ==> AllApart(plan.days[d].items)
  }

  ghost predicate LastingPlan(plan: Plan) {
    forall d :: 0 <= d < |plan.days| ==> Lasting(plan.days[d].items)
  }

  method ValidateOverlaps(plan: Plan) returns (issues: seq<Issue>)
    ensures forall x :: x in issues <==> OverlapIssue(plan, x)
    ensures LastingPlan(plan) ==> (issues == [] <==> DaysApart(plan))
  {
    issues := [];
    for d := 0 to |plan.days|
      invariant forall x :: x in issues <==> OverlapIssue(plan, x) && x.path.day < d
      invariant LastingPlan(plan) ==> (issues == [] <==> forall e :: 0 <= e < d ==> AllApart(plan.days[e].items))
    {
      var found := ValidateDayOverlaps(plan.days[d], d);
      issues := issues + found;
    }
  }

  // ----- Opening hours -----

  /** When several places share an identifier the last one listed counts. */
  function PlaceById(places: seq<Place>, id: string): Option<Place> {
    if places == [] then None
    else if places[|places| - 1].placeId == id then Some(places[|places| - 1])
    else PlaceById(places[..|places| - 1], id)
  }

  /** The place opens on the date, in one period, for the whole of the item. */
  ghost predicate OpenThroughout(schedule: OpeningSchedule, date: int, item: Item) {
    && date !in schedule.specialClosures
    && exists p :: p in schedule.periods && p.weekday == WeekdayOf(date)
                && p.opens <= TimeOf(item.startAt) && TimeOf(item.endAt) <= p.closes
  }

  ghost predicate ItemOpeningIssue(day: Day, d: nat, places: seq<Place>, x: Issue) {
    && x.path.ItemOf? && x.path.day == d && x.path.item < |day.items|
    && var item := day.items[x.path.item];
       var place := PlaceById(places, item.placeId);
       && place.Some? && x.severity == Error && x.related == [item.itemId, place.value.placeId]
       && match x.code
          case OpeningHoursUnknown => place.value.opening.None?
          case OpeningHoursConflict =>
            place.value.opening.Some? && !OpenThroughout(place.value.opening.value, day.date, item)
          case _ => false
  }

  ghost predicate OpeningIssue(plan: Plan, places: seq<Place>, x: Issue) {
    && x.path.ItemOf? && x.path.day < |plan.days|
    && ItemOpeningIssue(plan.days[x.path.day], x.path.day, places, x)
  }

  method ValidateDayOpening(day: Day, d: nat, places: seq<Place>) returns (issues: seq<Issue>)
    ensures forall x :: x in issues <==> ItemOpeningIssue(day, d, places, x)
  {
    issues := [];
    for i := 0 to |day.items|
      invariant forall x :: x in issues <==> ItemOpeningIssue(day, d, places, x) && x.path.item < i
    {
      var item := day.items[i];
      var place := PlaceById(places, item.placeId);
      if place.Some? {
        var related := [item.itemId, place.value.placeId];
        if place.value.opening.None? {
          issues := issues + [Issue(OpeningHoursUnknown, Error, ItemOf(d, i), related)];
        } else if || day.date in place.value.opening.value.specialClosures
                  || !exists p :: p in place.value.opening.value.periods && p.weekday == WeekdayOf(day.date)
                               && p.opens <= TimeOf(item.startAt) && TimeOf(item.endAt) <= p.closes {
          issues := issues + [Issue(OpeningHoursConflict, Error, ItemOf(d, i), related)];
        }
      }
    }
  }

  method ValidateOpeningHours(plan: Plan, places: seq<Place>) returns (issues: seq<Issue>)
    ensures forall x :: x in issues <==> OpeningIssue(plan, places, x)
  {
    issues := [];
    for d := 0 to |plan.days|
      invariant forall x :: x in issues <==> OpeningIssue(plan, places, x) && x.path.day < d
    {
      var found := ValidateDayOpening(plan.days[d], d, places);
      issues := issues + found;
    }
  }

  // ----- What concerns the plan alone -----

  ghost predicate PlanIssue(plan: Plan, request: TripRequest, places: seq<Place>, x: Issue) {
    || BudgetIssue(plan, request, x) || WindowIssue(plan, request, x)
    || OverlapIssue(plan, x) || OpeningIssue(plan, places, x)
  }

  // ----- What a passing report means -----

  ghost predicate DistinctDates(plan: Plan) {
    forall d, e :: 0 <= d < e < |plan.days| ==> plan.days[d].date != plan.days[e].date
  }

  /** Two different items of the plan. */
  ghost predicate Different(plan: Plan, d: nat, i: nat, e: nat, j: nat) {
    d < |plan.days| && e < |plan.days| && i < |plan.days[d].items| && j < |plan.days[e].items| && (d != e || i != j)
  }

  lemma DatesKept(plan: Plan, request: TripRequest, places: seq<Place>, d: nat, i: nat)
    requires forall x :: PlanIssue(plan, request, places, x) ==> x.severity != Error
    requires d < |plan.days| && i < |plan.days[d].items|
    ensures DateOf(plan.days[d].items[i].startAt) == DateOf(plan.days[d].items[i].endAt) == plan.days[d].date
  {
    var day := plan.days[d];
    var x := Issue(ItemDateMismatch, Error, ItemOf(d, i), [day.items[i].itemId]);
    assert DateOf(day.items[i].startAt) != day.date || DateOf(day.items[i].endAt) != day.date ==>
        ItemWindowIssue(day, d, request.window, x) && PlanIssue(plan, request, places, x);
  }

  /** A passing plan whose days have different dates keeps any two of its items apart, whichever days they are on. */
  lemma PassingMeansApart(plan: Plan, request: TripRequest, places: seq<Place>, d: nat, i: nat, e: nat, j: nat)
    requires LastingPlan(plan) && DistinctDates(plan) && Different(plan, d, i, e, j)
    requires forall x :: PlanIssue(plan, request, places, x) ==> x.severity != Error
    ensures Apart(plan.days[d].items[i], plan.days[e].items[j])
  {
    if d == e {
      var items := plan.days[d].items;
      NeighboursDecide(items);
      if !NeighboursApart(ByStart(items)) {
        var k :| 0 < k < |ByStart(items)| && ByStart(items)[k - 1].endAt > ByStart(items)[k].startAt;
        ByStartRearranges(items);
        RearrangedLength(ByStart(items), items);
        assert Collide(ByStart(items), k);
        assert PlanIssue(plan, request, places, CollisionIssue(ByStart(items), d, k));
      }
    } else {
      DatesKept(plan, request, places, d, i);
      DatesKept(plan, request, places, e, j);
    }
  }

  /** A passing plan under a hard budget is fully priced and even its upper prices fit. */
  lemma PassingMeansAffordable(plan: Plan, request: TripRequest, places: seq<Place>)
    requires request.budget.policy.Hard?
    requires forall x :: PlanIssue(plan, request, places, x) ==> x.severity != Error
    ensures AllPriced(AllCosts(plan.days)) && UpperSum(AllCosts(plan.days)) <= request.budget.total
  {
    TotalIsFound(plan, request, places, BudgetUnverifiable);
    TotalIsFound(plan, request, places, BudgetExceeded);
  }

  lemma TotalIsFound(plan: Plan, request: TripRequest, places: seq<Place>, code: Code)
    ensures var x := Issue(code, Error, TotalCost, [plan.planId]);
            TotalIssue(plan, request, x) ==> PlanIssue(plan, request, places, x)
  {
  }
}
