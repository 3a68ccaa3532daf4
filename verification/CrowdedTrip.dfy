/** A two-day trip with two appointments on its first day: the variants that select as few places as possible
    leave the second day empty, although all three candidates make a plan. */
module CrowdedTrip {
  import opened Common
  import opened Itinerary
  import opened RouteOrder
  import opened DaySchedule
  import opened Validators
  import opened References
  import opened ReferenceAudit
  import opened PlanAudit
  import opened Planner
  import P = Partition

  /** Open from nine to nine on the Sunday and the Monday of the trip, for a visit of one hour. */
  function Stop(id: string): Place {
    Place(id, id, Some(OpeningSchedule([OpeningPeriod(6, 540, 1260), OpeningPeriod(0, 540, 1260)], [])),
          Known("CNY", 0), 60, 60, GCJ02, ["e"])
  }

  /** A Sunday. */
  const START: int := 7

  function Request(): TripRequest {
    TripRequest(START, 2, Window(540, 1260), [], [],
                [Appointment("a", START, 600, 660, "a"), Appointment("b", START, 720, 780, "b")],
                600, Budget(100, "CNY", Flexible))
  }

  function Places(): seq<Place> {
    [Stop("a"), Stop("b"), Stop("c")]
  }

  function Routes(): seq<Route> {
    [Route("ab", "a", "b", 30, GCJ02, ["e"])]
  }

  function Inputs(): Sources {
    Sources(Routes(), [], ["e"])
  }

  lemma NamesAndFreeDays()
    ensures RequiredNames(Request()) == {"a", "b"}
    ensures P.FreeDays(Request()) == {1}
  {
    var request := Request();
    var first, second := request.appointments[0], request.appointments[1];
    assert request.appointments == [first, second];
    assert forall x :: x in request.appointments <==> x == first || x == second;
    assert AppointmentNames(request) == {first.placeName, second.placeName};
    assert P.DatesOf(request.appointments) == {first.date};
    assert P.Booked(request, 0) && !P.Booked(request, 1);
  }

  lemma RequestIsWellPosed()
    ensures WellPosed(Request(), Places())
  {
    NamesAndFreeDays();
    var places := Places();
    assert places[0].name == "a" && places[1].name == "b";
    assert places[0] in places && places[1] in places;
  }

  lemma RequiredByLast(init: seq<Place>, last: Place, names: set<string>)
    ensures RequiredAmong(init + [last], names) ==
              RequiredAmong(init, names) + if last.name in names then [last] else []
  {
    assert (init + [last])[..|init|] == init;
  }

  lemma RequiredOfThree(a: Place, b: Place, c: Place, names: set<string>)
    requires a.name in names && b.name in names && c.name !in names
    ensures RequiredAmong([a, b, c], names) == [a, b]
  {
    RequiredByLast([], a, names);
    RequiredByLast([a], b, names);
    RequiredByLast([a, b], c, names);
    assert [] + [a] == [a] && [a] + [b] == [a, b] && [a, b] + [c] == [a, b, c];
  }

  lemma MinimumIsTwo()
    ensures MinimumCount(Request(), Places()) == 2
  {
    NamesAndFreeDays();
    var names := RequiredNames(Request());
    var a, b, c := Stop("a"), Stop("b"), Stop("c");
    RequiredOfThree(a, b, c, names);
    assert RequiredAmong(Places(), names) == [a, b];
  }

  lemma ChosenOfThree(a: Place, b: Place, c: Place, choice: seq<bool>)
    requires |choice| == 3 && choice[0] && choice[1]
    ensures Chosen([a, b, c], choice) == [a, b] + if choice[2] then [c] else []
  {
    var all := [a, b, c];
    assert all[..2] == [a, b] && [a, b][..1] == [a] && [a][..0] == [];
    assert choice[..2][..1] == choice[..1];
    assert Chosen([a], choice[..1]) == [a];
    assert Chosen([a, b], choice[..2]) == [a, b];
  }

  /** Every selection contains the two appointment places, and a tight one nothing else. */
  lemma WhatIsChosen(strategy: Strategy, choice: seq<bool>)
    requires Posted(Request(), strategy, Places(), choice)
    ensures |choice| == 3 && choice[0] && choice[1]
    ensures Chosen(Places(), choice) == [Stop("a"), Stop("b")] + Third(choice[2])
    ensures !strategy.Balanced? ==> !choice[2]
  {
    NamesAndFreeDays();
    MinimumIsTwo();
    assert Places()[0].name == "a" && Places()[1].name == "b";
    ChosenOfThree(Stop("a"), Stop("b"), Stop("c"), choice);
  }

  /** The one selection a tight variant may make. */
  lemma TightChoice(strategy: Strategy, choice: seq<bool>)
    requires !strategy.Balanced?
    ensures Posted(Request(), strategy, Places(), choice) <==> choice == [true, true, false]
  {
    if Posted(Request(), strategy, Places(), choice) {
      WhatIsChosen(strategy, choice);
    }
    MinimumIsTwo();
    ChosenOfThree(Stop("a"), Stop("b"), Stop("c"), [true, true, false]);
    assert Places()[2].name !in RequiredNames(Request()) by {
      NamesAndFreeDays();
    }
  }

  // ----- The days -----

  lemma FixedOnFirstDay(chosen: seq<Place>, rest: seq<Place>)
    requires chosen == [Stop("a"), Stop("b")] + rest && forall p :: p in rest ==> p.name != "a" && p.name != "b"
    ensures P.Named(chosen, Request().appointments)
    ensures P.FixedOn(chosen, Request().appointments, START) == [Stop("a"), Stop("b")]
    decreases |rest|
  {
    var first, second := Request().appointments[0], Request().appointments[1];
    NamedFirst(rest);
    var appointments := Request().appointments;
    assert forall x :: x in appointments <==> x == first || x == second;
    assert appointments[..1] == [first] && [first][..0] == [];
    assert P.FixedOn(chosen, [first], START) == [Stop("a")];
  }

  lemma NamedFirst(rest: seq<Place>)
    requires forall p :: p in rest ==> p.name != "a" && p.name != "b"
    ensures P.LastNamed([Stop("a"), Stop("b")] + rest, "a") == Some(Stop("a"))
    ensures P.LastNamed([Stop("a"), Stop("b")] + rest, "b") == Some(Stop("b"))
  {
    var chosen := [Stop("a"), Stop("b")] + rest;
    if rest == [] {
      assert chosen == [Stop("a"), Stop("b")];
      assert chosen[..1] == [Stop("a")];
      assert P.LastNamed([Stop("a")], "a") == Some(Stop("a"));
    } else {
      var init := rest[..|rest| - 1];
      assert chosen[..|chosen| - 1] == [Stop("a"), Stop("b")] + init;
      assert chosen[|chosen| - 1] in rest;
      NamedFirst(init);
    }
  }

  lemma ConcatOfTwo(days: seq<seq<Place>>)
    requires |days| == 2
    ensures P.Concat(days) == days[0] + days[1]
  {
    assert days[..1] == [days[0]] && [days[0]][..0] == [];
    assert P.Concat([days[0]]) == [] + days[0];
  }

  /** Cancelling a known start from a rearrangement. */
  lemma RestIsRest<T>(start: seq<T>, d0: seq<T>, d1: seq<T>, rest: seq<T>)
    requires Rearranges(d0 + d1, start + rest) && start <= d0 && |rest| <= 1
    requires |d0| > |start| ==> |d1| >= |start| && start != []
    ensures d0 == start && d1 == rest
  {
    RearrangedLength(d0 + d1, start + rest);
    assert d0 == start;
    assert multiset(d1) == multiset(start + d1) - multiset(start);
    assert multiset(rest) == multiset(start + rest) - multiset(start);
    RearrangedLength(d1, rest);
    if rest != [] {
      RearrangedMember(d1, rest, rest[0]);
    }
  }

  lemma PartitionOfTwoDays(chosen: seq<Place>, rest: seq<Place>, days: seq<seq<Place>>)
    requires chosen == [Stop("a"), Stop("b")] + rest && forall p :: p in rest ==> p.name != "a" && p.name != "b"
    requires P.Named(chosen, Request().appointments) && P.IsPartition(chosen, Request(), days)
    ensures |days| == 2 && Rearranges(days[0] + days[1], chosen) && [Stop("a"), Stop("b")] <= days[0]
    ensures |days[0]| > 2 ==> |days[1]| >= 2
  {
    FixedOnFirstDay(chosen, rest);
    ConcatOfTwo(days);
    assert |days[0]| > 2 ==> P.Before(|days[0]| - 1, 0, |days[1]|, 1);
  }

  function Third(full: bool): seq<Place> {
    if full then [Stop("c")] else []
  }

  /** The partition is determined: the appointments on the first day, a third place on the second. */
  lemma DaysAreDetermined(chosen: seq<Place>, full: bool, days: seq<seq<Place>>)
    requires chosen == [Stop("a"), Stop("b")] + Third(full)
    requires P.Named(chosen, Request().appointments) && P.IsPartition(chosen, Request(), days)
    ensures days == [[Stop("a"), Stop("b")], Third(full)]
  {
    PartitionOfTwoDays(chosen, Third(full), days);
    RestIsRest([Stop("a"), Stop("b")], days[0], days[1], Third(full));
  }

  // ----- Their timing -----

  lemma OrderOfPair(a: Place, b: Place, routes: seq<Route>)
    requires a.placeId != b.placeId && (a.placeId, b.placeId) in EdgesOf(routes)
    ensures Order([a, b], routes) == Some([a, b])
  {
    var edges := EdgesOf(routes);
    assert [a, b][1..] == [b] && [b][1..] == [];
    assert Without([b], a.placeId) == [b] && Without([a, b], a.placeId) == [b];
    assert Without([b], b.placeId) == [];
    assert [] + [a] == [a] && [a] + [b] == [a, b];
    assert Walk(edges, [a, b], []) == Some([a, b]);
    assert WalkFrom(edges, [a], [b], 0) == Some([a, b]);
    assert Walk(edges, [a], [b]) == Some([a, b]);
    assert WalkFrom(edges, [], [a, b], 0) == Some([a, b]);
  }

  function On(date: int, strategy: Strategy): Context {
    Context(Request(), date, Inputs(), strategy)
  }

  lemma OpenOnBothDays(id: string, date: int)
    requires START <= date <= START + 1
    ensures OpeningOn(Stop(id), date).Some?
    ensures OpeningOn(Stop(id), date).value.opens == 540 && OpeningOn(Stop(id), date).value.closes == 1260
  {
    var periods := Stop(id).opening.value.periods;
    assert periods[0].weekday == 6 && periods[1].weekday == 0;
    assert periods[0] in periods && periods[1] in periods;
  }

  lemma AppointmentsOfFirstDay()
    ensures AppointmentFor(Request().appointments, START, "a") == Some(Request().appointments[0])
    ensures AppointmentFor(Request().appointments, START, "b") == Some(Request().appointments[1])
    ensures AppointmentFor(Request().appointments, START + 1, "c") == None
  {
    assert Request().appointments[1..] == [Request().appointments[1]];
    assert [Request().appointments[1]][1..] == [];
  }

  lemma FirstDayFits(strategy: Strategy)
    ensures Fits(On(START, strategy), Stop("a"), At(START, 600))
    ensures Fits(On(START, strategy), Stop("b"), At(START, 720))
    ensures Stay(On(START, strategy), Stop("a")) == 60 == Stay(On(START, strategy), Stop("b"))
  {
    AppointmentsOfFirstDay();
    OpenOnBothDays("a", START);
    OpenOnBothDays("b", START);
  }

  lemma FirstDayIsSchedulable(strategy: Strategy)
    ensures Schedulable(On(START, strategy), [Stop("a"), Stop("b")])
  {
    var c, a, b := On(START, strategy), Stop("a"), Stop("b");
    var route := Routes()[0];
    assert route in Routes() && (route.origin, route.destination) == ("a", "b");
    OrderOfPair(a, b, Routes());
    FirstDayFits(strategy);
    assert RouteBetween(Routes(), "a", "b") == Some(route);
    var starts := [At(START, 600), At(START, 720)];
    assert StopFits(c, [a, b], starts, 0) && StopFits(c, [a, b], starts, 1);
    assert Feasible(c, [a, b], starts);
    StayOfPair(c, a, b);
  }

  lemma StayOfPair(c: Context, a: Place, b: Place)
    requires c.request.Valid()
    ensures StayTotal(c, [a, b]) == Stay(c, a) + Stay(c, b) && StayTotal(c, [b]) == Stay(c, b)
  {
    assert [a, b][..1] == [a] && [a][..0] == [] && [b][..0] == [];
    assert StayTotal(c, [a]) == Stay(c, a);
  }

  lemma SecondDayIsSchedulable(strategy: Strategy)
    ensures Schedulable(On(START + 1, strategy), [Stop("c")])
  {
    var c, place := On(START + 1, strategy), Stop("c");
    AppointmentsOfFirstDay();
    OpenOnBothDays("c", START + 1);
    assert Stay(c, place) == 60;
    assert StopFits(c, [place], [At(START + 1, 540)], 0);
    assert Feasible(c, [place], [At(START + 1, 540)]);
    StayOfPair(c, place, place);
  }

  lemma EmptyDayFails(strategy: Strategy, error: PlanningError)
    requires FailsFor(On(START + 1, strategy), [], error)
    ensures error == PlanningError.EmptyDay(START + 1)
  {
    assert Feasible(On(START + 1, strategy), [], []);
  }

  // ----- The outcome -----

  lemma BothDaysAreSchedulable(strategy: Strategy)
    ensures AllSchedulable(Request(), Inputs(), strategy, [[Stop("a"), Stop("b")], [Stop("c")]])
  {
    var days := [[Stop("a"), Stop("b")], [Stop("c")]];
    FirstDayIsSchedulable(strategy);
    SecondDayIsSchedulable(strategy);
    forall d | 0 <= d < 2 ensures Schedulable(ContextOn(Request(), Inputs(), strategy, d), days[d]) {
      assert ContextOn(Request(), Inputs(), strategy, d) == On(START + d, strategy);
    }
  }

  function EmptySecondDay(): seq<seq<Place>> {
    [[Stop("a"), Stop("b")], []]
  }

  lemma SecondDayIsNotSchedulable(strategy: Strategy)
    ensures !AllSchedulable(Request(), Inputs(), strategy, EmptySecondDay())
  {
    assert EmptySecondDay()[1] == [];
    assert !Schedulable(ContextOn(Request(), Inputs(), strategy, 1), EmptySecondDay()[1]);
  }

  lemma OnlyTheEmptyDayFails(strategy: Strategy, error: PlanningError)
    requires SomeDayFails(Request(), Inputs(), strategy, EmptySecondDay(), error)
    ensures error == PlanningError.EmptyDay(START + 1)
  {
    var days := EmptySecondDay();
    var d :| 0 <= d < 2 && FailsFor(ContextOn(Request(), Inputs(), strategy, d), days[d], error)
      && !Schedulable(ContextOn(Request(), Inputs(), strategy, d), days[d]);
    assert ContextOn(Request(), Inputs(), strategy, d) == On(START + d, strategy);
    FirstDayIsSchedulable(strategy);
    EmptyDayFails(strategy, error);
  }

  lemma InputsAreSound()
    ensures SoundSources(Places(), Inputs())
  {
    assert PlaceIds(Places())[0] == "a" && PlaceIds(Places())[1] == "b";
    assert forall p :: p in Places() ==> p.system == GCJ02 && p.evidenceIds == ["e"];
    assert forall r :: r in Routes() ==> r == Routes()[0];
    assert "e" in Inputs().evidence;
  }

  lemma InputsAreClean(chosen: seq<Place>, days: seq<seq<Place>>)
    requires forall p :: p in chosen ==> p in Places()
    ensures CleanInputs(Request(), Inputs(), Places(), chosen, days)
  {
    InputsAreSound();
    forall d | 0 <= d < |days| ensures !ShadowedOrder(Routes(), days[d]) {
      if Order(days[d], Routes()).Some? {
        UniqueIdsCastNoShadow(Routes(), Order(days[d], Routes()).value);
      }
    }
  }

  /** Selecting all three places makes a plan, whichever variant it is for. */
  lemma AllThreeMakeAPlan(strategy: Strategy, choice: seq<bool>, days: seq<seq<Place>>, r: Result<Plan, PlanningError>)
    requires Posted(Request(), strategy, Places(), choice) && |choice| == 3 && choice[2]
    requires VariantOutcome(Request(), Inputs(), strategy, Places(), Chosen(Places(), choice), days, r)
    ensures r.Ok?
  {
    WhatIsChosen(strategy, choice);
    DaysAreDetermined(Chosen(Places(), choice), true, days);
    BothDaysAreSchedulable(strategy);
    InputsAreClean(Chosen(Places(), choice), days);
  }

  /** The balanced variant may select all three. */
  lemma BalancedMaySelectAll()
    ensures Posted(Request(), Balanced, Places(), [true, true, true])
  {
    MinimumIsTwo();
    ChosenOfThree(Stop("a"), Stop("b"), Stop("c"), [true, true, true]);
  }

  /** A tight variant always fails, and the fault is the empty second day. */
  lemma TightVariantsLeaveADayEmpty(strategy: Strategy, choice: seq<bool>, days: seq<seq<Place>>,
                                    r: Result<Plan, PlanningError>)
    requires !strategy.Balanced? && Posted(Request(), strategy, Places(), choice)
    requires VariantOutcome(Request(), Inputs(), strategy, Places(), Chosen(Places(), choice), days, r)
    ensures r == Err(PlanningError.EmptyDay(START + 1))
  {
    WhatIsChosen(strategy, choice);
    DaysAreDetermined(Chosen(Places(), choice), false, days);
    SecondDayIsNotSchedulable(strategy);
    OnlyTheEmptyDayFails(strategy, r.error);
  }
}
