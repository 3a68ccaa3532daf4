/** Distributing the chosen places over the travel days: appointments on their dates, every other place on
    the least loaded day. */
module Partition {
  import opened Common
  import opened Itinerary

  /** When several places share a name the last one listed takes the appointment. */
  function LastNamed(places: seq<Place>, name: string): Option<Place> {
    if places == [] then None
    else if places[|places| - 1].name == name then Some(places[|places| - 1])
    else LastNamed(places[..|places| - 1], name)
  }

  /** A place is found exactly when some place has the name, and then it is the last listed one. */
  lemma {:induction false} LastNamedIsExact(places: seq<Place>, name: string)
    ensures match LastNamed(places, name)
            case Some(p) =>
              && p in places && p.name == name
              && exists i :: 0 <= i < |places| && places[i] == p
                          && forall j :: i < j < |places| ==> places[j].name != name
            case None => forall p :: p in places ==> p.name != name
  {
    if places != [] {
      var init, last := places[..|places| - 1], places[|places| - 1];
      LastNamedIsExact(init, name);
      assert places == init + [last];
      if last.name == name {
        assert places[|init|] == last;
      } else if LastNamed(init, name).Some? {
        var i :| 0 <= i < |init| && init[i] == LastNamed(init, name).value
          && forall j :: i < j < |init| ==> init[j].name != name;
        assert places[i] == init[i];
      }
    }
  }

  ghost predicate Named(places: seq<Place>, appointments: seq<Appointment>) {
    forall a :: a in appointments ==> LastNamed(places, a.placeName).Some?
  }

  ghost predicate DistinctNames(appointments: seq<Appointment>) {
    forall i, j :: 0 <= i < j < |appointments| ==> appointments[i].placeName != appointments[j].placeName
  }

  /** The appointments' places, in appointment order. */
  function FixedPlaces(places: seq<Place>, appointments: seq<Appointment>): (fixed: seq<Place>)
    requires Named(places, appointments)
    ensures |fixed| == |appointments|
    ensures forall i {:trigger fixed[i]} :: 0 <= i < |fixed| ==>
              fixed[i] == LastNamed(places, appointments[i].placeName).value
  {
    seq(|appointments|, i requires 0 <= i < |appointments| => LastNamed(places, appointments[i].placeName).value)
  }

  function FixedOn(places: seq<Place>, appointments: seq<Appointment>, date: int): seq<Place>
    requires Named(places, appointments)
  {
    if appointments == [] then []
    else
      var last := appointments[|appointments| - 1];
      var before := FixedOn(places, appointments[..|appointments| - 1], date);
      if last.date == date then before + [LastNamed(places, last.placeName).value] else before
  }

  function DatesOf(appointments: seq<Appointment>): set<int> {
    set a | a in appointments :: a.date
  }

  /** The places whose identifiers are not taken yet, in their given order. */
  function Unassigned(places: seq<Place>, taken: set<string>): seq<Place> {
    if places == [] then []
    else
      var last := places[|places| - 1];
      var before := Unassigned(places[..|places| - 1], taken);
      if last.placeId in taken then before else before + [last]
  }

  function Concat(days: seq<seq<Place>>): seq<Place> {
    if days == [] then [] else Concat(days[..|days| - 1]) + days[|days| - 1]
  }

  function EmptyDays(days: seq<seq<Place>>): set<nat> {
    set d: nat | d < |days| && days[d] == []
  }

  /** The load and index of one day come before those of another, compared as pairs. */
  predicate Before(load: int, day: nat, otherLoad: int, otherDay: nat) {
    load < otherLoad || (load == otherLoad && day <= otherDay)
  }

  function LeastLoaded(days: seq<seq<Place>>): (day: nat)
    requires days != []
    ensures day < |days|
    ensures forall d :: 0 <= d < |days| ==> Before(|days[day]|, day, |days[d]|, d)
  {
    var n := |days| - 1;
    if n == 0 then 0
    else
      var best := LeastLoaded(days[..n]);
      assert forall d :: 0 <= d < n ==> days[..n][d] == days[d];
      if |days[n]| < |days[best]| then n else best
  }

  lemma {:induction false} AppendToOneDay(days: seq<seq<Place>>, d: nat, place: Place)
    requires d < |days|
    ensures multiset(Concat(days[d := days[d] + [place]])) == multiset(Concat(days)) + multiset{place}
  {
    var n := |days| - 1;
    var after := days[d := days[d] + [place]];
    if d == n {
      assert after[..n] == days[..n];
    } else {
      AppendToOneDay(days[..n], d, place);
      assert after[..n] == days[..n][d := days[..n][d] + [place]];
    }
  }

  lemma {:induction false} NothingConcatenated(days: seq<seq<Place>>)
    requires forall d :: 0 <= d < |days| ==> days[d] == []
    ensures Concat(days) == []
  {
    if days != [] {
      NothingConcatenated(days[..|days| - 1]);
    }
  }

  function IdsOf(places: seq<Place>): set<string> {
    set p | p in places :: p.placeId
  }

  lemma IdsByLast(init: seq<Place>, last: Place)
    ensures IdsOf(init + [last]) == IdsOf(init) + {last.placeId}
  {
    var s := init + [last];
    assert s[|init|] == last && forall i :: 0 <= i < |init| ==> s[i] == init[i];
    assert forall p :: p in s <==> p in init || p == last;
  }

  ghost predicate OnTheTrip(appointments: seq<Appointment>, startDate: int, n: nat) {
    forall a :: a in appointments ==> startDate <= a.date < startDate + n
  }

  /** The days after the appointments are placed one by one. */
  ghost function Placed(places: seq<Place>, appointments: seq<Appointment>, startDate: int,
                        n: nat): (days: seq<seq<Place>>)
    requires Named(places, appointments) && OnTheTrip(appointments, startDate, n)
    ensures |days| == n
  {
    if appointments == [] then seq(n, _ => [])
    else
      var last := appointments[|appointments| - 1];
      var before := Placed(places, appointments[..|appointments| - 1], startDate, n);
      var d := last.date - startDate;
      before[d := before[d] + [LastNamed(places, last.placeName).value]]
  }

  /** Each day then holds exactly the places of its own appointments. */
  lemma {:induction false} PlacedByDate(places: seq<Place>, appointments: seq<Appointment>, startDate: int,
                                        n: nat, d: nat)
    requires Named(places, appointments) && OnTheTrip(appointments, startDate, n) && d < n
    ensures Placed(places, appointments, startDate, n)[d] == FixedOn(places, appointments, startDate + d)
  {
    if appointments != [] {
      PlacedByDate(places, appointments[..|appointments| - 1], startDate, n, d);
    }
  }

  lemma AppendedIsRearranged(days: seq<seq<Place>>, d: nat, place: Place, all: seq<Place>,
                             longer: seq<seq<Place>>, more: seq<Place>)
    requires d < |days| && Rearranges(Concat(days), all)
    requires longer == days[d := days[d] + [place]] && more == all + [place]
    ensures Rearranges(Concat(longer), more)
  {
    AppendToOneDay(days, d, place);
    RearrangesOneMore(Concat(longer), Concat(days), all, place);
  }

  lemma FixedPlacesByLast(places: seq<Place>, init: seq<Appointment>, last: Appointment)
    requires Named(places, init) && Named(places, [last])
    ensures Named(places, init + [last])
    ensures FixedPlaces(places, init + [last]) == FixedPlaces(places, init) + [LastNamed(places, last.placeName).value]
  {
    assert [last][0] in [last];
    assert forall a :: a in init + [last] <==> a in init || a in [last];
  }

  lemma PlacedByLast(places: seq<Place>, init: seq<Appointment>, last: Appointment, startDate: int, n: nat)
    requires Named(places, init + [last]) && OnTheTrip(init + [last], startDate, n)
    ensures Named(places, init) && Named(places, [last]) && OnTheTrip(init, startDate, n)
    ensures 0 <= last.date - startDate < n
    ensures var d, before := last.date - startDate, Placed(places, init, startDate, n);
            Placed(places, init + [last], startDate, n)
              == before[d := before[d] + [LastNamed(places, last.placeName).value]]
  {
    var all := init + [last];
    assert all[..|all| - 1] == init && all[|all| - 1] == last;
    assert forall a :: a in all <==> a in init || a == last;
    assert forall a :: a in [last] <==> a == last;
  }

  lemma OneMoreIsComplete(places: seq<Place>, init: seq<Appointment>, last: Appointment, startDate: int, n: nat)
    requires Named(places, init + [last]) && OnTheTrip(init + [last], startDate, n)
    requires Named(places, init) && OnTheTrip(init, startDate, n)
    requires Rearranges(Concat(Placed(places, init, startDate, n)), FixedPlaces(places, init))
    ensures Rearranges(Concat(Placed(places, init + [last], startDate, n)), FixedPlaces(places, init + [last]))
  {
    PlacedByLast(places, init, last, startDate, n);
    FixedPlacesByLast(places, init, last);
    AppendedIsRearranged(Placed(places, init, startDate, n), last.date - startDate,
                         LastNamed(places, last.placeName).value, FixedPlaces(places, init),
                         Placed(places, init + [last], startDate, n), FixedPlaces(places, init + [last]));
  }

  lemma {:induction false} PlacedIsComplete(places: seq<Place>, appointments: seq<Appointment>, startDate: int, n: nat)
    requires Named(places, appointments) && OnTheTrip(appointments, startDate, n)
    ensures Rearranges(Concat(Placed(places, appointments, startDate, n)), FixedPlaces(places, appointments))
  {
    if appointments == [] {
      NothingConcatenated(Placed(places, appointments, startDate, n));
    } else {
      var init, last := appointments[..|appointments| - 1], appointments[|appointments| - 1];
      PlacedIsComplete(places, init, startDate, n);
      assert appointments == init + [last];
      OneMoreIsComplete(places, init, last, startDate, n);
    }
  }

  lemma OnePlaceTaken(places: seq<Place>, appointments: seq<Appointment>, j: nat)
    requires Named(places, appointments) && j < |appointments|
    ensures Named(places, appointments[..j]) && Named(places, appointments[..j + 1])
    ensures IdsOf(FixedPlaces(places, appointments[..j + 1])) ==
              IdsOf(FixedPlaces(places, appointments[..j]))
              + {LastNamed(places, appointments[j].placeName).value.placeId}
  {
    var last := appointments[j];
    assert appointments[..j + 1] == appointments[..j] + [last];
    assert forall a :: a in [last] ==> a == last;
    FixedPlacesByLast(places, appointments[..j], last);
    IdsByLast(FixedPlaces(places, appointments[..j]), LastNamed(places, last.placeName).value);
  }

  ghost predicate PlacedSoFar(places: seq<Place>, request: TripRequest, j: nat, days: seq<seq<Place>>,
                              taken: set<string>)
    requires request.Valid() && Named(places, request.appointments) && j <= |request.appointments|
  {
    var first := request.appointments[..j];
    && Named(places, first) && OnTheTrip(first, request.startDate, request.days)
    && days == Placed(places, first, request.startDate, request.days)
    && taken == IdsOf(FixedPlaces(places, first))
  }

  lemma PlacedStep(places: seq<Place>, request: TripRequest, j: nat, days: seq<seq<Place>>, taken: set<string>)
    requires request.Valid() && Named(places, request.appointments) && j < |request.appointments|
    requires PlacedSoFar(places, request, j, days, taken)
    ensures LastNamed(places, request.appointments[j].placeName).Some?
    ensures 0 <= request.appointments[j].date - request.startDate < |days|
    ensures var day := request.appointments[j].date - request.startDate;
            var place := LastNamed(places, request.appointments[j].placeName).value;
            PlacedSoFar(places, request, j + 1, days[day := days[day] + [place]], taken + {place.placeId})
  {
    var appointments := request.appointments;
    assert appointments[..j + 1] == appointments[..j] + [appointments[j]];
    PlacedByLast(places, appointments[..j], appointments[j], request.startDate, request.days);
    OnePlaceTaken(places, request.appointments, j);
  }

  method PlaceAppointments(places: seq<Place>, request: TripRequest) returns (days: seq<seq<Place>>, taken: set<string>)
    requires request.Valid() && Named(places, request.appointments)
    ensures days == Placed(places, request.appointments, request.startDate, request.days)
    ensures taken == IdsOf(FixedPlaces(places, request.appointments))
  {
    days := seq(request.days, _ => []);
    taken := {};
    for j := 0 to |request.appointments|
      invariant PlacedSoFar(places, request, j, days, taken)
    {
      PlacedStep(places, request, j, days, taken);
      var appointment := request.appointments[j];
      var day := appointment.date - request.startDate;
      var place := LastNamed(places, appointment.placeName).value;
      days := days[day := days[day] + [place]];
      taken := taken + {place.placeId};
    }
    assert request.appointments[..|request.appointments|] == request.appointments;
  }

  // ----- The other places -----

  /** Every day that grew beyond its base did so while no other day was less loaded. */
  ghost predicate Levelled(base: seq<seq<Place>>, days: seq<seq<Place>>) {
    && |days| == |base|
    && (forall e :: 0 <= e < |days| ==> base[e] <= days[e])
    && (forall e, d :: 0 <= e < |days| && 0 <= d < |days| && |days[e]| > |base[e]| ==>
          Before(|days[e]| - 1, e, |days[d]|, d))
  }

  lemma LevelledStep(base: seq<seq<Place>>, days: seq<seq<Place>>, place: Place)
    requires days != [] && Levelled(base, days)
    ensures var t := LeastLoaded(days); Levelled(base, days[t := days[t] + [place]])
  {
  }

  lemma EmptyDaysStep(days: seq<seq<Place>>, place: Place)
    requires days != []
    ensures var t := LeastLoaded(days);
            |EmptyDays(days[t := days[t] + [place]])| == AtLeastZero(|EmptyDays(days)| - 1)
  {
    var t := LeastLoaded(days);
    var after := days[t := days[t] + [place]];
    if d: nat :| d in EmptyDays(days) {
      assert Before(|days[t]|, t, |days[d]|, d);
      assert t in EmptyDays(days);
      assert EmptyDays(after) == EmptyDays(days) - {t};
    } else {
      forall d: nat ensures d !in EmptyDays(after) {
        assert d !in EmptyDays(days);
      }
      assert EmptyDays(after) == {} && EmptyDays(days) == {};
    }
  }

  function AtLeastZero(n: int): nat {
    if n < 0 then 0 else n
  }

  /** The unassigned ones among the first i places are spread over the base. */
  ghost predicate SpreadSoFar(
    base: seq<seq<Place>>, places: seq<Place>, taken: set<string>, i: nat, days: seq<seq<Place>>)
  {
    && i <= |places| && Levelled(base, days)
    && Rearranges(Concat(days), Concat(base) + Unassigned(places[..i], taken))
    && |EmptyDays(days)| == AtLeastZero(|EmptyDays(base)| - |Unassigned(places[..i], taken)|)
  }

  lemma SpreadStep(base: seq<seq<Place>>, places: seq<Place>, taken: set<string>, i: nat, days: seq<seq<Place>>)
    requires base != [] && i < |places| && SpreadSoFar(base, places, taken, i, days)
    ensures days != []
    ensures var t := LeastLoaded(days);
            var after := if places[i].placeId in taken then days else days[t := days[t] + [places[i]]];
            SpreadSoFar(base, places, taken, i + 1, after)
  {
    assert places[..i + 1][..i] == places[..i];
    if places[i].placeId !in taken {
      var t := LeastLoaded(days);
      LevelledStep(base, days, places[i]);
      EmptyDaysStep(days, places[i]);
      var free := Unassigned(places[..i], taken);
      AppendedIsRearranged(days, t, places[i], Concat(base) + free, days[t := days[t] + [places[i]]],
                           Concat(base) + free + [places[i]]);
      assert Unassigned(places[..i + 1], taken) == free + [places[i]];
      assert Concat(base) + (free + [places[i]]) == (Concat(base) + free) + [places[i]];
    }
  }

  method Spread(base: seq<seq<Place>>, places: seq<Place>, taken: set<string>) returns (days: seq<seq<Place>>)
    requires base != []
    ensures SpreadSoFar(base, places, taken, |places|, days)
  {
    days := base;
    assert Concat(base) + [] == Concat(base);
    for i := 0 to |places|
      invariant SpreadSoFar(base, places, taken, i, days)
    {
      SpreadStep(base, places, taken, i, days);
      if places[i].placeId !in taken {
        var target := LeastLoaded(days);
        days := days[target := days[target] + [places[i]]];
      }
    }
  }

  // ----- The partition -----

  predicate Booked(request: TripRequest, d: nat) {
    request.startDate + d in DatesOf(request.appointments)
  }

  /** The days of the trip without an appointment. */
  ghost function FreeDays(request: TripRequest): set<nat> {
    set d: nat | d < request.days && !Booked(request, d)
  }

  /** All places are distributed; a day lists its appointments first; the others level the days out. */
  ghost predicate IsPartition(places: seq<Place>, request: TripRequest, days: seq<seq<Place>>)
    requires Named(places, request.appointments)
  {
    && |days| == request.days
    && Rearranges(Concat(days), places)
    && (forall d :: 0 <= d < |days| ==> FixedOn(places, request.appointments, request.startDate + d) <= days[d])
    && (forall e, d ::
          && 0 <= e < |days| && 0 <= d < |days|
          && |days[e]| > |FixedOn(places, request.appointments, request.startDate + e)|
          ==> Before(|days[e]| - 1, e, |days[d]|, d))
  }

  lemma {:induction false} UnassignedByMember(places: seq<Place>, taken: set<string>)
    ensures forall p :: p in Unassigned(places, taken) <==> p in places && p.placeId !in taken
    ensures Distinct(places) ==> Distinct(Unassigned(places, taken))
  {
    if places != [] {
      var init, last := places[..|places| - 1], places[|places| - 1];
      UnassignedByMember(init, taken);
      assert places == init + [last];
      ElementsByLast(init, last);
      ElementsByLast(Unassigned(init, taken), last);
    }
  }

  lemma FixedAreDistinct(places: seq<Place>, appointments: seq<Appointment>)
    requires Named(places, appointments) && DistinctNames(appointments)
    ensures Distinct(FixedPlaces(places, appointments))
    ensures forall p :: p in FixedPlaces(places, appointments) ==> p in places
  {
    var fixed := FixedPlaces(places, appointments);
    forall i | 0 <= i < |fixed| ensures fixed[i] in places && fixed[i].name == appointments[i].placeName {
      LastNamedIsExact(places, appointments[i].placeName);
    }
  }

  /** The appointments' places and the unassigned ones together are all places, each once. */
  lemma NobodyIsLost(places: seq<Place>, appointments: seq<Appointment>)
    requires Named(places, appointments) && DistinctNames(appointments) && DistinctIds(places)
    ensures var fixed := FixedPlaces(places, appointments);
            Rearranges(fixed + Unassigned(places, IdsOf(fixed)), places)
  {
    var fixed := FixedPlaces(places, appointments);
    var free := Unassigned(places, IdsOf(fixed));
    FixedAreDistinct(places, appointments);
    UnassignedByMember(places, IdsOf(fixed));
    forall p ensures p in fixed + free <==> p in places {
      if p in places && p.placeId in IdsOf(fixed) {
        var q :| q in fixed && q.placeId == p.placeId;
        assert q == p;
      }
    }
    DistinctRearranges(fixed + free, places);
  }

  lemma {:induction false} FixedOnIsEmpty(places: seq<Place>, appointments: seq<Appointment>, date: int)
    requires Named(places, appointments)
    ensures FixedOn(places, appointments, date) == [] <==> date !in DatesOf(appointments)
  {
    if appointments != [] {
      var init, last := appointments[..|appointments| - 1], appointments[|appointments| - 1];
      FixedOnIsEmpty(places, init, date);
      assert forall a :: a in appointments <==> a in init || a == last;
    }
  }

  lemma EmptyBase(places: seq<Place>, request: TripRequest)
    requires request.Valid() && Named(places, request.appointments)
    ensures EmptyDays(Placed(places, request.appointments, request.startDate, request.days)) == FreeDays(request)
  {
    var base := Placed(places, request.appointments, request.startDate, request.days);
    forall d: nat ensures d in EmptyDays(base) <==> d in FreeDays(request) {
      if d < request.days {
        PlacedByDate(places, request.appointments, request.startDate, request.days, d);
        FixedOnIsEmpty(places, request.appointments, request.startDate + d);
      }
    }
  }

  lemma SpreadIsPartition(places: seq<Place>, request: TripRequest, days: seq<seq<Place>>)
    requires request.Valid() && DistinctIds(places)
    requires Named(places, request.appointments) && DistinctNames(request.appointments)
    requires SpreadSoFar(Placed(places, request.appointments, request.startDate, request.days), places,
                         IdsOf(FixedPlaces(places, request.appointments)), |places|, days)
    ensures IsPartition(places, request, days)
    ensures EmptyDays(days) == {} <==> |places| >= |request.appointments| + |FreeDays(request)|
  {
    var appointments := request.appointments;
    var base := Placed(places, appointments, request.startDate, request.days);
    var fixed := FixedPlaces(places, appointments);
    var free := Unassigned(places, IdsOf(fixed));
    assert places[..|places|] == places;
    PlacedIsComplete(places, appointments, request.startDate, request.days);
    NobodyIsLost(places, appointments);
    RearrangesJoin(Concat(base), fixed, free);
    RearrangedLength(fixed + free, places);
    EmptyBase(places, request);
    forall d | 0 <= d < |days| ensures base[d] == FixedOn(places, appointments, request.startDate + d) {
      PlacedByDate(places, appointments, request.startDate, request.days, d);
    }
  }

  /** Some day stays empty exactly when the places without an appointment are fewer than the days without one. */
  method PartitionPlaces(places: seq<Place>, request: TripRequest) returns (days: seq<seq<Place>>)
    requires request.Valid() && DistinctIds(places)
    requires Named(places, request.appointments) && DistinctNames(request.appointments)
    ensures IsPartition(places, request, days)
    ensures EmptyDays(days) == {} <==> |places| >= |request.appointments| + |FreeDays(request)|
  {
    var base, taken := PlaceAppointments(places, request);
    days := Spread(base, places, taken);
    SpreadIsPartition(places, request, days);
  }
}
