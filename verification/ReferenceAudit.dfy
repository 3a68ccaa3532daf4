/** When the validators pass an assembled plan: a condition on the inputs and on the tours it follows. */
module ReferenceAudit {
  import opened Common
  import opened Itinerary
  import opened RouteOrder
  import opened DaySchedule
  import opened Overlaps
  import opened Validators
  import opened References
  import opened PlanAudit
  import Partition

  // ----- The inputs -----

  ghost predicate Known(ids: seq<string>, evidence: seq<string>) {
    forall id :: id in ids ==> id in evidence
  }

  ghost predicate SoundRoute(route: Route, places: seq<Place>, evidence: seq<string>) {
    && route.origin in PlaceIds(places) && route.destination in PlaceIds(places) && Known(route.evidenceIds, evidence)
    && forall p :: p in places ==> p.system == route.system
  }

  ghost predicate SoundClaim(claim: Claim, evidence: seq<string>) {
    Known(claim.evidenceIds, evidence) && !(claim.requiredHard && claim.isUnknown)
  }

  /** One coordinate system; known evidence everywhere; routes between the given places only; no required claim
      that is unknown. */
  ghost predicate SoundSources(places: seq<Place>, sources: Sources) {
    && OneSystem(places)
    && (forall p :: p in places ==> Known(p.evidenceIds, sources.evidence))
    && (forall r :: r in sources.routes ==> SoundRoute(r, places, sources.evidence))
    && (forall c :: c in sources.claims ==> SoundClaim(c, sources.evidence))
  }

  ghost predicate SourceIssue(places: seq<Place>, sources: Sources, canonical: CoordinateSystem, x: Issue) {
    CoordinateIssue(places, sources.routes, canonical, x) || InputIssue(places, sources, x)
  }

  lemma UnknownEvidenceIsFound(path: Path, owner: string, ids: seq<string>, evidence: seq<string>)
    returns (x: Issue)
    requires !Known(ids, evidence)
    ensures EvidenceIssue(path, owner, ids, evidence, x) && x.path == path
  {
    var id :| id in ids && id !in evidence;
    x := Issue(MissingEvidenceReference, Error, path, [owner, id]);
  }

  lemma UnsoundRouteIsFound(places: seq<Place>, sources: Sources, i: nat) returns (x: Issue)
    requires i < |sources.routes|
    requires var route := sources.routes[i];
             || route.origin !in PlaceIds(places) || route.destination !in PlaceIds(places)
             || !Known(route.evidenceIds, sources.evidence)
    ensures InputIssue(places, sources, x)
  {
    var route := sources.routes[i];
    if route.origin !in PlaceIds(places) {
      x := Issue(MissingPlaceReference, Error, OriginOfRoute(i), [route.routeId, route.origin]);
    } else if route.destination !in PlaceIds(places) {
      x := Issue(MissingPlaceReference, Error, DestinationOfRoute(i), [route.routeId, route.destination]);
    } else {
      x := UnknownEvidenceIsFound(EvidenceOfRoute(i), route.routeId, route.evidenceIds, sources.evidence);
    }
  }

  lemma OtherSystemIsFound(places: seq<Place>, routes: seq<Route>, canonical: CoordinateSystem, i: nat)
    returns (x: Issue)
    requires IsCanonical(places, canonical) && OneSystem(places) && i < |routes|
    requires exists p :: p in places && p.system != routes[i].system
    ensures CoordinateIssue(places, routes, canonical, x)
  {
    x := Issue(CoordinateSystemMismatch, Error, SystemOfRoute(i), [routes[i].routeId]);
  }

  lemma UnsoundClaimIsFound(places: seq<Place>, sources: Sources, i: nat) returns (x: Issue)
    requires i < |sources.claims| && !SoundClaim(sources.claims[i], sources.evidence)
    ensures InputIssue(places, sources, x)
  {
    var claim := sources.claims[i];
    if Known(claim.evidenceIds, sources.evidence) {
      x := Issue(UnknownHardConstraint, Error, StatusOfClaim(i), [claim.claimId]);
    } else {
      x := UnknownEvidenceIsFound(EvidenceOfClaim(i), claim.claimId, claim.evidenceIds, sources.evidence);
    }
  }

  lemma UnsoundSourcesAreFound(places: seq<Place>, sources: Sources, canonical: CoordinateSystem) returns (x: Issue)
    requires IsCanonical(places, canonical) && !SoundSources(places, sources)
    ensures SourceIssue(places, sources, canonical, x)
  {
    if !OneSystem(places) {
      x := Issue(CoordinateSystemMismatch, Error, AllPlaces, PlaceIds(places));
    } else if i :| 0 <= i < |places| && !Known(places[i].evidenceIds, sources.evidence) {
      x := UnknownEvidenceIsFound(EvidenceOfPlace(i), places[i].placeId, places[i].evidenceIds, sources.evidence);
    } else if i :| 0 <= i < |sources.routes| && !SoundRoute(sources.routes[i], places, sources.evidence) {
      if exists p :: p in places && p.system != sources.routes[i].system {
        x := OtherSystemIsFound(places, sources.routes, canonical, i);
      } else {
        x := UnsoundRouteIsFound(places, sources, i);
      }
    } else {
      var i :| 0 <= i < |sources.claims| && !SoundClaim(sources.claims[i], sources.evidence);
      x := UnsoundClaimIsFound(places, sources, i);
    }
  }

  lemma SourceIssuesAreErrors(places: seq<Place>, sources: Sources, canonical: CoordinateSystem, x: Issue)
    requires IsCanonical(places, canonical) && SourceIssue(places, sources, canonical, x)
    ensures x.severity == Error && !SoundSources(places, sources)
  {
    match x.path {
      case EvidenceOfPlace(i) => assert places[i] in places;
      case SystemOfRoute(i) => assert sources.routes[i] in sources.routes;
      case OriginOfRoute(i) => assert sources.routes[i] in sources.routes;
      case DestinationOfRoute(i) => assert sources.routes[i] in sources.routes;
      case EvidenceOfRoute(i) => assert sources.routes[i] in sources.routes;
      case EvidenceOfClaim(i) => assert sources.claims[i] in sources.claims;
      case StatusOfClaim(i) => assert sources.claims[i] in sources.claims;
      case _ =>
    }
  }

  /** The checks of the inputs find nothing exactly if the inputs are sound, whichever system was compared with. */
  lemma SourcesAreSoundExactly(places: seq<Place>, sources: Sources, canonical: CoordinateSystem)
    requires IsCanonical(places, canonical)
    ensures SoundSources(places, sources) <==> forall x :: !SourceIssue(places, sources, canonical, x)
  {
    if SoundSources(places, sources) {
      forall x ensures !SourceIssue(places, sources, canonical, x) {
        if SourceIssue(places, sources, canonical, x) {
          SourceIssuesAreErrors(places, sources, canonical, x);
        }
      }
    } else {
      var x := UnsoundSourcesAreFound(places, sources, canonical);
    }
  }

  // ----- The legs -----

  /** The route to stop number k shares its identifier with a later one between other places. */
  ghost predicate ShadowedLeg(routes: seq<Route>, tour: seq<Place>, k: nat)
    requires 0 < k < |tour|
  {
    var route := RouteBetween(routes, tour[k - 1].placeId, tour[k].placeId);
    && route.Some?
    && var found := RouteById(routes, route.value.routeId);
       found.None? || !Leads(found.value, Some(tour[k - 1].placeId), tour[k].placeId)
  }

  ghost predicate ShadowedTour(routes: seq<Route>, tour: seq<Place>) {
    exists k :: 0 < k < |tour| && ShadowedLeg(routes, tour, k)
  }

  ghost predicate ShadowedTours(routes: seq<Route>, tours: seq<seq<Place>>) {
    exists d :: 0 <= d < |tours| && ShadowedTour(routes, tours[d])
  }

  ghost predicate DistinctRouteIds(routes: seq<Route>) {
    forall i, j :: 0 <= i < j < |routes| ==> routes[i].routeId != routes[j].routeId
  }

  lemma {:induction false} RouteByIdFinds(routes: seq<Route>, route: Route)
    requires route in routes
    ensures RouteById(routes, route.routeId).Some?
    ensures DistinctRouteIds(routes) ==> RouteById(routes, route.routeId) == Some(route)
  {
    var init, last := routes[..|routes| - 1], routes[|routes| - 1];
    if last.routeId != route.routeId {
      assert route in init;
      RouteByIdFinds(init, route);
    } else if last != route {
      var i :| 0 <= i < |routes| && routes[i] == route;
    }
  }

  /** With unique identifiers, as a route matrix has them, no leg is shadowed. */
  lemma UniqueIdsCastNoShadow(routes: seq<Route>, tour: seq<Place>)
    requires DistinctRouteIds(routes)
    ensures !ShadowedTour(routes, tour)
  {
    forall k | 0 < k < |tour| ensures !ShadowedLeg(routes, tour, k) {
      var route := RouteBetween(routes, tour[k - 1].placeId, tour[k].placeId);
      if route.Some? {
        RouteByIdFinds(routes, route.value);
      }
    }
  }

  // ----- The items -----

  /** What the items of an assembled day refer to. */
  ghost predicate Refers(sources: Sources, tour: seq<Place>, items: seq<Item>, k: nat)
    requires k < |tour| && k < |items|
  {
    var item, place := items[k], tour[k];
    && item.placeId == place.placeId
    && item.claimIds == ClaimIdsAbout(sources.claims, place.placeId)
    && var route := if k == 0 then None
                    else RouteBetween(sources.routes, tour[k - 1].placeId, place.placeId);
       && item.leg == (if route.Some? then Some(Leg(route.value.routeId, route.value.minutes)) else None)
       && forall id :: id in item.evidenceIds <==>
            id in place.evidenceIds || (route.Some? && id in route.value.evidenceIds)
  }

  lemma ItemsRefer(c: Context, tour: seq<Place>, day: Day, k: nat)
    requires c.request.Valid() && DayFollows(c, tour, day) && k < |tour|
    ensures |day.items| == |tour| && Refers(c.sources, tour, day.items, k)
  {
    var starts := EarliestDayKeeps(c, tour, day);
    assert day.items[k] == ItemAt(c, tour, k, starts[k]);
  }

  lemma ItemEvidenceIsKnown(places: seq<Place>, sources: Sources, tour: seq<Place>, items: seq<Item>, k: nat)
    requires SoundSources(places, sources) && k < |tour| && k < |items| && Refers(sources, tour, items, k)
    requires tour[k] in places
    ensures forall id :: id in items[k].evidenceIds ==> id in sources.evidence
  {
    assert Known(tour[k].evidenceIds, sources.evidence);
    if k > 0 {
      var route := RouteBetween(sources.routes, tour[k - 1].placeId, tour[k].placeId);
      assert route.Some? ==> SoundRoute(route.value, places, sources.evidence);
    }
  }

  /** With sound inputs the only thing an item can refer to in vain is a shadowed route. */
  lemma ItemIssueIsShadow(places: seq<Place>, sources: Sources, tour: seq<Place>, items: seq<Item>, d: nat, k: nat,
                          x: Issue)
    requires SoundSources(places, sources) && k < |tour| == |items| && tour[k] in places
    requires Refers(sources, tour, items, k) && (k > 0 ==> items[k - 1].placeId == tour[k - 1].placeId)
    requires ItemIssue(items[k], Previous(items, k), d, k, places, sources, x)
    ensures k > 0 && ShadowedLeg(sources.routes, tour, k)
  {
    ItemEvidenceIsKnown(places, sources, tour, items, k);
    assert items[k].placeId in PlaceIds(places);
    assert items[k].claimIds <= ClaimIds(sources.claims);
  }

  lemma ShadowIsFound(places: seq<Place>, sources: Sources, tour: seq<Place>, items: seq<Item>, d: nat, k: nat)
    returns (x: Issue)
    requires 0 < k < |tour| == |items| && ShadowedLeg(sources.routes, tour, k)
    requires Refers(sources, tour, items, k) && items[k - 1].placeId == tour[k - 1].placeId
    ensures x.path == RouteOfItem(d, k) && ItemIssue(items[k], Previous(items, k), d, k, places, sources, x)
    ensures x.severity == Error
  {
    var routeId := items[k].leg.value.routeId;
    var found := RouteById(sources.routes, routeId);
    if found.None? {
      x := Issue(MissingRouteReference, Error, RouteOfItem(d, k), [items[k].itemId, routeId]);
    } else {
      x := Issue(RouteEndpointMismatch, Error, RouteOfItem(d, k), [items[k].itemId, found.value.routeId]);
    }
  }

  // ----- The plan -----

  lemma DayRefers(request: TripRequest, sources: Sources, strategy: Strategy, chosen: seq<Place>,
                  tours: seq<seq<Place>>, plan: Plan, d: nat)
    requires request.Valid() && IsItinerary(request, sources, strategy, chosen, tours, plan) && d < |tours|
    ensures |plan.days| == |tours| && |plan.days[d].items| == |tours[d]|
    ensures forall k :: 0 <= k < |tours[d]| ==> Refers(sources, tours[d], plan.days[d].items, k)
  {
    var c := ContextOn(request, sources, strategy, d);
    assert FollowsOn(request, sources, strategy, tours, plan.days, d);
    assert tours[d] != [];
    ItemsRefer(c, tours[d], plan.days[d], 0);
    forall k | 0 <= k < |tours[d]| ensures Refers(sources, tours[d], plan.days[d].items, k) {
      ItemsRefer(c, tours[d], plan.days[d], k);
    }
  }

  lemma ReferenceIssueIsShadow(request: TripRequest, sources: Sources, strategy: Strategy, chosen: seq<Place>,
                               tours: seq<seq<Place>>, plan: Plan, places: seq<Place>, x: Issue)
    requires request.Valid() && IsItinerary(request, sources, strategy, chosen, tours, plan)
    requires SoundSources(places, sources) && forall p :: p in chosen ==> p in places
    requires ItemReferenceIssue(plan, places, sources, x)
    ensures ShadowedTours(sources.routes, tours)
  {
    var d, k := x.path.day, x.path.item;
    DayRefers(request, sources, strategy, chosen, tours, plan, d);
    TourPlacesAreChosen(tours, chosen, d);
    assert k > 0 ==> Refers(sources, tours[d], plan.days[d].items, k - 1);
    assert tours[d][k] in tours[d];
    ItemIssueIsShadow(places, sources, tours[d], plan.days[d].items, d, k, x);
    assert ShadowedTour(sources.routes, tours[d]);
  }

  lemma ShadowedTourIsFound(request: TripRequest, sources: Sources, strategy: Strategy, chosen: seq<Place>,
                            tours: seq<seq<Place>>, plan: Plan, places: seq<Place>) returns (x: Issue)
    requires request.Valid() && IsItinerary(request, sources, strategy, chosen, tours, plan)
    requires ShadowedTours(sources.routes, tours)
    ensures ItemReferenceIssue(plan, places, sources, x) && x.severity == Error
  {
    var d :| 0 <= d < |tours| && ShadowedTour(sources.routes, tours[d]);
    var k :| 0 < k < |tours[d]| && ShadowedLeg(sources.routes, tours[d], k);
    DayRefers(request, sources, strategy, chosen, tours, plan, d);
    assert Refers(sources, tours[d], plan.days[d].items, k - 1);
    x := ShadowIsFound(places, sources, tours[d], plan.days[d].items, d, k);
  }

  ghost predicate Passes(plan: Plan, request: TripRequest, places: seq<Place>, sources: Sources,
                         canonical: CoordinateSystem)
  {
    forall x :: Finding(plan, request, places, sources, canonical, x) ==> x.severity != Error
  }

  /** What validation demands of the inputs of an assembled plan. */
  ghost predicate Clean(request: TripRequest, sources: Sources, places: seq<Place>, chosen: seq<Place>,
                        tours: seq<seq<Place>>)
  {
    !ForeignPrice(request, chosen) && SoundSources(places, sources) && !ShadowedTours(sources.routes, tours)
  }

  lemma CleanPasses(request: TripRequest, sources: Sources, strategy: Strategy, chosen: seq<Place>,
                    tours: seq<seq<Place>>, plan: Plan, places: seq<Place>, canonical: CoordinateSystem, x: Issue)
    requires request.Valid() && ValidPlaces(chosen) && IsItinerary(request, sources, strategy, chosen, tours, plan)
    requires DistinctIds(places) && (forall p :: p in chosen ==> p in places) && Affordable(request, chosen)
    requires IsCanonical(places, canonical) && Clean(request, sources, places, chosen, tours)
    requires Finding(plan, request, places, sources, canonical, x)
    ensures x.severity != Error
  {
    if PlanIssue(plan, request, places, x) {
      PlanErrorsAreForeign(request, sources, strategy, places, chosen, tours, plan);
    } else if ItemReferenceIssue(plan, places, sources, x) {
      ReferenceIssueIsShadow(request, sources, strategy, chosen, tours, plan, places, x);
    } else {
      SourceIssuesAreErrors(places, sources, canonical, x);
    }
  }

  lemma UncleanFails(request: TripRequest, sources: Sources, strategy: Strategy, chosen: seq<Place>,
                     tours: seq<seq<Place>>, plan: Plan, places: seq<Place>, canonical: CoordinateSystem)
    requires request.Valid() && ValidPlaces(chosen) && IsItinerary(request, sources, strategy, chosen, tours, plan)
    requires IsCanonical(places, canonical) && !Clean(request, sources, places, chosen, tours)
    ensures !Passes(plan, request, places, sources, canonical)
  {
    var x;
    if ForeignPrice(request, chosen) {
      ForeignPriceIsFound(request, sources, strategy, places, chosen, tours, plan);
      x :| PlanIssue(plan, request, places, x) && x.severity == Error;
    } else if ShadowedTours(sources.routes, tours) {
      x := ShadowedTourIsFound(request, sources, strategy, chosen, tours, plan, places);
    } else {
      x := UnsoundSourcesAreFound(places, sources, canonical);
      SourceIssuesAreErrors(places, sources, canonical, x);
    }
    assert Finding(plan, request, places, sources, canonical, x);
  }

  /** About a plan assembled from partition, order and schedule the validators report no error exactly if no chosen
      price is in a foreign currency, the inputs are sound and no leg is shadowed. */
  lemma ItineraryIsClean(request: TripRequest, sources: Sources, strategy: Strategy, chosen: seq<Place>,
                         tours: seq<seq<Place>>, plan: Plan, places: seq<Place>, canonical: CoordinateSystem)
    requires request.Valid() && ValidPlaces(chosen) && IsItinerary(request, sources, strategy, chosen, tours, plan)
    requires DistinctIds(places) && (forall p :: p in chosen ==> p in places) && Affordable(request, chosen)
    requires IsCanonical(places, canonical)
    ensures Passes(plan, request, places, sources, canonical) <==> Clean(request, sources, places, chosen, tours)
  {
    if Clean(request, sources, places, chosen, tours) {
      forall x | Finding(plan, request, places, sources, canonical, x) ensures x.severity != Error {
        CleanPasses(request, sources, strategy, chosen, tours, plan, places, canonical, x);
      }
    } else {
      UncleanFails(request, sources, strategy, chosen, tours, plan, places, canonical);
    }
  }
}
