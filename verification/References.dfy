/** The checks that look beyond one plan: coordinate systems, and every identifier a place, route, claim or item
    refers to. */
module References {
  import opened Common
  import opened Itinerary
  import opened Overlaps
  import opened Validators

  // ----- Coordinate systems -----

  /** One of the systems in use: the one the routes are compared with. */
  ghost predicate IsCanonical(places: seq<Place>, canonical: CoordinateSystem) {
    places != [] ==> exists p :: p in places && p.system == canonical
  }

  ghost predicate OneSystem(places: seq<Place>) {
    forall p, q :: p in places && q in places ==> p.system == q.system
  }

  function PlaceIds(places: seq<Place>): (ids: seq<string>)
    ensures |ids| == |places| && forall i {:trigger ids[i]} :: 0 <= i < |ids| ==> ids[i] == places[i].placeId
    ensures forall id :: id in ids <==> exists p :: p in places && p.placeId == id
  {
    if places == [] then []
    else
      var init, last := places[..|places| - 1], places[|places| - 1];
      assert places == init + [last];
      PlaceIds(init) + [last.placeId]
  }

  ghost predicate RouteSystemIssue(routes: seq<Route>, canonical: CoordinateSystem, x: Issue) {
    && x.path.SystemOfRoute? && x.path.index < |routes| && routes[x.path.index].system != canonical
    && x == Issue(CoordinateSystemMismatch, Error, x.path, [routes[x.path.index].routeId])
  }

  ghost predicate CoordinateIssue(places: seq<Place>, routes: seq<Route>, canonical: CoordinateSystem, x: Issue) {
    || (!OneSystem(places) && x == Issue(CoordinateSystemMismatch, Error, AllPlaces, PlaceIds(places)))
    || (places != [] && RouteSystemIssue(routes, canonical, x))
  }

  method CompareRouteSystems(routes: seq<Route>, canonical: CoordinateSystem) returns (issues: seq<Issue>)
    ensures forall x :: x in issues <==> RouteSystemIssue(routes, canonical, x)
  {
    issues := [];
    for i := 0 to |routes|
      invariant forall x :: x in issues <==> RouteSystemIssue(routes, canonical, x) && x.path.index < i
    {
      if routes[i].system != canonical {
        issues := issues + [Issue(CoordinateSystemMismatch, Error, SystemOfRoute(i), [routes[i].routeId])];
      }
    }
  }

  /** Which of several systems the routes are compared with is not determined. */
  method ValidateCoordinates(places: seq<Place>, routes: seq<Route>)
    returns (issues: seq<Issue>, canonical: CoordinateSystem)
    ensures IsCanonical(places, canonical)
    ensures forall x :: x in issues <==> CoordinateIssue(places, routes, canonical, x)
  {
    issues := [];
    if exists p :: p in places && p.system != places[0].system {
      issues := [Issue(CoordinateSystemMismatch, Error, AllPlaces, PlaceIds(places))];
    }
    assert places != [] ==> places[0] in places;
    canonical :| places != [] ==> exists p :: p in places && p.system == canonical;
    if places != [] {
      var found := CompareRouteSystems(routes, canonical);
      issues := issues + found;
    }
  }

  // ----- References of places, routes and claims -----

  ghost predicate EvidenceIssue(path: Path, owner: string, ids: seq<string>, evidence: seq<string>, x: Issue) {
    exists id :: id in ids && id !in evidence && x == Issue(MissingEvidenceReference, Error, path, [owner, id])
  }

  method ResolveEvidence(path: Path, owner: string, ids: seq<string>, evidence: seq<string>)
    returns (issues: seq<Issue>)
    ensures forall x :: x in issues <==> EvidenceIssue(path, owner, ids, evidence, x)
  {
    issues := [];
    for i := 0 to |ids|
      invariant forall x :: x in issues <==> EvidenceIssue(path, owner, ids[..i], evidence, x)
    {
      assert forall id :: id in ids[..i + 1] <==> id in ids[..i] || id == ids[i];
      if ids[i] !in evidence {
        issues := issues + [Issue(MissingEvidenceReference, Error, path, [owner, ids[i]])];
      }
    }
    assert ids[..|ids|] == ids;
  }

  ghost predicate PlaceIssue(place: Place, i: nat, evidence: seq<string>, x: Issue) {
    x.path == EvidenceOfPlace(i) && EvidenceIssue(x.path, place.placeId, place.evidenceIds, evidence, x)
  }

  ghost predicate RouteIssue(route: Route, i: nat, placeIds: seq<string>, evidence: seq<string>, x: Issue) {
    match x.path
    case OriginOfRoute(k) =>
      && k == i && route.origin !in placeIds
      && x == Issue(MissingPlaceReference, Error, x.path, [route.routeId, route.origin])
    case DestinationOfRoute(k) =>
      && k == i && route.destination !in placeIds
      && x == Issue(MissingPlaceReference, Error, x.path, [route.routeId, route.destination])
    case EvidenceOfRoute(k) => k == i && EvidenceIssue(x.path, route.routeId, route.evidenceIds, evidence, x)
    case _ => false
  }

  ghost predicate ClaimIssue(claim: Claim, i: nat, evidence: seq<string>, x: Issue) {
    match x.path
    case EvidenceOfClaim(k) => k == i && EvidenceIssue(x.path, claim.claimId, claim.evidenceIds, evidence, x)
    case StatusOfClaim(k) =>
      && k == i && claim.requiredHard && claim.isUnknown
      && x == Issue(UnknownHardConstraint, Error, x.path, [claim.claimId])
    case _ => false
  }

  /** An issue of the inputs, whatever the plan. */
  ghost predicate InputIssue(places: seq<Place>, sources: Sources, x: Issue) {
    match x.path
    case EvidenceOfPlace(i) => i < |places| && PlaceIssue(places[i], i, sources.evidence, x)
    case OriginOfRoute(i) =>
      i < |sources.routes| && RouteIssue(sources.routes[i], i, PlaceIds(places), sources.evidence, x)
    case DestinationOfRoute(i) =>
      i < |sources.routes| && RouteIssue(sources.routes[i], i, PlaceIds(places), sources.evidence, x)
    case EvidenceOfRoute(i) =>
      i < |sources.routes| && RouteIssue(sources.routes[i], i, PlaceIds(places), sources.evidence, x)
    case EvidenceOfClaim(i) => i < |sources.claims| && ClaimIssue(sources.claims[i], i, sources.evidence, x)
    case StatusOfClaim(i) => i < |sources.claims| && ClaimIssue(sources.claims[i], i, sources.evidence, x)
    case _ => false
  }

  method ResolvePlaces(places: seq<Place>, evidence: seq<string>) returns (issues: seq<Issue>)
    ensures forall x :: x in issues <==>
              x.path.EvidenceOfPlace? && x.path.index < |places|
              && PlaceIssue(places[x.path.index], x.path.index, evidence, x)
  {
    issues := [];
    for i := 0 to |places|
      invariant forall x :: x in issues <==>
                  x.path.EvidenceOfPlace? && x.path.index < i
                  && PlaceIssue(places[x.path.index], x.path.index, evidence, x)
    {
      var found := ResolveEvidence(EvidenceOfPlace(i), places[i].placeId, places[i].evidenceIds, evidence);
      issues := issues + found;
    }
  }

  predicate OfRoute(path: Path) {
    path.OriginOfRoute? || path.DestinationOfRoute? || path.EvidenceOfRoute?
  }

  method ResolveRoute(route: Route, i: nat, placeIds: seq<string>, evidence: seq<string>) returns (issues: seq<Issue>)
    ensures forall x :: x in issues <==> RouteIssue(route, i, placeIds, evidence, x)
  {
    issues := [];
    if route.origin !in placeIds {
      issues := issues + [Issue(MissingPlaceReference, Error, OriginOfRoute(i), [route.routeId, route.origin])];
    }
    if route.destination !in placeIds {
      var related := [route.routeId, route.destination];
      issues := issues + [Issue(MissingPlaceReference, Error, DestinationOfRoute(i), related)];
    }
    var found := ResolveEvidence(EvidenceOfRoute(i), route.routeId, route.evidenceIds, evidence);
    issues := issues + found;
  }

  method ResolveRoutes(routes: seq<Route>, placeIds: seq<string>, evidence: seq<string>) returns (issues: seq<Issue>)
    ensures forall x :: x in issues <==>
              OfRoute(x.path) && x.path.index < |routes|
              && RouteIssue(routes[x.path.index], x.path.index, placeIds, evidence, x)
  {
    issues := [];
    for i := 0 to |routes|
      invariant forall x :: x in issues <==>
                  OfRoute(x.path) && x.path.index < i
                  && RouteIssue(routes[x.path.index], x.path.index, placeIds, evidence, x)
    {
      var found := ResolveRoute(routes[i], i, placeIds, evidence);
      issues := issues + found;
    }
  }

  predicate OfClaim(path: Path) {
    path.EvidenceOfClaim? || path.StatusOfClaim?
  }

  method ResolveClaims(claims: seq<Claim>, evidence: seq<string>) returns (issues: seq<Issue>)
    ensures forall x :: x in issues <==>
              OfClaim(x.path) && x.path.index < |claims|
              && ClaimIssue(claims[x.path.index], x.path.index, evidence, x)
  {
    issues := [];
    for i := 0 to |claims|
      invariant forall x :: x in issues <==>
                  OfClaim(x.path) && x.path.index < i
                  && ClaimIssue(claims[x.path.index], x.path.index, evidence, x)
    {
      var claim := claims[i];
      var found := ResolveEvidence(EvidenceOfClaim(i), claim.claimId, claim.evidenceIds, evidence);
      issues := issues + found;
      if claim.requiredHard && claim.isUnknown {
        issues := issues + [Issue(UnknownHardConstraint, Error, StatusOfClaim(i), [claim.claimId])];
      }
    }
  }

  // ----- References of items -----

  /** When several routes share an identifier the last one listed counts. */
  function RouteById(routes: seq<Route>, id: string): Option<Route> {
    if routes == [] then None
    else if routes[|routes| - 1].routeId == id then Some(routes[|routes| - 1])
    else RouteById(routes[..|routes| - 1], id)
  }

  function ClaimIds(claims: seq<Claim>): (ids: set<string>)
    ensures forall id :: id in ids <==> exists c :: c in claims && c.claimId == id
  {
    set c | c in claims :: c.claimId
  }

  /** The route leads from the preceding item's place, if there is one, to the item's. */
  ghost predicate Leads(route: Route, previous: Option<string>, placeId: string) {
    previous == Some(route.origin) && route.destination == placeId
  }

  ghost predicate LegIssue(item: Item, previous: Option<string>, path: Path, routes: seq<Route>, x: Issue) {
    && item.leg.Some?
    && var routeId := item.leg.value.routeId;
       var route := RouteById(routes, routeId);
       if route.None? then x == Issue(MissingRouteReference, Error, path, [item.itemId, routeId])
       else !Leads(route.value, previous, item.placeId)
            && x == Issue(RouteEndpointMismatch, Error, path, [item.itemId, route.value.routeId])
  }

  ghost predicate ClaimReferenceIssue(path: Path, item: Item, claims: set<string>, x: Issue) {
    exists id :: id in item.claimIds && id !in claims
              && x == Issue(MissingClaimReference, Error, path, [item.itemId, id])
  }

  ghost predicate ItemEvidenceIssue(path: Path, item: Item, evidence: seq<string>, x: Issue) {
    exists id :: id in item.evidenceIds && id !in evidence
              && x == Issue(MissingEvidenceReference, Error, path, [item.itemId, id])
  }

  ghost predicate ItemIssue(item: Item, previous: Option<string>, d: nat, k: nat, places: seq<Place>,
                            sources: Sources, x: Issue)
  {
    match x.path
    case PlaceOfItem(e, j) =>
      && e == d && j == k && item.placeId !in PlaceIds(places)
      && x == Issue(MissingPlaceReference, Error, x.path, [item.itemId, item.placeId])
    case ClaimsOfItem(e, j) => e == d && j == k && ClaimReferenceIssue(x.path, item, ClaimIds(sources.claims), x)
    case EvidenceOfItem(e, j) => e == d && j == k && ItemEvidenceIssue(x.path, item, sources.evidence, x)
    case RouteOfItem(e, j) => e == d && j == k && LegIssue(item, previous, x.path, sources.routes, x)
    case _ => false
  }

  predicate OfItem(path: Path) {
    path.PlaceOfItem? || path.ClaimsOfItem? || path.EvidenceOfItem? || path.RouteOfItem?
  }

  function Previous(items: seq<Item>, k: nat): Option<string>
    requires k < |items|
  {
    if k == 0 then None else Some(items[k - 1].placeId)
  }

  ghost predicate DayIssue(day: Day, d: nat, places: seq<Place>, sources: Sources, x: Issue) {
    && OfItem(x.path) && x.path.day == d && x.path.item < |day.items|
    && ItemIssue(day.items[x.path.item], Previous(day.items, x.path.item), d, x.path.item, places, sources, x)
  }

  /** An issue of what some item refers to. */
  ghost predicate ItemReferenceIssue(plan: Plan, places: seq<Place>, sources: Sources, x: Issue) {
    && OfItem(x.path) && x.path.day < |plan.days|
    && DayIssue(plan.days[x.path.day], x.path.day, places, sources, x)
  }

  /** The issues for the identifiers that are not known, one after the other. */
  method ResolveIds(code: Code, path: Path, owner: string, ids: set<string>, known: set<string>)
    returns (issues: seq<Issue>)
    ensures forall x :: x in issues <==>
              exists id :: id in ids && id !in known && x == Issue(code, Error, path, [owner, id])
  {
    issues := [];
    var left := ids;
    while left != {}
      invariant left <= ids
      invariant forall x :: x in issues <==>
                  exists id :: id in ids - left && id !in known && x == Issue(code, Error, path, [owner, id])
      decreases left
    {
      var id :| id in left;
      var before := left;
      left := left - {id};
      assert forall i :: i in ids - left <==> i in ids - before || i == id;
      if id !in known {
        issues := issues + [Issue(code, Error, path, [owner, id])];
      }
    }
    assert ids - left == ids;
  }

  method ResolveLeg(item: Item, previous: Option<string>, path: Path, routes: seq<Route>)
    returns (issues: seq<Issue>)
    ensures forall x :: x in issues <==> LegIssue(item, previous, path, routes, x)
  {
    issues := [];
    if item.leg.Some? {
      var routeId := item.leg.value.routeId;
      var route := RouteById(routes, routeId);
      if route.None? {
        issues := [Issue(MissingRouteReference, Error, path, [item.itemId, routeId])];
      } else if previous != Some(route.value.origin) || route.value.destination != item.placeId {
        issues := [Issue(RouteEndpointMismatch, Error, path, [item.itemId, route.value.routeId])];
      }
    }
  }

  method ResolveItem(item: Item, previous: Option<string>, d: nat, k: nat, places: seq<Place>, sources: Sources)
    returns (issues: seq<Issue>)
    ensures forall x :: x in issues <==> ItemIssue(item, previous, d, k, places, sources, x)
  {
    issues := [];
    if item.placeId !in PlaceIds(places) {
      issues := [Issue(MissingPlaceReference, Error, PlaceOfItem(d, k), [item.itemId, item.placeId])];
    }
    var claims := ResolveIds(MissingClaimReference, ClaimsOfItem(d, k), item.itemId, item.claimIds,
                             ClaimIds(sources.claims));
    var evidence := ResolveIds(MissingEvidenceReference, EvidenceOfItem(d, k), item.itemId, item.evidenceIds,
                               Elements(sources.evidence));
    var legs := ResolveLeg(item, previous, RouteOfItem(d, k), sources.routes);
    issues := issues + claims + evidence + legs;
  }

  method ResolveDay(day: Day, d: nat, places: seq<Place>, sources: Sources) returns (issues: seq<Issue>)
    ensures forall x :: x in issues <==> DayIssue(day, d, places, sources, x)
  {
    issues := [];
    var previous: Option<string> := None;
    for k := 0 to |day.items|
      invariant previous == if k == 0 then None else Some(day.items[k - 1].placeId)
      invariant forall x :: x in issues <==> DayIssue(day, d, places, sources, x) && x.path.item < k
    {
      var found := ResolveItem(day.items[k], previous, d, k, places, sources);
      issues := issues + found;
      previous := Some(day.items[k].placeId);
    }
  }

  method ValidateReferences(plan: Plan, places: seq<Place>, sources: Sources) returns (issues: seq<Issue>)
    ensures forall x :: x in issues <==>
              InputIssue(places, sources, x) || ItemReferenceIssue(plan, places, sources, x)
  {
    var ofPlaces := ResolvePlaces(places, sources.evidence);
    var ofRoutes := ResolveRoutes(sources.routes, PlaceIds(places), sources.evidence);
    var ofClaims := ResolveClaims(sources.claims, sources.evidence);
    var ofItems: seq<Issue> := [];
    for d := 0 to |plan.days|
      invariant forall x :: x in ofItems <==> ItemReferenceIssue(plan, places, sources, x) && x.path.day < d
    {
      var found := ResolveDay(plan.days[d], d, places, sources);
      ofItems := ofItems + found;
    }
    issues := ofPlaces + ofRoutes + ofClaims + ofItems;
  }

  // ----- The whole report -----

  ghost predicate Finding(plan: Plan, request: TripRequest, places: seq<Place>, sources: Sources,
                          canonical: CoordinateSystem, x: Issue)
  {
    || PlanIssue(plan, request, places, x) || CoordinateIssue(places, sources.routes, canonical, x)
    || InputIssue(places, sources, x) || ItemReferenceIssue(plan, places, sources, x)
  }

  method ValidateItinerary(plan: Plan, request: TripRequest, places: seq<Place>, sources: Sources)
    returns (issues: seq<Issue>, canonical: CoordinateSystem)
    ensures IsCanonical(places, canonical)
    ensures forall x :: x in issues <==> Finding(plan, request, places, sources, canonical, x)
    ensures LastingPlan(plan) && Passed(issues) ==> DaysApart(plan)
  {
    var budget := ValidateBudget(plan, request);
    var windows := ValidateTimeWindows(plan, request);
    var overlaps := ValidateOverlaps(plan);
    var opening := ValidateOpeningHours(plan, places);
    var coordinates;
    coordinates, canonical := ValidateCoordinates(places, sources.routes);
    var references := ValidateReferences(plan, places, sources);
    issues := budget + windows + overlaps + opening + coordinates + references;
    assert overlaps != [] ==> overlaps[0] in issues && OverlapIssue(plan, overlaps[0]);
  }
}
