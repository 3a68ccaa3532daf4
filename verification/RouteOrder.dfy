/** The backtracking search for a visiting order that uses only supplied routes. */
module RouteOrder {
  import opened Common
  import opened Itinerary

  type Edges = set<(string, string)>

  function EdgesOf(routes: seq<Route>): Edges {
    set r | r in routes :: (r.origin, r.destination)
  }

  function Without(places: seq<Place>, id: string): (rest: seq<Place>)
    ensures forall p :: p in rest <==> p in places && p.placeId != id
    ensures |rest| <= |places|
    ensures (exists p :: p in places && p.placeId == id) ==> |rest| < |places|
  {
    if places == [] then []
    else if places[0].placeId == id then Without(places[1..], id)
    else [places[0]] + Without(places[1..], id)
  }

  function Walk(edges: Edges, prefix: seq<Place>, remaining: seq<Place>): Option<seq<Place>>
    decreases |remaining|, |remaining| + 1
  {
    if remaining == [] then Some(prefix) else WalkFrom(edges, prefix, remaining, 0)
  }

  /** Tries the remaining places from number i on as the next stop. */
  function WalkFrom(edges: Edges, prefix: seq<Place>, remaining: seq<Place>, i: nat): Option<seq<Place>>
    requires i <= |remaining|
    decreases |remaining|, |remaining| - i
  {
    if i == |remaining| then None
    else
      var candidate := remaining[i];
      if prefix == [] || (prefix[|prefix| - 1].placeId, candidate.placeId) in edges then
        var found := Walk(edges, prefix + [candidate], Without(remaining, candidate.placeId));
        if found.Some? then found else WalkFrom(edges, prefix, remaining, i + 1)
      else WalkFrom(edges, prefix, remaining, i + 1)
  }

  function Order(places: seq<Place>, routes: seq<Route>): Option<seq<Place>> {
    if |places| < 2 then Some(places) else Walk(EdgesOf(routes), [], places)
  }

  // ----- What an order is -----

  ghost predicate Linked(edges: Edges, from: Place, to: Place) {
    (from.placeId, to.placeId) in edges
  }

  ghost predicate LinkedAt(edges: Edges, tour: seq<Place>, k: nat)
    requires 0 < k < |tour|
  {
    Linked(edges, tour[k - 1], tour[k])
  }

  ghost predicate Connected(edges: Edges, tour: seq<Place>) {
    forall k :: 0 < k < |tour| ==> LinkedAt(edges, tour, k)
  }

  /** The tour visits each of the places once and moves along edges only. */
  ghost predicate IsTour(edges: Edges, places: seq<Place>, tour: seq<Place>) {
    Rearranges(tour, places) && Connected(edges, tour)
  }

  ghost predicate Continues(edges: Edges, prefix: seq<Place>, next: Place) {
    prefix == [] || Linked(edges, prefix[|prefix| - 1], next)
  }

  /** Going on from the prefix through exactly the remaining places. */
  ghost predicate Completes(edges: Edges, prefix: seq<Place>, remaining: seq<Place>, rest: seq<Place>) {
    IsTour(edges, remaining, rest) && (rest != [] ==> Continues(edges, prefix, rest[0]))
  }

  lemma CutOfTail<T>(s: seq<T>, i: nat)
    requires 0 < i < |s|
    ensures [s[0]] + (s[1..][..i - 1] + s[1..][i..]) == s[..i] + s[i + 1..]
  {
    assert s[1..][..i - 1] == s[1..i];
    assert s[..i] == [s[0]] + s[1..i];
    assert s[1..][i..] == s[i + 1..];
  }

  lemma {:induction false} WithoutIsCut(places: seq<Place>, i: nat)
    requires DistinctIds(places) && i < |places|
    ensures Without(places, places[i].placeId) == places[..i] + places[i + 1..]
  {
    var id := places[i].placeId;
    if i == 0 {
      WithoutNothing(places[1..], id);
      assert places[..0] + places[1..] == places[1..];
    } else {
      WithoutIsCut(places[1..], i - 1);
      CutOfTail(places, i);
    }
  }

  lemma {:induction false} WithoutNothing(places: seq<Place>, id: string)
    requires forall p :: p in places ==> p.placeId != id
    ensures Without(places, id) == places
  {
    if places != [] {
      WithoutNothing(places[1..], id);
    }
  }

  lemma CutStaysDistinct(places: seq<Place>, i: nat)
    requires DistinctIds(places) && i < |places|
    ensures DistinctIds(places[..i] + places[i + 1..])
  {
  }

  lemma ConnectedFromHead(edges: Edges, tour: seq<Place>)
    requires tour != []
    ensures Connected(edges, tour) <==>
              Connected(edges, tour[1..]) && (|tour| > 1 ==> Linked(edges, tour[0], tour[1]))
  {
    var tail := tour[1..];
    if Connected(edges, tour) {
      forall k | 0 < k < |tail| ensures LinkedAt(edges, tail, k) {
        assert LinkedAt(edges, tour, k + 1);
      }
      assert |tour| > 1 ==> LinkedAt(edges, tour, 1);
    } else {
      var k :| 0 < k < |tour| && !LinkedAt(edges, tour, k);
      assert k > 1 ==> LinkedAt(edges, tail, k - 1) == LinkedAt(edges, tour, k);
    }
  }

  lemma TourFromHead(edges: Edges, places: seq<Place>, tour: seq<Place>, i: nat)
    requires i < |places| && tour != [] && tour[0] == places[i]
    ensures IsTour(edges, places, tour) <==>
              && IsTour(edges, places[..i] + places[i + 1..], tour[1..])
              && (|tour| > 1 ==> Linked(edges, tour[0], tour[1]))
  {
    CutBoth(tour, 0, places, i);
    assert tour[..0] + tour[0 + 1..] == tour[1..];
    ConnectedFromHead(edges, tour);
  }

  /** Choosing rest[0] first and then completing with the others is the same as completing with rest. */
  lemma StepOfCompletion(edges: Edges, prefix: seq<Place>, remaining: seq<Place>, rest: seq<Place>, i: nat)
    requires i < |remaining| && rest != [] && rest[0] == remaining[i]
    ensures Completes(edges, prefix, remaining, rest) <==>
              && Continues(edges, prefix, rest[0])
              && Completes(edges, prefix + [rest[0]], remaining[..i] + remaining[i + 1..], rest[1..])
  {
    TourFromHead(edges, remaining, rest, i);
    var extended, tail := prefix + [rest[0]], rest[1..];
    assert extended[|extended| - 1] == rest[0];
    if tail != [] {
      assert Continues(edges, extended, tail[0]) <==> Linked(edges, rest[0], rest[1]);
    }
  }

  lemma {:induction false} WalkIsExact(edges: Edges, prefix: seq<Place>, remaining: seq<Place>)
    requires DistinctIds(remaining)
    ensures Walk(edges, prefix, remaining).Some? ==>
              var whole := Walk(edges, prefix, remaining).value;
              prefix <= whole && Completes(edges, prefix, remaining, whole[|prefix|..])
    ensures Walk(edges, prefix, remaining).None? ==> forall rest :: !Completes(edges, prefix, remaining, rest)
    decreases |remaining|, |remaining| + 1
  {
    if remaining == [] {
      assert prefix[|prefix|..] == [];
    } else {
      WalkFromIsExact(edges, prefix, remaining, 0);
      forall rest | Completes(edges, prefix, remaining, rest) ensures Walk(edges, prefix, remaining).Some? {
        RearrangedMember(rest, remaining, rest[0]);
      }
    }
  }

  lemma {:induction false} WalkFromIsExact(edges: Edges, prefix: seq<Place>, remaining: seq<Place>, i: nat)
    requires DistinctIds(remaining) && i <= |remaining|
    ensures WalkFrom(edges, prefix, remaining, i).Some? ==>
              var whole := WalkFrom(edges, prefix, remaining, i).value;
              prefix <= whole && Completes(edges, prefix, remaining, whole[|prefix|..])
    ensures WalkFrom(edges, prefix, remaining, i).None? ==>
              forall rest :: rest != [] && rest[0] in remaining[i..] ==> !Completes(edges, prefix, remaining, rest)
    decreases |remaining|, |remaining| - i
  {
    if i < |remaining| {
      var candidate := remaining[i];
      WalkFromIsExact(edges, prefix, remaining, i + 1);
      assert remaining[i..] == [candidate] + remaining[i + 1..];
      CandidateIsExact(edges, prefix, remaining, i);
    }
  }

  /** The search with remaining[i] as the next stop. */
  lemma {:induction false} CandidateIsExact(edges: Edges, prefix: seq<Place>, remaining: seq<Place>, i: nat)
    requires DistinctIds(remaining) && i < |remaining|
    ensures Without(remaining, remaining[i].placeId) == remaining[..i] + remaining[i + 1..]
    ensures var found := Walk(edges, prefix + [remaining[i]], Without(remaining, remaining[i].placeId));
            if Continues(edges, prefix, remaining[i]) && found.Some? then
              prefix <= found.value && Completes(edges, prefix, remaining, found.value[|prefix|..])
            else
              forall rest :: rest != [] && rest[0] == remaining[i] ==> !Completes(edges, prefix, remaining, rest)
    decreases |remaining|, 0
  {
    var candidate := remaining[i];
    WithoutIsCut(remaining, i);
    CutStaysDistinct(remaining, i);
    var others := remaining[..i] + remaining[i + 1..];
    WalkIsExact(edges, prefix + [candidate], others);
    var found := Walk(edges, prefix + [candidate], others);
    if Continues(edges, prefix, candidate) && found.Some? {
      var rest := found.value[|prefix|..];
      assert rest[0] == candidate && rest[1..] == found.value[|prefix + [candidate]|..];
      StepOfCompletion(edges, prefix, remaining, rest, i);
    } else {
      forall rest | rest != [] && rest[0] == candidate ensures !Completes(edges, prefix, remaining, rest) {
        StepOfCompletion(edges, prefix, remaining, rest, i);
      }
    }
  }

  /** The search finds an order exactly when one exists, and what it finds is one. */
  lemma OrderIsExact(places: seq<Place>, routes: seq<Route>)
    requires DistinctIds(places)
    ensures Order(places, routes).Some? ==> IsTour(EdgesOf(routes), places, Order(places, routes).value)
    ensures Order(places, routes).None? ==> forall tour :: !IsTour(EdgesOf(routes), places, tour)
  {
    var edges := EdgesOf(routes);
    if |places| >= 2 {
      WalkIsExact(edges, [], places);
      var found := Walk(edges, [], places);
      if found.Some? {
        assert found.value[0..] == found.value;
      } else {
        forall tour ensures !IsTour(edges, places, tour) {
          assert !Completes(edges, [], places, tour);
        }
      }
    }
  }

  // ----- The order found is the first one -----

  /** a comes before b in the list. */
  ghost predicate ListedBefore(places: seq<Place>, a: Place, b: Place) {
    exists i, j :: 0 <= i < j < |places| && places[i] == a && places[j] == b
  }

  /** The tours agree, or where they first part the one takes a place listed earlier. */
  ghost predicate NotAfter(places: seq<Place>, tour: seq<Place>, other: seq<Place>) {
    tour == other
    || exists k :: 0 <= k < |tour| && k < |other| && tour[..k] == other[..k] && ListedBefore(places, tour[k], other[k])
  }

  /** The remaining places are listed in the order of all places. */
  ghost predicate KeepsOrder(places: seq<Place>, remaining: seq<Place>) {
    forall i, j :: 0 <= i < j < |remaining| ==> ListedBefore(places, remaining[i], remaining[j])
  }

  lemma CutKeepsOrder(places: seq<Place>, remaining: seq<Place>, i: nat)
    requires KeepsOrder(places, remaining) && i < |remaining|
    ensures KeepsOrder(places, remaining[..i] + remaining[i + 1..])
  {
    var cut := remaining[..i] + remaining[i + 1..];
    forall a, b | 0 <= a < b < |cut| ensures ListedBefore(places, cut[a], cut[b]) {
      var m, n := if a < i then a else a + 1, if b < i then b else b + 1;
      assert cut[a] == remaining[m] && cut[b] == remaining[n];
    }
  }

  lemma NotAfterFromHead(places: seq<Place>, tour: seq<Place>, other: seq<Place>)
    requires tour != [] && other != [] && tour[0] == other[0] && NotAfter(places, tour[1..], other[1..])
    ensures NotAfter(places, tour, other)
  {
    if tour[1..] == other[1..] {
      assert tour == [tour[0]] + tour[1..] && other == [other[0]] + other[1..];
    } else {
      var k :| 0 <= k < |tour[1..]| && k < |other[1..]| && tour[1..][..k] == other[1..][..k]
        && ListedBefore(places, tour[1..][k], other[1..][k]);
      assert tour[..k + 1] == [tour[0]] + tour[1..][..k] && other[..k + 1] == [other[0]] + other[1..][..k];
    }
  }

  /** Whatever completes the prefix, the search finds nothing later. */
  lemma {:induction false} WalkIsFirst(edges: Edges, prefix: seq<Place>, remaining: seq<Place>, places: seq<Place>,
                                       rest: seq<Place>)
    requires DistinctIds(remaining) && KeepsOrder(places, remaining) && Completes(edges, prefix, remaining, rest)
    ensures Walk(edges, prefix, remaining).Some?
    ensures var whole := Walk(edges, prefix, remaining).value;
            prefix <= whole && NotAfter(places, whole[|prefix|..], rest)
    decreases |remaining|, |remaining| + 1
  {
    WalkIsExact(edges, prefix, remaining);
    RearrangedLength(rest, remaining);
    if remaining == [] {
      assert prefix[|prefix|..] == [] == rest;
    } else {
      RearrangedMember(rest, remaining, rest[0]);
      var m :| 0 <= m < |remaining| && remaining[m] == rest[0];
      WalkFromIsFirst(edges, prefix, remaining, 0, places, rest, m);
    }
  }

  /** The first candidate that can be completed leads to the tour found. */
  lemma TourFound(edges: Edges, prefix: seq<Place>, remaining: seq<Place>, i: nat)
    returns (others: seq<Place>, tour: seq<Place>)
    requires DistinctIds(remaining) && i < |remaining| && Continues(edges, prefix, remaining[i])
    requires Walk(edges, prefix + [remaining[i]], Without(remaining, remaining[i].placeId)).Some?
    ensures others == remaining[..i] + remaining[i + 1..] == Without(remaining, remaining[i].placeId)
    ensures DistinctIds(others)
    ensures var found := Walk(edges, prefix + [remaining[i]], others).value;
            && prefix <= found && tour == found[|prefix|..] && tour != [] && tour[0] == remaining[i]
            && prefix + [remaining[i]] <= found && tour[1..] == found[|prefix + [remaining[i]]|..]
            && WalkFrom(edges, prefix, remaining, i) == Some(found)
  {
    var candidate := remaining[i];
    WithoutIsCut(remaining, i);
    CutStaysDistinct(remaining, i);
    others := remaining[..i] + remaining[i + 1..];
    WalkIsExact(edges, prefix + [candidate], others);
    tour := Walk(edges, prefix + [candidate], others).value[|prefix|..];
  }

  lemma {:induction false} WalkFromIsFirst(edges: Edges, prefix: seq<Place>, remaining: seq<Place>, i: nat,
                                           places: seq<Place>, rest: seq<Place>, m: nat)
    requires DistinctIds(remaining) && KeepsOrder(places, remaining) && Completes(edges, prefix, remaining, rest)
    requires i <= m < |remaining| && rest != [] && remaining[m] == rest[0]
    ensures WalkFrom(edges, prefix, remaining, i).Some?
    ensures var whole := WalkFrom(edges, prefix, remaining, i).value;
            prefix <= whole && NotAfter(places, whole[|prefix|..], rest)
    decreases |remaining|, |remaining| - i
  {
    var candidate := remaining[i];
    CandidateIsExact(edges, prefix, remaining, i);
    var found := Walk(edges, prefix + [candidate], Without(remaining, candidate.placeId));
    if Continues(edges, prefix, candidate) && found.Some? {
      var others, tour := TourFound(edges, prefix, remaining, i);
      if m == i {
        StepOfCompletion(edges, prefix, remaining, rest, i);
        CutKeepsOrder(places, remaining, i);
        WalkIsFirst(edges, prefix + [candidate], others, places, rest[1..]);
        NotAfterFromHead(places, tour, rest);
      } else {
        PartedAtOnce(places, tour, rest);
      }
    } else {
      WalkFromIsFirst(edges, prefix, remaining, i + 1, places, rest, m);
    }
  }

  lemma PartedAtOnce(places: seq<Place>, tour: seq<Place>, other: seq<Place>)
    requires tour != [] && other != [] && ListedBefore(places, tour[0], other[0])
    ensures NotAfter(places, tour, other)
  {
    assert tour[..0] == other[..0];
  }

  /** Of all tours along the routes the search finds the first: at the first stop where another one parts from it, the
      other takes a place listed later. */
  lemma OrderIsFirst(places: seq<Place>, routes: seq<Route>, tour: seq<Place>)
    requires DistinctIds(places) && IsTour(EdgesOf(routes), places, tour)
    ensures Order(places, routes).Some? && NotAfter(places, Order(places, routes).value, tour)
  {
    var edges := EdgesOf(routes);
    RearrangedLength(tour, places);
    if |places| >= 2 {
      assert Completes(edges, [], places, tour);
      WalkIsFirst(edges, [], places, places, tour);
      assert Walk(edges, [], places).value[0..] == Walk(edges, [], places).value;
    } else if |places| == 1 {
      RearrangedMember(tour, places, tour[0]);
      assert tour == [tour[0]] && places == [places[0]];
    }
  }
}
