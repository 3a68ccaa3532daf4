/** Comparing only neighbours after a stable sort by start decides whether any two activities overlap. */
module Overlaps {
  import opened Common
  import opened Itinerary

  predicate Apart(a: Item, b: Item) {
    a.endAt <= b.startAt || b.endAt <= a.startAt
  }

  ghost predicate AllApart(items: seq<Item>) {
    forall i, j :: 0 <= i < j < |items| ==> Apart(items[i], items[j])
  }

  /** Every item ends after it starts, as the item model enforces. */
  ghost predicate Lasting(items: seq<Item>) {
    forall x :: x in items ==> x.startAt < x.endAt
  }

  /** Later items go behind earlier ones with the same start. */
  function InsertByStart(ordered: seq<Item>, item: Item): seq<Item> {
    if ordered == [] then [item]
    else
      var last := ordered[|ordered| - 1];
      if last.startAt <= item.startAt then ordered + [item]
      else InsertByStart(ordered[..|ordered| - 1], item) + [last]
  }

  function ByStart(items: seq<Item>): seq<Item> {
    if items == [] then [] else InsertByStart(ByStart(items[..|items| - 1]), items[|items| - 1])
  }

  ghost predicate SortedByStart(items: seq<Item>) {
    forall i, j :: 0 <= i < j < |items| ==> items[i].startAt <= items[j].startAt
  }

  /** The items with the given start, in their order. */
  function StartingAt(items: seq<Item>, start: int): seq<Item> {
    if items == [] then []
    else
      var last := items[|items| - 1];
      StartingAt(items[..|items| - 1], start) + if last.startAt == start then [last] else []
  }

  lemma StartingAtByLast(init: seq<Item>, last: Item, start: int)
    ensures StartingAt(init + [last], start) == StartingAt(init, start) + if last.startAt == start then [last] else []
  {
    assert (init + [last])[..|init|] == init;
  }

  lemma {:induction false} InsertKeepsSorted(ordered: seq<Item>, item: Item)
    requires SortedByStart(ordered)
    ensures SortedByStart(InsertByStart(ordered, item))
    ensures forall x :: x in InsertByStart(ordered, item) <==> x in ordered || x == item
  {
    if ordered != [] {
      var init, last := ordered[..|ordered| - 1], ordered[|ordered| - 1];
      assert ordered == init + [last];
      if last.startAt > item.startAt {
        InsertKeepsSorted(init, item);
        var inserted := InsertByStart(init, item);
        forall i | 0 <= i < |inserted| ensures inserted[i].startAt <= last.startAt {
          assert inserted[i] in inserted;
        }
      }
    }
  }

  lemma {:induction false} InsertAddsOne(ordered: seq<Item>, item: Item)
    ensures multiset(InsertByStart(ordered, item)) == multiset(ordered) + multiset{item}
  {
    if ordered != [] {
      var init, last := ordered[..|ordered| - 1], ordered[|ordered| - 1];
      assert ordered == init + [last];
      if last.startAt > item.startAt {
        InsertAddsOne(init, item);
      }
    }
  }

  lemma {:induction false} InsertIsStable(ordered: seq<Item>, item: Item, start: int)
    ensures StartingAt(InsertByStart(ordered, item), start) == StartingAt(ordered + [item], start)
  {
    if ordered != [] {
      var init, last := ordered[..|ordered| - 1], ordered[|ordered| - 1];
      assert ordered == init + [last];
      if last.startAt > item.startAt {
        InsertIsStable(init, item, start);
        StartingAtByLast(InsertByStart(init, item), last, start);
        StartingAtByLast(init, item, start);
        StartingAtByLast(init, last, start);
        StartingAtByLast(ordered, item, start);
      }
    }
  }

  lemma {:induction false} ByStartIsSorted(items: seq<Item>)
    ensures SortedByStart(ByStart(items))
  {
    if items != [] {
      ByStartIsSorted(items[..|items| - 1]);
      InsertKeepsSorted(ByStart(items[..|items| - 1]), items[|items| - 1]);
    }
  }

  lemma InsertRearranges(ordered: seq<Item>, init: seq<Item>, item: Item)
    requires Rearranges(ordered, init)
    ensures Rearranges(InsertByStart(ordered, item), init + [item])
  {
    InsertAddsOne(ordered, item);
    RearrangesOneMore(InsertByStart(ordered, item), ordered, init, item);
  }

  lemma {:induction false} ByStartRearranges(items: seq<Item>)
    ensures Rearranges(ByStart(items), items)
  {
    if items != [] {
      var init, last := items[..|items| - 1], items[|items| - 1];
      ByStartRearranges(init);
      InsertRearranges(ByStart(init), init, last);
      assert items == init + [last];
    }
  }

  lemma SortedThenLast(ordered: seq<Item>, last: Item, start: int)
    ensures StartingAt(InsertByStart(ordered, last), start) ==
              StartingAt(ordered, start) + if last.startAt == start then [last] else []
  {
    InsertIsStable(ordered, last, start);
    StartingAtByLast(ordered, last, start);
  }

  lemma {:induction false} ByStartIsStable(items: seq<Item>, start: int)
    ensures StartingAt(ByStart(items), start) == StartingAt(items, start)
  {
    if items != [] {
      var init, last := items[..|items| - 1], items[|items| - 1];
      ByStartIsStable(init, start);
      SortedThenLast(ByStart(init), last, start);
      StartingAtByLast(init, last, start);
      assert items == init + [last];
    }
  }

  /** The order is sorted, keeps every item, and keeps the order of items with equal starts. */
  lemma ByStartIsStableSort(items: seq<Item>)
    ensures SortedByStart(ByStart(items)) && Rearranges(ByStart(items), items)
    ensures forall start :: StartingAt(ByStart(items), start) == StartingAt(items, start)
  {
    ByStartIsSorted(items);
    ByStartRearranges(items);
    forall start ensures StartingAt(ByStart(items), start) == StartingAt(items, start) {
      ByStartIsStable(items, start);
    }
  }

  // ----- Overlap is found by comparing neighbours -----

  ghost predicate ApartFromAll(items: seq<Item>, x: Item) {
    forall y :: y in items ==> Apart(y, x)
  }

  lemma AllApartByLast(init: seq<Item>, last: Item)
    ensures AllApart(init + [last]) <==> AllApart(init) && ApartFromAll(init, last)
  {
    var s := init + [last];
    if AllApart(s) {
      forall y | y in init ensures Apart(y, last) {
        var i :| 0 <= i < |init| && init[i] == y;
        assert Apart(s[i], s[|init|]);
      }
      forall i, j | 0 <= i < j < |init| ensures Apart(init[i], init[j]) {
        assert Apart(s[i], s[j]);
      }
    }
  }

  lemma {:induction false} InsertKeepsApart(ordered: seq<Item>, item: Item)
    ensures AllApart(InsertByStart(ordered, item)) <==> AllApart(ordered) && ApartFromAll(ordered, item)
    ensures forall x :: x in InsertByStart(ordered, item) <==> x in ordered || x == item
  {
    AllApartByLast(ordered, item);
    if ordered != [] {
      var init, last := ordered[..|ordered| - 1], ordered[|ordered| - 1];
      assert ordered == init + [last];
      if last.startAt > item.startAt {
        InsertKeepsApart(init, item);
        var inserted := InsertByStart(init, item);
        AllApartByLast(init, last);
        AllApartByLast(inserted, last);
        assert ApartFromAll(inserted, last) <==> ApartFromAll(init, last) && Apart(item, last);
        assert ApartFromAll(ordered, item) <==> ApartFromAll(init, item) && Apart(last, item);
      }
    }
  }

  lemma {:induction false} SortingKeepsApart(items: seq<Item>)
    ensures AllApart(ByStart(items)) <==> AllApart(items)
    ensures forall x :: x in ByStart(items) <==> x in items
  {
    if items != [] {
      var init, last := items[..|items| - 1], items[|items| - 1];
      SortingKeepsApart(init);
      InsertKeepsApart(ByStart(init), last);
      assert items == init + [last];
      AllApartByLast(init, last);
    }
  }

  ghost predicate NeighboursApart(ordered: seq<Item>) {
    forall k :: 0 < k < |ordered| ==> ordered[k - 1].endAt <= ordered[k].startAt
  }

  lemma {:induction false} NeighboursReachFar(ordered: seq<Item>, i: nat, j: nat)
    requires Lasting(ordered) && NeighboursApart(ordered) && i < j < |ordered|
    ensures ordered[i].endAt <= ordered[j].startAt
  {
    if i + 1 < j {
      NeighboursReachFar(ordered, i, j - 1);
      assert ordered[j - 1] in ordered;
    }
  }

  /** In the sorted day no neighbours overlap exactly when no two activities of the day do. */
  lemma NeighboursDecide(items: seq<Item>)
    requires Lasting(items)
    ensures NeighboursApart(ByStart(items)) <==> AllApart(items)
  {
    var ordered := ByStart(items);
    SortingKeepsApart(items);
    ByStartIsSorted(items);
    if NeighboursApart(ordered) {
      forall i, j | 0 <= i < j < |ordered| ensures Apart(ordered[i], ordered[j]) {
        NeighboursReachFar(ordered, i, j);
      }
    }
    if AllApart(ordered) {
      forall k | 0 < k < |ordered| ensures ordered[k - 1].endAt <= ordered[k].startAt {
        assert Apart(ordered[k - 1], ordered[k]);
        assert ordered[k] in ordered;
      }
    }
  }
}
