/** Option and Result, used for the source's None values and raised exceptions,
    and facts about duplicate-free sequences and finite sets. */
module Common {
  datatype Option<+T> = None | Some(value: T)

  datatype Result<+T, +E> = Ok(value: T) | Err(error: E)

  ghost predicate Distinct<T>(s: seq<T>) {
    forall i, j :: 0 <= i < j < |s| ==> s[i] != s[j]
  }

  function Elements<T>(s: seq<T>): set<T> {
    set x | x in s
  }

  lemma ElementsByLast<T>(init: seq<T>, last: T)
    ensures Elements(init + [last]) == Elements(init) + {last}
    ensures Distinct(init + [last]) <==> Distinct(init) && last !in init
  {
    var s := init + [last];
    assert s[|init|] == last && forall i :: 0 <= i < |init| ==> s[i] == init[i];
    if last in init {
      var i :| 0 <= i < |init| && init[i] == last;
      assert s[i] == s[|init|];
    }
  }

  /** Turning a sequence into a set keeps its size exactly when nothing repeats. */
  lemma {:induction false} DistinctSize<T>(s: seq<T>)
    ensures |Elements(s)| <= |s|
    ensures |Elements(s)| == |s| <==> Distinct(s)
  {
    if s != [] {
      var init, last := s[..|s| - 1], s[|s| - 1];
      DistinctSize(init);
      ElementsByLast(init, last);
      assert s == init + [last];
    }
  }

  lemma SubsetSize<T>(part: set<T>, whole: set<T>)
    requires part <= whole
    ensures |part| <= |whole|
    ensures part != whole ==> |part| < |whole|
  {
    assert whole == part + (whole - part);
  }

  lemma EmptyDifference<T>(a: set<T>, b: set<T>)
    ensures a - b == {} <==> a <= b
  {
    if a - b == {} {
      forall x | x in a ensures x in b {
        assert x !in a - b;
      }
    }
  }

  /** The same elements, each as often. */
  ghost predicate Rearranges<T>(a: seq<T>, b: seq<T>) {
    multiset(a) == multiset(b)
  }

  lemma CutAddsOne<T>(s: seq<T>, i: nat)
    requires i < |s|
    ensures multiset(s) == multiset(s[..i] + s[i + 1..]) + multiset{s[i]}
  {
    assert s == s[..i] + [s[i]] + s[i + 1..];
  }

  lemma CutBoth<T>(a: seq<T>, i: nat, b: seq<T>, j: nat)
    requires i < |a| && j < |b| && a[i] == b[j]
    ensures Rearranges(a, b) <==> Rearranges(a[..i] + a[i + 1..], b[..j] + b[j + 1..])
  {
    CutAddsOne(a, i);
    CutAddsOne(b, j);
    var one := multiset{a[i]};
    if Rearranges(a, b) {
      assert multiset(a[..i] + a[i + 1..]) == multiset(a) - one;
      assert multiset(b[..j] + b[j + 1..]) == multiset(b) - one;
    }
  }

  lemma RearrangesOneMore<T>(longer: seq<T>, a: seq<T>, b: seq<T>, x: T)
    requires multiset(longer) == multiset(a) + multiset{x} && Rearranges(a, b)
    ensures Rearranges(longer, b + [x])
  {
  }

  lemma {:induction false} DistinctMultiset<T>(s: seq<T>, x: T)
    requires Distinct(s)
    ensures multiset(s)[x] == if x in s then 1 else 0
  {
    if s != [] {
      var init, last := s[..|s| - 1], s[|s| - 1];
      assert s == init + [last];
      ElementsByLast(init, last);
      DistinctMultiset(init, x);
    }
  }

  lemma DistinctRearranges<T>(a: seq<T>, b: seq<T>)
    requires Distinct(a) && Distinct(b) && forall x :: x in a <==> x in b
    ensures Rearranges(a, b)
  {
    forall x ensures multiset(a)[x] == multiset(b)[x] {
      DistinctMultiset(a, x);
      DistinctMultiset(b, x);
    }
  }

  lemma RearrangesJoin<T>(a: seq<T>, b: seq<T>, rest: seq<T>)
    requires Rearranges(a, b)
    ensures Rearranges(a + rest, b + rest)
  {
  }

  lemma RearrangedLength<T>(a: seq<T>, b: seq<T>)
    requires Rearranges(a, b)
    ensures |a| == |b|
  {
    assert |a| == |multiset(a)| == |multiset(b)| == |b|;
  }

  lemma RearrangedMember<T>(a: seq<T>, b: seq<T>, x: T)
    requires Rearranges(a, b)
    ensures |a| == |b|
    ensures x in a <==> x in b
  {
    RearrangedLength(a, b);
    assert x in a <==> x in multiset(a);
    assert x in b <==> x in multiset(b);
  }

  /** The first element of one sequence can be cut out of the other. */
  lemma CutHead<T>(a: seq<T>, b: seq<T>) returns (j: nat)
    requires Rearranges(a, b) && a != []
    ensures j < |b| && b[j] == a[0] && Rearranges(a[1..], b[..j] + b[j + 1..])
  {
    RearrangedMember(a, b, a[0]);
    j :| 0 <= j < |b| && b[j] == a[0];
    CutBoth(a, 0, b, j);
    assert a[..0] + a[0 + 1..] == a[1..];
  }

  lemma RearrangedIsDistinct<T>(a: seq<T>, b: seq<T>)
    requires Rearranges(a, b) && Distinct(b)
    ensures Distinct(a)
  {
    forall i, j | 0 <= i < j < |a| ensures a[i] != a[j] {
      CutAddsOne(a, j);
      assert (a[..j] + a[j + 1..])[i] == a[i];
      RearrangedMember(a, b, a[j]);
      DistinctMultiset(b, a[j]);
      assert a[i] in multiset(a[..j] + a[j + 1..]);
    }
  }
}
