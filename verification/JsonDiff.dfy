/** The structural diff of two JSON values, and the patch it determines. */
module JsonDiff {
  import opened Common
  import opened Ordering

  datatype Json =
    | JNull
    | JBool(flag: bool)
    | JInt(number: int)
    | JFloat(amount: real)
    | JString(text: string)
    | JList(items: seq<Json>)
    | JDict(fields: map<string, Json>)

  datatype Step = Key(name: string) | Index(at: nat)

  type Path = seq<Step>

  /** type(before) is type(after): a boolean, an integer and a float never share a type. */
  predicate SameType(a: Json, b: Json) {
    match a
    case JNull => b.JNull?
    case JBool(_) => b.JBool?
    case JInt(_) => b.JInt?
    case JFloat(_) => b.JFloat?
    case JString(_) => b.JString?
    case JList(_) => b.JList?
    case JDict(_) => b.JDict?
  }

  // ----- Sorted keys -----

  ghost predicate IsLeast(keys: set<string>, k: string) {
    k in keys && forall x :: x in keys && x != k ==> Less(k, x)
  }

  lemma LeastExists(keys: set<string>)
    requires keys != {}
    ensures exists k :: IsLeast(keys, k)
  {
    var x :| x in keys;
    var rest := keys - {x};
    assert forall y :: y in keys ==> y == x || y in rest;
    if rest == {} {
      assert IsLeast(keys, x);
    } else {
      LeastExists(rest);
      var m :| IsLeast(rest, m);
      LessTrichotomy(x, m);
      forall y | y in rest && y != m && Less(x, m)
        ensures Less(x, y)
      {
        LessTransitive(x, m, y);
      }
      assert IsLeast(keys, if Less(x, m) then x else m);
    }
  }

  /** sorted(keys). */
  ghost function Sorted(keys: set<string>): (s: seq<string>)
    ensures Elements(s) == keys && Distinct(s)
    ensures forall i, j :: 0 <= i < j < |s| ==> Less(s[i], s[j])
  {
    if keys == {} then []
    else
      LeastExists(keys);
      var k :| IsLeast(keys, k);
      var rest := Sorted(keys - {k});
      assert k !in Elements(rest) && Elements([k] + rest) == {k} + Elements(rest);
      [k] + rest
  }

  // ----- The diff -----

  ghost function ChangedPaths(before: Json, after: Json, prefix: Path): seq<Path>
    decreases before, 1, 0
  {
    if !SameType(before, after) then [prefix]
    else if before.JDict? then
      DictPaths(before, after, Sorted(before.fields.Keys + after.fields.Keys), prefix)
    else if before.JList? then
      ListPaths(before, after, 0, prefix)
    else if before == after then []
    else [prefix]
  }

  ghost function DictPaths(before: Json, after: Json, keys: seq<string>, prefix: Path): seq<Path>
    requires before.JDict? && after.JDict?
    requires Elements(keys) <= before.fields.Keys + after.fields.Keys
    decreases before, 0, |keys|
  {
    if keys == [] then []
    else
      var k := keys[0];
      assert k in Elements(keys) && Elements(keys[1..]) <= Elements(keys);
      (if k !in before.fields || k !in after.fields then [prefix + [Key(k)]]
       else ChangedPaths(before.fields[k], after.fields[k], prefix + [Key(k)]))
      + DictPaths(before, after, keys[1..], prefix)
  }

  function Longer(a: nat, b: nat): nat {
    if a < b then b else a
  }

  ghost function ListPaths(before: Json, after: Json, i: nat, prefix: Path): seq<Path>
    requires before.JList? && after.JList?
    requires i <= Longer(|before.items|, |after.items|)
    decreases before, 0, Longer(|before.items|, |after.items|) - i
  {
    if i == Longer(|before.items|, |after.items|) then []
    else
      (if i >= |before.items| || i >= |after.items| then [prefix + [Index(i)]]
       else ChangedPaths(before.items[i], after.items[i], prefix + [Index(i)]))
      + ListPaths(before, after, i + 1, prefix)
  }

  // ----- What the paths mean -----

  function Child(j: Json, s: Step): Option<Json> {
    match (j, s)
    case (JDict(fields), Key(k)) => if k in fields then Some(fields[k]) else None
    case (JList(items), Index(i)) => if i < |items| then Some(items[i]) else None
    case _ => None
  }

  function Lookup(j: Json, p: Path): Option<Json> {
    if p == [] then Some(j)
    else match Child(j, p[0])
      case None => None
      case Some(c) => Lookup(c, p[1..])
  }

  predicate IsContainer(j: Json) {
    j.JDict? || j.JList?
  }

  /** Looking down one path only: the values there have different types, or are different
      scalars, or the path ends where only one of the containers has an entry. */
  predicate Differs(a: Json, b: Json, p: Path) {
    if p == [] then !SameType(a, b) || (!IsContainer(a) && a != b)
    else
      && SameType(a, b)
      && match (Child(a, p[0]), Child(b, p[0]))
         case (None, None) => false
         case (Some(c), Some(d)) => Differs(c, d, p[1..])
         case _ => |p| == 1
  }

  predicate Reported(a: Json, b: Json, prefix: Path, p: Path) {
    prefix <= p && Differs(a, b, p[|prefix|..])
  }

  /** p goes on from the prefix with step s and leads to a difference. */
  predicate ReportedVia(a: Json, b: Json, prefix: Path, s: Step, p: Path) {
    Reported(a, b, prefix, p) && |p| > |prefix| && p[|prefix|] == s
  }

  lemma IntoChild(a: Json, b: Json, prefix: Path, s: Step, p: Path)
    requires SameType(a, b) && Child(a, s).Some? && Child(b, s).Some?
    ensures ReportedVia(a, b, prefix, s, p) <==> Reported(Child(a, s).value, Child(b, s).value, prefix + [s], p)
  {
    if prefix + [s] <= p {
      assert (prefix + [s])[|prefix|] == p[|prefix|] == s;
      assert prefix == p[..|prefix|];
      assert p[|prefix|..][1..] == p[|prefix + [s]|..];
    }
    if prefix <= p && |p| > |prefix| && p[|prefix|] == s {
      assert prefix + [s] == p[..|prefix| + 1];
      assert p[|prefix|..][1..] == p[|prefix + [s]|..];
    }
  }

  lemma MissingChild(a: Json, b: Json, prefix: Path, s: Step, p: Path)
    requires SameType(a, b) && Child(a, s).Some? != Child(b, s).Some?
    ensures ReportedVia(a, b, prefix, s, p) <==> p == prefix + [s]
  {
    if ReportedVia(a, b, prefix, s, p) {
      assert p == prefix + p[|prefix|..] && p[|prefix|..] == [s];
    }
    if p == prefix + [s] {
      assert p[|prefix|..] == [s];
    }
  }

  /** A path is reported exactly when following it leads to a difference. */
  lemma {:induction false} PathsMeanDiffers(before: Json, after: Json, prefix: Path, p: Path)
    ensures p in ChangedPaths(before, after, prefix) <==> Reported(before, after, prefix, p)
    decreases before, 1, 0
  {
    if SameType(before, after) && before.JDict? {
      var keys := Sorted(before.fields.Keys + after.fields.Keys);
      DictPathsMeanDiffers(before, after, keys, prefix, p);
      if Reported(before, after, prefix, p) {
        var s := p[|prefix|];
        assert s.Key? && s.name in Elements(keys);
      }
    } else if SameType(before, after) && before.JList? {
      ListPathsMeanDiffers(before, after, 0, prefix, p);
    } else if prefix <= p && |p| > |prefix| {
      assert p != prefix;
    } else if prefix <= p {
      assert p == prefix && p[|prefix|..] == [];
    }
  }

  lemma {:induction false} DictPathsMeanDiffers(before: Json, after: Json, keys: seq<string>, prefix: Path, p: Path)
    requires before.JDict? && after.JDict? && Elements(keys) <= before.fields.Keys + after.fields.Keys
    ensures p in DictPaths(before, after, keys, prefix)
            <==> exists k :: k in keys && ReportedVia(before, after, prefix, Key(k), p)
    decreases before, 0, |keys|
  {
    if keys != [] {
      var k := keys[0];
      assert k in Elements(keys) && Elements(keys[1..]) <= Elements(keys);
      assert keys == [k] + keys[1..];
      DictPathsMeanDiffers(before, after, keys[1..], prefix, p);
      if k in before.fields && k in after.fields {
        PathsMeanDiffers(before.fields[k], after.fields[k], prefix + [Key(k)], p);
        IntoChild(before, after, prefix, Key(k), p);
      } else {
        MissingChild(before, after, prefix, Key(k), p);
      }
    }
  }

  lemma {:induction false} ListPathsMeanDiffers(before: Json, after: Json, i: nat, prefix: Path, p: Path)
    requires before.JList? && after.JList? && i <= Longer(|before.items|, |after.items|)
    ensures p in ListPaths(before, after, i, prefix)
            <==> exists j: nat :: i <= j && ReportedVia(before, after, prefix, Index(j), p)
    decreases before, 0, Longer(|before.items|, |after.items|) - i
  {
    if i < Longer(|before.items|, |after.items|) {
      ListPathsMeanDiffers(before, after, i + 1, prefix, p);
      if i < |before.items| && i < |after.items| {
        PathsMeanDiffers(before.items[i], after.items[i], prefix + [Index(i)], p);
        IntoChild(before, after, prefix, Index(i), p);
      } else {
        MissingChild(before, after, prefix, Index(i), p);
      }
    }
  }

  /** The diff of two whole values. */
  ghost function Diff(before: Json, after: Json): seq<Path> {
    ChangedPaths(before, after, [])
  }

  lemma DiffMeansDiffers(before: Json, after: Json, p: Path)
    ensures p in Diff(before, after) <==> Differs(before, after, p)
  {
    PathsMeanDiffers(before, after, [], p);
    assert p[0..] == p;
  }

  // ----- Laws -----

  /** No reported path leads on from another. */
  lemma {:induction false} ReportedPathsAreApart(a: Json, b: Json, p: Path, q: Path)
    requires Differs(a, b, p) && Differs(a, b, q) && p <= q
    ensures p == q
  {
    if p != [] {
      assert p[0] == q[0] && p[1..] <= q[1..];
      if Child(a, p[0]).Some? && Child(b, p[0]).Some? {
        ReportedPathsAreApart(Child(a, p[0]).value, Child(b, p[0]).value, p[1..], q[1..]);
      }
      assert p == [p[0]] + p[1..] && q == [q[0]] + q[1..];
    }
  }

  lemma DiffIsPrefixFree(before: Json, after: Json, p: Path, q: Path)
    requires p in Diff(before, after) && q in Diff(before, after) && p <= q
    ensures p == q
  {
    DiffMeansDiffers(before, after, p);
    DiffMeansDiffers(before, after, q);
    ReportedPathsAreApart(before, after, p, q);
  }

  /** Different values differ along some path. */
  lemma {:induction false} UnequalMeansPath(a: Json, b: Json) returns (p: Path)
    requires a != b
    ensures Differs(a, b, p)
    decreases a
  {
    p := [];
    if SameType(a, b) && a.JDict? {
      if k :| k in a.fields && k in b.fields && a.fields[k] != b.fields[k] {
        var rest := UnequalMeansPath(a.fields[k], b.fields[k]);
        p := [Key(k)] + rest;
      } else {
        assert a.fields.Keys != b.fields.Keys;
        var k :| k in a.fields.Keys + b.fields.Keys && (k !in a.fields.Keys || k !in b.fields.Keys);
        p := [Key(k)];
      }
    } else if SameType(a, b) && a.JList? {
      if i: nat :| i < |a.items| && i < |b.items| && a.items[i] != b.items[i] {
        var rest := UnequalMeansPath(a.items[i], b.items[i]);
        p := [Index(i)] + rest;
      } else {
        p := [Index(if |a.items| < |b.items| then |a.items| else |b.items|)];
      }
    }
  }

  lemma {:induction false} EqualMeansNoPath(a: Json, p: Path)
    ensures !Differs(a, a, p)
  {
    if p != [] && Child(a, p[0]).Some? {
      EqualMeansNoPath(Child(a, p[0]).value, p[1..]);
    }
  }

  /** The diff is empty exactly when the values are equal, types included. */
  lemma EmptyDiffMeansEqual(before: Json, after: Json)
    ensures Diff(before, after) == [] <==> before == after
  {
    if before == after && Diff(before, after) != [] {
      var p := Diff(before, after)[0];
      DiffMeansDiffers(before, after, p);
      EqualMeansNoPath(before, p);
    }
    if before != after {
      var p := UnequalMeansPath(before, after);
      DiffMeansDiffers(before, after, p);
    }
  }

  /** Both directions report the same paths in the same order. */
  lemma {:induction false} DiffIsSymmetric(before: Json, after: Json, prefix: Path)
    ensures ChangedPaths(before, after, prefix) == ChangedPaths(after, before, prefix)
    decreases before, 1, 0
  {
    if SameType(before, after) && before.JDict? {
      var keys := before.fields.Keys + after.fields.Keys;
      assert keys == after.fields.Keys + before.fields.Keys;
      DictPathsAreSymmetric(before, after, Sorted(keys), prefix);
    } else if SameType(before, after) && before.JList? {
      ListPathsAreSymmetric(before, after, 0, prefix);
    }
  }

  lemma {:induction false} DictPathsAreSymmetric(before: Json, after: Json, keys: seq<string>, prefix: Path)
    requires before.JDict? && after.JDict? && Elements(keys) <= before.fields.Keys + after.fields.Keys
    ensures DictPaths(before, after, keys, prefix) == DictPaths(after, before, keys, prefix)
    decreases before, 0, |keys|
  {
    if keys != [] {
      var k := keys[0];
      assert k in Elements(keys) && Elements(keys[1..]) <= Elements(keys);
      DictPathsAreSymmetric(before, after, keys[1..], prefix);
      if k in before.fields && k in after.fields {
        DiffIsSymmetric(before.fields[k], after.fields[k], prefix + [Key(k)]);
      }
    }
  }

  lemma {:induction false} ListPathsAreSymmetric(before: Json, after: Json, i: nat, prefix: Path)
    requires before.JList? && after.JList? && i <= Longer(|before.items|, |after.items|)
    ensures ListPaths(before, after, i, prefix) == ListPaths(after, before, i, prefix)
    decreases before, 0, Longer(|before.items|, |after.items|) - i
  {
    if i < Longer(|before.items|, |after.items|) {
      ListPathsAreSymmetric(before, after, i + 1, prefix);
      if i < |before.items| && i < |after.items| {
        DiffIsSymmetric(before.items[i], after.items[i], prefix + [Index(i)]);
      }
    }
  }

  lemma JoinDistinct(a: seq<Path>, b: seq<Path>)
    requires Distinct(a) && Distinct(b) && forall p :: p in a ==> p !in b
    ensures Distinct(a + b)
  {
    forall i, j | 0 <= i < j < |a + b|
      ensures (a + b)[i] != (a + b)[j]
    {
      if i < |a| <= j {
        assert a[i] in a && b[j - |a|] in b;
      }
    }
  }

  /** No path is reported twice. */
  lemma {:induction false} DiffHasNoRepeats(before: Json, after: Json, prefix: Path)
    ensures Distinct(ChangedPaths(before, after, prefix))
    decreases before, 1, 0
  {
    if SameType(before, after) && before.JDict? {
      DictPathsHaveNoRepeats(before, after, Sorted(before.fields.Keys + after.fields.Keys), prefix);
    } else if SameType(before, after) && before.JList? {
      ListPathsHaveNoRepeats(before, after, 0, prefix);
    }
  }

  /** The paths under one key, or the key itself where only one side has it. */
  ghost function KeyPaths(before: Json, after: Json, k: string, prefix: Path): seq<Path>
    requires before.JDict? && after.JDict?
  {
    if k !in before.fields || k !in after.fields then [prefix + [Key(k)]]
    else ChangedPaths(before.fields[k], after.fields[k], prefix + [Key(k)])
  }

  lemma KeyPathsGoVia(before: Json, after: Json, k: string, prefix: Path, p: Path)
    requires before.JDict? && after.JDict? && p in KeyPaths(before, after, k, prefix)
    ensures prefix + [Key(k)] <= p
  {
    if k in before.fields && k in after.fields {
      PathsMeanDiffers(before.fields[k], after.fields[k], prefix + [Key(k)], p);
    }
  }

  lemma {:induction false} DictPathsHaveNoRepeats(before: Json, after: Json, keys: seq<string>, prefix: Path)
    requires before.JDict? && after.JDict? && Distinct(keys)
    requires Elements(keys) <= before.fields.Keys + after.fields.Keys
    ensures Distinct(DictPaths(before, after, keys, prefix))
    decreases before, 0, |keys|
  {
    if keys != [] {
      var k, rest := keys[0], keys[1..];
      assert k in Elements(keys) && Elements(rest) <= Elements(keys) && k !in rest;
      DictPathsHaveNoRepeats(before, after, rest, prefix);
      if k in before.fields && k in after.fields {
        DiffHasNoRepeats(before.fields[k], after.fields[k], prefix + [Key(k)]);
      }
      forall p | p in KeyPaths(before, after, k, prefix)
        ensures p !in DictPaths(before, after, rest, prefix)
      {
        KeyPathsGoVia(before, after, k, prefix, p);
        DictPathsMeanDiffers(before, after, rest, prefix, p);
        assert p[|prefix|] == (prefix + [Key(k)])[|prefix|];
      }
      JoinDistinct(KeyPaths(before, after, k, prefix), DictPaths(before, after, rest, prefix));
    }
  }

  ghost function ItemPaths(before: Json, after: Json, i: nat, prefix: Path): seq<Path>
    requires before.JList? && after.JList?
  {
    if i >= |before.items| || i >= |after.items| then [prefix + [Index(i)]]
    else ChangedPaths(before.items[i], after.items[i], prefix + [Index(i)])
  }

  lemma ItemPathsGoVia(before: Json, after: Json, i: nat, prefix: Path, p: Path)
    requires before.JList? && after.JList? && p in ItemPaths(before, after, i, prefix)
    ensures prefix + [Index(i)] <= p
  {
    if i < |before.items| && i < |after.items| {
      PathsMeanDiffers(before.items[i], after.items[i], prefix + [Index(i)], p);
    }
  }

  lemma {:induction false} ListPathsHaveNoRepeats(before: Json, after: Json, i: nat, prefix: Path)
    requires before.JList? && after.JList? && i <= Longer(|before.items|, |after.items|)
    ensures Distinct(ListPaths(before, after, i, prefix))
    decreases before, 0, Longer(|before.items|, |after.items|) - i
  {
    if i < Longer(|before.items|, |after.items|) {
      ListPathsHaveNoRepeats(before, after, i + 1, prefix);
      if i < |before.items| && i < |after.items| {
        DiffHasNoRepeats(before.items[i], after.items[i], prefix + [Index(i)]);
      }
      forall p | p in ItemPaths(before, after, i, prefix)
        ensures p !in ListPaths(before, after, i + 1, prefix)
      {
        ItemPathsGoVia(before, after, i, prefix, p);
        ListPathsMeanDiffers(before, after, i + 1, prefix, p);
        assert p[|prefix|] == (prefix + [Index(i)])[|prefix|];
      }
      JoinDistinct(ItemPaths(before, after, i, prefix), ListPaths(before, after, i + 1, prefix));
    }
  }
}
