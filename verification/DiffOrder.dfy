/** The order in which the diff reports its paths: by the first step at which two of them part, keys as strings and
    positions as numbers. */
module DiffOrder {
  import opened Common
  import opened Ordering
  import opened JsonDiff

  ghost predicate StepBefore(s: Step, t: Step) {
    match (s, t)
    case (Key(a), Key(b)) => ComesFirst(a, b)
    case (Index(m), Index(n)) => m < n
    case _ => false
  }

  ghost predicate PathBefore(p: Path, q: Path) {
    exists k :: 0 <= k < |p| && k < |q| && p[..k] == q[..k] && StepBefore(p[k], q[k])
  }

  ghost predicate InOrder(paths: seq<Path>) {
    forall i, j :: 0 <= i < j < |paths| ==> PathBefore(paths[i], paths[j])
  }

  lemma JoinInOrder(a: seq<Path>, b: seq<Path>)
    requires InOrder(a) && InOrder(b) && forall p, q :: p in a && q in b ==> PathBefore(p, q)
    ensures InOrder(a + b)
  {
    forall i, j | 0 <= i < j < |a + b| ensures PathBefore((a + b)[i], (a + b)[j]) {
      if i < |a| <= j {
        assert a[i] in a && b[j - |a|] in b;
      }
    }
  }

  lemma PartedAt(prefix: Path, s: Step, t: Step, p: Path, q: Path)
    requires prefix + [s] <= p && prefix + [t] <= q && StepBefore(s, t)
    ensures PathBefore(p, q)
  {
    assert (prefix + [s])[|prefix|] == p[|prefix|] && (prefix + [t])[|prefix|] == q[|prefix|];
    assert p[..|prefix|] == prefix == q[..|prefix|];
  }

  lemma PathsUnderKeys(before: Json, after: Json, keys: seq<string>, prefix: Path, p: Path) returns (k: string)
    requires before.JDict? && after.JDict? && Elements(keys) <= before.fields.Keys + after.fields.Keys
    requires p in DictPaths(before, after, keys, prefix)
    ensures k in keys && prefix + [Key(k)] <= p
  {
    DictPathsMeanDiffers(before, after, keys, prefix, p);
    k :| k in keys && ReportedVia(before, after, prefix, Key(k), p);
    assert prefix + [Key(k)] == p[..|prefix| + 1];
  }

  lemma PathsUnderPositions(before: Json, after: Json, i: nat, prefix: Path, p: Path) returns (j: nat)
    requires before.JList? && after.JList? && i <= Longer(|before.items|, |after.items|)
    requires p in ListPaths(before, after, i, prefix)
    ensures i <= j && prefix + [Index(j)] <= p
  {
    ListPathsMeanDiffers(before, after, i, prefix, p);
    j :| i <= j && ReportedVia(before, after, prefix, Index(j), p);
    assert prefix + [Index(j)] == p[..|prefix| + 1];
  }

  /** The paths are reported in that order. */
  lemma {:induction false} DiffIsInOrder(before: Json, after: Json, prefix: Path)
    ensures InOrder(ChangedPaths(before, after, prefix))
    decreases before, 1, 0
  {
    if SameType(before, after) && before.JDict? {
      DictPathsInOrder(before, after, Sorted(before.fields.Keys + after.fields.Keys), prefix);
    } else if SameType(before, after) && before.JList? {
      ListPathsInOrder(before, after, 0, prefix);
    }
  }

  lemma {:induction false} DictPathsInOrder(before: Json, after: Json, keys: seq<string>, prefix: Path)
    requires before.JDict? && after.JDict? && Elements(keys) <= before.fields.Keys + after.fields.Keys
    requires forall i, j :: 0 <= i < j < |keys| ==> Less(keys[i], keys[j])
    ensures InOrder(DictPaths(before, after, keys, prefix))
    decreases before, 0, |keys|
  {
    if keys != [] {
      var k, rest := keys[0], keys[1..];
      assert k in Elements(keys) && Elements(rest) <= Elements(keys);
      DictPathsInOrder(before, after, rest, prefix);
      if k in before.fields && k in after.fields {
        DiffIsInOrder(before.fields[k], after.fields[k], prefix + [Key(k)]);
      }
      var first, others := KeyPaths(before, after, k, prefix), DictPaths(before, after, rest, prefix);
      forall p, q | p in first && q in others ensures PathBefore(p, q) {
        KeyPathsGoVia(before, after, k, prefix, p);
        var l := PathsUnderKeys(before, after, rest, prefix, q);
        LessIsLexicographic(k, l);
        PartedAt(prefix, Key(k), Key(l), p, q);
      }
      JoinInOrder(first, others);
    }
  }

  lemma {:induction false} ListPathsInOrder(before: Json, after: Json, i: nat, prefix: Path)
    requires before.JList? && after.JList? && i <= Longer(|before.items|, |after.items|)
    ensures InOrder(ListPaths(before, after, i, prefix))
    decreases before, 0, Longer(|before.items|, |after.items|) - i
  {
    if i < Longer(|before.items|, |after.items|) {
      ListPathsInOrder(before, after, i + 1, prefix);
      var both := i < |before.items| && i < |after.items|;
      if both {
        DiffIsInOrder(before.items[i], after.items[i], prefix + [Index(i)]);
      }
      var first := if both then ChangedPaths(before.items[i], after.items[i], prefix + [Index(i)])
                   else [prefix + [Index(i)]];
      var others := ListPaths(before, after, i + 1, prefix);
      forall p, q | p in first && q in others ensures PathBefore(p, q) {
        if both {
          PathsMeanDiffers(before.items[i], after.items[i], prefix + [Index(i)], p);
        }
        var j := PathsUnderPositions(before, after, i + 1, prefix, q);
        PartedAt(prefix, Index(i), Index(j), p, q);
      }
      JoinInOrder(first, others);
    }
  }
}
