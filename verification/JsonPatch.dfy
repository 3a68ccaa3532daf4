/** Patching: the diff's paths, with the values found there, carry all that changed. */
module JsonPatch {
  import opened Common
  import opened JsonDiff

  /** What stands at each edited path afterwards; None where nothing does. */
  type Edits = map<Path, Option<Json>>

  /** Reads after only at the reported paths. */
  ghost function EditsOf(before: Json, after: Json): Edits {
    map p | p in Elements(Diff(before, after)) :: Lookup(after, p)
  }

  /** The edits below one step. */
  ghost function Below(edits: Edits, s: Step): Edits {
    map p | p in Tails(edits, s) :: edits[[s] + p]
  }

  ghost function Tails(edits: Edits, s: Step): (tails: set<Path>)
    ensures forall p :: p in tails <==> [s] + p in edits
  {
    var tails := set q: Path | q in edits && q != [] && q[0] == s :: q[1..];
    forall p
      ensures p in tails <==> [s] + p in edits
    {
      if [s] + p in edits {
        assert ([s] + p)[1..] == p;
      }
      if p in tails {
        var q :| q in edits && q != [] && q[0] == s && q[1..] == p;
        assert q == [s] + p;
      }
    }
    tails
  }

  /** Whether there is an entry under this step once the edits are made. */
  ghost predicate Present(before: Json, edits: Edits, s: Step) {
    if [s] in edits then edits[[s]].Some? else Child(before, s).Some?
  }

  ghost function Names(edits: Edits): set<string> {
    set p: Path | p in edits && |p| == 1 && p[0].Key? :: p[0].name
  }

  ghost function Positions(edits: Edits): set<nat> {
    set p: Path | p in edits && |p| == 1 && p[0].Index? :: p[0].at
  }

  /** One more than the largest member. */
  ghost function Bound(s: set<nat>): (n: nat)
    ensures forall x :: x in s ==> x < n
    ensures n > 0 ==> n - 1 in s
  {
    if s == {} then 0
    else
      var x: nat :| x in s;
      var rest := Bound(s - {x});
      assert forall y :: y in s ==> y == x || y in s - {x};
      if x < rest then rest else x + 1
  }

  /** The positions filled once the edits are made. */
  ghost function Filled(before: Json, edits: Edits): set<nat>
    requires before.JList?
  {
    set i: nat | i < |before.items| + Bound(Positions(edits)) && Present(before, edits, Index(i))
  }

  /** The names present once the edits are made. */
  ghost function FieldsAfter(before: Json, edits: Edits): set<string>
    requires before.JDict?
  {
    set k | k in before.fields.Keys + Names(edits) && Present(before, edits, Key(k))
  }

  /** Replaces, inserts and deletes at exactly the edited paths and keeps everything else. */
  ghost function Patch(before: Json, edits: Edits): Json
    decreases before, 1
  {
    if [] in edits then (if edits[[]].Some? then edits[[]].value else before)
    else match before
      case JDict(fields) => JDict(map k | k in FieldsAfter(before, edits) :: Entry(before, edits, Key(k)))
      case JList(items) => JList(seq(Bound(Filled(before, edits)), i requires 0 <= i => Entry(before, edits, Index(i))))
      case _ => before
  }

  /** The entry under one step: the edited value, or the old entry patched. */
  ghost function Entry(before: Json, edits: Edits, s: Step): Json
    decreases before, 0
  {
    if [s] in edits && edits[[s]].Some? then edits[[s]].value
    else match (before, s)
      case (JDict(fields), Key(k)) => if k in fields then Patch(fields[k], Below(edits, s)) else JNull
      case (JList(items), Index(i)) => if i < |items| then Patch(items[i], Below(edits, s)) else JNull
      case _ => JNull
  }

  lemma EditsMeanDiffers(before: Json, after: Json, p: Path)
    ensures p in EditsOf(before, after) <==> Differs(before, after, p)
  {
    DiffMeansDiffers(before, after, p);
  }

  lemma PresentMeansAfter(before: Json, after: Json, s: Step)
    requires SameType(before, after)
    ensures Present(before, EditsOf(before, after), s) <==> Child(after, s).Some?
    ensures [s] in EditsOf(before, after) ==> EditsOf(before, after)[[s]] == Child(after, s)
  {
    EditsMeanDiffers(before, after, [s]);
    assert [s][1..] == [];
    if Child(after, s).Some? {
      assert Lookup(Child(after, s).value, []) == Child(after, s);
    }
  }

  /** Below a shared entry the edits are those of the entries. */
  lemma BelowIsChildEdits(before: Json, after: Json, s: Step)
    requires SameType(before, after) && Child(before, s).Some? && Child(after, s).Some?
    ensures Below(EditsOf(before, after), s) == EditsOf(Child(before, s).value, Child(after, s).value)
  {
    var edits, c, d := EditsOf(before, after), Child(before, s).value, Child(after, s).value;
    forall p
      ensures p in Below(edits, s) <==> p in EditsOf(c, d)
      ensures p in Below(edits, s) ==> Below(edits, s)[p] == Lookup(d, p)
    {
      EditsMeanDiffers(before, after, [s] + p);
      EditsMeanDiffers(c, d, p);
      assert ([s] + p)[1..] == p;
    }
  }

  /** Round trip: editing before at exactly the reported paths gives after. */
  lemma {:induction false} PatchRestoresAfter(before: Json, after: Json)
    ensures Patch(before, EditsOf(before, after)) == after
    decreases before
  {
    EditsMeanDiffers(before, after, []);
    if SameType(before, after) && before.JDict? {
      PatchDict(before, after);
    } else if SameType(before, after) && before.JList? {
      PatchList(before, after);
    }
  }

  lemma {:induction false} PatchEntry(before: Json, after: Json, s: Step)
    requires SameType(before, after) && IsContainer(before) && Child(after, s).Some?
    ensures Entry(before, EditsOf(before, after), s) == Child(after, s).value
    decreases before, 0
  {
    PresentMeansAfter(before, after, s);
    if [s] !in EditsOf(before, after) {
      BelowIsChildEdits(before, after, s);
      PatchRestoresAfter(Child(before, s).value, Child(after, s).value);
    }
  }

  lemma FieldsAfterAreRight(before: Json, after: Json)
    requires before.JDict? && after.JDict?
    ensures FieldsAfter(before, EditsOf(before, after)) == after.fields.Keys
  {
    var edits := EditsOf(before, after);
    forall k
      ensures k in FieldsAfter(before, edits) <==> k in after.fields
    {
      PresentMeansAfter(before, after, Key(k));
      if k in after.fields && k !in before.fields {
        EditsMeanDiffers(before, after, [Key(k)]);
        assert k in Names(edits);
      }
    }
  }

  lemma {:induction false} PatchDict(before: Json, after: Json)
    requires before.JDict? && after.JDict?
    ensures Patch(before, EditsOf(before, after)) == after
    decreases before, 1
  {
    var edits := EditsOf(before, after);
    EditsMeanDiffers(before, after, []);
    FieldsAfterAreRight(before, after);
    forall k | k in after.fields
      ensures Entry(before, edits, Key(k)) == after.fields[k]
    {
      PatchEntry(before, after, Key(k));
    }
    assert Patch(before, edits).fields == after.fields;
  }

  lemma LengthAfterIsRight(before: Json, after: Json)
    requires before.JList? && after.JList?
    ensures Bound(Filled(before, EditsOf(before, after))) == |after.items|
  {
    var edits := EditsOf(before, after);
    var filled := Filled(before, edits);
    forall i: nat
      ensures i in filled <==> i < |after.items|
    {
      PresentMeansAfter(before, after, Index(i));
      if i < |after.items| && i >= |before.items| {
        EditsMeanDiffers(before, after, [Index(i)]);
        assert i in Positions(edits);
      }
    }
    if |after.items| > 0 {
      assert |after.items| - 1 in filled;
    }
  }

  lemma {:induction false} PatchList(before: Json, after: Json)
    requires before.JList? && after.JList?
    ensures Patch(before, EditsOf(before, after)) == after
    decreases before, 1
  {
    var edits := EditsOf(before, after);
    EditsMeanDiffers(before, after, []);
    LengthAfterIsRight(before, after);
    forall i | 0 <= i < |after.items|
      ensures Entry(before, edits, Index(i)) == after.items[i]
    {
      PatchEntry(before, after, Index(i));
    }
    assert Patch(before, edits).items == after.items;
  }
}
