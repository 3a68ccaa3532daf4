/** The diff's paths as the strings the source reports, and when those strings can be told apart. */
module DiffText {
  import opened Common
  import opened JsonDiff

  // ----- Rendering -----

  function Digit(d: nat): char
    requires d < 10
  {
    "0123456789"[d]
  }

  function Decimal(n: nat): string {
    if n < 10 then [Digit(n)] else Decimal(n / 10) + [Digit(n % 10)]
  }

  function StepText(s: Step): string {
    match s
    case Key(name) => "." + name
    case Index(at) => "[" + Decimal(at) + "]"
  }

  function StepsText(p: Path): string {
    if p == [] then "" else StepsText(p[..|p| - 1]) + StepText(p[|p| - 1])
  }

  function Text(p: Path): string {
    "$" + StepsText(p)
  }

  function Texts(paths: seq<Path>): (texts: seq<string>)
    ensures |texts| == |paths| && forall i :: 0 <= i < |paths| ==> texts[i] == Text(paths[i])
  {
    seq(|paths|, i requires 0 <= i < |paths| => Text(paths[i]))
  }

  // ----- The recursion with string prefixes -----

  ghost function ChangedTexts(before: Json, after: Json, prefix: string): seq<string>
    decreases before, 1, 0
  {
    if !SameType(before, after) then [prefix]
    else if before.JDict? then
      DictTexts(before, after, Sorted(before.fields.Keys + after.fields.Keys), prefix)
    else if before.JList? then
      ListTexts(before, after, 0, prefix)
    else if before == after then []
    else [prefix]
  }

  ghost function DictTexts(before: Json, after: Json, keys: seq<string>, prefix: string): seq<string>
    requires before.JDict? && after.JDict?
    requires Elements(keys) <= before.fields.Keys + after.fields.Keys
    decreases before, 0, |keys|
  {
    if keys == [] then []
    else
      var k := keys[0];
      assert k in Elements(keys) && Elements(keys[1..]) <= Elements(keys);
      (if k !in before.fields || k !in after.fields then [prefix + StepText(Key(k))]
       else ChangedTexts(before.fields[k], after.fields[k], prefix + StepText(Key(k))))
      + DictTexts(before, after, keys[1..], prefix)
  }

  ghost function ListTexts(before: Json, after: Json, i: nat, prefix: string): seq<string>
    requires before.JList? && after.JList?
    requires i <= Longer(|before.items|, |after.items|)
    decreases before, 0, Longer(|before.items|, |after.items|) - i
  {
    if i == Longer(|before.items|, |after.items|) then []
    else
      (if i >= |before.items| || i >= |after.items| then [prefix + StepText(Index(i))]
       else ChangedTexts(before.items[i], after.items[i], prefix + StepText(Index(i))))
      + ListTexts(before, after, i + 1, prefix)
  }

  lemma TextOfLonger(p: Path, s: Step)
    ensures Text(p + [s]) == Text(p) + StepText(s)
  {
    assert (p + [s])[..|p|] == p;
  }

  lemma TextsJoin(a: seq<Path>, b: seq<Path>)
    ensures Texts(a + b) == Texts(a) + Texts(b)
  {
  }

  lemma TextOfOne(p: Path)
    ensures Texts([p]) == [Text(p)]
  {
  }

  /** The reported strings are the texts of the structural paths, in the same order. */
  lemma {:induction false} TextsFollowPaths(before: Json, after: Json, prefix: Path)
    ensures ChangedTexts(before, after, Text(prefix)) == Texts(ChangedPaths(before, after, prefix))
    decreases before, 1, 0
  {
    if SameType(before, after) && before.JDict? {
      DictTextsFollow(before, after, Sorted(before.fields.Keys + after.fields.Keys), prefix);
    } else if SameType(before, after) && before.JList? {
      ListTextsFollow(before, after, 0, prefix);
    }
  }

  lemma {:induction false} DictTextsFollow(before: Json, after: Json, keys: seq<string>, prefix: Path)
    requires before.JDict? && after.JDict?
    requires Elements(keys) <= before.fields.Keys + after.fields.Keys
    ensures DictTexts(before, after, keys, Text(prefix)) == Texts(DictPaths(before, after, keys, prefix))
    decreases before, 0, |keys|
  {
    if keys != [] {
      var k := keys[0];
      assert k in Elements(keys) && Elements(keys[1..]) <= Elements(keys);
      TextOfLonger(prefix, Key(k));
      if k in before.fields && k in after.fields {
        TextsFollowPaths(before.fields[k], after.fields[k], prefix + [Key(k)]);
      }
      DictTextsFollow(before, after, keys[1..], prefix);
      var first := if k !in before.fields || k !in after.fields then [prefix + [Key(k)]]
                   else ChangedPaths(before.fields[k], after.fields[k], prefix + [Key(k)]);
      TextOfOne(prefix + [Key(k)]);
      assert DictPaths(before, after, keys, prefix) == first + DictPaths(before, after, keys[1..], prefix);
      TextsJoin(first, DictPaths(before, after, keys[1..], prefix));
    }
  }

  lemma {:induction false} ListTextsFollow(before: Json, after: Json, i: nat, prefix: Path)
    requires before.JList? && after.JList? && i <= Longer(|before.items|, |after.items|)
    ensures ListTexts(before, after, i, Text(prefix)) == Texts(ListPaths(before, after, i, prefix))
    decreases before, 0, Longer(|before.items|, |after.items|) - i
  {
    if i < Longer(|before.items|, |after.items|) {
      TextOfLonger(prefix, Index(i));
      if i < |before.items| && i < |after.items| {
        TextsFollowPaths(before.items[i], after.items[i], prefix + [Index(i)]);
      }
      ListTextsFollow(before, after, i + 1, prefix);
      var first := if i >= |before.items| || i >= |after.items| then [prefix + [Index(i)]]
                   else ChangedPaths(before.items[i], after.items[i], prefix + [Index(i)]);
      TextOfOne(prefix + [Index(i)]);
      assert ListPaths(before, after, i, prefix) == first + ListPaths(before, after, i + 1, prefix);
      TextsJoin(first, ListPaths(before, after, i + 1, prefix));
    }
  }

  // ----- Reading a text back -----

  ghost predicate EndsInIndex(key: string) {
    exists u, n :: key == u + StepText(Index(n))
  }

  /** A key with no dot that does not end like a list position. */
  ghost predicate ClearKey(key: string) {
    '.' !in key && !EndsInIndex(key)
  }

  ghost predicate ClearPath(p: Path) {
    forall i :: 0 <= i < |p| && p[i].Key? ==> ClearKey(p[i].name)
  }

  lemma {:induction false} DecimalIsDigits(n: nat)
    ensures Decimal(n) != "" && '.' !in Decimal(n) && '[' !in Decimal(n)
  {
    if n >= 10 {
      DecimalIsDigits(n / 10);
    }
  }

  lemma {:induction false} DecimalIsInjective(m: nat, n: nat)
    requires Decimal(m) == Decimal(n)
    ensures m == n
  {
    var s, t := Decimal(m), Decimal(n);
    assert s[|s| - 1] == Digit(m % 10) && t[|t| - 1] == Digit(n % 10);
    if m < 10 || n < 10 {
      DecimalIsDigits(m / 10);
      DecimalIsDigits(n / 10);
    } else {
      assert s[..|s| - 1] == Decimal(m / 10) && t[..|t| - 1] == Decimal(n / 10);
      DecimalIsInjective(m / 10, n / 10);
    }
  }

  /** The number a string of digits stands for. */
  function ValueOf(digits: string): int {
    if digits == "" then 0
    else ValueOf(digits[..|digits| - 1]) * 10 + (digits[|digits| - 1] as int - '0' as int)
  }

  lemma ValueByLast(init: string, last: char)
    ensures ValueOf(init + [last]) == ValueOf(init) * 10 + (last as int - '0' as int)
  {
    assert (init + [last])[..|init + [last]| - 1] == init;
  }

  lemma DigitIsValue(d: nat)
    requires d < 10
    ensures '0' <= Digit(d) <= '9' && Digit(d) as int - '0' as int == d && (d > 0 ==> Digit(d) != '0')
  {
  }

  lemma {:induction false} DecimalHasValue(n: nat)
    ensures ValueOf(Decimal(n)) == n
  {
    DigitIsValue(n % 10);
    if n >= 10 {
      DecimalHasValue(n / 10);
      ValueByLast(Decimal(n / 10), Digit(n % 10));
    } else {
      ValueByLast("", Digit(n));
      assert "" + [Digit(n)] == [Digit(n)];
    }
  }

  lemma {:induction false} DecimalIsWrittenInDigits(n: nat)
    ensures Decimal(n) != "" && forall i :: 0 <= i < |Decimal(n)| ==> '0' <= Decimal(n)[i] <= '9'
    ensures n > 0 ==> Decimal(n)[0] != '0'
  {
    DigitIsValue(n % 10);
    if n >= 10 {
      DecimalIsWrittenInDigits(n / 10);
    }
  }

  /** A position is written in decimal, without a leading zero. */
  lemma DecimalStandsForNumber(n: nat)
    ensures ValueOf(Decimal(n)) == n && forall i :: 0 <= i < |Decimal(n)| ==> '0' <= Decimal(n)[i] <= '9'
    ensures Decimal(n) != "" && (n > 0 ==> Decimal(n)[0] != '0')
  {
    DecimalHasValue(n);
    DecimalIsWrittenInDigits(n);
  }

  /** How the strings are put together. */
  lemma TextIsSpelled(p: Path)
    ensures Text([]) == "$"
    ensures forall k :: Text(p + [Key(k)]) == Text(p) + "." + k
    ensures forall n: nat :: Text(p + [Index(n)]) == Text(p) + "[" + Decimal(n) + "]"
  {
    forall k ensures Text(p + [Key(k)]) == Text(p) + "." + k {
      TextOfLonger(p, Key(k));
      Reassociate(Text(p), ".", k);
    }
    forall n: nat ensures Text(p + [Index(n)]) == Text(p) + "[" + Decimal(n) + "]" {
      TextOfLonger(p, Index(n));
      Reassociate(Text(p), "[", Decimal(n));
      Reassociate(Text(p), "[" + Decimal(n), "]");
    }
  }

  lemma NoneLater(head: string, tail: string, c: char)
    requires c !in tail
    ensures forall j :: |head| < j < |head + [c] + tail| ==> (head + [c] + tail)[j] != c
  {
    forall j | |head| < j < |head + [c] + tail| ensures (head + [c] + tail)[j] != c {
      assert (head + [c] + tail)[j] == tail[j - |head| - 1];
    }
  }

  /** Two ways to split a text at the last occurrence of a character agree. */
  lemma SameSplit(head: string, tail: string, otherHead: string, otherTail: string, c: char)
    requires head + [c] + tail == otherHead + [c] + otherTail && c !in tail && c !in otherTail
    ensures head == otherHead && tail == otherTail
  {
    var whole := head + [c] + tail;
    NoneLater(head, tail, c);
    NoneLater(otherHead, otherTail, c);
    assert whole[|head|] == c && whole[|otherHead|] == c;
    assert tail == whole[|head| + 1..] && otherTail == whole[|otherHead| + 1..];
    assert head == whole[..|head|] && otherHead == whole[..|otherHead|];
  }

  lemma TextOfLast(p: Path)
    requires p != []
    ensures StepsText(p) == StepsText(p[..|p| - 1]) + StepText(p[|p| - 1]) && StepText(p[|p| - 1]) != ""
  {
  }

  lemma IndexEnding(u: string, n: nat)
    ensures EndsInIndex(u + StepText(Index(n)))
  {
  }

  lemma IndexTextHasNoDot(n: nat)
    ensures '.' !in StepText(Index(n))
  {
    DecimalIsDigits(n);
  }

  lemma DotIsBefore(a: string, b: string)
    requires '.' in a + b && '.' !in b
    ensures '.' in a
  {
  }

  lemma LongerTail(head: string, tail: string, more: string)
    requires '.' !in tail && '.' !in more
    ensures head + "." + tail + more == head + "." + (tail + more) && '.' !in tail + more
  {
  }

  lemma OnlyEmptyHasNoText(p: Path)
    ensures StepsText(p) == "" <==> p == []
  {
    if p != [] {
      TextOfLast(p);
    }
  }

  /** What follows the last dot of a clear path's text: the last key with the positions behind it. */
  lemma {:induction false} AfterLastDot(q: Path) returns (head: string, tail: string)
    requires ClearPath(q) && '.' in StepsText(q)
    ensures StepsText(q) == head + "." + tail && '.' !in tail
    ensures q[|q| - 1].Index? ==> EndsInIndex(tail)
  {
    var init, last := q[..|q| - 1], q[|q| - 1];
    match last {
      case Key(name) =>
        head, tail := StepsText(init), name;
        assert head + StepText(last) == head + "." + tail;
      case Index(at) =>
        IndexTextHasNoDot(at);
        DotIsBefore(StepsText(init), StepText(last));
        var t;
        head, t := AfterLastDot(init);
        tail := t + StepText(last);
        IndexEnding(t, at);
        LongerTail(head, t, StepText(last));
    }
  }

  /** A path that ends in a clear key and one that ends in a position have different texts. */
  lemma KeyIsNotIndex(p: Path, q: Path)
    requires ClearPath(p) && ClearPath(q) && p != [] && q != []
    requires p[|p| - 1].Key? && q[|q| - 1].Index?
    ensures StepsText(p) != StepsText(q)
  {
    var m := |p| - 1;
    var head, key := StepsText(p[..m]), p[m].name;
    assert StepsText(p) == head + "." + key;
    assert StepsText(p)[|head|] == '.';
    assert ClearKey(key);
    if StepsText(p) == StepsText(q) {
      var otherHead, tail := AfterLastDot(q);
      SameSplit(head, key, otherHead, tail, '.');
    }
  }

  lemma KeyTextSplits(a: string, name: string)
    ensures a + StepText(Key(name)) == a + "." + name
  {
  }

  lemma SameLastKey(p: Path, q: Path)
    requires ClearPath(p) && ClearPath(q) && p != [] && q != [] && StepsText(p) == StepsText(q)
    requires p[|p| - 1].Key? && q[|q| - 1].Key?
    ensures p[|p| - 1] == q[|q| - 1] && StepsText(p[..|p| - 1]) == StepsText(q[..|q| - 1])
  {
    var m, n := |p| - 1, |q| - 1;
    var a, b := StepsText(p[..m]), StepsText(q[..n]);
    assert ClearKey(p[m].name) && ClearKey(q[n].name);
    KeyTextSplits(a, p[m].name);
    KeyTextSplits(b, q[n].name);
    SameSplit(a, p[m].name, b, q[n].name, '.');
  }

  lemma IndexTextSplits(a: string, n: nat)
    ensures a + StepText(Index(n)) == a + "[" + (Decimal(n) + "]") && '[' !in Decimal(n) + "]"
  {
    DecimalIsDigits(n);
  }

  lemma SameBeforeBracket(s: string, t: string)
    requires s + "]" == t + "]"
    ensures s == t
  {
    assert s == (s + "]")[..|s + "]"| - 1] && t == (t + "]")[..|t + "]"| - 1];
  }

  lemma SameIndexText(a: string, m: nat, b: string, n: nat)
    requires a + StepText(Index(m)) == b + StepText(Index(n))
    ensures a == b && m == n
  {
    IndexTextSplits(a, m);
    IndexTextSplits(b, n);
    SameSplit(a, Decimal(m) + "]", b, Decimal(n) + "]", '[');
    SameBeforeBracket(Decimal(m), Decimal(n));
    DecimalIsInjective(m, n);
  }

  lemma SameLastIndex(p: Path, q: Path)
    requires p != [] && q != [] && StepsText(p) == StepsText(q)
    requires p[|p| - 1].Index? && q[|q| - 1].Index?
    ensures p[|p| - 1] == q[|q| - 1] && StepsText(p[..|p| - 1]) == StepsText(q[..|q| - 1])
  {
    var m, n := |p| - 1, |q| - 1;
    SameIndexText(StepsText(p[..m]), p[m].at, StepsText(q[..n]), q[n].at);
  }

  lemma SameLastStep(p: Path, q: Path)
    requires ClearPath(p) && ClearPath(q) && p != [] && q != [] && StepsText(p) == StepsText(q)
    ensures p[|p| - 1] == q[|q| - 1] && StepsText(p[..|p| - 1]) == StepsText(q[..|q| - 1])
  {
    match (p[|p| - 1], q[|q| - 1]) {
      case (Key(_), Key(_)) => SameLastKey(p, q);
      case (Index(_), Index(_)) => SameLastIndex(p, q);
      case (Key(_), Index(_)) => KeyIsNotIndex(p, q);
      case (Index(_), Key(_)) => KeyIsNotIndex(q, p);
    }
  }

  lemma ClearPrefix(p: Path)
    requires ClearPath(p) && p != []
    ensures ClearPath(p[..|p| - 1])
  {
  }

  lemma SameByLast(p: Path, q: Path)
    requires p != [] && q != [] && p[|p| - 1] == q[|q| - 1] && p[..|p| - 1] == q[..|q| - 1]
    ensures p == q
  {
    assert p == p[..|p| - 1] + [p[|p| - 1]] && q == q[..|q| - 1] + [q[|q| - 1]];
  }

  /** Paths over clear keys are determined by their text. */
  lemma {:induction false} ClearTextsAreReadable(p: Path, q: Path)
    requires ClearPath(p) && ClearPath(q) && StepsText(p) == StepsText(q)
    ensures p == q
    decreases |p|
  {
    OnlyEmptyHasNoText(p);
    OnlyEmptyHasNoText(q);
    if p != [] && q != [] {
      SameLastStep(p, q);
      ClearPrefix(p);
      ClearPrefix(q);
      ClearTextsAreReadable(p[..|p| - 1], q[..|q| - 1]);
      SameByLast(p, q);
    }
  }

  // ----- Which keys are ambiguous -----

  lemma TextOfKey(key: string)
    ensures StepsText([Key(key)]) == "." + key
  {
    assert [Key(key)][..0] == [];
  }

  lemma TextOfTwo(s: Step, t: Step)
    ensures StepsText([s, t]) == StepText(s) + StepText(t)
  {
    assert [s, t][..1] == [s] && [s][..0] == [];
    assert StepsText([s]) == "" + StepText(s) == StepText(s);
  }

  lemma Reassociate(a: string, b: string, c: string)
    ensures (a + b) + c == a + (b + c)
  {
  }

  lemma SplitKeyIsRead(key: string, u: string, s: Step)
    requires key == u + StepText(s)
    ensures StepsText([Key(u), s]) == StepsText([Key(key)])
  {
    TextOfKey(key);
    TextOfTwo(Key(u), s);
    Reassociate(".", u, StepText(s));
  }

  lemma SplitAtDot(key: string) returns (u: string, rest: string)
    requires '.' in key
    ensures key == u + StepText(Key(rest))
  {
    var i :| 0 <= i < |key| && key[i] == '.';
    u, rest := key[..i], key[i + 1..];
  }

  /** A second reading of an ambiguous key: a key and one more step. */
  lemma SecondReading(key: string) returns (u: string, s: Step)
    requires !ClearKey(key)
    ensures StepsText([Key(u), s]) == StepsText([Key(key)]) && |u| < |key|
  {
    if '.' in key {
      var rest;
      u, rest := SplitAtDot(key);
      s := Key(rest);
    } else {
      var v, n :| key == v + StepText(Index(n));
      u, s := v, Index(n);
    }
    SplitKeyIsRead(key, u, s);
  }

  lemma StartsWith(head: string, tail: string)
    requires tail != ""
    ensures (head + tail)[0] == if |head| == 0 then tail[0] else head[0]
  {
  }

  lemma ReadingEndsInKey(key: string, head: string, n: nat)
    requires "." + key == head + StepText(Index(n))
    ensures EndsInIndex(key)
  {
    var text, tail := "." + key, StepText(Index(n));
    assert text[0] == '.' && tail[0] == '[';
    StartsWith(head, tail);
    assert key == text[1..] && text[1..] == head[1..] + tail;
    IndexEnding(head[1..], n);
  }

  lemma ReadingStartsWithKey(key: string, head: string, name: string)
    requires "." + key == head + "." + name && '.' !in key
    ensures head == "" && name == key
  {
    var text := "." + key;
    forall i | 0 < i < |text| ensures text[i] != '.' {
      assert text[i] == key[i - 1];
    }
    assert text[|head|] == '.';
    assert text[1..] == key && text[|head| + 1..] == name;
  }

  lemma ClearKeyHasOneReading(key: string, q: Path)
    requires ClearKey(key) && StepsText(q) == StepsText([Key(key)])
    ensures q == [Key(key)]
  {
    TextOfKey(key);
    var n := |q| - 1;
    var head := StepsText(q[..n]);
    if q[n].Index? {
      ReadingEndsInKey(key, head, q[n].at);
    } else {
      assert head + StepText(q[n]) == head + "." + q[n].name;
      ReadingStartsWithKey(key, head, q[n].name);
      OnlyEmptyHasNoText(q[..n]);
    }
  }

  /** A key can be told apart from every other path exactly when it is clear: it holds no dot and
      does not end like a list position. */
  lemma KeyIsClearExactly(key: string)
    ensures ClearKey(key) <==> forall q :: StepsText(q) == StepsText([Key(key)]) ==> q == [Key(key)]
  {
    if ClearKey(key) {
      forall q | StepsText(q) == StepsText([Key(key)]) ensures q == [Key(key)] {
        ClearKeyHasOneReading(key, q);
      }
    } else {
      var u, s := SecondReading(key);
      assert |[Key(u), s]| != |[Key(key)]|;
    }
  }

  // ----- Trees -----

  ghost predicate ClearTree(j: Json) {
    match j
    case JList(items) => forall i :: 0 <= i < |items| ==> ClearTree(items[i])
    case JDict(fields) => forall k :: k in fields ==> ClearKey(k) && ClearTree(fields[k])
    case _ => true
  }

  lemma {:induction false} ReportedPathsAreClear(a: Json, b: Json, p: Path)
    requires ClearTree(a) && ClearTree(b) && Differs(a, b, p)
    ensures ClearPath(p)
    decreases |p|
  {
    if p != [] {
      var s, rest := p[0], p[1..];
      assert s.Key? ==> ClearKey(s.name);
      if Child(a, s).Some? && Child(b, s).Some? {
        ReportedPathsAreClear(Child(a, s).value, Child(b, s).value, rest);
      }
      forall i | 0 <= i < |p| && p[i].Key? ensures ClearKey(p[i].name) {
        if i > 0 {
          assert p[i] == rest[i - 1];
        }
      }
    }
  }

  /** For trees over clear keys the reported strings are all different, and each stands for one path. */
  lemma ClearDiffIsReadable(before: Json, after: Json)
    requires ClearTree(before) && ClearTree(after)
    ensures Distinct(ChangedTexts(before, after, "$"))
    ensures forall p, q :: p in Diff(before, after) && q in Diff(before, after) && Text(p) == Text(q) ==> p == q
  {
    var paths := Diff(before, after);
    TextsFollowPaths(before, after, []);
    assert Text([]) == "$";
    DiffHasNoRepeats(before, after, []);
    forall p, q | p in paths && q in paths && Text(p) == Text(q) ensures p == q {
      DiffMeansDiffers(before, after, p);
      DiffMeansDiffers(before, after, q);
      ReportedPathsAreClear(before, after, p);
      ReportedPathsAreClear(before, after, q);
      assert Text(p)[1..] == StepsText(p) && Text(q)[1..] == StepsText(q);
      ClearTextsAreReadable(p, q);
    }
    var texts := Texts(paths);
    forall i, j | 0 <= i < j < |texts| ensures texts[i] != texts[j] {
      assert paths[i] in paths && paths[j] in paths && paths[i] != paths[j];
    }
  }

  lemma SameTextTwice(before: Json, after: Json, p: Path, q: Path)
    requires Differs(before, after, p) && Differs(before, after, q) && p != q && StepsText(p) == StepsText(q)
    ensures !Distinct(ChangedTexts(before, after, "$"))
  {
    var paths := Diff(before, after);
    DiffMeansDiffers(before, after, p);
    DiffMeansDiffers(before, after, q);
    TextsFollowPaths(before, after, []);
    assert Text([]) == "$" && Text(p) == Text(q);
    var i :| 0 <= i < |paths| && paths[i] == p;
    var j :| 0 <= j < |paths| && paths[j] == q;
    assert Texts(paths)[i] == Texts(paths)[j] && i != j;
  }

  /** A container with the given value at the step. */
  function Inside(s: Step, n: int): Json {
    match s
    case Key(name) => JDict(map[name := JInt(n)])
    case Index(at) => JList(seq(at + 1, _ => JInt(n)))
  }

  /** The number once under the key and once under the other reading of its text. */
  function Twofold(key: string, u: string, s: Step, n: int): Json {
    JDict(map[key := JInt(n), u := Inside(s, n)])
  }

  lemma TwofoldDiffers(key: string, u: string, s: Step)
    requires u != key
    ensures Differs(Twofold(key, u, s, 1), Twofold(key, u, s, 2), [Key(key)])
    ensures Differs(Twofold(key, u, s, 1), Twofold(key, u, s, 2), [Key(u), s])
  {
    var a, b := Twofold(key, u, s, 1), Twofold(key, u, s, 2);
    var p, q: Path := [Key(key)], [Key(u), s];
    assert p[1..] == [] && q[1..] == [s] && [s][1..] == [];
    assert Child(a, p[0]) == Some(JInt(1)) && Child(b, p[0]) == Some(JInt(2));
    assert Child(a, q[0]) == Some(Inside(s, 1)) && Child(b, q[0]) == Some(Inside(s, 2));
    assert Child(Inside(s, 1), s) == Some(JInt(1)) && Child(Inside(s, 2), s) == Some(JInt(2));
    assert Differs(Inside(s, 1), Inside(s, 2), q[1..]);
  }

  /** Every key that is not clear occurs in a pair of trees with two changes reported under one string. */
  lemma AmbiguousKeyCollides(key: string) returns (before: Json, after: Json)
    requires !ClearKey(key)
    ensures before.JDict? && after.JDict? && key in before.fields && key in after.fields
    ensures !Distinct(ChangedTexts(before, after, "$"))
  {
    var u, s := SecondReading(key);
    before, after := Twofold(key, u, s, 1), Twofold(key, u, s, 2);
    TwofoldDiffers(key, u, s);
    SameTextTwice(before, after, [Key(key)], [Key(u), s]);
  }
}
