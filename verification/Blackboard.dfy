/** MemoryBlackboard: versioned artifacts under optimistic concurrency control, and their lineage. */
module Blackboard {
  import opened Common
  import opened Graphs

  datatype ArtifactRecord = ArtifactRecord(
    artifactId: Id, runId: Id, taskId: Id, artifactType: string, version: int,
    parentIds: seq<Id>, contentHash: string, payload: string)

  datatype ArtifactRef = ArtifactRef(artifactId: Id, runId: Id, artifactType: string, version: int, contentHash: string)

  /** The logical name of an artifact: run, task and type. */
  datatype HeadKey = HeadKey(runId: Id, taskId: Id, artifactType: string)

  datatype BoardError = VersionConflict | IdExists | ParentMissing(parentId: Id) | CrossesRuns

  /** The three dictionaries; order lists the artifact ids as they were inserted. */
  datatype Board = Board(
    records: map<Id, ArtifactRecord>, order: seq<Id>, logical: map<(HeadKey, int), Id>, heads: map<HeadKey, int>)

  const EMPTY := Board(map[], [], map[], map[])

  function KeyOf(a: ArtifactRecord): HeadKey {
    HeadKey(a.runId, a.taskId, a.artifactType)
  }

  function ToRef(a: ArtifactRecord): ArtifactRef {
    ArtifactRef(a.artifactId, a.runId, a.artifactType, a.version, a.contentHash)
  }

  function Head(b: Board, key: HeadKey): int {
    if key in b.heads then b.heads[key] else 0
  }

  /** The error of the first parent that is unknown or belongs to another run. */
  function ParentFault(records: map<Id, ArtifactRecord>, runId: Id, parents: seq<Id>): Option<BoardError> {
    if parents == [] then None
    else if parents[0] !in records then Some(ParentMissing(parents[0]))
    else if records[parents[0]].runId != runId then Some(CrossesRuns)
    else ParentFault(records, runId, parents[1..])
  }

  /** The optimistic write, as a function of the board. */
  function Write(b: Board, a: ArtifactRecord, expected: int): Result<Board, BoardError> {
    var current := Head(b, KeyOf(a));
    if expected != current || a.version != current + 1 then Err(VersionConflict)
    else if a.artifactId in b.records then Err(IdExists)
    else match ParentFault(b.records, a.runId, a.parentIds)
      case Some(e) => Err(e)
      case None => Ok(Board(
        b.records[a.artifactId := a], b.order + [a.artifactId],
        b.logical[(KeyOf(a), a.version) := a.artifactId], b.heads[KeyOf(a) := a.version]))
  }

  function Get(b: Board, key: HeadKey, version: int): Option<ArtifactRecord> {
    if (key, version) in b.logical && b.logical[(key, version)] in b.records
    then Some(b.records[b.logical[(key, version)]]) else None
  }

  function Latest(b: Board, key: HeadKey): Option<ArtifactRecord> {
    if key in b.heads then Get(b, key, b.heads[key]) else None
  }

  // ----- What every board keeps -----

  ghost predicate Indexed(b: Board) {
    && Distinct(b.order) && Elements(b.order) == b.records.Keys
  }

  /** Versions stored under a key are exactly 1 to its head, and the logical index and the
      records point at each other. */
  ghost predicate IndicesAgree(b: Board) {
    && (forall k :: k in b.heads ==> b.heads[k] >= 1)
    && (forall k, v :: (k, v) in b.logical <==> 1 <= v <= Head(b, k))
    && (forall k, v :: (k, v) in b.logical ==>
          var id := b.logical[(k, v)]; id in b.records && KeyOf(b.records[id]) == k && b.records[id].version == v)
    && (forall id :: id in b.records ==>
          var a := b.records[id];
          a.artifactId == id && (KeyOf(a), a.version) in b.logical && b.logical[(KeyOf(a), a.version)] == id)
  }

  /** Parents were inserted before their children and belong to the same run. */
  ghost predicate ParentsFirst(b: Board) {
    forall i, p :: 0 <= i < |b.order| && b.order[i] in b.records && p in b.records[b.order[i]].parentIds ==>
      p in b.order[..i] && p in b.records && b.records[p].runId == b.records[b.order[i]].runId
  }

  ghost predicate Valid(b: Board) {
    Indexed(b) && IndicesAgree(b) && ParentsFirst(b)
  }

  lemma {:induction false} NoParentFault(records: map<Id, ArtifactRecord>, runId: Id, parents: seq<Id>)
    ensures ParentFault(records, runId, parents).None?
            <==> forall p :: p in parents ==> p in records && records[p].runId == runId
  {
    if parents != [] {
      NoParentFault(records, runId, parents[1..]);
      assert parents == [parents[0]] + parents[1..];
    }
  }

  lemma WriteKeepsIndices(b: Board, a: ArtifactRecord, expected: int)
    requires Indexed(b) && IndicesAgree(b) && Write(b, a, expected).Ok?
    ensures IndicesAgree(Write(b, a, expected).value)
  {
  }

  lemma WriteKeepsIndexed(b: Board, a: ArtifactRecord, expected: int)
    requires Indexed(b) && Write(b, a, expected).Ok?
    ensures var b' := Write(b, a, expected).value;
            && Indexed(b') && b'.order == b.order + [a.artifactId] && b'.records == b.records[a.artifactId := a]
            && a.artifactId !in b.records
    ensures forall p :: p in a.parentIds ==> p in b.records && b.records[p].runId == a.runId
  {
    NoParentFault(b.records, a.runId, a.parentIds);
    ElementsByLast(b.order, a.artifactId);
  }

  lemma ParentsStayFirst(b: Board, b': Board, a: ArtifactRecord)
    requires Indexed(b) && ParentsFirst(b) && a.artifactId !in b.records
    requires b'.order == b.order + [a.artifactId] && b'.records == b.records[a.artifactId := a]
    requires forall p :: p in a.parentIds ==> p in b.records && b.records[p].runId == a.runId
    ensures ParentsFirst(b')
  {
    forall i, p | 0 <= i < |b'.order| && b'.order[i] in b'.records && p in b'.records[b'.order[i]].parentIds
      ensures p in b'.order[..i] && p in b'.records && b'.records[p].runId == b'.records[b'.order[i]].runId
    {
      if i < |b.order| {
        assert b'.order[..i] == b.order[..i];
        assert b.order[i] in Elements(b.order);
      } else {
        assert b'.order[..i] == b.order;
        assert p in Elements(b.order);
      }
    }
  }

  lemma WriteKeepsOrder(b: Board, a: ArtifactRecord, expected: int)
    requires Indexed(b) && ParentsFirst(b) && Write(b, a, expected).Ok?
    ensures Indexed(Write(b, a, expected).value) && ParentsFirst(Write(b, a, expected).value)
  {
    WriteKeepsIndexed(b, a, expected);
    ParentsStayFirst(b, Write(b, a, expected).value, a);
  }

  lemma WriteKeepsValid(b: Board, a: ArtifactRecord, expected: int)
    requires Valid(b) && Write(b, a, expected).Ok?
    ensures Valid(Write(b, a, expected).value)
  {
    WriteKeepsIndices(b, a, expected);
    WriteKeepsOrder(b, a, expected);
  }

  // ----- Lineage -----

  ghost function ParentGraph(b: Board): Graph {
    map id | id in b.records :: Elements(b.records[id].parentIds)
  }

  /** The position at which an artifact was inserted. */
  ghost function Index(b: Board, id: Id): (i: nat)
    requires Indexed(b) && id in b.records
    ensures i < |b.order| && b.order[i] == id
  {
    assert id in Elements(b.order);
    var i :| 0 <= i < |b.order| && b.order[i] == id; i
  }

  lemma ParentsHaveSmallerIndex(b: Board, id: Id)
    requires Valid(b) && id in b.records
    ensures forall p :: p in b.records[id].parentIds ==>
              p in b.records && b.records[p].runId == b.records[id].runId && Index(b, p) < Index(b, id)
  {
    var i := Index(b, id);
    forall p | p in b.records[id].parentIds
      ensures p in b.records && b.records[p].runId == b.records[id].runId && Index(b, p) < i
    {
      assert p in b.order[..i];
    }
  }

  /** The depth-first walk over parents: done lists the artifacts already visited, in order. */
  ghost function Walk(b: Board, id: Id, done: seq<Id>): seq<Id>
    requires Valid(b) && id in b.records
    decreases Index(b, id), |b.records[id].parentIds| + 1
  {
    if id in done then done
    else
      ParentsHaveSmallerIndex(b, id);
      WalkAll(b, b.records[id].parentIds, done, Index(b, id)) + [id]
  }

  ghost function WalkAll(b: Board, ids: seq<Id>, done: seq<Id>, bound: nat): seq<Id>
    requires Valid(b) && forall p :: p in ids ==> p in b.records && Index(b, p) < bound
    decreases bound, |ids|
  {
    if ids == [] then done
    else WalkAll(b, ids[1..], Walk(b, ids[0], done), bound)
  }

  /** No repetition, and parents before their children. */
  ghost predicate Ordered(b: Board, done: seq<Id>) {
    && Distinct(done)
    && (forall i :: 0 <= i < |done| ==> done[i] in b.records)
    && forall i, p :: 0 <= i < |done| && done[i] in b.records && p in b.records[done[i]].parentIds ==> p in done[..i]
  }

  lemma AppendOrdered(b: Board, done: seq<Id>, id: Id)
    requires Ordered(b, done) && id in b.records && id !in done
    requires forall p :: p in b.records[id].parentIds ==> p in done
    ensures Ordered(b, done + [id])
  {
    ElementsByLast(done, id);
    var next := done + [id];
    forall i, p | 0 <= i < |next| && next[i] in b.records && p in b.records[next[i]].parentIds
      ensures p in next[..i]
    {
      if i < |done| {
        assert next[..i] == done[..i];
      } else {
        assert next[..i] == done;
      }
    }
  }

  /** Everything in after that was not in before is reached from one of the ids. */
  ghost predicate OnlyAncestors(g: Graph, ids: seq<Id>, before: seq<Id>, after: seq<Id>) {
    forall x :: x in after && x !in before ==> exists y :: y in ids && Reaches(g, y, x)
  }

  lemma {:induction false} WalkIsOrdered(b: Board, id: Id, done: seq<Id>)
    requires Valid(b) && id in b.records && Ordered(b, done)
    ensures var w := Walk(b, id, done);
            done <= w && Ordered(b, w) && id in w && OnlyAncestors(ParentGraph(b), [id], done, w)
    decreases Index(b, id), |b.records[id].parentIds| + 1
  {
    if id !in done {
      ParentsHaveSmallerIndex(b, id);
      var parents := b.records[id].parentIds;
      var w := WalkAll(b, parents, done, Index(b, id));
      WalkAllIsOrdered(b, parents, done, Index(b, id));
      NotOwnAncestor(b, id, parents, done, w);
      AppendOrdered(b, w, id);
      StepToAncestors(b, id, done, w);
    }
  }

  lemma {:induction false} WalkAllIsOrdered(b: Board, ids: seq<Id>, done: seq<Id>, bound: nat)
    requires Valid(b) && (forall p :: p in ids ==> p in b.records && Index(b, p) < bound) && Ordered(b, done)
    ensures var w := WalkAll(b, ids, done, bound);
            && done <= w && Ordered(b, w) && (forall p :: p in ids ==> p in w)
            && OnlyAncestors(ParentGraph(b), ids, done, w)
    decreases bound, |ids|
  {
    if ids != [] {
      var first := Walk(b, ids[0], done);
      WalkIsOrdered(b, ids[0], done);
      WalkAllIsOrdered(b, ids[1..], first, bound);
      assert ids == [ids[0]] + ids[1..];
    }
  }

  /** Paths along parents lead to earlier artifacts of the same run. */
  lemma {:induction false} AncestorsAreOlder(b: Board, p: seq<Id>)
    requires Valid(b) && IsPath(ParentGraph(b), p)
    ensures p[|p| - 1] in b.records && p[0] in b.records
    ensures Index(b, p[|p| - 1]) <= Index(b, p[0]) && b.records[p[|p| - 1]].runId == b.records[p[0]].runId
  {
    if |p| > 1 {
      assert IsPath(ParentGraph(b), p[1..]);
      AncestorsAreOlder(b, p[1..]);
      ParentsHaveSmallerIndex(b, p[0]);
      assert p[1] in ParentGraph(b)[p[0]];
    }
  }

  lemma NotOwnAncestor(b: Board, id: Id, parents: seq<Id>, done: seq<Id>, w: seq<Id>)
    requires Valid(b) && id in b.records && parents == b.records[id].parentIds
    requires id !in done && OnlyAncestors(ParentGraph(b), parents, done, w)
    ensures id !in w
  {
    ParentsHaveSmallerIndex(b, id);
    if id in w {
      var y :| y in parents && Reaches(ParentGraph(b), y, id);
      var p :| Connects(ParentGraph(b), p, y, id);
      AncestorsAreOlder(b, p);
    }
  }

  lemma StepToAncestors(b: Board, id: Id, done: seq<Id>, w: seq<Id>)
    requires id in b.records && OnlyAncestors(ParentGraph(b), b.records[id].parentIds, done, w)
    ensures OnlyAncestors(ParentGraph(b), [id], done, w + [id])
  {
    var g := ParentGraph(b);
    assert Connects(g, [id], id, id);
    forall x | x in w + [id] && x !in done
      ensures Reaches(g, id, x)
    {
      if x != id {
        var y :| y in b.records[id].parentIds && Reaches(g, y, x);
        var p :| Connects(g, p, y, x);
        assert y in g[id];
        EdgeThenPath(g, id, y, p);
      }
    }
    assert id in [id];
  }

  /** The lineage of an artifact. */
  ghost function Lineage(b: Board, id: Id): seq<Id>
    requires Valid(b) && id in b.records
  {
    Walk(b, id, [])
  }

  /** Lineage is exactly the reflexive-transitive closure over parents: duplicate-free, parents
      before children, the artifact last, all of one run. */
  lemma LineageIsExact(b: Board, id: Id)
    requires Valid(b) && id in b.records
    ensures var l := Lineage(b, id);
            && Ordered(b, l)
            && (forall x :: x in l <==> Reaches(ParentGraph(b), id, x))
            && l[|l| - 1] == id
            && (forall x :: x in l ==> x in b.records && b.records[x].runId == b.records[id].runId)
  {
    var g, l := ParentGraph(b), Lineage(b, id);
    WalkIsOrdered(b, id, []);
    forall x | Reaches(g, id, x)
      ensures x in l && b.records[x].runId == b.records[id].runId
    {
      var p :| Connects(g, p, id, x);
      OrderedIsClosed(b, l);
      PathStaysInside(g, Elements(l), p);
      assert p[|p| - 1] in Elements(l);
      AncestorsAreOlder(b, p);
    }
  }

  lemma OrderedIsClosed(b: Board, l: seq<Id>)
    requires Ordered(b, l)
    ensures forall t :: t in Elements(l) && t in ParentGraph(b) ==> ParentGraph(b)[t] <= Elements(l)
  {
    forall t, p | t in Elements(l) && t in ParentGraph(b) && p in ParentGraph(b)[t]
      ensures p in Elements(l)
    {
      var i :| 0 <= i < |l| && l[i] == t;
      assert p in l[..i];
    }
  }

  // ----- Later writes -----

  /** later extends b: the same artifacts under the same names, inserted first. */
  ghost predicate Extends(b: Board, later: Board) {
    && b.order <= later.order
    && (forall id :: id in b.records ==> id in later.records && later.records[id] == b.records[id])
    && (forall k :: k in b.logical ==> k in later.logical && later.logical[k] == b.logical[k])
    && (forall k :: Head(b, k) <= Head(later, k))
  }

  lemma WriteExtends(b: Board, a: ArtifactRecord, expected: int)
    requires Valid(b) && Write(b, a, expected).Ok?
    ensures Extends(b, Write(b, a, expected).value)
  {
  }

  lemma SameIndex(b: Board, later: Board, id: Id)
    requires Valid(b) && Valid(later) && Extends(b, later) && id in b.records
    ensures id in later.records && Index(later, id) == Index(b, id)
  {
    var i := Index(b, id);
    assert later.order[i] == b.order[i];
  }

  lemma {:induction false} WalkUnchanged(b: Board, later: Board, id: Id, done: seq<Id>)
    requires Valid(b) && Valid(later) && Extends(b, later) && id in b.records
    ensures id in later.records && Walk(later, id, done) == Walk(b, id, done)
    decreases Index(b, id), |b.records[id].parentIds| + 1
  {
    SameIndex(b, later, id);
    if id !in done {
      ParentsHaveSmallerIndex(b, id);
      ParentsHaveSmallerIndex(later, id);
      WalkAllUnchanged(b, later, b.records[id].parentIds, done, Index(b, id));
    }
  }

  lemma {:induction false} WalkAllUnchanged(b: Board, later: Board, ids: seq<Id>, done: seq<Id>, bound: nat)
    requires Valid(b) && Valid(later) && Extends(b, later)
    requires forall p :: p in ids ==> p in b.records && Index(b, p) < bound
    requires forall p :: p in ids ==> p in later.records && Index(later, p) < bound
    ensures WalkAll(later, ids, done, bound) == WalkAll(b, ids, done, bound)
    decreases bound, |ids|
  {
    if ids != [] {
      WalkUnchanged(b, later, ids[0], done);
      WalkAllUnchanged(b, later, ids[1..], Walk(b, ids[0], done), bound);
    }
  }

  /** A write as it was attempted. */
  datatype Attempt = Attempt(artifact: ArtifactRecord, expected: int)

  /** Any sequence of attempted writes on an empty board, successful or not. */
  ghost predicate History(boards: seq<Board>, attempts: seq<Attempt>) {
    && |boards| == |attempts| + 1 && boards[0] == EMPTY
    && forall k :: 0 <= k < |attempts| ==> boards[k + 1] == After(boards[k], attempts[k])
  }

  function After(b: Board, w: Attempt): Board {
    match Write(b, w.artifact, w.expected)
    case Ok(b') => b'
    case Err(_) => b
  }

  /** In every reachable board the versions under each key are exactly 1 to head, the two
      indices are in bijection and parents precede their children. */
  lemma {:induction false} AlwaysValid(boards: seq<Board>, attempts: seq<Attempt>, k: nat)
    requires History(boards, attempts) && k <= |attempts|
    ensures Valid(boards[k])
  {
    if k > 0 {
      AlwaysValid(boards, attempts, k - 1);
      var w := attempts[k - 1];
      if Write(boards[k - 1], w.artifact, w.expected).Ok? {
        WriteKeepsValid(boards[k - 1], w.artifact, w.expected);
      }
    }
  }

  lemma {:induction false} AlwaysExtends(boards: seq<Board>, attempts: seq<Attempt>, i: nat, k: nat)
    requires History(boards, attempts) && i <= k <= |attempts|
    ensures Extends(boards[i], boards[k])
  {
    if i < k {
      AlwaysExtends(boards, attempts, i, k - 1);
      AlwaysValid(boards, attempts, k - 1);
      var w := attempts[k - 1];
      if Write(boards[k - 1], w.artifact, w.expected).Ok? {
        WriteExtends(boards[k - 1], w.artifact, w.expected);
      }
    }
  }

  /** No later write changes the lineage of an artifact. */
  lemma LineageNeverChanges(boards: seq<Board>, attempts: seq<Attempt>, i: nat, k: nat, id: Id)
    requires History(boards, attempts) && i <= k <= |attempts| && id in boards[i].records
    ensures Valid(boards[i]) && Valid(boards[k]) && id in boards[k].records
    ensures Lineage(boards[k], id) == Lineage(boards[i], id)
  {
    AlwaysValid(boards, attempts, i);
    AlwaysValid(boards, attempts, k);
    AlwaysExtends(boards, attempts, i, k);
    WalkUnchanged(boards[i], boards[k], id, []);
  }

  /** Among writers that expect the same version of the same key at most one succeeds. */
  lemma OneWriterWins(boards: seq<Board>, attempts: seq<Attempt>, i: nat, k: nat)
    requires History(boards, attempts) && i < k < |attempts|
    requires KeyOf(attempts[i].artifact) == KeyOf(attempts[k].artifact) && attempts[i].expected == attempts[k].expected
    requires Write(boards[i], attempts[i].artifact, attempts[i].expected).Ok?
    ensures Write(boards[k], attempts[k].artifact, attempts[k].expected) == Err(VersionConflict)
  {
    AlwaysExtends(boards, attempts, i + 1, k);
    assert Head(boards[i + 1], KeyOf(attempts[i].artifact)) == attempts[i].expected + 1;
  }

  /** latest returns the stored version with the largest number, as ordering by version would. */
  lemma LatestIsLargest(b: Board, key: HeadKey)
    requires Valid(b)
    ensures match Latest(b, key)
            case None => forall id :: id in b.records ==> KeyOf(b.records[id]) != key
            case Some(a) =>
              && a.artifactId in b.records && b.records[a.artifactId] == a && KeyOf(a) == key
              && forall id :: id in b.records && KeyOf(b.records[id]) == key ==> b.records[id].version <= a.version
  {
    forall id | id in b.records && KeyOf(b.records[id]) == key
      ensures key in b.heads && b.records[id].version <= b.heads[key]
    {
      assert (key, b.records[id].version) in b.logical;
    }
    if key in b.heads {
      assert (key, b.heads[key]) in b.logical;
    }
  }

  /** get returns the artifact stored under a key and version, and only that. */
  lemma GetIsExact(b: Board, key: HeadKey, version: int)
    requires Valid(b)
    ensures Get(b, key, version).Some? <==> 1 <= version <= Head(b, key)
    ensures forall id :: id in b.records && KeyOf(b.records[id]) == key && b.records[id].version == version ==>
              Get(b, key, version) == Some(b.records[id])
  {
    assert (key, version) in b.logical <==> 1 <= version <= Head(b, key);
  }

  // ----- The board object -----

  class MemoryBlackboard {
    var records: map<Id, ArtifactRecord>
    var order: seq<Id>
    var logical: map<(HeadKey, int), Id>
    var heads: map<HeadKey, int>

    ghost function State(): Board
      reads this
    {
      Board(records, order, logical, heads)
    }

    constructor ()
      ensures State() == EMPTY && Valid(State())
    {
      records, order, logical, heads := map[], [], map[], map[];
    }

    /** The loop over the parents: the first that is missing or of another run. */
    method CheckParents(runId: Id, parentIds: seq<Id>) returns (fault: Option<BoardError>)
      ensures fault == ParentFault(records, runId, parentIds)
    {
      for i := 0 to |parentIds|
        invariant ParentFault(records, runId, parentIds) == ParentFault(records, runId, parentIds[i..])
      {
        if parentIds[i] !in records {
          return Some(ParentMissing(parentIds[i]));
        }
        if records[parentIds[i]].runId != runId {
          return Some(CrossesRuns);
        }
        assert parentIds[i..][1..] == parentIds[i + 1..];
      }
      return None;
    }

    method WriteArtifact(artifact: ArtifactRecord, expectedLatestVersion: int)
      returns (r: Result<ArtifactRef, BoardError>)
      requires Valid(State())
      modifies this
      ensures Valid(State())
      ensures match Write(old(State()), artifact, expectedLatestVersion)
              case Ok(b) =>
                && r == Ok(ArtifactRef(artifact.artifactId, artifact.runId, artifact.artifactType, artifact.version,
                                       artifact.contentHash))
                && State() == b
              case Err(e) => r == Err(e) && State() == old(State())
    {
      var key := KeyOf(artifact);
      var current := if key in heads then heads[key] else 0;
      if expectedLatestVersion != current || artifact.version != current + 1 {
        return Err(VersionConflict);
      }
      if artifact.artifactId in records {
        return Err(IdExists);
      }
      var fault := CheckParents(artifact.runId, artifact.parentIds);
      if fault.Some? {
        return Err(fault.value);
      }
      WriteKeepsValid(State(), artifact, expectedLatestVersion);
      records, order := records[artifact.artifactId := artifact], order + [artifact.artifactId];
      logical := logical[(key, artifact.version) := artifact.artifactId];
      heads := heads[key := artifact.version];
      r := Ok(ToRef(artifact));
    }

    /** MemoryBlackboard.get. */
    method Read(runId: Id, taskId: Id, artifactType: string, version: int) returns (r: Option<ArtifactRecord>)
      requires Valid(State())
      ensures r == Get(State(), HeadKey(runId, taskId, artifactType), version)
    {
      var name := (HeadKey(runId, taskId, artifactType), version);
      if name !in logical {
        return None;
      }
      return Some(records[logical[name]]);
    }

    /** MemoryBlackboard.latest. */
    method ReadLatest(runId: Id, taskId: Id, artifactType: string) returns (r: Option<ArtifactRecord>)
      requires Valid(State())
      ensures r == Latest(State(), HeadKey(runId, taskId, artifactType))
    {
      var key := HeadKey(runId, taskId, artifactType);
      if key !in heads {
        return None;
      }
      r := Read(runId, taskId, artifactType, heads[key]);
    }

    method LineageOf(artifactId: Id) returns (r: Option<seq<ArtifactRecord>>)
      requires Valid(State())
      ensures r.None? <==> artifactId !in records
      ensures r.Some? ==> var ids := Lineage(State(), artifactId);
                          && |r.value| == |ids|
                          && forall i :: 0 <= i < |ids| ==> ids[i] in records && r.value[i] == records[ids[i]]
    {
      if artifactId !in records {
        return None;
      }
      var ids := Visit(artifactId, []);
      LineageIsExact(State(), artifactId);
      r := Some(seq(|ids|, i requires 0 <= i < |ids| && ids[i] in records reads this => records[ids[i]]));
    }

    /** The nested recursive function of lineage; visited and ordered always agree. */
    method Visit(id: Id, ordered: seq<Id>) returns (after: seq<Id>)
      requires Valid(State()) && id in records
      ensures after == Walk(State(), id, ordered)
      decreases Index(State(), id), |records[id].parentIds| + 1
    {
      if id in ordered {
        return ordered;
      }
      var parents := records[id].parentIds;
      ghost var bound := Index(State(), id);
      ParentsHaveSmallerIndex(State(), id);
      after := ordered;
      for i := 0 to |parents|
        invariant WalkAll(State(), parents, ordered, bound) == WalkAll(State(), parents[i..], after, bound)
      {
        after := Visit(parents[i], after);
        assert parents[i..][1..] == parents[i + 1..];
      }
      after := after + [id];
    }
  }
}
