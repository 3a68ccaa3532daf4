/** What reading and writing the blackboard mean in terms of the fields of the stored artifacts. */
module BoardFacts {
  import opened Common
  import opened Graphs
  import opened Blackboard

  ghost predicate Stored(b: Board, a: ArtifactRecord) {
    a.artifactId in b.records && b.records[a.artifactId] == a
  }

  /** The ids of the artifacts stored for a run, a task and a type. */
  ghost function Versions(b: Board, runId: Id, taskId: Id, artifactType: string): set<Id> {
    set id | id in b.records && b.records[id].runId == runId && b.records[id].taskId == taskId
             && b.records[id].artifactType == artifactType
  }

  lemma KeyNamesFields(a: ArtifactRecord, runId: Id, taskId: Id, artifactType: string)
    ensures KeyOf(a) == HeadKey(runId, taskId, artifactType) <==>
              a.runId == runId && a.taskId == taskId && a.artifactType == artifactType
  {
  }

  /** Reading a version returns exactly the stored artifact of that run, task, type and version. */
  lemma GetFindsByFields(b: Board, runId: Id, taskId: Id, artifactType: string, version: int, a: ArtifactRecord)
    requires Valid(b)
    ensures Get(b, HeadKey(runId, taskId, artifactType), version) == Some(a) <==>
              && Stored(b, a) && a.runId == runId && a.taskId == taskId && a.artifactType == artifactType
              && a.version == version
  {
    var key := HeadKey(runId, taskId, artifactType);
    if Stored(b, a) {
      KeyNamesFields(a, runId, taskId, artifactType);
      assert (KeyOf(a), a.version) in b.logical;
    }
    if (key, version) in b.logical {
      KeyNamesFields(b.records[b.logical[(key, version)]], runId, taskId, artifactType);
    }
  }

  /** Reading the latest returns the stored artifact of that run, task and type with the largest version, and nothing
      exactly if none is stored. */
  lemma LatestFindsByFields(b: Board, runId: Id, taskId: Id, artifactType: string, a: ArtifactRecord)
    requires Valid(b)
    ensures Latest(b, HeadKey(runId, taskId, artifactType)) == Some(a) <==>
              && Stored(b, a) && a.artifactId in Versions(b, runId, taskId, artifactType)
              && forall id :: id in Versions(b, runId, taskId, artifactType) ==> b.records[id].version <= a.version
    ensures Latest(b, HeadKey(runId, taskId, artifactType)).None? <==> Versions(b, runId, taskId, artifactType) == {}
  {
    var key := HeadKey(runId, taskId, artifactType);
    var found := Latest(b, key);
    LatestIsLargest(b, key);
    forall id | id in b.records
      ensures KeyOf(b.records[id]) == key <==> id in Versions(b, runId, taskId, artifactType)
    {
      KeyNamesFields(b.records[id], runId, taskId, artifactType);
    }
    if && Stored(b, a) && a.artifactId in Versions(b, runId, taskId, artifactType) && found.Some?
       && a.version == found.value.version
    {
      SameVersionSameArtifact(b, a, found.value);
    }
  }

  lemma SameVersionSameArtifact(b: Board, a: ArtifactRecord, c: ArtifactRecord)
    requires Valid(b) && Stored(b, a) && Stored(b, c) && KeyOf(a) == KeyOf(c) && a.version == c.version
    ensures a == c
  {
    assert (KeyOf(a), a.version) in b.logical;
  }

  lemma VersionIsPositive(b: Board, id: Id)
    requires Valid(b) && id in b.records
    ensures 1 <= b.records[id].version <= Head(b, KeyOf(b.records[id]))
  {
    assert (KeyOf(b.records[id]), b.records[id].version) in b.logical;
  }

  /** The artifacts of a key up to a version are as many as the version says. */
  lemma {:induction false} VersionsUpTo(b: Board, key: HeadKey, n: nat)
    requires Valid(b) && n <= Head(b, key)
    ensures |set id | id in b.records && KeyOf(b.records[id]) == key && b.records[id].version <= n| == n
  {
    var upTo := set id | id in b.records && KeyOf(b.records[id]) == key && b.records[id].version <= n;
    if n == 0 {
      forall id | id in b.records && KeyOf(b.records[id]) == key ensures b.records[id].version >= 1 {
        VersionIsPositive(b, id);
      }
      assert upTo == {};
    } else {
      VersionsUpTo(b, key, n - 1);
      var before := set id | id in b.records && KeyOf(b.records[id]) == key && b.records[id].version <= n - 1;
      assert (key, n) in b.logical;
      var last := b.logical[(key, n)];
      forall id | id in upTo && id !in before ensures id == last {
        SameVersionSameArtifact(b, b.records[id], b.records[last]);
      }
      assert upTo == before + {last} && last !in before;
    }
  }

  /** The head of a run, task and type counts the artifacts stored for them. */
  lemma HeadCountsVersions(b: Board, runId: Id, taskId: Id, artifactType: string)
    requires Valid(b)
    ensures Head(b, HeadKey(runId, taskId, artifactType)) == |Versions(b, runId, taskId, artifactType)|
  {
    var key := HeadKey(runId, taskId, artifactType);
    var head := Head(b, key);
    VersionsUpTo(b, key, head);
    var upTo := set id | id in b.records && KeyOf(b.records[id]) == key && b.records[id].version <= head;
    forall id | id in b.records
      ensures id in upTo <==> id in Versions(b, runId, taskId, artifactType)
    {
      KeyNamesFields(b.records[id], runId, taskId, artifactType);
      assert KeyOf(b.records[id]) == key ==> (key, b.records[id].version) in b.logical;
    }
    assert upTo == Versions(b, runId, taskId, artifactType);
  }

  ghost predicate ParentsFit(b: Board, a: ArtifactRecord) {
    forall p :: p in a.parentIds ==> p in b.records && b.records[p].runId == a.runId
  }

  /** A write is judged by how many artifacts are stored for the same run, task and type: the writer must know that
      number and bring the next one. Then the id must be new and the parents stored in the same run. A write that
      passes adds the artifact, any other changes nothing. */
  lemma WriteIsExact(b: Board, a: ArtifactRecord, expected: int)
    requires Valid(b)
    ensures var count := |Versions(b, a.runId, a.taskId, a.artifactType)|;
            match Write(b, a, expected)
            case Err(VersionConflict) => expected != count || a.version != count + 1
            case Err(IdExists) => expected == count && a.version == count + 1 && a.artifactId in b.records
            case Err(_) =>
              && expected == count && a.version == count + 1 && a.artifactId !in b.records && !ParentsFit(b, a)
            case Ok(b') =>
              && expected == count && a.version == count + 1 && a.artifactId !in b.records && ParentsFit(b, a)
              && b'.records == b.records[a.artifactId := a] && b'.order == b.order + [a.artifactId]
  {
    HeadCountsVersions(b, a.runId, a.taskId, a.artifactType);
    KeyNamesFields(a, a.runId, a.taskId, a.artifactType);
    NoParentFault(b.records, a.runId, a.parentIds);
    SomeParentFault(b.records, a.runId, a.parentIds);
  }

  lemma {:induction false} SomeParentFault(records: map<Id, ArtifactRecord>, runId: Id, parents: seq<Id>)
    ensures match ParentFault(records, runId, parents)
            case None => true
            case Some(ParentMissing(p)) => p in parents && p !in records
            case Some(CrossesRuns) => exists p :: p in parents && p in records && records[p].runId != runId
            case Some(_) => false
  {
    if parents != [] {
      SomeParentFault(records, runId, parents[1..]);
      assert parents[0] in parents;
    }
  }

  /** What was written is found under its fields and its version at once, as the latest. */
  lemma WrittenIsLatest(b: Board, a: ArtifactRecord, expected: int)
    requires Valid(b) && Write(b, a, expected).Ok?
    ensures var b' := Write(b, a, expected).value;
            && Valid(b') && Get(b', HeadKey(a.runId, a.taskId, a.artifactType), a.version) == Some(a)
            && Latest(b', HeadKey(a.runId, a.taskId, a.artifactType)) == Some(a)
  {
    var b' := Write(b, a, expected).value;
    WriteKeepsValid(b, a, expected);
    WriteIsExact(b, a, expected);
    GetFindsByFields(b', a.runId, a.taskId, a.artifactType, a.version, a);
    HeadCountsVersions(b', a.runId, a.taskId, a.artifactType);
    HeadCountsVersions(b, a.runId, a.taskId, a.artifactType);
    KeyNamesFields(a, a.runId, a.taskId, a.artifactType);
    assert b'.heads[KeyOf(a)] == a.version;
  }
}
