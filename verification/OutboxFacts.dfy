/** What the calls on the event log and the outbox do, condition by condition and field by field. */
module OutboxFacts {
  import opened Common
  import opened Graphs
  import opened Ordering
  import opened TaskStates
  import opened Repository
  import opened LeaseHistory
  import opened OutboxHistory

  // ----- Events -----

  /** Some stored event of the run has this idempotency key. */
  ghost predicate KeyTaken(s: Store, runId: Id, key: string) {
    exists e :: e in s.events && s.events[e].runId == runId && s.events[e].idempotencyKey == key
  }

  lemma TakenKeysAreListed(s: Store, event: EventRecord)
    requires LogOk(s)
    ensures KeyTaken(s, event.runId, event.idempotencyKey) <==> (event.runId, event.idempotencyKey) in s.eventKeys
  {
    if (event.runId, event.idempotencyKey) in s.eventKeys {
      var e :| e in s.events && KeyOf(s.events[e]) == (event.runId, event.idempotencyKey);
    }
    if KeyTaken(s, event.runId, event.idempotencyKey) {
      var e :| e in s.events && s.events[e].runId == event.runId
        && s.events[e].idempotencyKey == event.idempotencyKey;
      assert KeyOf(s.events[e]) == (event.runId, event.idempotencyKey);
    }
  }

  /** An event is stored exactly if its run is known and no stored event of the run has its key; a taken key is
      answered quietly. */
  lemma AppendingIsExact(s: Store, event: EventRecord)
    requires Indexed(s) && LogOk(s)
    ensures var (s', reply) := Apply(s, AppendEvent(event));
            if KeyTaken(s, event.runId, event.idempotencyKey) then (s', reply) == (s, Flag(false))
            else if event.runId !in s.runs then s' == s && reply.Raised?
            else
              && reply == Flag(true) && KeyTaken(s', event.runId, event.idempotencyKey)
              && s' == s.(events := s.events[event.eventId := event], eventKeys := s'.eventKeys)
  {
    TakenKeysAreListed(s, event);
    var s' := Apply(s, AppendEvent(event)).0;
    assert Apply(s, AppendEvent(event)).1 == Flag(true) ==> s'.events[event.eventId] == event;
  }

  /** With a row the same, and the row must name the event; both are stored or neither. */
  lemma AppendingBothIsExact(s: Store, event: EventRecord, row: OutboxRecord)
    requires Indexed(s) && LogOk(s)
    ensures var (s', reply) := Apply(s, AppendWithOutbox(event, row));
            if KeyTaken(s, event.runId, event.idempotencyKey) then (s', reply) == (s, Flag(false))
            else if event.runId !in s.runs || row.eventId != event.eventId then s' == s && reply.Raised?
            else
              && reply == Flag(true) && KeyTaken(s', event.runId, event.idempotencyKey)
              && s' == s.(events := s.events[event.eventId := event], eventKeys := s'.eventKeys,
                          outbox := s.outbox[row.outboxId := row])
  {
    TakenKeysAreListed(s, event);
    var s' := Apply(s, AppendWithOutbox(event, row)).0;
    assert Apply(s, AppendWithOutbox(event, row)).1 == Flag(true) ==> s'.events[event.eventId] == event;
  }

  // ----- Claiming rows -----

  /** A row that has not been published, is available, and is not under a lease that still runs. */
  ghost predicate IsDue(s: Store, id: Id, now: Time) {
    && id in s.outbox && s.outbox[id].publishedAt.None? && s.outbox[id].availableAt <= now
    && (s.outbox[id].leaseUntil.Some? ==> s.outbox[id].leaseUntil.value < now)
  }

  ghost function DueRows(s: Store, now: Time): set<Id> {
    set id | id in s.outbox && IsDue(s, id, now)
  }

  /** The row was created earlier, or at the same instant and its id comes first. */
  ghost predicate OlderRow(s: Store, a: Id, b: Id)
    requires a in s.outbox && b in s.outbox
  {
    || s.outbox[a].createdAt < s.outbox[b].createdAt
    || (s.outbox[a].createdAt == s.outbox[b].createdAt && ComesFirst(a, b))
  }

  /** The ids of the rows a claim takes. */
  ghost predicate AreOldest(s: Store, ids: seq<Id>, now: Time, limit: nat) {
    && |ids| == (if |DueRows(s, now)| < limit then |DueRows(s, now)| else limit)
    && (forall i :: 0 <= i < |ids| ==> IsDue(s, ids[i], now))
    && (forall i, j :: 0 <= i < j < |ids| ==> OlderRow(s, ids[i], ids[j]))
    && (forall i, x :: 0 <= i < |ids| && IsDue(s, x, now) && x !in ids ==> OlderRow(s, ids[i], x))
  }

  lemma BatchIsOldest(s: Store, now: Time, limit: nat)
    ensures AreOldest(s, Batch(s.outbox, DueIds(s.outbox, now), limit), now, limit)
  {
    var due := DueIds(s.outbox, now);
    var ids := Batch(s.outbox, due, limit);
    assert due == DueRows(s, now);
    BatchMeaning(s.outbox, due, limit);
    assert forall i :: 0 <= i < |ids| ==> ids[i] in Elements(ids);
    forall a, b | a in s.outbox && b in s.outbox && Sooner(s.outbox, a, b) ensures OlderRow(s, a, b) {
      LessIsLexicographic(a, b);
    }
  }

  ghost function ClaimedRow(row: OutboxRecord, workerId: Id, now: Time, leaseSeconds: int): OutboxRecord {
    OutboxRecord(row.outboxId, row.eventId, row.payload, row.availableAt, Some(workerId),
                 Some(now + leaseSeconds * 1_000_000), row.attempt + 1, row.publishedAt, row.createdAt)
  }

  /** A claim leases the oldest due rows up to the limit to the worker, returns them in that order, and leaves the
      other rows alone. */
  lemma ClaimTakesTheOldest(s: Store, workerId: Id, now: Time, leaseSeconds: int, limit: int) returns (ids: seq<Id>)
    requires Indexed(s) && leaseSeconds >= 1 && limit >= 1
    ensures AreOldest(s, ids, now, limit)
    ensures var (s', reply) := Apply(s, LeaseOutbox(workerId, now, leaseSeconds, limit));
            && s' == s.(outbox := s'.outbox) && s'.outbox.Keys == s.outbox.Keys
            && reply.Rows? && |reply.rows| == |ids|
            && (forall i :: 0 <= i < |ids| ==>
                  reply.rows[i] == s'.outbox[ids[i]] == ClaimedRow(s.outbox[ids[i]], workerId, now, leaseSeconds))
            && (forall id :: id in s.outbox && id !in ids ==> s'.outbox[id] == s.outbox[id])
  {
    BatchIsOldest(s, now, limit);
    ids := Batch(s.outbox, DueIds(s.outbox, now), limit);
  }

  /** A claim needs a positive lease and a positive limit. */
  lemma ClaimMustBePositive(s: Store, workerId: Id, now: Time, leaseSeconds: int, limit: int)
    requires Indexed(s)
    ensures Apply(s, LeaseOutbox(workerId, now, leaseSeconds, limit)).1.Raised? <==> leaseSeconds < 1 || limit < 1
  {
  }

  // ----- Marking a row -----

  /** A row is marked exactly for the worker that holds it, and once. */
  lemma MarkingIsExact(s: Store, outboxId: Id, workerId: Id, now: Time)
    requires Indexed(s)
    ensures var (s', reply) := Apply(s, MarkPublished(outboxId, workerId, now));
            var holds :=
              && outboxId in s.outbox && s.outbox[outboxId].leaseOwner == Some(workerId)
              && s.outbox[outboxId].publishedAt.None?;
            && reply == Flag(holds)
            && s' == if !holds then s
                     else s.(outbox := s.outbox[outboxId := s.outbox[outboxId].(
                               publishedAt := Some(now), leaseOwner := None, leaseUntil := None)])
  {
  }
}
