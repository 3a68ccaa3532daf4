/** Whole histories of the event log and the outbox. */
module OutboxHistory {
  import opened Common
  import opened Graphs
  import opened TaskStates
  import opened Repository
  import opened LeaseHistory

  // ----- All or nothing -----

  /** A call that raises changes nothing. */
  lemma RaisingChangesNothing(s: Store, c: Command)
    requires Indexed(s) && Apply(s, c).1.Raised?
    ensures Apply(s, c).0 == s
  {
  }

  /** Completing with event and outbox commits the state change, the event, its key and the row
      together, or raises and commits none; it commits exactly when the caller owns the lease,
      the event describes the task, the row names the event and the key is new. */
  lemma CompletionIsAllOrNothing(s: Store, taskId: Id, workerId: Id, now: Time, event: EventRecord, row: OutboxRecord)
    ensures var (s', reply) := CompleteWithOutboxStep(s, taskId, workerId, now, event, row);
            var commits :=
              && taskId in s.tasks && s.tasks[taskId].state == Leased && s.tasks[taskId].leaseOwner == Some(workerId)
              && event.taskId == Some(taskId) && event.runId == s.tasks[taskId].runId
              && row.eventId == event.eventId && (event.runId, event.idempotencyKey) !in s.eventKeys;
            && (reply == Done <==> commits) && (reply != Done ==> s' == s)
            && (commits ==>
                  && s'.tasks == s.tasks[taskId := s.tasks[taskId].(
                       state := Succeeded, leaseOwner := None, leaseUntil := None,
                       heartbeatAt := Some(now), updatedAt := now)]
                  && s'.runs == s.runs && s'.order == s.order
                  && s'.eventKeys == s.eventKeys + {(event.runId, event.idempotencyKey)}
                  && s'.events == s.events[event.eventId := event]
                  && s'.outbox == s.outbox[row.outboxId := row])
  {
  }

  // ----- Events -----

  /** The event a call would store. */
  function EventOf(c: Command): Option<EventRecord> {
    match c
    case AppendEvent(event) => Some(event)
    case AppendWithOutbox(event, _) => Some(event)
    case CompleteWithOutbox(_, _, _, event, _) => Some(event)
    case _ => None
  }

  function RowOf(c: Command): Option<OutboxRecord> {
    match c
    case AppendWithOutbox(_, row) => Some(row)
    case CompleteWithOutbox(_, _, _, _, row) => Some(row)
    case _ => None
  }

  /** Event and row ids are new, as a primary key would enforce, and rows are as created. */
  ghost predicate FreshIds(s: Store, c: Command) {
    && (EventOf(c).Some? ==> EventOf(c).value.eventId !in s.events)
    && (RowOf(c).Some? ==>
          && RowOf(c).value.outboxId !in s.outbox
          && RowOf(c).value.publishedAt.None? && RowOf(c).value.leaseUntil.None? && RowOf(c).value.leaseOwner.None?)
  }

  ghost predicate FreshIdHistory(states: seq<Store>, cmds: seq<Command>)
    requires |states| == |cmds| + 1
  {
    forall k :: 0 <= k < |cmds| ==> FreshIds(states[k], cmds[k])
  }

  /** Rows name stored events, keys are those of the stored events, and no key is used twice. */
  ghost predicate LogOk(s: Store) {
    && (forall r :: r in s.outbox ==> s.outbox[r].outboxId == r && s.outbox[r].eventId in s.events)
    && (forall e :: e in s.events ==> s.events[e].eventId == e && KeyOf(s.events[e]) in s.eventKeys)
    && (forall k :: k in s.eventKeys ==> exists e :: e in s.events && KeyOf(s.events[e]) == k)
    && (forall e, f :: e in s.events && f in s.events && e != f ==> KeyOf(s.events[e]) != KeyOf(s.events[f]))
  }

  lemma StoringEventKeepsLog(s: Store, event: EventRecord)
    requires LogOk(s) && event.eventId !in s.events && KeyOf(event) !in s.eventKeys
    ensures LogOk(StoreEvent(s, event))
  {
    var s' := StoreEvent(s, event);
    forall k | k in s'.eventKeys
      ensures exists e :: e in s'.events && KeyOf(s'.events[e]) == k
    {
      if k in s.eventKeys {
        var e :| e in s.events && KeyOf(s.events[e]) == k;
        assert e in s'.events && KeyOf(s'.events[e]) == k;
      } else {
        assert event.eventId in s'.events;
      }
    }
  }

  lemma StoringRowKeepsLog(s: Store, row: OutboxRecord)
    requires LogOk(s) && row.eventId in s.events
    ensures LogOk(s.(outbox := s.outbox[row.outboxId := row]))
  {
  }

  lemma ClaimingKeepsLog(s: Store, c: Command)
    requires LogOk(s) && Indexed(s) && c.LeaseOutbox?
    ensures LogOk(Apply(s, c).0)
  {
  }

  lemma AppendingKeepsLog(s: Store, event: EventRecord, row: OutboxRecord)
    requires LogOk(s) && event.eventId !in s.events && KeyOf(event) !in s.eventKeys && row.eventId == event.eventId
    ensures LogOk(StoreEvent(s, event).(outbox := s.outbox[row.outboxId := row]))
  {
    StoringEventKeepsLog(s, event);
    StoringRowKeepsLog(StoreEvent(s, event), row);
  }

  lemma CompletingKeepsLog(s: Store, c: Command)
    requires Indexed(s) && LogOk(s) && FreshIds(s, c) && c.CompleteWithOutbox?
    ensures LogOk(Apply(s, c).0)
  {
    if Apply(s, c).1 == Done {
      AppendingKeepsLog(s, c.event, c.row);
    }
  }

  lemma StoringKeepsLog(s: Store, c: Command)
    requires Indexed(s) && LogOk(s) && FreshIds(s, c) && (c.AppendEvent? || c.AppendWithOutbox?)
    ensures LogOk(Apply(s, c).0)
  {
    if Apply(s, c).1 == Flag(true) {
      if c.AppendEvent? {
        StoringEventKeepsLog(s, c.event);
      } else {
        AppendingKeepsLog(s, c.event, c.row);
      }
    }
  }

  lemma LogStep(s: Store, c: Command)
    requires Indexed(s) && LogOk(s) && FreshIds(s, c)
    ensures LogOk(Apply(s, c).0)
  {
    match c {
      case AppendEvent(_) => StoringKeepsLog(s, c);
      case AppendWithOutbox(_, _) => StoringKeepsLog(s, c);
      case CompleteWithOutbox(_, _, _, _, _) => CompletingKeepsLog(s, c);
      case LeaseOutbox(_, _, _, _) => ClaimingKeepsLog(s, c);
      case _ =>
    }
  }

  /** In every reachable store each outbox row names a stored event and each idempotency key
      belongs to exactly one event. */
  lemma {:induction false} LogAlwaysOk(states: seq<Store>, cmds: seq<Command>, k: nat)
    requires History(states, cmds) && FreshIdHistory(states, cmds) && k <= |cmds|
    ensures LogOk(states[k])
  {
    if k > 0 {
      LogAlwaysOk(states, cmds, k - 1);
      assert Happens(states, cmds, k - 1);
      LogStep(states[k - 1], cmds[k - 1]);
    }
  }

  // ----- One row -----

  datatype RowChange = Kept | Claim(until: Time) | Publication

  ghost function RowChangeOf(s: Store, c: Command, r: Id): RowChange
    requires r in s.outbox
  {
    match c
    case LeaseOutbox(workerId, now, leaseSeconds, limit) =>
      if leaseSeconds >= 1 && limit >= 1 && r in Batch(s.outbox, DueIds(s.outbox, now), limit)
      then Claim(now + leaseSeconds * SECOND) else Kept
    case MarkPublished(outboxId, workerId, now) =>
      if r == outboxId && Markable(s.outbox[r], workerId) then Publication else Kept
    case _ => Kept
  }

  ghost predicate RowMoves(c: Command, a: OutboxRecord, b: OutboxRecord, change: RowChange) {
    match change
    case Kept => b == a
    case Claim(until) =>
      && c.LeaseOutbox? && c.leaseSeconds >= 1 && Due(a, c.now)
      && until == c.now + c.leaseSeconds * SECOND && b == Claimed(a, c.workerId, c.now, c.leaseSeconds)
    case Publication => c.MarkPublished? && Markable(a, c.workerId) && b == Published(a, c.now)
  }

  lemma RowChangeHappens(s: Store, c: Command, r: Id)
    requires Indexed(s) && r in s.outbox && (RowOf(c).Some? ==> RowOf(c).value.outboxId != r)
    ensures r in Apply(s, c).0.outbox
    ensures RowMoves(c, s.outbox[r], Apply(s, c).0.outbox[r], RowChangeOf(s, c, r))
  {
    if c.LeaseOutbox? && c.leaseSeconds >= 1 && c.limit >= 1 {
      var ids := Batch(s.outbox, DueIds(s.outbox, c.now), c.limit);
      assert r in ids ==> r in Elements(ids);
    }
  }

  ghost predicate RowLife(rs: seq<OutboxRecord>, changes: seq<RowChange>, cs: seq<Command>) {
    && |rs| == |changes| + 1 == |cs| + 1
    && forall k: nat {:trigger changes[k]} :: k < |changes| ==> RowMoves(cs[k], rs[k], rs[k + 1], changes[k])
  }

  /** After a claim the row is published or leased at least that long. */
  lemma {:induction false} ClaimLasts(rs: seq<OutboxRecord>, changes: seq<RowChange>, cs: seq<Command>, k: nat)
    requires RowLife(rs, changes, cs) && 0 < k <= |changes| && changes[0].Claim?
    ensures rs[k].publishedAt.Some? || (rs[k].leaseUntil.Some? && rs[k].leaseUntil.value >= changes[0].until)
  {
    assert RowMoves(cs[k - 1], rs[k - 1], rs[k], changes[k - 1]);
    if k > 1 {
      ClaimLasts(rs, changes, cs, k - 1);
    }
  }

  /** A published row never changes again. */
  lemma {:induction false} PublishedStays(rs: seq<OutboxRecord>, changes: seq<RowChange>, cs: seq<Command>,
                                          i: nat, k: nat)
    requires RowLife(rs, changes, cs) && i <= k < |rs| && rs[i].publishedAt.Some?
    ensures rs[k] == rs[i]
  {
    if i < k {
      PublishedStays(rs, changes, cs, i, k - 1);
      assert RowMoves(cs[k - 1], rs[k - 1], rs[k], changes[k - 1]);
    }
  }

  // ----- One row in a history -----

  ghost function RowsOf(states: seq<Store>, i: nat, j: nat, r: Id): (rs: seq<OutboxRecord>)
    requires i <= j < |states| && forall k :: i <= k <= j ==> r in states[k].outbox
    ensures |rs| == j - i + 1 && forall m :: 0 <= m < |rs| ==> rs[m] == states[i + m].outbox[r]
  {
    seq(j - i + 1, m requires 0 <= m < j - i + 1 => states[i + m].outbox[r])
  }

  ghost function RowChangesOf(states: seq<Store>, cmds: seq<Command>, i: nat, j: nat, r: Id): (changes: seq<RowChange>)
    requires |states| == |cmds| + 1 && i <= j <= |cmds| && forall k :: i <= k <= j ==> r in states[k].outbox
    ensures |changes| == j - i
    ensures forall m :: 0 <= m < |changes| ==> changes[m] == RowChangeOf(states[i + m], cmds[i + m], r)
  {
    seq(j - i, m requires 0 <= m < j - i => RowChangeOf(states[i + m], cmds[i + m], r))
  }

  lemma RowStays(states: seq<Store>, cmds: seq<Command>, k: nat, r: Id)
    requires History(states, cmds) && FreshIdHistory(states, cmds) && k < |cmds| && r in states[k].outbox
    ensures r in states[k + 1].outbox
    ensures RowMoves(cmds[k], states[k].outbox[r], states[k + 1].outbox[r], RowChangeOf(states[k], cmds[k], r))
  {
    assert Happens(states, cmds, k) && FreshIds(states[k], cmds[k]);
    RowChangeHappens(states[k], cmds[k], r);
  }

  lemma {:induction false} RowPersists(states: seq<Store>, cmds: seq<Command>, i: nat, k: nat, r: Id)
    requires History(states, cmds) && FreshIdHistory(states, cmds) && i <= k <= |cmds| && r in states[i].outbox
    ensures r in states[k].outbox
  {
    if i < k {
      RowPersists(states, cmds, i, k - 1, r);
      RowStays(states, cmds, k - 1, r);
    }
  }

  lemma RowLivesOn(states: seq<Store>, cmds: seq<Command>, i: nat, j: nat, r: Id)
    requires History(states, cmds) && FreshIdHistory(states, cmds) && i <= j <= |cmds| && r in states[i].outbox
    ensures forall k :: i <= k <= j ==> r in states[k].outbox
    ensures RowLife(RowsOf(states, i, j, r), RowChangesOf(states, cmds, i, j, r), cmds[i..j])
  {
    forall k | i <= k <= j
      ensures r in states[k].outbox
    {
      RowPersists(states, cmds, i, k, r);
    }
    var rs, changes, cs := RowsOf(states, i, j, r), RowChangesOf(states, cmds, i, j, r), cmds[i..j];
    forall m: nat | m < |changes|
      ensures RowMoves(cs[m], rs[m], rs[m + 1], changes[m])
    {
      RowStays(states, cmds, i + m, r);
      assert rs[m + 1] == states[i + m + 1].outbox[r];
    }
  }

  /** Call number k hands row r to a publisher. */
  ghost predicate ClaimedAt(states: seq<Store>, cmds: seq<Command>, k: nat, r: Id)
    requires |states| == |cmds| + 1
  {
    k < |cmds| && r in states[k].outbox && RowChangeOf(states[k], cmds[k], r).Claim?
  }

  /** Two claims of one row have disjoint lease windows, whatever the clock does. */
  lemma ClaimsAreDisjoint(states: seq<Store>, cmds: seq<Command>, i: nat, j: nat, r: Id)
    requires History(states, cmds) && FreshIdHistory(states, cmds)
    requires i < j && ClaimedAt(states, cmds, i, r) && ClaimedAt(states, cmds, j, r)
    ensures cmds[j].LeaseOutbox? && RowChangeOf(states[i], cmds[i], r).until < cmds[j].now
    ensures cmds[j].now < RowChangeOf(states[j], cmds[j], r).until
  {
    RowLivesOn(states, cmds, i, j, r);
    var rs, changes := RowsOf(states, i, j, r), RowChangesOf(states, cmds, i, j, r);
    assert changes[0] == RowChangeOf(states[i + 0], cmds[i + 0], r);
    ClaimLasts(rs, changes, cmds[i..j], j - i);
    assert rs[j - i] == states[i + (j - i)].outbox[r];
    RowStays(states, cmds, j, r);
  }

  /** Once published, a row is never claimed or published again and keeps its instant. */
  lemma PublishedOnce(states: seq<Store>, cmds: seq<Command>, i: nat, j: nat, r: Id)
    requires History(states, cmds) && FreshIdHistory(states, cmds) && i <= j < |cmds|
    requires r in states[i].outbox && states[i].outbox[r].publishedAt.Some?
    ensures r in states[j].outbox && states[j].outbox[r] == states[i].outbox[r]
    ensures RowChangeOf(states[j], cmds[j], r).Kept?
  {
    RowLivesOn(states, cmds, i, j, r);
    var rs := RowsOf(states, i, j, r);
    assert rs[0] == states[i + 0].outbox[r] && rs[j - i] == states[i + (j - i)].outbox[r];
    PublishedStays(rs, RowChangesOf(states, cmds, i, j, r), cmds[i..j], 0, j - i);
    RowStays(states, cmds, j, r);
  }
}
