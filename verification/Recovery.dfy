/** OutboxPublisher: claiming due rows, handing them to a handler, marking them published. */
module Recovery {
  import opened Common
  import opened Graphs
  import opened Repository
  import opened OutboxHistory

  // ----- Many publishers interleaved -----

  /** Where one run of drain_once stands: handed is set between the handler's return and the
      call that marks the row. */
  datatype Publisher = Idle | Draining(workerId: Id, now: Time, batch: seq<OutboxRecord>, next: nat, handed: bool)

  /** The store, the publishers at work on it, and the ids of the rows a handler has accepted. */
  datatype World = World(store: Store, publishers: map<Id, Publisher>, delivered: set<Id>)

  datatype Move =
    | Call(command: Command)
    | StartDrain(publisher: Id, workerId: Id, now: Time, leaseSeconds: int, limit: int)
    | HandlerReturns(publisher: Id)
    | HandlerRaises(publisher: Id)
    | MarkRow(publisher: Id)

  ghost predicate Working(w: World, p: Id) {
    p in w.publishers && w.publishers[p].Draining? && w.publishers[p].next < |w.publishers[p].batch|
  }

  /** When a move is possible: rows are marked by draining publishers only, and ids are new. */
  ghost predicate Enabled(w: World, m: Move) {
    && Indexed(w.store)
    && match m
       case Call(c) => !c.MarkPublished? && FreshIds(w.store, c)
       case StartDrain(p, _, _, _, _) => p in w.publishers ==> w.publishers[p].Idle?
       case HandlerReturns(p) => Working(w, p) && !w.publishers[p].handed
       case HandlerRaises(p) => Working(w, p) && !w.publishers[p].handed
       case MarkRow(p) => Working(w, p) && w.publishers[p].handed
  }

  ghost function Next(w: World, m: Move): World
    requires Enabled(w, m)
  {
    match m
    case Call(c) => w.(store := Apply(w.store, c).0)
    case StartDrain(p, workerId, now, leaseSeconds, limit) =>
      var (store, reply) := Apply(w.store, LeaseOutbox(workerId, now, leaseSeconds, limit));
      if reply.Rows? && reply.rows != []
      then World(store, w.publishers[p := Draining(workerId, now, reply.rows, 0, false)], w.delivered)
      else World(store, w.publishers[p := Idle], w.delivered)
    case HandlerReturns(p) =>
      var d := w.publishers[p];
      w.(publishers := w.publishers[p := d.(handed := true)], delivered := w.delivered + {d.batch[d.next].outboxId})
    case HandlerRaises(p) => w.(publishers := w.publishers[p := Idle])
    case MarkRow(p) =>
      var d := w.publishers[p];
      var (store, reply) := Apply(w.store, MarkPublished(d.batch[d.next].outboxId, d.workerId, d.now));
      // A refused mark means the lease was lost, and the drain ends with an error.
      var after :=
        if reply == Flag(true) && d.next + 1 < |d.batch| then d.(next := d.next + 1, handed := false) else Idle;
      World(store, w.publishers[p := after], w.delivered)
  }

  ghost predicate HandledFirst(w: World) {
    && (forall r :: r in w.store.outbox && w.store.outbox[r].publishedAt.Some? ==> r in w.delivered)
    && (forall p :: Working(w, p) && w.publishers[p].handed ==>
          w.publishers[p].batch[w.publishers[p].next].outboxId in w.delivered)
  }

  /** A call other than a mark publishes nothing. */
  lemma OnlyMarkingPublishes(s: Store, c: Command, r: Id)
    requires Indexed(s) && FreshIds(s, c) && !c.MarkPublished?
    requires r in Apply(s, c).0.outbox && Apply(s, c).0.outbox[r].publishedAt.Some?
    ensures r in s.outbox && s.outbox[r].publishedAt.Some?
  {
    if r in s.outbox {
      RowChangeHappens(s, c, r);
    }
  }

  lemma CallKeepsHandledFirst(w: World, c: Command)
    requires Enabled(w, Call(c)) && HandledFirst(w)
    ensures HandledFirst(Next(w, Call(c)))
  {
    forall r | r in Next(w, Call(c)).store.outbox && Next(w, Call(c)).store.outbox[r].publishedAt.Some?
      ensures r in w.delivered
    {
      OnlyMarkingPublishes(w.store, c, r);
    }
    assert forall p :: Working(Next(w, Call(c)), p) <==> Working(w, p);
  }

  lemma StartKeepsHandledFirst(w: World, m: Move)
    requires m.StartDrain? && Enabled(w, m) && HandledFirst(w)
    ensures HandledFirst(Next(w, m))
  {
    forall r | r in Next(w, m).store.outbox && Next(w, m).store.outbox[r].publishedAt.Some?
      ensures r in w.delivered
    {
      OnlyMarkingPublishes(w.store, LeaseOutbox(m.workerId, m.now, m.leaseSeconds, m.limit), r);
    }
    assert forall p :: p != m.publisher ==> (Working(Next(w, m), p) <==> Working(w, p));
  }

  lemma HandlerKeepsHandledFirst(w: World, m: Move)
    requires m.HandlerReturns? || m.HandlerRaises?
    requires Enabled(w, m) && HandledFirst(w)
    ensures HandledFirst(Next(w, m))
  {
    assert forall p :: p != m.publisher ==> (Working(Next(w, m), p) <==> Working(w, p));
  }

  lemma MarkKeepsHandledFirst(w: World, m: Move)
    requires m.MarkRow? && Enabled(w, m) && HandledFirst(w)
    ensures HandledFirst(Next(w, m))
  {
    assert forall p :: p != m.publisher ==> (Working(Next(w, m), p) <==> Working(w, p));
  }

  lemma HandledFirstStep(w: World, m: Move)
    requires Enabled(w, m) && HandledFirst(w)
    ensures HandledFirst(Next(w, m))
  {
    match m {
      case Call(c) => CallKeepsHandledFirst(w, c);
      case StartDrain(_, _, _, _, _) => StartKeepsHandledFirst(w, m);
      case HandlerReturns(_) => HandlerKeepsHandledFirst(w, m);
      case HandlerRaises(_) => HandlerKeepsHandledFirst(w, m);
      case MarkRow(_) => MarkKeepsHandledFirst(w, m);
    }
  }

  ghost predicate WorldRun(worlds: seq<World>, moves: seq<Move>) {
    && |worlds| == |moves| + 1 && worlds[0] == World(EMPTY, map[], {})
    && forall k :: 0 <= k < |moves| ==> Enabled(worlds[k], moves[k]) && worlds[k + 1] == Next(worlds[k], moves[k])
  }

  /** If rows are marked by drain_once only, then however the publishers and the other calls
      interleave, every published row was accepted by a handler first. */
  lemma {:induction false} PublishedAfterHandling(worlds: seq<World>, moves: seq<Move>, k: nat)
    requires WorldRun(worlds, moves) && k <= |moves|
    ensures HandledFirst(worlds[k])
  {
    if k > 0 {
      PublishedAfterHandling(worlds, moves, k - 1);
      HandledFirstStep(worlds[k - 1], moves[k - 1]);
    }
  }

  // ----- One publisher on its own -----

  datatype DrainError = Refused(error: RepositoryError) | HandlerFailed | LeaseLost(outboxId: Id)

  ghost predicate RowsKeyed(outbox: map<Id, OutboxRecord>) {
    forall r :: r in outbox ==> outbox[r].outboxId == r
  }

  /** How many rows the handler accepts before it first raises. */
  function Accepted(rows: seq<OutboxRecord>, accepts: OutboxRecord -> bool): (k: nat)
    ensures k <= |rows| && forall i :: 0 <= i < k ==> accepts(rows[i])
    ensures k < |rows| ==> !accepts(rows[k])
  {
    if rows == [] || !accepts(rows[0]) then 0 else 1 + Accepted(rows[1..], accepts)
  }

  ghost function RowIds(rows: seq<OutboxRecord>): set<Id> {
    set r | r in rows :: r.outboxId
  }

  /** The outbox after the given rows have been marked. */
  ghost function Marked(outbox: map<Id, OutboxRecord>, ids: set<Id>, now: Time): map<Id, OutboxRecord> {
    map r | r in outbox :: if r in ids then Published(outbox[r], now) else outbox[r]
  }

  /** What a claim hands out: distinct rows, as they now stand in the outbox, owned and unpublished. */
  ghost predicate Claims(outbox: map<Id, OutboxRecord>, rows: seq<OutboxRecord>, workerId: Id) {
    && (forall i :: 0 <= i < |rows| ==> rows[i].outboxId in outbox && outbox[rows[i].outboxId] == rows[i])
    && (forall i :: 0 <= i < |rows| ==> Markable(rows[i], workerId))
    && (forall i, j :: 0 <= i < j < |rows| ==> rows[i].outboxId != rows[j].outboxId)
  }

  lemma ClaimHandsOutOwnRows(s: Store, workerId: Id, now: Time, leaseSeconds: int, limit: int)
    requires RowsKeyed(s.outbox) && leaseSeconds >= 1 && limit >= 1
    ensures var (s', reply) := LeaseOutboxStep(s, workerId, now, leaseSeconds, limit);
            reply.Rows? && Claims(s'.outbox, reply.rows, workerId)
  {
    var due := DueIds(s.outbox, now);
    var ids := Batch(s.outbox, due, limit);
    BatchMeaning(s.outbox, due, limit);
    var (s', reply) := LeaseOutboxStep(s, workerId, now, leaseSeconds, limit);
    forall i | 0 <= i < |ids|
      ensures ids[i] in due && reply.rows[i] == Claimed(s.outbox[ids[i]], workerId, now, leaseSeconds)
      ensures s'.outbox[ids[i]] == reply.rows[i]
    {
      assert ids[i] in Elements(ids);
    }
    forall i, j | 0 <= i < j < |ids|
      ensures reply.rows[i].outboxId != reply.rows[j].outboxId
    {
      SoonerIsTotal(s.outbox, ids[i], ids[j]);
    }
  }

  /** What publishing the rows one after the other leads to: the outbox, the number of rows handed over, and
      the error that ends it early. */
  datatype Publishing = Publishing(outbox: map<Id, OutboxRecord>, handed: nat, error: Option<DrainError>)

  function Publish(outbox: map<Id, OutboxRecord>, rows: seq<OutboxRecord>, workerId: Id, now: Time,
                   accepts: OutboxRecord -> bool): Publishing
  {
    if rows == [] then Publishing(outbox, 0, None)
    else if !accepts(rows[0]) then Publishing(outbox, 0, Some(HandlerFailed))
    else
      var id := rows[0].outboxId;
      if id !in outbox || !Markable(outbox[id], workerId) then Publishing(outbox, 1, Some(LeaseLost(id)))
      else
        var rest := Publish(outbox[id := Published(outbox[id], now)], rows[1..], workerId, now, accepts);
        rest.(handed := rest.handed + 1)
  }

  lemma {:induction false} PublishingKeepsMarks(outbox: map<Id, OutboxRecord>, rows: seq<OutboxRecord>, workerId: Id,
                                                now: Time, accepts: OutboxRecord -> bool, r: Id)
    requires r in outbox
    requires outbox[r].publishedAt.Some? || forall row :: row in rows ==> row.outboxId != r
    ensures var p := Publish(outbox, rows, workerId, now, accepts); r in p.outbox && p.outbox[r] == outbox[r]
  {
    if rows != [] && accepts(rows[0]) {
      var id, tail := rows[0].outboxId, rows[1..];
      assert rows[0] in rows && forall row :: row in tail ==> row in rows;
      if id in outbox && Markable(outbox[id], workerId) {
        PublishingKeepsMarks(outbox[id := Published(outbox[id], now)], tail, workerId, now, accepts, r);
      }
    }
  }

  /** Whatever happened to the rows since they were claimed: the handler accepted all that were handed over; all
      of them end up marked, except the last one when its lease is lost, which is then not the worker's to mark. */
  lemma {:induction false} HandedRowsAreMarked(outbox: map<Id, OutboxRecord>, rows: seq<OutboxRecord>,
                                               workerId: Id, now: Time, accepts: OutboxRecord -> bool)
    ensures var p := Publish(outbox, rows, workerId, now, accepts);
            var marked := if p.error.Some? && p.error.value.LeaseLost? then p.handed - 1 else p.handed;
            && 0 <= marked <= p.handed <= |rows|
            && (forall i :: 0 <= i < p.handed ==> accepts(rows[i]))
            && (forall i :: 0 <= i < marked ==>
                  rows[i].outboxId in p.outbox && p.outbox[rows[i].outboxId].publishedAt == Some(now))
            && match p.error
               case None => p.handed == |rows|
               case Some(HandlerFailed) => p.handed < |rows| && !accepts(rows[p.handed])
               case Some(LeaseLost(id)) =>
                 rows[marked].outboxId == id && (id in p.outbox ==> !Markable(p.outbox[id], workerId))
               case Some(Refused(_)) => false
  {
    if rows != [] && accepts(rows[0]) {
      var id, tail := rows[0].outboxId, rows[1..];
      if id in outbox && Markable(outbox[id], workerId) {
        var after := outbox[id := Published(outbox[id], now)];
        HandedRowsAreMarked(after, tail, workerId, now, accepts);
        PublishingKeepsMarks(after, tail, workerId, now, accepts, id);
        assert forall i :: 0 < i < |rows| ==> rows[i] == tail[i - 1];
      }
    }
  }

  /** Publishing touches only the rows it is given, and an unmarked one only if its worker may mark it. */
  lemma {:induction false} OthersAreUntouched(outbox: map<Id, OutboxRecord>, rows: seq<OutboxRecord>, workerId: Id,
                                              now: Time, accepts: OutboxRecord -> bool, r: Id)
    requires r in outbox
    ensures var p := Publish(outbox, rows, workerId, now, accepts);
            && p.outbox.Keys == outbox.Keys
            && (p.outbox[r] == outbox[r]
                || (p.outbox[r] == Published(outbox[r], now) && Markable(outbox[r], workerId)
                    && exists row :: row in rows && accepts(row) && row.outboxId == r))
  {
    if rows != [] && accepts(rows[0]) {
      var id, tail := rows[0].outboxId, rows[1..];
      if id in outbox && Markable(outbox[id], workerId) {
        var after := outbox[id := Published(outbox[id], now)];
        OthersAreUntouched(after, tail, workerId, now, accepts, r);
        assert forall row :: row in tail ==> row in rows;
        assert rows[0] in rows;
      }
    }
  }

  lemma ClaimsAfterMark(outbox: map<Id, OutboxRecord>, rows: seq<OutboxRecord>, workerId: Id, now: Time)
    requires Claims(outbox, rows, workerId) && rows != []
    ensures var id := rows[0].outboxId;
            id in outbox && Claims(outbox[id := Published(outbox[id], now)], rows[1..], workerId)
  {
    var tail := rows[1..];
    assert forall i :: 0 <= i < |tail| ==> tail[i] == rows[i + 1];
  }

  lemma MarkOneMore(outbox: map<Id, OutboxRecord>, rows: seq<OutboxRecord>, workerId: Id, k: nat, now: Time)
    requires Claims(outbox, rows, workerId) && rows != [] && k < |rows|
    ensures var id := rows[0].outboxId;
            && id in outbox
            && Marked(outbox[id := Published(outbox[id], now)], RowIds(rows[1..][..k]), now)
               == Marked(outbox, RowIds(rows[..k + 1]), now)
  {
    var id := rows[0].outboxId;
    assert rows[..k + 1] == [rows[0]] + rows[1..][..k];
    assert RowIds(rows[..k + 1]) == {id} + RowIds(rows[1..][..k]);
    assert id !in RowIds(rows[1..][..k]);
  }

  /** With no other caller in between no lease is lost: exactly the rows accepted before the first refusal are
      handed over and marked. */
  lemma {:induction false} ClaimedRowsArePublished(outbox: map<Id, OutboxRecord>, rows: seq<OutboxRecord>,
                                                   workerId: Id, now: Time, accepts: OutboxRecord -> bool)
    requires Claims(outbox, rows, workerId)
    ensures var k := Accepted(rows, accepts);
            Publish(outbox, rows, workerId, now, accepts) ==
              Publishing(Marked(outbox, RowIds(rows[..k]), now), k, if k == |rows| then None else Some(HandlerFailed))
  {
    if rows == [] || !accepts(rows[0]) {
      assert rows[..0] == [] && Marked(outbox, RowIds([]), now) == outbox;
    } else {
      var id, tail := rows[0].outboxId, rows[1..];
      ClaimsAfterMark(outbox, rows, workerId, now);
      ClaimedRowsArePublished(outbox[id := Published(outbox[id], now)], tail, workerId, now, accepts);
      MarkOneMore(outbox, rows, workerId, Accepted(tail, accepts), now);
    }
  }

  lemma PublishFromRow(outbox: map<Id, OutboxRecord>, rows: seq<OutboxRecord>, i: nat, workerId: Id, now: Time,
                       accepts: OutboxRecord -> bool)
    requires i < |rows|
    ensures var id := rows[i].outboxId;
            Publish(outbox, rows[i..], workerId, now, accepts) ==
              if !accepts(rows[i]) then Publishing(outbox, 0, Some(HandlerFailed))
              else if id !in outbox || !Markable(outbox[id], workerId) then Publishing(outbox, 1, Some(LeaseLost(id)))
              else
                var rest := Publish(outbox[id := Published(outbox[id], now)], rows[i + 1..], workerId, now, accepts);
                rest.(handed := rest.handed + 1)
  {
    assert rows[i..][0] == rows[i] && rows[i..][1..] == rows[i + 1..];
  }

  // ----- A publisher left alone in the world -----

  /** The handler's turn, or the mark that follows it. */
  ghost function Turn(w: World, p: Id, accepts: OutboxRecord -> bool): Move
    requires Working(w, p)
  {
    var d := w.publishers[p];
    if d.handed then MarkRow(p) else if accepts(d.batch[d.next]) then HandlerReturns(p) else HandlerRaises(p)
  }

  /** The turns a publisher has left at most. */
  ghost function TurnsLeft(w: World, p: Id): nat {
    if Working(w, p)
    then 2 * (|w.publishers[p].batch| - w.publishers[p].next) - (if w.publishers[p].handed then 1 else 0)
    else 0
  }

  /** The world after the publisher has finished its batch with no other move in between. */
  ghost function LeftAlone(w: World, p: Id, accepts: OutboxRecord -> bool): World
    requires Indexed(w.store)
    decreases TurnsLeft(w, p)
  {
    if !Working(w, p) then w else LeftAlone(Next(w, Turn(w, p, accepts)), p, accepts)
  }

  ghost function IdsOf(rows: seq<OutboxRecord>): set<Id> {
    set r | r in rows :: r.outboxId
  }

  /** The two turns for a row the handler accepts: what they lead to. */
  ghost function AfterAccepting(w: World, p: Id): World
    requires Working(w, p)
  {
    var d := w.publishers[p];
    var id := d.batch[d.next].outboxId;
    var markable := id in w.store.outbox && Markable(w.store.outbox[id], d.workerId);
    World(if markable then w.store.(outbox := w.store.outbox[id := Published(w.store.outbox[id], d.now)]) else w.store,
          w.publishers[p := if markable && d.next + 1 < |d.batch| then d.(next := d.next + 1) else Idle],
          w.delivered + {id})
  }

  lemma HandlerTurn(w: World, p: Id, accepts: OutboxRecord -> bool)
    requires Indexed(w.store) && Working(w, p) && !w.publishers[p].handed
    requires accepts(w.publishers[p].batch[w.publishers[p].next])
    ensures LeftAlone(w, p, accepts) == LeftAlone(Handed(w, p), p, accepts)
  {
  }

  /** The row at hand has been accepted but not yet marked. */
  ghost function Handed(w: World, p: Id): World
    requires Working(w, p)
  {
    var d := w.publishers[p];
    w.(publishers := w.publishers[p := d.(handed := true)], delivered := w.delivered + {d.batch[d.next].outboxId})
  }

  lemma MarkLeadsTo(w: World, p: Id)
    requires Indexed(w.store) && Working(w, p) && !w.publishers[p].handed
    ensures Enabled(Handed(w, p), MarkRow(p)) && Next(Handed(w, p), MarkRow(p)) == AfterAccepting(w, p)
    ensures Indexed(AfterAccepting(w, p).store)
  {
    var after := Next(Handed(w, p), MarkRow(p));
    assert after.publishers == AfterAccepting(w, p).publishers;
  }

  lemma OneTurn(w: World, p: Id, accepts: OutboxRecord -> bool)
    requires Indexed(w.store) && Working(w, p)
    ensures Indexed(Next(w, Turn(w, p, accepts)).store)
    ensures LeftAlone(w, p, accepts) == LeftAlone(Next(w, Turn(w, p, accepts)), p, accepts)
  {
  }

  lemma AcceptedTurns(w: World, p: Id, accepts: OutboxRecord -> bool)
    requires Indexed(w.store) && Working(w, p) && !w.publishers[p].handed
    requires accepts(w.publishers[p].batch[w.publishers[p].next])
    ensures Indexed(AfterAccepting(w, p).store)
    ensures LeftAlone(w, p, accepts) == LeftAlone(AfterAccepting(w, p), p, accepts)
  {
    HandlerTurn(w, p, accepts);
    MarkLeadsTo(w, p);
    OneTurn(Handed(w, p), p, accepts);
  }

  lemma RefusedTurn(w: World, p: Id, accepts: OutboxRecord -> bool)
    requires Indexed(w.store) && Working(w, p) && !w.publishers[p].handed
    requires !accepts(w.publishers[p].batch[w.publishers[p].next])
    ensures LeftAlone(w, p, accepts) == w.(publishers := w.publishers[p := Idle])
  {
  }

  lemma IdsByFirst(rows: seq<OutboxRecord>, n: nat)
    requires rows != [] && n <= |rows| - 1
    ensures IdsOf(rows[..n + 1]) == {rows[0].outboxId} + IdsOf(rows[1..][..n])
  {
    assert rows[..n + 1] == [rows[0]] + rows[1..][..n];
  }

  /** From where the batch stands, a publisher left alone does what publishing the rest of the rows does. */
  lemma {:induction false} LeftAlonePublishes(w: World, p: Id, accepts: OutboxRecord -> bool)
    requires Indexed(w.store) && Working(w, p) && !w.publishers[p].handed
    ensures var d := w.publishers[p];
            var rest := d.batch[d.next..];
            var published := Publish(w.store.outbox, rest, d.workerId, d.now, accepts);
            && published.handed <= |rest|
            && LeftAlone(w, p, accepts) == World(w.store.(outbox := published.outbox), w.publishers[p := Idle],
                                                 w.delivered + IdsOf(rest[..published.handed]))
    decreases TurnsLeft(w, p)
  {
    var d := w.publishers[p];
    var rest := d.batch[d.next..];
    assert rest[0] == d.batch[d.next] && rest[1..] == d.batch[d.next + 1..];
    if accepts(rest[0]) {
      var after := AfterAccepting(w, p);
      AcceptedTurns(w, p, accepts);
      if Working(after, p) {
        LeftAlonePublishes(after, p, accepts);
        assert after.publishers[p := Idle] == w.publishers[p := Idle];
        IdsByFirst(rest, Publish(after.store.outbox, rest[1..], d.workerId, d.now, accepts).handed);
      } else {
        IdsByFirst(rest, 0);
        assert IdsOf(rest[1..][..0]) == {};
        assert d.next + 1 == |d.batch| ==> rest[1..] == [];
      }
    } else {
      RefusedTurn(w, p, accepts);
      assert IdsOf(rest[..0]) == {};
    }
  }

  /** A drain with no other move in between claims a batch and then publishes it row by row. */
  lemma DrainAlonePublishes(w: World, m: Move, accepts: OutboxRecord -> bool)
    requires m.StartDrain? && Enabled(w, m)
    ensures Indexed(Next(w, m).store)
    ensures var (claimed, reply) := Apply(w.store, LeaseOutbox(m.workerId, m.now, m.leaseSeconds, m.limit));
            var rows := if reply.Rows? then reply.rows else [];
            var published := Publish(claimed.outbox, rows, m.workerId, m.now, accepts);
            && published.handed <= |rows|
            && LeftAlone(Next(w, m), m.publisher, accepts) ==
                 World(claimed.(outbox := published.outbox), w.publishers[m.publisher := Idle],
                       w.delivered + IdsOf(rows[..published.handed]))
  {
    var w1 := Next(w, m);
    if Working(w1, m.publisher) {
      var d := w1.publishers[m.publisher];
      assert d.batch[0..] == d.batch;
      LeftAlonePublishes(w1, m.publisher, accepts);
      assert w1.publishers[m.publisher := Idle] == w.publishers[m.publisher := Idle];
    } else {
      assert IdsOf([]) == {} && w.delivered + {} == w.delivered;
    }
  }

  /** The rest of the batch, published from this outbox, makes up the whole. */
  ghost predicate Underway(whole: Publishing, outbox: map<Id, OutboxRecord>, rows: seq<OutboxRecord>, i: nat,
                           workerId: Id, now: Time, accepts: OutboxRecord -> bool)
  {
    && i <= |rows|
    && var rest := Publish(outbox, rows[i..], workerId, now, accepts);
       whole == Publishing(rest.outbox, rest.handed + i, rest.error)
  }

  lemma UnderwayAtFirst(outbox: map<Id, OutboxRecord>, rows: seq<OutboxRecord>, workerId: Id, now: Time,
                        accepts: OutboxRecord -> bool)
    ensures Underway(Publish(outbox, rows, workerId, now, accepts), outbox, rows, 0, workerId, now, accepts)
  {
    assert rows[0..] == rows;
  }

  lemma UnderwayStep(whole: Publishing, outbox: map<Id, OutboxRecord>, rows: seq<OutboxRecord>, i: nat,
                     workerId: Id, now: Time, accepts: OutboxRecord -> bool)
    requires Underway(whole, outbox, rows, i, workerId, now, accepts) && i < |rows|
    ensures var id := rows[i].outboxId;
            if !accepts(rows[i]) then whole == Publishing(outbox, i, Some(HandlerFailed))
            else if id !in outbox || !Markable(outbox[id], workerId) then
              whole == Publishing(outbox, i + 1, Some(LeaseLost(id)))
            else Underway(whole, outbox[id := Published(outbox[id], now)], rows, i + 1, workerId, now, accepts)
  {
    PublishFromRow(outbox, rows, i, workerId, now, accepts);
  }

  lemma UnderwayAtLast(whole: Publishing, outbox: map<Id, OutboxRecord>, rows: seq<OutboxRecord>,
                       workerId: Id, now: Time, accepts: OutboxRecord -> bool)
    requires Underway(whole, outbox, rows, |rows|, workerId, now, accepts)
    ensures whole == Publishing(outbox, |rows|, None)
  {
    assert rows[|rows|..] == [];
  }

  class OutboxPublisher {
    const repository: MemoryHarnessRepository
    const leaseSeconds: int
    /** The rows the handler has accepted, in order. */
    var delivered: seq<OutboxRecord>

    constructor (repository: MemoryHarnessRepository, leaseSeconds: int)
      ensures this.repository == repository && this.leaseSeconds == leaseSeconds && delivered == []
    {
      this.repository := repository;
      this.leaseSeconds := leaseSeconds;
      delivered := [];
    }

    /** Hands over and marks one row after the other, whatever has happened to them since the claim. */
    method PublishRows(rows: seq<OutboxRecord>, workerId: Id, now: Time, accepts: OutboxRecord -> bool)
      returns (r: Result<nat, DrainError>)
      requires repository.Valid()
      modifies this`delivered, repository`outbox
      ensures repository.Valid()
      ensures var p := Publish(old(repository.outbox), rows, workerId, now, accepts);
              && repository.outbox == p.outbox && p.handed <= |rows| && delivered == old(delivered) + rows[..p.handed]
              && r == if p.error.None? then Ok(|rows|) else Err(p.error.value)
    {
      ghost var whole := Publish(repository.outbox, rows, workerId, now, accepts);
      UnderwayAtFirst(repository.outbox, rows, workerId, now, accepts);
      for i := 0 to |rows|
        invariant repository.Valid() && delivered == old(delivered) + rows[..i]
        invariant Underway(whole, repository.outbox, rows, i, workerId, now, accepts)
      {
        UnderwayStep(whole, repository.outbox, rows, i, workerId, now, accepts);
        if !accepts(rows[i]) {
          return Err(HandlerFailed);
        }
        assert rows[..i + 1] == rows[..i] + [rows[i]];
        delivered := delivered + [rows[i]];
        var marked := repository.MarkOutboxPublished(rows[i].outboxId, workerId, now);
        if marked != Flag(true) {
          return Err(LeaseLost(rows[i].outboxId));
        }
      }
      UnderwayAtLast(whole, repository.outbox, rows, workerId, now, accepts);
      assert rows[..|rows|] == rows;
      r := Ok(|rows|);
    }

    /** Publishes one claimed batch; with no other caller in between no lease is lost, and the
        rows marked are exactly those the handler accepted before it first raised. */
    method DrainOnce(workerId: Id, now: Time, limit: int, accepts: OutboxRecord -> bool)
      returns (r: Result<nat, DrainError>)
      requires repository.Valid() && RowsKeyed(repository.outbox)
      modifies this`delivered, repository`outbox
      ensures var (s, reply) := old(LeaseOutboxStep(repository.State(), workerId, now, leaseSeconds, limit));
              match reply
              case Rows(rows) =>
                var k := Accepted(rows, accepts);
                && delivered == old(delivered) + rows[..k]
                && repository.State() == s.(outbox := Marked(s.outbox, RowIds(rows[..k]), now))
                && r == (if k == |rows| then Ok(k) else Err(HandlerFailed))
              case Raised(e) => r == Err(Refused(e)) && repository.State() == s && delivered == old(delivered)
              case _ => false
    {
      ghost var s0 := repository.State();
      var reply := repository.LeaseOutbox(workerId, now, leaseSeconds, limit);
      if reply.Raised? {
        return Err(Refused(reply.error));
      }
      ClaimHandsOutOwnRows(s0, workerId, now, leaseSeconds, limit);
      ClaimedRowsArePublished(repository.outbox, reply.rows, workerId, now, accepts);
      r := PublishRows(reply.rows, workerId, now, accepts);
    }
  }
}
