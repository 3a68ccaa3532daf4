/** DagScheduler: rounds of ready nodes, bounded retries, cancellation and failure cascades.

    What a run cannot choose is a parameter: the reading of the cancellation token at the
    head of every round, and for every node the reading before and the result of each of
    its attempts. A node is run in at most one round, so one script per node is enough. */
module Scheduler {
  import opened Common
  import opened Graphs
  import opened TaskDag
  import opened TaskStates
  import opened Cascade

  type Payload = string

  datatype AttemptResult =
    | Completed(value: Payload)
    | TimeoutReached
    | Retryable(code: string)
    | Permanent(code: string)
    | Interrupted
    | Unexpected

  datatype Turn = Turn(cancelledBefore: bool, result: AttemptResult)

  /** Attempt number to what happens in it. */
  type Script = nat -> Turn

  datatype TaskOutcome = TaskOutcome(
    taskId: Id, state: TaskState, attempts: nat, result: Option<Payload>, errorCode: Option<string>)

  datatype SchedulingError = Deadlock

  predicate WorthRetrying(r: AttemptResult) {
    r.TimeoutReached? || r.Retryable?
  }

  /** The outcome of the retry loop from the given attempt on. */
  function NodeOutcome(node: TaskNode, script: Script, attempt: nat): TaskOutcome
    requires 1 <= attempt <= node.maxAttempts
    decreases node.maxAttempts - attempt
  {
    if script(attempt).cancelledBefore then
      TaskOutcome(node.taskId, Cancelled, attempt - 1, None, Some("run_cancelled"))
    else match script(attempt).result
      case Completed(value) => TaskOutcome(node.taskId, Succeeded, attempt, Some(value), None)
      case TimeoutReached =>
        if attempt == node.maxAttempts
        then TaskOutcome(node.taskId, TimedOut, attempt, None, Some("task_timed_out"))
        else NodeOutcome(node, script, attempt + 1)
      case Retryable(code) =>
        if attempt == node.maxAttempts
        then TaskOutcome(node.taskId, Failed, attempt, None, Some(code))
        else NodeOutcome(node, script, attempt + 1)
      case Permanent(code) => TaskOutcome(node.taskId, Failed, attempt, None, Some(code))
      case Interrupted => TaskOutcome(node.taskId, Cancelled, attempt, None, Some("run_cancelled"))
      case Unexpected => TaskOutcome(node.taskId, Failed, attempt, None, Some("unexpected_task_error"))
  }

  /** What an outcome says about the script, without following the loop: which attempts were
      started, that all but the last were worth retrying, and why the last one was final. */
  ghost predicate Accounts(node: TaskNode, script: Script, o: TaskOutcome) {
    && o.taskId == node.taskId
    && o.attempts <= node.maxAttempts
    && (forall k: nat :: 1 <= k <= o.attempts ==> !script(k).cancelledBefore)
    && (forall k: nat :: 1 <= k < o.attempts ==> WorthRetrying(script(k).result))
    && (o.result.Some? <==> o.state == Succeeded)
    && match o.state
       case Succeeded =>
         o.attempts >= 1 && o.errorCode == None && script(o.attempts).result == Completed(o.result.value)
       case TimedOut =>
         o.attempts == node.maxAttempts && script(o.attempts).result == TimeoutReached
         && o.errorCode == Some("task_timed_out")
       case Failed =>
         && o.attempts >= 1
         && match script(o.attempts).result {
            case Retryable(code) => o.attempts == node.maxAttempts && o.errorCode == Some(code)
            case Permanent(code) => o.errorCode == Some(code)
            case Unexpected => o.errorCode == Some("unexpected_task_error")
            case _ => false
          }
       case Cancelled =>
         && o.errorCode == Some("run_cancelled")
         && (|| (o.attempts >= 1 && script(o.attempts).result == Interrupted)
             || (&& o.attempts < node.maxAttempts && script(o.attempts + 1).cancelledBefore
                 && (o.attempts >= 1 ==> WorthRetrying(script(o.attempts).result))))
       case _ => false
  }

  lemma {:induction false} NodeOutcomeAccounts(node: TaskNode, script: Script, attempt: nat)
    requires 1 <= attempt <= node.maxAttempts
    requires forall k: nat :: 1 <= k < attempt ==> !script(k).cancelledBefore && WorthRetrying(script(k).result)
    ensures Accounts(node, script, NodeOutcome(node, script, attempt))
    decreases node.maxAttempts - attempt
  {
    if !script(attempt).cancelledBefore && WorthRetrying(script(attempt).result) && attempt < node.maxAttempts {
      NodeOutcomeAccounts(node, script, attempt + 1);
    }
  }

  /** A script admits only one accountable outcome. */
  lemma AccountIsUnique(node: TaskNode, script: Script, o: TaskOutcome, p: TaskOutcome)
    requires Accounts(node, script, o) && Accounts(node, script, p)
    ensures o == p
  {
  }

  /** The retry loop; starts counts the operations actually started. */
  method RunNode(node: TaskNode, script: Script) returns (o: TaskOutcome, starts: nat)
    requires node.Valid()
    ensures o == NodeOutcome(node, script, 1)
    ensures Accounts(node, script, o)
    ensures starts == o.attempts <= node.maxAttempts
  {
    NodeOutcomeAccounts(node, script, 1);
    starts := 0;
    var attempt := 1;
    while attempt <= node.maxAttempts
      invariant 1 <= attempt <= node.maxAttempts && starts == attempt - 1
      invariant NodeOutcome(node, script, 1) == NodeOutcome(node, script, attempt)
      decreases node.maxAttempts - attempt
    {
      if script(attempt).cancelledBefore {
        return TaskOutcome(node.taskId, Cancelled, attempt - 1, None, Some("run_cancelled")), starts;
      }
      starts := starts + 1;
      match script(attempt).result {
        case Completed(value) =>
          return TaskOutcome(node.taskId, Succeeded, attempt, Some(value), None), starts;
        case TimeoutReached =>
          if attempt == node.maxAttempts {
            return TaskOutcome(node.taskId, TimedOut, attempt, None, Some("task_timed_out")), starts;
          }
        case Retryable(code) =>
          if attempt == node.maxAttempts {
            return TaskOutcome(node.taskId, Failed, attempt, None, Some(code)), starts;
          }
        case Permanent(code) =>
          return TaskOutcome(node.taskId, Failed, attempt, None, Some(code)), starts;
        case Interrupted =>
          return TaskOutcome(node.taskId, Cancelled, attempt, None, Some("run_cancelled")), starts;
        case Unexpected =>
          return TaskOutcome(node.taskId, Failed, attempt, None, Some("unexpected_task_error")), starts;
      }
      attempt := attempt + 1;
    }
    // The raise after the loop is never reached.
    assert false;
  }

  ghost predicate AllValid(nodes: map<Id, TaskNode>) {
    forall t :: t in nodes ==> nodes[t].Valid()
  }

  /** The outcome of a node if it is run. */
  ghost function Fate(nodes: map<Id, TaskNode>, scripts: Id -> Script, t: Id): TaskOutcome
    requires AllValid(nodes) && t in nodes
  {
    assert nodes[t].Valid();
    NodeOutcome(nodes[t], scripts(t), 1)
  }

  /** The nodes that succeed if they are run. */
  ghost function Good(nodes: map<Id, TaskNode>, scripts: Id -> Script): set<Id>
    requires AllValid(nodes)
  {
    set t | t in nodes && Fate(nodes, scripts, t).state == Succeeded
  }

  function Skipped(t: Id, code: string): TaskOutcome {
    TaskOutcome(t, Cancelled, 0, None, Some(code))
  }

  /** Runs one round's ready nodes; they do not depend on each other, so any order will do. */
  method ExecuteAll(nodes: map<Id, TaskNode>, scripts: Id -> Script, ready: set<Id>)
    returns (completed: map<Id, TaskOutcome>, starts: map<Id, nat>)
    requires ready <= nodes.Keys && AllValid(nodes)
    ensures completed.Keys == starts.Keys == ready
    ensures forall t :: t in ready ==> completed[t] == Fate(nodes, scripts, t)
    ensures forall t :: t in ready ==> starts[t] == completed[t].attempts <= nodes[t].maxAttempts
  {
    completed, starts := map[], map[];
    var todo := ready;
    while todo != {}
      invariant todo <= ready && completed.Keys == starts.Keys == ready - todo
      invariant forall t :: t in completed ==> completed[t] == Fate(nodes, scripts, t)
      invariant forall t :: t in completed ==> starts[t] == completed[t].attempts <= nodes[t].maxAttempts
      decreases todo
    {
      var t :| t in todo;
      var outcome, n := RunNode(nodes[t], scripts(t));
      completed, starts := completed[t := outcome], starts[t := n];
      todo := todo - {t};
    }
  }

  /** How the settled sets of consecutive rounds relate: ran and blocked are the nodes run and
      the nodes cancelled for a dependency before the round, ran1 and blocked1 after it. */
  ghost predicate RoundLaw(g: Graph, good: set<Id>, ran: set<Id>, blocked: set<Id>, ran1: set<Id>, blocked1: set<Id>) {
    && ran <= ran1 <= g.Keys && blocked <= blocked1 <= g.Keys && ran1 !! blocked1
    && (forall t {:trigger IsNode(g, t)} :: IsNode(g, t) ==>
          && (t in ran1 <==> g[t] <= ran * good)
          && (t in blocked1 <==> g[t] * ((ran - good) + blocked) != {}))
  }

  /** Names the nodes for which a round's law is to be looked at. */
  ghost predicate IsNode(g: Graph, t: Id) {
    t in g
  }

  ghost predicate LawAt(g: Graph, good: set<Id>, ran: nat -> set<Id>, blocked: nat -> set<Id>, k: nat) {
    RoundLaw(g, good, ran(k), blocked(k), ran(k + 1), blocked(k + 1))
  }

  lemma RoundsObeyLaw(g: Graph, good: set<Id>, k: nat)
    requires Closed(g)
    ensures RoundLaw(g, good, RanSet(g, good, k), BlockedSet(g, good, k),
                     RanSet(g, good, k + 1), BlockedSet(g, good, k + 1))
  {
    RanGrows(g, good, k, k + 1);
    BlockedGrows(g, good, k, k + 1);
    RanNotBlocked(g, good, k + 1, k + 1);
    forall t | t in g
      ensures t in RanSet(g, good, k + 1) <==> g[t] <= RanSet(g, good, k) * good
      ensures t in BlockedSet(g, good, k + 1)
              <==> g[t] * ((RanSet(g, good, k) - good) + BlockedSet(g, good, k)) != {}
    {
      RanStep(g, good, t, k);
      BlockedStep(g, good, t, k);
      var bad := (RanSet(g, good, k) - good) + BlockedSet(g, good, k);
      assert forall d :: d in g[t] && d in bad ==> d in g[t] * bad;
    }
  }

  /** The pending nodes with a dependency that has a non-success outcome. */
  function Blocked(g: Graph, pending: set<Id>, outcomes: map<Id, TaskOutcome>): set<Id>
    requires pending <= g.Keys
  {
    set t | t in pending && exists d :: d in g[t] && d in outcomes && outcomes[d].state != Succeeded
  }

  /** The pending nodes whose dependencies all succeeded. */
  function Ready(g: Graph, pending: set<Id>, outcomes: map<Id, TaskOutcome>): set<Id>
    requires pending <= g.Keys
  {
    set t | t in pending && forall d :: d in g[t] ==> d in outcomes && outcomes[d].state == Succeeded
  }

  function SkipAll(tasks: set<Id>, code: string): map<Id, TaskOutcome> {
    map t | t in tasks :: Skipped(t, code)
  }

  /** Bookkeeping while the nodes in ran have been run and those in blocked cancelled. */
  ghost predicate Settled(g: Graph, good: set<Id>, ran: set<Id>, blocked: set<Id>,
                          pending: set<Id>, outcomes: map<Id, TaskOutcome>) {
    && pending == g.Keys - (ran + blocked)
    && outcomes.Keys == ran + blocked
    && (forall t :: t in ran ==> (outcomes[t].state == Succeeded <==> t in good))
    && (forall t :: t in blocked ==> outcomes[t] == Skipped(t, "dependency_failed"))
  }

  lemma BlockedNow(g: Graph, good: set<Id>, ran: set<Id>, blocked: set<Id>, ran1: set<Id>, blocked1: set<Id>,
                   pending: set<Id>, outcomes: map<Id, TaskOutcome>)
    requires RoundLaw(g, good, ran, blocked, ran1, blocked1) && Settled(g, good, ran, blocked, pending, outcomes)
    ensures Blocked(g, pending, outcomes) == blocked1 - blocked
  {
    var bad := (ran - good) + blocked;
    forall t | t in pending
      ensures t in Blocked(g, pending, outcomes) <==> t in blocked1
    {
      assert IsNode(g, t);
      forall d | d in g[t]
        ensures d in outcomes && outcomes[d].state != Succeeded <==> d in g[t] * bad
      {
      }
    }
  }

  lemma BlockPhase(g: Graph, good: set<Id>, ran: set<Id>, blocked: set<Id>, ran1: set<Id>, blocked1: set<Id>,
                   pending: set<Id>, outcomes: map<Id, TaskOutcome>)
    requires RoundLaw(g, good, ran, blocked, ran1, blocked1) && Settled(g, good, ran, blocked, pending, outcomes)
    ensures var now := Blocked(g, pending, outcomes);
            && now !! ran
            && Settled(g, good, ran, blocked1, pending - now, outcomes + SkipAll(now, "dependency_failed"))
  {
    BlockedNow(g, good, ran, blocked, ran1, blocked1, pending, outcomes);
  }

  lemma ReadyPhase(g: Graph, good: set<Id>, ran: set<Id>, blocked: set<Id>, ran1: set<Id>, blocked1: set<Id>,
                   pending: set<Id>, outcomes: map<Id, TaskOutcome>)
    requires RoundLaw(g, good, ran, blocked, ran1, blocked1) && Settled(g, good, ran, blocked1, pending, outcomes)
    ensures Ready(g, pending, outcomes) == ran1 - ran <= pending
  {
    forall t | t in pending
      ensures t in Ready(g, pending, outcomes) <==> t in ran1
    {
      assert IsNode(g, t);
    }
  }

  lemma RunPhase(g: Graph, good: set<Id>, ran: set<Id>, blocked: set<Id>, ran1: set<Id>,
                 pending: set<Id>, outcomes: map<Id, TaskOutcome>, completed: map<Id, TaskOutcome>)
    requires Settled(g, good, ran, blocked, pending, outcomes)
    requires ran <= ran1 && ran1 !! blocked && completed.Keys == ran1 - ran
    requires forall t :: t in completed ==> (completed[t].state == Succeeded <==> t in good)
    ensures Settled(g, good, ran1, blocked, pending - completed.Keys, outcomes + completed)
  {
  }

  /** One round before its nodes are run, put together. */
  lemma RoundWorks(g: Graph, good: set<Id>, ran: set<Id>, blocked: set<Id>, ran1: set<Id>, blocked1: set<Id>,
                   pending: set<Id>, outcomes: map<Id, TaskOutcome>)
    requires RoundLaw(g, good, ran, blocked, ran1, blocked1) && Settled(g, good, ran, blocked, pending, outcomes)
    ensures var now := Blocked(g, pending, outcomes);
            var table := outcomes + SkipAll(now, "dependency_failed");
            var ready := Ready(g, pending - now, table);
            && now !! ran && ran + ready == ran1 && ran1 !! blocked1
            && Settled(g, good, ran, blocked1, pending - now, table)
            && ready == ran1 - ran <= pending - now
            && (pending - now == {} <==> ran + blocked1 == g.Keys)
  {
    BlockPhase(g, good, ran, blocked, ran1, blocked1, pending, outcomes);
    var now := Blocked(g, pending, outcomes);
    ReadyPhase(g, good, ran, blocked, ran1, blocked1, pending - now, outcomes + SkipAll(now, "dependency_failed"));
    EmptyDifference(g.Keys, ran + blocked1);
  }

  /** Every node run so far has the outcome its script dictates, and its starts are counted. */
  ghost predicate RunsMatch(nodes: map<Id, TaskNode>, scripts: Id -> Script, ran: set<Id>,
                            starts: map<Id, nat>, table: map<Id, TaskOutcome>)
    requires AllValid(nodes)
  {
    && starts.Keys == ran <= nodes.Keys && ran <= table.Keys
    && (forall t :: t in ran ==> table[t] == Fate(nodes, scripts, t))
    && (forall t :: t in ran ==> starts[t] == table[t].attempts <= nodes[t].maxAttempts)
  }

  /** Everything the loop maintains about the tables. */
  ghost predicate Underway(nodes: map<Id, TaskNode>, scripts: Id -> Script, ran: set<Id>, blocked: set<Id>,
                           pending: set<Id>, starts: map<Id, nat>, table: map<Id, TaskOutcome>)
    requires AllValid(nodes)
  {
    && Settled(Edges(nodes), Good(nodes, scripts), ran, blocked, pending, table)
    && RunsMatch(nodes, scripts, ran, starts, table)
  }

  /** The nodes of each round, in terms of the sets of nodes run before each round. */
  ghost predicate Waves(ran: nat -> set<Id>, rounds: seq<set<Id>>) {
    forall j: nat {:trigger rounds[j]} :: j < |rounds| ==> rounds[j] == ran(j + 1) - ran(j) && rounds[j] != {}
  }

  ghost predicate NotCancelledBefore(cancelled: nat -> bool, n: nat) {
    forall j: nat :: j < n ==> !cancelled(j)
  }

  lemma OneMoreRound(cancelled: nat -> bool, ran: nat -> set<Id>, rounds: seq<set<Id>>, ready: set<Id>)
    requires NotCancelledBefore(cancelled, |rounds|) && !cancelled(|rounds|)
    requires Waves(ran, rounds) && ready == ran(|rounds| + 1) - ran(|rounds|) && ready != {}
    ensures NotCancelledBefore(cancelled, |rounds| + 1)
    ensures Waves(ran, rounds + [ready])
  {
  }

  lemma RunsGrow(nodes: map<Id, TaskNode>, scripts: Id -> Script, ran: set<Id>, ready: set<Id>,
                 starts: map<Id, nat>, table: map<Id, TaskOutcome>,
                 skipped: set<Id>, completed: map<Id, TaskOutcome>, n: map<Id, nat>)
    requires AllValid(nodes) && RunsMatch(nodes, scripts, ran, starts, table)
    requires skipped !! ran && ready !! ran && ready <= nodes.Keys && completed.Keys == n.Keys == ready
    requires forall t :: t in ready ==> completed[t] == Fate(nodes, scripts, t)
    requires forall t :: t in ready ==> n[t] == completed[t].attempts <= nodes[t].maxAttempts
    ensures RunsMatch(nodes, scripts, ran + ready, starts + n,
                      table + SkipAll(skipped, "dependency_failed") + completed)
  {
  }

  /** One round: cancel what is blocked, then run what is ready. */
  method Round(nodes: map<Id, TaskNode>, scripts: Id -> Script,
               pending: set<Id>, starts: map<Id, nat>, table: map<Id, TaskOutcome>,
               ghost ran: set<Id>, ghost blocked: set<Id>, ghost ran1: set<Id>, ghost blocked1: set<Id>)
    returns (ready: set<Id>, pending1: set<Id>, starts1: map<Id, nat>, table1: map<Id, TaskOutcome>)
    requires AllValid(nodes) && RoundLaw(Edges(nodes), Good(nodes, scripts), ran, blocked, ran1, blocked1)
    requires Underway(nodes, scripts, ran, blocked, pending, starts, table)
    ensures Underway(nodes, scripts, ran1, blocked1, pending1, starts1, table1)
    ensures ready == ran1 - ran && (ready == {} ==> ran1 == ran)
    ensures pending1 <= pending && (ready != {} ==> pending1 != pending)
  {
    EmptyDifference(ran1, ran);
    var g := Edges(nodes);
    RoundWorks(g, Good(nodes, scripts), ran, blocked, ran1, blocked1, pending, table);
    var now := Blocked(g, pending, table);
    var skips := table + SkipAll(now, "dependency_failed");
    pending1 := pending - now;
    ready := Ready(g, pending1, skips);
    var completed, n := ExecuteAll(nodes, scripts, ready);
    RunPhase(g, Good(nodes, scripts), ran, blocked1, ran1, pending1, skips, completed);
    RunsGrow(nodes, scripts, ran, ready, starts, table, now, completed, n);
    table1, starts1, pending1 := skips + completed, starts + n, pending1 - ready;
  }

  method RoundNumber(nodes: map<Id, TaskNode>, scripts: Id -> Script,
                     pending: set<Id>, starts: map<Id, nat>, table: map<Id, TaskOutcome>,
                     ghost ran: nat -> set<Id>, ghost blocked: nat -> set<Id>, ghost k: nat)
    returns (ready: set<Id>, pending1: set<Id>, starts1: map<Id, nat>, table1: map<Id, TaskOutcome>)
    requires AllValid(nodes) && LawAt(Edges(nodes), Good(nodes, scripts), ran, blocked, k)
    requires Underway(nodes, scripts, ran(k), blocked(k), pending, starts, table)
    ensures Underway(nodes, scripts, ran(k + 1), blocked(k + 1), pending1, starts1, table1)
    ensures ready == ran(k + 1) - ran(k) && (ready == {} ==> ran(k + 1) == ran(k))
    ensures pending1 <= pending && (ready != {} ==> pending1 != pending)
  {
    ready, pending1, starts1, table1 :=
      Round(nodes, scripts, pending, starts, table, ran(k), blocked(k), ran(k + 1), blocked(k + 1));
  }

  /** A complete table: cut short by cancellation, or with every node run or blocked. */
  ghost predicate Complete(all: set<Id>, cut: bool, ran: set<Id>, blocked: set<Id>, blocked1: set<Id>,
                           table: map<Id, TaskOutcome>) {
    && table.Keys == all
    && (cut || ran + blocked1 == all)
    && forall t :: t in all - ran ==>
         table[t] == Skipped(t, if t in blocked || !cut then "dependency_failed" else "run_cancelled")
  }

  lemma CompleteByCancelling(nodes: map<Id, TaskNode>, scripts: Id -> Script, ran: set<Id>, blocked: set<Id>,
                             ran1: set<Id>, blocked1: set<Id>, pending: set<Id>,
                             starts: map<Id, nat>, table: map<Id, TaskOutcome>)
    requires AllValid(nodes) && Underway(nodes, scripts, ran, blocked, pending, starts, table)
    requires RoundLaw(Edges(nodes), Good(nodes, scripts), ran, blocked, ran1, blocked1)
    ensures var cut := table + SkipAll(pending, "run_cancelled");
            Complete(nodes.Keys, true, ran, blocked, blocked1, cut) && RunsMatch(nodes, scripts, ran, starts, cut)
  {
  }

  lemma CompleteBySettling(nodes: map<Id, TaskNode>, scripts: Id -> Script, ran: set<Id>, blocked: set<Id>,
                           ran1: set<Id>, blocked1: set<Id>, cut: bool, settled: set<Id>,
                           starts: map<Id, nat>, table: map<Id, TaskOutcome>)
    requires AllValid(nodes) && RoundLaw(Edges(nodes), Good(nodes, scripts), ran, blocked, ran1, blocked1)
    requires settled == blocked || (settled == blocked1 && !cut)
    requires Underway(nodes, scripts, ran, settled, {}, starts, table)
    ensures Complete(nodes.Keys, cut, ran, blocked, blocked1, table) && RunsMatch(nodes, scripts, ran, starts, table)
  {
    EmptyDifference(nodes.Keys, ran + settled);
  }

  lemma NothingRunYet(nodes: map<Id, TaskNode>, scripts: Id -> Script)
    requires AllValid(nodes)
    ensures Underway(nodes, scripts, {}, {}, nodes.Keys, map[], map[])
  {
  }

  /** Why the loop was left. */
  datatype Exit = NothingPending | TokenCancelled | NothingReady

  /** What holds before each round: the tables are those of the rounds so far, none of which saw the token. */
  ghost predicate BeforeRound(nodes: map<Id, TaskNode>, scripts: Id -> Script, cancelled: nat -> bool,
                              ran: nat -> set<Id>, blocked: nat -> set<Id>, rounds: seq<set<Id>>,
                              pending: set<Id>, starts: map<Id, nat>, table: map<Id, TaskOutcome>)
    requires AllValid(nodes)
  {
    && Waves(ran, rounds) && NotCancelledBefore(cancelled, |rounds|)
    && Underway(nodes, scripts, ran(|rounds|), blocked(|rounds|), pending, starts, table)
  }

  lemma BeforeFirstRound(nodes: map<Id, TaskNode>, scripts: Id -> Script, cancelled: nat -> bool,
                         ran: nat -> set<Id>, blocked: nat -> set<Id>)
    requires AllValid(nodes) && ran(0) == {} && blocked(0) == {}
    ensures BeforeRound(nodes, scripts, cancelled, ran, blocked, [], nodes.Keys, map[], map[])
  {
    NothingRunYet(nodes, scripts);
  }

  /** A round that ran something leads to the next one. */
  lemma BeforeNextRound(nodes: map<Id, TaskNode>, scripts: Id -> Script, cancelled: nat -> bool,
                        ran: nat -> set<Id>, blocked: nat -> set<Id>, rounds: seq<set<Id>>, ready: set<Id>,
                        pending: set<Id>, starts: map<Id, nat>, table: map<Id, TaskOutcome>)
    requires AllValid(nodes) && Waves(ran, rounds) && NotCancelledBefore(cancelled, |rounds|)
    requires !cancelled(|rounds|) && ready == ran(|rounds| + 1) - ran(|rounds|) && ready != {}
    requires Underway(nodes, scripts, ran(|rounds| + 1), blocked(|rounds| + 1), pending, starts, table)
    ensures BeforeRound(nodes, scripts, cancelled, ran, blocked, rounds + [ready], pending, starts, table)
  {
    OneMoreRound(cancelled, ran, rounds, ready);
  }

  /** How the loop is left. */
  ghost predicate Left(nodes: map<Id, TaskNode>, scripts: Id -> Script, cancelled: nat -> bool,
                       ran: nat -> set<Id>, blocked: nat -> set<Id>, exit: Exit, rounds: seq<set<Id>>,
                       pending: set<Id>, starts: map<Id, nat>, table: map<Id, TaskOutcome>, settled: set<Id>)
    requires AllValid(nodes)
  {
    && Waves(ran, rounds) && NotCancelledBefore(cancelled, |rounds|)
    && Underway(nodes, scripts, ran(|rounds|), settled, pending, starts, table)
    && settled == (if exit == NothingReady then blocked(|rounds| + 1) else blocked(|rounds|))
    && match exit
       case NothingPending => pending == {}
       case TokenCancelled => cancelled(|rounds|)
       case NothingReady => !cancelled(|rounds|) && ran(|rounds| + 1) == ran(|rounds|)
  }

  /** One pass of the loop: left with the exit, or ready for the next round. */
  method Pass(nodes: map<Id, TaskNode>, scripts: Id -> Script, cancelled: nat -> bool,
              ghost ran: nat -> set<Id>, ghost blocked: nat -> set<Id>, rounds: seq<set<Id>>,
              pending: set<Id>, starts: map<Id, nat>, table: map<Id, TaskOutcome>)
    returns (exit: Option<Exit>, rounds1: seq<set<Id>>, pending1: set<Id>, starts1: map<Id, nat>,
             table1: map<Id, TaskOutcome>, ghost settled: set<Id>)
    requires AllValid(nodes) && LawAt(Edges(nodes), Good(nodes, scripts), ran, blocked, |rounds|)
    requires BeforeRound(nodes, scripts, cancelled, ran, blocked, rounds, pending, starts, table)
    ensures exit.Some? ==>
              Left(nodes, scripts, cancelled, ran, blocked, exit.value, rounds1, pending1, starts1, table1, settled)
    ensures exit.None? ==>
              && BeforeRound(nodes, scripts, cancelled, ran, blocked, rounds1, pending1, starts1, table1)
              && pending1 < pending
  {
    rounds1, pending1, starts1, table1 := rounds, pending, starts, table;
    settled := blocked(|rounds|);
    if cancelled(|rounds|) {
      exit := Some(TokenCancelled);
      return;
    }
    var ready;
    ready, pending1, starts1, table1 := RoundNumber(nodes, scripts, pending, starts, table, ran, blocked, |rounds|);
    if ready == {} {
      settled := blocked(|rounds| + 1);
      exit := Some(NothingReady);
    } else {
      BeforeNextRound(nodes, scripts, cancelled, ran, blocked, rounds, ready, pending1, starts1, table1);
      rounds1 := rounds + [ready];
      exit := None;
    }
  }

  /** The loop of the run, for any description ran, blocked of the rounds that obeys the law. */
  method Rounds(nodes: map<Id, TaskNode>, scripts: Id -> Script, cancelled: nat -> bool,
                ghost ran: nat -> set<Id>, ghost blocked: nat -> set<Id>)
    returns (exit: Exit, pending: set<Id>, rounds: seq<set<Id>>, starts: map<Id, nat>, table: map<Id, TaskOutcome>,
             ghost settled: set<Id>)
    requires AllValid(nodes)
    requires ran(0) == {} && blocked(0) == {}
    requires forall k: nat :: LawAt(Edges(nodes), Good(nodes, scripts), ran, blocked, k)
    ensures Left(nodes, scripts, cancelled, ran, blocked, exit, rounds, pending, starts, table, settled)
  {
    pending, table, rounds, starts := nodes.Keys, map[], [], map[];
    BeforeFirstRound(nodes, scripts, cancelled, ran, blocked);
    while pending != {}
      invariant BeforeRound(nodes, scripts, cancelled, ran, blocked, rounds, pending, starts, table)
      decreases pending
    {
      var left;
      left, rounds, pending, starts, table, settled :=
        Pass(nodes, scripts, cancelled, ran, blocked, rounds, pending, starts, table);
      if left.Some? {
        exit := left.value;
        return;
      }
    }
    settled := blocked(|rounds|);
    exit := NothingPending;
  }

  /** The scheduling deadlock: a stuck round is reached before the token is seen cancelled. */
  ghost predicate Deadlocks(g: Graph, good: set<Id>, cancelled: nat -> bool) {
    exists k: nat :: StuckAt(g, good, k) && NotCancelledBefore(cancelled, k + 1)
  }

  /** What a finished run reports after n rounds that ran nodes: everything run has the outcome
      its script dictates; the rest was cancelled, for a dependency or with the whole run. */
  ghost predicate Reports(nodes: map<Id, TaskNode>, scripts: Id -> Script, cut: bool, n: nat,
                          starts: map<Id, nat>, table: map<Id, TaskOutcome>)
    requires AllValid(nodes)
  {
    var g, good := Edges(nodes), Good(nodes, scripts);
    && Complete(nodes.Keys, cut, RanSet(g, good, n), BlockedSet(g, good, n), BlockedSet(g, good, n + 1), table)
    && RunsMatch(nodes, scripts, RanSet(g, good, n), starts, table)
  }

  lemma PathsObeyLaw(g: Graph, good: set<Id>, ran: nat -> set<Id>, blocked: nat -> set<Id>)
    requires Closed(g)
    requires ran == ((k: nat) => RanSet(g, good, k)) && blocked == ((k: nat) => BlockedSet(g, good, k))
    ensures ran(0) == {} && blocked(0) == {}
    ensures forall k: nat :: LawAt(g, good, ran, blocked, k)
  {
    forall k: nat
      ensures LawAt(g, good, ran, blocked, k)
    {
      RoundsObeyLaw(g, good, k);
    }
    forall t | t in g
      ensures t !in RanSet(g, good, 0) && t !in BlockedSet(g, good, 0)
    {
      ChainStep(g, t, 0);
    }
  }

  /** Once every round ran something and then the token was cancelled or every node settled,
      no round can have been stuck before. */
  lemma SettledMeansNoDeadlock(g: Graph, good: set<Id>, cancelled: nat -> bool, rounds: seq<set<Id>>)
    requires Waves((j: nat) => RanSet(g, good, j), rounds)
    requires cancelled(|rounds|) || RanSet(g, good, |rounds|) + BlockedSet(g, good, |rounds| + 1) == g.Keys
    ensures !Deadlocks(g, good, cancelled)
  {
    var n := |rounds|;
    forall k: nat | k < n
      ensures !StuckAt(g, good, k)
    {
      assert rounds[k] == RanSet(g, good, k + 1) - RanSet(g, good, k) && rounds[k] != {};
    }
    forall k: nat | StuckAt(g, good, k)
      ensures !NotCancelledBefore(cancelled, k + 1)
    {
      if k >= n {
        RanGrows(g, good, n, k);
        BlockedGrows(g, good, n + 1, k + 1);
        assert RanSet(g, good, k) + BlockedSet(g, good, k + 1) <= g.Keys;
      }
    }
  }

  /** DagScheduler.run. rounds lists the nodes run in each round, starts the operations
      started per node; both are also reported when the run raises. */
  method Run(nodes: map<Id, TaskNode>, scripts: Id -> Script, cancelled: nat -> bool)
    returns (r: Result<map<Id, TaskOutcome>, SchedulingError>, rounds: seq<set<Id>>, starts: map<Id, nat>)
    requires AllValid(nodes) && Closed(Edges(nodes))
    ensures r.Err? <==> Deadlocks(Edges(nodes), Good(nodes, scripts), cancelled)
    ensures r.Ok? ==> Reports(nodes, scripts, cancelled(|rounds|), |rounds|, starts, r.value)
    ensures Waves((k: nat) => RanSet(Edges(nodes), Good(nodes, scripts), k), rounds)
    ensures NotCancelledBefore(cancelled, |rounds|)
    ensures starts.Keys == RanSet(Edges(nodes), Good(nodes, scripts), |rounds|)
  {
    ghost var g, good := Edges(nodes), Good(nodes, scripts);
    ghost var ran, blocked := (k: nat) => RanSet(g, good, k), (k: nat) => BlockedSet(g, good, k);
    PathsObeyLaw(g, good, ran, blocked);
    var exit, pending, log, counts, table;
    ghost var settled;
    exit, pending, log, counts, table, settled := Rounds(nodes, scripts, cancelled, ran, blocked);
    rounds, starts := log, counts;
    ghost var n := |rounds|;
    assert LawAt(g, good, ran, blocked, n);
    if exit == NothingReady && pending != {} {
      EmptyDifference(nodes.Keys, ran(n) + blocked(n + 1));
      assert StuckAt(g, good, n);
      OneMoreReading(cancelled, n);
      return Err(Deadlock), rounds, starts;
    }
    if exit == TokenCancelled {
      CompleteByCancelling(nodes, scripts, ran(n), blocked(n), ran(n + 1), blocked(n + 1), pending, starts, table);
      table := table + SkipAll(pending, "run_cancelled");
    } else {
      CompleteBySettling(nodes, scripts, ran(n), blocked(n), ran(n + 1), blocked(n + 1),
                         cancelled(n), settled, starts, table);
    }
    SettledMeansNoDeadlock(g, good, cancelled, rounds);
    r := Ok(table);
  }

  lemma OneMoreReading(cancelled: nat -> bool, n: nat)
    requires NotCancelledBefore(cancelled, n) && !cancelled(n)
    ensures NotCancelledBefore(cancelled, n + 1)
  {
  }

  /** An operation starts in round k only if each dependency was run in an earlier round and
      succeeded. */
  lemma DependenciesSucceedFirst(nodes: map<Id, TaskNode>, scripts: Id -> Script, rounds: seq<set<Id>>,
                                 k: nat, t: Id, d: Id)
    requires AllValid(nodes) && Closed(Edges(nodes))
    requires Waves((j: nat) => RanSet(Edges(nodes), Good(nodes, scripts), j), rounds)
    requires k < |rounds| && t in rounds[k] && t in nodes && d in nodes[t].dependencyIds
    ensures d in Good(nodes, scripts) && exists j: nat :: j < k && d in rounds[j]
  {
    var g, good := Edges(nodes), Good(nodes, scripts);
    assert d in g[t];
    RanStep(g, good, t, k);
    assert d in RanSet(g, good, k);
    var level := LevelBelow(g, d, k);
    WaveIsLevel(g, good, d, level);
    assert d in rounds[level];
  }

  /** No task is run in two rounds. */
  lemma RunsInOneRound(g: Graph, good: set<Id>, rounds: seq<set<Id>>, j: nat, k: nat, t: Id)
    requires Waves((i: nat) => RanSet(g, good, i), rounds)
    requires j < |rounds| && k < |rounds| && t in rounds[j] && t in rounds[k]
    ensures j == k
  {
    WaveIsLevel(g, good, t, j);
    WaveIsLevel(g, good, t, k);
    LevelUnique(g, t, j, k);
  }

  lemma GoodWave(g: Graph, wave: set<Id>, k: nat)
    requires Closed(g) && Acyclic(g) && wave == RanSet(g, g.Keys, k + 1) - RanSet(g, g.Keys, k)
    ensures wave == Peeled(g, k + 1) - Peeled(g, k)
    ensures forall t :: t in wave <==> t in g && AtLevel(g, t, k)
  {
    AllGoodWaves(g, k);
    AllGoodWaves(g, k + 1);
    forall t ensures t in wave <==> t in g && AtLevel(g, t, k) {
      WaveIsLevel(g, g.Keys, t, k);
      assert t in g ==> Clean(g, g.Keys, t);
    }
  }

  /** The rounds are the levels of the graph, one after the other, and leave no node out. */
  ghost predicate AreLevels(g: Graph, rounds: seq<set<Id>>) {
    && (forall k: nat {:trigger rounds[k]} :: k < |rounds| ==> rounds[k] != {})
    && (forall k: nat, t :: k < |rounds| ==> (t in rounds[k] <==> t in g && AtLevel(g, t, k)))
    && (forall t :: t in g ==> exists k: nat :: k < |rounds| && t in rounds[k])
  }

  /** Each round is what one step of Kahn's peeling removes. */
  ghost predicate ArePeelings(g: Graph, rounds: seq<set<Id>>) {
    forall k: nat :: k < |rounds| ==> rounds[k] == Peeled(g, k + 1) - Peeled(g, k)
  }

  /** The longest dependency chain has n nodes. */
  ghost predicate IsHeight(g: Graph, n: nat) {
    && (forall t, k: nat :: t in g && AtLevel(g, t, k) ==> k < n)
    && (n > 0 ==> exists t :: t in g && AtLevel(g, t, n - 1))
  }

  lemma LevelCount(g: Graph, rounds: seq<set<Id>>)
    requires AreLevels(g, rounds)
    ensures IsHeight(g, |rounds|)
  {
    forall t, k: nat | t in g && AtLevel(g, t, k) ensures k < |rounds| {
      var j: nat :| j < |rounds| && t in rounds[j];
      LevelUnique(g, t, j, k);
    }
    if rounds != [] {
      var last := |rounds| - 1;
      assert rounds[last] != {};
      var t :| t in rounds[last];
      assert t in g && AtLevel(g, t, last);
    }
  }

  /** A chain has at most as many nodes as there are. */
  lemma HeightIsSmall(g: Graph, n: nat)
    requires Acyclic(g) && IsHeight(g, n)
    ensures n <= |g.Keys|
  {
    if n > 0 {
      var t :| t in g && AtLevel(g, t, n - 1);
      ChainsAreShort(g, t);
      if n > |g.Keys| {
        ShorterChains(g, t, |g.Keys|, n - 1);
      }
    }
  }

  lemma WavesAreLevels(g: Graph, good: set<Id>, rounds: seq<set<Id>>)
    requires Closed(g) && Acyclic(g) && good == g.Keys && Waves((j: nat) => RanSet(g, good, j), rounds)
    requires RanSet(g, good, |rounds|) == g.Keys
    ensures AreLevels(g, rounds) && ArePeelings(g, rounds) && IsHeight(g, |rounds|) && |rounds| <= |g.Keys|
  {
    forall k: nat | k < |rounds|
      ensures rounds[k] == Peeled(g, k + 1) - Peeled(g, k)
      ensures forall t :: t in rounds[k] <==> t in g && AtLevel(g, t, k)
    {
      GoodWave(g, rounds[k], k);
    }
    forall t | t in g ensures exists k: nat :: k < |rounds| && t in rounds[k] {
      assert t in RanSet(g, g.Keys, |rounds|);
      var level := LevelBelow(g, t, |rounds|);
      assert t in rounds[level];
    }
    LevelCount(g, rounds);
    HeightIsSmall(g, |rounds|);
  }

  lemma NothingGetsStuck(g: Graph, good: set<Id>, cancelled: nat -> bool)
    requires Closed(g) && Acyclic(g) && good == g.Keys
    ensures !Deadlocks(g, good, cancelled)
  {
    forall k: nat ensures !StuckAt(g, g.Keys, k) {
      AllGoodWaves(g, k);
    }
  }

  lemma AllAreRun(nodes: map<Id, TaskNode>, scripts: Id -> Script, cut: bool, n: nat,
                  starts: map<Id, nat>, table: map<Id, TaskOutcome>)
    requires AllValid(nodes) && Closed(Edges(nodes)) && Acyclic(Edges(nodes)) && Good(nodes, scripts) == nodes.Keys
    requires !cut && Reports(nodes, scripts, cut, n, starts, table)
    ensures RanSet(Edges(nodes), Good(nodes, scripts), n) == nodes.Keys
    ensures forall t :: t in nodes ==> table[t].state == Succeeded
  {
    AllGoodWaves(Edges(nodes), n + 1);
  }

  /** When every node succeeds and nothing is cancelled the run cannot raise; its rounds are the sets Kahn's
      peeling removes, which are the longest-path levels; they cover all nodes, and there are as many of them
      as the longest chain has nodes. */
  lemma AllSucceed(nodes: map<Id, TaskNode>, scripts: Id -> Script, cancelled: nat -> bool,
                   rounds: seq<set<Id>>, starts: map<Id, nat>, table: map<Id, TaskOutcome>)
    requires AllValid(nodes) && Closed(Edges(nodes)) && Acyclic(Edges(nodes))
    requires Good(nodes, scripts) == nodes.Keys && forall k: nat :: !cancelled(k)
    requires Waves((j: nat) => RanSet(Edges(nodes), Good(nodes, scripts), j), rounds)
    requires Reports(nodes, scripts, cancelled(|rounds|), |rounds|, starts, table)
    ensures !Deadlocks(Edges(nodes), Good(nodes, scripts), cancelled)
    ensures AreLevels(Edges(nodes), rounds) && ArePeelings(Edges(nodes), rounds)
    ensures IsHeight(Edges(nodes), |rounds|) && |rounds| <= |nodes.Keys|
    ensures forall t :: t in nodes ==> table[t].state == Succeeded
  {
    NothingGetsStuck(Edges(nodes), Good(nodes, scripts), cancelled);
    AllAreRun(nodes, scripts, cancelled(|rounds|), |rounds|, starts, table);
    WavesAreLevels(Edges(nodes), Good(nodes, scripts), rounds);
  }

  function FailingChain(): map<Id, TaskNode> {
    map["a" := TaskNode("a", [], 60.0, 1), "b" := TaskNode("b", ["a"], 60.0, 1), "c" := TaskNode("c", ["b"], 60.0, 1)]
  }

  function FirstFails(): Id -> Script {
    (t: Id) => ((attempt: nat) => Turn(false, if t == "a" then Permanent("broken") else Completed("done")))
  }

  lemma FailingChainGraph()
    ensures Edges(FailingChain()) == ChainOfThree()
  {
    var nodes := FailingChain();
    var g := Edges(nodes);
    assert nodes.Keys == {"a", "b", "c"};
    assert g["a"] == {} && g["b"] == {"a"} && g["c"] == {"b"};
  }

  lemma FailingChainGood()
    ensures AllValid(FailingChain()) && Good(FailingChain(), FirstFails()) == {"b", "c"}
  {
    assert FailingChain().Keys == {"a", "b", "c"};
  }

  /** Three tasks in a row, the first one failing for good: the run raises. */
  lemma FailingChainDeadlocks()
    ensures AllValid(FailingChain()) && Closed(Edges(FailingChain())) && Acyclic(Edges(FailingChain()))
    ensures Deadlocks(Edges(FailingChain()), Good(FailingChain(), FirstFails()), k => false)
  {
    FailingChainGraph();
    FailingChainGood();
    ChainOfThreeGetsStuck();
    assert NotCancelledBefore(k => false, 2);
  }
}
