/** What the outcomes of a finished run say, node by node. */
module RunFacts {
  import opened Common
  import opened Graphs
  import opened TaskDag
  import opened TaskStates
  import opened Cascade
  import opened Scheduler

  /** The table has an outcome for every node, and only nodes were started. */
  lemma EveryNodeHasAnOutcome(nodes: map<Id, TaskNode>, scripts: Id -> Script, cut: bool, n: nat,
                              starts: map<Id, nat>, table: map<Id, TaskOutcome>)
    requires AllValid(nodes) && Reports(nodes, scripts, cut, n, starts, table)
    ensures table.Keys == nodes.Keys && starts.Keys <= nodes.Keys
  {
  }

  /** A node that was never started is cancelled without an attempt or a result, for a dependency or with the
      whole run; without a cancellation of the run always for a dependency. */
  lemma NotStartedMeansCancelled(nodes: map<Id, TaskNode>, scripts: Id -> Script, cut: bool, n: nat,
                                 starts: map<Id, nat>, table: map<Id, TaskOutcome>, t: Id)
    requires AllValid(nodes) && Reports(nodes, scripts, cut, n, starts, table) && t in nodes && t !in starts
    ensures table[t].taskId == t && table[t].state == Cancelled && table[t].attempts == 0 && table[t].result.None?
    ensures table[t].errorCode == Some("dependency_failed") || (cut && table[t].errorCode == Some("run_cancelled"))
  {
  }

  /** The reported attempts are the operations started; the outcome of a started node is that of its last attempt. */
  lemma StartsAreReported(nodes: map<Id, TaskNode>, scripts: Id -> Script, cut: bool, n: nat,
                          starts: map<Id, nat>, table: map<Id, TaskOutcome>, t: Id)
    requires AllValid(nodes) && Reports(nodes, scripts, cut, n, starts, table) && t in nodes
    ensures table[t].attempts == (if t in starts then starts[t] else 0) <= nodes[t].maxAttempts
    ensures t in starts ==> Accounts(nodes[t], scripts(t), table[t])
  {
    if t in starts {
      assert nodes[t].Valid();
      NodeOutcomeAccounts(nodes[t], scripts(t), 1);
    } else {
      NotStartedMeansCancelled(nodes, scripts, cut, n, starts, table, t);
    }
  }

  /** Every dependency of a started node was started and succeeded. */
  lemma StartedAfterSuccess(nodes: map<Id, TaskNode>, scripts: Id -> Script, cut: bool, n: nat,
                            starts: map<Id, nat>, table: map<Id, TaskOutcome>, t: Id, d: Id)
    requires AllValid(nodes) && Closed(Edges(nodes)) && Reports(nodes, scripts, cut, n, starts, table)
    requires t in starts && t in nodes && d in nodes[t].dependencyIds
    ensures d in starts && d in table && table[d].state == Succeeded
  {
    var g, good := Edges(nodes), Good(nodes, scripts);
    RoundsObeyLaw(g, good, n);
    assert IsNode(g, t);
    assert d in g[t];
  }

  /** A node cancelled for a dependency has one that did not succeed. */
  lemma BlockedByFailure(nodes: map<Id, TaskNode>, scripts: Id -> Script, cut: bool, n: nat,
                         starts: map<Id, nat>, table: map<Id, TaskOutcome>, t: Id) returns (d: Id)
    requires AllValid(nodes) && Closed(Edges(nodes)) && Reports(nodes, scripts, cut, n, starts, table)
    requires t in nodes && t !in starts && table[t].errorCode == Some("dependency_failed")
    ensures d in nodes[t].dependencyIds && d in table && table[d].state != Succeeded
  {
    var g, good := Edges(nodes), Good(nodes, scripts);
    RoundsObeyLaw(g, good, n);
    assert IsNode(g, t);
    var bad := (RanSet(g, good, n) - good) + BlockedSet(g, good, n);
    assert g[t] * bad != {};
    d :| d in g[t] * bad;
    if d !in starts {
      NotStartedMeansCancelled(nodes, scripts, cut, n, starts, table, d);
    }
  }

  /** If the run was not cancelled, the nodes never started are exactly those with a dependency that did not succeed. */
  lemma StartedExactly(nodes: map<Id, TaskNode>, scripts: Id -> Script, n: nat,
                       starts: map<Id, nat>, table: map<Id, TaskOutcome>, t: Id)
    requires AllValid(nodes) && Closed(Edges(nodes)) && Reports(nodes, scripts, false, n, starts, table) && t in nodes
    ensures t in starts <==>
              forall d :: d in nodes[t].dependencyIds ==> d in table && table[d].state == Succeeded
  {
    if t in starts {
      forall d | d in nodes[t].dependencyIds ensures d in table && table[d].state == Succeeded {
        StartedAfterSuccess(nodes, scripts, false, n, starts, table, t, d);
      }
    } else {
      NotStartedMeansCancelled(nodes, scripts, false, n, starts, table, t);
      var d := BlockedByFailure(nodes, scripts, false, n, starts, table, t);
    }
  }
}
