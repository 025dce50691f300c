/** Watermark traversals over whole runs. */
module TraversalRuns {
  import opened Model
  import opened History
  import opened Index
  import opened Core
  import opened Traversals

  /** The call read the Index the run had at some point. */
  ghost predicate ReadDuring(run: seq<World>, call: Call) {
    exists at :: 0 <= at < |run| && call.tables == run[at].index
  }

  ghost predicate TakenFrom(run: seq<World>, calls: seq<Call>) {
    forall call {:trigger ReadDuring(run, call)} :: call in calls ==> ReadDuring(run, call)
  }

  lemma IndexOfHistory(run: seq<World>, at: nat)
    requires IsRun(run) && at < |run|
    ensures run[at].index.applied < |run[|run| - 1].history|
    ensures run[at].index == Project(run[|run| - 1].history[run[at].index.applied])
  {
    IndexNeverMixed(run, at);
    HistoryGrows(run, at, |run| - 1);
  }

  lemma CallsOfHistory(run: seq<World>, calls: seq<Call>)
    requires IsRun(run) && TakenFrom(run, calls)
    ensures ReadFrom(run[|run| - 1].history, calls)
  {
    forall call | call in calls
      ensures call.tables.applied < |run[|run| - 1].history|
      ensures call.tables == Project(run[|run| - 1].history[call.tables.applied])
    {
      assert ReadDuring(run, call);
      var at :| 0 <= at < |run| && call.tables == run[at].index;
      IndexOfHistory(run, at);
    }
  }

  lemma LastState(run: seq<World>)
    requires IsRun(run)
    ensures var last := run[|run| - 1];
      HistoryOk(last.history) && last.history[|last.history| - 1] == last.store.canon
  {
    RunInv(run, |run| - 1);
  }

  /** Following `list_nodes_cursor` while commits, prunes, Index synchronisation, failures and
      rebuilds go on delivers no node twice. */
  lemma RunNoNodeTwice(run: seq<World>, calls: seq<Call>, i: nat, j: nat)
    requires IsRun(run) && TakenFrom(run, calls) && Followed(calls)
    requires i < j < |Listed(calls)|
    ensures Listed(calls)[i].id != Listed(calls)[j].id
  {
    CallsOfHistory(run, calls);
    LastState(run);
    NoNodeTwice(run[|run| - 1].history, calls, i, j);
  }

  /** Followed to its end, it delivers every node of the store that was not modified since the
      revision the first page was read at. */
  lemma RunUntouchedDelivered(run: seq<World>, calls: seq<Call>, id: NodeId)
    requires IsRun(run) && TakenFrom(run, calls) && Followed(calls)
    requires calls != [] && NextCursor(calls).None?
    requires id in run[|run| - 1].store.canon.nodes
    requires run[|run| - 1].store.canon.nodes[id].modified <= calls[0].tables.applied
    ensures exists i :: 0 <= i < |Listed(calls)| && Listed(calls)[i].id == id
  {
    CallsOfHistory(run, calls);
    LastState(run);
    UntouchedDelivered(run[|run| - 1].history, calls, id);
  }
}
