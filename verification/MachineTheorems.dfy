/** What every interleaving of `create`, `get`, `approve` and `dispatch` guarantees. */
module MachineTheorems {
  import opened Options
  import opened AuditChain
  import opened Workflow
  import opened Creation
  import opened Ledger
  import opened Machine
  import opened MachineInvariant
  import opened MachineProofs
  import opened MachineSafety

  /** Empty tables are tables to start on. */
  lemma UntouchedIsInitial(o: Oracles, s: State)
    requires Untouched(s.store) && s.txns == map[]
    ensures Initial(o, s)
  {
  }

  /** The invariant holds in every state of every run. */
  lemma {:induction false} RunInv(o: Oracles, run: seq<State>, i: nat)
    requires IsRun(o, run) && i < |run|
    ensures Inv(o, run[i])
    decreases i
  {
    if i == 0 {
    } else {
      RunInv(o, run, i - 1);
      assert Successor(o, run[i - 1], run[i]);
      var step :| Leads(o, run[i - 1], step, run[i]);
      StepRefinesLedger(o, run[i - 1], step);
    }
  }

  function BookAt(run: seq<State>, i: nat): Book
    requires i < |run|
  {
    BookOf(run[i].store)
  }

  lemma StepContinues(o: Oracles, run: seq<State>, j: nat)
    requires IsRun(o, run) && 0 < j < |run|
    ensures Continues(BookAt(run, j - 1), BookAt(run, j))
  {
    RunInv(o, run, j - 1);
    assert Successor(o, run[j - 1], run[j]);
    var step :| Leads(o, run[j - 1], step, run[j]);
    StepRefinesLedger(o, run[j - 1], step);
    ChangeKeepsConsistency(o, BookAt(run, j - 1), StepChange(run[j - 1], step), BookAt(run, j));
  }

  /** Along a run requests are never lost or re-keyed, trails only grow, and a rejected,
      dispatched or expired request, its receipt included, never changes again. */
  lemma {:induction false} HistoryOnlyGrows(o: Oracles, run: seq<State>, i: nat, j: nat)
    requires IsRun(o, run) && i <= j < |run|
    ensures Continues(BookAt(run, i), BookAt(run, j))
    decreases j - i
  {
    if i < j {
      HistoryOnlyGrows(o, run, i, j - 1);
      StepContinues(o, run, j);
      ContinuesTransitive(BookAt(run, i), BookAt(run, j - 1), BookAt(run, j));
    }
  }

  lemma TerminalIsForever(o: Oracles, run: seq<State>, i: nat, j: nat, id: string)
    requires IsRun(o, run) && i <= j < |run|
    requires id in run[i].store.rows && !Live(run[i].store.rows[id].status)
    ensures id in run[j].store.rows && run[j].store.rows[id] == run[i].store.rows[id]
    ensures CommittedTrail(run[j].store, id) == CommittedTrail(run[i].store, id)
  {
    HistoryOnlyGrows(o, run, i, j);
    assert Carried(Past(BookAt(run, i), id), Past(BookAt(run, j), id));
  }

  /** The committed row is the replay of its committed trail, whose actions form a word of the
      automaton and whose hash chain is unbroken; nobody appears in two roles. */
  lemma RowIsFoldOfItsTrail(o: Oracles, run: seq<State>, i: nat, id: string)
    requires IsRun(o, run) && i < |run| && id in run[i].store.rows
    ensures var row, trail := run[i].store.rows[id], CommittedTrail(run[i].store, id);
            && Replay(trail) == Valid(SummaryOf(o, row))
            && Word(Actions(trail)) && |trail| <= 4
            && Chain(o.hash, trail)
            && ExpiriesTimely(row, trail)
  {
    RunInv(o, run, i);
    assert Filed(o, BookAt(run, i), id);
    TrailIsWord(CommittedTrail(run[i].store, id));
  }

  lemma AtMostOneExpiry(o: Oracles, run: seq<State>, i: nat, id: string, a: nat, b: nat)
    requires IsRun(o, run) && i < |run| && id in run[i].store.rows
    requires a < |CommittedTrail(run[i].store, id)| && b < |CommittedTrail(run[i].store, id)|
    requires CommittedTrail(run[i].store, id)[a].payload.action == RequestExpired
    requires CommittedTrail(run[i].store, id)[b].payload.action == RequestExpired
    ensures a == b && run[i].store.rows[id].status == Expired
  {
    RowIsFoldOfItsTrail(o, run, i, id);
    var actions := Actions(CommittedTrail(run[i].store, id));
    TrailIsWord(CommittedTrail(run[i].store, id));
    assert actions[a] == RequestExpired && actions[b] == RequestExpired;
  }

  lemma NobodyActsTwice(o: Oracles, run: seq<State>, i: nat, id: string)
    requires IsRun(o, run) && i < |run| && id in run[i].store.rows
    ensures var row := run[i].store.rows[id];
            && (row.status == Approved || row.status == Dispatched ==>
                  && row.firstApprover.Some? && row.secondApprover.Some?
                  && o.lower(row.requester) != o.lower(row.firstApprover.value)
                  && o.lower(row.requester) != o.lower(row.secondApprover.value)
                  && o.lower(row.firstApprover.value) != o.lower(row.secondApprover.value))
            && (row.rejectedBy.Some? ==>
                  && o.lower(row.rejectedBy.value) != o.lower(row.requester)
                  && (row.firstApprover.Some? ==>
                        o.lower(row.rejectedBy.value) != o.lower(row.firstApprover.value)))
  {
    RunInv(o, run, i);
    assert Filed(o, BookAt(run, i), id);
  }

  /** Expiries that commit were made by `get` or by a replayed `create`: the one an `approve` or
      a `dispatch` makes on its way is never committed. */
  lemma DecidersNeverCommitExpiry(o: Oracles, run: seq<State>, i: nat, t: Tid)
    requires IsRun(o, run) && i < |run| && t in run[i].txns
    requires run[i].txns[t].pc.Done? && Locking(run[i].txns[t].op)
    ensures run[i].txns[t].work.Appended? ==> !run[i].txns[t].work.event.Expire?
  {
    RunInv(o, run, i);
    assert LocalInv(o, run[i].store, t, run[i].txns[t]);
  }

  lemma DeciderWasInTime(o: Oracles, st: Store, t: Tid, x: Txn)
    requires WorkInv(o, st, t, x) && Locking(x.op) && x.work.Appended? && !x.work.event.Expire?
    ensures x.readings.check <= x.work.row.expiresAt * SECOND
    ensures x.work.at < |st.log| && st.log[x.work.at].row.payload.requestId == x.op.id
    ensures st.log[x.work.at].row.payload.createdAt == x.readings.stamp
  {
    assert CausedBy(o, st, x, x.work.row, x.work.event);
  }

  /** No approval, rejection or dispatch commits unless its own clock reading found the request
      within its deadline; its audit row has the time of the reading it made for that row. */
  lemma DecisionsAreCheckedInTime(o: Oracles, run: seq<State>, i: nat, t: Tid)
    requires IsRun(o, run) && i < |run| && t in run[i].txns
    requires run[i].txns[t].pc.Done? && Locking(run[i].txns[t].op) && run[i].txns[t].work.Appended?
    ensures var st, x := run[i].store, run[i].txns[t];
            && x.readings.check <= x.work.row.expiresAt * SECOND
            && x.work.at < |st.log| && st.log[x.work.at].row.payload.requestId == x.op.id
            && st.log[x.work.at].row.payload.createdAt == x.readings.stamp
  {
    RunInv(o, run, i);
    DecidersNeverCommitExpiry(o, run, i, t);
    assert LocalInv(o, run[i].store, t, run[i].txns[t]);
    DeciderWasInTime(o, run[i].store, t, run[i].txns[t]);
  }

  /** The plan lookup never fails, and neither does the re-read after a conflicting insertion. */
  lemma NoInternalError(o: Oracles, run: seq<State>, i: nat, t: Tid)
    requires IsRun(o, run) && i < |run| && t in run[i].txns && run[i].txns[t].pc.Failed?
    ensures run[i].txns[t].pc.error != NoPlan && run[i].txns[t].pc.error != Unresolved
  {
    RunInv(o, run, i);
    assert LocalInv(o, run[i].store, t, run[i].txns[t]);
  }

  // ---------------------------------------------------------------------------------------
  // Idempotent creation
  // ---------------------------------------------------------------------------------------

  lemma OneRowForEachKey(o: Oracles, run: seq<State>, i: nat, a: string, b: string)
    requires IsRun(o, run) && i < |run|
    requires a in run[i].store.rows && b in run[i].store.rows
    requires SameKey(run[i].store.rows[a], run[i].store.rows[b])
    ensures a == b
  {
    RunInv(o, run, i);
    assert OneRowPerKey(BookAt(run, i).rows);
  }

  lemma DoneIsForDraft(o: Oracles, st: Store, t: Tid, x: Txn)
    requires LocalInv(o, st, t, x) && x.op.CreateOp? && x.pc.Done?
    ensures ForDraft(o, x.op.draft, x.pc.row)
    ensures KeyFree(st.rows, x.pc.row) || (x.pc.row.id in st.rows && SameIdentity(x.pc.row, st.rows[x.pc.row.id]))
  {
  }

  /** Once a key has a request, every `create` for the key that returns, whatever ran in
      between and on either path, returns that request and had its payload. */
  lemma CreateReturnsTheOneRequest(o: Oracles, run: seq<State>, i: nat, j: nat, id: string, t: Tid)
    requires IsRun(o, run) && i <= j < |run|
    requires t in run[j].txns && run[j].txns[t].op.CreateOp? && run[j].txns[t].pc.Done?
    requires HasKey(run[i].store.rows, run[j].txns[t].op.draft, id)
    ensures run[j].txns[t].pc.row.id == id
    ensures run[i].store.rows[id].payloadHash
         == o.payloadHash(run[j].txns[t].op.draft.actionId, run[j].txns[t].op.draft.targetId,
                          run[j].txns[t].op.draft.reason)
  {
    HistoryOnlyGrows(o, run, i, j);
    RunInv(o, run, j);
    var st, x := run[j].store, run[j].txns[t];
    assert Carried(Past(BookAt(run, i), id), Past(BookAt(run, j), id));
    assert LocalInv(o, st, t, x);
    DoneIsForDraft(o, st, t, x);
    var row := x.pc.row;
    assert SameKey(st.rows[id], row);
  }

  // ---------------------------------------------------------------------------------------
  // Cooldown
  // ---------------------------------------------------------------------------------------

  lemma {:induction false} ViewComesFromLog(log: seq<Entry>, writers: set<Tid>, id: string, i: nat) returns (k: nat)
    requires i < |View(log, writers, id)|
    ensures k < |log| && log[k].writer in writers
    ensures log[k].row == View(log, writers, id)[i] && log[k].row.payload.requestId == id
  {
    var n := |log| - 1;
    if i < |View(log[..n], writers, id)| {
      k := ViewComesFromLog(log[..n], writers, id, i);
    } else {
      k := n;
    }
  }

  /** The time of the `request_dispatched` entry, the last one of a dispatched request. */
  function DispatchStamp(st: Store, id: string): int
    requires CommittedTrail(st, id) != []
  {
    CommittedTrail(st, id)[|CommittedTrail(st, id)| - 1].payload.createdAt
  }

  lemma DispatchIndex(o: Oracles, st: Store, id: string) returns (k: nat)
    requires StoreInv(o, st) && id in st.rows && st.rows[id].status == Dispatched
    ensures CommittedTrail(st, id) != [] && DispatchAt(st, k)
    ensures st.log[k].row.payload.requestId == id && st.log[k].row.payload.createdAt == DispatchStamp(st, id)
  {
    var past := Past(BookOf(st), id);
    assert Filed(o, BookOf(st), id);
    TrailIsWord(past.trail);
    var n := |past.trail| - 1;
    assert Actions(past.trail)[n] == RequestDispatched;
    k := ViewComesFromLog(st.log, st.committed, id, n);
  }

  /** Two dispatched requests with the same action and target are at least the later one's
      cooldown apart, however their transactions interleaved. */
  lemma DispatchesAreSpaced(o: Oracles, run: seq<State>, i: nat, a: string, b: string)
    requires IsRun(o, run) && i < |run| && a != b
    requires a in run[i].store.rows && b in run[i].store.rows
    requires run[i].store.rows[a].status == Dispatched && run[i].store.rows[b].status == Dispatched
    requires run[i].store.rows[a].actionId == run[i].store.rows[b].actionId
    requires run[i].store.rows[a].targetId == run[i].store.rows[b].targetId
    ensures CommittedTrail(run[i].store, a) != [] && CommittedTrail(run[i].store, b) != []
    ensures run[i].store.rows[a].receipt.Some? && run[i].store.rows[b].receipt.Some?
    ensures var st := run[i].store;
            || DispatchStamp(st, a) + st.rows[b].receipt.value.cooldown <= DispatchStamp(st, b)
            || DispatchStamp(st, b) + st.rows[a].receipt.value.cooldown <= DispatchStamp(st, a)
  {
    RunInv(o, run, i);
    var st := run[i].store;
    ConsistentRowsAreFiled(o, st);
    var k := DispatchIndex(o, st, a);
    var l := DispatchIndex(o, st, b);
    if k < l {
      assert DispatchPair(st, k, l);
    } else {
      assert DispatchPair(st, l, k);
    }
  }

  // ---------------------------------------------------------------------------------------
  // Waiting
  // ---------------------------------------------------------------------------------------

  /** Rows are locked before scopes: 2 while waiting with nothing held, 1 while waiting for a
      scope, 0 otherwise. */
  function Rank(x: Txn): nat {
    if x.held == None && (x.pc.Select? || x.pc.Insert? || x.pc.ExpireUpdate?) then 2
    else if x.pc.LockScope? then 1
    else 0
  }

  lemma WaitingLowersRank(o: Oracles, s: State, t: Tid, u: Tid)
    requires Inv(o, s) && t in s.txns && WaitsFor(o, s, t, u)
    ensures Rank(s.txns[t]) > Rank(s.txns[u])
  {
    assert LocalInv(o, s.store, t, s.txns[t]) && LocalInv(o, s.store, u, s.txns[u]);
    assert Compatible(s.txns[t], s.txns[u]);
  }

  ghost predicate RanksFall(o: Oracles, s: State) {
    forall t <- s.txns, u | WaitsFor(o, s, t, u) :: Rank(s.txns[t]) > Rank(s.txns[u])
  }

  lemma ReachableRanksFall(o: Oracles, s: State)
    requires Inv(o, s)
    ensures RanksFall(o, s)
  {
    forall t <- s.txns, u | WaitsFor(o, s, t, u) ensures Rank(s.txns[t]) > Rank(s.txns[u]) {
      WaitingLowersRank(o, s, t, u);
    }
  }

  ghost predicate WaitCycle(o: Oracles, s: State, cycle: seq<Tid>) {
    && cycle != [] && (forall t <- cycle :: t in s.txns)
    && forall i | 0 <= i < |cycle| :: WaitsFor(o, s, cycle[i], cycle[if i + 1 < |cycle| then i + 1 else 0])
  }

  lemma {:induction false} RankFallsAlong(o: Oracles, s: State, cycle: seq<Tid>, i: nat)
    requires RanksFall(o, s) && WaitCycle(o, s, cycle) && i < |cycle|
    ensures Rank(s.txns[cycle[i]]) + i <= Rank(s.txns[cycle[0]])
  {
    if i > 0 {
      RankFallsAlong(o, s, cycle, i - 1);
      assert WaitsFor(o, s, cycle[i - 1], cycle[i]);
    }
  }

  /** No run reaches a deadlock among the four operations. */
  lemma NoWaitCycle(o: Oracles, run: seq<State>, i: nat, cycle: seq<Tid>)
    requires IsRun(o, run) && i < |run|
    ensures !WaitCycle(o, run[i], cycle)
  {
    RunInv(o, run, i);
    ReachableRanksFall(o, run[i]);
    if WaitCycle(o, run[i], cycle) {
      var n := |cycle| - 1;
      RankFallsAlong(o, run[i], cycle, n);
    }
  }

  lemma {:induction false} SomebodyRunsFrom(o: Oracles, s: State, t: Tid) returns (u: Tid)
    requires Inv(o, s) && t in s.txns
    ensures u in s.txns && CanRun(o, s, u)
    decreases Rank(s.txns[t])
  {
    if CanRun(o, s, t) {
      u := t;
    } else {
      var v :| v in s.txns && WaitsFor(o, s, t, v);
      WaitingLowersRank(o, s, t, v);
      u := SomebodyRunsFrom(o, s, v);
    }
  }

  /** While any transaction is alive, some transaction can execute its next statement. */
  lemma SomebodyCanRun(o: Oracles, run: seq<State>, i: nat, answer: Answer)
    requires IsRun(o, run) && i < |run| && run[i].txns != map[]
    ensures exists u :: u in run[i].txns && Possible(o, run[i], Run(u, Choice(false, answer)))
  {
    RunInv(o, run, i);
    assert run[i].txns.Keys != {};
    var t :| t in run[i].txns;
    var u := SomebodyRunsFrom(o, run[i], t);
    assert Possible(o, run[i], Run(u, Choice(false, answer)));
  }
}
