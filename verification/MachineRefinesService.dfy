/** The interleaved machine refines the atomic service: whatever statements interleave, the
    committed tables are those that some sequence of whole operations produces. */
module MachineRefinesService {
  import opened Options
  import opened AuditChain
  import opened Workflow
  import opened Creation
  import opened Ledger
  import opened Machine
  import opened MachineInvariant
  import opened MachineProofs
  import opened MachineTheorems
  import opened ServiceSpec
  import opened ServiceTheorems

  /** The same request rows, and for each request the same audit trail. */
  ghost predicate Mirrors(ts: Tables, st: Store) {
    && ts.requests == st.rows
    && forall id :: Trail(ts.audit, id) == CommittedTrail(st, id)
  }

  /** The atomic call a transaction amounts to: its own operation at the times it read, with the
      answer it got. */
  function CallOf(x: Txn): Call {
    match x.op
    case GetOp(id) => GetCall(id, x.readings)
    case CreateOp(d) => CreateCall(d, x.readings)
    case ApproveOp(id, decision, approver, comment) => ApproveCall(id, decision, approver, comment, x.readings)
    case DispatchOp(id, actor, config) => DispatchCall(id, actor, config, x.answer, x.readings)
  }

  /** A transaction about to commit what it wrote. */
  ghost predicate Writing(o: Oracles, st: Store, t: Tid, x: Txn) {
    && LocalInv(o, st, t, x) && RowsFiled(st) && t !in st.committed
    && x.pc.Done? && x.work.Appended?
  }

  /** The event in the row and one audit row: the whole effect of a commit. */
  lemma CommitIsRecord(o: Oracles, ts: Tables, st: Store, t: Tid, x: Txn)
    requires Mirrors(ts, st) && Writing(o, st, t, x)
    ensures Mirrors(Recorded(o, ts, x.work.row, x.work.event, x.work.stamp), Committed(st, t, x))
  {
    var row, event, stamp := x.work.row, x.work.event, x.work.stamp;
    var after, st' := Recorded(o, ts, row, event, stamp), Committed(st, t, x);
    assert GrownTrail(o, st, t, row, event, stamp);
    forall id ensures Trail(after.audit, id) == CommittedTrail(st', id) {
      TrailAppend(ts.audit, AuditEntry(o, row, event, stamp, Head(Trail(ts.audit, row.id))), id);
      if id != row.id {
        CommitKeepsView(o, st, t, x, st.committed, id);
      }
    }
  }

  /** What one atomic call has to do to be the commit of x. */
  ghost predicate Does(o: Oracles, ts: Tables, x: Txn)
    requires x.work.Appended?
  {
    && Proper(CallOf(x))
    && Perform(o, ts, CallOf(x)) == Recorded(o, ts, x.work.row, x.work.event, x.work.stamp)
    && ResultOf(o, ts, CallOf(x)) == Ok(x.work.row)
  }

  lemma ExpiryIsLook(o: Oracles, ts: Tables, st: Store, t: Tid, x: Txn)
    requires Mirrors(ts, st) && Writing(o, st, t, x) && x.work.event.Expire?
    ensures x.work.row.id in ts.requests
    ensures Looked(o, ts, x.work.row.id, x.readings)
         == (Recorded(o, ts, x.work.row, Expire, x.work.stamp), x.work.row)
  {
    assert CausedBy(o, st, x, x.work.row, x.work.event);
  }

  lemma GetWrites(o: Oracles, ts: Tables, st: Store, t: Tid, x: Txn)
    requires Mirrors(ts, st) && Writing(o, st, t, x) && x.op.GetOp?
    ensures Does(o, ts, x)
  {
    assert CausedBy(o, st, x, x.work.row, x.work.event);
    ExpiryIsLook(o, ts, st, t, x);
  }

  lemma CreateWrites(o: Oracles, ts: Tables, st: Store, t: Tid, x: Txn)
    requires Mirrors(ts, st) && Writing(o, st, t, x) && x.op.CreateOp?
    requires OneRowPerKey(st.rows)
    ensures Does(o, ts, x)
  {
    var d, row := x.op.draft, x.work.row;
    assert CausedBy(o, st, x, row, x.work.event);
    var found := FindByKey(ts.requests, d);
    if x.work.event.Open? {
      if found.Some? {
        assert SameKey(st.rows[found.value], row);
        assert false;
      }
    } else {
      ExpiryIsLook(o, ts, st, t, x);
      assert HasKey(ts.requests, d, row.id);
      assert SameKey(st.rows[found.value], st.rows[row.id]);
    }
  }

  lemma ApproveWrites(o: Oracles, ts: Tables, st: Store, t: Tid, x: Txn)
    requires Mirrors(ts, st) && Writing(o, st, t, x) && x.op.ApproveOp?
    ensures Does(o, ts, x)
  {
    assert CausedBy(o, st, x, x.work.row, x.work.event) && !x.work.event.Expire?;
  }

  // The cooldown check of the atomic call sees no later dispatch than the transaction saw.

  lemma EarlierIsCleared(ts: Tables, st: Store, row: Row, k: nat, now: int, cooldown: int)
    requires Mirrors(ts, st) && k < |ts.audit| && Earlier(ts, k, row) && Cleared(st, row, now, cooldown)
    ensures CooledDown(ts.audit[k].payload.createdAt, now, cooldown)
  {
    var id := ts.audit[k].payload.requestId;
    var i := TrailShows(ts.audit, k);
    assert Trail(ts.audit, id) == CommittedTrail(st, id);
    var j := ViewComesFromLog(st.log, st.committed, id, i);
    assert ScopeEntry(st, j, row);
  }

  lemma {:induction false} NoCooldown(ts: Tables, st: Store, row: Row, n: nat, now: int, cooldown: int)
    requires Mirrors(ts, st) && n <= |ts.audit| && Cleared(st, row, now, cooldown)
    ensures LatestStamp(ts, row, n).Some? ==> CooledDown(LatestStamp(ts, row, n).value, now, cooldown)
  {
    if n > 0 {
      if Earlier(ts, n - 1, row) {
        EarlierIsCleared(ts, st, row, n - 1, now, cooldown);
      } else {
        NoCooldown(ts, st, row, n - 1, now, cooldown);
      }
    }
  }

  lemma SameScope(ts: Tables, a: Row, b: Row, n: nat)
    requires n <= |ts.audit| && a.id == b.id && a.actionId == b.actionId && a.targetId == b.targetId
    ensures LatestStamp(ts, a, n) == LatestStamp(ts, b, n)
  {
  }

  lemma DispatchMayRun(o: Oracles, ts: Tables, st: Store, t: Tid, x: Txn)
    requires Mirrors(ts, st) && Writing(o, st, t, x) && x.op.DispatchOp?
    ensures x.work.event.Dispatch? && x.work.row.id in ts.requests
    ensures !CoolingDown(ts, ts.requests[x.work.row.id], x.readings.cooldown, Cooldown(x.op.config))
  {
    var row := x.work.row;
    assert CausedBy(o, st, x, row, x.work.event) && x.work.event.Dispatch?;
    NoCooldown(ts, st, row, |ts.audit|, x.readings.cooldown, Cooldown(x.op.config));
    SameScope(ts, ts.requests[row.id], row, |ts.audit|);
  }

  lemma DispatchWrites(o: Oracles, ts: Tables, st: Store, t: Tid, x: Txn)
    requires Mirrors(ts, st) && Writing(o, st, t, x) && x.op.DispatchOp?
    ensures Does(o, ts, x)
  {
    DispatchMayRun(o, ts, st, t, x);
    assert CausedBy(o, st, x, x.work.row, x.work.event);
  }

  /** A commit that publishes something is one atomic call of the same operation, with the
      same answer. */
  lemma CommitIsCall(o: Oracles, ts: Tables, st: Store, t: Tid, x: Txn)
    requires Mirrors(ts, st) && Writing(o, st, t, x) && OneRowPerKey(st.rows)
    ensures Proper(CallOf(x)) && ResultOf(o, ts, CallOf(x)) == Ok(x.pc.row)
    ensures Mirrors(Perform(o, ts, CallOf(x)), Committed(st, t, x))
  {
    CommitIsRecord(o, ts, st, t, x);
    match x.op {
      case GetOp(_) => GetWrites(o, ts, st, t, x);
      case CreateOp(_) =>
        CreateWrites(o, ts, st, t, x);
      case ApproveOp(_, _, _, _) => ApproveWrites(o, ts, st, t, x);
      case DispatchOp(_, _, _) => DispatchWrites(o, ts, st, t, x);
    }
  }

  lemma SilentCommit(o: Oracles, ts: Tables, st: Store, t: Tid, x: Txn)
    requires Mirrors(ts, st) && Committing(o, st, t, x) && x.work.Idle?
    ensures Mirrors(ts, Committed(st, t, x))
  {
    forall id ensures CommittedTrail(Committed(st, t, x), id) == CommittedTrail(st, id) {
      CommitKeepsView(o, st, t, x, st.committed, id);
    }
  }

  lemma UncommittedEntry(ts: Tables, st: Store, entry: Entry)
    requires Mirrors(ts, st) && entry.writer !in st.committed
    ensures Mirrors(ts, st.(log := st.log + [entry]))
  {
    forall id ensures View(st.log + [entry], st.committed, id) == CommittedTrail(st, id) {
      ViewAppend(st.log, entry, st.committed, id);
    }
  }

  predicate Publishes(s: State, step: Step) {
    step.Run? && step.tid in s.txns && s.txns[step.tid].pc.Done? && s.txns[step.tid].work.Appended?
  }

  /** Simulation: a step publishes the effect of one atomic call or no effect at all. */
  lemma StepIsCallOrStutter(o: Oracles, ts: Tables, s: State, step: Step)
    requires Inv(o, s) && Possible(o, s, step) && Mirrors(ts, s.store)
    ensures var after := Next(o, s, step).store;
            if Publishes(s, step) then
              var call := CallOf(s.txns[step.tid]);
              && Proper(call)
              && ResultOf(o, ts, call) == Ok(s.txns[step.tid].pc.row)
              && Mirrors(Perform(o, ts, call), after)
            else Mirrors(ts, after)
  {
    if step.Run? {
      var t := step.tid;
      var x := s.txns[t];
      assert LocalInv(o, s.store, t, x);
      if Publishes(s, step) {
        ConsistentRowsAreFiled(o, s.store);
        CommitIsCall(o, ts, s.store, t, x);
      } else if x.pc.Done? {
        SilentCommit(o, ts, s.store, t, x);
      } else if x.pc.AuditInsert? {
        UncommittedEntry(ts, s.store, Entry(t, AuditEntry(o, x.pc.row, x.pc.event, x.pc.stamp, x.pc.previous)));
      }
    } else {
      assert forall id :: CommittedTrail(Next(o, s, step).store, id) == CommittedTrail(s.store, id);
    }
  }

  lemma {:induction false} PerformOneMore(o: Oracles, ts: Tables, calls: seq<Call>, last: Call)
    ensures PerformAll(o, ts, calls + [last]) == Perform(o, PerformAll(o, ts, calls), last)
    decreases |calls|
  {
    if calls == [] {
      assert [last][1..] == [];
      assert calls + [last] == [last];
    } else {
      assert (calls + [last])[1..] == calls[1..] + [last];
      PerformOneMore(o, Perform(o, ts, calls[0]), calls[1..], last);
    }
  }

  datatype Commit = Commit(at: nat, tid: Tid)

  /** Transaction t commits what it wrote in the step from state k to state k + 1. */
  predicate PublishedAt(run: seq<State>, k: nat, t: Tid) {
    && k + 1 < |run| && t in run[k].txns
    && run[k].txns[t].pc.Done? && run[k].txns[t].work.Appended?
    && t !in run[k].store.committed && t in run[k + 1].store.committed
  }

  /** The calls are those of exactly the publishing commits before state i, in commit order. */
  ghost predicate Accounts(run: seq<State>, i: nat, calls: seq<Call>, commits: seq<Commit>) {
    && |calls| == |commits|
    && (forall k, t | 0 <= k < i :: PublishedAt(run, k, t) <==> Commit(k, t) in commits)
    && (forall n | 0 <= n < |commits| :: commits[n].at < i && PublishedAt(run, commits[n].at, commits[n].tid)
          && calls[n] == CallOf(run[commits[n].at].txns[commits[n].tid]))
    && (forall m, n | 0 <= m < n < |commits| :: commits[m].at < commits[n].at)
  }

  /** Each call answers as its transaction did. */
  ghost predicate SameAnswers(o: Oracles, start: Tables, run: seq<State>, calls: seq<Call>, commits: seq<Commit>) {
    && |calls| == |commits|
    && forall n | 0 <= n < |calls| ::
         && PublishedAt(run, commits[n].at, commits[n].tid)
         && ResultOf(o, PerformAll(o, start, calls[..n]), calls[n])
              == Ok(run[commits[n].at].txns[commits[n].tid].pc.row)
  }

  lemma AnswersGrow(o: Oracles, start: Tables, run: seq<State>, calls: seq<Call>, commits: seq<Commit>, call: Call,
                    commit: Commit)
    requires SameAnswers(o, start, run, calls, commits) && PublishedAt(run, commit.at, commit.tid)
    requires ResultOf(o, PerformAll(o, start, calls), call) == Ok(run[commit.at].txns[commit.tid].pc.row)
    ensures SameAnswers(o, start, run, calls + [call], commits + [commit])
  {
    var grown := calls + [call];
    assert grown[..|calls|] == calls;
    assert forall n | 0 <= n < |calls| :: grown[..n] == calls[..n];
  }

  lemma CommittedAfter(o: Oracles, s: State, step: Step)
    requires Possible(o, s, step)
    ensures Next(o, s, step).store.committed
         == if step.Run? && s.txns[step.tid].pc.Done? then s.store.committed + {step.tid} else s.store.committed
  {
  }

  lemma OnlyTheStepPublishes(o: Oracles, run: seq<State>, k: nat, step: Step)
    requires k + 1 < |run| && Leads(o, run[k], step, run[k + 1]) && TidsBounded(run[k])
    ensures forall t :: PublishedAt(run, k, t) <==> Publishes(run[k], step) && step.tid == t
  {
    CommittedAfter(o, run[k], step);
  }

  lemma AccountsStay(run: seq<State>, k: nat, calls: seq<Call>, commits: seq<Commit>)
    requires Accounts(run, k, calls, commits) && forall t :: !PublishedAt(run, k, t)
    ensures Accounts(run, k + 1, calls, commits)
  {
  }

  lemma AccountsGrow(run: seq<State>, k: nat, t: Tid, calls: seq<Call>, commits: seq<Commit>)
    requires Accounts(run, k, calls, commits) && forall u :: PublishedAt(run, k, u) <==> u == t
    requires PublishedAt(run, k, t)
    ensures Accounts(run, k + 1, calls + [CallOf(run[k].txns[t])], commits + [Commit(k, t)])
  {
    var grown := commits + [Commit(k, t)];
    forall j, u | 0 <= j < k + 1 ensures PublishedAt(run, j, u) <==> Commit(j, u) in grown {
      assert Commit(j, u) in grown <==> Commit(j, u) in commits || Commit(j, u) == Commit(k, t);
      assert forall c <- commits :: c.at < k;
    }
  }

  /** The tables as committed, the audit rows in id order. */
  function CommittedAudit(log: seq<Entry>, writers: set<Tid>): seq<AuditRow> {
    if log == [] then [] else
      var n := |log| - 1;
      var before := CommittedAudit(log[..n], writers);
      if log[n].writer in writers then before + [log[n].row] else before
  }

  function TablesOf(st: Store): Tables {
    Tables(st.rows, CommittedAudit(st.log, st.committed))
  }

  lemma {:induction false} AuditIsView(log: seq<Entry>, writers: set<Tid>, id: string)
    ensures Trail(CommittedAudit(log, writers), id) == View(log, writers, id)
  {
    if log != [] {
      var n := |log| - 1;
      AuditIsView(log[..n], writers, id);
      TrailAppend(CommittedAudit(log[..n], writers), log[n].row, id);
    }
  }

  lemma TablesMirrorStore(st: Store)
    ensures Mirrors(TablesOf(st), st)
  {
    forall id ensures Trail(TablesOf(st).audit, id) == CommittedTrail(st, id) {
      AuditIsView(st.log, st.committed, id);
    }
  }

  /** The calls explain the first i states. */
  ghost predicate Explains(o: Oracles, run: seq<State>, i: nat, calls: seq<Call>, commits: seq<Commit>)
    requires run != [] && i < |run|
  {
    var start := TablesOf(run[0].store);
    && Accounts(run, i, calls, commits) && (forall c <- calls :: Proper(c))
    && SameAnswers(o, start, run, calls, commits)
    && Mirrors(PerformAll(o, start, calls), run[i].store)
  }

  lemma OneMoreCall(o: Oracles, run: seq<State>, k: nat, step: Step, calls: seq<Call>, commits: seq<Commit>)
    requires k + 1 < |run| && Leads(o, run[k], step, run[k + 1]) && Inv(o, run[k])
    requires Explains(o, run, k, calls, commits) && Publishes(run[k], step)
    ensures Explains(o, run, k + 1, calls + [CallOf(run[k].txns[step.tid])], commits + [Commit(k, step.tid)])
  {
    var start, call := TablesOf(run[0].store), CallOf(run[k].txns[step.tid]);
    StepIsCallOrStutter(o, PerformAll(o, start, calls), run[k], step);
    OnlyTheStepPublishes(o, run, k, step);
    AccountsGrow(run, k, step.tid, calls, commits);
    AnswersGrow(o, start, run, calls, commits, call, Commit(k, step.tid));
    PerformOneMore(o, start, calls, call);
  }

  lemma NoMoreCall(o: Oracles, run: seq<State>, k: nat, step: Step, calls: seq<Call>, commits: seq<Commit>)
    requires k + 1 < |run| && Leads(o, run[k], step, run[k + 1]) && Inv(o, run[k])
    requires Explains(o, run, k, calls, commits) && !Publishes(run[k], step)
    ensures Explains(o, run, k + 1, calls, commits)
  {
    StepIsCallOrStutter(o, PerformAll(o, TablesOf(run[0].store), calls), run[k], step);
    OnlyTheStepPublishes(o, run, k, step);
    AccountsStay(run, k, calls, commits);
  }

  lemma NoCallYet(o: Oracles, run: seq<State>)
    requires run != []
    ensures Explains(o, run, 0, [], [])
  {
    TablesMirrorStore(run[0].store);
  }

  lemma NextState(o: Oracles, run: seq<State>, k: nat, calls: seq<Call>, commits: seq<Commit>)
    returns (calls': seq<Call>, commits': seq<Commit>)
    requires IsRun(o, run) && k + 1 < |run| && Explains(o, run, k, calls, commits)
    ensures Explains(o, run, k + 1, calls', commits')
  {
    RunInv(o, run, k);
    assert Successor(o, run[k], run[k + 1]);
    var step :| Leads(o, run[k], step, run[k + 1]);
    if Publishes(run[k], step) {
      OneMoreCall(o, run, k, step, calls, commits);
      calls', commits' := calls + [CallOf(run[k].txns[step.tid])], commits + [Commit(k, step.tid)];
    } else {
      NoMoreCall(o, run, k, step, calls, commits);
      calls', commits' := calls, commits;
    }
  }

  /** Serializability: in every state of every run the committed tables are what the publishing
      transactions, run whole at the times they read, produce one after another in commit order
      from the tables the run started on, and each call answers as its transaction did. */
  lemma {:induction false} RunIsSerial(o: Oracles, run: seq<State>, i: nat)
    returns (calls: seq<Call>, commits: seq<Commit>)
    requires IsRun(o, run) && i < |run|
    ensures Explains(o, run, i, calls, commits)
  {
    if i == 0 {
      NoCallYet(o, run);
      calls, commits := [], [];
    } else {
      calls, commits := RunIsSerial(o, run, i - 1);
      calls, commits := NextState(o, run, i - 1, calls, commits);
    }
  }
}
