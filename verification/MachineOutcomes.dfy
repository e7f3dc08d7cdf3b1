/** What callers of the interleaved service can rely on: each answer has the outcome of its
    operation on the committed tables of some moment, and a published one is what gets committed. */
module MachineOutcomes {
  import opened Options
  import opened Workflow
  import opened Ledger
  import opened Machine
  import opened MachineInvariant
  import opened MachineProofs
  import opened MachineTheorems
  import opened ServiceSpec
  import opened ServiceTheorems
  import opened ServiceOutcomes
  import opened MachineRefinesService
  import opened MachineAnswers

  /** The outcome of an operation between two pairs of tables. */
  ghost predicate Outcomes(o: Oracles, ts: Tables, x: Txn, after: Tables, result: Result<Row, Error>) {
    match x.op
    case GetOp(id) =>
      if id in ts.requests then result.Ok? && Looks(o, ts, id, x.readings, after, result.value)
      else result == Err(NotFound) && after == ts
    case CreateOp(d) => CreatesDraft(o, ts, d, x.readings, after, result)
    case ApproveOp(id, decision, approver, comment) =>
      Approves(o, ts, id, decision, approver, comment, x.readings, after, result)
    case DispatchOp(id, actor, config) =>
      Dispatches(o, ts, id, actor, config, x.answer, x.readings,
                 id in ts.requests && CoolingDown(ts, ts.requests[id], x.readings.cooldown, Cooldown(config)),
                 after, result, DispatchSpec(o, ts, id, actor, config, x.answer, x.readings).called)
  }

  lemma CallOutcome(o: Oracles, ts: Tables, x: Txn)
    requires FiledOnce(ts)
    ensures Outcomes(o, ts, x, Perform(o, ts, CallOf(x)), ResultOf(o, ts, CallOf(x)))
  {
    match x.op {
      case GetOp(id) => GetOutcome(o, ts, id, x.readings);
      case CreateOp(d) => DraftOutcome(o, ts, d, x.readings);
      case ApproveOp(id, decision, approver, comment) =>
        ApproveOutcome(o, ts, id, decision, approver, comment, x.readings);
      case DispatchOp(id, actor, config) =>
        DispatchedOutcome(o, ts, id, actor, config, x.answer, x.readings);
    }
  }

  lemma TablesFiledOnce(o: Oracles, run: seq<State>, k: nat)
    requires IsRun(o, run) && k < |run|
    ensures FiledOnce(TablesOf(run[k].store))
  {
    RunInv(o, run, k);
    ConsistentRowsAreFiled(o, run[k].store);
    assert OneRowPerKey(run[k].store.rows);
  }

  /** Every transaction that returns or raises has the outcome of its operation on the committed
      tables of some moment of its life; one that publishes has it at its commit, and what it
      publishes is that outcome; for all others the outcome leaves the tables alone. */
  lemma EveryAnswerHasItsOutcome(o: Oracles, run: seq<State>, i: nat, t: Tid) returns (k: nat, after: Tables)
    requires IsRun(o, run) && i < |run| && t in run[i].txns
    requires run[i].txns[t].pc.Done? || run[i].txns[t].pc.Failed?
    ensures Lives(run, k, i, t)
    ensures Outcomes(o, TablesOf(run[k].store), run[i].txns[t], after, Told(run[i].txns[t]))
    ensures if Publishing(run[i].txns[t]) then k == i && Mirrors(after, Committed(run[i].store, t, run[i].txns[t]))
            else after == TablesOf(run[k].store)
  {
    var x := run[i].txns[t];
    k := EveryAnswerIsOfAWholeCall(o, run, i, t);
    TablesFiledOnce(o, run, k);
    CallOutcome(o, TablesOf(run[k].store), x);
    after := Perform(o, TablesOf(run[k].store), CallOf(x));
    if Publishing(x) {
      PublishedOutcome(o, run, i, t);
    }
  }

  lemma PublishedOutcome(o: Oracles, run: seq<State>, i: nat, t: Tid)
    requires IsRun(o, run) && i < |run| && t in run[i].txns && Publishing(run[i].txns[t])
    ensures Mirrors(Perform(o, TablesOf(run[i].store), CallOf(run[i].txns[t])),
                    Committed(run[i].store, t, run[i].txns[t]))
  {
    RunInv(o, run, i);
    var st := run[i].store;
    assert LocalInv(o, st, t, run[i].txns[t]);
    ConsistentRowsAreFiled(o, st);
    TablesMirrorStore(st);
    CommitIsCall(o, TablesOf(st), st, t, run[i].txns[t]);
  }

  /** In particular a committed decision is the one that was asked for: a rejection rejects, an
      approval of a request waiting for its first approval is its first and of one waiting for
      its second its second, by the approver of the call and with its audit entry last. */
  lemma CommittedDecisionIsTheOneAskedFor(o: Oracles, run: seq<State>, i: nat, t: Tid)
    requires IsRun(o, run) && i < |run| && t in run[i].txns
    requires Publishing(run[i].txns[t]) && run[i].txns[t].op.ApproveOp?
    ensures var x, st := run[i].txns[t], run[i].store;
            var st' := Committed(st, t, x);
            && x.op.id in st.rows && Pending(st.rows[x.op.id]) && x.op.id in st'.rows
            && !PastDeadline(st.rows[x.op.id], x.readings.check)
            && Independent(o, st.rows[x.op.id], x.op.approver)
            && (match x.op.decision
                case RejectIt =>
                  st'.rows[x.op.id].status == Rejected && st'.rows[x.op.id].rejectedBy == Some(x.op.approver)
                case ApproveIt =>
                  if st.rows[x.op.id].status == PendingFirst
                  then && st'.rows[x.op.id].status == PendingSecond
                       && st'.rows[x.op.id].firstApprover == Some(x.op.approver)
                  else && st'.rows[x.op.id].status == Approved
                       && st'.rows[x.op.id].secondApprover == Some(x.op.approver))
  {
    var k, after := EveryAnswerHasItsOutcome(o, run, i, t);
  }
}
