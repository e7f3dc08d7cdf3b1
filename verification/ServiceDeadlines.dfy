/** What a request's deadline guarantees. `approve` and `dispatch` look at the clock once, when
    they check for expiry; their audit row gets its time later. */
module ServiceDeadlines {
  import opened Options
  import opened Workflow
  import opened Ledger
  import opened ServiceSpec
  import opened ServiceTheorems

  predicate Deciding(call: Call) {
    call.ApproveCall? || call.DispatchCall?
  }

  /** There is one new audit row, of the given request and time. */
  predicate Dated(ts: Tables, id: string, after: Tables, at: int) {
    && |after.audit| == |ts.audit| + 1
    && after.audit[|ts.audit|].payload.requestId == id
    && after.audit[|ts.audit|].payload.createdAt == at
  }

  /** The new audit row is dated after the deadline the request had. */
  predicate RecordedLate(ts: Tables, id: string, after: Tables) {
    && id in ts.requests && |after.audit| == |ts.audit| + 1
    && after.audit[|ts.audit|].payload.requestId == id
    && after.audit[|ts.audit|].payload.createdAt > ts.requests[id].expiresAt
  }

  /** A decision whose check finds the request past its deadline is refused, changes nothing and
      calls no dispatcher. */
  lemma DeadlineRefuses(o: Oracles, ts: Tables, call: Call)
    requires Deciding(call) && call.id in ts.requests && Due(ts.requests[call.id], call.t.check)
    ensures ResultOf(o, ts, call) == Err(WrongState) && Perform(o, ts, call) == ts
    ensures call.DispatchCall? ==>
              !DispatchSpec(o, ts, call.id, call.actor, call.config, call.answer, call.t).called
  {
  }

  lemma ApprovalRecords(o: Oracles, ts: Tables, call: Call)
    requires call.ApproveCall? && Perform(o, ts, call) != ts
    ensures call.id in ts.requests && Live(ts.requests[call.id].status)
    ensures !Due(ts.requests[call.id], call.t.check)
    ensures Dated(ts, ts.requests[call.id].id, Perform(o, ts, call), call.t.stamp)
  {
    var row := ts.requests[call.id];
    var decided := ApproveDecision(o, row, call.decision, call.approver, call.comment, Iso(call.t.decide));
    DecisionEnabled(o, row, call.decision, call.approver, call.comment, Iso(call.t.decide));
    assert Perform(o, ts, call) == Recorded(o, ts, Apply(row, decided.value), decided.value, call.t.stamp);
  }

  lemma DispatchRecords(o: Oracles, ts: Tables, call: Call)
    requires call.DispatchCall? && Perform(o, ts, call) != ts
    ensures call.id in ts.requests && Live(ts.requests[call.id].status)
    ensures !Due(ts.requests[call.id], call.t.check)
    ensures Dated(ts, ts.requests[call.id].id, Perform(o, ts, call), call.t.stamp)
  {
    var event := DispatchOutcome(o, ts, call.id, call.actor, call.config, call.answer, call.t);
    assert Apply(ts.requests[call.id], event.value).id == ts.requests[call.id].id;
  }

  /** A decision that takes effect was checked in time, and it is recorded late exactly when its
      own stamp, and not its check, lies past the deadline. */
  lemma LateExactlyByItsStamp(o: Oracles, ts: Tables, call: Call)
    requires TablesInv(o, ts) && Deciding(call)
    ensures Perform(o, ts, call) != ts ==>
              && call.id in ts.requests && Live(ts.requests[call.id].status)
              && call.t.check <= ts.requests[call.id].expiresAt * SECOND
    ensures RecordedLate(ts, call.id, Perform(o, ts, call)) <==>
              Perform(o, ts, call) != ts && call.t.stamp > ts.requests[call.id].expiresAt
  {
    if Perform(o, ts, call) != ts {
      if call.ApproveCall? {
        ApprovalRecords(o, ts, call);
      } else {
        DispatchRecords(o, ts, call);
      }
      assert Filed(o, BookOfTables(ts), call.id);
    }
  }

  /** Late records do happen: checked in the last microsecond, an approved request outside any
      cooldown is dispatched however late its audit row gets its time. */
  lemma DispatchMayBeLate(o: Oracles, ts: Tables, id: string, actor: string, config: Config, answer: Answer, late: int)
    requires TablesInv(o, ts) && id in ts.requests && late > ts.requests[id].expiresAt
    requires DispatchGate(ts.requests[id], config) == Proceed && answer.Dictionary? && answer.sideEffects != Unmanaged
    requires !CoolingDown(ts, ts.requests[id], ts.requests[id].expiresAt * SECOND, Cooldown(config))
    ensures var last := ts.requests[id].expiresAt * SECOND;
            var call := DispatchCall(id, actor, config, answer, Readings(last, last, late, last));
            && Proper(call) && ResultOf(o, ts, call).Ok? && ResultOf(o, ts, call).value.status == Dispatched
            && RecordedLate(ts, id, Perform(o, ts, call))
  {
    assert Filed(o, BookOfTables(ts), id);
    var last := ts.requests[id].expiresAt * SECOND;
    var call := DispatchCall(id, actor, config, answer, Readings(last, last, late, last));
    assert Perform(o, ts, call).audit[|ts.audit|].payload.createdAt == late;
  }

  /** The same for approvals and rejections. */
  lemma ApprovalMayBeLate(o: Oracles, ts: Tables, id: string, decision: Decision, approver: string, comment: string,
                          late: int)
    requires TablesInv(o, ts) && id in ts.requests && late > ts.requests[id].expiresAt
    requires ts.requests[id].status == PendingFirst || ts.requests[id].status == PendingSecond
    requires !Taken(o, ts.requests[id], approver)
    ensures var last := ts.requests[id].expiresAt * SECOND;
            var call := ApproveCall(id, decision, approver, comment, Readings(last, last, late, last));
            && Proper(call) && ResultOf(o, ts, call).Ok? && RecordedLate(ts, id, Perform(o, ts, call))
  {
    assert Filed(o, BookOfTables(ts), id);
    var last := ts.requests[id].expiresAt * SECOND;
    var call := ApproveCall(id, decision, approver, comment, Readings(last, last, late, last));
    assert Perform(o, ts, call).audit[|ts.audit|].payload.createdAt == late;
  }
}
