/** What holds over whole runs of the service, one operation after another. */
module ServiceTheorems {
  import opened Options
  import opened AuditChain
  import opened Workflow
  import opened Creation
  import opened Ledger
  import opened ServiceSpec

  function BookOfTables(ts: Tables): Book {
    Book(ts.requests, id => Trail(ts.audit, id))
  }

  ghost predicate TablesInv(o: Oracles, ts: Tables) {
    Consistent(o, BookOfTables(ts))
  }

  /** The tables stayed consistent and every request moved forward or not at all. */
  ghost predicate Kept(o: Oracles, ts: Tables, after: Tables) {
    TablesInv(o, after) && Continues(BookOfTables(ts), BookOfTables(after))
  }

  lemma NothingKept(o: Oracles, ts: Tables)
    requires TablesInv(o, ts)
    ensures Kept(o, ts, ts)
  {
  }

  datatype Call =
    | CreateCall(draft: Draft, t: Readings)
    | GetCall(id: string, t: Readings)
    | ApproveCall(id: string, decision: Decision, approver: string, comment: string, t: Readings)
    | DispatchCall(id: string, actor: string, config: Config, answer: Answer, t: Readings)

  /** No reading of a call was made after that of its audit row, and drafts are prepared ones. */
  predicate Proper(call: Call) {
    InOrder(call.t) && (call.CreateCall? ==> Planned(call.draft.actionId))
  }

  ghost function Perform(o: Oracles, ts: Tables, call: Call): Tables {
    match call
    case CreateCall(d, t) => CreateSpec(o, ts, d, t).0
    case GetCall(id, t) => GetSpec(o, ts, id, t).0
    case ApproveCall(id, decision, approver, comment, t) => ApproveSpec(o, ts, id, decision, approver, comment, t).0
    case DispatchCall(id, actor, config, answer, t) => DispatchSpec(o, ts, id, actor, config, answer, t).tables
  }

  /** What the caller gets back. */
  ghost function ResultOf(o: Oracles, ts: Tables, call: Call): Result<Row, Error> {
    match call
    case CreateCall(d, t) => CreateSpec(o, ts, d, t).1
    case GetCall(id, t) => GetSpec(o, ts, id, t).1
    case ApproveCall(id, decision, approver, comment, t) => ApproveSpec(o, ts, id, decision, approver, comment, t).1
    case DispatchCall(id, actor, config, answer, t) => DispatchSpec(o, ts, id, actor, config, answer, t).result
  }

  ghost function PerformAll(o: Oracles, ts: Tables, calls: seq<Call>): Tables
    decreases |calls|
  {
    if calls == [] then ts else PerformAll(o, Perform(o, ts, calls[0]), calls[1..])
  }

  /** Recording an event touches the history of its request only. */
  lemma RecordedReplaces(o: Oracles, ts: Tables, row: Row, event: Event, stamp: int)
    ensures var entry := AuditEntry(o, row, event, stamp, Head(Trail(ts.audit, row.id)));
            Replaced(BookOfTables(ts), row.id, History(row, Trail(ts.audit, row.id) + [entry]),
                     BookOfTables(Recorded(o, ts, row, event, stamp)))
  {
    var entry := AuditEntry(o, row, event, stamp, Head(Trail(ts.audit, row.id)));
    forall id ensures Trail(ts.audit + [entry], id)
                   == if id == row.id then Trail(ts.audit, id) + [entry] else Trail(ts.audit, id) {
      TrailAppend(ts.audit, entry, id);
    }
  }

  lemma EventKeeps(o: Oracles, ts: Tables, id: string, event: Event, stamp: int)
    requires TablesInv(o, ts) && id in ts.requests
    requires Enabled(o, ts.requests[id], event) && Timely(ts.requests[id], event, stamp)
    ensures Kept(o, ts, Recorded(o, ts, Apply(ts.requests[id], event), event, stamp))
  {
    var row := Apply(ts.requests[id], event);
    assert Filed(o, BookOfTables(ts), id);
    assert row.id == id;
    RecordedReplaces(o, ts, row, event, stamp);
    ChangeKeepsConsistency(o, BookOfTables(ts), Records(id, event, stamp),
                           BookOfTables(Recorded(o, ts, row, event, stamp)));
  }

  lemma OpeningPermitted(o: Oracles, ts: Tables, d: Draft, now: int, stamp: int)
    requires Planned(d.actionId) && d.id !in ts.requests && !KeyTaken(ts.requests, d)
    ensures Permitted(o, BookOfTables(ts), Opens(NewRow(o, d, now), stamp))
  {
    forall id <- ts.requests ensures !SameKey(ts.requests[id], NewRow(o, d, now)) {
      assert !HasKey(ts.requests, d, id);
    }
  }

  lemma OpeningKeeps(o: Oracles, ts: Tables, d: Draft, t: Readings)
    requires TablesInv(o, ts) && Planned(d.actionId) && d.id !in ts.requests && !KeyTaken(ts.requests, d)
    ensures var row := NewRow(o, d, t.decide);
            Kept(o, ts, Recorded(o, ts, row, Open(row), t.stamp))
  {
    var row := NewRow(o, d, t.decide);
    OpeningPermitted(o, ts, d, t.decide, t.stamp);
    RecordedReplaces(o, ts, row, Open(row), t.stamp);
    assert BookOfTables(ts).trails(row.id) == [];
    assert [] + [AuditEntry(o, row, Open(row), t.stamp, GENESIS)] == Opened(o, row, t.stamp).trail;
    ChangeKeepsConsistency(o, BookOfTables(ts), Opens(row, t.stamp),
                           BookOfTables(Recorded(o, ts, row, Open(row), t.stamp)));
  }

  lemma LookKeeps(o: Oracles, ts: Tables, id: string, t: Readings)
    requires TablesInv(o, ts) && id in ts.requests && InOrder(t)
    ensures var (after, row) := Looked(o, ts, id, t);
            && Kept(o, ts, after)
            && row == after.requests[id] && row.id == id
  {
    NothingKept(o, ts);
    assert ts.requests[id].id == id by { assert Filed(o, BookOfTables(ts), id); }
    if Due(ts.requests[id], t.check) {
      EventKeeps(o, ts, id, Expire, t.stamp);
    }
  }

  lemma DecisionKeeps(o: Oracles, ts: Tables, id: string, decision: Result<Event, Error>, stamp: int)
    requires TablesInv(o, ts) && id in ts.requests
    requires decision.Ok? ==> Enabled(o, ts.requests[id], decision.value) && !decision.value.Expire?
    ensures Kept(o, ts, Decided(o, ts, ts.requests[id], decision, stamp).0)
  {
    NothingKept(o, ts);
    if decision.Ok? {
      EventKeeps(o, ts, id, decision.value, stamp);
    }
  }

  lemma CreateKeeps(o: Oracles, ts: Tables, d: Draft, t: Readings)
    requires TablesInv(o, ts) && Planned(d.actionId) && InOrder(t)
    ensures Kept(o, ts, CreateSpec(o, ts, d, t).0)
  {
    NothingKept(o, ts);
    var found := FindByKey(ts.requests, d);
    if found.Some? {
      LookKeeps(o, ts, found.value, t);
    } else if d.id !in ts.requests {
      OpeningKeeps(o, ts, d, t);
    }
  }

  lemma DecisionEnabled(o: Oracles, row: Row, decision: Decision, approver: string, comment: string, at: int)
    ensures var decided := ApproveDecision(o, row, decision, approver, comment, at);
            decided.Ok? ==> Enabled(o, row, decided.value) && !decided.value.Expire? && !decided.value.Dispatch?
  {
  }

  lemma ApproveKeeps(o: Oracles, ts: Tables, id: string, decision: Decision, approver: string, comment: string,
                     t: Readings)
    requires TablesInv(o, ts)
    ensures Kept(o, ts, ApproveSpec(o, ts, id, decision, approver, comment, t).0)
  {
    NothingKept(o, ts);
    if id in ts.requests && !Due(ts.requests[id], t.check) {
      var row := ts.requests[id];
      DecisionEnabled(o, row, decision, approver, comment, Iso(t.decide));
      DecisionKeeps(o, ts, id, ApproveDecision(o, row, decision, approver, comment, Iso(t.decide)), t.stamp);
    }
  }

  lemma DeliveryEnabled(o: Oracles, row: Row, actor: string, config: Config, answer: Answer, now: int)
    requires DispatchGate(row, config).Proceed?
    ensures Planned(row.actionId)
    ensures var delivery := Deliver(row, actor, answer, Iso(now), Cooldown(config));
            delivery.Ok? ==> Enabled(o, row, delivery.value) && !delivery.value.Expire?
  {
  }

  /** A dispatch either changes nothing or records the delivery of a request that is not cooling
      down. */
  lemma DispatchOutcome(o: Oracles, ts: Tables, id: string, actor: string, config: Config, answer: Answer, t: Readings)
    returns (event: Option<Event>)
    ensures var after := DispatchSpec(o, ts, id, actor, config, answer, t).tables;
            match event
            case None => after == ts
            case Some(e) =>
              && id in ts.requests && e.Dispatch? && e.receipt.cooldown == Cooldown(config)
              && Enabled(o, ts.requests[id], e) && !CoolingDown(ts, ts.requests[id], t.cooldown, Cooldown(config))
              && after == Recorded(o, ts, Apply(ts.requests[id], e), e, t.stamp)
  {
    event := None;
    if id in ts.requests && DispatchGate(ts.requests[id], config).Proceed? {
      DeliveryEnabled(o, ts.requests[id], actor, config, answer, t.decide);
      var delivery := Deliver(ts.requests[id], actor, answer, Iso(t.decide), Cooldown(config));
      if DispatchSpec(o, ts, id, actor, config, answer, t).tables != ts && delivery.Ok? {
        event := Some(delivery.value);
      }
    }
  }

  lemma DispatchKeeps(o: Oracles, ts: Tables, id: string, actor: string, config: Config, answer: Answer, t: Readings)
    requires TablesInv(o, ts)
    ensures Kept(o, ts, DispatchSpec(o, ts, id, actor, config, answer, t).tables)
  {
    NothingKept(o, ts);
    var event := DispatchOutcome(o, ts, id, actor, config, answer, t);
    if event.Some? {
      EventKeeps(o, ts, id, event.value, t.stamp);
    }
  }

  /** Every operation keeps the tables consistent and only moves requests forward. */
  lemma CallKeeps(o: Oracles, ts: Tables, call: Call)
    requires TablesInv(o, ts) && Proper(call)
    ensures Kept(o, ts, Perform(o, ts, call))
  {
    NothingKept(o, ts);
    match call {
      case CreateCall(d, t) => CreateKeeps(o, ts, d, t);
      case GetCall(id, t) =>
        if id in ts.requests {
          LookKeeps(o, ts, id, t);
        }
      case ApproveCall(id, decision, approver, comment, t) =>
        ApproveKeeps(o, ts, id, decision, approver, comment, t);
      case DispatchCall(id, actor, config, answer, t) => DispatchKeeps(o, ts, id, actor, config, answer, t);
    }
  }

  lemma {:induction false} RunKeeps(o: Oracles, ts: Tables, calls: seq<Call>)
    requires TablesInv(o, ts) && forall c <- calls :: Proper(c)
    ensures Kept(o, ts, PerformAll(o, ts, calls))
    decreases |calls|
  {
    if calls != [] {
      var next := Perform(o, ts, calls[0]);
      CallKeeps(o, ts, calls[0]);
      RunKeeps(o, next, calls[1..]);
      ContinuesTransitive(BookOfTables(ts), BookOfTables(next), BookOfTables(PerformAll(o, ts, calls)));
    }
  }

  /** A key that has a request keeps answering with it after any run: the same payload is
      replayed and changes nothing but a lazy expiry, another payload is a conflict. */
  lemma ReplayAnswersWithOriginal(o: Oracles, ts: Tables, id: string, calls: seq<Call>, d: Draft, t: Readings)
    requires TablesInv(o, ts) && id in ts.requests && forall c <- calls :: Proper(c)
    requires HasKey(ts.requests, d, id)
    ensures var then' := PerformAll(o, ts, calls);
            var (after, result) := CreateSpec(o, then', d, t);
            if ts.requests[id].payloadHash == o.payloadHash(d.actionId, d.targetId, d.reason)
            then id in then'.requests && (after, result) == GetSpec(o, then', id, t)
                 && result.Ok? && result.value.id == id
            else (after, result) == (then', Err(Conflict))
  {
    RunKeeps(o, ts, calls);
    var then' := PerformAll(o, ts, calls);
    assert Carried(Past(BookOfTables(ts), id), Past(BookOfTables(then'), id));
    assert HasKey(then'.requests, d, id);
    var found := FindByKey(then'.requests, d);
    assert SameKey(then'.requests[found.value], then'.requests[id]);
    assert Filed(o, BookOfTables(then'), id);
  }

  /** A dispatched request keeps its receipt through any run, and a later dispatch returns it
      without a dispatcher call. */
  lemma ReceiptIsFinal(o: Oracles, ts: Tables, id: string, calls: seq<Call>, actor: string, config: Config,
                       answer: Answer, t: Readings)
    requires TablesInv(o, ts) && id in ts.requests && forall c <- calls :: Proper(c)
    requires ts.requests[id].status == Dispatched
    ensures var then' := PerformAll(o, ts, calls);
            DispatchSpec(o, then', id, actor, config, answer, t) == Outcome(then', Ok(ts.requests[id]), false)
  {
    RunKeeps(o, ts, calls);
    assert Carried(Past(BookOfTables(ts), id), Past(BookOfTables(PerformAll(o, ts, calls)), id));
  }

  /** An operation that raises leaves both tables exactly as they were. */
  lemma RaisingChangesNothing(o: Oracles, ts: Tables, call: Call)
    requires ResultOf(o, ts, call).Err?
    ensures Perform(o, ts, call) == ts
  {
  }
}
