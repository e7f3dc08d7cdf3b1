/** The cooldown over whole sequences of calls. Each call only keeps its own readings in order,
    and that is enough to space the dispatches of every scope. Here ids are positions in one audit
    table; the statement-level counterparts in MachineInvariant count positions in the log of all
    insertions, committed or not. */
module ServiceSpacing {
  import opened AuditChain
  import opened Workflow
  import opened Creation
  import opened Ledger
  import opened ServiceSpec
  import opened ServiceTheorems

  /** Audit row k is a dispatch. */
  predicate DispatchRow(ts: Tables, k: nat) {
    && k < |ts.audit| && ts.audit[k].payload.action == RequestDispatched
    && ts.audit[k].payload.requestId in ts.requests
    && ts.requests[ts.audit[k].payload.requestId].receipt.Some?
  }

  function RequestAt(ts: Tables, k: nat): Row
    requires k < |ts.audit| && ts.audit[k].payload.requestId in ts.requests
  {
    ts.requests[ts.audit[k].payload.requestId]
  }

  /** Audit row i is a dispatch in the scope of audit row j. */
  predicate SameScopeDispatch(ts: Tables, i: nat, j: nat) {
    i < |ts.audit| && DispatchRow(ts, j) && Earlier(ts, i, RequestAt(ts, j))
  }

  ghost predicate SpacedTables(ts: Tables) {
    forall i: nat, j: nat | i < j && SameScopeDispatch(ts, i, j) ::
      ts.audit[i].payload.createdAt + RequestAt(ts, j).receipt.value.cooldown <= ts.audit[j].payload.createdAt
  }

  ghost predicate OneDispatchRowEach(ts: Tables) {
    forall i: nat, j: nat | i < j && DispatchRow(ts, i) && DispatchRow(ts, j) ::
      ts.audit[i].payload.requestId != ts.audit[j].payload.requestId
  }

  ghost predicate SpacedTablesInv(o: Oracles, ts: Tables) {
    TablesInv(o, ts) && SpacedTables(ts) && OneDispatchRowEach(ts)
  }

  /** Only dispatched requests have dispatch rows. */
  lemma DispatchRowMeansDispatched(o: Oracles, ts: Tables, k: nat)
    requires TablesInv(o, ts) && k < |ts.audit| && ts.audit[k].payload.action == RequestDispatched
    ensures var id := ts.audit[k].payload.requestId;
            && id in ts.requests && ts.requests[id].id == id && ts.requests[id].status == Dispatched
            && ts.requests[id].receipt.Some? && ts.requests[id].receipt.value.cooldown >= 1
  {
    var id := ts.audit[k].payload.requestId;
    var i := TrailShows(ts.audit, k);
    assert Filed(o, BookOfTables(ts), id);
    DispatchEntryMeansDispatched(o, Past(BookOfTables(ts), id), i);
  }

  // ---------------------------------------------------------------------------------------
  // The latest dispatch of a scope
  // ---------------------------------------------------------------------------------------

  lemma AuditedInOrder(o: Oracles, ts: Tables, row: Row, i: nat, j: nat)
    requires SpacedTablesInv(o, ts) && i < j < |ts.audit| && Earlier(ts, i, row) && Earlier(ts, j, row)
    ensures ts.audit[i].payload.createdAt <= ts.audit[j].payload.createdAt
  {
    DispatchRowMeansDispatched(o, ts, i);
    DispatchRowMeansDispatched(o, ts, j);
    assert DispatchRow(ts, i) && DispatchRow(ts, j);
    assert SameScopeDispatch(ts, i, j);
  }

  /** The row with the greatest id has the greatest time, so the query needs only that row. */
  lemma {:induction false} LatestIsLatest(o: Oracles, ts: Tables, row: Row, n: nat, k: nat)
    requires SpacedTablesInv(o, ts) && k < n <= |ts.audit| && Earlier(ts, k, row)
    ensures LatestStamp(ts, row, n).Some?
    ensures ts.audit[k].payload.createdAt <= LatestStamp(ts, row, n).value
  {
    if Earlier(ts, n - 1, row) {
      if k < n - 1 {
        AuditedInOrder(o, ts, row, k, n - 1);
      }
    } else {
      LatestIsLatest(o, ts, row, n - 1, k);
    }
  }

  // ---------------------------------------------------------------------------------------
  // One recorded event
  // ---------------------------------------------------------------------------------------

  ghost predicate NoDispatchYet(ts: Tables, id: string) {
    forall k | 0 <= k < |ts.audit| && ts.audit[k].payload.requestId == id ::
      ts.audit[k].payload.action != RequestDispatched
  }

  lemma LiveHasNoDispatch(o: Oracles, ts: Tables, id: string)
    requires TablesInv(o, ts) && (id in ts.requests ==> ts.requests[id].status != Dispatched)
    ensures NoDispatchYet(ts, id)
  {
    forall k | 0 <= k < |ts.audit| && ts.audit[k].payload.requestId == id
      ensures ts.audit[k].payload.action != RequestDispatched {
      if ts.audit[k].payload.action == RequestDispatched {
        DispatchRowMeansDispatched(o, ts, k);
      }
    }
  }

  /** The dispatch rows after an event: the old ones, and the new one if it is a dispatch. */
  lemma RowsAfter(o: Oracles, ts: Tables, row: Row, event: Event, stamp: int, k: nat)
    requires NoDispatchYet(ts, row.id) && DispatchRow(Recorded(o, ts, row, event, stamp), k)
    ensures k == |ts.audit| ==> event.Dispatch?
    ensures k != |ts.audit| ==>
              DispatchRow(ts, k) && ts.audit[k].payload.requestId != row.id
  {
  }

  lemma PairAfter(o: Oracles, ts: Tables, row: Row, event: Event, stamp: int, i: nat, j: nat)
    requires NoDispatchYet(ts, row.id)
    requires i < j && SameScopeDispatch(Recorded(o, ts, row, event, stamp), i, j)
    ensures j < |ts.audit| ==> SameScopeDispatch(ts, i, j)
    ensures j == |ts.audit| ==> event.Dispatch? && Earlier(ts, i, row)
  {
    RowsAfter(o, ts, row, event, stamp, j);
  }

  ghost predicate ClearOf(ts: Tables, row: Row, stamp: int, cooldown: int) {
    forall k: nat | k < |ts.audit| && Earlier(ts, k, row) :: ts.audit[k].payload.createdAt + cooldown <= stamp
  }

  lemma RecordKeepsSpacing(o: Oracles, ts: Tables, row: Row, event: Event, stamp: int)
    requires SpacedTables(ts) && OneDispatchRowEach(ts) && NoDispatchYet(ts, row.id)
    requires event.Dispatch? ==> row.receipt.Some? && ClearOf(ts, row, stamp, row.receipt.value.cooldown)
    ensures SpacedTables(Recorded(o, ts, row, event, stamp)) && OneDispatchRowEach(Recorded(o, ts, row, event, stamp))
  {
    var after := Recorded(o, ts, row, event, stamp);
    forall i: nat, j: nat | i < j && SameScopeDispatch(after, i, j)
      ensures after.audit[i].payload.createdAt + RequestAt(after, j).receipt.value.cooldown
                <= after.audit[j].payload.createdAt {
      PairAfter(o, ts, row, event, stamp, i, j);
    }
    forall i: nat, j: nat | i < j && DispatchRow(after, i) && DispatchRow(after, j)
      ensures after.audit[i].payload.requestId != after.audit[j].payload.requestId {
      RowsAfter(o, ts, row, event, stamp, i);
      RowsAfter(o, ts, row, event, stamp, j);
    }
  }

  /** A dispatch that passed the cooldown check at a time it read before its audit row. */
  lemma CheckClears(o: Oracles, ts: Tables, row: Row, t: Readings, cooldown: int)
    requires SpacedTablesInv(o, ts) && InOrder(t) && !CoolingDown(ts, row, t.cooldown, cooldown)
    ensures ClearOf(ts, row, t.stamp, cooldown)
  {
    forall k: nat | k < |ts.audit| && Earlier(ts, k, row)
      ensures ts.audit[k].payload.createdAt + cooldown <= t.stamp {
      LatestIsLatest(o, ts, row, |ts.audit|, k);
    }
  }

  // ---------------------------------------------------------------------------------------
  // One call
  // ---------------------------------------------------------------------------------------

  lemma EventSpaces(o: Oracles, ts: Tables, id: string, event: Event, stamp: int)
    requires SpacedTablesInv(o, ts) && id in ts.requests && Enabled(o, ts.requests[id], event) && !event.Dispatch?
    ensures var after := Recorded(o, ts, Apply(ts.requests[id], event), event, stamp);
            SpacedTables(after) && OneDispatchRowEach(after)
  {
    assert Filed(o, BookOfTables(ts), id);
    LiveHasNoDispatch(o, ts, id);
    RecordKeepsSpacing(o, ts, Apply(ts.requests[id], event), event, stamp);
  }

  lemma LookSpaces(o: Oracles, ts: Tables, id: string, t: Readings)
    requires SpacedTablesInv(o, ts) && id in ts.requests
    ensures var after := Looked(o, ts, id, t).0; SpacedTables(after) && OneDispatchRowEach(after)
  {
    if Due(ts.requests[id], t.check) {
      EventSpaces(o, ts, id, Expire, t.stamp);
    }
  }

  lemma CreateSpaces(o: Oracles, ts: Tables, d: Draft, t: Readings)
    requires SpacedTablesInv(o, ts)
    ensures var after := CreateSpec(o, ts, d, t).0; SpacedTables(after) && OneDispatchRowEach(after)
  {
    var found := FindByKey(ts.requests, d);
    if found.Some? {
      LookSpaces(o, ts, found.value, t);
    } else if d.id !in ts.requests {
      LiveHasNoDispatch(o, ts, d.id);
      RecordKeepsSpacing(o, ts, NewRow(o, d, t.decide), Open(NewRow(o, d, t.decide)), t.stamp);
    }
  }

  lemma ApproveSpaces(o: Oracles, ts: Tables, id: string, decision: Decision, approver: string, comment: string,
                      t: Readings)
    requires SpacedTablesInv(o, ts)
    ensures var after := ApproveSpec(o, ts, id, decision, approver, comment, t).0;
            SpacedTables(after) && OneDispatchRowEach(after)
  {
    if id in ts.requests && !Due(ts.requests[id], t.check) {
      DecisionEnabled(o, ts.requests[id], decision, approver, comment, Iso(t.decide));
      var decided := ApproveDecision(o, ts.requests[id], decision, approver, comment, Iso(t.decide));
      if decided.Ok? {
        EventSpaces(o, ts, id, decided.value, t.stamp);
      }
    }
  }

  lemma DeliverySpaces(o: Oracles, ts: Tables, id: string, event: Event, t: Readings)
    requires SpacedTablesInv(o, ts) && InOrder(t) && id in ts.requests && event.Dispatch?
    requires Enabled(o, ts.requests[id], event)
    requires !CoolingDown(ts, ts.requests[id], t.cooldown, event.receipt.cooldown)
    ensures var after := Recorded(o, ts, Apply(ts.requests[id], event), event, t.stamp);
            SpacedTables(after) && OneDispatchRowEach(after)
  {
    var row := ts.requests[id];
    assert row.id == id by { assert Filed(o, BookOfTables(ts), id); }
    LiveHasNoDispatch(o, ts, id);
    CheckClears(o, ts, row, t, event.receipt.cooldown);
    assert ClearOf(ts, Apply(row, event), t.stamp, event.receipt.cooldown);
    RecordKeepsSpacing(o, ts, Apply(row, event), event, t.stamp);
  }

  lemma DispatchSpaces(o: Oracles, ts: Tables, id: string, actor: string, config: Config, answer: Answer, t: Readings)
    requires SpacedTablesInv(o, ts) && InOrder(t)
    ensures var after := DispatchSpec(o, ts, id, actor, config, answer, t).tables;
            SpacedTables(after) && OneDispatchRowEach(after)
  {
    var event := DispatchOutcome(o, ts, id, actor, config, answer, t);
    if event.Some? {
      DeliverySpaces(o, ts, id, event.value, t);
    }
  }

  lemma CallSpaces(o: Oracles, ts: Tables, call: Call)
    requires SpacedTablesInv(o, ts) && Proper(call)
    ensures SpacedTablesInv(o, Perform(o, ts, call))
  {
    CallKeeps(o, ts, call);
    match call {
      case CreateCall(d, t) => CreateSpaces(o, ts, d, t);
      case GetCall(id, t) =>
        if id in ts.requests {
          LookSpaces(o, ts, id, t);
        }
      case ApproveCall(id, decision, approver, comment, t) =>
        ApproveSpaces(o, ts, id, decision, approver, comment, t);
      case DispatchCall(id, actor, config, answer, t) => DispatchSpaces(o, ts, id, actor, config, answer, t);
    }
  }

  lemma {:induction false} RunSpaces(o: Oracles, ts: Tables, calls: seq<Call>)
    requires SpacedTablesInv(o, ts) && forall c <- calls :: Proper(c)
    ensures SpacedTablesInv(o, PerformAll(o, ts, calls))
    decreases |calls|
  {
    if calls != [] {
      CallSpaces(o, ts, calls[0]);
      RunSpaces(o, Perform(o, ts, calls[0]), calls[1..]);
    }
  }

  // ---------------------------------------------------------------------------------------
  // The theorem
  // ---------------------------------------------------------------------------------------

  function DispatchedAt(ts: Tables, id: string): int
    requires Trail(ts.audit, id) != []
  {
    Trail(ts.audit, id)[|Trail(ts.audit, id)| - 1].payload.createdAt
  }

  lemma DispatchRowOf(o: Oracles, ts: Tables, id: string) returns (k: nat)
    requires TablesInv(o, ts) && id in ts.requests && ts.requests[id].status == Dispatched
    ensures Trail(ts.audit, id) != [] && DispatchRow(ts, k)
    ensures ts.audit[k].payload.requestId == id && ts.audit[k].payload.createdAt == DispatchedAt(ts, id)
  {
    var past := Past(BookOfTables(ts), id);
    assert Filed(o, BookOfTables(ts), id);
    TrailIsWord(past.trail);
    var n := |past.trail| - 1;
    assert Actions(past.trail)[n] == RequestDispatched;
    k := TrailComesFromTable(ts.audit, id, n);
  }

  /** Two dispatched requests with the same action and target. */
  predicate DispatchedTwins(ts: Tables, a: string, b: string) {
    && a != b && a in ts.requests && b in ts.requests
    && ts.requests[a].status == Dispatched && ts.requests[b].status == Dispatched
    && ts.requests[a].actionId == ts.requests[b].actionId
    && ts.requests[a].targetId == ts.requests[b].targetId
  }

  /** Request b was dispatched at least its own cooldown after request a. */
  predicate After(ts: Tables, a: string, b: string) {
    && Trail(ts.audit, a) != [] && Trail(ts.audit, b) != []
    && b in ts.requests && ts.requests[b].receipt.Some?
    && DispatchedAt(ts, a) + ts.requests[b].receipt.value.cooldown <= DispatchedAt(ts, b)
  }

  lemma TwinsAreSpaced(o: Oracles, ts: Tables, a: string, b: string)
    requires SpacedTablesInv(o, ts) && DispatchedTwins(ts, a, b)
    ensures After(ts, a, b) || After(ts, b, a)
  {
    var k := DispatchRowOf(o, ts, a);
    var l := DispatchRowOf(o, ts, b);
    DispatchRowMeansDispatched(o, ts, k);
    DispatchRowMeansDispatched(o, ts, l);
    if k < l {
      assert SameScopeDispatch(ts, k, l);
    } else {
      assert SameScopeDispatch(ts, l, k);
    }
  }

  /** Another request of the same action and target was dispatched less than the cooldown ago. */
  ghost predicate RecentDispatch(ts: Tables, row: Row, id: string, now: int, cooldown: int) {
    && id in ts.requests && id != row.id && ts.requests[id].status == Dispatched
    && ts.requests[id].actionId == row.actionId && ts.requests[id].targetId == row.targetId
    && Trail(ts.audit, id) != [] && now - DispatchedAt(ts, id) * 1_000_000 < cooldown * 1_000_000
  }

  lemma EarlierIsDispatched(o: Oracles, ts: Tables, k: nat)
    requires TablesInv(o, ts) && k < |ts.audit| && ts.audit[k].payload.action == RequestDispatched
    ensures var id := ts.audit[k].payload.requestId;
            Trail(ts.audit, id) != [] && DispatchedAt(ts, id) == ts.audit[k].payload.createdAt
  {
    var id := ts.audit[k].payload.requestId;
    DispatchRowMeansDispatched(o, ts, k);
    var i := TrailShows(ts.audit, k);
    assert Filed(o, BookOfTables(ts), id);
    DispatchEntryMeansDispatched(o, Past(BookOfTables(ts), id), i);
  }

  /** The query for the latest earlier dispatch finds a cooldown active exactly when any dispatch
      of the scope is recent. */
  lemma CoolingDownMeansRecent(o: Oracles, ts: Tables, row: Row, now: int, cooldown: int)
    requires SpacedTablesInv(o, ts)
    ensures CoolingDown(ts, row, now, cooldown) <==> exists id :: RecentDispatch(ts, row, id, now, cooldown)
  {
    CoolingDownMeansLast(ts, row, now, cooldown);
    if CoolingDown(ts, row, now, cooldown) {
      var k: nat :| LastEarlier(ts, k, row) && !CooledDown(ts.audit[k].payload.createdAt, now, cooldown);
      EarlierIsDispatched(o, ts, k);
      assert RecentDispatch(ts, row, ts.audit[k].payload.requestId, now, cooldown);
    }
    if id :| RecentDispatch(ts, row, id, now, cooldown) {
      var k := DispatchRowOf(o, ts, id);
      LatestIsLatest(o, ts, row, |ts.audit|, k);
    }
  }

  lemma EmptyTablesAreSpaced(o: Oracles)
    ensures SpacedTablesInv(o, Tables(map[], []))
  {
  }

  /** After any calls from empty tables, two dispatched requests with the same action and target
      are at least the later one's cooldown apart. */
  lemma DispatchedCallsAreSpaced(o: Oracles, calls: seq<Call>, a: string, b: string)
    requires forall c <- calls :: Proper(c)
    requires DispatchedTwins(PerformAll(o, Tables(map[], []), calls), a, b)
    ensures var ts := PerformAll(o, Tables(map[], []), calls); After(ts, a, b) || After(ts, b, a)
  {
    EmptyTablesAreSpaced(o);
    RunSpaces(o, Tables(map[], []), calls);
    TwinsAreSpaced(o, PerformAll(o, Tables(map[], []), calls), a, b);
  }
}
