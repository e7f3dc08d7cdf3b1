/** What each operation of the automation service does to the two tables when it runs as one
    transaction, as functions of the tables, the arguments and the clock readings. */
module ServiceSpec {
  import opened Options
  import opened AuditChain
  import opened Workflow
  import opened Creation

  datatype Tables = Tables(requests: map<string, Row>, audit: seq<AuditRow>)

  /** One UPDATE or INSERT of a request row with its audit row. */
  function Recorded(o: Oracles, ts: Tables, row: Row, event: Event, stamp: int): Tables {
    Tables(ts.requests[row.id := row],
           ts.audit + [AuditEntry(o, row, event, stamp, Head(Trail(ts.audit, row.id)))])
  }

  /** Reading a stored request lazily expires it. */
  function Looked(o: Oracles, ts: Tables, id: string, t: Readings): (Tables, Row)
    requires id in ts.requests
  {
    var row := ts.requests[id];
    if Due(row, t.check) then
      var expired := Apply(row, Expire);
      (Recorded(o, ts, expired, Expire, t.stamp), expired)
    else (ts, row)
  }

  function GetSpec(o: Oracles, ts: Tables, id: string, t: Readings): (Tables, Result<Row, Error>) {
    if id !in ts.requests then (ts, Err(NotFound)) else
      var (after, row) := Looked(o, ts, id, t);
      (after, Ok(row))
  }

  function Decided(o: Oracles, ts: Tables, row: Row, decision: Result<Event, Error>, stamp: int)
    : (Tables, Result<Row, Error>)
  {
    match decision
    case Err(error) => (ts, Err(error))
    case Ok(event) => (Recorded(o, ts, Apply(row, event), event, stamp), Ok(Apply(row, event)))
  }

  /** A due request refuses the decision and, the transaction being rolled back, stays as it was. */
  function ApproveSpec(o: Oracles, ts: Tables, id: string, decision: Decision, approver: string, comment: string,
                       t: Readings): (Tables, Result<Row, Error>)
  {
    if id !in ts.requests then (ts, Err(NotFound))
    else if Due(ts.requests[id], t.check) then (ts, Err(WrongState))
    else Decided(o, ts, ts.requests[id],
                 ApproveDecision(o, ts.requests[id], decision, approver, comment, Iso(t.decide)), t.stamp)
  }

  /** Audit row k is the dispatch of another dispatched request of the same action and target. */
  predicate Earlier(ts: Tables, k: nat, row: Row)
    requires k < |ts.audit|
  {
    && ts.audit[k].payload.action == RequestDispatched
    && var id := ts.audit[k].payload.requestId;
       && id != row.id && id in ts.requests
       && ts.requests[id].actionId == row.actionId && ts.requests[id].targetId == row.targetId
       && ts.requests[id].status == Dispatched
  }

  function LatestStamp(ts: Tables, row: Row, n: nat): Option<int>
    requires n <= |ts.audit|
  {
    if n == 0 then None
    else if Earlier(ts, n - 1, row) then Some(ts.audit[n - 1].payload.createdAt)
    else LatestStamp(ts, row, n - 1)
  }

  predicate CoolingDown(ts: Tables, row: Row, now: int, cooldown: int) {
    var latest := LatestStamp(ts, row, |ts.audit|);
    latest.Some? && !CooledDown(latest.value, now, cooldown)
  }

  /** Audit row k is the earlier dispatch with the greatest id. */
  ghost predicate LastEarlier(ts: Tables, k: nat, row: Row) {
    && k < |ts.audit| && Earlier(ts, k, row)
    && forall j | k < j < |ts.audit| :: !Earlier(ts, j, row)
  }

  lemma {:induction false} LatestIsLastEarlier(ts: Tables, row: Row, n: nat)
    requires n <= |ts.audit|
    ensures LatestStamp(ts, row, n).None? <==> forall k: nat | k < n :: !Earlier(ts, k, row)
    ensures LatestStamp(ts, row, n).Some? ==>
              exists k: nat | k < n :: && Earlier(ts, k, row) && (forall j | k < j < n :: !Earlier(ts, j, row))
                                       && LatestStamp(ts, row, n).value == ts.audit[k].payload.createdAt
  {
    if n > 0 && !Earlier(ts, n - 1, row) {
      LatestIsLastEarlier(ts, row, n - 1);
    }
  }

  /** A scope cools down exactly while its last earlier dispatch is less than the cooldown old. */
  lemma CoolingDownMeansLast(ts: Tables, row: Row, now: int, cooldown: int)
    ensures CoolingDown(ts, row, now, cooldown) <==>
            exists k: nat :: LastEarlier(ts, k, row) && !CooledDown(ts.audit[k].payload.createdAt, now, cooldown)
  {
    LatestIsLastEarlier(ts, row, |ts.audit|);
    var latest := LatestStamp(ts, row, |ts.audit|);
    if latest.Some? {
      var k: nat :| k < |ts.audit| && Earlier(ts, k, row) && (forall j | k < j < |ts.audit| :: !Earlier(ts, j, row))
                    && latest.value == ts.audit[k].payload.createdAt;
      assert LastEarlier(ts, k, row);
      forall l: nat | LastEarlier(ts, l, row) ensures l == k {
      }
    }
  }

  datatype Outcome = Outcome(tables: Tables, result: Result<Row, Error>, called: bool)

  function DispatchSpec(o: Oracles, ts: Tables, id: string, actor: string, config: Config, answer: Answer,
                        t: Readings): Outcome
  {
    if id !in ts.requests then Outcome(ts, Err(NotFound), false)
    else if Due(ts.requests[id], t.check) then Outcome(ts, Err(WrongState), false)
    else
      var row := ts.requests[id];
      match DispatchGate(row, config)
      case Resend => Outcome(ts, Ok(row), false)
      case Stop(error) => Outcome(ts, Err(error), false)
      case Proceed =>
        if CoolingDown(ts, row, t.cooldown, Cooldown(config)) then Outcome(ts, Err(WrongState), false)
        else
          var (after, result) := Decided(o, ts, row, Deliver(row, actor, answer, Iso(t.decide), Cooldown(config)),
                                         t.stamp);
          Outcome(after, result, true)
  }

  /** The raw arguments of `create`; whether the key matches its pattern and the stripped,
      lower-cased action text are taken as given. */
  datatype Submission = Submission(
    action: string, targetId: string, reason: string, requester: string, key: string, keyAllowed: bool,
    ttl: Option<int>)

  /** Validation, canonicalisation and redaction, before any transaction begins. */
  function Prepared(o: Oracles, s: Submission, newId: string, ttlSetting: Option<int>): (r: Result<Draft, Error>)
    ensures r.Ok? ==> Planned(r.value.actionId) && 300 <= r.value.ttl <= 86400
  {
    var action := CanonicalAction(s.action);
    if !s.keyAllowed || action.None? then Err(InvalidInput) else
      var ttl := if s.ttl.Some? then s.ttl.value else if ttlSetting.Some? then ttlSetting.value else 3600;
      Ok(Draft(newId, action.value, o.redact(s.targetId, 300), o.redact(s.reason, 1000),
               o.redact(s.requester, 254), s.key, Clamp(ttl, 300, 86400)))
  }

  ghost function CreateSpec(o: Oracles, ts: Tables, d: Draft, t: Readings): (Tables, Result<Row, Error>) {
    var found := FindByKey(ts.requests, d);
    if found.Some? then
      if ForDraft(o, d, ts.requests[found.value]) then
        var (after, row) := Looked(o, ts, found.value, t);
        (after, Ok(row))
      else (ts, Err(Conflict))
    else if d.id in ts.requests then (ts, Err(DuplicateId))
    else
      var row := NewRow(o, d, t.decide);
      (Recorded(o, ts, row, Open(row), t.stamp), Ok(row))
  }
}
