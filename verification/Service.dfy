/** The automation service with each operation run as one transaction over the two tables:
    the statements update the tables in place and `Exit` commits or rolls them back. */
module Service {
  import opened Options
  import opened AuditChain
  import opened Workflow
  import opened Creation
  import opened ServiceSpec
  import opened ServiceOutcomes

  /** A connection: the tables as the transaction sees them and as they were when it began. */
  class Database {
    var requests: map<string, Row>
    var audit: seq<AuditRow>
    var saved: Tables

    constructor ()
      ensures Contents() == Tables(map[], [])
    {
      requests, audit := map[], [];
      saved := Tables(map[], []);
    }

    function Contents(): Tables
      reads this
    {
      Tables(requests, audit)
    }

    method Begin()
      modifies this
      ensures Contents() == old(Contents()) && saved == old(Contents())
    {
      saved := Tables(requests, audit);
    }

    /** `__exit__`: commit, or roll back when an exception is passing through. */
    method Exit(raising: bool)
      modifies this
      ensures Contents() == if raising then old(saved) else old(Contents())
    {
      if raising {
        requests, audit := saved.requests, saved.audit;
      }
    }
  }

  class AutomationService {
    const o: Oracles
    const db: Database
    /** The plans handed to the dispatcher; a rollback does not take a call back. */
    var sent: seq<Plan>

    constructor (o: Oracles, db: Database)
      ensures this.o == o && this.db == db && sent == []
    {
      this.o, this.db := o, db;
      sent := [];
    }

    /** `_audit`: read the last hash of the request, then insert. */
    method Audit(row: Row, event: Event, stamp: int)
      modifies db`audit
      ensures db.audit == old(db.audit)
                        + [AuditEntry(o, row, event, stamp, Head(Trail(old(db.audit), row.id)))]
    {
      var previous := Head(Trail(db.audit, row.id));
      db.audit := db.audit + [AuditEntry(o, row, event, stamp, previous)];
    }

    /** `_expire_if_needed`: the guarded UPDATE, its audit row, and the second SELECT. */
    method ExpireIfNeeded(row: Row, t: Readings) returns (current: Row)
      requires row.id in db.requests && db.requests[row.id] == row
      modifies db`requests, db`audit
      ensures (db.Contents(), current) == Looked(o, old(db.Contents()), row.id, t)
    {
      current := row;
      if Live(row.status) && t.check > row.expiresAt * SECOND {
        var stored := db.requests[row.id];
        if Live(stored.status) {
          db.requests := db.requests[row.id := Apply(stored, Expire)];
          Audit(db.requests[row.id], Expire, t.stamp);
        }
        current := db.requests[row.id];
      }
    }

    method Get(id: string, t: Readings) returns (result: Result<Row, Error>)
      requires forall i <- db.requests :: db.requests[i].id == i
      modifies db
      ensures (db.Contents(), result) == GetSpec(o, old(db.Contents()), id, t)
      ensures if id in old(db.requests)
              then result.Ok? && Looks(o, old(db.Contents()), id, t, db.Contents(), result.value)
              else result == Err(NotFound) && db.Contents() == old(db.Contents())
    {
      GetOutcome(o, db.Contents(), id, t);
      db.Begin();
      if id !in db.requests {
        db.Exit(true);
        return Err(NotFound);
      }
      var row := ExpireIfNeeded(db.requests[id], t);
      db.Exit(false);
      result := Ok(row);
    }

    /** The rest of a replay once a stored row has been read. */
    method Resume(id: string, d: Draft, t: Readings) returns (result: Result<Row, Error>)
      requires id in db.requests && db.requests[id].id == id && HasKey(db.requests, d, id)
      modifies db`requests, db`audit
      ensures (db.Contents(), result) == if ForDraft(o, d, old(db.requests)[id])
                                         then var (after, row) := Looked(o, old(db.Contents()), id, t); (after, Ok(row))
                                         else (old(db.Contents()), Err(Conflict))
    {
      var existing := db.requests[id];
      if existing.payloadHash != o.payloadHash(d.actionId, d.targetId, d.reason) {
        return Err(Conflict);
      }
      existing := ExpireIfNeeded(existing, t);
      result := Ok(existing);
    }

    /** INSERT .. ON CONFLICT (requester, idempotency_key) DO NOTHING on whatever tables it meets,
        the second look-up when it inserts nothing, and the audit row when it does. */
    method InsertOrResolve(d: Draft, t: Readings) returns (result: Result<Row, Error>)
      requires forall i <- db.requests :: db.requests[i].id == i
      requires forall i <- db.requests, j <- db.requests | SameKey(db.requests[i], db.requests[j]) :: i == j
      modifies db`requests, db`audit
      ensures (db.Contents(), result) == CreateSpec(o, old(db.Contents()), d, t)
    {
      var row := NewRow(o, d, t.decide);
      if id: string :|
        id in db.requests && db.requests[id].requester == row.requester && db.requests[id].key == row.key {
        assert HasKey(db.requests, d, id);
        result := Resume(id, d, t);
      } else {
        assert forall id :: !HasKey(db.requests, d, id);
        if row.id in db.requests {
          return Err(DuplicateId);
        }
        db.requests := db.requests[row.id := row];
        Audit(row, Open(row), t.stamp);
        result := Ok(row);
      }
    }

    method Create(s: Submission, newId: string, ttlSetting: Option<int>, t: Readings)
      returns (result: Result<Row, Error>)
      requires forall i <- db.requests :: db.requests[i].id == i
      requires forall i <- db.requests, j <- db.requests | SameKey(db.requests[i], db.requests[j]) :: i == j
      modifies db
      ensures (db.Contents(), result) == CreateWhole(o, old(db.Contents()), s, newId, ttlSetting, t)
      ensures Creates(o, old(db.Contents()), s, newId, ttlSetting, t, db.Contents(), result)
    {
      CreateOutcome(o, db.Contents(), s, newId, ttlSetting, t);
      var prepared := Prepared(o, s, newId, ttlSetting);
      if prepared.Err? {
        return Err(prepared.error);
      }
      result := CreateDraft(prepared.value, t);
    }

    method CreateDraft(d: Draft, t: Readings) returns (result: Result<Row, Error>)
      requires forall i <- db.requests :: db.requests[i].id == i
      requires forall i <- db.requests, j <- db.requests | SameKey(db.requests[i], db.requests[j]) :: i == j
      modifies db
      ensures (db.Contents(), result) == CreateSpec(o, old(db.Contents()), d, t)
    {
      db.Begin();
      if id: string :| id in db.requests && db.requests[id].requester == d.requester && db.requests[id].key == d.key {
        assert HasKey(db.requests, d, id);
        result := Resume(id, d, t);
      } else {
        result := InsertOrResolve(d, t);
      }
      db.Exit(result.Err?);
    }

    /** `approve` redacts the approver and the comment, then decides in one transaction. */
    method Approve(id: string, decision: Decision, rawApprover: string, rawComment: string, t: Readings)
      returns (result: Result<Row, Error>)
      requires forall i <- db.requests :: db.requests[i].id == i
      modifies db
      ensures (db.Contents(), result) == ApproveSpec(o, old(db.Contents()), id, decision, o.redact(rawApprover, 254),
                                                     o.redact(rawComment, 1000), t)
      ensures Approves(o, old(db.Contents()), id, decision, o.redact(rawApprover, 254), o.redact(rawComment, 1000), t,
                       db.Contents(), result)
    {
      ApproveOutcome(o, db.Contents(), id, decision, o.redact(rawApprover, 254), o.redact(rawComment, 1000), t);
      result := Decide(id, decision, o.redact(rawApprover, 254), o.redact(rawComment, 1000), t);
    }

    method Decide(id: string, decision: Decision, approver: string, comment: string, t: Readings)
      returns (result: Result<Row, Error>)
      requires forall i <- db.requests :: db.requests[i].id == i
      modifies db
      ensures (db.Contents(), result) == ApproveSpec(o, old(db.Contents()), id, decision, approver, comment, t)
    {
      db.Begin();
      if id !in db.requests {
        db.Exit(true);
        return Err(NotFound);
      }
      var row := ExpireIfNeeded(db.requests[id], t);
      if row.status == Expired {
        db.Exit(true);
        return Err(WrongState);
      }
      if o.lower(approver) == o.lower(row.requester)
         || o.lower(approver) == o.lower(if row.firstApprover.Some? then row.firstApprover.value else "") {
        db.Exit(true);
        return Err(Conflict);
      }
      if row.status != PendingFirst && row.status != PendingSecond {
        db.Exit(true);
        return Err(WrongState);
      }
      var now := Iso(t.decide);
      if decision == RejectIt {
        db.requests := db.requests[id := row.(status := Rejected, rejectedBy := Some(approver),
                                              rejectedAt := Some(now))];
        Audit(db.requests[id], Reject(approver, now, comment), t.stamp);
      } else if row.status == PendingFirst {
        db.requests := db.requests[id := row.(status := PendingSecond, firstApprover := Some(approver),
                                              firstApprovedAt := Some(now))];
        Audit(db.requests[id], ApproveFirst(approver, now, comment), t.stamp);
      } else {
        db.requests := db.requests[id := row.(status := Approved, secondApprover := Some(approver),
                                              secondApprovedAt := Some(now))];
        Audit(db.requests[id], ApproveSecond(approver, now, comment), t.stamp);
      }
      var updated := db.requests[id];
      db.Exit(false);
      result := Ok(updated);
    }

    /** `_assert_dispatch_policy`: the kill switch, the execution flag and the allowlist. */
    method PolicyBlocks(actionId: string, config: Config) returns (blocked: bool)
      ensures blocked <==> config.killSwitch || !config.executionEnabled || !Allowed(config, actionId)
      ensures !blocked ==> Planned(actionId)
    {
      if config.killSwitch {
        return true;
      }
      if !config.executionEnabled {
        return true;
      }
      blocked := !Allowed(config, actionId);
    }

    /** `_assert_dispatch_cooldown`: only the earlier dispatch with the greatest id counts. */
    method CooldownActive(row: Row, seconds: int, now: int) returns (active: bool)
      ensures active <==> exists k: nat :: LastEarlier(db.Contents(), k, row)
                                        && !CooledDown(db.audit[k].payload.createdAt, now, seconds)
    {
      CoolingDownMeansLast(db.Contents(), row, now, seconds);
      var latest := LatestStamp(db.Contents(), row, |db.audit|);
      if latest.None? {
        return false;
      }
      var elapsed := now - latest.value * SECOND;
      active := elapsed < seconds * SECOND;
    }

    /** The dispatcher call, the check of its receipt and, when it passes, the UPDATE with its
        audit row. */
    method Send(row: Row, actor: string, seconds: int, answer: Answer, t: Readings) returns (result: Result<Row, Error>)
      requires Planned(row.actionId) && row.id in db.requests && db.requests[row.id] == row
      modifies this`sent, db`requests, db`audit
      ensures sent == old(sent) + [PlanFor(row)] && FitsRequest(sent[|old(sent)|], row)
      ensures (db.Contents(), result)
           == Decided(o, old(db.Contents()), row, Deliver(row, actor, answer, Iso(t.decide), seconds), t.stamp)
    {
      PlanFits(row);
      sent := sent + [PlanFor(row)];
      var delivery := Deliver(row, actor, answer, Iso(t.decide), seconds);
      if delivery.Err? {
        return Err(delivery.error);
      }
      db.requests := db.requests[row.id := Apply(row, delivery.value)];
      Audit(db.requests[row.id], delivery.value, t.stamp);
      result := Ok(db.requests[row.id]);
    }

    /** `dispatch` redacts the actor, then works in one transaction. */
    method Dispatch(id: string, rawActor: string, config: Config, answer: Answer, t: Readings)
      returns (result: Result<Row, Error>)
      requires forall i <- db.requests :: db.requests[i].id == i
      modifies this`sent, db
      ensures var spec := DispatchSpec(o, old(db.Contents()), id, o.redact(rawActor, 254), config, answer, t);
              && db.Contents() == spec.tables && result == spec.result
              && (!spec.called ==> sent == old(sent))
              && (spec.called ==> && |sent| == |old(sent)| + 1 && sent[..|old(sent)|] == old(sent)
                                  && id in old(db.requests) && FitsRequest(sent[|old(sent)|], old(db.requests)[id]))
      ensures Dispatches(o, old(db.Contents()), id, o.redact(rawActor, 254), config, answer, t,
                         id in old(db.requests)
                         && CoolingDown(old(db.Contents()), old(db.requests)[id], t.cooldown, Cooldown(config)),
                         db.Contents(), result, sent != old(sent))
    {
      DispatchedOutcome(o, db.Contents(), id, o.redact(rawActor, 254), config, answer, t);
      result := DispatchRequest(id, o.redact(rawActor, 254), config, answer, t);
    }

    method DispatchRequest(id: string, actor: string, config: Config, answer: Answer, t: Readings)
      returns (result: Result<Row, Error>)
      requires forall i <- db.requests :: db.requests[i].id == i
      modifies this`sent, db
      ensures var spec := DispatchSpec(o, old(db.Contents()), id, actor, config, answer, t);
              && db.Contents() == spec.tables && result == spec.result
              && (!spec.called ==> sent == old(sent))
              && (spec.called ==> && |sent| == |old(sent)| + 1 && sent[..|old(sent)|] == old(sent)
                                  && id in old(db.requests) && FitsRequest(sent[|old(sent)|], old(db.requests)[id]))
    {
      db.Begin();
      if id !in db.requests {
        db.Exit(true);
        return Err(NotFound);
      }
      var row := ExpireIfNeeded(db.requests[id], t);
      if row.status == Dispatched {
        db.Exit(false);
        return Ok(row);
      }
      if row.status != Approved {
        db.Exit(true);
        return Err(WrongState);
      }
      var blocked := PolicyBlocks(row.actionId, config);
      if blocked {
        db.Exit(true);
        return Err(ExecutionDisabled);
      }
      var seconds := Cooldown(config);
      var active := CooldownActive(row, seconds, t.cooldown);
      CoolingDownMeansLast(db.Contents(), row, t.cooldown, seconds);
      if active {
        db.Exit(true);
        return Err(WrongState);
      }
      result := Send(row, actor, seconds, answer, t);
      db.Exit(result.Err?);
    }

    /** `audit`: the first rows of a request's trail, each with its `chain_valid` verdict. */
    method ListAudit(id: string, limit: nat) returns (result: Result<(seq<AuditRow>, seq<bool>), Error>)
      ensures result.Err? <==> id !in db.requests
      ensures result.Ok? ==>
                var (rows, valid) := result.value;
                var trail := Trail(db.audit, id);
                && rows == trail[..if limit < |trail| then limit else |trail|]
                && |valid| == |rows|
                && forall i | 0 <= i < |rows| :: valid[i] <==> Linked(o.hash, trail, i)
    {
      if id !in db.requests {
        return Err(NotFound);
      }
      var trail := Trail(db.audit, id);
      var n := if limit < |trail| then limit else |trail|;
      var valid := CheckTrail(o.hash, trail[..n]);
      forall i | 0 <= i < n ensures valid[i] <==> Linked(o.hash, trail, i) {
        LimitKeepsVerdicts(o.hash, trail, n, i);
      }
      result := Ok((trail[..n], valid));
    }
  }
}
