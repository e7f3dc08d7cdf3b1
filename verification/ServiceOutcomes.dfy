/** What callers of the service can rely on, in terms of columns, audit rows, readings and literal
    texts: when each operation succeeds, what it then stores and answers, and how it refuses. */
module ServiceOutcomes {
  import opened Options
  import opened AuditChain
  import opened Workflow
  import opened Creation
  import opened ServiceSpec

  // ---------------------------------------------------------------------------------------
  // Vocabulary
  // ---------------------------------------------------------------------------------------

  /** A stored time is the whole second of a reading. */
  predicate WholeSecond(at: int, reading: int) {
    at * 1_000_000 <= reading < (at + 1) * 1_000_000
  }

  /** One request row was written and no other touched. */
  ghost predicate OnlyRow(before: map<string, Row>, id: string, row: Row, after: map<string, Row>) {
    && id in after && after[id] == row
    && forall other | other != id :: (other in after <==> other in before)
                                  && (other in before ==> after[other] == before[other])
  }

  /** One audit row was appended: who, what, when, linked to the last hash of its request. */
  predicate Logged(o: Oracles, before: seq<AuditRow>, id: string, actor: string, action: Action, details: Details,
                   at: int, after: seq<AuditRow>)
  {
    && |after| == |before| + 1 && after[..|before|] == before
    && var entry := after[|before|];
       && entry.payload.requestId == id && entry.payload.actor == o.redact(actor, 254)
       && entry.payload.action == action && entry.payload.details == o.detailsJson(details)
       && entry.payload.createdAt == at && entry.payload.chainVersion == 1
       && entry.payload.previousHash == Head(Trail(before, id)) && entry.entryHash == o.hash(entry.payload)
  }

  predicate Pending(row: Row) {
    row.status == PendingFirst || row.status == PendingSecond
  }

  predicate Unfinished(row: Row) {
    Pending(row) || row.status == Approved
  }

  predicate PastDeadline(row: Row, reading: int) {
    reading > row.expiresAt * 1_000_000
  }

  // ---------------------------------------------------------------------------------------
  // get
  // ---------------------------------------------------------------------------------------

  /** A request that nobody has finished is returned as it is up to its deadline and expired by the
      first look after it. */
  ghost predicate Looks(o: Oracles, ts: Tables, id: string, t: Readings, after: Tables, row: Row)
    requires id in ts.requests
  {
    var stored := ts.requests[id];
    if Unfinished(stored) && PastDeadline(stored, t.check) then
      && row == stored.(status := Expired) && OnlyRow(ts.requests, id, row, after.requests)
      && Logged(o, ts.audit, id, "system", RequestExpired, ExpiryDetails(stored.expiresAt), t.stamp, after.audit)
    else
      row == stored && after == ts
  }

  lemma LookOutcome(o: Oracles, ts: Tables, id: string, t: Readings)
    requires id in ts.requests && ts.requests[id].id == id
    ensures Looks(o, ts, id, t, Looked(o, ts, id, t).0, Looked(o, ts, id, t).1)
  {
  }

  lemma GetOutcome(o: Oracles, ts: Tables, id: string, t: Readings)
    requires id in ts.requests ==> ts.requests[id].id == id
    ensures var (after, result) := GetSpec(o, ts, id, t);
            if id in ts.requests then result.Ok? && Looks(o, ts, id, t, after, result.value)
            else result == Err(NotFound) && after == ts
  {
    if id in ts.requests {
      LookOutcome(o, ts, id, t);
    }
  }

  // ---------------------------------------------------------------------------------------
  // approve
  // ---------------------------------------------------------------------------------------

  /** The approver is neither the requester nor the first approver, the empty text standing for
      a missing one. */
  predicate Independent(o: Oracles, row: Row, approver: string) {
    && o.lower(approver) != o.lower(row.requester)
    && (row.firstApprover.Some? ==> o.lower(approver) != o.lower(row.firstApprover.value))
    && (row.firstApprover.None? ==> o.lower(approver) != o.lower(""))
  }

  /** Which decision does what to the row and to the audit trail. */
  predicate DecisionStored(o: Oracles, ts: Tables, row: Row, decision: Decision, approver: string, comment: string,
                           t: Readings, after: Tables, answer: Row)
  {
    match decision
    case RejectIt =>
      && answer.rejectedAt.Some? && WholeSecond(answer.rejectedAt.value, t.decide)
      && answer == row.(status := Rejected, rejectedBy := Some(approver), rejectedAt := answer.rejectedAt)
      && Logged(o, ts.audit, row.id, approver, RequestRejected, CommentDetails(comment), t.stamp, after.audit)
    case ApproveIt =>
      if row.status == PendingFirst then
        && answer.firstApprovedAt.Some? && WholeSecond(answer.firstApprovedAt.value, t.decide)
        && answer == row.(status := PendingSecond, firstApprover := Some(approver),
                          firstApprovedAt := answer.firstApprovedAt)
        && Logged(o, ts.audit, row.id, approver, FirstApproval, CommentDetails(comment), t.stamp, after.audit)
      else
        && answer.secondApprovedAt.Some? && WholeSecond(answer.secondApprovedAt.value, t.decide)
        && answer == row.(status := Approved, secondApprover := Some(approver),
                          secondApprovedAt := answer.secondApprovedAt)
        && Logged(o, ts.audit, row.id, approver, SecondApproval, CommentDetails(comment), t.stamp, after.audit)
  }

  ghost predicate Approves(o: Oracles, ts: Tables, id: string, decision: Decision, approver: string, comment: string,
                           t: Readings, after: Tables, result: Result<Row, Error>)
  {
    if id !in ts.requests then result == Err(NotFound) && after == ts else
      var row := ts.requests[id];
      if row.status == Expired || (Unfinished(row) && PastDeadline(row, t.check)) then
        result == Err(WrongState) && after == ts
      else if !Independent(o, row, approver) then result == Err(Conflict) && after == ts
      else if !Pending(row) then result == Err(WrongState) && after == ts
      else
        && result.Ok? && OnlyRow(ts.requests, id, result.value, after.requests)
        && DecisionStored(o, ts, row, decision, approver, comment, t, after, result.value)
  }

  lemma ApproveOutcome(o: Oracles, ts: Tables, id: string, decision: Decision, approver: string, comment: string,
                       t: Readings)
    requires id in ts.requests ==> ts.requests[id].id == id
    ensures var (after, result) := ApproveSpec(o, ts, id, decision, approver, comment, t);
            Approves(o, ts, id, decision, approver, comment, t, after, result)
  {
  }

  // ---------------------------------------------------------------------------------------
  // dispatch
  // ---------------------------------------------------------------------------------------

  /** The texts that name an action. */
  predicate Names(text: string, actionId: string) {
    || (actionId == "cert_renew" && text in {"cert_renew", "cert-renew", "vault-cert-renew", "vault-pki-renew"})
    || (actionId == "lease_revoke" && text in {"lease_revoke", "lease-revoke", "vault-lease-revoke"})
    || (actionId == "rescan" && text in {"rescan", "vault-radar-rescan"})
  }

  /** Without a list every known action is allowed, with one those it names. */
  predicate Permits(config: Config, actionId: string) {
    && !config.killSwitch && config.executionEnabled
    && actionId in {"cert_renew", "lease_revoke", "rescan"}
    && (config.allowedActions.Some? ==> exists name <- config.allowedActions.value :: Names(name, actionId))
  }

  /** The cooldown in force: the setting between a second and a day, 300 seconds without one. */
  predicate InForce(config: Config, cooldown: int) {
    match config.cooldownSetting
    case None => cooldown == 300
    case Some(v) =>
      && 1 <= cooldown <= 86400 && (1 <= v <= 86400 ==> cooldown == v)
      && (v < 1 ==> cooldown == 1) && (v > 86400 ==> cooldown == 86400)
  }

  /** Each action goes to its own adapter. */
  predicate FitsRequest(plan: Plan, row: Row) {
    && plan.requestId == row.id && plan.actionId == row.actionId && plan.targetId == row.targetId
    && (row.actionId == "cert_renew" ==> plan.adapter == "vault-pki" && plan.operation == "renew-certificate")
    && (row.actionId == "lease_revoke" ==> plan.adapter == "vault-sys-leases" && plan.operation == "revoke-lease")
    && (row.actionId == "rescan" ==> plan.adapter == "vault-radar" && plan.operation == "start-rescan")
  }

  /** The receipt is the dispatcher's answer with the preflight facts of the same request. */
  predicate ReceiptStored(row: Row, config: Config, answer: Answer, t: Readings, receipt: Receipt)
    requires answer.Dictionary?
  {
    && receipt.dispatchId == answer.dispatchId && receipt.mode == answer.mode
    && receipt.sideEffects == answer.sideEffects && receipt.rest == answer.rest
    && WholeSecond(receipt.checkedAt, t.decide) && InForce(config, receipt.cooldown)
    && receipt.actionId == row.actionId && receipt.targetId == row.targetId
    && (row.actionId == "cert_renew" ==> receipt.rollback == "restore-previous-certificate-reference")
    && (row.actionId == "lease_revoke" ==> receipt.rollback == "issue-replacement-credential")
    && (row.actionId == "rescan" ==> receipt.rollback == "cancel-pending-scan")
  }

  predicate DispatchStored(o: Oracles, ts: Tables, row: Row, actor: string, config: Config, answer: Answer,
                           t: Readings, after: Tables, stored: Row)
    requires answer.Dictionary?
  {
    && stored.receipt.Some? && stored == row.(status := Dispatched, receipt := stored.receipt)
    && ReceiptStored(row, config, answer, t, stored.receipt.value)
    && Logged(o, ts.audit, row.id, actor, RequestDispatched,
              DispatchDetails(answer.dispatchId, answer.mode,
                              if answer.sideEffects == Absent then FalseValue else answer.sideEffects),
              t.stamp, after.audit)
  }

  /** What the dispatcher may answer without the dispatch being refused. */
  predicate Acceptable(answer: Answer) {
    answer.Dictionary? && (answer.sideEffects == Absent || answer.sideEffects == NullValue
                           || answer.sideEffects == FalseValue)
  }

  /** `recent` says that the scope of the request is cooling down. */
  ghost predicate Dispatches(o: Oracles, ts: Tables, id: string, actor: string, config: Config, answer: Answer,
                             t: Readings, recent: bool, after: Tables, result: Result<Row, Error>, called: bool)
  {
    if id !in ts.requests then result == Err(NotFound) && after == ts && !called else
      var row := ts.requests[id];
      if row.status == Dispatched then result == Ok(row) && after == ts && !called
      else if row.status != Approved || PastDeadline(row, t.check) then
        result == Err(WrongState) && after == ts && !called
      else if !Permits(config, row.actionId) then result == Err(ExecutionDisabled) && after == ts && !called
      else if recent then result == Err(WrongState) && after == ts && !called
      else
        && called
        && if answer == Raises then result == Err(DispatcherFailed) && after == ts
           else if !Acceptable(answer) then result == Err(BadReceipt) && after == ts
           else && result.Ok? && OnlyRow(ts.requests, id, result.value, after.requests)
                && DispatchStored(o, ts, row, actor, config, answer, t, after, result.value)
  }

  lemma NamesAreAliases(text: string, actionId: string)
    ensures CanonicalAction(text) == Some(actionId) <==> Names(text, actionId)
  {
  }

  lemma PermitsIsPolicy(row: Row, config: Config)
    ensures Permits(config, row.actionId) <==>
              !config.killSwitch && config.executionEnabled && Allowed(config, row.actionId)
  {
    if config.allowedActions.Some? {
      var names := config.allowedActions.value;
      forall i | 0 <= i < |names|
        ensures CanonicalAction(names[i]) == Some(row.actionId) <==> Names(names[i], row.actionId) {
        NamesAreAliases(names[i], row.actionId);
      }
    }
  }

  lemma CooldownInForce(config: Config)
    ensures InForce(config, Cooldown(config))
  {
  }

  lemma PlanFits(row: Row)
    requires Planned(row.actionId)
    ensures FitsRequest(PlanFor(row), row)
  {
  }

  lemma DeliveryOutcome(o: Oracles, ts: Tables, row: Row, actor: string, config: Config, answer: Answer, t: Readings)
    requires Planned(row.actionId)
    ensures var (after, result) :=
              Decided(o, ts, row, Deliver(row, actor, answer, Iso(t.decide), Cooldown(config)), t.stamp);
            if answer == Raises then result == Err(DispatcherFailed) && after == ts
            else if !Acceptable(answer) then result == Err(BadReceipt) && after == ts
            else && result.Ok? && OnlyRow(ts.requests, row.id, result.value, after.requests)
                 && DispatchStored(o, ts, row, actor, config, answer, t, after, result.value)
  {
    CooldownInForce(config);
  }

  lemma DispatchedOutcome(o: Oracles, ts: Tables, id: string, actor: string, config: Config, answer: Answer,
                          t: Readings)
    requires id in ts.requests ==> ts.requests[id].id == id
    ensures var spec := DispatchSpec(o, ts, id, actor, config, answer, t);
            Dispatches(o, ts, id, actor, config, answer, t,
                       id in ts.requests && CoolingDown(ts, ts.requests[id], t.cooldown, Cooldown(config)),
                       spec.tables, spec.result, spec.called)
  {
    if id in ts.requests {
      PermitsIsPolicy(ts.requests[id], config);
      if Planned(ts.requests[id].actionId) {
        DeliveryOutcome(o, ts, ts.requests[id], actor, config, answer, t);
      }
    }
  }

  // ---------------------------------------------------------------------------------------
  // create
  // ---------------------------------------------------------------------------------------

  /** The lifetime: the submitted one, else the setting, else an hour, within five minutes and a
      day. */
  predicate Lifetime(s: Submission, setting: Option<int>, ttl: int) {
    var wanted := if s.ttl.Some? then s.ttl.value else if setting.Some? then setting.value else 3600;
    && 300 <= ttl <= 86400 && (300 <= wanted <= 86400 ==> ttl == wanted)
    && (wanted < 300 ==> ttl == 300) && (wanted > 86400 ==> ttl == 86400)
  }

  /** The draft of a submission: its action by name, its texts redacted, its lifetime settled. */
  predicate Drafts(o: Oracles, s: Submission, newId: string, setting: Option<int>, d: Draft) {
    && d.id == newId && Names(s.action, d.actionId)
    && d.targetId == o.redact(s.targetId, 300) && d.reason == o.redact(s.reason, 1000)
    && d.requester == o.redact(s.requester, 254) && d.key == s.key
    && Lifetime(s, setting, d.ttl)
  }

  /** A request that waits for its first approval until its lifetime is over. */
  predicate NewRequest(o: Oracles, d: Draft, t: Readings, row: Row) {
    && row.id == d.id && row.actionId == d.actionId && row.targetId == d.targetId && row.reason == d.reason
    && row.requester == d.requester && row.key == d.key
    && row.payloadHash == o.payloadHash(d.actionId, d.targetId, d.reason)
    && row.status == PendingFirst && WholeSecond(row.createdAt, t.decide) && row.expiresAt == row.createdAt + d.ttl
    && row.firstApprover == None && row.firstApprovedAt == None
    && row.secondApprover == None && row.secondApprovedAt == None
    && row.rejectedBy == None && row.rejectedAt == None && row.receipt == None
  }

  /** A stored request has the key of the draft. */
  ghost predicate Stored(ts: Tables, d: Draft, id: string) {
    id in ts.requests && ts.requests[id].requester == d.requester && ts.requests[id].key == d.key
  }

  ghost predicate CreatesDraft(o: Oracles, ts: Tables, d: Draft, t: Readings, after: Tables,
                               result: Result<Row, Error>)
  {
    if exists id :: Stored(ts, d, id) then
      forall id | Stored(ts, d, id) ::
        if ts.requests[id].payloadHash == o.payloadHash(d.actionId, d.targetId, d.reason)
        then result.Ok? && Looks(o, ts, id, t, after, result.value)
        else result == Err(Conflict) && after == ts
    else if d.id in ts.requests then result == Err(DuplicateId) && after == ts
    else
      && result.Ok? && NewRequest(o, d, t, result.value)
      && OnlyRow(ts.requests, d.id, result.value, after.requests)
      && Logged(o, ts.audit, d.id, d.requester, RequestCreated,
                OpenedDetails(d.actionId, d.targetId, result.value.expiresAt), t.stamp, after.audit)
  }

  ghost predicate Creates(o: Oracles, ts: Tables, s: Submission, newId: string, setting: Option<int>, t: Readings,
                          after: Tables, result: Result<Row, Error>)
  {
    if !s.keyAllowed || (forall actionId :: !Names(s.action, actionId)) then
      result == Err(InvalidInput) && after == ts
    else
      exists d :: Drafts(o, s, newId, setting, d) && CreatesDraft(o, ts, d, t, after, result)
  }

  /** Validation, then the specification of `create`. */
  ghost function CreateWhole(o: Oracles, ts: Tables, s: Submission, newId: string, setting: Option<int>, t: Readings)
    : (Tables, Result<Row, Error>)
  {
    var prepared := Prepared(o, s, newId, setting);
    if prepared.Ok? then CreateSpec(o, ts, prepared.value, t) else (ts, Err(prepared.error))
  }

  lemma PreparedOutcome(o: Oracles, s: Submission, newId: string, setting: Option<int>)
    ensures var prepared := Prepared(o, s, newId, setting);
            if !s.keyAllowed || (forall actionId :: !Names(s.action, actionId)) then prepared == Err(InvalidInput)
            else prepared.Ok? && Drafts(o, s, newId, setting, prepared.value)
  {
    forall actionId ensures CanonicalAction(s.action) == Some(actionId) <==> Names(s.action, actionId) {
      NamesAreAliases(s.action, actionId);
    }
  }

  ghost predicate FiledOnce(ts: Tables) {
    && (forall i <- ts.requests :: ts.requests[i].id == i)
    && forall i <- ts.requests, j <- ts.requests | SameKey(ts.requests[i], ts.requests[j]) :: i == j
  }

  lemma ReplayOutcome(o: Oracles, ts: Tables, d: Draft, t: Readings, id: string)
    requires FiledOnce(ts) && Stored(ts, d, id)
    ensures var (after, result) := CreateSpec(o, ts, d, t);
            if ts.requests[id].payloadHash == o.payloadHash(d.actionId, d.targetId, d.reason)
            then result.Ok? && Looks(o, ts, id, t, after, result.value)
            else result == Err(Conflict) && after == ts
  {
    assert HasKey(ts.requests, d, id);
    var found := FindByKey(ts.requests, d);
    assert SameKey(ts.requests[id], ts.requests[found.value]);
    LookOutcome(o, ts, id, t);
  }

  lemma InsertOutcome(o: Oracles, ts: Tables, d: Draft, t: Readings)
    requires (forall id :: !Stored(ts, d, id)) && d.id !in ts.requests
    ensures var (after, result) := CreateSpec(o, ts, d, t);
            && result.Ok? && NewRequest(o, d, t, result.value)
            && OnlyRow(ts.requests, d.id, result.value, after.requests)
            && Logged(o, ts.audit, d.id, d.requester, RequestCreated,
                      OpenedDetails(d.actionId, d.targetId, result.value.expiresAt), t.stamp, after.audit)
  {
    var found := FindByKey(ts.requests, d);
    assert found.Some? ==> Stored(ts, d, found.value);
  }

  lemma DraftOutcome(o: Oracles, ts: Tables, d: Draft, t: Readings)
    requires FiledOnce(ts)
    ensures CreatesDraft(o, ts, d, t, CreateSpec(o, ts, d, t).0, CreateSpec(o, ts, d, t).1)
  {
    if exists id :: Stored(ts, d, id) {
      forall id | Stored(ts, d, id)
        ensures var (after, result) := CreateSpec(o, ts, d, t);
                if ts.requests[id].payloadHash == o.payloadHash(d.actionId, d.targetId, d.reason)
                then result.Ok? && Looks(o, ts, id, t, after, result.value)
                else result == Err(Conflict) && after == ts {
        ReplayOutcome(o, ts, d, t, id);
      }
    } else if d.id !in ts.requests {
      InsertOutcome(o, ts, d, t);
    } else {
      var found := FindByKey(ts.requests, d);
      assert found.Some? ==> Stored(ts, d, found.value);
    }
  }

  lemma CreateOutcome(o: Oracles, ts: Tables, s: Submission, newId: string, setting: Option<int>, t: Readings)
    requires FiledOnce(ts)
    ensures var (after, result) := CreateWhole(o, ts, s, newId, setting, t);
            Creates(o, ts, s, newId, setting, t, after, result)
  {
    PreparedOutcome(o, s, newId, setting);
    if Prepared(o, s, newId, setting).Ok? {
      DraftOutcome(o, ts, Prepared(o, s, newId, setting).value, t);
    }
  }

  /** A new request lives to the end of its lifetime: any look up to then returns it as created,
      the first look after it expires it. */
  lemma NewRequestLives(o: Oracles, ts: Tables, d: Draft, t: Readings, later: Readings)
    requires (forall id :: !Stored(ts, d, id)) && d.id !in ts.requests
    ensures var (after, created) := CreateSpec(o, ts, d, t);
            && created.Ok?
            && GetSpec(o, after, d.id, later).1
                 == Ok(if later.check <= (created.value.createdAt + d.ttl) * 1_000_000 then created.value
                       else created.value.(status := Expired))
  {
    InsertOutcome(o, ts, d, t);
    GetOutcome(o, CreateSpec(o, ts, d, t).0, d.id, later);
  }
}
