/** The two-person automation workflow: one request row, the changes it can undergo, and the
    audit trail that records them. Both the atomic service and the statement-level machine
    are built on this vocabulary.

    Clock readings are microseconds; a stored time is the whole second that `_iso` keeps. */
module Workflow {
  import opened Options
  import opened AuditChain

  const SECOND := 1_000_000

  /** `_iso`: drop the microseconds. */
  function Iso(now: int): int {
    now / SECOND
  }

  /** The clock readings one operation makes: in the expiry check, for the decision, for the
      audit row (already cut to the second), and in the cooldown check. */
  datatype Readings = Readings(check: int, decide: int, stamp: int, cooldown: int)

  /** No reading was made after the second of the audit row, the last one an operation reads. */
  predicate InOrder(t: Readings) {
    var end := t.stamp * SECOND + SECOND - 1;
    t.check <= end && t.decide <= end && t.cooldown <= end
  }

  /** The cooldown has passed since a recorded second. */
  predicate CooledDown(previous: int, now: int, cooldown: int) {
    now - previous * SECOND >= cooldown * SECOND
  }

  datatype Status = PendingFirst | PendingSecond | Approved | Rejected | Dispatched | Expired

  predicate Live(status: Status) {
    status == PendingFirst || status == PendingSecond || status == Approved
  }

  datatype SideEffects = Absent | NullValue | FalseValue | Unmanaged

  /** What the dispatcher's dictionary says, with the preflight entries `dispatch` adds. */
  datatype Receipt = Receipt(
    dispatchId: Option<string>, mode: Option<string>, sideEffects: SideEffects, rest: string,
    checkedAt: int, actionId: string, targetId: string, cooldown: int, rollback: string)

  datatype Row = Row(
    id: string, actionId: string, targetId: string, reason: string, requester: string,
    status: Status, key: string, payloadHash: string, createdAt: int, expiresAt: int,
    firstApprover: Option<string>, firstApprovedAt: Option<int>,
    secondApprover: Option<string>, secondApprovedAt: Option<int>,
    rejectedBy: Option<string>, rejectedAt: Option<int>,
    receipt: Option<Receipt>)

  datatype Details =
    | OpenedDetails(actionId: string, targetId: string, expiresAt: int)
    | CommentDetails(comment: string)
    | ExpiryDetails(expiresAt: int)
    | DispatchDetails(dispatchId: Option<string>, mode: Option<string>, sideEffects: SideEffects)

  /** The parts of the system this model leaves open: two hashes, text redaction with a length
      limit, lower-casing, the JSON text of audit details and the advisory lock number. */
  datatype Oracles = Oracles(
    hash: HashFn,
    payloadHash: (string, string, string) -> string,
    redact: (string, nat) -> string,
    lower: string -> string,
    detailsJson: Details -> string,
    scopeLock: (string, string) -> int)

  datatype Error =
    | InvalidInput
    | NotFound
    | Conflict
    | Unresolved
    | DuplicateId
    | WrongState
    | ExecutionDisabled
    | NoPlan
    | BadReceipt
    | DispatcherFailed

  // ---------------------------------------------------------------------------------------
  // Actions, plans and configuration
  // ---------------------------------------------------------------------------------------

  /** `_ACTION_ALIASES`, on text that is already stripped and lower-cased. */
  function CanonicalAction(text: string): Option<string> {
    if text == "cert_renew" || text == "cert-renew" || text == "vault-cert-renew" || text == "vault-pki-renew"
    then Some("cert_renew")
    else if text == "lease_revoke" || text == "lease-revoke" || text == "vault-lease-revoke"
    then Some("lease_revoke")
    else if text == "rescan" || text == "vault-radar-rescan"
    then Some("rescan")
    else None
  }

  /** The keys of `_ACTION_PLANS`. */
  predicate Planned(actionId: string) {
    actionId == "cert_renew" || actionId == "lease_revoke" || actionId == "rescan"
  }

  datatype Plan = Plan(requestId: string, actionId: string, targetId: string, adapter: string, operation: string)

  function PlanFor(row: Row): Plan
    requires Planned(row.actionId)
  {
    if row.actionId == "cert_renew" then
      Plan(row.id, row.actionId, row.targetId, "vault-pki", "renew-certificate")
    else if row.actionId == "lease_revoke" then
      Plan(row.id, row.actionId, row.targetId, "vault-sys-leases", "revoke-lease")
    else
      Plan(row.id, row.actionId, row.targetId, "vault-radar", "start-rescan")
  }

  function RollbackStrategy(actionId: string): string
    requires Planned(actionId)
  {
    if actionId == "cert_renew" then "restore-previous-certificate-reference"
    else if actionId == "lease_revoke" then "issue-replacement-credential"
    else "cancel-pending-scan"
  }

  /** The environment variables `dispatch` consults; a setting is None when it is unset or,
      for the cooldown, not an integer. */
  datatype Config = Config(
    killSwitch: bool, executionEnabled: bool, allowedActions: Option<seq<string>>, cooldownSetting: Option<int>)

  predicate Allowed(config: Config, actionId: string) {
    match config.allowedActions
    case None => Planned(actionId)
    case Some(names) => Planned(actionId) && exists i | 0 <= i < |names| :: CanonicalAction(names[i]) == Some(actionId)
  }

  function Clamp(value: int, low: int, high: int): int {
    if value < low then low else if value > high then high else value
  }

  function Cooldown(config: Config): (seconds: int)
    ensures 1 <= seconds <= 86400
  {
    Clamp(if config.cooldownSetting.Some? then config.cooldownSetting.value else 300, 1, 86400)
  }

  // ---------------------------------------------------------------------------------------
  // Events
  // ---------------------------------------------------------------------------------------

  datatype Event =
    | Open(row: Row)
    | ApproveFirst(who: string, at: int, comment: string)
    | ApproveSecond(who: string, at: int, comment: string)
    | Reject(who: string, at: int, comment: string)
    | Expire
    | Dispatch(who: string, receipt: Receipt)

  /** The column updates each statement makes. */
  function Apply(row: Row, event: Event): Row {
    match event
    case Open(r) => r
    case ApproveFirst(who, at, _) =>
      row.(status := PendingSecond, firstApprover := Some(who), firstApprovedAt := Some(at))
    case ApproveSecond(who, at, _) =>
      row.(status := Approved, secondApprover := Some(who), secondApprovedAt := Some(at))
    case Reject(who, at, _) => row.(status := Rejected, rejectedBy := Some(who), rejectedAt := Some(at))
    case Expire => row.(status := Expired)
    case Dispatch(_, receipt) => row.(status := Dispatched, receipt := Some(receipt))
  }

  function ActionOf(event: Event): Action {
    match event
    case Open(_) => RequestCreated
    case ApproveFirst(_, _, _) => FirstApproval
    case ApproveSecond(_, _, _) => SecondApproval
    case Reject(_, _, _) => RequestRejected
    case Expire => RequestExpired
    case Dispatch(_, _) => RequestDispatched
  }

  function ActorOf(event: Event): string {
    match event
    case Open(row) => row.requester
    case ApproveFirst(who, _, _) => who
    case ApproveSecond(who, _, _) => who
    case Reject(who, _, _) => who
    case Expire => "system"
    case Dispatch(who, _) => who
  }

  function DetailsOf(row: Row, event: Event): Details {
    match event
    case Open(r) => OpenedDetails(r.actionId, r.targetId, r.expiresAt)
    case ApproveFirst(_, _, comment) => CommentDetails(comment)
    case ApproveSecond(_, _, comment) => CommentDetails(comment)
    case Reject(_, _, comment) => CommentDetails(comment)
    case Expire => ExpiryDetails(row.expiresAt)
    case Dispatch(_, r) =>
      DispatchDetails(r.dispatchId, r.mode, if r.sideEffects == Absent then FalseValue else r.sideEffects)
  }

  /** The audit actor is redacted once more than the actor stored in the row. */
  function Actor(o: Oracles, name: string): string {
    o.redact(name, 254)
  }

  /** The row `_audit` inserts after reading `previous` as the last hash of the request. */
  function AuditEntry(o: Oracles, row: Row, event: Event, stamp: int, previous: string): AuditRow {
    var payload := Payload(row.id, Actor(o, ActorOf(event)), ActionOf(event),
                           o.detailsJson(DetailsOf(row, event)), stamp, previous, CHAIN_VERSION);
    AuditRow(payload, o.hash(payload))
  }

  /** The row that `_audit` inserts for one request keeps the trail of every request valid, on
      a table of any origin: migrated, or grown by earlier insertions. */
  lemma AppendKeepsEveryTrail(o: Oracles, rows: seq<AuditRow>, row: Row, event: Event, stamp: int, id: string)
    requires Chain(o.hash, Trail(rows, id))
    ensures var entry := AuditEntry(o, row, event, stamp, Head(Trail(rows, row.id)));
            Chain(o.hash, Trail(rows + [entry], id))
  {
    var entry := AuditEntry(o, row, event, stamp, Head(Trail(rows, row.id)));
    TrailAppend(rows, entry, id);
    if row.id == id {
      ChainAppend(o.hash, Trail(rows, id), entry);
    }
  }

  // ---------------------------------------------------------------------------------------
  // Decisions
  // ---------------------------------------------------------------------------------------

  predicate Due(row: Row, now: int) {
    Live(row.status) && now > row.expiresAt * SECOND
  }

  /** `identities` in `approve`: a missing first approver counts as the empty text. */
  predicate Taken(o: Oracles, row: Row, approver: string) {
    || o.lower(approver) == o.lower(row.requester)
    || o.lower(approver) == o.lower(if row.firstApprover.Some? then row.firstApprover.value else "")
  }

  datatype Decision = ApproveIt | RejectIt

  function ApproveDecision(o: Oracles, row: Row, decision: Decision, approver: string, comment: string, at: int)
    : Result<Event, Error>
  {
    if row.status == Expired then Err(WrongState)
    else if Taken(o, row, approver) then Err(Conflict)
    else if row.status != PendingFirst && row.status != PendingSecond then Err(WrongState)
    else if decision == RejectIt then Ok(Reject(approver, at, comment))
    else if row.status == PendingFirst then Ok(ApproveFirst(approver, at, comment))
    else Ok(ApproveSecond(approver, at, comment))
  }

  datatype Gate = Resend | Stop(error: Error) | Proceed

  function DispatchGate(row: Row, config: Config): Gate {
    if row.status == Dispatched then Resend
    else if row.status != Approved then Stop(WrongState)
    else if config.killSwitch || !config.executionEnabled || !Allowed(config, row.actionId)
    then Stop(ExecutionDisabled)
    else Proceed
  }

  /** What the dispatcher may do: raise, return something that is no dictionary, or answer. */
  datatype Answer =
    | Raises
    | NoDictionary
    | Dictionary(dispatchId: Option<string>, mode: Option<string>, sideEffects: SideEffects, rest: string)

  function Deliver(row: Row, actor: string, answer: Answer, checkedAt: int, cooldown: int): Result<Event, Error>
    requires Planned(row.actionId)
  {
    match answer
    case Raises => Err(DispatcherFailed)
    case NoDictionary => Err(BadReceipt)
    case Dictionary(dispatchId, mode, sideEffects, rest) =>
      if sideEffects == Unmanaged then Err(BadReceipt) else
      Ok(Dispatch(actor, Receipt(dispatchId, mode, sideEffects, rest, checkedAt, row.actionId, row.targetId,
                                 cooldown, RollbackStrategy(row.actionId))))
  }

  /** The guards under which the code reaches each UPDATE, on the current row. */
  predicate Enabled(o: Oracles, row: Row, event: Event) {
    match event
    case Open(_) => false
    case ApproveFirst(who, _, _) => row.status == PendingFirst && !Taken(o, row, who)
    case ApproveSecond(who, _, _) => row.status == PendingSecond && !Taken(o, row, who)
    case Reject(who, _, _) => (row.status == PendingFirst || row.status == PendingSecond) && !Taken(o, row, who)
    case Expire => Live(row.status)
    case Dispatch(_, receipt) => row.status == Approved && receipt.cooldown >= 1
  }

  /** No expiry is stamped before the request's own deadline. */
  predicate Timely(row: Row, event: Event, stamp: int) {
    event.Expire? ==> row.expiresAt <= stamp
  }

  // ---------------------------------------------------------------------------------------
  // The row as a fold of its trail
  // ---------------------------------------------------------------------------------------

  datatype Summary = Summary(status: Status, first: Option<string>, second: Option<string>, rejecter: Option<string>)

  datatype Replayed = Blank | Valid(summary: Summary) | Invalid

  function Advance(state: Replayed, entry: Payload): Replayed {
    match entry.action
    case RequestCreated =>
      if state == Blank then Valid(Summary(PendingFirst, None, None, None)) else Invalid
    case FirstApproval =>
      if state.Valid? && state.summary.status == PendingFirst
      then Valid(state.summary.(status := PendingSecond, first := Some(entry.actor))) else Invalid
    case SecondApproval =>
      if state.Valid? && state.summary.status == PendingSecond
      then Valid(state.summary.(status := Approved, second := Some(entry.actor))) else Invalid
    case RequestRejected =>
      if state.Valid? && (state.summary.status == PendingFirst || state.summary.status == PendingSecond)
      then Valid(state.summary.(status := Rejected, rejecter := Some(entry.actor))) else Invalid
    case RequestExpired =>
      if state.Valid? && Live(state.summary.status)
      then Valid(state.summary.(status := Expired)) else Invalid
    case RequestDispatched =>
      if state.Valid? && state.summary.status == Approved
      then Valid(state.summary.(status := Dispatched)) else Invalid
    case OtherAction(_) => Invalid
  }

  /** Replaying audit actions from an empty history. */
  function Replay(trail: seq<AuditRow>): Replayed {
    if trail == [] then Blank
    else Advance(Replay(trail[..|trail| - 1]), trail[|trail| - 1].payload)
  }

  function Audited(o: Oracles, name: Option<string>): Option<string> {
    if name.Some? then Some(Actor(o, name.value)) else None
  }

  function SummaryOf(o: Oracles, row: Row): Summary {
    Summary(row.status, Audited(o, row.firstApprover), Audited(o, row.secondApprover), Audited(o, row.rejectedBy))
  }

  // ---------------------------------------------------------------------------------------
  // What every reachable request satisfies
  // ---------------------------------------------------------------------------------------

  function HashOf(o: Oracles, row: Row): string {
    o.payloadHash(row.actionId, row.targetId, row.reason)
  }

  /** Columns no statement ever updates. */
  predicate SameIdentity(a: Row, b: Row) {
    && a.id == b.id && a.actionId == b.actionId && a.targetId == b.targetId && a.reason == b.reason
    && a.requester == b.requester && a.key == b.key && a.payloadHash == b.payloadHash
    && a.createdAt == b.createdAt && a.expiresAt == b.expiresAt
  }

  predicate SameKey(a: Row, b: Row) {
    a.requester == b.requester && a.key == b.key
  }

  /** A row as `create` inserts it. */
  predicate IsOpening(o: Oracles, row: Row) {
    && row.status == PendingFirst && Planned(row.actionId) && row.payloadHash == HashOf(o, row)
    && row.firstApprover == None && row.firstApprovedAt == None
    && row.secondApprover == None && row.secondApprovedAt == None
    && row.rejectedBy == None && row.rejectedAt == None && row.receipt == None
  }

  predicate Differ(o: Oracles, a: string, b: string) {
    o.lower(a) != o.lower(b)
  }

  /** Separation of duties together with the columns each status fills. */
  predicate DutiesSeparated(o: Oracles, row: Row) {
    && Planned(row.actionId) && row.payloadHash == HashOf(o, row)
    && (row.firstApprover.Some? ==> Differ(o, row.firstApprover.value, row.requester))
    && (row.secondApprover.Some? ==>
          && row.firstApprover.Some?
          && Differ(o, row.secondApprover.value, row.requester)
          && Differ(o, row.secondApprover.value, row.firstApprover.value))
    && (row.rejectedBy.Some? ==>
          && Differ(o, row.rejectedBy.value, row.requester)
          && (row.firstApprover.Some? ==> Differ(o, row.rejectedBy.value, row.firstApprover.value)))
    && (row.status == PendingFirst ==> row.firstApprover == None)
    && (row.status == PendingSecond ==> row.firstApprover.Some?)
    && (row.status == PendingFirst || row.status == PendingSecond ==> row.secondApprover == None)
    && (row.status == Approved || row.status == Dispatched ==> row.secondApprover.Some?)
    && (row.rejectedBy.Some? <==> row.status == Rejected)
    && (row.receipt.Some? <==> row.status == Dispatched)
    && (row.receipt.Some? ==> row.receipt.value.cooldown >= 1)
  }

  ghost predicate ExpiriesTimely(row: Row, trail: seq<AuditRow>) {
    forall i | 0 <= i < |trail| && trail[i].payload.action == RequestExpired ::
      row.expiresAt <= trail[i].payload.createdAt
  }

  /** A request row together with its audit trail. */
  datatype History = History(row: Row, trail: seq<AuditRow>)

  ghost predicate Sound(o: Oracles, past: History) {
    && DutiesSeparated(o, past.row)
    && Chain(o.hash, past.trail)
    && Replay(past.trail) == Valid(SummaryOf(o, past.row))
    && ExpiriesTimely(past.row, past.trail)
  }

  /** One event recorded in the row and in the trail. */
  function Extend(o: Oracles, past: History, event: Event, stamp: int): History {
    History(Apply(past.row, event),
            past.trail + [AuditEntry(o, Apply(past.row, event), event, stamp, Head(past.trail))])
  }

  function Opened(o: Oracles, row: Row, stamp: int): History {
    History(row, [AuditEntry(o, row, Open(row), stamp, GENESIS)])
  }

  lemma ReplayAppend(trail: seq<AuditRow>, row: AuditRow)
    ensures Replay(trail + [row]) == Advance(Replay(trail), row.payload)
  {
    assert (trail + [row])[..|trail|] == trail;
  }

  lemma OneEntryTrail(o: Oracles, entry: AuditRow)
    requires entry.payload.action == RequestCreated && entry.payload.previousHash == GENESIS
    requires entry.entryHash == o.hash(entry.payload)
    ensures Chain(o.hash, [entry])
    ensures Replay([entry]) == Valid(Summary(PendingFirst, None, None, None))
  {
    var trail := [entry];
    assert trail[..0] == [];
    assert Linked(o.hash, trail, 0);
    assert Replay(trail) == Advance(Replay(trail[..0]), entry.payload);
  }

  lemma OpenedIsSound(o: Oracles, row: Row, stamp: int)
    requires IsOpening(o, row)
    ensures Sound(o, Opened(o, row, stamp))
  {
    var entry := AuditEntry(o, row, Open(row), stamp, GENESIS);
    OneEntryTrail(o, entry);
    assert ExpiriesTimely(row, [entry]);
    assert SummaryOf(o, row) == Summary(PendingFirst, None, None, None);
  }

  /** Every enabled event keeps the row equal to the replay of its trail, the chain linked and
      the duties separated. */
  lemma ExtendIsSound(o: Oracles, past: History, event: Event, stamp: int)
    requires Sound(o, past) && Enabled(o, past.row, event) && Timely(past.row, event, stamp)
    ensures Sound(o, Extend(o, past, event, stamp))
    ensures SameIdentity(past.row, Apply(past.row, event))
  {
    var entry := AuditEntry(o, Apply(past.row, event), event, stamp, Head(past.trail));
    ChainAppend(o.hash, past.trail, entry);
    ReplayAppend(past.trail, entry);
  }

  // ---------------------------------------------------------------------------------------
  // Consequences for one request
  // ---------------------------------------------------------------------------------------

  function Actions(trail: seq<AuditRow>): (actions: seq<Action>)
    ensures |actions| == |trail|
    ensures forall i | 0 <= i < |trail| :: actions[i] == trail[i].payload.action
  {
    seq(|trail|, i requires 0 <= i < |trail| => trail[i].payload.action)
  }

  /** The nine words of the workflow's automaton. */
  predicate Word(actions: seq<Action>) {
    || actions == [RequestCreated]
    || actions == [RequestCreated, RequestRejected]
    || actions == [RequestCreated, RequestExpired]
    || actions == [RequestCreated, FirstApproval]
    || actions == [RequestCreated, FirstApproval, RequestRejected]
    || actions == [RequestCreated, FirstApproval, RequestExpired]
    || actions == [RequestCreated, FirstApproval, SecondApproval]
    || actions == [RequestCreated, FirstApproval, SecondApproval, RequestDispatched]
    || actions == [RequestCreated, FirstApproval, SecondApproval, RequestExpired]
  }

  function StatusAfter(actions: seq<Action>): Status
    requires Word(actions)
  {
    match actions[|actions| - 1]
    case RequestCreated => PendingFirst
    case FirstApproval => PendingSecond
    case SecondApproval => Approved
    case RequestRejected => Rejected
    case RequestExpired => Expired
    case _ => Dispatched
  }

  lemma {:induction false} BlankOnlyWhenEmpty(trail: seq<AuditRow>)
    ensures Replay(trail) == Blank <==> trail == []
  {
  }

  /** Only the automaton's words replay to a status: at most four entries, at most one expiry,
      and nothing after a rejection, an expiry or a dispatch. */
  lemma {:induction false} TrailIsWord(trail: seq<AuditRow>)
    requires Replay(trail).Valid?
    ensures Word(Actions(trail)) && |trail| <= 4
    ensures Replay(trail).summary.status == StatusAfter(Actions(trail))
  {
    var n := |trail| - 1;
    var before := trail[..n];
    BlankOnlyWhenEmpty(before);
    assert Actions(trail) == Actions(before) + [trail[n].payload.action];
    if n > 0 {
      TrailIsWord(before);
    }
  }

  lemma DispatchEntryMeansDispatched(o: Oracles, past: History, i: nat)
    requires Sound(o, past) && i < |past.trail|
    requires past.trail[i].payload.action == RequestDispatched
    ensures past.row.status == Dispatched && i == |past.trail| - 1
  {
    TrailIsWord(past.trail);
    assert Actions(past.trail)[i] == RequestDispatched;
  }
}
