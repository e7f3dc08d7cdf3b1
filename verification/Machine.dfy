/** The automation service at the granularity of SQL statements: any number of transactions,
    each one somewhere in the program text of `create`, `get`, `approve` or `dispatch`, over
    read-committed tables with row locks and an advisory lock per dispatch scope.

    An audit row becomes visible to others when its writer commits; its id is its position in
    the log, whoever wrote it and whether or not the writer commits. */
module Machine {
  import opened Options
  import opened AuditChain
  import opened Workflow
  import opened Creation
  import opened Ledger

  type Tid = nat

  datatype Op =
    | CreateOp(draft: Draft)
    | GetOp(id: string)
    | ApproveOp(id: string, decision: Decision, approver: string, comment: string)
    | DispatchOp(id: string, actor: string, config: Config)

  /** Where a transaction stands: the statement it executes next, with its local variables. */
  datatype Pc =
    | Select
    | Prepare(draft: Draft)
    | Insert(draft: Draft, opening: Row)
    | SelectConflict(draft: Draft)
    | CheckExpiry(row: Row)
    | ExpireUpdate(row: Row)
    | AuditClock(row: Row, event: Event)
    | AuditSelect(row: Row, event: Event, stamp: int)
    | AuditInsert(row: Row, event: Event, stamp: int, previous: string)
    | Reselect(id: string)
    | Decide(row: Row)
    | LockScope(row: Row, cooldown: int)
    | QueryCooldown(row: Row, cooldown: int)
    | CheckCooldown(row: Row, cooldown: int, latest: Option<int>)
    | CallDispatcher(row: Row, cooldown: int)
    | Write(id: string, event: Event)
    | Reread(id: string)
    | Done(row: Row)
    | Failed(error: Error)

  /** What a transaction has written so far: a request row, then its audit row at a log index. */
  datatype Work =
    | Idle
    | Updated(row: Row, event: Event)
    | Appended(row: Row, event: Event, stamp: int, at: nat)

  /** `readings` and `answer` keep what the clock and the dispatcher have told the transaction. */
  datatype Txn = Txn(
    op: Op, pc: Pc, held: Option<string>, scope: Option<int>, work: Work, readings: Readings, answer: Answer)

  datatype Entry = Entry(writer: Tid, row: AuditRow)

  /** The database as committed, with the log of all audit insertions ever made. */
  datatype Store = Store(clock: int, rows: map<string, Row>, log: seq<Entry>, committed: set<Tid>)

  datatype State = State(store: Store, nextTid: Tid, txns: map<Tid, Txn>)

  /** The audit rows of a request written by the given transactions, in id order. */
  function View(log: seq<Entry>, writers: set<Tid>, id: string): seq<AuditRow> {
    if log == [] then [] else
      var n := |log| - 1;
      var before := View(log[..n], writers, id);
      if log[n].writer in writers && log[n].row.payload.requestId == id then before + [log[n].row] else before
  }

  function CommittedTrail(st: Store, id: string): seq<AuditRow> {
    View(st.log, st.committed, id)
  }

  function BookOf(st: Store): Book {
    Book(st.rows, id => CommittedTrail(st, id))
  }

  /** The row a transaction sees: its own version before the committed one. */
  function Seen(st: Store, x: Txn, id: string): Option<Row> {
    if !x.work.Idle? && x.work.row.id == id then Some(x.work.row)
    else if id in st.rows then Some(st.rows[id])
    else None
  }

  /** Log index k holds a committed dispatch of another request with the same action and
      target: a row of the join in `_assert_dispatch_cooldown`. */
  ghost predicate ScopeEntry(st: Store, k: nat, row: Row) {
    && k < |st.log|
    && st.log[k].writer in st.committed
    && st.log[k].row.payload.action == RequestDispatched
    && var id := st.log[k].row.payload.requestId;
       && id != row.id && id in st.rows
       && st.rows[id].actionId == row.actionId && st.rows[id].targetId == row.targetId
       && st.rows[id].status == Dispatched
  }

  /** ORDER BY audit.id DESC LIMIT 1. */
  ghost function LatestDispatch(st: Store, row: Row, n: nat): (stamp: Option<int>)
    requires n <= |st.log|
  {
    if n == 0 then None
    else if ScopeEntry(st, n - 1, row) then Some(st.log[n - 1].row.payload.createdAt)
    else LatestDispatch(st, row, n - 1)
  }

  // ---------------------------------------------------------------------------------------
  // Waiting
  // ---------------------------------------------------------------------------------------

  predicate Inserting(x: Txn) {
    !x.work.Idle? && x.work.event.Open?
  }

  /** Transaction x cannot execute its next statement while y is alive. */
  predicate Blocks(o: Oracles, st: Store, x: Txn, y: Txn) {
    match x.pc
    case Select =>
      match x.op {
        case ApproveOp(id, _, _, _) => id in st.rows && y.held == Some(id)
        case DispatchOp(id, _, _) => id in st.rows && y.held == Some(id)
        case _ => false
      }
    case Insert(_, opening) =>
      Inserting(y) && (SameKey(opening, y.work.row) || opening.id == y.work.row.id)
    case ExpireUpdate(row) => row.id in st.rows && Live(st.rows[row.id].status) && y.held == Some(row.id)
    case LockScope(row, _) => y.scope == Some(o.scopeLock(row.actionId, row.targetId))
    case _ => false
  }

  /** An UPDATE that matched no row can keep only a lock that nobody else has. */
  predicate MayKeep(x: Txn, y: Txn, choice: Choice) {
    x.pc.ExpireUpdate? && choice.keepLock ==> y.held != Some(x.pc.row.id)
  }

  predicate WaitsFor(o: Oracles, s: State, t: Tid, u: Tid)
    requires t in s.txns
  {
    t != u && u in s.txns && Blocks(o, s.store, s.txns[t], s.txns[u])
  }

  ghost predicate CanRun(o: Oracles, s: State, t: Tid)
    requires t in s.txns
  {
    forall u <- s.txns :: !WaitsFor(o, s, t, u)
  }

  // ---------------------------------------------------------------------------------------
  // Statements
  // ---------------------------------------------------------------------------------------

  /** What the environment decides in a statement: whether an UPDATE that matched no row keeps
      the row lock it waited for, and what the dispatcher answers. */
  datatype Choice = Choice(keepLock: bool, answer: Answer)

  /** After a SELECT by key: the replay of a stored request or a conflict. */
  ghost function Resume(o: Oracles, st: Store, d: Draft, id: string): Pc
    requires id in st.rows
  {
    if ForDraft(o, d, st.rows[id]) then CheckExpiry(st.rows[id]) else Failed(Conflict)
  }

  ghost function SelectStep(o: Oracles, st: Store, x: Txn): Txn {
    match x.op
    case CreateOp(d) =>
      var found := FindByKey(st.rows, d);
      x.(pc := if found.Some? then Resume(o, st, d, found.value) else Prepare(d))
    case GetOp(id) => x.(pc := if id in st.rows then CheckExpiry(st.rows[id]) else Failed(NotFound))
    case ApproveOp(id, _, _, _) =>
      if id in st.rows then x.(pc := CheckExpiry(st.rows[id]), held := Some(id)) else x.(pc := Failed(NotFound))
    case DispatchOp(id, _, _) =>
      if id in st.rows then x.(pc := CheckExpiry(st.rows[id]), held := Some(id)) else x.(pc := Failed(NotFound))
  }

  /** INSERT .. ON CONFLICT (requester, idempotency_key) DO NOTHING. */
  ghost function InsertStep(st: Store, x: Txn, d: Draft, opening: Row): Txn {
    if KeyTaken(st.rows, d) then x.(pc := SelectConflict(d))
    else if opening.id in st.rows then x.(pc := Failed(DuplicateId))
    else x.(pc := AuditClock(opening, Open(opening)), held := Some(opening.id),
            work := Updated(opening, Open(opening)))
  }

  ghost function ConflictStep(o: Oracles, st: Store, x: Txn, d: Draft): Txn {
    var found := FindByKey(st.rows, d);
    x.(pc := if found.Some? then Resume(o, st, d, found.value) else Failed(Unresolved))
  }

  /** UPDATE of the current version of a row; the transaction keeps its lock. */
  function UpdateRow(st: Store, x: Txn, id: string, event: Event): Txn
    requires id in st.rows
  {
    var row := Apply(st.rows[id], event);
    x.(pc := AuditClock(row, event), held := Some(id), work := Updated(row, event))
  }

  /** The guarded UPDATE of `_expire_if_needed`: it waits for a lock on a live row, re-evaluates
      its WHERE on the current version and passes over a row that is no longer live. */
  function ExpireStep(st: Store, x: Txn, row: Row, choice: Choice): Txn {
    if row.id in st.rows && Live(st.rows[row.id].status) then UpdateRow(st, x, row.id, Expire)
    else x.(pc := Reselect(row.id), held := if choice.keepLock then Some(row.id) else x.held)
  }

  function DecideStep(o: Oracles, st: Store, x: Txn, row: Row): Txn {
    match x.op
    case CreateOp(_) => x.(pc := Done(row))
    case GetOp(_) => x.(pc := Done(row))
    case ApproveOp(_, decision, approver, comment) =>
      (match ApproveDecision(o, row, decision, approver, comment, Iso(st.clock))
       case Ok(event) => x.(pc := Write(row.id, event), readings := x.readings.(decide := st.clock))
       case Err(error) => x.(pc := Failed(error)))
    case DispatchOp(_, _, config) =>
      (match DispatchGate(row, config)
       case Resend => x.(pc := Done(row))
       case Stop(error) => x.(pc := Failed(error))
       case Proceed => x.(pc := LockScope(row, Cooldown(config))))
  }

  function CooldownStep(st: Store, x: Txn, row: Row, cooldown: int, previous: Option<int>): Txn {
    if previous.Some? && !CooledDown(previous.value, st.clock, cooldown)
    then x.(pc := Failed(WrongState), readings := x.readings.(cooldown := st.clock))
    else x.(pc := CallDispatcher(row, cooldown), readings := x.readings.(cooldown := st.clock))
  }

  function Caller(op: Op): string {
    match op
    case CreateOp(d) => d.requester
    case GetOp(_) => ""
    case ApproveOp(_, _, approver, _) => approver
    case DispatchOp(_, actor, _) => actor
  }

  /** The plan lookup, which raises for an unknown action, and the dispatcher call. */
  function DispatcherStep(st: Store, x: Txn, row: Row, cooldown: int, choice: Choice): Txn {
    if !Planned(row.actionId) then x.(pc := Failed(NoPlan)) else
      match Deliver(row, Caller(x.op), choice.answer, Iso(st.clock), cooldown)
      case Ok(event) =>
        x.(pc := Write(row.id, event), readings := x.readings.(decide := st.clock), answer := choice.answer)
      case Err(error) =>
        x.(pc := Failed(error), readings := x.readings.(decide := st.clock), answer := choice.answer)
  }

  /** One statement of a transaction that is neither committing nor failed. */
  ghost function Stepped(o: Oracles, st: Store, t: Tid, x: Txn, choice: Choice): Txn {
    match x.pc
    case Select => SelectStep(o, st, x)
    case Prepare(d) =>
      x.(pc := Insert(d, NewRow(o, d, st.clock)), readings := x.readings.(decide := st.clock))
    case Insert(d, opening) => InsertStep(st, x, d, opening)
    case SelectConflict(d) => ConflictStep(o, st, x, d)
    case CheckExpiry(row) =>
      x.(pc := if Due(row, st.clock) then ExpireUpdate(row) else Decide(row),
         readings := x.readings.(check := st.clock))
    case ExpireUpdate(row) => ExpireStep(st, x, row, choice)
    case AuditClock(row, event) =>
      x.(pc := AuditSelect(row, event, Iso(st.clock)), readings := x.readings.(stamp := Iso(st.clock)))
    case AuditSelect(row, event, stamp) =>
      x.(pc := AuditInsert(row, event, stamp, Head(View(st.log, st.committed + {t}, row.id))))
    case AuditInsert(row, event, stamp, _) =>
      x.(pc := if event.Expire? then Reselect(row.id) else Reread(row.id),
         work := Appended(row, event, stamp, |st.log|))
    case Reselect(id) => x.(pc := var r := Seen(st, x, id); if r.Some? then Decide(r.value) else Failed(NotFound))
    case Decide(row) => DecideStep(o, st, x, row)
    case LockScope(row, cooldown) =>
      x.(pc := QueryCooldown(row, cooldown), scope := Some(o.scopeLock(row.actionId, row.targetId)))
    case QueryCooldown(row, cooldown) =>
      x.(pc := CheckCooldown(row, cooldown, LatestDispatch(st, row, |st.log|)))
    case CheckCooldown(row, cooldown, previous) => CooldownStep(st, x, row, cooldown, previous)
    case CallDispatcher(row, cooldown) => DispatcherStep(st, x, row, cooldown, choice)
    case Write(id, event) => if id in st.rows then UpdateRow(st, x, id, event) else x.(pc := Failed(NotFound))
    case Reread(id) => x.(pc := var r := Seen(st, x, id); if r.Some? then Done(r.value) else Failed(NotFound))
    case Done(_) => x
    case Failed(_) => x
  }

  function Logged(o: Oracles, st: Store, t: Tid, x: Txn): Store {
    match x.pc
    case AuditInsert(row, event, stamp, previous) =>
      st.(log := st.log + [Entry(t, AuditEntry(o, row, event, stamp, previous))])
    case _ => st
  }

  /** COMMIT publishes the row and the audit rows of a transaction together. */
  function Committed(st: Store, t: Tid, x: Txn): Store {
    st.(rows := if x.work.Idle? then st.rows else st.rows[x.work.row.id := x.work.row],
        committed := st.committed + {t})
  }

  // ---------------------------------------------------------------------------------------
  // Steps and runs
  // ---------------------------------------------------------------------------------------

  datatype Step =
    | Tick(to: int)
    | Begin(op: Op)
    | Run(tid: Tid, choice: Choice)
    | Abort(tid: Tid)

  /** A step is possible: time never goes back, a transaction runs only while nothing blocks it
      and may be lost at any statement. */
  ghost predicate Possible(o: Oracles, s: State, step: Step) {
    match step
    case Tick(to) => s.store.clock <= to
    case Begin(op) => op.CreateOp? ==> Planned(op.draft.actionId)
    case Run(t, choice) =>
      t in s.txns && CanRun(o, s, t) && forall u <- s.txns | u != t :: MayKeep(s.txns[t], s.txns[u], choice)
    case Abort(t) => t in s.txns
  }

  /** A transaction before its first statement; the readings are those of its first moment until
      the operation makes them. */
  function Starting(op: Op, now: int): Txn {
    Txn(op, Select, None, None, Idle, Readings(now, now, Iso(now), now), Raises)
  }

  ghost function Next(o: Oracles, s: State, step: Step): State
    requires Possible(o, s, step)
  {
    match step
    case Tick(to) => s.(store := s.store.(clock := to))
    case Begin(op) => s.(nextTid := s.nextTid + 1, txns := s.txns[s.nextTid := Starting(op, s.store.clock)])
    case Run(t, choice) =>
      var x := s.txns[t];
      if x.pc.Done? then State(Committed(s.store, t, x), s.nextTid, s.txns - {t})
      else if x.pc.Failed? then s.(txns := s.txns - {t})
      else State(Logged(o, s.store, t, x), s.nextTid, s.txns[t := Stepped(o, s.store, t, x, choice)])
    case Abort(t) => s.(txns := s.txns - {t})
  }

  ghost predicate Leads(o: Oracles, s: State, step: Step, s': State) {
    Possible(o, s, step) && s' == Next(o, s, step)
  }

  ghost predicate Successor(o: Oracles, s: State, s': State) {
    exists step :: Leads(o, s, step, s')
  }
}
