/** What holds at every statement of every interleaving. The invariant is local: each
    transaction knows how its variables, its locks and its writes relate to the committed
    tables, and no other transaction can disturb that while the locks are exclusive. */
module MachineInvariant {
  import opened Options
  import opened AuditChain
  import opened Workflow
  import opened Creation
  import opened Ledger
  import opened Machine

  predicate MatchesOp(o: Oracles, op: Op, row: Row) {
    match op
    case CreateOp(d) => ForDraft(o, d, row) && Planned(d.actionId)
    case GetOp(id) => row.id == id
    case ApproveOp(id, _, _, _) => row.id == id
    case DispatchOp(id, _, _) => row.id == id
  }

  predicate Locking(op: Op) {
    op.ApproveOp? || op.DispatchOp?
  }

  /** The uncommitted row is what one enabled event makes of the committed one. */
  ghost predicate Written(o: Oracles, st: Store, row: Row, event: Event) {
    if event.Open? then
      event.row == row && row.id !in st.rows && IsOpening(o, row) && KeyFree(st.rows, row)
    else
      && row.id in st.rows && Enabled(o, st.rows[row.id], event)
      && row == Apply(st.rows[row.id], event) && SameIdentity(st.rows[row.id], row)
  }

  predicate OwnEntry(entry: Entry, t: Tid, row: Row, event: Event, stamp: int) {
    && entry.writer == t
    && entry.row.payload.requestId == row.id
    && entry.row.payload.action == ActionOf(event)
    && entry.row.payload.createdAt == stamp
  }

  /** The event is what the operation decides on the committed row, at the times the
      transaction read and with the answer it got. */
  ghost predicate Caused(o: Oracles, x: Txn, before: Row, event: Event) {
    match event
    case Open(_) => false
    case Expire => x.readings.check > before.expiresAt * SECOND
    case Dispatch(_, _) =>
      && x.op.DispatchOp? && !Due(before, x.readings.check)
      && DispatchGate(before, x.op.config) == Proceed
      && Deliver(before, x.op.actor, x.answer, Iso(x.readings.decide), Cooldown(x.op.config)) == Ok(event)
    case _ =>
      && x.op.ApproveOp? && !Due(before, x.readings.check)
      && ApproveDecision(o, before, x.op.decision, x.op.approver, x.op.comment, Iso(x.readings.decide)) == Ok(event)
  }

  ghost predicate CausedBy(o: Oracles, st: Store, x: Txn, row: Row, event: Event) {
    if event.Open? then x.op.CreateOp? && row == NewRow(o, x.op.draft, x.readings.decide) && Planned(row.actionId)
    else row.id in st.rows && Caused(o, x, st.rows[row.id], event)
  }

  /** The trail of a written request: the committed one plus the writer's own entry. */
  ghost predicate GrownTrail(o: Oracles, st: Store, t: Tid, row: Row, event: Event, stamp: int) {
    View(st.log, st.committed + {t}, row.id)
      == CommittedTrail(st, row.id) + [AuditEntry(o, row, event, stamp, Head(CommittedTrail(st, row.id)))]
  }

  /** A transaction's audit entries are the one its work names. */
  ghost predicate OwnEntries(st: Store, t: Tid, work: Work) {
    forall k | 0 <= k < |st.log| && st.log[k].writer == t :: work.Appended? && work.at == k
  }

  /** A row lock is on a committed row or on the row the holder is inserting. */
  ghost predicate HoldsKnownRow(st: Store, x: Txn) {
    x.held.Some? ==> x.held.value in st.rows || (Inserting(x) && x.work.row.id == x.held.value)
  }

  ghost predicate WorkInv(o: Oracles, st: Store, t: Tid, x: Txn) {
    && OwnEntries(st, t, x.work)
    && HoldsKnownRow(st, x)
    && match x.work
       case Idle => true
       case Updated(row, event) =>
         && x.held == Some(row.id) && MatchesOp(o, x.op, row) && Written(o, st, row, event)
         && CausedBy(o, st, x, row, event)
       case Appended(row, event, stamp, at) =>
         && x.held == Some(row.id) && MatchesOp(o, x.op, row) && Written(o, st, row, event)
         && CausedBy(o, st, x, row, event)
         && at < |st.log| && OwnEntry(st.log[at], t, row, event, stamp)
         && stamp == x.readings.stamp && Timely(row, event, stamp)
         && GrownTrail(o, st, t, row, event, stamp)
  }

  /** A row a transaction has read and not written: possibly stale in `get` and `create`,
      current under the lock of `approve` and `dispatch`. */
  ghost predicate Fetched(o: Oracles, st: Store, x: Txn, row: Row) {
    && x.work.Idle? && x.scope == None
    && row.id in st.rows && SameIdentity(row, st.rows[row.id]) && MatchesOp(o, x.op, row)
    && (Locking(x.op) ==> x.held == Some(row.id) && row == st.rows[row.id])
  }

  ghost predicate Expiring(x: Txn) {
    x.work.Appended? && x.work.event.Expire?
  }

  predicate Fresh(x: Txn) {
    x.work.Idle? && x.held == None && x.scope == None
  }

  ghost predicate Dispatching(st: Store, x: Txn, row: Row, cooldown: int) {
    && x.op.DispatchOp? && cooldown == Cooldown(x.op.config)
    && DispatchGate(row, x.op.config) == Proceed && !Due(row, x.readings.check)
    && x.work.Idle? && x.held == Some(row.id)
    && row.id in st.rows && row == st.rows[row.id] && row.id == x.op.id
  }

  ghost predicate PcInv(o: Oracles, st: Store, x: Txn) {
    match x.pc
    case Select => Fresh(x) && (x.op.CreateOp? ==> Planned(x.op.draft.actionId))
    case Prepare(d) => Fresh(x) && x.op == CreateOp(d) && Planned(d.actionId)
    case Insert(d, opening) =>
      && Fresh(x) && x.op == CreateOp(d) && IsOpening(o, opening) && ForDraft(o, d, opening)
      && opening == NewRow(o, d, x.readings.decide) && Planned(d.actionId)
    case SelectConflict(d) => Fresh(x) && x.op == CreateOp(d) && Planned(d.actionId) && KeyTaken(st.rows, d)
    case CheckExpiry(row) => Fetched(o, st, x, row) && (Locking(x.op) || x.held == None)
    case ExpireUpdate(row) =>
      Fetched(o, st, x, row) && (Locking(x.op) || x.held == None) && Due(row, x.readings.check)
    case AuditClock(row, event) => x.work == Updated(row, event)
    case AuditSelect(row, event, stamp) =>
      x.work == Updated(row, event) && Timely(row, event, stamp) && stamp == x.readings.stamp
    case AuditInsert(row, event, stamp, previous) =>
      && x.work == Updated(row, event) && Timely(row, event, stamp) && stamp == x.readings.stamp
      && previous == Head(CommittedTrail(st, row.id))
    case Reselect(id) =>
      || (id in st.rows && Fetched(o, st, x, st.rows[id]) && !Locking(x.op) && !Live(st.rows[id].status))
      || (Expiring(x) && x.work.row.id == id)
    case Decide(row) =>
      || (Fetched(o, st, x, row) && (Locking(x.op) ==> !Due(row, x.readings.check)))
      || (Expiring(x) && x.work.row == row)
    case LockScope(row, cooldown) => Dispatching(st, x, row, cooldown) && x.scope == None
    case QueryCooldown(row, cooldown) => Dispatching(st, x, row, cooldown)
    case CheckCooldown(row, cooldown, _) => Dispatching(st, x, row, cooldown)
    case CallDispatcher(row, cooldown) => Dispatching(st, x, row, cooldown)
    case Write(id, event) =>
      && x.work.Idle? && x.held == Some(id) && Locking(x.op) && x.op.id == id
      && id in st.rows && Enabled(o, st.rows[id], event) && !event.Expire?
      && (event.Dispatch? <==> x.op.DispatchOp?) && Caused(o, x, st.rows[id], event)
    case Reread(id) => x.work.Appended? && x.work.row.id == id && !x.work.event.Expire?
    case Done(row) =>
      || Fetched(o, st, x, row)
      || (x.work.Appended? && x.work.row == row && (x.work.event.Expire? ==> !Locking(x.op)))
    case Failed(error) => error != Unresolved && error != NoPlan
  }

  /** The cooldown has passed since every committed dispatch in the scope of `row`. */
  ghost predicate Cleared(st: Store, row: Row, now: int, cooldown: int) {
    forall k: nat | ScopeEntry(st, k, row) :: CooledDown(st.log[k].row.payload.createdAt, now, cooldown)
  }

  predicate Scoped(o: Oracles, x: Txn, row: Row) {
    x.scope == Some(o.scopeLock(row.actionId, row.targetId))
  }

  ghost predicate LatestKnown(st: Store, row: Row, latest: Option<int>) {
    forall k: nat | ScopeEntry(st, k, row) :: latest.Some? && st.log[k].row.payload.createdAt <= latest.value
  }

  ghost predicate ClearedAt(o: Oracles, st: Store, x: Txn, row: Row, cooldown: int) {
    Scoped(o, x, row) && Cleared(st, row, x.readings.cooldown, cooldown)
  }

  /** A dispatch holds its scope lock from the cooldown query on, and every earlier dispatch of
      the scope lies a full cooldown before the time it read for the check. */
  ghost predicate SpaceInv(o: Oracles, st: Store, x: Txn) {
    && (match x.pc
        case QueryCooldown(row, _) => Scoped(o, x, row)
        case CheckCooldown(row, _, latest) => Scoped(o, x, row) && LatestKnown(st, row, latest)
        case CallDispatcher(row, cooldown) => ClearedAt(o, st, x, row, cooldown)
        case Write(id, event) =>
          event.Dispatch? ==> id in st.rows && ClearedAt(o, st, x, st.rows[id], event.receipt.cooldown)
        case _ => true)
    && (!x.work.Idle? && x.work.event.Dispatch? ==> ClearedAt(o, st, x, x.work.row, x.work.event.receipt.cooldown))
    && (x.work.Appended? && x.work.event.Dispatch? ==>
          forall k: nat | ScopeEntry(st, k, x.work.row) :: k < x.work.at)
  }

  /** No reading lies ahead of the clock, nor, once the audit row has its time, ahead of that. */
  predicate ReadInv(st: Store, x: Txn) {
    && x.readings.check <= st.clock && x.readings.decide <= st.clock && x.readings.cooldown <= st.clock
    && (x.pc.AuditSelect? || x.pc.AuditInsert? || x.work.Appended? ==> InOrder(x.readings))
  }

  ghost predicate LocalInv(o: Oracles, st: Store, t: Tid, x: Txn) {
    && WorkInv(o, st, t, x)
    && PcInv(o, st, x)
    && SpaceInv(o, st, x)
    && ReadInv(st, x)
  }

  /** Row locks, scope locks and the key of an uncommitted insertion are exclusive. */
  predicate Compatible(x: Txn, y: Txn) {
    && (x.held.Some? ==> x.held != y.held)
    && (x.scope.Some? ==> x.scope != y.scope)
    && (Inserting(x) && Inserting(y) ==> !SameKey(x.work.row, y.work.row))
  }

  /** Log index k holds a committed dispatch. */
  ghost predicate DispatchAt(st: Store, k: nat) {
    && k < |st.log|
    && st.log[k].writer in st.committed
    && st.log[k].row.payload.action == RequestDispatched
    && st.log[k].row.payload.requestId in st.rows
    && st.rows[st.log[k].row.payload.requestId].receipt.Some?
  }

  function DispatchedRow(st: Store, k: nat): Row
    requires k < |st.log| && st.log[k].row.payload.requestId in st.rows
  {
    st.rows[st.log[k].row.payload.requestId]
  }

  /** Log index i holds a committed dispatch in the scope of the one at index j. */
  ghost predicate DispatchPair(st: Store, i: nat, j: nat) {
    DispatchAt(st, j) && ScopeEntry(st, i, DispatchedRow(st, j))
  }

  predicate Apart(st: Store, i: nat, j: nat)
    requires i < |st.log| && j < |st.log| && st.log[j].row.payload.requestId in st.rows
    requires DispatchedRow(st, j).receipt.Some?
  {
    st.log[i].row.payload.createdAt + DispatchedRow(st, j).receipt.value.cooldown <= st.log[j].row.payload.createdAt
  }

  /** Dispatches of one action and target lie at least the later one's cooldown apart. */
  ghost predicate Spaced(st: Store) {
    forall i: nat, j: nat | i < j && DispatchPair(st, i, j) :: Apart(st, i, j)
  }

  ghost predicate OneDispatchEach(st: Store) {
    forall i: nat, j: nat | i < j && DispatchAt(st, i) && DispatchAt(st, j) ::
      st.log[i].row.payload.requestId != st.log[j].row.payload.requestId
  }

  ghost predicate StoreInv(o: Oracles, st: Store) {
    Consistent(o, BookOf(st)) && Spaced(st) && OneDispatchEach(st)
  }

  ghost predicate TidsBounded(s: State) {
    && (forall t <- s.txns :: t < s.nextTid && t !in s.store.committed)
    && (forall t <- s.store.committed :: t < s.nextTid)
    && (forall k | 0 <= k < |s.store.log| :: s.store.log[k].writer < s.nextTid)
  }

  ghost predicate Exclusive(txns: map<Tid, Txn>) {
    forall t <- txns, u <- txns | t != u :: Compatible(txns[t], txns[u])
  }

  ghost predicate AllLocal(o: Oracles, s: State) {
    forall t <- s.txns :: LocalInv(o, s.store, t, s.txns[t])
  }

  ghost predicate Inv(o: Oracles, s: State) {
    && TidsBounded(s)
    && StoreInv(o, s.store)
    && Exclusive(s.txns)
    && AllLocal(o, s)
  }

  // ---------------------------------------------------------------------------------------
  // Runs
  // ---------------------------------------------------------------------------------------

  /** The service starts on any tables that satisfy the store invariant: empty ones, or those
      an earlier run has left. */
  ghost predicate Initial(o: Oracles, s: State) {
    TidsBounded(s) && StoreInv(o, s.store) && s.txns == map[]
  }

  predicate Untouched(st: Store) {
    st.rows == map[] && st.log == [] && st.committed == {}
  }

  /** A run through any interleaving of any transactions. */
  ghost predicate IsRun(o: Oracles, run: seq<State>) {
    && run != [] && Initial(o, run[0])
    && forall i | 0 < i < |run| :: Successor(o, run[i - 1], run[i])
  }

  // ---------------------------------------------------------------------------------------
  // Views
  // ---------------------------------------------------------------------------------------

  lemma ViewAppend(log: seq<Entry>, entry: Entry, writers: set<Tid>, id: string)
    ensures View(log + [entry], writers, id)
         == if entry.writer in writers && entry.row.payload.requestId == id
            then View(log, writers, id) + [entry.row] else View(log, writers, id)
  {
    assert (log + [entry])[..|log|] == log;
  }

  /** Writers without entries for a request do not show in its view. */
  lemma {:induction false} ViewIgnores(log: seq<Entry>, writers: set<Tid>, t: Tid, id: string)
    requires forall k | 0 <= k < |log| && log[k].writer == t :: log[k].row.payload.requestId != id
    ensures View(log, writers + {t}, id) == View(log, writers, id)
  {
    if log != [] {
      var n := |log| - 1;
      var before := log[..n];
      forall k | 0 <= k < n && before[k].writer == t ensures before[k].row.payload.requestId != id {
        assert before[k] == log[k];
      }
      ViewIgnores(before, writers, t, id);
    }
  }

  lemma {:induction false} ViewShows(log: seq<Entry>, writers: set<Tid>, id: string, k: nat) returns (i: nat)
    requires k < |log| && log[k].writer in writers && log[k].row.payload.requestId == id
    ensures i < |View(log, writers, id)| && View(log, writers, id)[i] == log[k].row
  {
    var n := |log| - 1;
    if k == n {
      i := |View(log[..n], writers, id)|;
    } else {
      i := ViewShows(log[..n], writers, id, k);
    }
  }
}
