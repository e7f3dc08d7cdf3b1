/** Every possible step keeps the invariant: the steps of a transaction establish its own local
    invariant, and the other transactions are framed away by the locks. */
module MachineProofs {
  import opened Options
  import opened Workflow
  import opened Creation
  import opened Ledger
  import opened Machine
  import opened MachineInvariant

  // ---------------------------------------------------------------------------------------
  // Time
  // ---------------------------------------------------------------------------------------

  lemma TickKeepsLocal(o: Oracles, st: Store, to: int, t: Tid, x: Txn)
    requires LocalInv(o, st, t, x) && st.clock <= to
    ensures LocalInv(o, st.(clock := to), t, x)
  {
    var st' := st.(clock := to);
    assert forall k: nat, row :: ScopeEntry(st', k, row) <==> ScopeEntry(st, k, row);
    assert WorkInv(o, st', t, x);
    assert PcInv(o, st', x);
    assert SpaceInv(o, st', x);
  }

  // ---------------------------------------------------------------------------------------
  // An audit insertion of another transaction
  // ---------------------------------------------------------------------------------------

  lemma AppendKeepsWork(o: Oracles, st: Store, entry: Entry, t: Tid, x: Txn)
    requires WorkInv(o, st, t, x) && entry.writer != t && entry.writer !in st.committed
    ensures WorkInv(o, st.(log := st.log + [entry]), t, x)
  {
    if x.work.Appended? {
      ViewAppend(st.log, entry, st.committed, x.work.row.id);
      ViewAppend(st.log, entry, st.committed + {t}, x.work.row.id);
    }
  }

  lemma AppendKeepsScope(st: Store, entry: Entry, k: nat, row: Row)
    requires entry.writer !in st.committed
    ensures ScopeEntry(st.(log := st.log + [entry]), k, row) <==> ScopeEntry(st, k, row)
  {
  }

  lemma AppendKeepsPc(o: Oracles, st: Store, entry: Entry, x: Txn)
    requires PcInv(o, st, x) && entry.writer !in st.committed
    ensures PcInv(o, st.(log := st.log + [entry]), x)
  {
    if x.pc.AuditInsert? {
      ViewAppend(st.log, entry, st.committed, x.pc.row.id);
    }
  }

  lemma AppendKeepsSpace(o: Oracles, st: Store, entry: Entry, x: Txn)
    requires SpaceInv(o, st, x) && entry.writer !in st.committed
    ensures SpaceInv(o, st.(log := st.log + [entry]), x)
  {
    var st' := st.(log := st.log + [entry]);
    forall k: nat, row | ScopeEntry(st', k, row)
      ensures ScopeEntry(st, k, row) && st'.log[k] == st.log[k] {
      AppendKeepsScope(st, entry, k, row);
    }
  }

  // ---------------------------------------------------------------------------------------
  // A commit of another transaction
  // ---------------------------------------------------------------------------------------

  /** What a transaction that commits knows about itself. */
  ghost predicate Committing(o: Oracles, st: Store, t: Tid, x: Txn) {
    && t !in st.committed
    && WorkInv(o, st, t, x) && SpaceInv(o, st, x) && ReadInv(st, x) && !x.work.Updated?
  }

  /** Requests a transaction did not write look the same before and after it commits. */
  lemma CommitKeepsView(o: Oracles, st: Store, t: Tid, x: Txn, writers: set<Tid>, id: string)
    requires Committing(o, st, t, x)
    requires x.work.Idle? || x.work.row.id != id
    ensures View(st.log, writers + {t}, id) == View(st.log, writers, id)
  {
    forall k | 0 <= k < |st.log| && st.log[k].writer == t ensures st.log[k].row.payload.requestId != id {
    }
    ViewIgnores(st.log, writers, t, id);
  }

  lemma CommitKeepsWork(o: Oracles, st: Store, t: Tid, x: Txn, u: Tid, y: Txn)
    requires Committing(o, st, t, x) && t != u
    requires WorkInv(o, st, u, y) && Compatible(x, y)
    ensures WorkInv(o, Committed(st, t, x), u, y)
  {
    var st' := Committed(st, t, x);
    if !y.work.Idle? {
      var row := y.work.row;
      assert y.held == Some(row.id);
      assert x.work.Idle? || x.work.row.id != row.id;
      CommitKeepsView(o, st, t, x, st.committed, row.id);
      assert Written(o, st', row, y.work.event) by {
        if y.work.event.Open? {
          forall id <- st'.rows ensures !SameKey(st'.rows[id], row) {
            if !x.work.Idle? && id == x.work.row.id && !x.work.event.Open? {
              assert !SameKey(st.rows[id], row);
            }
          }
        }
      }
      if y.work.Appended? {
        CommitKeepsView(o, st, t, x, st.committed + {u}, row.id);
        assert st'.committed + {u} == st.committed + {u} + {t};
        assert GrownTrail(o, st', u, row, y.work.event, y.work.stamp);
      }
    }
  }

  /** No row is lost or re-keyed, and a row another transaction has locked is untouched. */
  lemma CommitKeepsRows(o: Oracles, st: Store, t: Tid, x: Txn, y: Txn)
    requires Committing(o, st, t, x) && Compatible(x, y)
    ensures var st' := Committed(st, t, x);
            && (forall id <- st.rows :: id in st'.rows && SameIdentity(st.rows[id], st'.rows[id]))
            && (y.held.Some? && y.held.value in st.rows ==> st'.rows[y.held.value] == st.rows[y.held.value])
  {
  }

  lemma CommitKeepsKeys(o: Oracles, st: Store, t: Tid, x: Txn, y: Txn, d: Draft)
    requires Committing(o, st, t, x) && Compatible(x, y) && KeyTaken(st.rows, d)
    ensures KeyTaken(Committed(st, t, x).rows, d)
  {
    CommitKeepsRows(o, st, t, x, y);
    var id :| HasKey(st.rows, d, id);
    assert HasKey(Committed(st, t, x).rows, d, id);
  }

  lemma CommitKeepsPc(o: Oracles, st: Store, t: Tid, x: Txn, u: Tid, y: Txn)
    requires Committing(o, st, t, x)
    requires WorkInv(o, st, u, y) && PcInv(o, st, y) && Compatible(x, y)
    ensures PcInv(o, Committed(st, t, x), y)
  {
    CommitKeepsRows(o, st, t, x, y);
    if y.pc.AuditInsert? {
      CommitKeepsView(o, st, t, x, st.committed, y.pc.row.id);
    } else if y.pc.SelectConflict? {
      CommitKeepsKeys(o, st, t, x, y, y.pc.draft);
    }
  }

  /** A commit adds a dispatch to a scope only if the committing transaction dispatches there. */
  lemma CommitAddsToScope(o: Oracles, st: Store, t: Tid, x: Txn, k: nat, row: Row)
    requires Committing(o, st, t, x)
    requires ScopeEntry(Committed(st, t, x), k, row) && !ScopeEntry(st, k, row)
    ensures x.work.Appended? && x.work.event.Dispatch?
    ensures x.work.row.actionId == row.actionId && x.work.row.targetId == row.targetId
  {
  }

  lemma CommitKeepsSpace(o: Oracles, st: Store, t: Tid, x: Txn, y: Txn)
    requires Committing(o, st, t, x)
    requires SpaceInv(o, st, y) && Compatible(x, y)
    ensures SpaceInv(o, Committed(st, t, x), y)
  {
    var st' := Committed(st, t, x);
    forall k: nat, row: Row | Scoped(o, y, row) && ScopeEntry(st', k, row)
      ensures ScopeEntry(st, k, row) {
      if !ScopeEntry(st, k, row) {
        CommitAddsToScope(o, st, t, x, k, row);
      }
    }
  }

  lemma CommitKeepsLocal(o: Oracles, st: Store, t: Tid, x: Txn, u: Tid, y: Txn)
    requires Committing(o, st, t, x) && t != u
    requires LocalInv(o, st, u, y) && Compatible(x, y)
    ensures LocalInv(o, Committed(st, t, x), u, y)
  {
    CommitKeepsWork(o, st, t, x, u, y);
    CommitKeepsPc(o, st, t, x, u, y);
    CommitKeepsSpace(o, st, t, x, y);
  }

  // ---------------------------------------------------------------------------------------
  // A transaction's own statements
  // ---------------------------------------------------------------------------------------

  ghost predicate RowsFiled(st: Store) {
    forall id <- st.rows :: st.rows[id].id == id && Planned(st.rows[id].actionId)
  }

  lemma ConsistentRowsAreFiled(o: Oracles, st: Store)
    requires Consistent(o, BookOf(st))
    ensures RowsFiled(st)
  {
    forall id <- st.rows ensures st.rows[id].id == id && Planned(st.rows[id].actionId) {
      assert Filed(o, BookOf(st), id);
    }
  }

  /** The situation in which a live transaction executes a statement. */
  ghost predicate Running(o: Oracles, st: Store, t: Tid, x: Txn) {
    LocalInv(o, st, t, x) && RowsFiled(st) && t !in st.committed
  }

  lemma KeySelectSteps(o: Oracles, st: Store, t: Tid, x: Txn, choice: Choice)
    requires Running(o, st, t, x) && x.pc.Select? && x.op.CreateOp?
    ensures LocalInv(o, st, t, Stepped(o, st, t, x, choice))
  {
  }

  lemma SelectSteps(o: Oracles, st: Store, t: Tid, x: Txn, choice: Choice)
    requires Running(o, st, t, x) && x.pc.Select? && !x.op.CreateOp?
    ensures LocalInv(o, st, t, Stepped(o, st, t, x, choice))
  {
  }

  lemma CheckSteps(o: Oracles, st: Store, t: Tid, x: Txn, choice: Choice)
    requires Running(o, st, t, x)
    requires x.pc.Prepare? || x.pc.SelectConflict? || x.pc.CheckExpiry?
    ensures LocalInv(o, st, t, Stepped(o, st, t, x, choice))
  {
  }

  lemma InsertSteps(o: Oracles, st: Store, t: Tid, x: Txn, choice: Choice)
    requires Running(o, st, t, x) && x.pc.Insert?
    ensures LocalInv(o, st, t, Stepped(o, st, t, x, choice))
  {
    if !KeyTaken(st.rows, x.pc.draft) {
      forall id <- st.rows ensures !SameKey(st.rows[id], x.pc.opening) {
        assert !HasKey(st.rows, x.pc.draft, id);
      }
    }
  }

  lemma ExpireSteps(o: Oracles, st: Store, t: Tid, x: Txn, choice: Choice)
    requires Running(o, st, t, x) && x.pc.ExpireUpdate?
    ensures LocalInv(o, st, t, Stepped(o, st, t, x, choice))
  {
  }

  lemma StampSteps(o: Oracles, st: Store, t: Tid, x: Txn, choice: Choice)
    requires Running(o, st, t, x) && x.pc.AuditClock?
    ensures LocalInv(o, st, t, Stepped(o, st, t, x, choice))
  {
    assert CausedBy(o, st, x, x.pc.row, x.pc.event);
    assert Timely(x.pc.row, x.pc.event, Iso(st.clock));
  }

  lemma LinkSteps(o: Oracles, st: Store, t: Tid, x: Txn, choice: Choice)
    requires Running(o, st, t, x) && x.pc.AuditSelect?
    ensures LocalInv(o, st, t, Stepped(o, st, t, x, choice))
  {
    ViewIgnores(st.log, st.committed, t, x.pc.row.id);
  }

  lemma InsertAuditStep(o: Oracles, st: Store, t: Tid, x: Txn, choice: Choice)
    requires Running(o, st, t, x) && x.pc.AuditInsert?
    ensures LocalInv(o, Logged(o, st, t, x), t, Stepped(o, st, t, x, choice))
  {
    var entry := Entry(t, AuditEntry(o, x.pc.row, x.pc.event, x.pc.stamp, x.pc.previous));
    var st', x' := Logged(o, st, t, x), Stepped(o, st, t, x, choice);
    var id := x.pc.row.id;
    ViewIgnores(st.log, st.committed, t, id);
    ViewAppend(st.log, entry, st.committed, id);
    ViewAppend(st.log, entry, st.committed + {t}, id);
    assert GrownTrail(o, st', t, x.pc.row, x.pc.event, x.pc.stamp);
    assert WorkInv(o, st', t, x');
    forall k: nat, row | ScopeEntry(st', k, row) ensures ScopeEntry(st, k, row) {
      AppendKeepsScope(st, entry, k, row);
    }
    assert SpaceInv(o, st', x');
  }

  lemma ReselectSteps(o: Oracles, st: Store, t: Tid, x: Txn, choice: Choice)
    requires Running(o, st, t, x) && x.pc.Reselect?
    ensures LocalInv(o, st, t, Stepped(o, st, t, x, choice))
  {
  }

  lemma RereadSteps(o: Oracles, st: Store, t: Tid, x: Txn, choice: Choice)
    requires Running(o, st, t, x) && x.pc.Reread?
    ensures LocalInv(o, st, t, Stepped(o, st, t, x, choice))
  {
  }

  lemma ReturnSteps(o: Oracles, st: Store, t: Tid, x: Txn, choice: Choice)
    requires Running(o, st, t, x) && x.pc.Decide? && !Locking(x.op)
    ensures LocalInv(o, st, t, Stepped(o, st, t, x, choice))
  {
  }

  /** After its own expiry a decision is refused, whoever decides. */
  lemma ExpiredSteps(o: Oracles, st: Store, t: Tid, x: Txn, choice: Choice)
    requires Running(o, st, t, x) && x.pc.Decide? && Locking(x.op) && Expiring(x)
    ensures Stepped(o, st, t, x, choice) == x.(pc := Failed(WrongState))
    ensures LocalInv(o, st, t, Stepped(o, st, t, x, choice))
  {
  }

  lemma ApproveSteps(o: Oracles, st: Store, t: Tid, x: Txn, choice: Choice)
    requires Running(o, st, t, x) && x.pc.Decide? && x.op.ApproveOp? && !Expiring(x)
    ensures LocalInv(o, st, t, Stepped(o, st, t, x, choice))
  {
    var x' := Stepped(o, st, t, x, choice);
    assert Fetched(o, st, x, x.pc.row);
    assert WorkInv(o, st, t, x') && SpaceInv(o, st, x');
  }

  lemma DispatchSteps(o: Oracles, st: Store, t: Tid, x: Txn, choice: Choice)
    requires Running(o, st, t, x) && x.pc.Decide? && x.op.DispatchOp? && !Expiring(x)
    ensures LocalInv(o, st, t, Stepped(o, st, t, x, choice))
  {
    var x' := Stepped(o, st, t, x, choice);
    assert Fetched(o, st, x, x.pc.row);
    assert WorkInv(o, st, t, x') && SpaceInv(o, st, x');
  }

  lemma LatestIsKnown(st: Store, row: Row, n: nat)
    requires n <= |st.log|
    requires forall i: nat, j: nat | i < j < n && ScopeEntry(st, i, row) && ScopeEntry(st, j, row) ::
               st.log[i].row.payload.createdAt <= st.log[j].row.payload.createdAt
    ensures forall k: nat | k < n && ScopeEntry(st, k, row) ::
              && LatestDispatch(st, row, n).Some?
              && st.log[k].row.payload.createdAt <= LatestDispatch(st, row, n).value
  {
    if n > 0 && !ScopeEntry(st, n - 1, row) {
      LatestIsKnown(st, row, n - 1);
    }
  }

  lemma ScopeSteps(o: Oracles, st: Store, t: Tid, x: Txn, choice: Choice)
    requires Running(o, st, t, x) && x.pc.LockScope?
    ensures LocalInv(o, st, t, Stepped(o, st, t, x, choice))
  {
    var x' := Stepped(o, st, t, x, choice);
    assert WorkInv(o, st, t, x');
    assert PcInv(o, st, x');
  }

  lemma CooldownSteps(o: Oracles, st: Store, t: Tid, x: Txn, choice: Choice)
    requires Running(o, st, t, x) && x.pc.CheckCooldown?
    ensures LocalInv(o, st, t, Stepped(o, st, t, x, choice))
  {
    var x' := Stepped(o, st, t, x, choice);
    assert WorkInv(o, st, t, x');
    assert PcInv(o, st, x');
  }

  lemma DispatchedRows(o: Oracles, st: Store, id: string)
    requires Consistent(o, BookOf(st)) && id in st.rows
    ensures st.rows[id].status == Dispatched <==> st.rows[id].receipt.Some?
    ensures st.rows[id].receipt.Some? ==> st.rows[id].receipt.value.cooldown >= 1
  {
    assert Filed(o, BookOf(st), id);
  }

  /** The dispatches of one scope are stamped in id order, because they are spaced. */
  lemma ScopeInOrder(st: Store, row: Row, i: nat, j: nat)
    requires Spaced(st) && OneDispatchEach(st) && ScopeEntry(st, i, row) && ScopeEntry(st, j, row) && i < j
    requires RowsFiled(st)
    requires DispatchAt(st, i) && DispatchAt(st, j) && DispatchedRow(st, j).receipt.value.cooldown >= 1
    ensures st.log[i].row.payload.createdAt <= st.log[j].row.payload.createdAt
  {
    assert st.log[i].row.payload.requestId != st.log[j].row.payload.requestId;
    assert DispatchPair(st, i, j);
  }

  lemma QuerySteps(o: Oracles, st: Store, t: Tid, x: Txn, choice: Choice)
    requires Running(o, st, t, x) && x.pc.QueryCooldown?
    requires Spaced(st) && OneDispatchEach(st) && Consistent(o, BookOf(st))
    ensures LocalInv(o, st, t, Stepped(o, st, t, x, choice))
  {
    var x', row := Stepped(o, st, t, x, choice), x.pc.row;
    forall i: nat, j: nat | i < j && ScopeEntry(st, i, row) && ScopeEntry(st, j, row)
      ensures st.log[i].row.payload.createdAt <= st.log[j].row.payload.createdAt {
      DispatchedRows(o, st, st.log[i].row.payload.requestId);
      DispatchedRows(o, st, st.log[j].row.payload.requestId);
      ScopeInOrder(st, row, i, j);
    }
    LatestIsKnown(st, row, |st.log|);
    assert LatestKnown(st, row, x'.pc.latest);
    assert WorkInv(o, st, t, x') && PcInv(o, st, x') && SpaceInv(o, st, x');
  }

  lemma DispatcherSteps(o: Oracles, st: Store, t: Tid, x: Txn, choice: Choice)
    requires Running(o, st, t, x) && x.pc.CallDispatcher?
    ensures LocalInv(o, st, t, Stepped(o, st, t, x, choice))
  {
    var x' := Stepped(o, st, t, x, choice);
    assert WorkInv(o, st, t, x') && PcInv(o, st, x');
  }

  lemma WriteSteps(o: Oracles, st: Store, t: Tid, x: Txn, choice: Choice)
    requires Running(o, st, t, x) && x.pc.Write?
    ensures LocalInv(o, st, t, Stepped(o, st, t, x, choice))
  {
    var x' := Stepped(o, st, t, x, choice);
    assert WorkInv(o, st, t, x') && PcInv(o, st, x');
  }

  /** Every statement re-establishes the local invariant of the transaction that executes it. */
  lemma OwnStep(o: Oracles, st: Store, t: Tid, x: Txn, choice: Choice)
    requires Running(o, st, t, x) && !x.pc.Done? && !x.pc.Failed?
    requires Spaced(st) && OneDispatchEach(st) && Consistent(o, BookOf(st))
    ensures LocalInv(o, Logged(o, st, t, x), t, Stepped(o, st, t, x, choice))
  {
    match x.pc {
      case Select =>
        if x.op.CreateOp? {
          KeySelectSteps(o, st, t, x, choice);
        } else {
          SelectSteps(o, st, t, x, choice);
        }
      case Prepare(_) => CheckSteps(o, st, t, x, choice);
      case Insert(_, _) => InsertSteps(o, st, t, x, choice);
      case SelectConflict(_) => CheckSteps(o, st, t, x, choice);
      case CheckExpiry(_) => CheckSteps(o, st, t, x, choice);
      case ExpireUpdate(_) => ExpireSteps(o, st, t, x, choice);
      case AuditClock(_, _) => StampSteps(o, st, t, x, choice);
      case AuditSelect(_, _, _) => LinkSteps(o, st, t, x, choice);
      case AuditInsert(_, _, _, _) => InsertAuditStep(o, st, t, x, choice);
      case Reselect(_) => ReselectSteps(o, st, t, x, choice);
      case Reread(_) => RereadSteps(o, st, t, x, choice);
      case Decide(_) =>
        if !Locking(x.op) {
          ReturnSteps(o, st, t, x, choice);
        } else if Expiring(x) {
          ExpiredSteps(o, st, t, x, choice);
        } else if x.op.ApproveOp? {
          ApproveSteps(o, st, t, x, choice);
        } else {
          DispatchSteps(o, st, t, x, choice);
        }
      case LockScope(_, _) => ScopeSteps(o, st, t, x, choice);
      case CheckCooldown(_, _, _) => CooldownSteps(o, st, t, x, choice);
      case QueryCooldown(_, _) => QuerySteps(o, st, t, x, choice);
      case CallDispatcher(_, _) => DispatcherSteps(o, st, t, x, choice);
      case Write(_, _) => WriteSteps(o, st, t, x, choice);
    }
  }
}
