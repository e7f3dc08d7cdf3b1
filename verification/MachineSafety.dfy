/** The machine refines the ledger: every step of every interleaving leaves the committed
    ledger alone or applies one permitted change to it, and the invariant holds in every state
    of every run. */
module MachineSafety {
  import opened AuditChain
  import opened Workflow
  import opened Ledger
  import opened Machine
  import opened MachineInvariant
  import opened MachineProofs

  // ---------------------------------------------------------------------------------------
  // The committed tables
  // ---------------------------------------------------------------------------------------

  /** The later tables hold the same commits. */
  ghost predicate SameCommits(st: Store, st': Store) {
    && st'.rows == st.rows && st'.committed == st.committed && st.log <= st'.log
    && forall k | |st.log| <= k < |st'.log| :: st'.log[k].writer !in st.committed
  }

  lemma SameDispatches(st: Store, st': Store, i: nat, j: nat)
    requires SameCommits(st, st') && DispatchAt(st', j)
    ensures DispatchAt(st, j) && st'.log[j] == st.log[j]
    ensures DispatchPair(st', i, j) ==> DispatchPair(st, i, j)
  {
  }

  lemma SpacingSurvives(st: Store, st': Store)
    requires SameCommits(st, st') && Spaced(st) && OneDispatchEach(st)
    ensures Spaced(st') && OneDispatchEach(st')
  {
    forall i: nat, j: nat | i < j && DispatchPair(st', i, j) ensures Apart(st', i, j) {
      SameDispatches(st, st', i, j);
    }
    forall i: nat, j: nat | i < j && DispatchAt(st', i) && DispatchAt(st', j)
      ensures st'.log[i].row.payload.requestId != st'.log[j].row.payload.requestId {
      SameDispatches(st, st', j, i);
      SameDispatches(st, st', i, j);
    }
  }

  lemma AppendKeepsStore(o: Oracles, st: Store, entry: Entry)
    requires StoreInv(o, st) && entry.writer !in st.committed
    ensures StoreInv(o, st.(log := st.log + [entry]))
    ensures Applied(o, BookOf(st), Stutter, BookOf(st.(log := st.log + [entry])))
  {
    var st' := st.(log := st.log + [entry]);
    forall id ensures CommittedTrail(st', id) == CommittedTrail(st, id) {
      ViewAppend(st.log, entry, st.committed, id);
    }
    StutterKeeps(o, BookOf(st), BookOf(st'));
    SpacingSurvives(st, st');
  }

  /** What a commit does to the ledger. */
  function ChangeOf(x: Txn): Change {
    match x.work
    case Appended(row, event, stamp, _) =>
      if event.Open? then Opens(row, stamp) else Records(row.id, event, stamp)
    case _ => Stutter
  }

  lemma CommitIsChange(o: Oracles, st: Store, t: Tid, x: Txn)
    requires Committing(o, st, t, x) && NoOrphans(BookOf(st))
    ensures Permitted(o, BookOf(st), ChangeOf(x))
    ensures Applied(o, BookOf(st), ChangeOf(x), BookOf(Committed(st, t, x)))
  {
    var st' := Committed(st, t, x);
    forall id | x.work.Idle? || id != x.work.row.id
      ensures CommittedTrail(st', id) == CommittedTrail(st, id) {
      CommitKeepsView(o, st, t, x, st.committed, id);
    }
    if x.work.Appended? {
      var row := x.work.row;
      assert GrownTrail(o, st, t, row, x.work.event, x.work.stamp);
      if x.work.event.Open? {
        assert BookOf(st).trails(row.id) == [];
      } else {
        assert Past(BookOf(st), row.id) == History(st.rows[row.id], CommittedTrail(st, row.id));
      }
    }
  }

  /** A request that is not dispatched has no committed dispatch entry. */
  lemma NoEarlierDispatch(o: Oracles, st: Store, k: nat, id: string)
    requires Consistent(o, BookOf(st)) && id in st.rows && st.rows[id].status != Dispatched
    requires k < |st.log| && st.log[k].writer in st.committed && st.log[k].row.payload.requestId == id
    ensures st.log[k].row.payload.action != RequestDispatched
  {
    assert Filed(o, BookOf(st), id);
    var i := ViewShows(st.log, st.committed, id, k);
    if st.log[k].row.payload.action == RequestDispatched {
      DispatchEntryMeansDispatched(o, Past(BookOf(st), id), i);
    }
  }

  /** A request that a commit changes had no committed dispatch before. */
  lemma ChangedHadNoDispatch(o: Oracles, st: Store, t: Tid, x: Txn, k: nat)
    requires Committing(o, st, t, x) && Consistent(o, BookOf(st)) && x.work.Appended?
    requires k < |st.log| && st.log[k].writer in st.committed && st.log[k].row.payload.requestId == x.work.row.id
    ensures st.log[k].row.payload.action != RequestDispatched
  {
    if x.work.event.Open? {
      var i := ViewShows(st.log, st.committed, x.work.row.id, k);
      assert false;
    } else {
      NoEarlierDispatch(o, st, k, x.work.row.id);
    }
  }

  /** A committed dispatch is an old one or the one being committed. */
  lemma DispatchesAfterCommit(o: Oracles, st: Store, t: Tid, x: Txn, k: nat)
    requires Committing(o, st, t, x) && Consistent(o, BookOf(st))
    requires DispatchAt(Committed(st, t, x), k)
    ensures || (&& DispatchAt(st, k)
                && (x.work.Appended? ==> st.log[k].row.payload.requestId != x.work.row.id)
                && DispatchedRow(Committed(st, t, x), k) == DispatchedRow(st, k))
            || (x.work.Appended? && x.work.event.Dispatch? && x.work.at == k)
  {
    if st.log[k].writer in st.committed && x.work.Appended? && st.log[k].row.payload.requestId == x.work.row.id {
      ChangedHadNoDispatch(o, st, t, x, k);
    }
  }

  /** An older dispatch in the scope of the committing one was cleared by its cooldown check. */
  lemma ScopeBeforeCommit(o: Oracles, st: Store, t: Tid, x: Txn, i: nat)
    requires Committing(o, st, t, x) && Consistent(o, BookOf(st))
    requires x.work.Appended? && x.work.event.Dispatch?
    requires ScopeEntry(Committed(st, t, x), i, x.work.row)
    ensures ScopeEntry(st, i, x.work.row)
  {
    if st.log[i].writer == t {
      assert false;
    }
  }

  /** The committing dispatch clears the older ones of its scope, so its row is behind them. */
  lemma NewDispatchIsLast(o: Oracles, st: Store, t: Tid, x: Txn, i: nat, j: nat)
    requires Committing(o, st, t, x) && Consistent(o, BookOf(st))
    requires x.work.Appended? && x.work.event.Dispatch? && ScopeEntry(st, j, x.work.row)
    requires i < |st.log| && st.log[i].row.payload.requestId == x.work.row.id
    requires st.log[i].row.payload.action == RequestDispatched && st.log[i].writer in st.committed + {t}
    ensures j < i
  {
    if st.log[i].writer in st.committed {
      NoEarlierDispatch(o, st, i, x.work.row.id);
    }
  }

  /** A commit adds no dispatch before an older one of its scope. */
  lemma ScopeStaysClosed(o: Oracles, st: Store, t: Tid, x: Txn, i: nat, j: nat)
    requires Committing(o, st, t, x) && Consistent(o, BookOf(st)) && i < j && DispatchAt(st, j)
    requires x.work.Appended? ==> st.log[j].row.payload.requestId != x.work.row.id
    requires ScopeEntry(Committed(st, t, x), i, DispatchedRow(st, j))
    ensures ScopeEntry(st, i, DispatchedRow(st, j))
  {
    var later := DispatchedRow(st, j);
    if !ScopeEntry(st, i, later) {
      CommitAddsToScope(o, st, t, x, i, later);
      DispatchedRows(o, st, st.log[j].row.payload.requestId);
      assert ScopeEntry(st, j, x.work.row);
      NewDispatchIsLast(o, st, t, x, i, j);
    }
  }

  /** The cooldown check and the order of the readings space the dispatch being committed. */
  lemma CheckSpaces(o: Oracles, st: Store, x: Txn, i: nat)
    requires SpaceInv(o, st, x) && ReadInv(st, x) && x.work.Appended? && x.work.event.Dispatch?
    requires x.work.stamp == x.readings.stamp && ScopeEntry(st, i, x.work.row)
    ensures st.log[i].row.payload.createdAt + x.work.event.receipt.cooldown <= x.work.stamp
  {
    assert CooledDown(st.log[i].row.payload.createdAt, x.readings.cooldown, x.work.event.receipt.cooldown);
  }

  lemma CommitKeepsSpacing(o: Oracles, st: Store, t: Tid, x: Txn, i: nat, j: nat)
    requires Committing(o, st, t, x) && Consistent(o, BookOf(st)) && Spaced(st)
    requires i < j && DispatchPair(Committed(st, t, x), i, j)
    ensures Apart(Committed(st, t, x), i, j)
  {
    DispatchesAfterCommit(o, st, t, x, j);
    if x.work.Appended? && x.work.event.Dispatch? && x.work.at == j {
      ScopeBeforeCommit(o, st, t, x, i);
      CheckSpaces(o, st, x, i);
    } else {
      ScopeStaysClosed(o, st, t, x, i, j);
      assert DispatchPair(st, i, j);
    }
  }

  lemma CommitKeepsOneDispatch(o: Oracles, st: Store, t: Tid, x: Txn, i: nat, j: nat)
    requires Committing(o, st, t, x) && Consistent(o, BookOf(st)) && OneDispatchEach(st)
    requires i < j && DispatchAt(Committed(st, t, x), i) && DispatchAt(Committed(st, t, x), j)
    ensures st.log[i].row.payload.requestId != st.log[j].row.payload.requestId
  {
    DispatchesAfterCommit(o, st, t, x, i);
    DispatchesAfterCommit(o, st, t, x, j);
  }

  lemma CommitKeepsStore(o: Oracles, st: Store, t: Tid, x: Txn)
    requires Committing(o, st, t, x) && StoreInv(o, st)
    ensures StoreInv(o, Committed(st, t, x))
  {
    CommitIsChange(o, st, t, x);
    ChangeKeepsConsistency(o, BookOf(st), ChangeOf(x), BookOf(Committed(st, t, x)));
    var st' := Committed(st, t, x);
    forall i: nat, j: nat | i < j && DispatchPair(st', i, j) ensures Apart(st', i, j) {
      CommitKeepsSpacing(o, st, t, x, i, j);
    }
    forall i: nat, j: nat | i < j && DispatchAt(st', i) && DispatchAt(st', j)
      ensures st'.log[i].row.payload.requestId != st'.log[j].row.payload.requestId {
      CommitKeepsOneDispatch(o, st, t, x, i, j);
    }
  }

  // ---------------------------------------------------------------------------------------
  // Locks
  // ---------------------------------------------------------------------------------------

  predicate SameLocks(x: Txn, x': Txn) {
    && x'.held == x.held && x'.scope == x.scope
    && (Inserting(x') ==> Inserting(x) && x'.work.row == x.work.row)
  }

  lemma LockStepKeepsLocks(o: Oracles, st: Store, t: Tid, x: Txn, y: Txn, choice: Choice)
    requires PcInv(o, st, x) && HoldsKnownRow(st, y) && Compatible(x, y) && !Blocks(o, st, x, y)
    requires x.pc.Select? || x.pc.Insert? || x.pc.LockScope?
    ensures Compatible(Stepped(o, st, t, x, choice), y)
  {
  }

  lemma UpdateStepKeepsLocks(o: Oracles, st: Store, t: Tid, x: Txn, y: Txn, choice: Choice)
    requires PcInv(o, st, x) && Compatible(x, y) && !Blocks(o, st, x, y) && MayKeep(x, y, choice)
    requires x.pc.ExpireUpdate? || x.pc.Write?
    ensures Compatible(Stepped(o, st, t, x, choice), y)
  {
  }

  lemma OtherStepKeepsLocks(o: Oracles, st: Store, t: Tid, x: Txn, choice: Choice)
    requires PcInv(o, st, x)
    requires !x.pc.Select? && !x.pc.Insert? && !x.pc.LockScope? && !x.pc.ExpireUpdate? && !x.pc.Write?
    ensures SameLocks(x, Stepped(o, st, t, x, choice))
  {
  }

  lemma StepKeepsLocks(o: Oracles, st: Store, t: Tid, x: Txn, y: Txn, choice: Choice)
    requires PcInv(o, st, x) && HoldsKnownRow(st, y) && Compatible(x, y)
    requires !Blocks(o, st, x, y) && MayKeep(x, y, choice)
    ensures Compatible(Stepped(o, st, t, x, choice), y)
  {
    if x.pc.Select? || x.pc.Insert? || x.pc.LockScope? {
      LockStepKeepsLocks(o, st, t, x, y, choice);
    } else if x.pc.ExpireUpdate? || x.pc.Write? {
      UpdateStepKeepsLocks(o, st, t, x, y, choice);
    } else {
      OtherStepKeepsLocks(o, st, t, x, choice);
    }
  }

  // ---------------------------------------------------------------------------------------
  // Every step keeps the invariant
  // ---------------------------------------------------------------------------------------

  lemma RunKeepsOthers(o: Oracles, s: State, t: Tid)
    requires TidsBounded(s) && StoreInv(o, s.store) && AllLocal(o, s) && t in s.txns
    ensures StoreInv(o, Logged(o, s.store, t, s.txns[t]))
    ensures Applied(o, BookOf(s.store), Stutter, BookOf(Logged(o, s.store, t, s.txns[t])))
    ensures forall u <- s.txns | u != t :: LocalInv(o, Logged(o, s.store, t, s.txns[t]), u, s.txns[u])
  {
    var x, st := s.txns[t], s.store;
    if x.pc.AuditInsert? {
      var entry := Entry(t, AuditEntry(o, x.pc.row, x.pc.event, x.pc.stamp, x.pc.previous));
      AppendKeepsStore(o, st, entry);
      forall u <- s.txns | u != t ensures LocalInv(o, st.(log := st.log + [entry]), u, s.txns[u]) {
        assert LocalInv(o, st, u, s.txns[u]);
        AppendKeepsWork(o, st, entry, u, s.txns[u]);
        AppendKeepsPc(o, st, entry, s.txns[u]);
        AppendKeepsSpace(o, st, entry, s.txns[u]);
      }
    }
  }

  lemma RunKeepsExclusion(o: Oracles, s: State, t: Tid, choice: Choice)
    requires Exclusive(s.txns) && AllLocal(o, s) && Possible(o, s, Run(t, choice))
    ensures Exclusive(s.txns[t := Stepped(o, s.store, t, s.txns[t], choice)])
  {
    forall u <- s.txns | u != t
      ensures Compatible(Stepped(o, s.store, t, s.txns[t], choice), s.txns[u]) {
      assert LocalInv(o, s.store, t, s.txns[t]) && LocalInv(o, s.store, u, s.txns[u]) && !WaitsFor(o, s, t, u);
      StepKeepsLocks(o, s.store, t, s.txns[t], s.txns[u], choice);
    }
  }

  lemma RunKeepsTids(o: Oracles, s: State, t: Tid, y: Txn)
    requires TidsBounded(s) && t in s.txns
    ensures TidsBounded(State(Logged(o, s.store, t, s.txns[t]), s.nextTid, s.txns[t := y]))
  {
  }

  lemma RunKeepsLocals(o: Oracles, s: State, t: Tid, choice: Choice)
    requires Inv(o, s) && t in s.txns && !s.txns[t].pc.Done? && !s.txns[t].pc.Failed?
    ensures LocalInv(o, Logged(o, s.store, t, s.txns[t]), t, Stepped(o, s.store, t, s.txns[t], choice))
  {
    assert LocalInv(o, s.store, t, s.txns[t]);
    ConsistentRowsAreFiled(o, s.store);
    OwnStep(o, s.store, t, s.txns[t], choice);
  }

  lemma RunKeepsInv(o: Oracles, s: State, t: Tid, choice: Choice)
    requires Inv(o, s) && Possible(o, s, Run(t, choice))
    requires !s.txns[t].pc.Done? && !s.txns[t].pc.Failed?
    ensures Inv(o, Next(o, s, Run(t, choice)))
    ensures Applied(o, BookOf(s.store), Stutter, BookOf(Next(o, s, Run(t, choice)).store))
  {
    RunKeepsLocals(o, s, t, choice);
    RunKeepsOthers(o, s, t);
    RunKeepsExclusion(o, s, t, choice);
    RunKeepsTids(o, s, t, Stepped(o, s.store, t, s.txns[t], choice));
  }

  lemma CommitKeepsOthers(o: Oracles, s: State, t: Tid)
    requires Inv(o, s) && t in s.txns && s.txns[t].pc.Done?
    ensures forall u <- s.txns | u != t :: LocalInv(o, Committed(s.store, t, s.txns[t]), u, s.txns[u])
  {
    var st, x := s.store, s.txns[t];
    assert LocalInv(o, st, t, x);
    forall u <- s.txns | u != t ensures LocalInv(o, Committed(st, t, x), u, s.txns[u]) {
      assert LocalInv(o, st, u, s.txns[u]) && Compatible(x, s.txns[u]);
      CommitKeepsLocal(o, st, t, x, u, s.txns[u]);
    }
  }

  lemma CommitKeepsTids(s: State, t: Tid)
    requires TidsBounded(s) && Exclusive(s.txns) && t in s.txns
    ensures TidsBounded(State(Committed(s.store, t, s.txns[t]), s.nextTid, s.txns - {t}))
    ensures Exclusive(s.txns - {t})
  {
  }

  lemma CommitKeepsTables(o: Oracles, st: Store, t: Tid, x: Txn)
    requires LocalInv(o, st, t, x) && t !in st.committed && x.pc.Done? && StoreInv(o, st)
    ensures StoreInv(o, Committed(st, t, x))
    ensures Permitted(o, BookOf(st), ChangeOf(x))
    ensures Applied(o, BookOf(st), ChangeOf(x), BookOf(Committed(st, t, x)))
  {
    CommitIsChange(o, st, t, x);
    CommitKeepsStore(o, st, t, x);
  }

  lemma CommitKeepsInv(o: Oracles, s: State, t: Tid, choice: Choice)
    requires Inv(o, s) && Possible(o, s, Run(t, choice)) && s.txns[t].pc.Done?
    ensures Inv(o, Next(o, s, Run(t, choice)))
    ensures Permitted(o, BookOf(s.store), ChangeOf(s.txns[t]))
    ensures Applied(o, BookOf(s.store), ChangeOf(s.txns[t]), BookOf(Next(o, s, Run(t, choice)).store))
  {
    assert LocalInv(o, s.store, t, s.txns[t]);
    CommitKeepsTables(o, s.store, t, s.txns[t]);
    CommitKeepsOthers(o, s, t);
    CommitKeepsTids(s, t);
  }

  lemma DropKeepsInv(o: Oracles, s: State, t: Tid)
    requires Inv(o, s) && t in s.txns
    ensures Inv(o, s.(txns := s.txns - {t}))
  {
    var s' := s.(txns := s.txns - {t});
    forall u <- s'.txns ensures LocalInv(o, s'.store, u, s'.txns[u]) {
      assert LocalInv(o, s.store, u, s.txns[u]);
    }
  }

  lemma TickKeepsStore(o: Oracles, st: Store, to: int)
    requires StoreInv(o, st)
    ensures StoreInv(o, st.(clock := to))
    ensures Applied(o, BookOf(st), Stutter, BookOf(st.(clock := to)))
  {
    var st' := st.(clock := to);
    assert forall id :: CommittedTrail(st', id) == CommittedTrail(st, id);
    StutterKeeps(o, BookOf(st), BookOf(st'));
    SpacingSurvives(st, st');
  }

  lemma TickKeepsInv(o: Oracles, s: State, to: int)
    requires Inv(o, s) && s.store.clock <= to
    ensures Inv(o, s.(store := s.store.(clock := to)))
    ensures Applied(o, BookOf(s.store), Stutter, BookOf(s.store.(clock := to)))
  {
    var s' := s.(store := s.store.(clock := to));
    TickKeepsStore(o, s.store, to);
    forall t <- s'.txns ensures LocalInv(o, s'.store, t, s'.txns[t]) {
      assert LocalInv(o, s.store, t, s.txns[t]);
      TickKeepsLocal(o, s.store, to, t, s.txns[t]);
    }
  }

  lemma StartingInv(o: Oracles, s: State, op: Op)
    requires TidsBounded(s) && Possible(o, s, Begin(op))
    ensures LocalInv(o, s.store, s.nextTid, Starting(op, s.store.clock))
    ensures TidsBounded(Next(o, s, Begin(op)))
  {
  }

  lemma BeginKeepsInv(o: Oracles, s: State, op: Op)
    requires Inv(o, s) && Possible(o, s, Begin(op))
    ensures Inv(o, Next(o, s, Begin(op)))
  {
    StartingInv(o, s, op);
    assert Exclusive(Next(o, s, Begin(op)).txns);
  }

  /** The ledger change a step makes. */
  ghost function StepChange(s: State, step: Step): Change {
    if step.Run? && step.tid in s.txns && s.txns[step.tid].pc.Done? then ChangeOf(s.txns[step.tid]) else Stutter
  }

  /** The refinement: a step keeps the invariant and is one permitted ledger change, made by a
      commit that publishes the request row and its audit entry together. */
  lemma StepRefinesLedger(o: Oracles, s: State, step: Step)
    requires Inv(o, s) && Possible(o, s, step)
    ensures Inv(o, Next(o, s, step))
    ensures Permitted(o, BookOf(s.store), StepChange(s, step))
    ensures Applied(o, BookOf(s.store), StepChange(s, step), BookOf(Next(o, s, step).store))
  {
    match step {
      case Tick(to) => TickKeepsInv(o, s, to);
      case Begin(op) => BeginKeepsInv(o, s, op);
      case Abort(t) => DropKeepsInv(o, s, t);
      case Run(t, choice) =>
        if s.txns[t].pc.Done? {
          CommitKeepsInv(o, s, t, choice);
        } else if s.txns[t].pc.Failed? {
          DropKeepsInv(o, s, t);
        } else {
          RunKeepsInv(o, s, t, choice);
        }
    }
  }
}
