/** What callers of the interleaved service are told. Every transaction that returns or raises
    does so as its whole call would have at some moment of its life, whatever ran beside it. */
module MachineAnswers {
  import opened Options
  import opened Workflow
  import opened Creation
  import opened Ledger
  import opened Machine
  import opened MachineInvariant
  import opened MachineProofs
  import opened MachineTheorems
  import opened ServiceSpec
  import opened ServiceTheorems
  import opened MachineRefinesService

  /** On the tables of a state the whole call gives this answer and changes nothing. */
  ghost predicate Answers(o: Oracles, past: Store, x: Txn, answer: Result<Row, Error>) {
    && ResultOf(o, TablesOf(past), CallOf(x)) == answer
    && Perform(o, TablesOf(past), CallOf(x)) == TablesOf(past)
  }

  /** In an earlier state the operation found this row. */
  ghost predicate Found(o: Oracles, past: Store, x: Txn, row: Row) {
    && row.id in past.rows && past.rows[row.id] == row
    && match x.op
       case CreateOp(d) => FindByKey(past.rows, d) == Some(row.id) && ForDraft(o, d, row)
       case GetOp(id) => row.id == id
       case ApproveOp(id, _, _, _) => row.id == id
       case DispatchOp(id, _, _) => row.id == id
  }

  /** In an earlier state the request to be decided was past its deadline. */
  predicate Overdue(past: Store, x: Txn) {
    Locking(x.op) ==> x.op.id in past.rows && Due(past.rows[x.op.id], x.readings.check)
  }

  /** What an earlier state explains about where a transaction stands. */
  ghost predicate Saw(o: Oracles, past: Store, x: Txn) {
    match x.pc
    case CheckExpiry(row) => Found(o, past, x, row)
    case ExpireUpdate(row) => Found(o, past, x, row) && Due(row, x.readings.check)
    case AuditClock(_, event) => event.Expire? ==> Overdue(past, x)
    case AuditSelect(_, event, _) => event.Expire? ==> Overdue(past, x)
    case AuditInsert(_, event, _, _) => event.Expire? ==> Overdue(past, x)
    case Reselect(_) => x.work.Idle? || Overdue(past, x)
    case Decide(row) =>
      if x.work.Idle? then Found(o, past, x, row) && !Due(row, x.readings.check) else Overdue(past, x)
    case CheckCooldown(row, _, latest) =>
      Found(o, past, x, row) && latest == LatestDispatch(past, row, |past.log|)
    case CallDispatcher(row, cooldown) =>
      Found(o, past, x, row) && !CoolingDown(TablesOf(past), row, x.readings.cooldown, cooldown)
    case Done(row) => x.work.Idle? ==> Answers(o, past, x, Ok(row))
    case Failed(error) => Answers(o, past, x, Err(error))
    case _ => true
  }

  // ---------------------------------------------------------------------------------------
  // The cooldown query on the tables of a state
  // ---------------------------------------------------------------------------------------

  lemma {:induction false} AuditPrefix(log: seq<Entry>, writers: set<Tid>, n: nat)
    requires n <= |log|
    ensures CommittedAudit(log[..n], writers) <= CommittedAudit(log, writers)
  {
    if n < |log| {
      assert log[..|log| - 1][..n] == log[..n];
      AuditPrefix(log[..|log| - 1], writers, n);
    } else {
      assert log[..n] == log;
    }
  }

  lemma NextAuditRow(st: Store, n: nat)
    requires n < |st.log|
    ensures var before := CommittedAudit(st.log[..n], st.committed);
            CommittedAudit(st.log[..n + 1], st.committed)
              == if st.log[n].writer in st.committed then before + [st.log[n].row] else before
  {
    assert st.log[..n + 1][..n] == st.log[..n];
  }

  /** The latest dispatch by log index is the latest one by audit id. */
  lemma {:induction false} LatestAgrees(st: Store, row: Row, n: nat)
    requires n <= |st.log|
    ensures |CommittedAudit(st.log[..n], st.committed)| <= |TablesOf(st).audit|
    ensures LatestStamp(TablesOf(st), row, |CommittedAudit(st.log[..n], st.committed)|) == LatestDispatch(st, row, n)
  {
    AuditPrefix(st.log, st.committed, n);
    if n > 0 {
      LatestAgrees(st, row, n - 1);
      NextAuditRow(st, n - 1);
      var m := |CommittedAudit(st.log[..n - 1], st.committed)|;
      if st.log[n - 1].writer in st.committed {
        assert TablesOf(st).audit[m] == st.log[n - 1].row;
        assert Earlier(TablesOf(st), m, row) <==> ScopeEntry(st, n - 1, row);
      }
    } else {
      assert st.log[..0] == [];
    }
  }

  lemma LatestOfTables(st: Store, row: Row)
    ensures LatestStamp(TablesOf(st), row, |TablesOf(st).audit|) == LatestDispatch(st, row, |st.log|)
  {
    assert st.log[..|st.log|] == st.log;
    LatestAgrees(st, row, |st.log|);
  }

  // ---------------------------------------------------------------------------------------
  // One statement
  // ---------------------------------------------------------------------------------------

  /** The look-ups see the present state. */
  lemma LookUpSees(o: Oracles, st: Store, t: Tid, x: Txn, choice: Choice)
    requires Running(o, st, t, x) && (x.pc.Select? || x.pc.Insert? || x.pc.SelectConflict?)
    ensures Saw(o, st, Stepped(o, st, t, x, choice))
  {
  }

  /** So does the second look after an expiry that another transaction got to first: the row is
      terminal, so it is no longer due. */
  lemma SecondLookSees(o: Oracles, st: Store, t: Tid, x: Txn, choice: Choice)
    requires Running(o, st, t, x) && x.pc.Reselect? && x.work.Idle? && OneRowPerKey(st.rows)
    ensures Saw(o, st, Stepped(o, st, t, x, choice))
  {
    var row := st.rows[x.pc.id];
    if x.op.CreateOp? {
      assert HasKey(st.rows, x.op.draft, row.id);
      assert SameKey(st.rows[FindByKey(st.rows, x.op.draft).value], row);
    }
  }

  lemma QuerySees(o: Oracles, st: Store, t: Tid, x: Txn, choice: Choice)
    requires Running(o, st, t, x) && x.pc.QueryCooldown?
    ensures Saw(o, st, Stepped(o, st, t, x, choice))
  {
  }

  lemma ExpiryRemembers(o: Oracles, past: Store, st: Store, t: Tid, x: Txn, choice: Choice)
    requires Running(o, st, t, x) && Saw(o, past, x)
    requires x.pc.CheckExpiry? || x.pc.ExpireUpdate? || x.pc.AuditClock? || x.pc.AuditSelect? || x.pc.AuditInsert?
    ensures Saw(o, past, Stepped(o, st, t, x, choice))
  {
  }

  lemma OwnExpiryRemembers(o: Oracles, past: Store, st: Store, t: Tid, x: Txn, choice: Choice)
    requires Running(o, st, t, x) && Saw(o, past, x)
    requires (x.pc.Reselect? || x.pc.Decide?) && !x.work.Idle?
    ensures Saw(o, past, Stepped(o, st, t, x, choice))
  {
  }

  lemma ReturnAnswers(o: Oracles, past: Store, st: Store, t: Tid, x: Txn, choice: Choice)
    requires Running(o, st, t, x) && Saw(o, past, x) && x.pc.Decide? && x.work.Idle? && !Locking(x.op)
    ensures Saw(o, past, Stepped(o, st, t, x, choice))
  {
  }

  lemma ApprovalAnswers(o: Oracles, past: Store, st: Store, t: Tid, x: Txn, choice: Choice)
    requires Running(o, st, t, x) && Saw(o, past, x) && x.pc.Decide? && x.work.Idle? && x.op.ApproveOp?
    ensures Saw(o, past, Stepped(o, st, t, x, choice))
  {
  }

  lemma GateAnswers(o: Oracles, past: Store, st: Store, t: Tid, x: Txn, choice: Choice)
    requires Running(o, st, t, x) && Saw(o, past, x) && x.pc.Decide? && x.work.Idle? && x.op.DispatchOp?
    ensures Saw(o, past, Stepped(o, st, t, x, choice))
  {
  }

  lemma CooldownAnswers(o: Oracles, past: Store, st: Store, t: Tid, x: Txn, choice: Choice)
    requires Running(o, st, t, x) && Saw(o, past, x) && x.pc.CheckCooldown?
    ensures Saw(o, past, Stepped(o, st, t, x, choice))
  {
    LatestOfTables(past, x.pc.row);
  }

  lemma DispatcherAnswers(o: Oracles, past: Store, st: Store, t: Tid, x: Txn, choice: Choice)
    requires Running(o, st, t, x) && Saw(o, past, x) && x.pc.CallDispatcher?
    ensures Saw(o, past, Stepped(o, st, t, x, choice))
  {
  }

  lemma RestRemembers(o: Oracles, past: Store, st: Store, t: Tid, x: Txn, choice: Choice)
    requires Running(o, st, t, x)
    requires x.pc.Prepare? || x.pc.LockScope? || x.pc.Write? || x.pc.Reread?
    ensures Saw(o, past, Stepped(o, st, t, x, choice))
  {
  }

  /** After a statement either the state that explained the transaction still does or the state
      it just looked at does. */
  lemma StatementSees(o: Oracles, past: Store, st: Store, t: Tid, x: Txn, choice: Choice)
    requires Running(o, st, t, x) && Saw(o, past, x) && OneRowPerKey(st.rows) && !x.pc.Done? && !x.pc.Failed?
    ensures Saw(o, past, Stepped(o, st, t, x, choice)) || Saw(o, st, Stepped(o, st, t, x, choice))
  {
    match x.pc {
      case Select => LookUpSees(o, st, t, x, choice);
      case Insert(_, _) => LookUpSees(o, st, t, x, choice);
      case SelectConflict(_) => LookUpSees(o, st, t, x, choice);
      case CheckExpiry(_) => ExpiryRemembers(o, past, st, t, x, choice);
      case ExpireUpdate(_) => ExpiryRemembers(o, past, st, t, x, choice);
      case AuditClock(_, _) => ExpiryRemembers(o, past, st, t, x, choice);
      case AuditSelect(_, _, _) => ExpiryRemembers(o, past, st, t, x, choice);
      case AuditInsert(_, _, _, _) => ExpiryRemembers(o, past, st, t, x, choice);
      case Reselect(_) =>
        if x.work.Idle? {
          SecondLookSees(o, st, t, x, choice);
        } else {
          OwnExpiryRemembers(o, past, st, t, x, choice);
        }
      case Decide(_) =>
        if !x.work.Idle? {
          OwnExpiryRemembers(o, past, st, t, x, choice);
        } else if !Locking(x.op) {
          ReturnAnswers(o, past, st, t, x, choice);
        } else if x.op.ApproveOp? {
          ApprovalAnswers(o, past, st, t, x, choice);
        } else {
          GateAnswers(o, past, st, t, x, choice);
        }
      case QueryCooldown(_, _) => QuerySees(o, st, t, x, choice);
      case CheckCooldown(_, _, _) => CooldownAnswers(o, past, st, t, x, choice);
      case CallDispatcher(_, _) => DispatcherAnswers(o, past, st, t, x, choice);
      case _ => RestRemembers(o, past, st, t, x, choice);
    }
  }

  // ---------------------------------------------------------------------------------------
  // Runs
  // ---------------------------------------------------------------------------------------

  /** Transaction t is alive from state k to state i. */
  predicate Lives(run: seq<State>, k: nat, i: nat, t: Tid)
    requires i < |run|
  {
    k <= i && forall j | k <= j <= i :: t in run[j].txns
  }

  /** A transaction that survives a step is untouched or has executed one statement. */
  lemma StepMovesOne(o: Oracles, s: State, step: Step, t: Tid)
    requires TidsBounded(s) && Possible(o, s, step) && t in s.txns && t in Next(o, s, step).txns
    ensures if step.Run? && step.tid == t
            then && !s.txns[t].pc.Done? && !s.txns[t].pc.Failed?
                 && Next(o, s, step).txns[t] == Stepped(o, s.store, t, s.txns[t], step.choice)
            else Next(o, s, step).txns[t] == s.txns[t]
  {
  }

  lemma StepSees(o: Oracles, run: seq<State>, i: nat, t: Tid, past: Store)
    requires IsRun(o, run) && i + 1 < |run| && t in run[i].txns && t in run[i + 1].txns
    requires Saw(o, past, run[i].txns[t])
    ensures Saw(o, past, run[i + 1].txns[t]) || Saw(o, run[i].store, run[i + 1].txns[t])
  {
    RunInv(o, run, i);
    assert Successor(o, run[i], run[i + 1]);
    var step :| Leads(o, run[i], step, run[i + 1]);
    var s := run[i];
    StepMovesOne(o, s, step, t);
    if step.Run? && step.tid == t {
      assert LocalInv(o, s.store, t, s.txns[t]);
      ConsistentRowsAreFiled(o, s.store);
      StatementSees(o, past, s.store, t, s.txns[t], step.choice);
    }
  }

  lemma BirthSees(o: Oracles, run: seq<State>, i: nat, t: Tid)
    requires IsRun(o, run) && i + 1 < |run| && t !in run[i].txns && t in run[i + 1].txns
    ensures Saw(o, run[i + 1].store, run[i + 1].txns[t])
  {
    assert Successor(o, run[i], run[i + 1]);
    var step :| Leads(o, run[i], step, run[i + 1]);
  }

  /** Some state in the life of a transaction explains where it stands. */
  lemma {:induction false} SomethingSeen(o: Oracles, run: seq<State>, i: nat, t: Tid) returns (k: nat)
    requires IsRun(o, run) && i < |run| && t in run[i].txns
    ensures Lives(run, k, i, t) && Saw(o, run[k].store, run[i].txns[t])
    decreases i
  {
    if t !in run[i - 1].txns {
      BirthSees(o, run, i - 1, t);
      k := i;
    } else {
      k := SomethingSeen(o, run, i - 1, t);
      StepSees(o, run, i - 1, t, run[k].store);
      if !Saw(o, run[k].store, run[i].txns[t]) {
        k := i - 1;
      }
    }
  }

  /** What a transaction that has come to its end tells its caller. */
  function Told(x: Txn): Result<Row, Error>
    requires x.pc.Done? || x.pc.Failed?
  {
    if x.pc.Done? then Ok(x.pc.row) else Err(x.pc.error)
  }

  predicate Publishing(x: Txn) {
    x.pc.Done? && x.work.Appended?
  }

  /** Every transaction that returns or raises answers as its whole call, at the times it read and
      with the answer it got, would on the committed tables of some moment of its life; for the
      ones that publish that moment is their commit, for all others the call changes nothing. */
  lemma EveryAnswerIsOfAWholeCall(o: Oracles, run: seq<State>, i: nat, t: Tid) returns (k: nat)
    requires IsRun(o, run) && i < |run| && t in run[i].txns
    requires run[i].txns[t].pc.Done? || run[i].txns[t].pc.Failed?
    ensures Lives(run, k, i, t)
    ensures ResultOf(o, TablesOf(run[k].store), CallOf(run[i].txns[t])) == Told(run[i].txns[t])
    ensures if Publishing(run[i].txns[t]) then k == i
            else Perform(o, TablesOf(run[k].store), CallOf(run[i].txns[t])) == TablesOf(run[k].store)
  {
    k := SomethingSeen(o, run, i, t);
    if Publishing(run[i].txns[t]) {
      k := i;
      RunInv(o, run, i);
      var st := run[i].store;
      assert LocalInv(o, st, t, run[i].txns[t]);
      ConsistentRowsAreFiled(o, st);
      TablesMirrorStore(st);
      CommitIsCall(o, TablesOf(st), st, t, run[i].txns[t]);
    } else {
      RunInv(o, run, i);
      assert LocalInv(o, run[i].store, t, run[i].txns[t]);
    }
  }
}
