/** The case repository under concurrent writes. A comment or a piece of evidence is inserted before
    the UPDATE that locks its case, so additions to one case can lie in their table in another
    order than the one in which they commit and are audited. */
module CaseInterleaving {
  import opened Options
  import opened Ordering
  import opened CaseStore

  /** Where the rows of a write lie in their tables when it commits: writes that run beside it may
      have inserted theirs before or after. */
  datatype Landing = Landing(related: nat, audit: nat)

  function Inserted<T>(s: seq<T>, at: nat, x: T): seq<T>
    requires at <= |s|
  {
    s[..at] + [x] + s[at..]
  }

  function CaseOf(w: Write): string {
    match w
    case Create(n, _) => n.id
    case Change(id, _, _, _, _) => id
    case Add(r, _) => r.caseId
  }

  /** A write inserts its audit row while it holds the row of its case, so behind all audit rows
      of that case. Its comment or evidence goes in earlier and may land anywhere. */
  predicate Lands(ts: Tables, w: Write, l: Landing) {
    && l.audit <= |ts.audit| && (forall k | l.audit <= k < |ts.audit| :: ts.audit[k].caseId != CaseOf(w))
    && (w.Add? ==> l.related <= if w.related.content.Comment? then |ts.comments| else |ts.evidence|)
  }

  /** The committed effect of a write whose rows landed there. */
  function Landed(ts: Tables, w: Write, l: Landing): Tables
    requires Lands(ts, w, l)
  {
    match w
    case Create(n, now) =>
      if n.id in ts.cases then ts else
        Perform(ts, w).(audit := Inserted(ts.audit, l.audit, CreatedEntry(OpenedCase(n), now)))
    case Change(id, u, actor, updatedAt, now) =>
      if id !in ts.cases || Empty(u) || !NullsAllowed(u) then ts else
        Perform(ts, w).(audit := Inserted(ts.audit, l.audit, UpdatedEntry(id, u, actor, updatedAt, now)))
    case Add(r, now) =>
      if !Adds(ts, r) then ts else
        Perform(ts, w).(
          comments := if r.content.Comment? then Inserted(ts.comments, l.related, r) else ts.comments,
          evidence := if r.content.Comment? then ts.evidence else Inserted(ts.evidence, l.related, r),
          audit := Inserted(ts.audit, l.audit, RelatedEntry(r, now)))
  }

  datatype Commit = Commit(write: Write, landing: Landing)

  /** The tables after the commits, each of which landed where it could. */
  ghost predicate Interleaved(ts: Tables, commits: seq<Commit>, after: Tables)
    decreases |commits|
  {
    if commits == [] then after == ts else
      var last := commits[|commits| - 1];
      exists before :: Interleaved(ts, commits[..|commits| - 1], before) && Lands(before, last.write, last.landing)
                    && after == Landed(before, last.write, last.landing)
  }

  function Writes(commits: seq<Commit>): (writes: seq<Write>)
    ensures |writes| == |commits|
  {
    seq(|commits|, i requires 0 <= i < |commits| => commits[i].write)
  }

  /** The same rows, every audit trail the same, every case with the same comments and evidence in
      some order. */
  ghost predicate Alike(a: Tables, b: Tables) {
    && a.cases == b.cases
    && (forall id :: AuditOf(a.audit, id) == AuditOf(b.audit, id))
    && (forall id :: multiset(Of(a.comments, id)) == multiset(Of(b.comments, id)))
    && (forall id :: multiset(Of(a.evidence, id)) == multiset(Of(b.evidence, id)))
  }

  lemma OfInserted(rows: seq<Related>, at: nat, r: Related, id: string)
    requires at <= |rows|
    ensures multiset(Of(Inserted(rows, at, r), id))
         == if r.caseId == id then multiset(Of(rows, id)) + multiset{r} else multiset(Of(rows, id))
  {
    var front, back := rows[..at], rows[at..];
    assert rows == front + back;
    OfAppend(front, back, id);
    OfOneMore(front, r, id);
    OfAppend(front + [r], back, id);
  }

  lemma {:induction false} AuditOfConcat(a: seq<AuditEntry>, b: seq<AuditEntry>, id: string)
    ensures AuditOf(a + b, id) == AuditOf(a, id) + AuditOf(b, id)
  {
    if b == [] {
      assert a + b == a;
    } else {
      var n := |b| - 1;
      assert (a + b)[..|a| + n] == a + b[..n];
      AuditOfConcat(a, b[..n], id);
    }
  }

  lemma {:induction false} NoneOfCase(audit: seq<AuditEntry>, id: string)
    requires forall k | 0 <= k < |audit| :: audit[k].caseId != id
    ensures AuditOf(audit, id) == []
  {
    if audit != [] {
      NoneOfCase(audit[..|audit| - 1], id);
    }
  }

  lemma AuditParts(audit: seq<AuditEntry>, at: nat, entry: AuditEntry, id: string)
    requires at <= |audit|
    ensures AuditOf(audit, id) == AuditOf(audit[..at], id) + AuditOf(audit[at..], id)
    ensures AuditOf(Inserted(audit, at, entry), id) == AuditOf(audit[..at] + [entry], id) + AuditOf(audit[at..], id)
  {
    assert audit == audit[..at] + audit[at..];
    AuditOfConcat(audit[..at], audit[at..], id);
    AuditOfConcat(audit[..at] + [entry], audit[at..], id);
  }

  /** An entry inserted behind all entries of its case is the last of its trail. */
  lemma AuditOfInserted(audit: seq<AuditEntry>, at: nat, entry: AuditEntry, id: string)
    requires at <= |audit| && forall k | at <= k < |audit| :: audit[k].caseId != entry.caseId
    ensures AuditOf(Inserted(audit, at, entry), id)
         == if entry.caseId == id then AuditOf(audit, id) + [entry] else AuditOf(audit, id)
  {
    AuditParts(audit, at, entry, id);
    AuditOfAppend(audit[..at], entry, id);
    if id == entry.caseId {
      NoneOfCase(audit[at..], id);
      var front := AuditOf(audit[..at], id);
      assert front + [] == front && (front + [entry]) + [] == front + [entry];
    }
  }

  lemma {:induction false} RowIsOfItsCase(rows: seq<Related>, k: nat)
    requires k < |rows|
    ensures rows[k] in multiset(Of(rows, rows[k].caseId))
  {
    var n := |rows| - 1;
    if k < n {
      RowIsOfItsCase(rows[..n], k);
    }
  }

  lemma SameIdsUsed(a: seq<Related>, b: seq<Related>, id: string)
    requires forall c :: multiset(Of(a, c)) == multiset(Of(b, c))
    requires UsedId(a, id)
    ensures UsedId(b, id)
  {
    var i :| 0 <= i < |a| && a[i].id == id;
    RowIsOfItsCase(a, i);
    assert a[i] in multiset(Of(b, a[i].caseId));
    OfMembers(b, a[i].caseId);
    var j :| 0 <= j < |b| && b[j] == a[i];
  }

  lemma AddsAlike(a: Tables, b: Tables, r: Related)
    requires Alike(a, b)
    ensures Adds(a, r) <==> Adds(b, r)
  {
    if r.content.Comment? {
      if UsedId(a.comments, r.id) { SameIdsUsed(a.comments, b.comments, r.id); }
      if UsedId(b.comments, r.id) { SameIdsUsed(b.comments, a.comments, r.id); }
    } else {
      if UsedId(a.evidence, r.id) { SameIdsUsed(a.evidence, b.evidence, r.id); }
      if UsedId(b.evidence, r.id) { SameIdsUsed(b.evidence, a.evidence, r.id); }
    }
  }

  lemma SameTrails(a: seq<AuditEntry>, b: seq<AuditEntry>, at: nat, entry: AuditEntry)
    requires forall id :: AuditOf(a, id) == AuditOf(b, id)
    requires at <= |b| && forall k | at <= k < |b| :: b[k].caseId != entry.caseId
    ensures forall id :: AuditOf(a + [entry], id) == AuditOf(Inserted(b, at, entry), id)
  {
    forall id ensures AuditOf(a + [entry], id) == AuditOf(Inserted(b, at, entry), id) {
      AuditOfInserted(b, at, entry, id);
      AuditOfAppend(a, entry, id);
    }
  }

  lemma SameRelated(a: seq<Related>, b: seq<Related>, at: nat, r: Related)
    requires forall id :: multiset(Of(a, id)) == multiset(Of(b, id))
    requires at <= |b|
    ensures forall id :: multiset(Of(a + [r], id)) == multiset(Of(Inserted(b, at, r), id))
  {
    forall id ensures multiset(Of(a + [r], id)) == multiset(Of(Inserted(b, at, r), id)) {
      OfInserted(b, at, r, id);
      OfOneMore(a, r, id);
    }
  }

  /** Wherever its rows land, a write does to every case what the whole write does. */
  lemma LandedAlike(a: Tables, b: Tables, w: Write, l: Landing)
    requires Alike(a, b) && Lands(b, w, l)
    ensures Alike(Perform(a, w), Landed(b, w, l))
  {
    match w {
      case Create(n, now) => SameTrails(a.audit, b.audit, l.audit, CreatedEntry(OpenedCase(n), now));
      case Change(id, u, actor, updatedAt, now) =>
        SameTrails(a.audit, b.audit, l.audit, UpdatedEntry(id, u, actor, updatedAt, now));
      case Add(r, now) =>
        AddsAlike(a, b, r);
        SameTrails(a.audit, b.audit, l.audit, RelatedEntry(r, now));
        if r.content.Comment? {
          SameRelated(a.comments, b.comments, l.related, r);
        } else {
          SameRelated(a.evidence, b.evidence, l.related, r);
        }
    }
  }

  /** Interleaved writes leave every case as the same writes do one after another in commit order:
      the row, the audit trail, and the comments and evidence up to their order in the table. */
  lemma {:induction false} InterleavingDoesNotMatter(ts: Tables, commits: seq<Commit>, after: Tables)
    requires Interleaved(ts, commits, after)
    ensures Alike(PerformAll(ts, Writes(commits)), after)
    decreases |commits|
  {
    if commits != [] {
      var n := |commits| - 1;
      var last := commits[n];
      var before :| Interleaved(ts, commits[..n], before) && Lands(before, last.write, last.landing)
                    && after == Landed(before, last.write, last.landing);
      InterleavingDoesNotMatter(ts, commits[..n], before);
      assert Writes(commits)[..n] == Writes(commits[..n]);
      LandedAlike(PerformAll(ts, Writes(commits[..n])), before, last.write, last.landing);
    }
  }

  // ---------------------------------------------------------------------------------------
  // What is shown does not depend on the interleaving
  // ---------------------------------------------------------------------------------------

  predicate DistinctIds(rows: seq<Related>) {
    forall i, j | 0 <= i < j < |rows| :: rows[i].id != rows[j].id
  }

  lemma WriteKeepsIdsDistinct(ts: Tables, w: Write)
    requires DistinctIds(ts.comments) && DistinctIds(ts.evidence)
    ensures DistinctIds(Perform(ts, w).comments) && DistinctIds(Perform(ts, w).evidence)
  {
  }

  lemma {:induction false} RunsKeepIdsDistinct(writes: seq<Write>)
    ensures var ts := PerformAll(Tables(map[], [], [], []), writes);
            DistinctIds(ts.comments) && DistinctIds(ts.evidence)
  {
    if writes != [] {
      RunsKeepIdsDistinct(writes[..|writes| - 1]);
      WriteKeepsIdsDistinct(PerformAll(Tables(map[], [], [], []), writes[..|writes| - 1]), writes[|writes| - 1]);
    }
  }

  lemma {:induction false} OfKeepsIdsDistinct(rows: seq<Related>, id: string)
    requires DistinctIds(rows)
    ensures DistinctIds(Of(rows, id))
  {
    if rows != [] {
      var n := |rows| - 1;
      OfKeepsIdsDistinct(rows[..n], id);
      OfMembers(rows[..n], id);
      forall i | 0 <= i < |Of(rows[..n], id)| ensures Of(rows[..n], id)[i].id != rows[n].id {
        assert Of(rows[..n], id)[i] in rows[..n];
      }
    }
  }

  lemma DistinctIsOfRows(a: seq<Related>, b: seq<Related>, i: nat, j: nat)
    requires DistinctIds(a) && multiset(a) == multiset(b) && i < |a| && j < |b| && a[i].id == b[j].id
    ensures a[i] == b[j]
  {
    assert b[j] in multiset(b);
    var k :| 0 <= k < |a| && a[k] == b[j];
  }

  function Without(rows: seq<Related>, k: nat): seq<Related>
    requires k < |rows|
  {
    rows[..k] + rows[k + 1..]
  }

  lemma RowTaken(rows: seq<Related>, k: nat)
    requires k < |rows|
    ensures multiset(Without(rows, k)) == multiset(rows) - multiset{rows[k]}
  {
    assert rows == rows[..k] + [rows[k]] + rows[k + 1..];
  }

  lemma SameFirst(a: seq<Related>, b: seq<Related>)
    requires InOrder(a) && InOrder(b) && DistinctIds(a) && multiset(a) == multiset(b) && a != [] && b != []
    ensures a[0] == b[0]
  {
    assert a[0] in multiset(b) && b[0] in multiset(a);
    var i :| 0 <= i < |b| && b[i] == a[0];
    var j :| 0 <= j < |a| && a[j] == b[0];
    NotAfterIsTotal(a[0], b[0], a[0]);
    NotAfterIsTotal(a[0], a[0], a[0]);
    assert NotAfter(a[0], b[0]) && NotAfter(b[0], a[0]);
    LessIsTotal(a[0].id, b[0].id);
    DistinctIsOfRows(a, b, 0, 0);
  }

  lemma RestInOrder(rows: seq<Related>)
    requires InOrder(rows) && DistinctIds(rows) && rows != []
    ensures InOrder(rows[1..]) && DistinctIds(rows[1..]) && rows == [rows[0]] + rows[1..]
  {
  }

  lemma SameLength(a: seq<Related>, b: seq<Related>)
    requires multiset(a) == multiset(b)
    ensures |a| == |b|
  {
    assert |a| == |multiset(a)| == |multiset(b)| == |b|;
  }

  /** Rows with ids of their own have one order. */
  lemma {:induction false} OrderIsUnique(a: seq<Related>, b: seq<Related>)
    requires InOrder(a) && InOrder(b) && DistinctIds(a) && DistinctIds(b) && multiset(a) == multiset(b)
    ensures a == b
    decreases |a|
  {
    SameLength(a, b);
    if a != [] {
      SameFirst(a, b);
      RestElements(a);
      RestElements(b);
      RestInOrder(a);
      RestInOrder(b);
      OrderIsUnique(a[1..], b[1..]);
    }
  }

  lemma SameRowsDistinct(a: seq<Related>, b: seq<Related>)
    requires DistinctIds(a) && multiset(a) == multiset(b)
    ensures DistinctIds(b)
  {
    assert |a| == |multiset(a)| == |multiset(b)| == |b|;
    forall i, j | 0 <= i < j < |b| ensures b[i].id != b[j].id {
      if b[i].id == b[j].id {
        assert b[i] in multiset(b);
        var k :| 0 <= k < |a| && a[k] == b[i];
        DistinctIsOfRows(a, b, k, i);
        DistinctIsOfRows(a, b, k, j);
        TwiceInMultiset(b, i, j);
        OnceInMultiset(a, k);
      }
    }
  }

  lemma TwiceInMultiset(rows: seq<Related>, i: nat, j: nat)
    requires i < j < |rows| && rows[i] == rows[j]
    ensures multiset(rows)[rows[i]] >= 2
  {
    assert rows == rows[..j] + [rows[j]] + rows[j + 1..];
    assert rows[i] in rows[..j];
  }

  lemma OnceInMultiset(rows: seq<Related>, k: nat)
    requires DistinctIds(rows) && k < |rows|
    ensures multiset(rows)[rows[k]] == 1
  {
    assert rows == rows[..k] + [rows[k]] + rows[k + 1..];
    assert rows[k] !in rows[..k] && rows[k] !in rows[k + 1..];
  }

  lemma SameOrdered(a: seq<Related>, b: seq<Related>)
    requires DistinctIds(a) && multiset(a) == multiset(b)
    ensures Ordered(a) == Ordered(b)
  {
    OrderedIsSorting(a);
    OrderedIsSorting(b);
    SameRowsDistinct(a, Ordered(a));
    SameRowsDistinct(a, Ordered(b));
    OrderIsUnique(Ordered(a), Ordered(b));
  }

  lemma NameTaken(rows: seq<Related>, k: nat)
    requires k < |rows|
    ensures multiset(Ids(rows)) == multiset(Ids(Without(rows, k))) + multiset{rows[k].id}
  {
    assert Ids(rows) == Ids(rows[..k]) + [rows[k].id] + Ids(rows[k + 1..]);
    assert Ids(Without(rows, k)) == Ids(rows[..k]) + Ids(rows[k + 1..]);
  }

  lemma {:induction false} SameNames(a: seq<Related>, b: seq<Related>)
    requires multiset(a) == multiset(b)
    ensures multiset(Ids(a)) == multiset(Ids(b))
    decreases |a|
  {
    assert |a| == |multiset(a)| == |multiset(b)| == |b|;
    if a != [] {
      assert a[0] in multiset(b);
      var k :| 0 <= k < |b| && b[k] == a[0];
      RowTaken(a, 0);
      RowTaken(b, k);
      SameNames(Without(a, 0), Without(b, k));
      NameTaken(a, 0);
      NameTaken(b, k);
    }
  }

  lemma SameFetched(a: Tables, b: Tables, row: CaseRow)
    requires Alike(a, b) && DistinctIds(a.comments) && DistinctIds(a.evidence)
    ensures Fetched(a, row) == Fetched(b, row)
  {
    OfKeepsIdsDistinct(a.comments, row.id);
    OfKeepsIdsDistinct(a.evidence, row.id);
    SameOrdered(Of(a.comments, row.id), Of(b.comments, row.id));
    SameOrdered(Of(a.evidence, row.id), Of(b.evidence, row.id));
  }

  /** After any interleaved run from empty tables every case is shown exactly as after the serial
      run, its version is its number of audit rows, its severity, status, owner and SLA date are
      the replay of those rows, and they name its comments and evidence, each once. */
  lemma InterleavedRunsKeepAccounts(commits: seq<Commit>, after: Tables, id: string)
    requires Interleaved(Tables(map[], [], [], []), commits, after) && id in after.cases
    ensures var trail := AuditOf(after.audit, id);
            && after.cases[id].version == |trail|
            && Replayed(trail) == Some(ProfileOf(after.cases[id]))
            && multiset(CommentsNamed(trail)) == multiset(Ids(Of(after.comments, id)))
            && multiset(EvidenceNamed(trail)) == multiset(Ids(Of(after.evidence, id)))
            && |Of(after.comments, id)| == Count(trail, CommentAdded)
            && |Of(after.evidence, id)| == Count(trail, EvidenceAdded)
    ensures var serial := PerformAll(Tables(map[], [], [], []), Writes(commits));
            after.cases == serial.cases && Fetched(after, after.cases[id]) == Fetched(serial, serial.cases[id])
  {
    var serial := PerformAll(Tables(map[], [], [], []), Writes(commits));
    InterleavingDoesNotMatter(Tables(map[], [], [], []), commits, after);
    RunsKeepAccounts(Writes(commits), id);
    RunsKeepIdsDistinct(Writes(commits));
    SameFetched(serial, after, after.cases[id]);
    SameNames(Of(serial.comments, id), Of(after.comments, id));
    SameNames(Of(serial.evidence, id), Of(after.evidence, id));
    assert |Of(after.comments, id)| == |multiset(Of(after.comments, id))|;
    assert |Of(after.evidence, id)| == |multiset(Of(after.evidence, id))|;
  }
}
