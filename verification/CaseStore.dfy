/** The case repository: cases with comments, evidence and an audit trail, the version counter
    every write bumps, and the batched join that attaches comments and evidence to a page. */
module CaseStore {
  import opened Options
  import opened Ordering

  datatype CaseRow = CaseRow(
    id: string, title: string, description: string, severity: string, status: string,
    owner: Option<string>, slaDueAt: Option<int>, sourceRef: Option<string>,
    createdBy: string, createdAt: int, updatedAt: int, version: nat)

  datatype Content =
    | Comment(body: string)
    | Evidence(kind: string, source: string, reference: Option<string>, summary: string, observedAt: Option<int>)

  /** A row of `case_comments` or `case_evidence`. */
  datatype Related = Related(id: string, caseId: string, author: string, createdAt: int, content: Content)

  datatype CaseAction = CaseCreated | CaseUpdated | CommentAdded | EvidenceAdded

  /** `details_json`, as data. */
  datatype Details =
    | CreatedDetails(severity: string, owner: Option<string>, slaDueAt: Option<int>)
    | UpdatedDetails(update: Update, updatedAt: int)
    | CommentDetails(commentId: string)
    | EvidenceDetails(evidenceId: string, kind: string, source: string)

  datatype AuditEntry = AuditEntry(caseId: string, actor: string, action: CaseAction, details: Details, createdAt: int)

  datatype Tables = Tables(
    cases: map<string, CaseRow>, comments: seq<Related>, evidence: seq<Related>, audit: seq<AuditEntry>)

  datatype Error = NotFound | ConstraintFailed

  /** A column of an update request: absent, or set to a value that may be null. */
  datatype Setting<+T> = Keep | SetTo(value: Option<T>)

  datatype Update = Update(
    title: Setting<string>, description: Setting<string>, severity: Setting<string>, status: Setting<string>,
    owner: Setting<string>, slaDueAt: Setting<int>)

  predicate Empty(u: Update) {
    u == Update(Keep, Keep, Keep, Keep, Keep, Keep)
  }

  /** Four of the columns are NOT NULL. */
  predicate NullsAllowed(u: Update) {
    u.title != SetTo(None) && u.description != SetTo(None) && u.severity != SetTo(None) && u.status != SetTo(None)
  }

  function Chosen<T>(setting: Setting<T>, current: T): T {
    if setting.SetTo? && setting.value.Some? then setting.value.value else current
  }

  function Updated(row: CaseRow, u: Update, now: int): CaseRow {
    row.(title := Chosen(u.title, row.title), description := Chosen(u.description, row.description),
         severity := Chosen(u.severity, row.severity), status := Chosen(u.status, row.status),
         owner := if u.owner.SetTo? then u.owner.value else row.owner,
         slaDueAt := if u.slaDueAt.SetTo? then u.slaDueAt.value else row.slaDueAt,
         updatedAt := now, version := row.version + 1)
  }

  /** A new case as requested; the SLA date and the default are optional. */
  datatype NewCase = NewCase(
    id: string, title: string, description: string, severity: string, owner: Option<string>, slaDueAt: Option<int>,
    sourceRef: Option<string>, createdBy: string, createdAt: int, slaHoursSetting: Option<int>)

  function SlaHours(setting: Option<int>): (hours: int)
    ensures 1 <= hours <= 720
  {
    var hours := if setting.Some? then setting.value else 24;
    if hours < 1 then 1 else if hours > 720 then 720 else hours
  }

  function OpenedCase(n: NewCase): CaseRow {
    var due := if n.slaDueAt.Some? then n.slaDueAt.value else n.createdAt + SlaHours(n.slaHoursSetting) * 3600;
    CaseRow(n.id, n.title, n.description, n.severity, "open", n.owner, Some(due), n.sourceRef, n.createdBy,
            n.createdAt, n.createdAt, 1)
  }

  // ---------------------------------------------------------------------------------------
  // Rows of one case
  // ---------------------------------------------------------------------------------------

  function Of(rows: seq<Related>, id: string): (out: seq<Related>)
    ensures |out| <= |rows|
  {
    if rows == [] then [] else
      var n := |rows| - 1;
      Of(rows[..n], id) + if rows[n].caseId == id then [rows[n]] else []
  }

  function AuditOf(audit: seq<AuditEntry>, id: string): seq<AuditEntry> {
    if audit == [] then [] else
      var n := |audit| - 1;
      AuditOf(audit[..n], id) + if audit[n].caseId == id then [audit[n]] else []
  }

  function Count(trail: seq<AuditEntry>, action: CaseAction): nat {
    if trail == [] then 0 else
      var n := |trail| - 1;
      Count(trail[..n], action) + if trail[n].action == action then 1 else 0
  }

  function Ids(rows: seq<Related>): (ids: seq<string>)
    ensures |ids| == |rows|
  {
    seq(|rows|, i requires 0 <= i < |rows| => rows[i].id)
  }

  /** The comments a trail speaks of, in order. */
  function CommentsNamed(trail: seq<AuditEntry>): seq<string> {
    if trail == [] then [] else
      var n := |trail| - 1;
      CommentsNamed(trail[..n]) + if trail[n].details.CommentDetails? then [trail[n].details.commentId] else []
  }

  function EvidenceNamed(trail: seq<AuditEntry>): seq<string> {
    if trail == [] then [] else
      var n := |trail| - 1;
      EvidenceNamed(trail[..n]) + if trail[n].details.EvidenceDetails? then [trail[n].details.evidenceId] else []
  }

  /** The columns the audit trail tells in full. */
  datatype Profile = Profile(severity: string, status: string, owner: Option<string>, slaDueAt: Option<int>)

  function ProfileOf(row: CaseRow): Profile {
    Profile(row.severity, row.status, row.owner, row.slaDueAt)
  }

  function Followed(before: Option<Profile>, details: Details): Option<Profile> {
    match details
    case CreatedDetails(severity, owner, slaDueAt) => Some(Profile(severity, "open", owner, slaDueAt))
    case UpdatedDetails(u, _) =>
      if before.None? then None else
        var p := before.value;
        Some(Profile(Chosen(u.severity, p.severity), Chosen(u.status, p.status),
                     if u.owner.SetTo? then u.owner.value else p.owner,
                     if u.slaDueAt.SetTo? then u.slaDueAt.value else p.slaDueAt))
    case _ => before
  }

  /** Replaying a case's audit entries from nothing. */
  function Replayed(trail: seq<AuditEntry>): Option<Profile> {
    if trail == [] then None else Followed(Replayed(trail[..|trail| - 1]), trail[|trail| - 1].details)
  }

  lemma {:induction false} OfAppend(a: seq<Related>, b: seq<Related>, id: string)
    ensures Of(a + b, id) == Of(a, id) + Of(b, id)
  {
    if b == [] {
      assert a + b == a;
    } else {
      var n := |b| - 1;
      assert (a + b)[..|a| + n] == a + b[..n];
      OfAppend(a, b[..n], id);
    }
  }

  lemma AuditOfAppend(audit: seq<AuditEntry>, entry: AuditEntry, id: string)
    ensures AuditOf(audit + [entry], id)
         == if entry.caseId == id then AuditOf(audit, id) + [entry] else AuditOf(audit, id)
  {
    assert (audit + [entry])[..|audit|] == audit;
  }

  lemma OfOneMore(rows: seq<Related>, r: Related, id: string)
    ensures Of(rows + [r], id) == if r.caseId == id then Of(rows, id) + [r] else Of(rows, id)
  {
    assert (rows + [r])[..|rows|] == rows;
  }

  /** Each entry names what it records, so names can be counted. */
  predicate Telling(trail: seq<AuditEntry>) {
    forall e <- trail :: (e.action == CommentAdded <==> e.details.CommentDetails?)
                      && (e.action == EvidenceAdded <==> e.details.EvidenceDetails?)
  }

  lemma {:induction false} NamesAreCounted(trail: seq<AuditEntry>)
    requires Telling(trail)
    ensures |CommentsNamed(trail)| == Count(trail, CommentAdded)
    ensures |EvidenceNamed(trail)| == Count(trail, EvidenceAdded)
  {
    if trail != [] {
      var n := |trail| - 1;
      assert trail[n] in trail && forall e <- trail[..n] :: e in trail;
      NamesAreCounted(trail[..n]);
    }
  }

  // ---------------------------------------------------------------------------------------
  // Writes
  // ---------------------------------------------------------------------------------------

  function Touched(row: CaseRow, now: int): CaseRow {
    row.(updatedAt := now, version := row.version + 1)
  }

  predicate UsedId(rows: seq<Related>, id: string) {
    exists i | 0 <= i < |rows| :: rows[i].id == id
  }

  function CreatedEntry(row: CaseRow, now: int): AuditEntry {
    AuditEntry(row.id, row.createdBy, CaseCreated, CreatedDetails(row.severity, row.owner, row.slaDueAt), now)
  }

  function UpdatedEntry(id: string, u: Update, actor: string, updatedAt: int, now: int): AuditEntry {
    AuditEntry(id, actor, CaseUpdated, UpdatedDetails(u, updatedAt), now)
  }

  function RelatedEntry(r: Related, now: int): AuditEntry {
    match r.content
    case Comment(_) => AuditEntry(r.caseId, r.author, CommentAdded, CommentDetails(r.id), now)
    case Evidence(kind, source, _, _, _) =>
      AuditEntry(r.caseId, r.author, EvidenceAdded, EvidenceDetails(r.id, kind, source), now)
  }

  function CreateSpec(ts: Tables, n: NewCase, now: int): (Tables, Option<Error>) {
    if n.id in ts.cases then (ts, Some(ConstraintFailed)) else
      var row := OpenedCase(n);
      (ts.(cases := ts.cases[n.id := row], audit := ts.audit + [CreatedEntry(row, now)]), None)
  }

  function UpdateSpec(ts: Tables, id: string, u: Update, actor: string, updatedAt: int, now: int)
    : (Tables, Option<Error>)
  {
    if id !in ts.cases then (ts, Some(NotFound))
    else if Empty(u) then (ts, None)
    else if !NullsAllowed(u) then (ts, Some(ConstraintFailed))
    else (ts.(cases := ts.cases[id := Updated(ts.cases[id], u, updatedAt)],
              audit := ts.audit + [UpdatedEntry(id, u, actor, updatedAt, now)]), None)
  }

  /** A comment or a piece of evidence goes to its own table. */
  function Added(ts: Tables, r: Related): Tables {
    if r.content.Comment? then ts.(comments := ts.comments + [r]) else ts.(evidence := ts.evidence + [r])
  }

  function AddSpec(ts: Tables, r: Related, now: int): (Tables, Option<Error>) {
    if r.caseId !in ts.cases then (ts, Some(NotFound))
    else if UsedId(if r.content.Comment? then ts.comments else ts.evidence, r.id) then (ts, Some(ConstraintFailed))
    else (Added(ts, r).(cases := ts.cases[r.caseId := Touched(ts.cases[r.caseId], r.createdAt)],
                        audit := ts.audit + [RelatedEntry(r, now)]), None)
  }

  // ---------------------------------------------------------------------------------------
  // The audit trail tells the case
  // ---------------------------------------------------------------------------------------

  /** The row and the related rows of one case are what its audit trail tells. */
  ghost predicate Told(row: CaseRow, comments: seq<Related>, evidence: seq<Related>, trail: seq<AuditEntry>) {
    && row.version == |trail|
    && Replayed(trail) == Some(ProfileOf(row))
    && CommentsNamed(trail) == Ids(comments) && EvidenceNamed(trail) == Ids(evidence)
    && Telling(trail)
  }

  ghost predicate SettledAt(ts: Tables, id: string) {
    if id in ts.cases then
      ts.cases[id].id == id && Told(ts.cases[id], Of(ts.comments, id), Of(ts.evidence, id), AuditOf(ts.audit, id))
    else
      AuditOf(ts.audit, id) == [] && Of(ts.comments, id) == [] && Of(ts.evidence, id) == []
  }

  ghost predicate Inv(ts: Tables) {
    forall id :: SettledAt(ts, id)
  }

  datatype Write =
    | Create(newCase: NewCase, now: int)
    | Change(id: string, update: Update, actor: string, updatedAt: int, now: int)
    | Add(related: Related, now: int)

  function Perform(ts: Tables, w: Write): Tables {
    match w
    case Create(n, now) => CreateSpec(ts, n, now).0
    case Change(id, u, actor, updatedAt, now) => UpdateSpec(ts, id, u, actor, updatedAt, now).0
    case Add(r, now) => AddSpec(ts, r, now).0
  }

  function PerformAll(ts: Tables, writes: seq<Write>): Tables {
    if writes == [] then ts else Perform(PerformAll(ts, writes[..|writes| - 1]), writes[|writes| - 1])
  }

  lemma TrailGrows(trail: seq<AuditEntry>, entry: AuditEntry)
    ensures Replayed(trail + [entry]) == Followed(Replayed(trail), entry.details)
    ensures CommentsNamed(trail + [entry])
         == CommentsNamed(trail) + if entry.details.CommentDetails? then [entry.details.commentId] else []
    ensures EvidenceNamed(trail + [entry])
         == EvidenceNamed(trail) + if entry.details.EvidenceDetails? then [entry.details.evidenceId] else []
  {
    assert (trail + [entry])[..|trail|] == trail;
  }

  lemma OpenedIsTold(n: NewCase, now: int)
    ensures Told(OpenedCase(n), [], [], [CreatedEntry(OpenedCase(n), now)])
  {
    TrailGrows([], CreatedEntry(OpenedCase(n), now));
    assert [] + [CreatedEntry(OpenedCase(n), now)] == [CreatedEntry(OpenedCase(n), now)];
  }

  lemma UpdateIsTold(row: CaseRow, comments: seq<Related>, evidence: seq<Related>, trail: seq<AuditEntry>, u: Update,
                     actor: string, updatedAt: int, now: int)
    requires Told(row, comments, evidence, trail)
    ensures Told(Updated(row, u, updatedAt), comments, evidence,
                 trail + [UpdatedEntry(row.id, u, actor, updatedAt, now)])
  {
    TrailGrows(trail, UpdatedEntry(row.id, u, actor, updatedAt, now));
  }

  lemma AdditionIsTold(row: CaseRow, comments: seq<Related>, evidence: seq<Related>, trail: seq<AuditEntry>,
                       r: Related, now: int)
    requires Told(row, comments, evidence, trail)
    ensures Told(Touched(row, r.createdAt), if r.content.Comment? then comments + [r] else comments,
                 if r.content.Comment? then evidence else evidence + [r], trail + [RelatedEntry(r, now)])
  {
    TrailGrows(trail, RelatedEntry(r, now));
    assert Ids(comments + [r]) == Ids(comments) + [r.id];
    assert Ids(evidence + [r]) == Ids(evidence) + [r.id];
  }

  lemma CreateKeeps(ts: Tables, n: NewCase, now: int, id: string)
    requires Inv(ts) && n.id !in ts.cases
    ensures SettledAt(CreateSpec(ts, n, now).0, id)
  {
    var entry := CreatedEntry(OpenedCase(n), now);
    assert SettledAt(ts, id);
    AuditOfAppend(ts.audit, entry, id);
    OpenedIsTold(n, now);
    assert [] + [entry] == [entry];
  }

  lemma ChangedCaseIsTold(ts: Tables, id: string, u: Update, actor: string, updatedAt: int, now: int)
    requires SettledAt(ts, id) && id in ts.cases && !Empty(u) && NullsAllowed(u)
    ensures SettledAt(UpdateSpec(ts, id, u, actor, updatedAt, now).0, id)
  {
    var entry, after := UpdatedEntry(id, u, actor, updatedAt, now), UpdateSpec(ts, id, u, actor, updatedAt, now).0;
    AuditOfAppend(ts.audit, entry, id);
    var row, trail := ts.cases[id], AuditOf(ts.audit, id);
    UpdateIsTold(row, Of(ts.comments, id), Of(ts.evidence, id), trail, u, actor, updatedAt, now);
    assert after.cases[id] == Updated(row, u, updatedAt) && AuditOf(after.audit, id) == trail + [entry];
  }

  lemma ChangeKeeps(ts: Tables, target: string, u: Update, actor: string, updatedAt: int, now: int, id: string)
    requires SettledAt(ts, id)
    ensures SettledAt(UpdateSpec(ts, target, u, actor, updatedAt, now).0, id)
  {
    if target in ts.cases && !Empty(u) && NullsAllowed(u) {
      if id == target {
        ChangedCaseIsTold(ts, id, u, actor, updatedAt, now);
      } else {
        AuditOfAppend(ts.audit, UpdatedEntry(target, u, actor, updatedAt, now), id);
      }
    }
  }

  /** An addition that goes through. */
  predicate Adds(ts: Tables, r: Related) {
    r.caseId in ts.cases && !UsedId(if r.content.Comment? then ts.comments else ts.evidence, r.id)
  }

  lemma OtherCaseStays(ts: Tables, r: Related, now: int, id: string)
    requires SettledAt(ts, id) && Adds(ts, r) && id != r.caseId
    ensures SettledAt(AddSpec(ts, r, now).0, id)
  {
    AuditOfAppend(ts.audit, RelatedEntry(r, now), id);
    OfOneMore(ts.comments, r, id);
    OfOneMore(ts.evidence, r, id);
  }

  lemma OwnCaseGrows(ts: Tables, r: Related, now: int)
    requires SettledAt(ts, r.caseId) && Adds(ts, r)
    ensures SettledAt(AddSpec(ts, r, now).0, r.caseId)
  {
    var id, after := r.caseId, AddSpec(ts, r, now).0;
    AuditOfAppend(ts.audit, RelatedEntry(r, now), id);
    OfOneMore(ts.comments, r, id);
    OfOneMore(ts.evidence, r, id);
    var row, comments, evidence := ts.cases[id], Of(ts.comments, id), Of(ts.evidence, id);
    AdditionIsTold(row, comments, evidence, AuditOf(ts.audit, id), r, now);
    assert AuditOf(after.audit, id) == AuditOf(ts.audit, id) + [RelatedEntry(r, now)];
    assert Of(after.comments, id) == if r.content.Comment? then comments + [r] else comments;
    assert Of(after.evidence, id) == if r.content.Comment? then evidence else evidence + [r];
  }

  lemma AddKeeps(ts: Tables, r: Related, now: int, id: string)
    requires SettledAt(ts, id)
    ensures SettledAt(AddSpec(ts, r, now).0, id)
  {
    if Adds(ts, r) {
      if id == r.caseId {
        OwnCaseGrows(ts, r, now);
      } else {
        OtherCaseStays(ts, r, now, id);
      }
    }
  }

  /** Every write keeps every case as its audit trail tells it. */
  lemma WriteKeepsAccounts(ts: Tables, w: Write)
    requires Inv(ts)
    ensures Inv(Perform(ts, w))
  {
    forall id ensures SettledAt(Perform(ts, w), id) {
      assert SettledAt(ts, id);
      match w {
        case Create(n, now) => if n.id !in ts.cases { CreateKeeps(ts, n, now, id); }
        case Change(target, u, actor, updatedAt, now) => ChangeKeeps(ts, target, u, actor, updatedAt, now, id);
        case Add(r, now) => AddKeeps(ts, r, now, id);
      }
    }
  }

  lemma {:induction false} RunKeepsInv(ts: Tables, writes: seq<Write>)
    requires Inv(ts)
    ensures Inv(PerformAll(ts, writes))
  {
    if writes != [] {
      RunKeepsInv(ts, writes[..|writes| - 1]);
      WriteKeepsAccounts(PerformAll(ts, writes[..|writes| - 1]), writes[|writes| - 1]);
    }
  }

  /** After any run from empty tables a case's version is its number of audit rows, its severity,
      status, owner and SLA date are the replay of those rows, and they name its comments and its
      evidence one by one, in order. */
  lemma RunsKeepAccounts(writes: seq<Write>, id: string)
    ensures var ts := PerformAll(Tables(map[], [], [], []), writes);
            var trail := AuditOf(ts.audit, id);
            id in ts.cases ==>
              && ts.cases[id].version == |trail|
              && Replayed(trail) == Some(ProfileOf(ts.cases[id]))
              && CommentsNamed(trail) == Ids(Of(ts.comments, id))
              && EvidenceNamed(trail) == Ids(Of(ts.evidence, id))
              && |Of(ts.comments, id)| == Count(trail, CommentAdded)
              && |Of(ts.evidence, id)| == Count(trail, EvidenceAdded)
  {
    var empty := Tables(map[], [], [], []);
    assert Inv(empty);
    RunKeepsInv(empty, writes);
    var ts := PerformAll(empty, writes);
    assert SettledAt(ts, id);
    if id in ts.cases {
      NamesAreCounted(AuditOf(ts.audit, id));
    }
  }

  // ---------------------------------------------------------------------------------------
  // ORDER BY created_at ASC, id ASC
  // ---------------------------------------------------------------------------------------

  predicate NotAfter(a: Related, b: Related) {
    a.createdAt < b.createdAt || (a.createdAt == b.createdAt && !Less(b.id, a.id))
  }

  lemma NotAfterIsTotal(a: Related, b: Related, c: Related)
    ensures NotAfter(a, b) || NotAfter(b, a)
    ensures NotAfter(a, b) && NotAfter(b, c) ==> NotAfter(a, c)
  {
    LessIsTotal(a.id, b.id);
    LessIsTotal(b.id, c.id);
    LessIsTotal(a.id, c.id);
    if Less(a.id, b.id) && Less(b.id, c.id) { LessIsTransitive(a.id, b.id, c.id); }
  }

  predicate InOrder(rows: seq<Related>) {
    forall i, j | 0 <= i < j < |rows| :: NotAfter(rows[i], rows[j])
  }

  function Place(sorted: seq<Related>, r: Related): seq<Related> {
    if sorted == [] then [r]
    else if NotAfter(sorted[0], r) then [sorted[0]] + Place(sorted[1..], r)
    else [r] + sorted
  }

  function Ordered(rows: seq<Related>): seq<Related> {
    if rows == [] then [] else Place(Ordered(rows[..|rows| - 1]), rows[|rows| - 1])
  }

  lemma {:induction false} PlaceKeepsRows(sorted: seq<Related>, r: Related)
    ensures multiset(Place(sorted, r)) == multiset(sorted) + multiset{r}
  {
    if sorted != [] {
      assert sorted == [sorted[0]] + sorted[1..];
      if NotAfter(sorted[0], r) {
        PlaceKeepsRows(sorted[1..], r);
      }
    }
  }

  lemma {:induction false} PlaceKeepsOrder(sorted: seq<Related>, r: Related)
    requires InOrder(sorted)
    ensures InOrder(Place(sorted, r))
  {
    if sorted != [] {
      NotAfterIsTotal(r, sorted[0], r);
      assert sorted == [sorted[0]] + sorted[1..];
      if NotAfter(sorted[0], r) {
        PlaceKeepsOrder(sorted[1..], r);
        var rest := Place(sorted[1..], r);
        forall j | 0 <= j < |rest| ensures NotAfter(sorted[0], rest[j]) {
          PlaceKeepsRows(sorted[1..], r);
          assert rest[j] in multiset(rest);
          assert rest[j] == r || rest[j] in sorted[1..];
        }
      } else {
        forall j | 0 <= j < |sorted| ensures NotAfter(r, sorted[j]) {
          NotAfterIsTotal(r, sorted[0], sorted[j]);
        }
      }
    }
  }

  lemma LastRow(rows: seq<Related>)
    requires rows != []
    ensures multiset(rows) == multiset(rows[..|rows| - 1]) + multiset{rows[|rows| - 1]}
  {
    assert rows == rows[..|rows| - 1] + [rows[|rows| - 1]];
  }

  lemma {:induction false} OrderedKeepsRows(rows: seq<Related>)
    ensures multiset(Ordered(rows)) == multiset(rows)
  {
    if rows != [] {
      var n := |rows| - 1;
      OrderedKeepsRows(rows[..n]);
      PlaceKeepsRows(Ordered(rows[..n]), rows[n]);
      LastRow(rows);
    }
  }

  /** Ordering keeps each row exactly once and lists the rows in order. */
  lemma {:induction false} OrderedIsSorting(rows: seq<Related>)
    ensures InOrder(Ordered(rows)) && multiset(Ordered(rows)) == multiset(rows)
  {
    OrderedKeepsRows(rows);
    if rows != [] {
      OrderedIsSorting(rows[..|rows| - 1]);
      PlaceKeepsOrder(Ordered(rows[..|rows| - 1]), rows[|rows| - 1]);
    }
  }

  lemma {:induction false} OfMembers(rows: seq<Related>, id: string)
    ensures forall r <- Of(rows, id) :: r in rows && r.caseId == id
  {
    if rows != [] {
      OfMembers(rows[..|rows| - 1], id);
    }
  }

  function Mine(r: Related, id: string): seq<Related> {
    if r.caseId == id then [r] else []
  }

  lemma OfCons(first: Related, rest: seq<Related>, id: string)
    ensures Of([first] + rest, id) == Mine(first, id) + Of(rest, id)
  {
    OfAppend([first], rest, id);
    assert Of([first], id) == Mine(first, id) by {
      OfOneMore([], first, id);
      assert [] + [first] == [first];
    }
  }

  /** A row that precedes a whole ordered table is placed in front of any part of it. */
  lemma PlaceInFront(sorted: seq<Related>, r: Related, id: string)
    requires InOrder(sorted) && sorted != [] && !NotAfter(sorted[0], r)
    ensures Place(Of(sorted, id), r) == [r] + Of(sorted, id)
  {
    if Of(sorted, id) != [] {
      OfMembers(sorted, id);
      var f := Of(sorted, id)[0];
      assert f in sorted;
      NotAfterIsTotal(sorted[0], f, r);
    }
  }

  /** Restricting an ordered table to a case commutes with placing a row. */
  lemma {:induction false} OfPlace(sorted: seq<Related>, r: Related, id: string)
    requires InOrder(sorted)
    ensures Of(Place(sorted, r), id) == if r.caseId == id then Place(Of(sorted, id), r) else Of(sorted, id)
  {
    if sorted == [] {
      assert [r][..0] == [];
    } else {
      var first, rest := sorted[0], sorted[1..];
      assert sorted == [first] + rest;
      if NotAfter(first, r) {
        OfPlace(rest, r, id);
        OfCons(first, rest, id);
        OfCons(first, Place(rest, r), id);
        assert first.caseId == id ==> ([first] + Of(rest, id))[1..] == Of(rest, id);
        assert first.caseId != id ==> Mine(first, id) + Of(rest, id) == Of(rest, id);
        assert first.caseId != id ==> Mine(first, id) + Of(Place(rest, r), id) == Of(Place(rest, r), id);
      } else {
        OfCons(r, sorted, id);
        PlaceInFront(sorted, r, id);
        assert r.caseId != id ==> Mine(r, id) + Of(sorted, id) == Of(sorted, id);
      }
    }
  }

  lemma {:induction false} OfOrdered(rows: seq<Related>, id: string)
    ensures Of(Ordered(rows), id) == Ordered(Of(rows, id))
  {
    if rows != [] {
      var n := |rows| - 1;
      OfOrdered(rows[..n], id);
      OrderedIsSorting(rows[..n]);
      OfPlace(Ordered(rows[..n]), rows[n], id);
      var mine := Of(rows[..n], id);
      if rows[n].caseId == id {
        assert (mine + [rows[n]])[..|mine|] == mine;
      } else {
        assert mine + [] == mine;
      }
    }
  }

  // ---------------------------------------------------------------------------------------
  // The batched join
  // ---------------------------------------------------------------------------------------

  datatype CaseView = CaseView(row: CaseRow, comments: seq<Related>, evidence: seq<Related>)

  /** What one case shows when it is fetched alone. */
  function Fetched(ts: Tables, row: CaseRow): CaseView {
    CaseView(row, Ordered(Of(ts.comments, row.id)), Ordered(Of(ts.evidence, row.id)))
  }

  /** WHERE case_id IN (..). */
  function Selected(rows: seq<Related>, ids: seq<string>): seq<Related> {
    if rows == [] then [] else
      var n := |rows| - 1;
      Selected(rows[..n], ids) + if rows[n].caseId in ids then [rows[n]] else []
  }

  lemma {:induction false} OfSelected(rows: seq<Related>, ids: seq<string>, id: string)
    requires id in ids
    ensures Of(Selected(rows, ids), id) == Of(rows, id)
  {
    if rows != [] {
      var n := |rows| - 1;
      OfSelected(rows[..n], ids, id);
      OfAppend(Selected(rows[..n], ids), if rows[n].caseId in ids then [rows[n]] else [], id);
    }
  }

  lemma {:induction false} SelectedMembers(rows: seq<Related>, ids: seq<string>)
    ensures forall r <- Selected(rows, ids) :: r.caseId in ids
  {
    if rows != [] {
      SelectedMembers(rows[..|rows| - 1], ids);
    }
  }

  lemma AnswerNamesCases(rows: seq<Related>, ids: seq<string>)
    ensures forall k | 0 <= k < |Ordered(Selected(rows, ids))| :: Ordered(Selected(rows, ids))[k].caseId in ids
  {
    var answer := Ordered(Selected(rows, ids));
    OrderedKeepsRows(Selected(rows, ids));
    SelectedMembers(rows, ids);
    forall k | 0 <= k < |answer| ensures answer[k].caseId in ids {
      assert answer[k] in multiset(answer);
      assert answer[k] in Selected(rows, ids);
    }
  }

  lemma AnswerOfCase(rows: seq<Related>, ids: seq<string>, id: string)
    requires id in ids
    ensures Of(Ordered(Selected(rows, ids)), id) == Ordered(Of(rows, id))
  {
    OfOrdered(Selected(rows, ids), id);
    OfSelected(rows, ids, id);
  }

  method EmptyLists(ids: seq<string>) returns (byId: map<string, seq<Related>>)
    ensures forall id <- ids :: id in byId && byId[id] == []
  {
    byId := map[];
    for k := 0 to |ids|
      invariant forall i | 0 <= i < k :: ids[i] in byId
      invariant forall id <- byId :: byId[id] == []
    {
      byId := byId[ids[k] := []];
    }
  }

  /** One query for a page of cases, its rows appended to the list of the case they name. */
  method Attach(rows: seq<Related>, ids: seq<string>) returns (byId: map<string, seq<Related>>)
    ensures forall id <- ids :: id in byId && byId[id] == Ordered(Of(rows, id))
  {
    var answer := Ordered(Selected(rows, ids));
    AnswerNamesCases(rows, ids);
    byId := EmptyLists(ids);
    for k := 0 to |answer|
      invariant forall id <- ids :: id in byId && byId[id] == Of(answer[..k], id)
    {
      OfGrows(answer, k);
      byId := byId[answer[k].caseId := byId[answer[k].caseId] + [answer[k]]];
    }
    assert answer[..|answer|] == answer;
    forall id <- ids ensures byId[id] == Ordered(Of(rows, id)) {
      AnswerOfCase(rows, ids, id);
    }
  }

  lemma OfGrows(rows: seq<Related>, k: nat)
    requires k < |rows|
    ensures forall id :: Of(rows[..k + 1], id)
                      == if rows[k].caseId == id then Of(rows[..k], id) + [rows[k]] else Of(rows[..k], id)
  {
    assert rows[..k + 1][..k] == rows[..k];
  }

  /** A later entry of the page has the same id; `by_id` gives the rows to that one. */
  predicate Repeated(page: seq<CaseRow>, i: nat)
    requires i < |page|
  {
    exists j :: i < j < |page| && page[j].id == page[i].id
  }

  class CaseRepository {
    var cases: map<string, CaseRow>
    var comments: seq<Related>
    var evidence: seq<Related>
    var audit: seq<AuditEntry>
    /** The tables as they were when the connection was opened. */
    var saved: Tables

    constructor ()
      ensures Contents() == Tables(map[], [], [], [])
    {
      cases, comments, evidence, audit := map[], [], [], [];
      saved := Tables(map[], [], [], []);
    }

    function Contents(): Tables
      reads this
    {
      Tables(cases, comments, evidence, audit)
    }

    method Begin()
      modifies this
      ensures Contents() == old(Contents()) && saved == old(Contents())
    {
      saved := Tables(cases, comments, evidence, audit);
    }

    /** Leaving the connection: commit, or roll back when an exception is passing through. */
    method Exit(raising: bool)
      modifies this
      ensures Contents() == if raising then old(saved) else old(Contents())
    {
      if raising {
        cases, comments, evidence, audit := saved.cases, saved.comments, saved.evidence, saved.audit;
      }
    }

    method Audit(entry: AuditEntry)
      modifies this`audit
      ensures audit == old(audit) + [entry]
    {
      audit := audit + [entry];
    }

    method Create(n: NewCase, now: int) returns (error: Option<Error>)
      modifies this
      ensures (Contents(), error) == CreateSpec(old(Contents()), n, now)
    {
      Begin();
      if n.id in cases {
        Exit(true);
        return Some(ConstraintFailed);
      }
      cases := cases[n.id := OpenedCase(n)];
      Audit(CreatedEntry(OpenedCase(n), now));
      Exit(false);
      error := None;
    }

    method Change(id: string, u: Update, actor: string, updatedAt: int, now: int) returns (error: Option<Error>)
      modifies this
      ensures (Contents(), error) == UpdateSpec(old(Contents()), id, u, actor, updatedAt, now)
    {
      if Empty(u) {
        return if id in cases then None else Some(NotFound);
      }
      Begin();
      if id !in cases {
        Exit(true);
        return Some(NotFound);
      }
      if !NullsAllowed(u) {
        Exit(true);
        return Some(ConstraintFailed);
      }
      cases := cases[id := Updated(cases[id], u, updatedAt)];
      Audit(UpdatedEntry(id, u, actor, updatedAt, now));
      Exit(false);
      error := None;
    }

    method AddComment(r: Related, now: int) returns (error: Option<Error>)
      requires r.content.Comment?
      modifies this
      ensures (Contents(), error) == AddSpec(old(Contents()), r, now)
    {
      Begin();
      if r.caseId !in cases {
        Exit(true);
        return Some(NotFound);
      }
      if UsedId(comments, r.id) {
        Exit(true);
        return Some(ConstraintFailed);
      }
      comments := comments + [r];
      cases := cases[r.caseId := Touched(cases[r.caseId], r.createdAt)];
      Audit(RelatedEntry(r, now));
      Exit(false);
      error := None;
    }

    method AddEvidence(r: Related, now: int) returns (error: Option<Error>)
      requires r.content.Evidence?
      modifies this
      ensures (Contents(), error) == AddSpec(old(Contents()), r, now)
    {
      Begin();
      if r.caseId !in cases {
        Exit(true);
        return Some(NotFound);
      }
      if UsedId(evidence, r.id) {
        Exit(true);
        return Some(ConstraintFailed);
      }
      evidence := evidence + [r];
      cases := cases[r.caseId := Touched(cases[r.caseId], r.createdAt)];
      Audit(RelatedEntry(r, now));
      Exit(false);
      error := None;
    }

    /** `_include_related`: two queries for a whole page. */
    method IncludeRelated(page: seq<CaseRow>) returns (views: seq<CaseView>)
      ensures |views| == |page|
      ensures forall i | 0 <= i < |page| ::
                views[i] == if Repeated(page, i) then CaseView(page[i], [], []) else Fetched(Contents(), page[i])
    {
      if page == [] {
        return [];
      }
      var ids := seq(|page|, i requires 0 <= i < |page| => page[i].id);
      var commentsById := Attach(comments, ids);
      var evidenceById := Attach(evidence, ids);
      views := [];
      for k := 0 to |page|
        invariant |views| == k
        invariant forall i | 0 <= i < k ::
                    views[i] == if Repeated(page, i) then CaseView(page[i], [], []) else Fetched(Contents(), page[i])
      {
        assert ids[k] in ids;
        views := views + [if Repeated(page, k) then CaseView(page[k], [], [])
                          else CaseView(page[k], commentsById[page[k].id], evidenceById[page[k].id])];
      }
    }

    /** `get` shows a case exactly as any page of `list` that contains it does. */
    method Get(id: string) returns (result: Result<CaseView, Error>)
      ensures result == if id in cases then Ok(Fetched(Contents(), cases[id])) else Err(NotFound)
    {
      if id !in cases {
        return Err(NotFound);
      }
      var views := IncludeRelated([cases[id]]);
      result := Ok(views[0]);
    }
  }
}
