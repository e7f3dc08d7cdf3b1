/** What each write of the case repository stores, column by column, and what a case shows. */
module CaseOutcomes {
  import opened Options
  import opened Ordering
  import opened CaseStore

  ghost predicate OnlyCase(before: Tables, id: string, after: Tables) {
    forall other | other != id ::
      && (other in after.cases <==> other in before.cases)
      && (other in before.cases ==> after.cases[other] == before.cases[other])
  }

  /** One audit row is added, and of the cases at most the named one changes. */
  ghost predicate Audited(before: Tables, entry: AuditEntry, after: Tables) {
    && OnlyCase(before, entry.caseId, after) && entry.caseId in after.cases
    && |after.audit| == |before.audit| + 1
    && after.audit[..|before.audit|] == before.audit && after.audit[|before.audit|] == entry
  }

  // ---------------------------------------------------------------------------------------
  // Opening
  // ---------------------------------------------------------------------------------------

  /** The default SLA: 24 hours unless configured, at least one hour and at most thirty days. */
  predicate DefaultHours(setting: Option<int>, hours: int) {
    && 1 <= hours <= 30 * 24
    && (setting.None? ==> hours == 24)
    && (setting.Some? && 1 <= setting.value <= 30 * 24 ==> hours == setting.value)
    && (setting.Some? && setting.value < 1 ==> hours == 1)
    && (setting.Some? && setting.value > 30 * 24 ==> hours == 30 * 24)
  }

  ghost predicate DueAt(n: NewCase, due: int) {
    match n.slaDueAt
    case Some(requested) => due == requested
    case None => exists hours | 1 <= hours <= 720 :: DefaultHours(n.slaHoursSetting, hours)
                                                     && due == n.createdAt + hours * 60 * 60
  }

  ghost predicate Opens(before: Tables, n: NewCase, now: int, after: Tables, error: Option<Error>) {
    if n.id in before.cases then after == before && error == Some(ConstraintFailed) else
      && error == None && n.id in after.cases
      && var row := after.cases[n.id];
      && row.id == n.id && row.title == n.title && row.description == n.description && row.severity == n.severity
      && row.status == "open" && row.owner == n.owner && row.sourceRef == n.sourceRef
      && row.createdBy == n.createdBy && row.createdAt == n.createdAt && row.updatedAt == n.createdAt
      && row.version == 1
      && row.slaDueAt.Some? && DueAt(n, row.slaDueAt.value)
      && after.comments == before.comments && after.evidence == before.evidence
      && Audited(before, AuditEntry(n.id, n.createdBy, CaseCreated,
                                    CreatedDetails(n.severity, n.owner, row.slaDueAt), now), after)
  }

  lemma CreateOpens(ts: Tables, n: NewCase, now: int)
    ensures Opens(ts, n, now, CreateSpec(ts, n, now).0, CreateSpec(ts, n, now).1)
  {
    if n.id !in ts.cases && n.slaDueAt.None? {
      var hours := SlaHours(n.slaHoursSetting);
      assert DefaultHours(n.slaHoursSetting, hours);
    }
  }

  // ---------------------------------------------------------------------------------------
  // Changing
  // ---------------------------------------------------------------------------------------

  /** A column that may not be null: absent from the request it stays, else it takes the value. */
  predicate Takes<T(==)>(setting: Setting<T>, before: T, after: T) {
    match setting
    case Keep => after == before
    case SetTo(value) => value == Some(after)
  }

  /** A column that may be null. */
  predicate TakesAny<T(==)>(setting: Setting<T>, before: Option<T>, after: Option<T>) {
    match setting
    case Keep => after == before
    case SetTo(value) => after == value
  }

  predicate NamesNothing(u: Update) {
    u.title.Keep? && u.description.Keep? && u.severity.Keep? && u.status.Keep? && u.owner.Keep? && u.slaDueAt.Keep?
  }

  predicate IsNull<T(==)>(setting: Setting<T>) {
    setting.SetTo? && setting.value.None?
  }

  ghost predicate Changes(before: Tables, id: string, u: Update, actor: string, updatedAt: int, now: int, after: Tables,
                    error: Option<Error>) {
    if id !in before.cases then after == before && error == Some(NotFound)
    else if NamesNothing(u) then after == before && error == None
    else if IsNull(u.title) || IsNull(u.description) || IsNull(u.severity) || IsNull(u.status) then
      after == before && error == Some(ConstraintFailed)
    else
      && error == None && id in after.cases
      && var was, row := before.cases[id], after.cases[id];
      && Takes(u.title, was.title, row.title) && Takes(u.description, was.description, row.description)
      && Takes(u.severity, was.severity, row.severity) && Takes(u.status, was.status, row.status)
      && TakesAny(u.owner, was.owner, row.owner) && TakesAny(u.slaDueAt, was.slaDueAt, row.slaDueAt)
      && row.id == was.id && row.sourceRef == was.sourceRef && row.createdBy == was.createdBy
      && row.createdAt == was.createdAt && row.updatedAt == updatedAt && row.version == was.version + 1
      && after.comments == before.comments && after.evidence == before.evidence
      && Audited(before, AuditEntry(id, actor, CaseUpdated, UpdatedDetails(u, updatedAt), now), after)
  }

  lemma UpdateChanges(ts: Tables, id: string, u: Update, actor: string, updatedAt: int, now: int)
    ensures Changes(ts, id, u, actor, updatedAt, now, UpdateSpec(ts, id, u, actor, updatedAt, now).0,
                    UpdateSpec(ts, id, u, actor, updatedAt, now).1)
  {
  }

  // ---------------------------------------------------------------------------------------
  // Adding
  // ---------------------------------------------------------------------------------------

  predicate AppendedTo(before: seq<Related>, r: Related, after: seq<Related>) {
    |after| == |before| + 1 && after[..|before|] == before && after[|before|] == r
  }

  ghost predicate Adds(before: Tables, r: Related, now: int, after: Tables, error: Option<Error>) {
    if r.caseId !in before.cases then after == before && error == Some(NotFound)
    else if exists i | 0 <= i < |Same(before, r)| :: Same(before, r)[i].id == r.id then
      after == before && error == Some(ConstraintFailed)
    else
      && error == None && r.caseId in after.cases
      && after.cases[r.caseId] == before.cases[r.caseId].(updatedAt := r.createdAt,
                                                          version := before.cases[r.caseId].version + 1)
      && (match r.content
          case Comment(_) =>
            && AppendedTo(before.comments, r, after.comments) && after.evidence == before.evidence
            && Audited(before, AuditEntry(r.caseId, r.author, CommentAdded, CommentDetails(r.id), now), after)
          case Evidence(kind, source, _, _, _) =>
            && AppendedTo(before.evidence, r, after.evidence) && after.comments == before.comments
            && Audited(before, AuditEntry(r.caseId, r.author, EvidenceAdded, EvidenceDetails(r.id, kind, source), now),
                       after))
  }

  /** The table that holds rows of the same kind. */
  function Same(ts: Tables, r: Related): seq<Related> {
    if r.content.Comment? then ts.comments else ts.evidence
  }

  lemma AddAdds(ts: Tables, r: Related, now: int)
    ensures Adds(ts, r, now, AddSpec(ts, r, now).0, AddSpec(ts, r, now).1)
  {
    assert UsedId(Same(ts, r), r.id) <==> exists i | 0 <= i < |Same(ts, r)| :: Same(ts, r)[i].id == r.id;
  }

  // ---------------------------------------------------------------------------------------
  // Showing
  // ---------------------------------------------------------------------------------------

  /** Earlier rows first, and of those of one second the smaller identifier. */
  predicate Earlier(a: Related, b: Related) {
    a.createdAt < b.createdAt || (a.createdAt == b.createdAt && !Less(b.id, a.id))
  }

  /** What is shown of a table for one case: its rows, each as often as it is stored, in order. */
  ghost predicate ShowsRows(rows: seq<Related>, id: string, shown: seq<Related>) {
    && (forall r :: multiset(shown)[r] == if r.caseId == id then multiset(rows)[r] else 0)
    && (forall i, j | 0 <= i < j < |shown| :: Earlier(shown[i], shown[j]))
  }

  lemma {:induction false} OfIsSelection(rows: seq<Related>, id: string, r: Related)
    ensures multiset(Of(rows, id))[r] == if r.caseId == id then multiset(rows)[r] else 0
  {
    if rows != [] {
      var n := |rows| - 1;
      OfIsSelection(rows[..n], id, r);
      assert rows == rows[..n] + [rows[n]];
    }
  }

  lemma OrderedShows(rows: seq<Related>, id: string)
    ensures ShowsRows(rows, id, Ordered(Of(rows, id)))
  {
    OrderedIsSorting(Of(rows, id));
    forall r ensures multiset(Of(rows, id))[r] == if r.caseId == id then multiset(rows)[r] else 0 {
      OfIsSelection(rows, id, r);
    }
  }

  /** A fetched case shows its row, all its comments and all its evidence. */
  lemma FetchedShows(ts: Tables, row: CaseRow)
    ensures Fetched(ts, row).row == row
    ensures ShowsRows(ts.comments, row.id, Fetched(ts, row).comments)
    ensures ShowsRows(ts.evidence, row.id, Fetched(ts, row).evidence)
  {
    OrderedShows(ts.comments, row.id);
    OrderedShows(ts.evidence, row.id);
  }
}
