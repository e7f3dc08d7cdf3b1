/** The workflow over all requests: a ledger holds every request row with its audit trail. Every
    operation of the service, atomic or interleaved, is one of three changes to a ledger, so
    what the changes keep holds at both levels. */
module Ledger {
  import opened AuditChain
  import opened Workflow

  datatype Book = Book(rows: map<string, Row>, trails: string -> seq<AuditRow>)

  /** A request of the ledger together with its trail. */
  function Past(book: Book, id: string): History
    requires id in book.rows
  {
    History(book.rows[id], book.trails(id))
  }

  datatype Change =
    | Stutter
    | Opens(row: Row, stamp: int)
    | Records(id: string, event: Event, stamp: int)

  ghost predicate KeyFree(rows: map<string, Row>, row: Row) {
    forall id <- rows :: !SameKey(rows[id], row)
  }

  ghost predicate Permitted(o: Oracles, book: Book, change: Change) {
    match change
    case Stutter => true
    case Opens(row, _) => IsOpening(o, row) && row.id !in book.rows && KeyFree(book.rows, row)
    case Records(id, event, stamp) =>
      id in book.rows && Enabled(o, book.rows[id], event) && Timely(book.rows[id], event, stamp)
  }

  /** One request has the given history and all others are as they were. */
  ghost predicate Replaced(before: Book, id: string, past: History, after: Book) {
    && after.rows == before.rows[id := past.row] && after.trails(id) == past.trail
    && forall other | other != id :: after.trails(other) == before.trails(other)
  }

  ghost predicate Applied(o: Oracles, before: Book, change: Change, after: Book) {
    match change
    case Stutter => after.rows == before.rows && forall id :: after.trails(id) == before.trails(id)
    case Opens(row, stamp) => Replaced(before, row.id, Opened(o, row, stamp), after)
    case Records(id, event, stamp) =>
      id in before.rows && Replaced(before, id, Extend(o, Past(before, id), event, stamp), after)
  }

  ghost predicate OneRowPerKey(rows: map<string, Row>) {
    forall i <- rows, j <- rows :: SameKey(rows[i], rows[j]) ==> i == j
  }

  ghost predicate Filed(o: Oracles, book: Book, id: string)
    requires id in book.rows
  {
    book.rows[id].id == id && Sound(o, Past(book, id))
  }

  ghost predicate AllFiled(o: Oracles, book: Book) {
    forall id <- book.rows :: Filed(o, book, id)
  }

  ghost predicate NoOrphans(book: Book) {
    forall id | id !in book.rows :: book.trails(id) == []
  }

  ghost predicate Consistent(o: Oracles, book: Book) {
    && AllFiled(o, book)
    && OneRowPerKey(book.rows)
    && NoOrphans(book)
  }

  /** Later ledgers keep every request: its identity columns stay, its trail only grows, and
      once its status is terminal nothing about it changes. */
  ghost predicate Carried(before: History, after: History) {
    && SameIdentity(before.row, after.row)
    && before.trail <= after.trail
    && (!Live(before.row.status) ==> after == before)
  }

  ghost predicate Continues(before: Book, after: Book) {
    forall id <- before.rows :: id in after.rows && Carried(Past(before, id), Past(after, id))
  }

  lemma ExtendCarries(o: Oracles, past: History, event: Event, stamp: int)
    requires Enabled(o, past.row, event)
    ensures Carried(past, Extend(o, past, event, stamp))
  {
  }

  lemma ReplaceKeepsKeys(rows: map<string, Row>, id: string, row: Row)
    requires OneRowPerKey(rows) && if id in rows then SameIdentity(rows[id], row) else KeyFree(rows, row)
    ensures OneRowPerKey(rows[id := row])
  {
    var after := rows[id := row];
    forall i <- after, j <- after | SameKey(after[i], after[j]) ensures i == j {
      if id in rows {
        assert SameKey(rows[i], rows[j]);
      } else {
        assert i in rows ==> !SameKey(rows[i], row);
        assert j in rows ==> !SameKey(rows[j], row);
      }
    }
  }

  lemma ReplaceKeepsFiles(o: Oracles, before: Book, id: string, past: History, after: Book)
    requires AllFiled(o, before) && NoOrphans(before) && Replaced(before, id, past, after)
    requires past.row.id == id && Sound(o, past)
    ensures AllFiled(o, after) && NoOrphans(after)
  {
    forall other <- after.rows ensures Filed(o, after, other) {
      if other != id {
        assert Filed(o, before, other);
      }
    }
  }

  lemma ReplaceContinues(before: Book, id: string, past: History, after: Book)
    requires Replaced(before, id, past, after)
    requires id in before.rows ==> Carried(Past(before, id), past)
    ensures Continues(before, after)
  {
    forall other <- before.rows ensures other in after.rows && Carried(Past(before, other), Past(after, other)) {
      if other == id {
        assert Past(after, id) == past;
      }
    }
  }

  lemma StutterKeeps(o: Oracles, before: Book, after: Book)
    requires Consistent(o, before) && Applied(o, before, Stutter, after)
    ensures Consistent(o, after) && Continues(before, after)
  {
    forall id <- after.rows ensures Filed(o, after, id) {
      assert Filed(o, before, id);
    }
  }

  /** Every permitted change keeps the ledger consistent and only moves it forward. */
  lemma ChangeKeepsConsistency(o: Oracles, before: Book, change: Change, after: Book)
    requires Consistent(o, before) && Permitted(o, before, change) && Applied(o, before, change, after)
    ensures Consistent(o, after)
    ensures Continues(before, after)
  {
    match change {
      case Stutter => StutterKeeps(o, before, after);
      case Opens(row, stamp) =>
        OpenedIsSound(o, row, stamp);
        ReplaceKeepsFiles(o, before, row.id, Opened(o, row, stamp), after);
        ReplaceKeepsKeys(before.rows, row.id, row);
        ReplaceContinues(before, row.id, Opened(o, row, stamp), after);
      case Records(id, event, stamp) =>
        var past := Extend(o, Past(before, id), event, stamp);
        assert Filed(o, before, id);
        ExtendIsSound(o, Past(before, id), event, stamp);
        ExtendCarries(o, Past(before, id), event, stamp);
        ReplaceKeepsFiles(o, before, id, past, after);
        ReplaceKeepsKeys(before.rows, id, past.row);
        ReplaceContinues(before, id, past, after);
    }
  }

  lemma ContinuesTransitive(a: Book, b: Book, c: Book)
    requires Continues(a, b) && Continues(b, c)
    ensures Continues(a, c)
  {
    forall id <- a.rows ensures id in c.rows && Carried(Past(a, id), Past(c, id)) {
      assert Carried(Past(a, id), Past(b, id)) && Carried(Past(b, id), Past(c, id));
    }
  }
}
