/** The per-request hash chain of `automation_audit`: its validity check, what its head
    commits to, and the migration that chains the rows written before hashes existed.

    SHA-256 over the canonical JSON of a row is a function parameter `h`; the lemmas that need
    it assume that `h` is injective and yields neither the genesis value nor the empty text.
    A stored timestamp is the whole second its ISO text names. */
module AuditChain {
  function Zeros(n: nat): string {
    if n == 0 then "" else Zeros(n - 1) + "0"
  }

  const GENESIS := Zeros(64)
  const CHAIN_VERSION := 1

  datatype Action =
    | RequestCreated
    | FirstApproval
    | SecondApproval
    | RequestRejected
    | RequestExpired
    | RequestDispatched
    | OtherAction(name: string)

  /** The seven columns that enter the hash. */
  datatype Payload = Payload(
    requestId: string, actor: string, action: Action, details: string, createdAt: int,
    previousHash: string, chainVersion: int)

  datatype AuditRow = AuditRow(payload: Payload, entryHash: string)

  type HashFn = Payload -> string

  ghost predicate Injective(h: HashFn) {
    forall p, q :: h(p) == h(q) ==> p == q
  }

  ghost predicate Collisionless(h: HashFn) {
    && Injective(h)
    && forall p :: h(p) != GENESIS && h(p) != ""
  }

  /** The hash the next row of a trail must name as its predecessor. */
  function Head(trail: seq<AuditRow>): string {
    if trail == [] then GENESIS else trail[|trail| - 1].entryHash
  }

  /** What `audit` reports as `chain_valid` for row i. */
  predicate Linked(h: HashFn, trail: seq<AuditRow>, i: nat)
    requires i < |trail|
  {
    && trail[i].payload.previousHash == Head(trail[..i])
    && trail[i].entryHash == h(trail[i].payload)
  }

  ghost predicate Chain(h: HashFn, trail: seq<AuditRow>) {
    forall i | 0 <= i < |trail| :: Linked(h, trail, i)
  }

  /** The rows of one request, in table order. */
  function Trail(rows: seq<AuditRow>, id: string): (trail: seq<AuditRow>)
    ensures |trail| <= |rows|
  {
    if rows == [] then [] else
      var n := |rows| - 1;
      if rows[n].payload.requestId == id then Trail(rows[..n], id) + [rows[n]] else Trail(rows[..n], id)
  }

  lemma TrailAppend(rows: seq<AuditRow>, row: AuditRow, id: string)
    ensures Trail(rows + [row], id)
         == if row.payload.requestId == id then Trail(rows, id) + [row] else Trail(rows, id)
  {
    assert (rows + [row])[..|rows|] == rows;
  }

  lemma {:induction false} TrailShows(rows: seq<AuditRow>, k: nat) returns (i: nat)
    requires k < |rows|
    ensures i < |Trail(rows, rows[k].payload.requestId)|
    ensures Trail(rows, rows[k].payload.requestId)[i] == rows[k]
  {
    var n := |rows| - 1;
    if k == n {
      i := |Trail(rows[..n], rows[n].payload.requestId)|;
    } else {
      i := TrailShows(rows[..n], k);
    }
  }

  lemma {:induction false} TrailComesFromTable(rows: seq<AuditRow>, id: string, i: nat) returns (k: nat)
    requires i < |Trail(rows, id)|
    ensures k < |rows| && rows[k] == Trail(rows, id)[i] && rows[k].payload.requestId == id
  {
    var n := |rows| - 1;
    if i < |Trail(rows[..n], id)| {
      k := TrailComesFromTable(rows[..n], id, i);
    } else {
      k := n;
    }
  }

  lemma ChainAppend(h: HashFn, trail: seq<AuditRow>, row: AuditRow)
    requires Chain(h, trail)
    requires row.payload.previousHash == Head(trail) && row.entryHash == h(row.payload)
    ensures Chain(h, trail + [row])
  {
    forall i | 0 <= i < |trail| + 1 ensures Linked(h, trail + [row], i) {
      assert (trail + [row])[..i] == trail[..i];
      if i < |trail| {
        assert Linked(h, trail, i);
      } else {
        assert trail[..i] == trail;
      }
    }
  }

  lemma HeadNext(rows: seq<AuditRow>, k: nat)
    requires k < |rows|
    ensures Head(rows[..k + 1]) == rows[k].entryHash
  {
    assert rows[..k + 1][k] == rows[k];
  }

  /** The loop of `audit`: it carries the hash the next row should name. */
  method CheckTrail(h: HashFn, rows: seq<AuditRow>) returns (valid: seq<bool>)
    ensures |valid| == |rows|
    ensures forall i | 0 <= i < |rows| :: valid[i] <==> Linked(h, rows, i)
  {
    valid := [];
    var expectedPreviousHash := GENESIS;
    for k := 0 to |rows|
      invariant |valid| == k
      invariant expectedPreviousHash == Head(rows[..k])
      invariant forall i | 0 <= i < k :: valid[i] <==> Linked(h, rows, i)
    {
      var row := rows[k];
      var ok := row.payload.previousHash == expectedPreviousHash && row.entryHash == h(row.payload);
      assert ok <==> Linked(h, rows, k);
      valid := valid + [ok];
      expectedPreviousHash := row.entryHash;
      HeadNext(rows, k);
    }
  }

  /** Reading only the first rows reports the same verdict for each of them. */
  lemma LimitKeepsVerdicts(h: HashFn, trail: seq<AuditRow>, limit: nat, i: nat)
    requires i < limit <= |trail|
    ensures Linked(h, trail[..limit], i) <==> Linked(h, trail, i)
  {
    assert trail[..limit][..i] == trail[..i];
  }

  lemma SplitLast(trail: seq<AuditRow>)
    requires trail != []
    ensures trail == trail[..|trail| - 1] + [trail[|trail| - 1]]
  {
  }

  /** Two fully valid trails, of whatever lengths, with the same head are the same trail. */
  lemma {:induction false} HeadCommitsToHistory(h: HashFn, a: seq<AuditRow>, b: seq<AuditRow>)
    requires Collisionless(h)
    requires Chain(h, a) && Chain(h, b)
    requires Head(a) == Head(b)
    ensures a == b
    decreases |a|
  {
    if a == [] || b == [] {
      assert a != [] ==> Linked(h, a, |a| - 1);
      assert b != [] ==> Linked(h, b, |b| - 1);
    } else {
      var m, n := |a| - 1, |b| - 1;
      assert Linked(h, a, m) && Linked(h, b, n);
      assert a[m] == b[n];
      ChainPrefix(h, a, m);
      ChainPrefix(h, b, n);
      HeadCommitsToHistory(h, a[..m], b[..n]);
      SplitLast(a);
      SplitLast(b);
    }
  }

  lemma ChainPrefix(h: HashFn, trail: seq<AuditRow>, n: nat)
    requires Chain(h, trail) && n <= |trail|
    ensures Chain(h, trail[..n])
  {
    forall i | 0 <= i < n ensures Linked(h, trail[..n], i) {
      LimitKeepsVerdicts(h, trail, n, i);
      assert Linked(h, trail, i);
    }
  }

  // ---------------------------------------------------------------------------------------
  // Migration
  // ---------------------------------------------------------------------------------------

  /** One row of the migration: rows that already carry a hash are left alone. */
  function Chained(h: HashFn, row: AuditRow, previous: string): AuditRow {
    if row.entryHash != "" then row else
      var version := if row.payload.chainVersion == 0 then CHAIN_VERSION else row.payload.chainVersion;
      var payload := row.payload.(previousHash := previous, chainVersion := version);
      AuditRow(payload, h(payload))
  }

  /** The migrated table: every row is chained to the last migrated row of its own request. */
  function Migrated(h: HashFn, rows: seq<AuditRow>): (out: seq<AuditRow>)
    ensures |out| == |rows|
  {
    if rows == [] then [] else
      var n := |rows| - 1;
      var done := Migrated(h, rows[..n]);
      done + [Chained(h, rows[n], Head(Trail(done, rows[n].payload.requestId)))]
  }

  /** The legacy tables the migration is meant for: within each request the rows that carry
      a hash come first and are linked. */
  ghost predicate HashedPrefix(h: HashFn, trail: seq<AuditRow>) {
    forall i | 0 <= i < |trail| && trail[i].entryHash != "" ::
      Linked(h, trail, i) && (i > 0 ==> trail[i - 1].entryHash != "")
  }

  predicate SameColumns(a: AuditRow, b: AuditRow) {
    && a.payload.requestId == b.payload.requestId && a.payload.actor == b.payload.actor
    && a.payload.action == b.payload.action && a.payload.details == b.payload.details
    && a.payload.createdAt == b.payload.createdAt
  }

  lemma MigratedNext(h: HashFn, rows: seq<AuditRow>, k: nat)
    requires k < |rows|
    ensures var done := Migrated(h, rows[..k]);
            Migrated(h, rows[..k + 1]) == done + [Chained(h, rows[k], Head(Trail(done, rows[k].payload.requestId)))]
  {
    assert rows[..k + 1][..k] == rows[..k];
  }

  /** The dictionary `previous_by_request` after the given rows. */
  function Previous(previousByRequest: map<string, string>, id: string): string {
    if id in previousByRequest then previousByRequest[id] else GENESIS
  }

  ghost predicate Carries(previousByRequest: map<string, string>, rows: seq<AuditRow>) {
    forall id :: Head(Trail(rows, id)) == Previous(previousByRequest, id)
  }

  lemma CarriesNext(previousByRequest: map<string, string>, rows: seq<AuditRow>, row: AuditRow)
    requires Carries(previousByRequest, rows)
    ensures Carries(previousByRequest[row.payload.requestId := row.entryHash], rows + [row])
  {
    forall id ensures Head(Trail(rows + [row], id))
                   == Previous(previousByRequest[row.payload.requestId := row.entryHash], id) {
      TrailAppend(rows, row, id);
    }
  }

  /** The migration after k rows: a migrated prefix, an untouched rest, and the dictionary. */
  ghost predicate Halfway(h: HashFn, original: seq<AuditRow>, rows: seq<AuditRow>, k: nat,
                          previousByRequest: map<string, string>) {
    && k <= |rows| == |original|
    && rows[..k] == Migrated(h, original[..k])
    && rows[k..] == original[k..]
    && Carries(previousByRequest, rows[..k])
  }

  /** Replacing row k moves the border between the migrated and the untouched rows. */
  lemma BorderMoves(original: seq<AuditRow>, rows: seq<AuditRow>, k: nat, row: AuditRow)
    requires k < |rows| == |original| && rows[k..] == original[k..]
    ensures rows[k] == original[k]
    ensures rows[k := row][..k + 1] == rows[..k] + [row]
    ensures rows[k := row][k + 1..] == original[k + 1..]
  {
    assert rows[k..][0] == original[k..][0];
    assert rows[k := row][k + 1..] == rows[k..][1..];
    assert original[k + 1..] == original[k..][1..];
  }

  lemma HalfwayNext(h: HashFn, original: seq<AuditRow>, rows: seq<AuditRow>, k: nat,
                    previousByRequest: map<string, string>)
    requires Halfway(h, original, rows, k, previousByRequest) && k < |rows|
    ensures var row := Chained(h, rows[k], Previous(previousByRequest, rows[k].payload.requestId));
            Halfway(h, original, rows[k := row], k + 1,
                    previousByRequest[row.payload.requestId := row.entryHash])
  {
    var row := Chained(h, rows[k], Previous(previousByRequest, rows[k].payload.requestId));
    BorderMoves(original, rows, k, row);
    MigratedNext(h, original, k);
    CarriesNext(previousByRequest, rows[..k], row);
  }

  class AuditTable {
    var rows: seq<AuditRow>

    constructor (rows: seq<AuditRow>)
      ensures this.rows == rows
    {
      this.rows := rows;
    }

    /** `_migrate_audit_hash_chain`: one pass in id order that updates rows in place and keeps,
        for each request, the hash of the last row seen. */
    method Migrate(h: HashFn)
      modifies this
      ensures rows == Migrated(h, old(rows))
    {
      var previousByRequest: map<string, string> := map[];
      var k := 0;
      while k < |rows|
        invariant Halfway(h, old(rows), rows, k, previousByRequest)
      {
        var row := rows[k];
        var previous := Previous(previousByRequest, row.payload.requestId);
        var entryHash := row.entryHash;
        HalfwayNext(h, old(rows), rows, k, previousByRequest);
        if entryHash == "" {
          var version := if row.payload.chainVersion == 0 then CHAIN_VERSION else row.payload.chainVersion;
          var payload := row.payload.(previousHash := previous, chainVersion := version);
          entryHash := h(payload);
          rows := rows[k := AuditRow(payload, entryHash)];
        } else {
          assert rows[k := row] == rows;
        }
        previousByRequest := previousByRequest[row.payload.requestId := entryHash];
        k := k + 1;
      }
      assert old(rows)[..k] == old(rows) && rows[..k] == rows;
    }
  }

  lemma {:induction false} TrailOwner(rows: seq<AuditRow>, id: string, i: nat)
    requires i < |Trail(rows, id)|
    ensures Trail(rows, id)[i].payload.requestId == id
  {
    var n := |rows| - 1;
    if i < |Trail(rows[..n], id)| {
      TrailOwner(rows[..n], id, i);
    }
  }

  /** A trail whose rows all belong to `id` migrates to rows that all belong to `id`. */
  lemma {:induction false} OwnTrail(h: HashFn, trail: seq<AuditRow>, id: string)
    requires forall i | 0 <= i < |trail| :: trail[i].payload.requestId == id
    ensures Trail(Migrated(h, trail), id) == Migrated(h, trail)
  {
    if trail != [] {
      var n := |trail| - 1;
      var before := trail[..n];
      forall i | 0 <= i < n ensures before[i].payload.requestId == id { assert before[i] == trail[i]; }
      OwnTrail(h, before, id);
      var done := Migrated(h, before);
      TrailAppend(done, Chained(h, trail[n], Head(Trail(done, trail[n].payload.requestId))), id);
    }
  }

  /** Requests do not disturb each other: the migrated trail of a request is the migration of
      its trail, however the table interleaves requests. */
  lemma {:induction false} MigrationIsPerRequest(h: HashFn, rows: seq<AuditRow>, id: string)
    ensures Trail(Migrated(h, rows), id) == Migrated(h, Trail(rows, id))
  {
    if rows != [] {
      var n := |rows| - 1;
      var row := rows[n];
      var done := Migrated(h, rows[..n]);
      MigrationIsPerRequest(h, rows[..n], id);
      TrailAppend(done, Chained(h, row, Head(Trail(done, row.payload.requestId))), id);
      if row.payload.requestId == id {
        var t := Trail(rows[..n], id);
        assert (t + [row])[..|t|] == t;
        forall i | 0 <= i < |t| ensures t[i].payload.requestId == id { TrailOwner(rows[..n], id, i); }
        OwnTrail(h, t, id);
      }
    }
  }

  lemma HashedPrefixShortens(h: HashFn, trail: seq<AuditRow>, n: nat)
    requires HashedPrefix(h, trail) && n <= |trail|
    ensures HashedPrefix(h, trail[..n])
  {
    forall i | 0 <= i < n && trail[i].entryHash != "" ensures Linked(h, trail[..n], i) {
      LimitKeepsVerdicts(h, trail, n, i);
    }
  }

  ghost predicate KeepsHashed(before: seq<AuditRow>, after: seq<AuditRow>) {
    && |before| == |after|
    && forall i | 0 <= i < |before| && before[i].entryHash != "" :: after[i] == before[i]
  }

  /** The last row of a legacy trail is chained to the migrated rows before it. */
  lemma LastRowLinks(h: HashFn, trail: seq<AuditRow>, done: seq<AuditRow>)
    requires HashedPrefix(h, trail) && trail != [] && KeepsHashed(trail[..|trail| - 1], done)
    ensures var last := Chained(h, trail[|trail| - 1], Head(done));
            last.payload.previousHash == Head(done) && last.entryHash == h(last.payload)
  {
    var n := |trail| - 1;
    if trail[n].entryHash != "" {
      assert Linked(h, trail, n);
      assert n > 0 ==> done[n - 1] == trail[..n][n - 1];
    }
  }

  /** Migrating one request's trail keeps the hashed rows and chains the whole trail. */
  lemma {:induction false} MigratedTrailIsChain(h: HashFn, trail: seq<AuditRow>, id: string)
    requires Collisionless(h) && HashedPrefix(h, trail)
    requires forall i | 0 <= i < |trail| :: trail[i].payload.requestId == id
    ensures Chain(h, Migrated(h, trail))
    ensures KeepsHashed(trail, Migrated(h, trail))
  {
    if trail != [] {
      var n := |trail| - 1;
      var done := Migrated(h, trail[..n]);
      HashedPrefixShortens(h, trail, n);
      MigratedTrailIsChain(h, trail[..n], id);
      OwnTrail(h, trail[..n], id);
      LastRowLinks(h, trail, done);
      ChainAppend(h, done, Chained(h, trail[n], Head(done)));
    }
  }

  /** The migration theorem: on a legacy table every row of every request is reported valid
      afterwards, and rows that already carried a hash are untouched. */
  lemma MigrationRepairsEveryTrail(h: HashFn, rows: seq<AuditRow>, id: string)
    requires Collisionless(h) && HashedPrefix(h, Trail(rows, id))
    ensures Chain(h, Trail(Migrated(h, rows), id))
  {
    MigrationIsPerRequest(h, rows, id);
    var t := Trail(rows, id);
    forall i | 0 <= i < |t| ensures t[i].payload.requestId == id { TrailOwner(rows, id, i); }
    MigratedTrailIsChain(h, t, id);
  }

  /** The migration writes only the three hash columns, and none of a row that has a hash. */
  lemma {:induction false} MigrationKeepsColumns(h: HashFn, rows: seq<AuditRow>, i: nat)
    requires i < |rows|
    ensures SameColumns(Migrated(h, rows)[i], rows[i])
    ensures rows[i].entryHash != "" ==> Migrated(h, rows)[i] == rows[i]
  {
    if i < |rows| - 1 {
      MigrationKeepsColumns(h, rows[..|rows| - 1], i);
    }
  }

  lemma {:induction false} MigrationHashesEveryRow(h: HashFn, rows: seq<AuditRow>, i: nat)
    requires Collisionless(h) && i < |rows|
    ensures Migrated(h, rows)[i].entryHash != ""
  {
    if i < |rows| - 1 {
      MigrationHashesEveryRow(h, rows[..|rows| - 1], i);
    }
  }

  lemma {:induction false} HashedTablesAreFixed(h: HashFn, rows: seq<AuditRow>)
    requires forall i | 0 <= i < |rows| :: rows[i].entryHash != ""
    ensures Migrated(h, rows) == rows
  {
    if rows != [] {
      var n := |rows| - 1;
      HashedTablesAreFixed(h, rows[..n]);
      assert rows == rows[..n] + [rows[n]];
    }
  }

  /** A second start-up changes nothing. */
  lemma MigrationIsIdempotent(h: HashFn, rows: seq<AuditRow>)
    requires Collisionless(h)
    ensures Migrated(h, Migrated(h, rows)) == Migrated(h, rows)
  {
    forall i | 0 <= i < |rows| ensures Migrated(h, rows)[i].entryHash != "" {
      MigrationHashesEveryRow(h, rows, i);
    }
    HashedTablesAreFixed(h, Migrated(h, rows));
  }
}
