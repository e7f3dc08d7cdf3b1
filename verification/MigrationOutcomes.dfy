/** What the migration of the audit table writes into the rows that have no hash, in terms of
    columns and literal values. */
module MigrationOutcomes {
  import opened AuditChain

  /** The value that the first row of a trail names is 64 zeros. */
  lemma {:induction false} ZerosAreZeros(n: nat)
    ensures |Zeros(n)| == n && forall i | 0 <= i < n :: Zeros(n)[i] == '0'
  {
    if n > 0 {
      ZerosAreZeros(n - 1);
    }
  }

  predicate AllZeros(s: string) {
    |s| == 64 && forall k | 0 <= k < 64 :: s[k] == '0'
  }

  /** The hash columns a row without a hash gets behind a migrated trail: the hash of the row before
      it, or 64 zeros when it is the first, the version it states or else 1, and the hash of all its
      columns. */
  predicate FilledIn(h: HashFn, before: AuditRow, trail: seq<AuditRow>, after: AuditRow) {
    && SameColumns(after, before)
    && (if trail != [] then after.payload.previousHash == trail[|trail| - 1].entryHash
        else AllZeros(after.payload.previousHash))
    && after.payload.chainVersion == (if before.payload.chainVersion == 0 then 1 else before.payload.chainVersion)
    && after.entryHash == h(after.payload)
  }

  lemma ChainedIsFilledIn(h: HashFn, row: AuditRow, trail: seq<AuditRow>)
    requires row.entryHash == ""
    ensures FilledIn(h, row, trail, Chained(h, row, Head(trail)))
  {
    ZerosAreZeros(64);
  }

  lemma LastRowIsFilledIn(h: HashFn, trail: seq<AuditRow>, id: string)
    requires forall k | 0 <= k < |trail| :: trail[k].payload.requestId == id
    requires trail != [] && trail[|trail| - 1].entryHash == ""
    ensures var n, all := |trail| - 1, Migrated(h, trail);
            FilledIn(h, trail[n], all[..n], all[n])
  {
    var n := |trail| - 1;
    var done := Migrated(h, trail[..n]);
    OwnTrail(h, trail[..n], id);
    ChainedIsFilledIn(h, trail[n], done);
    assert Migrated(h, trail)[..n] == done;
  }

  lemma {:induction false} MigrationFillsTrail(h: HashFn, trail: seq<AuditRow>, id: string, i: nat)
    requires forall k | 0 <= k < |trail| :: trail[k].payload.requestId == id
    requires i < |trail| && trail[i].entryHash == ""
    ensures FilledIn(h, trail[i], Migrated(h, trail)[..i], Migrated(h, trail)[i])
  {
    var n := |trail| - 1;
    if i == n {
      LastRowIsFilledIn(h, trail, id);
    } else {
      var done := Migrated(h, trail[..n]);
      MigrationFillsTrail(h, trail[..n], id, i);
      assert Migrated(h, trail)[..i] == done[..i] && Migrated(h, trail)[i] == done[i];
      assert trail[..n][i] == trail[i];
    }
  }

  /** What the migration writes into the rows that have no hash, request by request. */
  lemma MigrationFillsInEveryRow(h: HashFn, rows: seq<AuditRow>, id: string, i: nat)
    requires i < |Trail(rows, id)| && Trail(rows, id)[i].entryHash == ""
    ensures |Trail(Migrated(h, rows), id)| == |Trail(rows, id)|
    ensures FilledIn(h, Trail(rows, id)[i], Trail(Migrated(h, rows), id)[..i], Trail(Migrated(h, rows), id)[i])
  {
    MigrationIsPerRequest(h, rows, id);
    var t := Trail(rows, id);
    forall k | 0 <= k < |t| ensures t[k].payload.requestId == id { TrailOwner(rows, id, k); }
    MigrationFillsTrail(h, t, id, i);
  }
}
