/** The Vault PKI export collector: the visitor over exported JSON, the normalisation of one
    record, and the canonical list of certificates. */
module PkiCollector {
  import opened Options
  import opened Ordering
  import opened Json

  datatype Decoded = Decoded(commonName: string, serial: string, notAfter: string)

  /** The text cleaners; each yields the empty text for a value it rejects. `mount` is
      `safe_mount` with an empty fallback, `positive` says that a revocation time converts to a
      number above zero. */
  datatype Cleaners = Cleaners(
    mount: Value -> string,
    identity: Value -> string,
    serial: Value -> string,
    date: Value -> string,
    status: Value -> string,
    positive: Value -> bool,
    certificate: Value -> Option<Decoded>)

  function SafeMount(c: Cleaners, value: Value, fallback: string): string {
    if c.mount(value) == "" then fallback else c.mount(value)
  }

  /** One raw record with the mount it was found under and, in key listings, its serial. */
  datatype Candidate = Candidate(record: Value, mount: string, hint: Option<string>)

  // ---------------------------------------------------------------------------------------
  // The visitor
  // ---------------------------------------------------------------------------------------

  const PRIMARY_KEYS := ["certificate", "common_name", "commonName", "expiration", "expiry", "not_after", "notAfter",
                         "revocation_time", "revocation_time_rfc3339", "revoked", "serial", "serial_number",
                         "serialNumber"]
  const CONTAINER_KEYS := ["certificates", "data", "items", "key_info", "keys", "mounts"]

  predicate HasAny(fields: seq<Field>, keys: seq<string>) {
    exists i | 0 <= i < |keys| :: HasKey(fields, keys[i])
  }

  function InsertField(sorted: seq<Field>, field: Field): (out: seq<Field>)
    ensures forall f <- out :: f in sorted || f == field
  {
    if sorted == [] then [field]
    else if Less(sorted[0].key, field.key) then [sorted[0]] + InsertField(sorted[1..], field)
    else [field] + sorted
  }

  /** sorted(value, key=str) with the values alongside. */
  function SortFields(fields: seq<Field>): (out: seq<Field>)
    ensures forall f <- out :: f in fields
  {
    if fields == [] then [] else InsertField(SortFields(fields[1..]), fields[0])
  }

  predicate Container(value: Value) {
    value.List? || value.Object?
  }

  /** The mount rules every visit obeys: under a forced mount nothing else is yielded, and no
      candidate is without a mount. */
  predicate MountsHeld(out: seq<Candidate>, mount: string, forced: bool) {
    && (forced ==> forall x <- out :: x.mount == mount)
    && (mount != "" ==> forall x <- out :: x.mount != "")
  }

  /** Lists go from payload to collection and objects from collection to payload on the same
      value, so the two recursions take turns in the second component. */
  function VisitCollection(c: Cleaners, value: Value, mount: string, forced: bool): (out: seq<Candidate>)
    ensures MountsHeld(out, mount, forced)
    decreases value, if value.List? then 2 else 3, 0
  {
    match value
    case List(items) => VisitItems(c, value, items, mount, forced)
    case Object(fields) =>
      if HasAny(fields, PRIMARY_KEYS) || HasAny(fields, CONTAINER_KEYS)
      then VisitPayload(c, value, mount, forced, None)
      else Listed(SortFields(fields), mount)
    case _ => []
  }

  /** A plain object lists serials: each key is a hint for the record stored under it. */
  function Listed(fields: seq<Field>, mount: string): (out: seq<Candidate>)
    ensures forall x <- out :: x.mount == mount
  {
    if fields == [] then [] else
      var record := if fields[0].value.Object? then fields[0].value else Object([]);
      [Candidate(record, mount, Some(fields[0].key))] + Listed(fields[1..], mount)
  }

  function VisitItems(c: Cleaners, parent: Value, items: seq<Value>, mount: string, forced: bool)
    : (out: seq<Candidate>)
    requires forall i | 0 <= i < |items| :: items[i] < parent
    ensures MountsHeld(out, mount, forced)
    decreases parent, 1, |items|
  {
    if items == [] then [] else
      var first := if Container(items[0]) then VisitPayload(c, items[0], mount, forced, None)
                   else [Candidate(items[0], mount, None)];
      first + VisitItems(c, parent, items[1..], mount, forced)
  }

  function VisitPayload(c: Cleaners, payload: Value, inherited: string, forced: bool, hint: Option<string>)
    : (out: seq<Candidate>)
    ensures MountsHeld(out, inherited, forced)
    decreases payload, if payload.List? then 3 else 2, 0
  {
    match payload
    case List(_) => VisitCollection(c, payload, inherited, forced)
    case Object(fields) =>
      var named := if Truthy(Get(fields, "mount")) then Get(fields, "mount") else Get(fields, "mount_path");
      var mount := if forced then inherited else SafeMount(c, named, inherited);
      VisitObject(c, payload, mount, forced, hint)
    case _ => if hint.Some? then [Candidate(payload, inherited, hint)] else []
  }

  /** The containers an object may hold, in the order they are looked for. */
  function VisitObject(c: Cleaners, payload: Value, mount: string, forced: bool, hint: Option<string>)
    : (out: seq<Candidate>)
    requires payload.Object?
    ensures MountsHeld(out, mount, forced)
    decreases payload, 1, 0
  {
    var fields := payload.fields;
    var mounts := Get(fields, "mounts");
    if mounts.Object? then VisitMounts(c, mounts, SortFields(mounts.fields), mount, forced)
    else if mounts.List? then VisitEach(c, mounts, mounts.items, mount, forced)
    else if Container(Get(fields, "certificates")) then
      VisitCollection(c, Get(fields, "certificates"), mount, forced)
    else if Container(Get(fields, "items")) then VisitCollection(c, Get(fields, "items"), mount, forced)
    else if Get(fields, "key_info").Object? then VisitCollection(c, Get(fields, "key_info"), mount, forced)
    else if Container(Get(fields, "keys")) then VisitCollection(c, Get(fields, "keys"), mount, forced)
    else if HasAny(fields, PRIMARY_KEYS) || hint.Some? then [Candidate(payload, mount, hint)]
    else if Container(Get(fields, "data")) then VisitPayload(c, Get(fields, "data"), mount, forced, None)
    else []
  }

  function VisitMounts(c: Cleaners, parent: Value, fields: seq<Field>, mount: string, forced: bool)
    : (out: seq<Candidate>)
    requires forall f <- fields :: f.value < parent
    ensures MountsHeld(out, mount, forced)
    decreases parent, 1, |fields|
  {
    if fields == [] then [] else
      var nested := if forced then mount else SafeMount(c, Text(fields[0].key), mount);
      VisitPayload(c, fields[0].value, nested, forced, None) + VisitMounts(c, parent, fields[1..], mount, forced)
  }

  function VisitEach(c: Cleaners, parent: Value, items: seq<Value>, mount: string, forced: bool)
    : (out: seq<Candidate>)
    requires forall i | 0 <= i < |items| :: items[i] < parent
    ensures MountsHeld(out, mount, forced)
    decreases parent, 1, |items|
  {
    if items == [] then [] else
      VisitPayload(c, items[0], mount, forced, None) + VisitEach(c, parent, items[1..], mount, forced)
  }

  /** With a valid override every candidate carries exactly that mount; without one, some mount. */
  function RecordCandidates(c: Cleaners, payload: Value, mountOverride: string): (out: seq<Candidate>)
    ensures c.mount(Text(mountOverride)) != "" ==> forall x <- out :: x.mount == c.mount(Text(mountOverride))
    ensures forall x <- out :: x.mount != ""
  {
    var forcedMount := SafeMount(c, Text(mountOverride), "");
    VisitPayload(c, payload, if forcedMount != "" then forcedMount else "pki", forcedMount != "", None)
  }

  // ---------------------------------------------------------------------------------------
  // One record
  // ---------------------------------------------------------------------------------------

  /** The six output fields. */
  datatype Record = Record(
    name: string, commonName: string, serial: string, notAfter: string, mount: string, status: string)

  function FirstOf(texts: seq<string>): string {
    if texts == [] then "" else if texts[0] != "" then texts[0] else FirstOf(texts[1..])
  }

  /** The value `explicit_status` looks at: nested state, phase or status of an object. */
  function StatusValue(fields: seq<Field>): Value {
    match Get(fields, "status")
    case Object(inner) =>
      if Truthy(Get(inner, "state")) then Get(inner, "state")
      else if Truthy(Get(inner, "phase")) then Get(inner, "phase")
      else Get(inner, "status")
    case value => value
  }

  predicate IsRevoked(c: Cleaners, fields: seq<Field>) {
    || Get(fields, "revoked") == Bool(true)
    || (!Get(fields, "revocation_time").Bool? && c.positive(Get(fields, "revocation_time")))
    || var date := c.date(Get(fields, "revocation_time_rfc3339"));
       date != "" && !("0001-" <= date)
  }

  const UNNAMED := "vault-pki-certificate"

  function NormalizeRecord(c: Cleaners, raw: Value, mount: string, hint: Option<string>): Option<Record> {
    match raw
    case Object(fields) => NormalizeFields(c, fields, mount, if hint.Some? then Text(hint.value) else Null)
    case Text(_) => NormalizeFields(c, [], mount, raw)
    case Int(_) => NormalizeFields(c, [], mount, raw)
    case _ => None
  }

  function SerialOf(c: Cleaners, fields: seq<Field>, hint: Value): string {
    var decoded := c.certificate(Get(fields, "certificate"));
    FirstOf([c.serial(Get(fields, "serial")), c.serial(Get(fields, "serial_number")),
             c.serial(Get(fields, "serialNumber")), c.serial(hint),
             if decoded.Some? then c.serial(Text(decoded.value.serial)) else ""])
  }

  function CommonNameOf(c: Cleaners, fields: seq<Field>): string {
    var decoded := c.certificate(Get(fields, "certificate"));
    FirstOf([c.identity(Get(fields, "common_name")), c.identity(Get(fields, "commonName")),
             if decoded.Some? then c.identity(Text(decoded.value.commonName)) else ""])
  }

  function NotAfterOf(c: Cleaners, fields: seq<Field>): string {
    var decoded := c.certificate(Get(fields, "certificate"));
    FirstOf([c.date(Get(fields, "not_after")), c.date(Get(fields, "notAfter")),
             c.date(Get(fields, "expiration")), c.date(Get(fields, "expiry")),
             if decoded.Some? then c.date(Text(decoded.value.notAfter)) else ""])
  }

  function StatusOf(c: Cleaners, fields: seq<Field>, detailed: bool): string {
    var stated := c.status(StatusValue(fields));
    if IsRevoked(c, fields) then "revoked"
    else if stated != "" then stated
    else if HasKey(fields, "status") || !detailed then "unknown"
    else "ready"
  }

  function NormalizeFields(c: Cleaners, fields: seq<Field>, mount: string, hint: Value): Option<Record> {
    var serial, commonName := SerialOf(c, fields, hint), CommonNameOf(c, fields);
    var rawName, notAfter := c.identity(Get(fields, "name")), NotAfterOf(c, fields);
    if serial == "" && commonName == "" && rawName == "" && notAfter == "" then None else
      var decoded := c.certificate(Get(fields, "certificate"));
      var detailed := commonName != "" || rawName != "" || notAfter != "" || decoded.Some?;
      Some(Record(FirstOf([rawName, commonName, serial, UNNAMED]), FirstOf([commonName, rawName, serial, UNNAMED]),
                  serial, notAfter, SafeMount(c, Text(mount), "pki"), StatusOf(c, fields, detailed)))
  }

  // ---------------------------------------------------------------------------------------
  // The canonical list
  // ---------------------------------------------------------------------------------------

  function SortKey(r: Record): seq<string> {
    [r.mount, r.commonName, r.serial, r.notAfter, r.name, r.status]
  }

  predicate Before(a: Record, b: Record) {
    TupleLess(SortKey(a), SortKey(b))
  }

  lemma BeforeIsTotal(a: Record, b: Record)
    ensures Before(a, b) || Before(b, a) || a == b
    ensures !(Before(a, b) && Before(b, a)) && !Before(a, a)
  {
    TupleLessIsTotal(SortKey(a), SortKey(b));
    if SortKey(a) == SortKey(b) {
      assert SortKey(a)[0] == SortKey(b)[0] && SortKey(a)[1] == SortKey(b)[1] && SortKey(a)[2] == SortKey(b)[2];
      assert SortKey(a)[3] == SortKey(b)[3] && SortKey(a)[4] == SortKey(b)[4] && SortKey(a)[5] == SortKey(b)[5];
    }
  }

  predicate Increasing(rs: seq<Record>) {
    forall i, j | 0 <= i < j < |rs| :: Before(rs[i], rs[j])
  }

  function Elements(rs: seq<Record>): set<Record> {
    set r | r in rs
  }

  function Insert(sorted: seq<Record>, r: Record): seq<Record> {
    if sorted == [] then [r]
    else if Before(sorted[0], r) then [sorted[0]] + Insert(sorted[1..], r)
    else [r] + sorted
  }

  function Sort(rs: seq<Record>): seq<Record> {
    if rs == [] then [] else Insert(Sort(rs[1..]), rs[0])
  }

  lemma {:induction false} InsertElements(sorted: seq<Record>, r: Record)
    ensures Elements(Insert(sorted, r)) == Elements(sorted) + {r}
  {
    if sorted != [] && Before(sorted[0], r) {
      InsertElements(sorted[1..], r);
      assert sorted == [sorted[0]] + sorted[1..];
      assert Elements(sorted) == {sorted[0]} + Elements(sorted[1..]);
      assert Elements([sorted[0]] + Insert(sorted[1..], r)) == {sorted[0]} + Elements(Insert(sorted[1..], r));
    } else {
      assert Elements([r] + sorted) == {r} + Elements(sorted);
    }
  }

  lemma ConsIncreasing(first: Record, rest: seq<Record>)
    requires Increasing(rest) && forall x <- rest :: Before(first, x)
    ensures Increasing([first] + rest)
  {
  }

  lemma {:induction false} InsertIncreasing(sorted: seq<Record>, r: Record)
    requires Increasing(sorted) && r !in sorted
    ensures Increasing(Insert(sorted, r))
  {
    if sorted != [] {
      BeforeIsTotal(sorted[0], r);
      assert sorted == [sorted[0]] + sorted[1..];
      if Before(sorted[0], r) {
        InsertIncreasing(sorted[1..], r);
        InsertElements(sorted[1..], r);
        forall x <- Insert(sorted[1..], r) ensures Before(sorted[0], x) {
          assert x in Elements(Insert(sorted[1..], r));
        }
        ConsIncreasing(sorted[0], Insert(sorted[1..], r));
      } else {
        forall x <- sorted ensures Before(r, x) {
          if x != sorted[0] {
            TupleLessIsTransitive(SortKey(r), SortKey(sorted[0]), SortKey(x));
          }
        }
        ConsIncreasing(r, sorted);
      }
    }
  }

  predicate Distinct(rs: seq<Record>) {
    forall i, j | 0 <= i < j < |rs| :: rs[i] != rs[j]
  }

  lemma {:induction false} SortIsCanonical(rs: seq<Record>)
    requires Distinct(rs)
    ensures Increasing(Sort(rs)) && Elements(Sort(rs)) == Elements(rs)
  {
    if rs != [] {
      SortIsCanonical(rs[1..]);
      assert rs == [rs[0]] + rs[1..];
      assert rs[0] !in Sort(rs[1..]) by {
        assert rs[0] !in Elements(rs[1..]);
        assert forall x <- Sort(rs[1..]) :: x in Elements(Sort(rs[1..]));
      }
      InsertIncreasing(Sort(rs[1..]), rs[0]);
      InsertElements(Sort(rs[1..]), rs[0]);
      assert Elements(rs) == {rs[0]} + Elements(rs[1..]);
    }
  }

  lemma EmptyElements(rs: seq<Record>)
    ensures Elements(rs) == {} <==> rs == []
  {
    if rs != [] {
      assert rs[0] in Elements(rs);
    }
  }

  /** A set of records has one strictly increasing listing. */
  lemma {:induction false} CanonicalIsUnique(a: seq<Record>, b: seq<Record>)
    requires Increasing(a) && Increasing(b) && Elements(a) == Elements(b)
    ensures a == b
    decreases |a|
  {
    if a == [] || b == [] {
      EmptyElements(a);
      EmptyElements(b);
    } else {
      assert a == [a[0]] + a[1..] && b == [b[0]] + b[1..];
      assert a[0] in Elements(b) && b[0] in Elements(a);
      BeforeIsTotal(a[0], b[0]);
      assert a[0] == b[0];
      forall x ensures x in Elements(a[1..]) <==> x in Elements(a) && x != a[0] { BeforeIsTotal(a[0], a[0]); }
      forall x ensures x in Elements(b[1..]) <==> x in Elements(b) && x != b[0] { BeforeIsTotal(b[0], b[0]); }
      assert Elements(a[1..]) == Elements(b[1..]);
      CanonicalIsUnique(a[1..], b[1..]);
    }
  }

  // ---------------------------------------------------------------------------------------
  // Collection
  // ---------------------------------------------------------------------------------------

  type Payload = (Value, string)

  /** The records one export yields. */
  function RecordsOf(c: Cleaners, candidates: seq<Candidate>): set<Record> {
    set x | x in candidates && NormalizeRecord(c, x.record, x.mount, x.hint).Some? ::
      NormalizeRecord(c, x.record, x.mount, x.hint).value
  }

  function ExportRecords(c: Cleaners, p: Payload): set<Record> {
    RecordsOf(c, RecordCandidates(c, p.0, p.1))
  }

  /** All normalised records of all exports. */
  function RecordSet(c: Cleaners, payloads: seq<Payload>): set<Record> {
    set p, r | p in payloads && r in ExportRecords(c, p) :: r
  }

  function Take(rs: seq<Record>, n: nat): seq<Record> {
    if n < |rs| then rs[..n] else rs
  }

  /** The result is a function of the set of normalised records and the count. */
  ghost predicate Collected(c: Cleaners, payloads: seq<Payload>, maxCount: nat, certificates: seq<Record>) {
    exists full :: Increasing(full) && Elements(full) == RecordSet(c, payloads) && certificates == Take(full, maxCount)
  }

  /** `collect`: the dictionary keyed by all six fields is the list of distinct records in
      insertion order; it is sorted by the sort key and cut. */
  method Collect(c: Cleaners, payloads: seq<Payload>, maxCount: nat) returns (certificates: seq<Record>)
    ensures Collected(c, payloads, maxCount, certificates)
  {
    var unique: seq<Record> := [];
    for i := 0 to |payloads|
      invariant Distinct(unique) && Elements(unique) == RecordSet(c, payloads[..i])
    {
      var candidates := RecordCandidates(c, payloads[i].0, payloads[i].1);
      for k := 0 to |candidates|
        invariant Distinct(unique)
        invariant Elements(unique) == RecordSet(c, payloads[..i]) + RecordsOf(c, candidates[..k])
      {
        var x := candidates[k];
        var record := NormalizeRecord(c, x.record, x.mount, x.hint);
        RecordsGrow(c, candidates, k);
        if record.Some? && record.value !in unique {
          assert Elements(unique + [record.value]) == Elements(unique) + {record.value};
          unique := unique + [record.value];
        } else if record.Some? {
          assert record.value in Elements(unique);
        }
      }
      assert candidates[..|candidates|] == candidates;
      RecordSetGrows(c, payloads, i);
    }
    assert payloads[..|payloads|] == payloads;
    SortIsCanonical(unique);
    certificates := Take(Sort(unique), maxCount);
  }

  lemma RecordsGrow(c: Cleaners, candidates: seq<Candidate>, k: nat)
    requires k < |candidates|
    ensures var x := candidates[k];
            var record := NormalizeRecord(c, x.record, x.mount, x.hint);
            RecordsOf(c, candidates[..k + 1])
              == RecordsOf(c, candidates[..k]) + (if record.Some? then {record.value} else {})
  {
    assert candidates[..k + 1] == candidates[..k] + [candidates[k]];
  }

  lemma RecordSetGrows(c: Cleaners, payloads: seq<Payload>, i: nat)
    requires i < |payloads|
    ensures RecordSet(c, payloads[..i + 1]) == RecordSet(c, payloads[..i]) + ExportRecords(c, payloads[i])
  {
    assert payloads[..i + 1] == payloads[..i] + [payloads[i]];
  }

  /** Permuting or repeating the inputs does not change the set of records. */
  lemma SamePayloadsSameRecords(c: Cleaners, ps: seq<Payload>, qs: seq<Payload>)
    requires forall p :: p in ps <==> p in qs
    ensures RecordSet(c, ps) == RecordSet(c, qs)
  {
    forall r ensures r in RecordSet(c, ps) <==> r in RecordSet(c, qs) {
      if r in RecordSet(c, ps) {
        var p :| p in ps && r in ExportRecords(c, p);
        assert p in qs;
      }
      if r in RecordSet(c, qs) {
        var q :| q in qs && r in ExportRecords(c, q);
        assert q in ps;
      }
    }
  }

  /** The output depends only on the set of normalised records, is strictly increasing, and for a
      smaller count is a prefix. */
  lemma CollectIsCanonical(c: Cleaners, ps: seq<Payload>, qs: seq<Payload>, m: nat, n: nat, a: seq<Record>,
                           b: seq<Record>)
    requires RecordSet(c, ps) == RecordSet(c, qs)
    requires m <= n && Collected(c, ps, m, a) && Collected(c, qs, n, b)
    ensures a <= b && (m == n ==> a == b) && Increasing(b) && |a| <= m
  {
    var f :| Increasing(f) && Elements(f) == RecordSet(c, ps) && a == Take(f, m);
    var g :| Increasing(g) && Elements(g) == RecordSet(c, qs) && b == Take(g, n);
    CanonicalIsUnique(f, g);
  }

  // ---------------------------------------------------------------------------------------
  // Splitting exports
  // ---------------------------------------------------------------------------------------

  ghost predicate Under(items: seq<Value>, parent: Value) {
    forall i | 0 <= i < |items| :: items[i] < parent
  }

  lemma UnderRest(items: seq<Value>, parent: Value)
    requires Under(items, parent) && items != []
    ensures Under(items[1..], parent)
  {
    forall i | 0 <= i < |items| - 1 ensures items[1..][i] < parent { assert items[1..][i] == items[i + 1]; }
  }

  /** What the items are visited for does not depend on the list that holds them. */
  lemma {:induction false} HolderIrrelevant(c: Cleaners, p: Value, q: Value, items: seq<Value>, mount: string,
                                            forced: bool)
    requires Under(items, p) && Under(items, q)
    ensures VisitItems(c, p, items, mount, forced) == VisitItems(c, q, items, mount, forced)
    decreases |items|
  {
    if items != [] {
      UnderRest(items, p);
      UnderRest(items, q);
      HolderIrrelevant(c, p, q, items[1..], mount, forced);
    }
  }

  lemma Regroup<T>(a: seq<T>, b: seq<T>, c: seq<T>)
    ensures a + (b + c) == (a + b) + c
  {
  }

  lemma {:induction false} VisitItemsAppend(c: Cleaners, p: Value, a: seq<Value>, b: seq<Value>, mount: string,
                                            forced: bool)
    requires Under(a, p) && Under(b, p) && Under(a + b, p)
    ensures VisitItems(c, p, a + b, mount, forced)
         == VisitItems(c, p, a, mount, forced) + VisitItems(c, p, b, mount, forced)
    decreases |a|
  {
    if a == [] {
      assert a + b == b;
    } else {
      UnderRest(a + b, p);
      UnderRest(a, p);
      assert (a + b)[1..] == a[1..] + b;
      VisitItemsAppend(c, p, a[1..], b, mount, forced);
      var first := if Container(a[0]) then VisitPayload(c, a[0], mount, forced, None)
                   else [Candidate(a[0], mount, None)];
      var rest, last := VisitItems(c, p, a[1..], mount, forced), VisitItems(c, p, b, mount, forced);
      assert VisitItems(c, p, a + b, mount, forced) == first + (rest + last);
      assert VisitItems(c, p, a, mount, forced) == first + rest;
      Regroup(first, rest, last);
    }
  }

  lemma ListVisit(c: Cleaners, items: seq<Value>, mount: string, forced: bool)
    ensures Under(items, List(items))
    ensures VisitPayload(c, List(items), mount, forced, None) == VisitItems(c, List(items), items, mount, forced)
  {
    assert VisitPayload(c, List(items), mount, forced, None) == VisitCollection(c, List(items), mount, forced);
  }

  /** A list export can be split anywhere: its candidates are those of the parts, in order. */
  lemma ListExportsSplit(c: Cleaners, a: seq<Value>, b: seq<Value>, mountOverride: string)
    ensures RecordCandidates(c, List(a + b), mountOverride)
         == RecordCandidates(c, List(a), mountOverride) + RecordCandidates(c, List(b), mountOverride)
  {
    var forcedMount := SafeMount(c, Text(mountOverride), "");
    var mount, forced := if forcedMount != "" then forcedMount else "pki", forcedMount != "";
    var whole := List(a + b);
    ListVisit(c, a + b, mount, forced);
    ListVisit(c, a, mount, forced);
    ListVisit(c, b, mount, forced);
    assert Under(a, whole) && Under(b, whole) by {
      forall i | 0 <= i < |a| ensures a[i] < whole { assert (a + b)[i] == a[i]; }
      forall i | 0 <= i < |b| ensures b[i] < whole { assert (a + b)[|a| + i] == b[i]; }
    }
    VisitItemsAppend(c, whole, a, b, mount, forced);
    HolderIrrelevant(c, whole, List(a), a, mount, forced);
    HolderIrrelevant(c, whole, List(b), b, mount, forced);
  }

  /** Collecting a concatenated export is collecting its parts. */
  lemma SplitExportsCollectAlike(c: Cleaners, a: seq<Value>, b: seq<Value>, mountOverride: string, n: nat,
                                 x: seq<Record>, y: seq<Record>)
    requires Collected(c, [(List(a + b), mountOverride)], n, x)
    requires Collected(c, [(List(a), mountOverride), (List(b), mountOverride)], n, y)
    ensures x == y
  {
    ListExportsSplit(c, a, b, mountOverride);
    var whole, parts := [(List(a + b), mountOverride)], [(List(a), mountOverride), (List(b), mountOverride)];
    RecordsUnion(c, RecordCandidates(c, List(a), mountOverride), RecordCandidates(c, List(b), mountOverride));
    assert whole[0] in whole && parts[0] in parts && parts[1] in parts;
    assert RecordSet(c, whole) == ExportRecords(c, whole[0]);
    assert RecordSet(c, parts) == ExportRecords(c, parts[0]) + ExportRecords(c, parts[1]);
    CollectIsCanonical(c, whole, parts, n, n, x, y);
  }

  lemma RecordsUnion(c: Cleaners, a: seq<Candidate>, b: seq<Candidate>)
    ensures RecordsOf(c, a + b) == RecordsOf(c, a) + RecordsOf(c, b)
  {
  }

  lemma LastResort(texts: seq<string>)
    requires texts != [] && texts[|texts| - 1] != ""
    ensures FirstOf(texts) != ""
  {
    if texts[0] == "" {
      LastResort(texts[1..]);
    }
  }

  lemma FieldsAreComplete(c: Cleaners, fields: seq<Field>, mount: string, hint: Value)
    requires NormalizeFields(c, fields, mount, hint).Some?
    ensures var r := NormalizeFields(c, fields, mount, hint).value;
            && r.name != "" && r.commonName != "" && r.mount != "" && r.status != ""
            && (IsRevoked(c, fields) ==> r.status == "revoked")
  {
    forall x, y, z ensures FirstOf([x, y, z, UNNAMED]) != "" { LastResort([x, y, z, UNNAMED]); }
  }

  /** Whatever the raw record is, a normalised one is never without a name, a mount or a status,
      and revocation decides the status whatever the record states. */
  lemma NormalizedIsComplete(c: Cleaners, raw: Value, mount: string, hint: Option<string>)
    requires NormalizeRecord(c, raw, mount, hint).Some?
    ensures var r := NormalizeRecord(c, raw, mount, hint).value;
            && r.name != "" && r.commonName != "" && r.mount != "" && r.status != ""
            && (IsRevoked(c, if raw.Object? then raw.fields else []) ==> r.status == "revoked")
  {
    match raw {
      case Object(fields) => FieldsAreComplete(c, fields, mount, if hint.Some? then Text(hint.value) else Null);
      case _ => FieldsAreComplete(c, [], mount, raw);
    }
  }
}
