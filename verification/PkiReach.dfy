/** Which records an export lists, without reference to the visitor: a record is found by a chain
    of containers that starts at the export, and what is collected are exactly the records found
    that can be normalised, cut in the order of the output. */
module PkiReach {
  import opened Options
  import opened Ordering
  import opened Json
  import opened PkiCollector

  // ---------------------------------------------------------------------------------------
  // Chains of containers
  // ---------------------------------------------------------------------------------------

  /** A value met on the way: a payload is looked into, a group is expected to list records. */
  datatype Spot =
    | Node(value: Value, mount: string, hint: Option<string>)
    | Group(value: Value, mount: string)

  /** Some field that only a certificate record has. */
  predicate LooksLikeRecord(fields: seq<Field>) {
    || HasKey(fields, "serial") || HasKey(fields, "serial_number") || HasKey(fields, "serialNumber")
    || HasKey(fields, "common_name") || HasKey(fields, "commonName") || HasKey(fields, "certificate")
    || HasKey(fields, "not_after") || HasKey(fields, "notAfter") || HasKey(fields, "expiration")
    || HasKey(fields, "expiry") || HasKey(fields, "revoked") || HasKey(fields, "revocation_time")
    || HasKey(fields, "revocation_time_rfc3339")
  }

  /** Some field that names a container. */
  predicate LooksLikeWrapper(fields: seq<Field>) {
    || HasKey(fields, "mounts") || HasKey(fields, "certificates") || HasKey(fields, "items")
    || HasKey(fields, "key_info") || HasKey(fields, "keys") || HasKey(fields, "data")
  }

  /** What an object can be, the most binding reading first. */
  datatype Form = MountTable | MountList | Certificates | Items | KeyInfo | Keys | Single | Data

  predicate Fits(fields: seq<Field>, hint: Option<string>, form: Form) {
    match form
    case MountTable => Get(fields, "mounts").Object?
    case MountList => Get(fields, "mounts").List?
    case Certificates => Get(fields, "certificates").List? || Get(fields, "certificates").Object?
    case Items => Get(fields, "items").List? || Get(fields, "items").Object?
    case KeyInfo => Get(fields, "key_info").Object?
    case Keys => Get(fields, "keys").List? || Get(fields, "keys").Object?
    case Single => LooksLikeRecord(fields) || hint.Some?
    case Data => Get(fields, "data").List? || Get(fields, "data").Object?
  }

  function Rank(form: Form): nat {
    match form
    case MountTable => 0
    case MountList => 1
    case Certificates => 2
    case Items => 3
    case KeyInfo => 4
    case Keys => 5
    case Single => 6
    case Data => 7
  }

  /** The form an object is read in: it fits and no more binding one does. */
  ghost predicate ReadAs(fields: seq<Field>, hint: Option<string>, form: Form) {
    Fits(fields, hint, form) && forall other | Rank(other) < Rank(form) :: !Fits(fields, hint, other)
  }

  /** A mount named by a value replaces the inherited one unless that is forced or the name is
      not a safe path. */
  predicate Renamed(c: Cleaners, forced: bool, inherited: string, name: Value, mount: string) {
    mount == if forced || c.mount(name) == "" then inherited else c.mount(name)
  }

  predicate Blank(value: Value) {
    value in {Null, Bool(false), Int(0), Float(0.0), Text(""), List([]), Object([])}
  }

  /** The mount of what lies in an object: its `mount`, or its `mount_path` if that is blank. */
  predicate MountedAt(c: Cleaners, forced: bool, inherited: string, fields: seq<Field>, mount: string) {
    Renamed(c, forced, inherited,
            if Blank(Get(fields, "mount")) then Get(fields, "mount_path") else Get(fields, "mount"), mount)
  }

  /** One step of a chain inside an object that is read in a form, its contents under a mount. */
  ghost predicate Enters(c: Cleaners, forced: bool, fields: seq<Field>, form: Form, mount: string, to: Spot) {
    match form
    case MountTable =>
      && Get(fields, "mounts").Object? && to.Node? && to.hint == None
      && exists f <- Get(fields, "mounts").fields ::
           to.value == f.value && Renamed(c, forced, mount, Text(f.key), to.mount)
    case MountList =>
      Get(fields, "mounts").List? && to.Node? && to == Node(to.value, mount, None)
      && to.value in Get(fields, "mounts").items
    case Certificates => to == Group(Get(fields, "certificates"), mount)
    case Items => to == Group(Get(fields, "items"), mount)
    case KeyInfo => to == Group(Get(fields, "key_info"), mount)
    case Keys => to == Group(Get(fields, "keys"), mount)
    case Single => false
    case Data => to == Node(Get(fields, "data"), mount, None)
  }

  /** One step of a chain. */
  ghost predicate Goes(c: Cleaners, forced: bool, from: Spot, to: Spot) {
    match from
    case Node(List(_), mount, _) => to == Group(from.value, mount)
    case Node(Object(fields), inherited, hint) =>
      exists mount, form | MountedAt(c, forced, inherited, fields, mount) && ReadAs(fields, hint, form) ::
        Enters(c, forced, fields, form, mount, to)
    case Node(_, _, _) => false
    case Group(List(items), mount) => to.Node? && to == Node(to.value, mount, None) && to.value in items
                                      && (to.value.List? || to.value.Object?)
    case Group(Object(fields), mount) =>
      (LooksLikeRecord(fields) || LooksLikeWrapper(fields)) && to == Node(from.value, mount, None)
    case Group(_, _) => false
  }

  /** The end of a chain: the record that a value is or holds. */
  ghost predicate Ends(c: Cleaners, forced: bool, from: Spot, x: Candidate) {
    match from
    case Node(List(_), _, _) => false
    case Node(Object(fields), inherited, hint) =>
      ReadAs(fields, hint, Single) && x == Candidate(from.value, x.mount, hint)
      && MountedAt(c, forced, inherited, fields, x.mount)
    case Node(_, mount, hint) => hint.Some? && x == Candidate(from.value, mount, hint)
    case Group(List(items), mount) =>
      x == Candidate(x.record, mount, None) && x.record in items && !x.record.List? && !x.record.Object?
    case Group(Object(fields), mount) =>
      && !LooksLikeRecord(fields) && !LooksLikeWrapper(fields)
      && exists f <- fields ::
           x == Candidate(if f.value.Object? then f.value else Object([]), mount, Some(f.key))
    case Group(_, _) => false
  }

  /** Some chain of containers leads from a spot to a record. */
  ghost predicate Chain(c: Cleaners, forced: bool, spots: seq<Spot>, x: Candidate) {
    && spots != []
    && (forall i | 0 <= i < |spots| - 1 :: Goes(c, forced, spots[i], spots[i + 1]))
    && Ends(c, forced, spots[|spots| - 1], x)
  }

  ghost predicate Reached(c: Cleaners, forced: bool, from: Spot, x: Candidate) {
    exists spots: seq<Spot> :: Chain(c, forced, spots, x) && spots[0] == from
  }

  /** The records an export lists: under its own mounts or `pki`, or all under a given mount. */
  ghost predicate Lists(c: Cleaners, payload: Value, mountOverride: string, x: Candidate) {
    var given := c.mount(Text(mountOverride));
    if given != "" then Reached(c, true, Node(payload, given, None), x)
    else Reached(c, false, Node(payload, "pki", None), x)
  }

  // ---------------------------------------------------------------------------------------
  // The visitor yields what the chains reach
  // ---------------------------------------------------------------------------------------

  function Yielded(c: Cleaners, forced: bool, from: Spot): seq<Candidate> {
    match from
    case Node(value, mount, hint) => VisitPayload(c, value, mount, forced, hint)
    case Group(value, mount) => VisitCollection(c, value, mount, forced)
  }

  lemma KeysAreLiteral(fields: seq<Field>)
    ensures HasAny(fields, PRIMARY_KEYS) <==> LooksLikeRecord(fields)
    ensures HasAny(fields, CONTAINER_KEYS) <==> LooksLikeWrapper(fields)
  {
    var p, q := PRIMARY_KEYS, CONTAINER_KEYS;
    assert p[0] == "certificate" && p[1] == "common_name" && p[2] == "commonName" && p[3] == "expiration";
    assert p[4] == "expiry" && p[5] == "not_after" && p[6] == "notAfter" && p[7] == "revocation_time";
    assert p[8] == "revocation_time_rfc3339" && p[9] == "revoked" && p[10] == "serial";
    assert p[11] == "serial_number" && p[12] == "serialNumber";
    assert q[0] == "certificates" && q[1] == "data" && q[2] == "items" && q[3] == "key_info";
    assert q[4] == "keys" && q[5] == "mounts";
  }

  lemma {:induction false} SortKeeps(fields: seq<Field>, f: Field)
    ensures f in SortFields(fields) <==> f in fields
  {
    if fields != [] {
      SortKeeps(fields[1..], f);
      InsertKeeps(SortFields(fields[1..]), fields[0], f);
      assert fields == [fields[0]] + fields[1..];
    }
  }

  lemma {:induction false} InsertKeeps(sorted: seq<Field>, field: Field, f: Field)
    ensures f in InsertField(sorted, field) <==> f in sorted || f == field
  {
    if sorted != [] && Less(sorted[0].key, field.key) {
      InsertKeeps(sorted[1..], field, f);
      assert sorted == [sorted[0]] + sorted[1..];
    }
  }

  lemma {:induction false} ItemsYield(c: Cleaners, parent: Value, items: seq<Value>, mount: string, forced: bool,
                                      x: Candidate)
    requires forall i | 0 <= i < |items| :: items[i] < parent
    ensures x in VisitItems(c, parent, items, mount, forced) <==>
            exists item <- items :: if Container(item) then x in VisitPayload(c, item, mount, forced, None)
                                    else x == Candidate(item, mount, None)
    decreases |items|
  {
    if items != [] {
      ItemsYield(c, parent, items[1..], mount, forced, x);
      assert items == [items[0]] + items[1..];
    }
  }

  lemma {:induction false} EachYields(c: Cleaners, parent: Value, items: seq<Value>, mount: string, forced: bool,
                                      x: Candidate)
    requires forall i | 0 <= i < |items| :: items[i] < parent
    ensures x in VisitEach(c, parent, items, mount, forced) <==>
            exists item <- items :: x in VisitPayload(c, item, mount, forced, None)
    decreases |items|
  {
    if items != [] {
      EachYields(c, parent, items[1..], mount, forced, x);
      assert items == [items[0]] + items[1..];
      assert x in VisitEach(c, parent, items, mount, forced) <==>
             x in VisitPayload(c, items[0], mount, forced, None)
             || x in VisitEach(c, parent, items[1..], mount, forced);
      if x in VisitPayload(c, items[0], mount, forced, None) {
        assert items[0] in items;
      } else if item: Value :| item in items && x in VisitPayload(c, item, mount, forced, None) {
        assert item in items[1..];
      }
    }
  }

  lemma {:induction false} MountsYield(c: Cleaners, parent: Value, fields: seq<Field>, mount: string, forced: bool,
                                       x: Candidate)
    requires forall f <- fields :: f.value < parent
    ensures x in VisitMounts(c, parent, fields, mount, forced) <==>
            exists f <- fields ::
              x in VisitPayload(c, f.value, if forced then mount else SafeMount(c, Text(f.key), mount), forced, None)
    decreases |fields|
  {
    if fields != [] {
      MountsYield(c, parent, fields[1..], mount, forced, x);
      assert fields == [fields[0]] + fields[1..];
    }
  }

  lemma {:induction false} ListedYields(fields: seq<Field>, mount: string, x: Candidate)
    ensures x in Listed(fields, mount) <==>
            exists f <- fields :: x == Candidate(if f.value.Object? then f.value else Object([]), mount, Some(f.key))
  {
    if fields != [] {
      ListedYields(fields[1..], mount, x);
      assert fields == [fields[0]] + fields[1..];
    }
  }

  /** The form an object is read in is unique. */
  lemma OneForm(fields: seq<Field>, hint: Option<string>, a: Form, b: Form)
    requires ReadAs(fields, hint, a) && ReadAs(fields, hint, b)
    ensures a == b
  {
  }

  /** What an object read in a form yields. */
  ghost predicate FormYields(c: Cleaners, forced: bool, fields: seq<Field>, hint: Option<string>, form: Form,
                             mount: string, x: Candidate) {
    || (form == Single && x == Candidate(Object(fields), mount, hint))
    || exists to :: Enters(c, forced, fields, form, mount, to) && x in Yielded(c, forced, to)
  }

  lemma MountTableYields(c: Cleaners, forced: bool, fields: seq<Field>, hint: Option<string>, mount: string,
                         x: Candidate)
    requires Get(fields, "mounts").Object?
    ensures x in VisitObject(c, Object(fields), mount, forced, hint) <==>
            FormYields(c, forced, fields, hint, MountTable, mount, x)
  {
    var mounts := Get(fields, "mounts");
    assert VisitObject(c, Object(fields), mount, forced, hint)
        == VisitMounts(c, mounts, SortFields(mounts.fields), mount, forced);
    TableYields(c, forced, fields, mount, x);
  }

  lemma TableYields(c: Cleaners, forced: bool, fields: seq<Field>, mount: string, x: Candidate)
    requires Get(fields, "mounts").Object?
    ensures var mounts := Get(fields, "mounts");
            x in VisitMounts(c, mounts, SortFields(mounts.fields), mount, forced) <==>
            exists to :: Enters(c, forced, fields, MountTable, mount, to) && x in Yielded(c, forced, to)
  {
    var mounts := Get(fields, "mounts");
    MountsYield(c, mounts, SortFields(mounts.fields), mount, forced, x);
    forall f ensures f in SortFields(mounts.fields) <==> f in mounts.fields { SortKeeps(mounts.fields, f); }
    forall f <- mounts.fields
      ensures Enters(c, forced, fields, MountTable, mount,
                     Node(f.value, if forced then mount else SafeMount(c, Text(f.key), mount), None)) {}
  }

  lemma MountListYields(c: Cleaners, forced: bool, fields: seq<Field>, hint: Option<string>, mount: string,
                        x: Candidate)
    requires Get(fields, "mounts").List?
    ensures x in VisitObject(c, Object(fields), mount, forced, hint) <==>
            FormYields(c, forced, fields, hint, MountList, mount, x)
  {
    var mounts := Get(fields, "mounts");
    assert VisitObject(c, Object(fields), mount, forced, hint) == VisitEach(c, mounts, mounts.items, mount, forced);
    EachYields(c, mounts, mounts.items, mount, forced, x);
    forall item <- mounts.items ensures Enters(c, forced, fields, MountList, mount, Node(item, mount, None)) {}
  }

  /** The single value a wrapper of the other forms holds. */
  function Inner(fields: seq<Field>, form: Form, mount: string): Spot {
    match form
    case Certificates => Group(Get(fields, "certificates"), mount)
    case Items => Group(Get(fields, "items"), mount)
    case KeyInfo => Group(Get(fields, "key_info"), mount)
    case Keys => Group(Get(fields, "keys"), mount)
    case _ => Node(Get(fields, "data"), mount, None)
  }

  lemma InnerIsEntered(c: Cleaners, forced: bool, fields: seq<Field>, form: Form, mount: string)
    requires form != MountTable && form != MountList && form != Single
    ensures forall to :: Enters(c, forced, fields, form, mount, to) <==> to == Inner(fields, form, mount)
  {
  }

  lemma WrapperIsVisited(c: Cleaners, forced: bool, fields: seq<Field>, hint: Option<string>, form: Form, mount: string)
    requires ReadAs(fields, hint, form) && form != MountTable && form != MountList
    ensures VisitObject(c, Object(fields), mount, forced, hint)
         == if form == Single then [Candidate(Object(fields), mount, hint)]
            else Yielded(c, forced, Inner(fields, form, mount))
  {
    KeysAreLiteral(fields);
    forall other | Rank(other) < Rank(form) ensures !Fits(fields, hint, other) {}
    assert !Fits(fields, hint, MountTable) && !Fits(fields, hint, MountList);
    if Rank(form) > 2 { assert !Fits(fields, hint, Certificates); }
    if Rank(form) > 3 { assert !Fits(fields, hint, Items); }
    if Rank(form) > 4 { assert !Fits(fields, hint, KeyInfo); }
    if Rank(form) > 5 { assert !Fits(fields, hint, Keys); }
    if Rank(form) > 6 { assert !Fits(fields, hint, Single); }
  }

  lemma ContentsYield(c: Cleaners, forced: bool, fields: seq<Field>, hint: Option<string>, form: Form, mount: string,
                      x: Candidate)
    requires ReadAs(fields, hint, form)
    ensures x in VisitObject(c, Object(fields), mount, forced, hint) <==>
            FormYields(c, forced, fields, hint, form, mount, x)
  {
    if form == MountTable {
      MountTableYields(c, forced, fields, hint, mount, x);
    } else if form == MountList {
      MountListYields(c, forced, fields, hint, mount, x);
    } else {
      WrapperIsVisited(c, forced, fields, hint, form, mount);
      if form != Single {
        InnerIsEntered(c, forced, fields, form, mount);
      }
    }
  }

  lemma FormlessYieldNothing(c: Cleaners, forced: bool, fields: seq<Field>, hint: Option<string>, mount: string)
    requires forall form :: !Fits(fields, hint, form)
    ensures VisitObject(c, Object(fields), mount, forced, hint) == []
  {
    KeysAreLiteral(fields);
    assert !Fits(fields, hint, MountTable) && !Fits(fields, hint, MountList) && !Fits(fields, hint, Certificates);
    assert !Fits(fields, hint, Items) && !Fits(fields, hint, KeyInfo) && !Fits(fields, hint, Keys);
    assert !Fits(fields, hint, Single) && !Fits(fields, hint, Data);
  }

  lemma SomeForm(fields: seq<Field>, hint: Option<string>, form: Form) returns (first: Form)
    requires Fits(fields, hint, form)
    ensures ReadAs(fields, hint, first)
    decreases Rank(form)
  {
    first := form;
    if other :| Rank(other) < Rank(form) && Fits(fields, hint, other) {
      first := SomeForm(fields, hint, other);
    }
  }

  lemma ObjectYields(c: Cleaners, forced: bool, from: Spot, x: Candidate)
    requires from.Node? && from.value.Object?
    ensures x in Yielded(c, forced, from) <==>
            Ends(c, forced, from, x) || exists to :: Goes(c, forced, from, to) && x in Yielded(c, forced, to)
  {
    var fields, hint := from.value.fields, from.hint;
    var named := if Truthy(Get(fields, "mount")) then Get(fields, "mount") else Get(fields, "mount_path");
    var mount := if forced then from.mount else SafeMount(c, named, from.mount);
    assert forall m :: MountedAt(c, forced, from.mount, fields, m) <==> m == mount;
    assert x in Yielded(c, forced, from) <==> x in VisitObject(c, from.value, mount, forced, hint);
    if form :| Fits(fields, hint, form) {
      var first := SomeForm(fields, hint, form);
      ContentsYield(c, forced, fields, hint, first, mount, x);
      forall other | ReadAs(fields, hint, other) ensures other == first { OneForm(fields, hint, other, first); }
      assert forall to :: Goes(c, forced, from, to) <==> Enters(c, forced, fields, first, mount, to);
    } else {
      FormlessYieldNothing(c, forced, fields, hint, mount);
    }
  }

  lemma SpotYields(c: Cleaners, forced: bool, from: Spot, x: Candidate)
    ensures x in Yielded(c, forced, from) <==>
            Ends(c, forced, from, x) || exists to :: Goes(c, forced, from, to) && x in Yielded(c, forced, to)
  {
    match from {
      case Node(Object(_), _, _) => ObjectYields(c, forced, from, x);
      case Node(List(_), mount, _) =>
        assert Goes(c, forced, from, Group(from.value, mount));
      case Node(_, _, _) =>
      case Group(List(items), mount) =>
        ItemsYield(c, from.value, items, mount, forced, x);
        forall item <- items | Container(item) ensures Goes(c, forced, from, Node(item, mount, None)) {}
      case Group(Object(fields), mount) =>
        KeysAreLiteral(fields);
        ListedYields(SortFields(fields), mount, x);
        forall f ensures f in SortFields(fields) <==> f in fields { SortKeeps(fields, f); }
        assert LooksLikeRecord(fields) || LooksLikeWrapper(fields) ==>
                 Goes(c, forced, from, Node(from.value, mount, None));
      case Group(_, _) =>
    }
  }

  // ---------------------------------------------------------------------------------------
  // Chains and the visitor agree
  // ---------------------------------------------------------------------------------------

  function Turn(spot: Spot): nat {
    if spot.Node? == spot.value.List? then 3 else 2
  }

  lemma StepsDescend(c: Cleaners, forced: bool, from: Spot, to: Spot)
    requires Goes(c, forced, from, to)
    ensures to.value < from.value || (to.value == from.value && Turn(to) < Turn(from))
  {
  }

  lemma LongerChain(c: Cleaners, forced: bool, from: Spot, spots: seq<Spot>, x: Candidate)
    requires Chain(c, forced, spots, x) && Goes(c, forced, from, spots[0])
    ensures Chain(c, forced, [from] + spots, x)
  {
    var all := [from] + spots;
    forall i | 0 <= i < |all| - 1 ensures Goes(c, forced, all[i], all[i + 1]) {
      assert i > 0 ==> all[i] == spots[i - 1] && all[i + 1] == spots[i];
    }
  }

  lemma {:induction false} YieldedIsReached(c: Cleaners, forced: bool, from: Spot, x: Candidate)
    requires x in Yielded(c, forced, from)
    ensures Reached(c, forced, from, x)
    decreases from.value, Turn(from)
  {
    SpotYields(c, forced, from, x);
    if Ends(c, forced, from, x) {
      assert Chain(c, forced, [from], x);
    } else {
      var to :| Goes(c, forced, from, to) && x in Yielded(c, forced, to);
      StepsDescend(c, forced, from, to);
      YieldedIsReached(c, forced, to, x);
      var spots :| Chain(c, forced, spots, x) && spots[0] == to;
      LongerChain(c, forced, from, spots, x);
    }
  }

  lemma {:induction false} ReachedIsYielded(c: Cleaners, forced: bool, spots: seq<Spot>, x: Candidate)
    requires Chain(c, forced, spots, x)
    ensures x in Yielded(c, forced, spots[0])
    decreases |spots|
  {
    SpotYields(c, forced, spots[0], x);
    if |spots| > 1 {
      ReachedIsYielded(c, forced, spots[1..], x);
      assert Goes(c, forced, spots[0], spots[1]);
    }
  }

  /** The candidates of an export are exactly the records that some chain of containers reaches. */
  lemma CandidatesAreListed(c: Cleaners, payload: Value, mountOverride: string, x: Candidate)
    ensures x in RecordCandidates(c, payload, mountOverride) <==> Lists(c, payload, mountOverride, x)
  {
    var given := c.mount(Text(mountOverride));
    var forced := given != "";
    var start := Node(payload, if forced then given else "pki", None);
    if x in Yielded(c, forced, start) {
      YieldedIsReached(c, forced, start, x);
    }
    if spots: seq<Spot> :| Chain(c, forced, spots, x) && spots[0] == start {
      ReachedIsYielded(c, forced, spots, x);
    }
  }

  // ---------------------------------------------------------------------------------------
  // One record
  // ---------------------------------------------------------------------------------------

  /** The first text that is not empty, or nothing when all are. */
  ghost predicate Picks(texts: seq<string>, text: string) {
    || (exists i | 0 <= i < |texts| :: text == texts[i] != "" && forall j | 0 <= j < i :: texts[j] == "")
    || (text == "" && forall j | 0 <= j < |texts| :: texts[j] == "")
  }

  lemma {:induction false} FirstOfPicks(texts: seq<string>)
    ensures Picks(texts, FirstOf(texts))
  {
    if texts != [] && texts[0] == "" {
      FirstOfPicks(texts[1..]);
      forall j | 0 <= j < |texts| - 1 ensures texts[1..][j] == texts[j + 1] {}
      if i :| 0 <= i < |texts| - 1 && FirstOf(texts) == texts[1..][i] != ""
              && forall j | 0 <= j < i :: texts[1..][j] == "" {
        assert texts[i + 1] == FirstOf(texts);
        forall j | 0 <= j < i + 1 ensures texts[j] == "" { if j > 0 { assert texts[1..][j - 1] == ""; } }
      } else {
        forall j | 0 <= j < |texts| ensures texts[j] == "" { if j > 0 { assert texts[1..][j - 1] == ""; } }
      }
    }
  }

  /** A status given directly, or as the state, phase or status of an object. */
  predicate States(fields: seq<Field>, stated: Value) {
    var given := Get(fields, "status");
    if !given.Object? then stated == given
    else if !Blank(Get(given.fields, "state")) then stated == Get(given.fields, "state")
    else if !Blank(Get(given.fields, "phase")) then stated == Get(given.fields, "phase")
    else stated == Get(given.fields, "status")
  }

  /** A revocation flag, a positive revocation time, or a revocation date after the year one. */
  predicate Revokes(c: Cleaners, fields: seq<Field>) {
    var date := c.date(Get(fields, "revocation_time_rfc3339"));
    || Get(fields, "revoked") == Bool(true)
    || (!Get(fields, "revocation_time").Bool? && c.positive(Get(fields, "revocation_time")))
    || (date != "" && !(|date| >= 5 && date[..5] == "0001-"))
  }

  // What the decoded certificate of a record contributes; nothing when there is none.

  function CertificateName(c: Cleaners, fields: seq<Field>): string {
    match c.certificate(Get(fields, "certificate"))
    case Some(decoded) => c.identity(Text(decoded.commonName))
    case None => ""
  }

  function CertificateSerial(c: Cleaners, fields: seq<Field>): string {
    match c.certificate(Get(fields, "certificate"))
    case Some(decoded) => c.serial(Text(decoded.serial))
    case None => ""
  }

  function CertificateEnd(c: Cleaners, fields: seq<Field>): string {
    match c.certificate(Get(fields, "certificate"))
    case Some(decoded) => c.date(Text(decoded.notAfter))
    case None => ""
  }

  // The columns of a record, each the first text its cleaner accepts.

  ghost predicate HasCommonName(c: Cleaners, fields: seq<Field>, text: string) {
    Picks([c.identity(Get(fields, "common_name")), c.identity(Get(fields, "commonName")), CertificateName(c, fields)],
          text)
  }

  ghost predicate HasSerial(c: Cleaners, fields: seq<Field>, hint: Value, text: string) {
    Picks([c.serial(Get(fields, "serial")), c.serial(Get(fields, "serial_number")),
           c.serial(Get(fields, "serialNumber")), c.serial(hint), CertificateSerial(c, fields)], text)
  }

  ghost predicate HasEnd(c: Cleaners, fields: seq<Field>, text: string) {
    Picks([c.date(Get(fields, "not_after")), c.date(Get(fields, "notAfter")), c.date(Get(fields, "expiration")),
           c.date(Get(fields, "expiry")), CertificateEnd(c, fields)], text)
  }

  /** Revocation decides, then what the record states, then whether it holds more than a serial. */
  ghost predicate HasStatus(c: Cleaners, fields: seq<Field>, bare: bool, status: string) {
    exists stated: Value | States(fields, stated) ::
      if Revokes(c, fields) then status == "revoked"
      else if c.status(stated) != "" then status == c.status(stated)
      else status == if HasKey(fields, "status") || bare then "unknown" else "ready"
  }

  /** The record read from the fields, whose common name in the source is `common`. */
  ghost predicate ReadsWith(c: Cleaners, fields: seq<Field>, mount: string, hint: Value, common: string, r: Record) {
    var given := c.identity(Get(fields, "name"));
    && HasCommonName(c, fields, common) && HasSerial(c, fields, hint, r.serial) && HasEnd(c, fields, r.notAfter)
    && !(common == given == r.serial == r.notAfter == "")
    && r.name == (if given != "" then given else if common != "" then common
                  else if r.serial != "" then r.serial else "vault-pki-certificate")
    && r.commonName == (if common != "" then common else r.name)
    && r.mount == (if c.mount(Text(mount)) != "" then c.mount(Text(mount)) else "pki")
    && HasStatus(c, fields,
                 common == given == r.notAfter == "" && c.certificate(Get(fields, "certificate")).None?, r.status)
  }

  ghost predicate Reads(c: Cleaners, fields: seq<Field>, mount: string, hint: Value, r: Record) {
    exists common: string :: ReadsWith(c, fields, mount, hint, common, r)
  }

  lemma PicksFirst(texts: seq<string>)
    ensures forall text :: Picks(texts, text) <==> text == FirstOf(texts)
  {
    FirstOfPicks(texts);
    forall text | Picks(texts, text) ensures text == FirstOf(texts) { PicksOne(texts, text, FirstOf(texts)); }
  }

  lemma PicksOne(texts: seq<string>, a: string, b: string)
    requires Picks(texts, a) && Picks(texts, b)
    ensures a == b
  {
  }

  lemma StatusIsDecided(c: Cleaners, fields: seq<Field>, bare: bool, status: string)
    ensures HasStatus(c, fields, bare, status) <==> status == StatusOf(c, fields, !bare)
  {
    var date := c.date(Get(fields, "revocation_time_rfc3339"));
    assert "0001-" <= date <==> |date| >= 5 && date[..5] == "0001-";
    forall stated ensures States(fields, stated) <==> stated == StatusValue(fields) {}
    assert States(fields, StatusValue(fields));
  }

  lemma SerialIsFirst(c: Cleaners, fields: seq<Field>, hint: Value, text: string)
    ensures HasSerial(c, fields, hint, text) <==> text == SerialOf(c, fields, hint)
  {
    PicksFirst([c.serial(Get(fields, "serial")), c.serial(Get(fields, "serial_number")),
                c.serial(Get(fields, "serialNumber")), c.serial(hint), CertificateSerial(c, fields)]);
  }

  lemma CommonNameIsFirst(c: Cleaners, fields: seq<Field>, text: string)
    ensures HasCommonName(c, fields, text) <==> text == CommonNameOf(c, fields)
  {
    PicksFirst([c.identity(Get(fields, "common_name")), c.identity(Get(fields, "commonName")),
                CertificateName(c, fields)]);
  }

  lemma EndIsFirst(c: Cleaners, fields: seq<Field>, text: string)
    ensures HasEnd(c, fields, text) <==> text == NotAfterOf(c, fields)
  {
    PicksFirst([c.date(Get(fields, "not_after")), c.date(Get(fields, "notAfter")), c.date(Get(fields, "expiration")),
                c.date(Get(fields, "expiry")), CertificateEnd(c, fields)]);
  }

  lemma RecordIsReadWith(c: Cleaners, fields: seq<Field>, mount: string, hint: Value, r: Record)
    ensures NormalizeFields(c, fields, mount, hint) == Some(r) <==>
            ReadsWith(c, fields, mount, hint, CommonNameOf(c, fields), r)
  {
    var common, given := CommonNameOf(c, fields), c.identity(Get(fields, "name"));
    CommonNameIsFirst(c, fields, common);
    SerialIsFirst(c, fields, hint, r.serial);
    EndIsFirst(c, fields, r.notAfter);
    var bare := common == given == r.notAfter == "" && c.certificate(Get(fields, "certificate")).None?;
    StatusIsDecided(c, fields, bare, r.status);
    FourFirst(given, common, r.serial);
  }

  /** A record is normalised exactly to what reading its fields gives. */
  lemma RecordIsRead(c: Cleaners, fields: seq<Field>, mount: string, hint: Value, r: Record)
    ensures NormalizeFields(c, fields, mount, hint) == Some(r) <==> Reads(c, fields, mount, hint, r)
  {
    RecordIsReadWith(c, fields, mount, hint, r);
    if common: string :| ReadsWith(c, fields, mount, hint, common, r) {
      CommonNameIsFirst(c, fields, common);
    }
  }

  lemma FourFirst(given: string, common: string, serial: string)
    ensures FirstOf([given, common, serial, UNNAMED])
         == if given != "" then given else if common != "" then common else if serial != "" then serial else UNNAMED
    ensures FirstOf([common, given, serial, UNNAMED])
         == if common != "" then common else FirstOf([given, common, serial, UNNAMED])
  {
    Firsts(given, common, serial);
    Firsts(common, given, serial);
  }

  lemma Firsts(a: string, b: string, d: string)
    ensures FirstOf([a, b, d, UNNAMED])
         == if a != "" then a else if b != "" then b else if d != "" then d else UNNAMED
  {
    assert FirstOf([UNNAMED]) == UNNAMED;
    assert [d, UNNAMED][1..] == [UNNAMED] && [b, d, UNNAMED][1..] == [d, UNNAMED];
    assert [a, b, d, UNNAMED][1..] == [b, d, UNNAMED];
    assert UNNAMED[0] == 'v';
    assert FirstOf([d, UNNAMED]) == if d != "" then d else UNNAMED;
    assert FirstOf([b, d, UNNAMED]) == if b != "" then b else FirstOf([d, UNNAMED]);
  }

  /** What a listed value is read as: an object by its fields, a text or whole number as a serial,
      anything else as nothing. */
  ghost predicate ReadsAs(c: Cleaners, x: Candidate, r: Record) {
    match x.record
    case Object(fields) => Reads(c, fields, x.mount, if x.hint.Some? then Text(x.hint.value) else Null, r)
    case Text(_) => Reads(c, [], x.mount, x.record, r)
    case Int(_) => Reads(c, [], x.mount, x.record, r)
    case _ => false
  }

  lemma CandidateIsRead(c: Cleaners, x: Candidate, r: Record)
    ensures NormalizeRecord(c, x.record, x.mount, x.hint) == Some(r) <==> ReadsAs(c, x, r)
  {
    match x.record {
      case Object(fields) => RecordIsRead(c, fields, x.mount, if x.hint.Some? then Text(x.hint.value) else Null, r);
      case _ => RecordIsRead(c, [], x.mount, x.record, r);
    }
  }

  /** Some export lists a value that is read as r. */
  ghost predicate Found(c: Cleaners, payloads: seq<Payload>, r: Record) {
    exists p, x | p in payloads && Lists(c, p.0, p.1, x) :: ReadsAs(c, x, r)
  }

  lemma RecordSetIsFound(c: Cleaners, payloads: seq<Payload>, r: Record)
    ensures r in RecordSet(c, payloads) <==> Found(c, payloads, r)
  {
    if r in RecordSet(c, payloads) {
      var p :| p in payloads && r in ExportRecords(c, p);
      var x :| x in RecordCandidates(c, p.0, p.1) && NormalizeRecord(c, x.record, x.mount, x.hint) == Some(r);
      CandidatesAreListed(c, p.0, p.1, x);
      CandidateIsRead(c, x, r);
    }
    if Found(c, payloads, r) {
      var p, x :| p in payloads && Lists(c, p.0, p.1, x) && ReadsAs(c, x, r);
      CandidatesAreListed(c, p.0, p.1, x);
      CandidateIsRead(c, x, r);
      assert r in ExportRecords(c, p);
    }
  }

  /** Mount, common name, serial, end date, name and status decide the order, in this order. */
  predicate Precedes(a: Record, b: Record) {
    if a.mount != b.mount then Less(a.mount, b.mount)
    else if a.commonName != b.commonName then Less(a.commonName, b.commonName)
    else if a.serial != b.serial then Less(a.serial, b.serial)
    else if a.notAfter != b.notAfter then Less(a.notAfter, b.notAfter)
    else if a.name != b.name then Less(a.name, b.name)
    else Less(a.status, b.status)
  }

  lemma FirstDecides(x: string, y: string, a: seq<string>, b: seq<string>)
    requires |a| == |b|
    ensures TupleLess([x] + a, [y] + b) <==> if x != y then Less(x, y) else TupleLess(a, b)
  {
  }

  lemma OrderIsLiteral(a: Record, b: Record)
    ensures Before(a, b) <==> Precedes(a, b)
  {
    var s, t := SortKey(a), SortKey(b);
    forall k: nat | k < 6 ensures s[k..] == [s[k]] + s[k + 1..] && t[k..] == [t[k]] + t[k + 1..] {}
    assert s[0..] == s && t[0..] == t;
    forall k: nat | k < 6
      ensures TupleLess(s[k..], t[k..]) <==>
              if s[k] != t[k] then Less(s[k], t[k]) else TupleLess(s[k + 1..], t[k + 1..])
    {
      FirstDecides(s[k], t[k], s[k + 1..], t[k + 1..]);
    }
    assert TupleLess(s[5..], t[5..]) <==> Less(s[5], t[5]) by { LessIsTotal(s[5], t[5]); }
    assert TupleLess(s[4..], t[4..]) <==> if s[4] != t[4] then Less(s[4], t[4]) else TupleLess(s[5..], t[5..]);
    assert TupleLess(s[3..], t[3..]) <==> if s[3] != t[3] then Less(s[3], t[3]) else TupleLess(s[4..], t[4..]);
    assert TupleLess(s[2..], t[2..]) <==> if s[2] != t[2] then Less(s[2], t[2]) else TupleLess(s[3..], t[3..]);
    assert TupleLess(s[1..], t[1..]) <==> if s[1] != t[1] then Less(s[1], t[1]) else TupleLess(s[2..], t[2..]);
    assert TupleLess(s[0..], t[0..]) <==> if s[0] != t[0] then Less(s[0], t[0]) else TupleLess(s[1..], t[1..]);
  }

  /** What a collection is: found records only, each once and in order; one found record is left
      out only when the list is full, and then those shown precede it. */
  ghost predicate CollectsTheFirst(c: Cleaners, payloads: seq<Payload>, maxCount: nat, certificates: seq<Record>) {
    && |certificates| <= maxCount
    && (forall i, j | 0 <= i < j < |certificates| :: Precedes(certificates[i], certificates[j]))
    && (forall r <- certificates :: Found(c, payloads, r))
    && (forall r | Found(c, payloads, r) && r !in certificates ::
          |certificates| == maxCount && forall shown <- certificates :: Precedes(shown, r))
  }

  lemma CollectionIsFirst(c: Cleaners, payloads: seq<Payload>, maxCount: nat, certificates: seq<Record>)
    requires Collected(c, payloads, maxCount, certificates)
    ensures CollectsTheFirst(c, payloads, maxCount, certificates)
  {
    var full :| Increasing(full) && Elements(full) == RecordSet(c, payloads) && certificates == Take(full, maxCount);
    forall i, j | 0 <= i < j < |full| ensures Precedes(full[i], full[j]) { OrderIsLiteral(full[i], full[j]); }
    forall r ensures r in full <==> Found(c, payloads, r) {
      RecordSetIsFound(c, payloads, r);
      assert r in full <==> r in Elements(full);
    }
    forall r | Found(c, payloads, r) && r !in certificates
      ensures |certificates| == maxCount && forall shown <- certificates :: Precedes(shown, r)
    {
      var j :| 0 <= j < |full| && full[j] == r;
      assert j >= maxCount;
    }
  }
}
