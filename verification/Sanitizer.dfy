/** The depth- and size-bounded sanitizer that every payload passes before it is shown or
    stored. A tuple or a set enters as the list that `list(value)` makes of it. Text redaction
    and key secrecy are arbitrary; what the results need of them is stated where it is needed. */
module Sanitizer {
  import opened Json

  const REDACTED := Text("[REDACTED]")
  const TRUNCATED := Text("[TRUNCATED]")
  const TRUNCATED_KEY := "_truncated"
  const KEY_LIMIT := 120

  datatype Rules = Rules(
    redact: (string, nat) -> string,
    secret: string -> bool,
    maxDepth: nat, maxItems: nat, textLimit: nat)

  // ---------------------------------------------------------------------------------------
  // Dictionaries
  // ---------------------------------------------------------------------------------------

  /** Assignment to a dictionary key: in place when the key exists, else at the end. */
  function Put(fields: seq<Field>, key: string, value: Value): seq<Field> {
    if fields == [] then [Field(key, value)]
    else if fields[0].key == key then [Field(key, value)] + fields[1..]
    else [fields[0]] + Put(fields[1..], key, value)
  }

  predicate DistinctKeys(fields: seq<Field>) {
    forall i, j | 0 <= i < j < |fields| :: fields[i].key != fields[j].key
  }

  // ---------------------------------------------------------------------------------------
  // Specification
  // ---------------------------------------------------------------------------------------

  function Sanitized(r: Rules, value: Value, depth: nat): Value
    decreases value, 0
  {
    if depth >= r.maxDepth then TRUNCATED else
      match value
      case Object(fields) => Object(SanitizedFields(r, fields, depth, |fields|))
      case List(items) => List(SanitizedItems(r, items, depth, |items|))
      case Text(text) => Text(r.redact(text, r.textLimit))
      case Other(rendering) => Text(r.redact(rendering, r.textLimit))
      case _ => value
  }

  /** The first n items, the rest behind one marker. */
  function SanitizedItems(r: Rules, items: seq<Value>, depth: nat, n: nat): seq<Value>
    requires n <= |items|
    decreases items, n
  {
    if n == 0 then []
    else if n > r.maxItems then SanitizedItems(r, items, depth, r.maxItems) + [TRUNCATED]
    else SanitizedItems(r, items, depth, n - 1) + [Sanitized(r, items[n - 1], depth + 1)]
  }

  function SanitizedChild(r: Rules, field: Field, depth: nat): Value
    decreases field, 1
  {
    if r.secret(field.key) then REDACTED else Sanitized(r, field.value, depth + 1)
  }

  /** The dictionary after n fields. */
  function SanitizedFields(r: Rules, fields: seq<Field>, depth: nat, n: nat): seq<Field>
    requires n <= |fields|
    decreases fields, n
  {
    if n == 0 then []
    else if n > r.maxItems then Put(SanitizedFields(r, fields, depth, r.maxItems), TRUNCATED_KEY, Bool(true))
    else Put(SanitizedFields(r, fields, depth, n - 1), r.redact(fields[n - 1].key, KEY_LIMIT),
             SanitizedChild(r, fields[n - 1], depth))
  }

  // ---------------------------------------------------------------------------------------
  // Implementation
  // ---------------------------------------------------------------------------------------

  method Sanitize(r: Rules, value: Value, depth: nat) returns (out: Value)
    ensures out == Sanitized(r, value, depth)
    decreases value, 0
  {
    if depth >= r.maxDepth {
      return TRUNCATED;
    }
    match value {
      case Object(fields) =>
        var sanitized: seq<Field> := [];
        var index := 0;
        while index < |fields|
          invariant 0 <= index <= |fields| && index <= r.maxItems
          invariant sanitized == SanitizedFields(r, fields, depth, index)
        {
          if index >= r.maxItems {
            sanitized := Put(sanitized, TRUNCATED_KEY, Bool(true));
            FieldsBeyondLimit(r, fields, depth, |fields|);
            return Object(sanitized);
          }
          var renderedKey := r.redact(fields[index].key, KEY_LIMIT);
          var child := REDACTED;
          if !r.secret(fields[index].key) {
            child := Sanitize(r, fields[index].value, depth + 1);
          }
          sanitized := Put(sanitized, renderedKey, child);
          index := index + 1;
        }
        out := Object(sanitized);
      case List(items) =>
        var kept := if |items| > r.maxItems then r.maxItems else |items|;
        var sanitizedItems: seq<Value> := [];
        for k := 0 to kept
          invariant sanitizedItems == SanitizedItems(r, items, depth, k)
        {
          var item := Sanitize(r, items[k], depth + 1);
          sanitizedItems := sanitizedItems + [item];
        }
        if |items| > r.maxItems {
          sanitizedItems := sanitizedItems + [TRUNCATED];
        }
        out := List(sanitizedItems);
      case Text(text) => out := Text(r.redact(text, r.textLimit));
      case Other(rendering) => out := Text(r.redact(rendering, r.textLimit));
      case _ => out := value;
    }
  }

  lemma FieldsBeyondLimit(r: Rules, fields: seq<Field>, depth: nat, n: nat)
    requires r.maxItems < n <= |fields|
    ensures SanitizedFields(r, fields, depth, n)
         == Put(SanitizedFields(r, fields, depth, r.maxItems), TRUNCATED_KEY, Bool(true))
  {
  }

  // ---------------------------------------------------------------------------------------
  // Bounds
  // ---------------------------------------------------------------------------------------

  /** At most `depth` containers are nested, none larger than `size`. */
  ghost predicate Bounded(value: Value, depth: int, size: nat)
    decreases value
  {
    match value
    case Object(fields) =>
      depth > 0 && |fields| <= size && forall f <- fields :: Bounded(f.value, depth - 1, size)
    case List(items) => depth > 0 && |items| <= size && forall item <- items :: Bounded(item, depth - 1, size)
    case _ => true
  }

  lemma {:induction false} PutMembers(fields: seq<Field>, key: string, value: Value)
    ensures forall f <- Put(fields, key, value) :: f in fields || f == Field(key, value)
    ensures |fields| <= |Put(fields, key, value)| <= |fields| + 1
  {
    if fields != [] && fields[0].key != key {
      PutMembers(fields[1..], key, value);
    }
  }

  /** The result nests at most `maxDepth` containers of at most `maxItems + 1` members. */
  lemma {:induction false} SanitizedIsBounded(r: Rules, value: Value, depth: nat)
    ensures Bounded(Sanitized(r, value, depth), r.maxDepth - depth, r.maxItems + 1)
    decreases value, 0
  {
    if depth < r.maxDepth {
      match value {
        case Object(fields) => FieldsAreBounded(r, fields, depth, |fields|);
        case List(items) => ItemsAreBounded(r, items, depth, |items|);
        case _ =>
      }
    }
  }

  lemma {:induction false} ItemsAreBounded(r: Rules, items: seq<Value>, depth: nat, n: nat)
    requires n <= |items|
    ensures forall item <- SanitizedItems(r, items, depth, n) ::
              Bounded(item, r.maxDepth - depth - 1, r.maxItems + 1)
    ensures |SanitizedItems(r, items, depth, n)| == if n > r.maxItems then r.maxItems + 1 else n
    decreases items, n
  {
    if n > r.maxItems {
      ItemsAreBounded(r, items, depth, r.maxItems);
    } else if n > 0 {
      ItemsAreBounded(r, items, depth, n - 1);
      SanitizedIsBounded(r, items[n - 1], depth + 1);
    }
  }

  lemma PutKeepsBounds(fields: seq<Field>, key: string, value: Value, depth: int, size: nat)
    requires Bounded(value, depth, size) && forall f <- fields :: Bounded(f.value, depth, size)
    ensures forall f <- Put(fields, key, value) :: Bounded(f.value, depth, size)
    ensures |Put(fields, key, value)| <= |fields| + 1
  {
    PutMembers(fields, key, value);
  }

  lemma {:induction false} FieldsAreBounded(r: Rules, fields: seq<Field>, depth: nat, n: nat)
    requires n <= |fields|
    ensures forall f <- SanitizedFields(r, fields, depth, n) ::
              Bounded(f.value, r.maxDepth - depth - 1, r.maxItems + 1)
    ensures |SanitizedFields(r, fields, depth, n)| <= if n > r.maxItems then r.maxItems + 1 else n
    decreases fields, n
  {
    if n > r.maxItems {
      FieldsAreBounded(r, fields, depth, r.maxItems);
      PutKeepsBounds(SanitizedFields(r, fields, depth, r.maxItems), TRUNCATED_KEY, Bool(true), r.maxDepth - depth - 1,
                     r.maxItems + 1);
    } else if n > 0 {
      FieldsAreBounded(r, fields, depth, n - 1);
      if !r.secret(fields[n - 1].key) {
        SanitizedIsBounded(r, fields[n - 1].value, depth + 1);
      }
      PutKeepsBounds(SanitizedFields(r, fields, depth, n - 1), r.redact(fields[n - 1].key, KEY_LIMIT),
                     SanitizedChild(r, fields[n - 1], depth), r.maxDepth - depth - 1, r.maxItems + 1);
    }
  }

  // ---------------------------------------------------------------------------------------
  // Secrets do not show
  // ---------------------------------------------------------------------------------------

  /** Two values that differ at most in what is stored under secret keys. */
  ghost predicate AlikeOutsideSecrets(r: Rules, a: Value, b: Value)
    decreases a
  {
    match a
    case Object(fields) =>
      && b.Object? && |fields| == |b.fields|
      && forall i | 0 <= i < |fields| ::
           && fields[i].key == b.fields[i].key
           && (r.secret(fields[i].key) || AlikeOutsideSecrets(r, fields[i].value, b.fields[i].value))
    case List(items) =>
      && b.List? && |items| == |b.items|
      && forall i | 0 <= i < |items| :: AlikeOutsideSecrets(r, items[i], b.items[i])
    case _ => a == b
  }

  /** The output is the same whatever is stored under secret keys. */
  lemma {:induction false} SecretsDoNotShow(r: Rules, a: Value, b: Value, depth: nat)
    requires AlikeOutsideSecrets(r, a, b)
    ensures Sanitized(r, a, depth) == Sanitized(r, b, depth)
    decreases a, 0
  {
    if depth < r.maxDepth {
      match a {
        case Object(fields) => FieldsAlike(r, a, b, depth, |fields|);
        case List(items) => ItemsAlike(r, a, b, depth, |items|);
        case _ =>
      }
    }
  }

  lemma {:induction false} ItemsAlike(r: Rules, a: Value, b: Value, depth: nat, n: nat)
    requires a.List? && AlikeOutsideSecrets(r, a, b) && n <= |a.items|
    ensures SanitizedItems(r, a.items, depth, n) == SanitizedItems(r, b.items, depth, n)
    decreases a.items, n
  {
    if n > r.maxItems {
      ItemsAlike(r, a, b, depth, r.maxItems);
    } else if n > 0 {
      ItemsAlike(r, a, b, depth, n - 1);
      SecretsDoNotShow(r, a.items[n - 1], b.items[n - 1], depth + 1);
    }
  }

  lemma {:induction false} FieldsAlike(r: Rules, a: Value, b: Value, depth: nat, n: nat)
    requires a.Object? && AlikeOutsideSecrets(r, a, b) && n <= |a.fields|
    ensures SanitizedFields(r, a.fields, depth, n) == SanitizedFields(r, b.fields, depth, n)
    decreases a.fields, n
  {
    if n > r.maxItems {
      FieldsAlike(r, a, b, depth, r.maxItems);
    } else if n > 0 {
      FieldsAlike(r, a, b, depth, n - 1);
      if !r.secret(a.fields[n - 1].key) {
        SecretsDoNotShow(r, a.fields[n - 1].value, b.fields[n - 1].value, depth + 1);
      }
    }
  }

  // ---------------------------------------------------------------------------------------
  // Sanitizing twice
  // ---------------------------------------------------------------------------------------

  /** The key of the truncation marker is plain text and no secret key. */
  predicate MarkerIsPlain(r: Rules) {
    r.redact(TRUNCATED_KEY, KEY_LIMIT) == TRUNCATED_KEY && !r.secret(TRUNCATED_KEY)
  }

  function RenderedKeys(r: Rules, fields: seq<Field>): (keys: seq<string>)
    ensures |keys| == |fields|
  {
    seq(|fields|, i requires 0 <= i < |fields| => r.redact(fields[i].key, KEY_LIMIT))
  }

  /** Index i is the last of the first n with its key. */
  predicate Survives(keys: seq<string>, n: nat, i: nat)
    requires n <= |keys|
  {
    i < n && forall j | i < j < n :: keys[j] != keys[i]
  }

  predicate AllDifferent(keys: seq<string>, n: nat)
    requires n <= |keys|
  {
    forall i, j | 0 <= i < j < n :: keys[i] != keys[j]
  }

  /** The first n fields keep an entry each, and none of them takes the marker's key. */
  predicate RoomForMarker(keys: seq<string>, n: nat)
    requires n <= |keys|
  {
    AllDifferent(keys, n) && forall i | 0 <= i < n :: keys[i] != TRUNCATED_KEY
  }

  function Kept(r: Rules, n: nat): nat {
    if n > r.maxItems then r.maxItems else n
  }

  /** Entry i of an object is still there after the truncation marker is set. */
  predicate Remains(r: Rules, keys: seq<string>, i: nat) {
    && Survives(keys, Kept(r, |keys|), i)
    && (|keys| > r.maxItems ==> keys[i] != TRUNCATED_KEY)
  }

  /** Redacting a text a second time changes nothing. */
  predicate RedactsOnce(r: Rules, text: string, limit: nat) {
    r.redact(r.redact(text, limit), limit) == r.redact(text, limit)
  }

  /** A value that the first pass turns into what stands under secret keys. */
  predicate ShowsRedacted(r: Rules, value: Value, depth: nat) {
    && depth < r.maxDepth
    && match value
       case Text(text) => Text(r.redact(text, r.textLimit)) == REDACTED
       case Other(rendering) => Text(r.redact(rendering, r.textLimit)) == REDACTED
       case _ => false
  }

  /** What the redaction of `[REDACTED]` itself leaves in place. */
  predicate RedactedStays(r: Rules, depth: nat) {
    depth < r.maxDepth && Text(r.redact(REDACTED.text, r.textLimit)) == REDACTED
  }

  /** Texts and the keys that remain are redacted for good by one pass; a key that becomes secret
      stands over nothing but `[REDACTED]`, one that stops being secret is above the last level;
      and no object on the last level that has too many fields lets its truncation marker replace
      one of the fields it keeps, because there the marker would be cut by a second pass. */
  ghost predicate Settled(r: Rules, value: Value, depth: nat)
    decreases value
  {
    depth < r.maxDepth ==>
      match value
      case Text(text) => RedactsOnce(r, text, r.textLimit)
      case Other(rendering) => RedactsOnce(r, rendering, r.textLimit)
      case Object(fields) =>
        && (depth + 1 >= r.maxDepth && |fields| > r.maxItems ==> RoomForMarker(RenderedKeys(r, fields), r.maxItems))
        && forall i | 0 <= i < |fields| && Remains(r, RenderedKeys(r, fields), i) ::
             && RedactsOnce(r, fields[i].key, KEY_LIMIT)
             && if r.secret(r.redact(fields[i].key, KEY_LIMIT)) then
                  r.secret(fields[i].key) || ShowsRedacted(r, fields[i].value, depth + 1)
                else if r.secret(fields[i].key) then RedactedStays(r, depth + 1)
                else Settled(r, fields[i].value, depth + 1)
      case List(items) => forall i | 0 <= i < Kept(r, |items|) :: Settled(r, items[i], depth + 1)
      case _ => true
  }

  // Building a dictionary from a list of keys and values.

  lemma HasKeyCons(first: Field, rest: seq<Field>, key: string)
    ensures HasKey([first] + rest, key) <==> first.key == key || HasKey(rest, key)
  {
    var all := [first] + rest;
    if HasKey(all, key) && first.key != key {
      var i :| 0 <= i < |all| && all[i].key == key;
      assert rest[i - 1].key == key;
    }
    if HasKey(rest, key) {
      var i :| 0 <= i < |rest| && rest[i].key == key;
      assert all[i + 1].key == key;
    }
    assert all[0] == first;
  }

  lemma {:induction false} PutSize(fields: seq<Field>, key: string, value: Value)
    ensures |Put(fields, key, value)| == if HasKey(fields, key) then |fields| else |fields| + 1
    ensures !HasKey(fields, key) ==> Put(fields, key, value) == fields + [Field(key, value)]
  {
    if fields != [] {
      assert fields == [fields[0]] + fields[1..];
      HasKeyCons(fields[0], fields[1..], key);
      if fields[0].key != key {
        PutSize(fields[1..], key, value);
      }
    }
  }

  lemma {:induction false} PutExactly(fields: seq<Field>, key: string, value: Value)
    requires DistinctKeys(fields)
    ensures DistinctKeys(Put(fields, key, value))
    ensures forall f :: f in Put(fields, key, value) <==> f == Field(key, value) || (f in fields && f.key != key)
  {
    if fields != [] {
      var first, rest := fields[0], fields[1..];
      assert fields == [first] + rest;
      if first.key != key {
        PutExactly(rest, key, value);
        var after := Put(rest, key, value);
        forall j | 0 <= j < |after| ensures after[j].key != first.key { assert after[j] in after; }
        DistinctCons(first, after);
      } else {
        DistinctCons(Field(key, value), rest);
      }
    }
  }

  lemma DistinctCons(first: Field, rest: seq<Field>)
    requires DistinctKeys(rest) && forall j | 0 <= j < |rest| :: rest[j].key != first.key
    ensures DistinctKeys([first] + rest)
  {
  }

  /** The dictionary after n assignments. */
  function PutAll(keys: seq<string>, values: seq<Value>, n: nat): seq<Field>
    requires n <= |keys| == |values|
  {
    if n == 0 then [] else Put(PutAll(keys, values, n - 1), keys[n - 1], values[n - 1])
  }

  /** f is what one of the first n assignments leaves behind. */
  ghost predicate IsEntry(keys: seq<string>, values: seq<Value>, n: nat, f: Field)
    requires n <= |keys| == |values|
  {
    exists i: nat :: Survives(keys, n, i) && f == Field(keys[i], values[i])
  }

  lemma NextEntry(keys: seq<string>, values: seq<Value>, n: nat, f: Field)
    requires 0 < n <= |keys| == |values|
    ensures IsEntry(keys, values, n, f) <==>
            (f == Field(keys[n - 1], values[n - 1]) || (IsEntry(keys, values, n - 1, f) && f.key != keys[n - 1]))
  {
    if IsEntry(keys, values, n, f) {
      var i: nat :| Survives(keys, n, i) && f == Field(keys[i], values[i]);
      if i < n - 1 {
        assert Survives(keys, n - 1, i);
      }
    }
    if f == Field(keys[n - 1], values[n - 1]) {
      assert Survives(keys, n, n - 1);
    } else if IsEntry(keys, values, n - 1, f) && f.key != keys[n - 1] {
      var i: nat :| Survives(keys, n - 1, i) && f == Field(keys[i], values[i]);
      assert Survives(keys, n, i);
    }
  }

  /** The dictionary holds exactly the surviving assignments. */
  lemma {:induction false} PutAllEntries(keys: seq<string>, values: seq<Value>, n: nat)
    requires n <= |keys| == |values|
    ensures DistinctKeys(PutAll(keys, values, n))
    ensures forall f :: f in PutAll(keys, values, n) <==> IsEntry(keys, values, n, f)
  {
    if n > 0 {
      PutAllEntries(keys, values, n - 1);
      PutExactly(PutAll(keys, values, n - 1), keys[n - 1], values[n - 1]);
      forall f ensures f in PutAll(keys, values, n) <==> IsEntry(keys, values, n, f) {
        NextEntry(keys, values, n, f);
      }
    }
  }

  lemma LastWithKey(keys: seq<string>, n: nat, i: nat) returns (k: nat)
    requires i < n <= |keys|
    ensures Survives(keys, n, k) && keys[k] == keys[i]
    decreases n - i
  {
    if j :| i < j < n && keys[j] == keys[i] {
      k := LastWithKey(keys, n, j);
    } else {
      k := i;
    }
  }

  lemma KeysOfPutAll(keys: seq<string>, values: seq<Value>, n: nat, key: string)
    requires n <= |keys| == |values|
    ensures HasKey(PutAll(keys, values, n), key) <==> exists i :: 0 <= i < n && keys[i] == key
  {
    PutAllEntries(keys, values, n);
    var entries := PutAll(keys, values, n);
    if HasKey(entries, key) {
      var j :| 0 <= j < |entries| && entries[j].key == key;
      assert entries[j] in entries;
    }
    if i :| 0 <= i < n && keys[i] == key {
      var k := LastWithKey(keys, n, i);
      assert IsEntry(keys, values, n, Field(keys[k], values[k]));
      assert Field(keys[k], values[k]) in entries;
    }
  }

  /** Assigning different keys in order lists them in order. */
  lemma {:induction false} PutAllInOrder(keys: seq<string>, values: seq<Value>, n: nat)
    requires n <= |keys| == |values| && AllDifferent(keys, n)
    ensures |PutAll(keys, values, n)| == n
    ensures forall j | 0 <= j < n :: PutAll(keys, values, n)[j] == Field(keys[j], values[j])
  {
    if n > 0 {
      PutAllInOrder(keys, values, n - 1);
      var before := PutAll(keys, values, n - 1);
      assert !HasKey(before, keys[n - 1]) by {
        forall j | 0 <= j < |before| ensures before[j].key != keys[n - 1] {
        }
      }
      PutSize(before, keys[n - 1], values[n - 1]);
    }
  }

  /** Equal keys share an entry. */
  lemma {:induction false} SizeOfPutAll(keys: seq<string>, values: seq<Value>, n: nat)
    requires n <= |keys| == |values|
    ensures |PutAll(keys, values, n)| <= n
    ensures !AllDifferent(keys, n) ==> |PutAll(keys, values, n)| < n
  {
    if n > 0 {
      SizeOfPutAll(keys, values, n - 1);
      var before := PutAll(keys, values, n - 1);
      assert |PutAll(keys, values, n)| == if HasKey(before, keys[n - 1]) then |before| else |before| + 1 by {
        PutSize(before, keys[n - 1], values[n - 1]);
      }
      if AllDifferent(keys, n - 1) && !AllDifferent(keys, n) {
        var i :| 0 <= i < n - 1 && keys[i] == keys[n - 1];
        assert HasKey(before, keys[n - 1]) by { KeysOfPutAll(keys, values, n - 1, keys[n - 1]); }
      }
    }
  }

  // The two passes.

  function Children(r: Rules, fields: seq<Field>, depth: nat): (values: seq<Value>)
    ensures |values| == |fields|
  {
    seq(|fields|, i requires 0 <= i < |fields| => SanitizedChild(r, fields[i], depth))
  }

  lemma {:induction false} FieldsArePutAll(r: Rules, fields: seq<Field>, depth: nat, n: nat)
    requires n <= |fields| && n <= r.maxItems
    ensures SanitizedFields(r, fields, depth, n) == PutAll(RenderedKeys(r, fields), Children(r, fields, depth), n)
  {
    if n > 0 {
      FieldsArePutAll(r, fields, depth, n - 1);
    }
  }

  /** The members of a sanitized object: the fields that remain, and the marker. */
  lemma FirstPassEntries(r: Rules, fields: seq<Field>, depth: nat)
    ensures var keys, values := RenderedKeys(r, fields), Children(r, fields, depth);
            var out := SanitizedFields(r, fields, depth, |fields|);
            && DistinctKeys(out)
            && (forall i: nat | Remains(r, keys, i) :: Field(keys[i], values[i]) in out)
            && (forall f <- out ::
                  || (|fields| > r.maxItems && f == Field(TRUNCATED_KEY, Bool(true)))
                  || exists i: nat :: Remains(r, keys, i) && f == Field(keys[i], values[i]))
            && (|fields| > r.maxItems ==> Field(TRUNCATED_KEY, Bool(true)) in out)
  {
    var keys, values, n := RenderedKeys(r, fields), Children(r, fields, depth), Kept(r, |fields|);
    FieldsArePutAll(r, fields, depth, n);
    PutAllEntries(keys, values, n);
    var kept := PutAll(keys, values, n);
    var out := SanitizedFields(r, fields, depth, |fields|);
    if |fields| > r.maxItems {
      PutExactly(kept, TRUNCATED_KEY, Bool(true));
    }
    forall i: nat | Remains(r, keys, i) ensures Field(keys[i], values[i]) in out {
      assert IsEntry(keys, values, n, Field(keys[i], values[i]));
    }
    forall f <- out
      ensures || (|fields| > r.maxItems && f == Field(TRUNCATED_KEY, Bool(true)))
              || exists i: nat :: Remains(r, keys, i) && f == Field(keys[i], values[i]) {
      if !(|fields| > r.maxItems && f == Field(TRUNCATED_KEY, Bool(true))) {
        assert IsEntry(keys, values, n, f);
        var i: nat :| Survives(keys, n, i) && f == Field(keys[i], values[i]);
        assert Remains(r, keys, i);
      }
    }
  }

  /** The marker stands behind maxItems entries exactly when there is room for it. */
  lemma MarkerPosition(r: Rules, fields: seq<Field>, depth: nat)
    requires |fields| > r.maxItems
    ensures var out := SanitizedFields(r, fields, depth, |fields|);
            && |out| <= r.maxItems + 1
            && (|out| == r.maxItems + 1 <==> RoomForMarker(RenderedKeys(r, fields), r.maxItems))
            && (|out| == r.maxItems + 1 ==> out[r.maxItems] == Field(TRUNCATED_KEY, Bool(true)))
  {
    var keys, values, n := RenderedKeys(r, fields), Children(r, fields, depth), r.maxItems;
    FieldsArePutAll(r, fields, depth, n);
    PutAllEntries(keys, values, n);
    PutSize(PutAll(keys, values, n), TRUNCATED_KEY, Bool(true));
    KeysOfPutAll(keys, values, n, TRUNCATED_KEY);
    SizeOfPutAll(keys, values, n);
    if AllDifferent(keys, n) {
      PutAllInOrder(keys, values, n);
    }
  }

  predicate MarkerBehind(r: Rules, entries: seq<Field>) {
    && |entries| <= r.maxItems + 1
    && (|entries| == r.maxItems + 1 ==> entries[r.maxItems] == Field(TRUNCATED_KEY, Bool(true)))
  }

  /** A second pass leaves the entry of a sanitized object as it is. */
  predicate Stays(r: Rules, f: Field, depth: nat) {
    r.redact(f.key, KEY_LIMIT) == f.key && SanitizedChild(r, f, depth) == f.value
  }

  /** With every key its own, a second pass over a sanitized object lists its entries in order. */
  lemma SecondPassInOrder(r: Rules, entries: seq<Field>, depth: nat)
    requires MarkerBehind(r, entries) && AllDifferent(RenderedKeys(r, entries), Kept(r, |entries|))
    ensures var out, n := SanitizedFields(r, entries, depth, |entries|), Kept(r, |entries|);
            && |out| >= n
            && forall j | 0 <= j < n && (|entries| > n ==> RenderedKeys(r, entries)[j] != TRUNCATED_KEY) ::
                 out[j] == Field(RenderedKeys(r, entries)[j], SanitizedChild(r, entries[j], depth))
  {
    var keys, values, n := RenderedKeys(r, entries), Children(r, entries, depth), Kept(r, |entries|);
    FieldsArePutAll(r, entries, depth, n);
    PutAllInOrder(keys, values, n);
    if |entries| > r.maxItems {
      PutKeepsOthers(PutAll(keys, values, n), TRUNCATED_KEY, Bool(true));
    }
  }

  /** Assignment leaves the entries under other keys where they are. */
  lemma {:induction false} PutKeepsOthers(fields: seq<Field>, key: string, value: Value)
    ensures |fields| <= |Put(fields, key, value)|
    ensures forall j | 0 <= j < |fields| && fields[j].key != key :: Put(fields, key, value)[j] == fields[j]
  {
    if fields != [] && fields[0].key != key {
      PutKeepsOthers(fields[1..], key, value);
    }
  }

  lemma StayingKeys(r: Rules, entries: seq<Field>, depth: nat)
    requires DistinctKeys(entries) && MarkerBehind(r, entries)
    requires forall j | 0 <= j < Kept(r, |entries|) :: Stays(r, entries[j], depth)
    ensures forall j | 0 <= j < Kept(r, |entries|) :: RenderedKeys(r, entries)[j] == entries[j].key
    ensures AllDifferent(RenderedKeys(r, entries), Kept(r, |entries|))
    ensures |entries| > r.maxItems ==> RoomForMarker(RenderedKeys(r, entries), r.maxItems)
  {
    forall j | 0 <= j < Kept(r, |entries|) ensures RenderedKeys(r, entries)[j] == entries[j].key {
      assert Stays(r, entries[j], depth);
    }
  }

  /** With room for the marker a second pass is as long as the object and ends in the marker. */
  lemma SecondPassLength(r: Rules, entries: seq<Field>, depth: nat)
    requires MarkerBehind(r, entries) && AllDifferent(RenderedKeys(r, entries), Kept(r, |entries|))
    requires |entries| > r.maxItems ==> RoomForMarker(RenderedKeys(r, entries), r.maxItems)
    ensures var out := SanitizedFields(r, entries, depth, |entries|);
            |out| == |entries| && (|entries| > r.maxItems ==> out[r.maxItems] == entries[r.maxItems])
  {
    var keys, values, n := RenderedKeys(r, entries), Children(r, entries, depth), Kept(r, |entries|);
    FieldsArePutAll(r, entries, depth, n);
    PutAllInOrder(keys, values, n);
    if |entries| > n {
      KeysOfPutAll(keys, values, n, TRUNCATED_KEY);
      PutSize(PutAll(keys, values, n), TRUNCATED_KEY, Bool(true));
    }
  }

  /** Entries that stay one by one stay together. */
  lemma StayingEntries(r: Rules, entries: seq<Field>, depth: nat)
    requires DistinctKeys(entries) && MarkerBehind(r, entries)
    requires forall j | 0 <= j < Kept(r, |entries|) :: Stays(r, entries[j], depth)
    ensures SanitizedFields(r, entries, depth, |entries|) == entries
  {
    StayingKeys(r, entries, depth);
    SecondPassInOrder(r, entries, depth);
    SecondPassLength(r, entries, depth);
    var out := SanitizedFields(r, entries, depth, |entries|);
    forall j | 0 <= j < |entries| ensures out[j] == entries[j] {
      if j < Kept(r, |entries|) {
        assert Stays(r, entries[j], depth);
      }
    }
  }

  /** Entries that stay together stay one by one: none of them can have shared a key. */
  lemma StayingTogether(r: Rules, entries: seq<Field>, depth: nat, j: nat)
    requires MarkerBehind(r, entries) && j < Kept(r, |entries|)
    requires SanitizedFields(r, entries, depth, |entries|) == entries
    ensures Stays(r, entries[j], depth)
  {
    var keys, values, n := RenderedKeys(r, entries), Children(r, entries, depth), Kept(r, |entries|);
    FieldsArePutAll(r, entries, depth, n);
    SizeOfPutAll(keys, values, n);
    if |entries| > n {
      PutSize(PutAll(keys, values, n), TRUNCATED_KEY, Bool(true));
      KeysOfPutAll(keys, values, n, TRUNCATED_KEY);
    }
    assert AllDifferent(keys, n);
    SecondPassInOrder(r, entries, depth);
    assert entries[j] == Field(keys[j], SanitizedChild(r, entries[j], depth));
  }

  /** The entry of field i after the first pass. */
  function FirstEntry(r: Rules, fields: seq<Field>, depth: nat, i: nat): Field
    requires i < |fields|
  {
    Field(r.redact(fields[i].key, KEY_LIMIT), SanitizedChild(r, fields[i], depth))
  }

  /** There is no marker on the last level, or there is room for it. */
  predicate MarkerHasRoom(r: Rules, fields: seq<Field>, depth: nat) {
    depth + 1 >= r.maxDepth && |fields| > r.maxItems ==> RoomForMarker(RenderedKeys(r, fields), r.maxItems)
  }

  lemma ObjectOutput(r: Rules, fields: seq<Field>, depth: nat)
    ensures var out := SanitizedFields(r, fields, depth, |fields|);
            && DistinctKeys(out) && MarkerBehind(r, out)
            && (|fields| <= r.maxItems ==> |out| <= r.maxItems)
  {
    FirstPassEntries(r, fields, depth);
    if |fields| > r.maxItems {
      MarkerPosition(r, fields, depth);
    } else {
      FieldsArePutAll(r, fields, depth, |fields|);
      SizeOfPutAll(RenderedKeys(r, fields), Children(r, fields, depth), |fields|);
    }
  }

  lemma SettledObjectStays(r: Rules, fields: seq<Field>, depth: nat)
    requires MarkerIsPlain(r) && MarkerHasRoom(r, fields, depth)
    requires forall i: nat | i < |fields| && Remains(r, RenderedKeys(r, fields), i) ::
               Stays(r, FirstEntry(r, fields, depth, i), depth)
    ensures var out := SanitizedFields(r, fields, depth, |fields|);
            SanitizedFields(r, out, depth, |out|) == out
  {
    var out := SanitizedFields(r, fields, depth, |fields|);
    ObjectOutput(r, fields, depth);
    FirstPassEntries(r, fields, depth);
    forall j | 0 <= j < Kept(r, |out|) ensures Stays(r, out[j], depth) {
      assert out[j] in out;
      if |fields| > r.maxItems && out[j] == Field(TRUNCATED_KEY, Bool(true)) {
        MarkerPosition(r, fields, depth);
      } else {
        var i: nat :| Remains(r, RenderedKeys(r, fields), i)
                      && out[j] == Field(RenderedKeys(r, fields)[i], Children(r, fields, depth)[i]);
        assert out[j] == FirstEntry(r, fields, depth, i);
      }
    }
    StayingEntries(r, out, depth);
  }

  lemma StayingObjectHasRoom(r: Rules, fields: seq<Field>, depth: nat)
    requires MarkerIsPlain(r)
    requires var out := SanitizedFields(r, fields, depth, |fields|);
             SanitizedFields(r, out, depth, |out|) == out
    ensures MarkerHasRoom(r, fields, depth)
  {
    if depth + 1 >= r.maxDepth && |fields| > r.maxItems {
      var out := SanitizedFields(r, fields, depth, |fields|);
      ObjectOutput(r, fields, depth);
      MarkerPosition(r, fields, depth);
      var marker := Field(TRUNCATED_KEY, Bool(true));
      assert marker in out by { FirstPassEntries(r, fields, depth); }
      var m :| 0 <= m < |out| && out[m] == marker;
      assert SanitizedChild(r, marker, depth) != marker.value;
      if m < Kept(r, |out|) {
        StayingTogether(r, out, depth, m);
      }
    }
  }

  lemma EntryIsKept(r: Rules, fields: seq<Field>, depth: nat, i: nat) returns (j: nat)
    requires i < |fields| && Remains(r, RenderedKeys(r, fields), i)
    ensures var out := SanitizedFields(r, fields, depth, |fields|);
            j < Kept(r, |out|) && out[j] == FirstEntry(r, fields, depth, i)
  {
    var f := FirstEntry(r, fields, depth, i);
    var out := SanitizedFields(r, fields, depth, |fields|);
    ObjectOutput(r, fields, depth);
    assert f in out by {
      FirstPassEntries(r, fields, depth);
      assert f == Field(RenderedKeys(r, fields)[i], Children(r, fields, depth)[i]);
    }
    j :| 0 <= j < |out| && out[j] == f;
  }

  lemma StayingObjectEntry(r: Rules, fields: seq<Field>, depth: nat, i: nat)
    requires i < |fields| && Remains(r, RenderedKeys(r, fields), i)
    requires var out := SanitizedFields(r, fields, depth, |fields|);
             SanitizedFields(r, out, depth, |out|) == out
    ensures Stays(r, FirstEntry(r, fields, depth, i), depth)
  {
    ObjectOutput(r, fields, depth);
    var j := EntryIsKept(r, fields, depth, i);
    StayingTogether(r, SanitizedFields(r, fields, depth, |fields|), depth, j);
  }

  lemma RedactedIsShown(r: Rules, value: Value, depth: nat)
    ensures Sanitized(r, value, depth) == REDACTED <==> ShowsRedacted(r, value, depth)
  {
  }

  /** What a second pass does to the entry of one field. */
  lemma EntrySettled(r: Rules, field: Field, depth: nat)
    requires Settled(r, field.value, depth + 1) <==>
             Sanitized(r, Sanitized(r, field.value, depth + 1), depth + 1) == Sanitized(r, field.value, depth + 1)
    ensures var f := Field(r.redact(field.key, KEY_LIMIT), SanitizedChild(r, field, depth));
            Stays(r, f, depth) <==>
              && RedactsOnce(r, field.key, KEY_LIMIT)
              && if r.secret(f.key) then r.secret(field.key) || ShowsRedacted(r, field.value, depth + 1)
                 else if r.secret(field.key) then RedactedStays(r, depth + 1)
                 else Settled(r, field.value, depth + 1)
  {
    RedactedIsShown(r, field.value, depth + 1);
  }

  lemma {:induction false} ItemsPointwise(r: Rules, items: seq<Value>, depth: nat, n: nat)
    requires n <= |items| && n <= r.maxItems
    ensures |SanitizedItems(r, items, depth, n)| == n
    ensures forall j | 0 <= j < n :: SanitizedItems(r, items, depth, n)[j] == Sanitized(r, items[j], depth + 1)
  {
    if n > 0 {
      ItemsPointwise(r, items, depth, n - 1);
    }
  }

  lemma ListTwice(r: Rules, items: seq<Value>, depth: nat)
    ensures var out := SanitizedItems(r, items, depth, |items|);
            SanitizedItems(r, out, depth, |out|) == out <==>
            (forall j | 0 <= j < Kept(r, |items|) ::
               Sanitized(r, Sanitized(r, items[j], depth + 1), depth + 1) == Sanitized(r, items[j], depth + 1))
  {
    var out, n := SanitizedItems(r, items, depth, |items|), Kept(r, |items|);
    ItemsPointwise(r, items, depth, n);
    ItemsPointwise(r, out, depth, n);
    var twice := SanitizedItems(r, out, depth, |out|);
    assert |twice| == |out|;
    assert forall j | 0 <= j < n :: twice[j] == Sanitized(r, Sanitized(r, items[j], depth + 1), depth + 1);
    assert forall j | 0 <= j < n :: out[j] == Sanitized(r, items[j], depth + 1);
    assert forall j | n <= j < |out| :: twice[j] == out[j];
    if twice == out {
      forall j | 0 <= j < n
        ensures Sanitized(r, Sanitized(r, items[j], depth + 1), depth + 1) == Sanitized(r, items[j], depth + 1) {
        assert twice[j] == out[j];
      }
    }
    if forall j | 0 <= j < n ::
      Sanitized(r, Sanitized(r, items[j], depth + 1), depth + 1) == Sanitized(r, items[j], depth + 1) {
      assert forall j | 0 <= j < |out| :: twice[j] == out[j];
      assert twice == out;
    }
  }

  /** The sanitizer is a fixed point of itself exactly on settled values. */
  lemma {:induction false} FixedPointIffSettled(r: Rules, value: Value, depth: nat)
    requires MarkerIsPlain(r)
    ensures Sanitized(r, Sanitized(r, value, depth), depth) == Sanitized(r, value, depth) <==> Settled(r, value, depth)
    decreases value
  {
    if depth < r.maxDepth {
      match value {
        case Object(fields) => ObjectFixedIffSettled(r, value, depth);
        case List(items) =>
          forall j | 0 <= j < |items|
            ensures Sanitized(r, Sanitized(r, items[j], depth + 1), depth + 1) == Sanitized(r, items[j], depth + 1)
                    <==> Settled(r, items[j], depth + 1) {
            FixedPointIffSettled(r, items[j], depth + 1);
          }
          ListTwice(r, items, depth);
        case _ =>
      }
    }
  }

  lemma {:induction false} ObjectFixedIffSettled(r: Rules, value: Value, depth: nat)
    requires MarkerIsPlain(r) && value.Object? && depth < r.maxDepth
    ensures Sanitized(r, Sanitized(r, value, depth), depth) == Sanitized(r, value, depth) <==> Settled(r, value, depth)
    decreases value, 0
  {
    var fields := value.fields;
    forall i: nat | i < |fields|
      ensures Stays(r, FirstEntry(r, fields, depth, i), depth) <==>
                && RedactsOnce(r, fields[i].key, KEY_LIMIT)
                && if r.secret(r.redact(fields[i].key, KEY_LIMIT)) then
                     r.secret(fields[i].key) || ShowsRedacted(r, fields[i].value, depth + 1)
                   else if r.secret(fields[i].key) then RedactedStays(r, depth + 1)
                   else Settled(r, fields[i].value, depth + 1) {
      FixedPointIffSettled(r, fields[i].value, depth + 1);
      EntrySettled(r, fields[i], depth);
    }
    var out := SanitizedFields(r, fields, depth, |fields|);
    if Settled(r, value, depth) {
      SettledObjectStays(r, fields, depth);
    } else if SanitizedFields(r, out, depth, |out|) == out {
      StayingObjectHasRoom(r, fields, depth);
      forall i: nat | i < |fields| && Remains(r, RenderedKeys(r, fields), i)
        ensures Stays(r, FirstEntry(r, fields, depth, i), depth) {
        StayingObjectEntry(r, fields, depth, i);
      }
      assert false;
    }
  }

  // Where sanitizing twice is not sanitizing once: texts.

  function StripLeft(s: string): string {
    if s != "" && s[0] == ' ' then StripLeft(s[1..]) else s
  }

  function StripRight(s: string): string {
    if s != "" && s[|s| - 1] == ' ' then StripRight(s[..|s| - 1]) else s
  }

  /** What `redact_text` does to a text without anything to redact: strip it, then cut it. */
  function StripAndCut(s: string, limit: nat): string {
    var t := StripRight(StripLeft(s));
    if |t| <= limit then t else t[..limit]
  }

  function Letters(n: nat): (s: string)
    ensures |s| == n && forall i | 0 <= i < n :: s[i] == 'a'
  {
    if n == 0 then "" else Letters(n - 1) + "a"
  }

  /** The cut can leave a blank at the end, which the second pass strips. */
  lemma CutCanLeaveABlank(limit: nat)
    requires limit >= 2
    ensures var r := Rules(StripAndCut, key => false, 1, 1, limit);
            var value := Text(Letters(limit - 1) + " b");
            && MarkerIsPlain(r)
            && Sanitized(r, Sanitized(r, value, 0), 0) != Sanitized(r, value, 0)
  {
    var text := Letters(limit - 1) + " b";
    assert StripLeft(text) == text && StripRight(text) == text;
    var once := StripAndCut(text, limit);
    assert once == Letters(limit - 1) + " ";
    assert once[..|once| - 1] == Letters(limit - 1);
    assert StripLeft(once) == once && StripRight(once) == Letters(limit - 1);
  }

  // Where sanitizing twice is not sanitizing once: the marker.

  /** n further fields with keys of different lengths, none of them the marker's. */
  function Filler(n: nat): (fields: seq<Field>)
    ensures |fields| == n
    ensures forall i | 0 <= i < n :: fields[i].key == Blanks(i)
  {
    if n == 0 then [] else Filler(n - 1) + [Field(Blanks(n - 1), Null)]
  }

  function Blanks(n: nat): (key: string)
    ensures |key| == n && forall i | 0 <= i < n :: key[i] == ' '
  {
    if n == 0 then "" else Blanks(n - 1) + " "
  }

  /** An object with one field too many that has a field named like the marker. */
  function Overfull(r: Rules): Value {
    Object([Field(TRUNCATED_KEY, Null)] + Filler(r.maxItems))
  }

  /** The object under the given number of lists. */
  function Buried(r: Rules, levels: nat): Value {
    if levels == 0 then Overfull(r) else List([Buried(r, levels - 1)])
  }

  /** A Python dictionary: no key twice. */
  lemma OverfullIsDictionary(r: Rules)
    ensures DistinctKeys(Overfull(r).fields)
  {
    var fields := Overfull(r).fields;
    forall i, j | 0 <= i < j < |fields| ensures fields[i].key != fields[j].key {
      assert fields[j].key == Blanks(j - 1);
      if i > 0 {
        assert fields[i].key == Blanks(i - 1);
      } else {
        assert TRUNCATED_KEY[0] == '_';
      }
    }
  }

  lemma {:induction false} BuriedIsUnsettled(r: Rules, levels: nat, depth: nat)
    requires MarkerIsPlain(r) && r.maxItems >= 1 && depth + levels + 1 == r.maxDepth
    ensures !Settled(r, Buried(r, levels), depth)
  {
    var value := Buried(r, levels);
    if levels == 0 {
      assert RenderedKeys(r, value.fields)[0] == TRUNCATED_KEY;
    } else {
      BuriedIsUnsettled(r, levels - 1, depth + 1);
      assert value.items[0] == Buried(r, levels - 1);
    }
  }

  /** Whatever redaction and secrecy do to other texts, for all limits of at least one there is a
      value on which a second pass changes the result: the marker took the place of a kept field
      on the last level and is cut itself. */
  lemma MarkerCanBeCut(r: Rules)
    requires MarkerIsPlain(r) && r.maxDepth >= 1 && r.maxItems >= 1
    ensures var value := Buried(r, r.maxDepth - 1);
            Sanitized(r, Sanitized(r, value, 0), 0) != Sanitized(r, value, 0)
  {
    BuriedIsUnsettled(r, r.maxDepth - 1, 0);
    FixedPointIffSettled(r, Buried(r, r.maxDepth - 1), 0);
  }
}
