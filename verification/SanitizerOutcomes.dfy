/** What the sanitizer makes of a value, part by part, and which values it leaves alone. */
module SanitizerOutcomes {
  import opened Json
  import opened Sanitizer

  function Lesser(a: nat, b: nat): nat {
    if a < b then a else b
  }

  /** What stands in the output for a field: the fixed text when its key is secret. */
  ghost predicate CleanField(r: Rules, field: Field, depth: nat, out: Value)
    decreases field, 1
  {
    if r.secret(field.key) then out == Text("[REDACTED]") else Clean(r, field.value, depth + 1, out)
  }

  /** Of the first n fields, i is the last whose key is rendered as it is. */
  predicate LastNamed(r: Rules, fields: seq<Field>, n: nat, i: nat)
    requires n <= |fields|
  {
    i < n && forall j | i < j < n :: r.redact(fields[j].key, 120) != r.redact(fields[i].key, 120)
  }

  /** A key that the marker of a cut object takes over. */
  predicate Overwritten(r: Rules, fields: seq<Field>, i: nat)
    requires i < |fields|
  {
    |fields| > r.maxItems && r.redact(fields[i].key, 120) == "_truncated"
  }

  /** The output for an object: each rendered key once with the last value it was given, and the
      marker if fields are left out. */
  ghost predicate CleanObject(r: Rules, fields: seq<Field>, depth: nat, out: seq<Field>)
    decreases fields, 2
  {
    var n := Lesser(|fields|, r.maxItems);
    && DistinctKeys(out)
    && (|fields| > r.maxItems ==> Field("_truncated", Bool(true)) in out)
    && (forall i: nat | LastNamed(r, fields, n, i) && !Overwritten(r, fields, i) ::
          HasKey(out, r.redact(fields[i].key, 120)))
    && (forall f <- out ::
          || (|fields| > r.maxItems && f == Field("_truncated", Bool(true)))
          || exists i: nat | LastNamed(r, fields, n, i) && !Overwritten(r, fields, i) ::
               f.key == r.redact(fields[i].key, 120) && CleanField(r, fields[i], depth, f.value))
  }

  ghost predicate CleanList(r: Rules, items: seq<Value>, depth: nat, out: seq<Value>)
    decreases items, 2
  {
    var n := Lesser(|items|, r.maxItems);
    && |out| == (if |items| > r.maxItems then n + 1 else n)
    && (forall i | 0 <= i < n :: Clean(r, items[i], depth + 1, out[i]))
    && (|items| > r.maxItems ==> out[n] == Text("[TRUNCATED]"))
  }

  /** The output for a value that lies `depth` containers deep. */
  ghost predicate Clean(r: Rules, value: Value, depth: nat, out: Value)
    decreases value, 3
  {
    if depth >= r.maxDepth then out == Text("[TRUNCATED]") else
      match value
      case Null => out == Null
      case Bool(truth) => out == Bool(truth)
      case Int(number) => out == Int(number)
      case Float(fraction) => out == Float(fraction)
      case Text(text) => out == Text(r.redact(text, r.textLimit))
      case Other(rendering) => out == Text(r.redact(rendering, r.textLimit))
      case List(items) => out.List? && CleanList(r, items, depth, out.items)
      case Object(fields) => out.Object? && CleanObject(r, fields, depth, out.fields)
  }

  lemma {:induction false} SanitizedIsClean(r: Rules, value: Value, depth: nat)
    ensures Clean(r, value, depth, Sanitized(r, value, depth))
    decreases value, 0
  {
    if depth < r.maxDepth {
      match value {
        case List(items) =>
          ItemsPointwise(r, items, depth, Kept(r, |items|));
          forall i | 0 <= i < Kept(r, |items|)
            ensures Clean(r, items[i], depth + 1, Sanitized(r, items[i], depth + 1)) {
            SanitizedIsClean(r, items[i], depth + 1);
          }
        case Object(fields) =>
          forall i | 0 <= i < |fields| ensures CleanField(r, fields[i], depth, SanitizedChild(r, fields[i], depth)) {
            if !r.secret(fields[i].key) {
              SanitizedIsClean(r, fields[i].value, depth + 1);
            }
          }
          ObjectIsClean(r, fields, depth);
        case _ =>
      }
    }
  }

  lemma RemainsIfLastNamed(r: Rules, fields: seq<Field>, i: nat)
    ensures Remains(r, RenderedKeys(r, fields), i) <==>
            LastNamed(r, fields, Lesser(|fields|, r.maxItems), i) && !Overwritten(r, fields, i)
  {
    var keys := RenderedKeys(r, fields);
    forall j | 0 <= j < |fields| ensures keys[j] == r.redact(fields[j].key, 120) {}
  }

  lemma ObjectIsClean(r: Rules, fields: seq<Field>, depth: nat)
    requires forall i | 0 <= i < |fields| :: CleanField(r, fields[i], depth, SanitizedChild(r, fields[i], depth))
    ensures CleanObject(r, fields, depth, SanitizedFields(r, fields, depth, |fields|))
  {
    var keys, values, n := RenderedKeys(r, fields), Children(r, fields, depth), Kept(r, |fields|);
    var out := SanitizedFields(r, fields, depth, |fields|);
    FirstPassEntries(r, fields, depth);
    forall i: nat ensures Remains(r, keys, i) <==> LastNamed(r, fields, n, i) && !Overwritten(r, fields, i) {
      RemainsIfLastNamed(r, fields, i);
    }
    forall i: nat | LastNamed(r, fields, n, i) && !Overwritten(r, fields, i)
      ensures HasKey(out, r.redact(fields[i].key, 120)) {
      assert Field(keys[i], values[i]) in out;
    }
    assert |fields| > r.maxItems ==> Field("_truncated", Bool(true)) in out;
    forall f <- out
      ensures || (|fields| > r.maxItems && f == Field("_truncated", Bool(true)))
              || exists i: nat | LastNamed(r, fields, n, i) && !Overwritten(r, fields, i) ::
                   f.key == r.redact(fields[i].key, 120) && CleanField(r, fields[i], depth, f.value) {
      if !(|fields| > r.maxItems && f == Field("_truncated", Bool(true))) {
        var i: nat :| Remains(r, keys, i) && f == Field(keys[i], values[i]);
        assert LastNamed(r, fields, n, i) && !Overwritten(r, fields, i);
      }
    }
  }

  // ---------------------------------------------------------------------------------------
  // What is left alone
  // ---------------------------------------------------------------------------------------

  /** Within the limits, without secrets, and no text that redaction changes. */
  ghost predicate Plain(r: Rules, value: Value, depth: nat)
    decreases value
  {
    && depth < r.maxDepth
    && match value
       case Text(text) => r.redact(text, r.textLimit) == text
       case Other(_) => false
       case List(items) => |items| <= r.maxItems && forall item <- items :: Plain(r, item, depth + 1)
       case Object(fields) =>
         && |fields| <= r.maxItems && DistinctKeys(fields)
         && forall f <- fields :: r.redact(f.key, 120) == f.key && !r.secret(f.key) && Plain(r, f.value, depth + 1)
       case _ => true
  }

  /** A plain value passes unchanged, its fields in their order. */
  lemma {:induction false} PlainValuesPass(r: Rules, value: Value, depth: nat)
    requires Plain(r, value, depth)
    ensures Sanitized(r, value, depth) == value
    decreases value
  {
    match value {
      case List(items) =>
        ItemsPointwise(r, items, depth, |items|);
        forall i | 0 <= i < |items| ensures Sanitized(r, items[i], depth + 1) == items[i] {
          assert items[i] in items;
          PlainValuesPass(r, items[i], depth + 1);
        }
      case Object(fields) =>
        FieldsArePutAll(r, fields, depth, |fields|);
        var keys := RenderedKeys(r, fields);
        forall i | 0 <= i < |fields|
          ensures keys[i] == fields[i].key && SanitizedChild(r, fields[i], depth) == fields[i].value {
          assert fields[i] in fields;
          PlainValuesPass(r, fields[i].value, depth + 1);
        }
        PutAllInOrder(keys, Children(r, fields, depth), |fields|);
      case _ =>
    }
  }
}
