/** JSON values as Python holds them: an object is its list of fields in insertion order. */
module Json {
  datatype Value =
    | Null
    | Bool(truth: bool)
    | Int(number: int)
    | Float(fraction: real)
    | Text(text: string)
    | List(items: seq<Value>)
    | Object(fields: seq<Field>)
    | Other(rendering: string)

  datatype Field = Field(key: string, value: Value)

  predicate HasKey(fields: seq<Field>, key: string) {
    exists i | 0 <= i < |fields| :: fields[i].key == key
  }

  /** The first field from index k on with the key; an absent key reads as null. */
  function Find(fields: seq<Field>, key: string, k: nat): (value: Value)
    requires k <= |fields|
    ensures value == Null || value < Object(fields)
    decreases |fields| - k
  {
    if k == |fields| then Null
    else if fields[k].key == key then fields[k].value
    else Find(fields, key, k + 1)
  }

  /** `payload.get(key)`. */
  function Get(fields: seq<Field>, key: string): (value: Value)
    ensures value == Null || value < Object(fields)
  {
    Find(fields, key, 0)
  }

  /** A key reads as the value of its field, and as null when there is none. */
  lemma {:induction false} GetReadsField(fields: seq<Field>, key: string)
    ensures HasKey(fields, key) ==> exists i | 0 <= i < |fields| ::
              fields[i] == Field(key, Get(fields, key)) && forall j | 0 <= j < i :: fields[j].key != key
    ensures !HasKey(fields, key) ==> Get(fields, key) == Null
  {
    FindReadsField(fields, key, 0);
  }

  lemma {:induction false} FindReadsField(fields: seq<Field>, key: string, k: nat)
    requires k <= |fields| && forall j | 0 <= j < k :: fields[j].key != key
    ensures HasKey(fields, key) ==> exists i | 0 <= i < |fields| ::
              fields[i] == Field(key, Find(fields, key, k)) && forall j | 0 <= j < i :: fields[j].key != key
    ensures !HasKey(fields, key) ==> Find(fields, key, k) == Null
    decreases |fields| - k
  {
    if k < |fields| && fields[k].key != key {
      FindReadsField(fields, key, k + 1);
    }
  }

  /** Python truthiness. */
  predicate Truthy(value: Value) {
    match value
    case Null => false
    case Bool(b) => b
    case Int(n) => n != 0
    case Float(r) => r != 0.0
    case Text(s) => s != ""
    case List(items) => items != []
    case Object(fields) => fields != []
    case Other(_) => true
  }
}
