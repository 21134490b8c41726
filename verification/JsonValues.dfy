/**
 * JSON values as the Python code sees them after json.loads: None, bool, number, str, list, dict.
 * Member names are split into the ones the code looks up and all others; what str() returns for a
 * value that is not a string is not part of this model.
 */
module JsonValues {
  datatype Key =
    // read by the failure classifier
    | Error | IsError | Ok | Reason | Message | Code | ResultMember | StructuredContent | Data | Content | Text
    // read by the chain compiler
    | Steps | StepId | Id | Type | Needs | Config
    | Other(name: string)

  datatype Json =
    | Null
    | Bool(b: bool)
    | Num(n: real)
    | Str(s: string)
    | Arr(items: seq<Json>)
    | Obj(fields: seq<Field>)

  datatype Field = Field(key: Key, value: Json)

  predicate HasField(fields: seq<Field>, key: Key) {
    fields != [] && (fields[0].key == key || HasField(fields[1..], key))
  }

  /** dict.get: the value stored under `key`, or None (Null) when the key is absent. */
  function GetField(fields: seq<Field>, key: Key): Json {
    if fields == [] then Null
    else if fields[0].key == key then fields[0].value
    else GetField(fields[1..], key)
  }

  predicate Has(v: Json, key: Key) {
    v.Obj? && HasField(v.fields, key)
  }

  function Get(v: Json, key: Key): Json {
    if v.Obj? then GetField(v.fields, key) else Null
  }

  /** Python truthiness. */
  predicate Truthy(v: Json) {
    match v
    case Null => false
    case Bool(b) => b
    case Num(n) => n != 0.0
    case Str(s) => s != ""
    case Arr(items) => items != []
    case Obj(fields) => fields != []
  }

  /** Python's false values. */
  predicate Blank(v: Json) {
    v == Null || v == Bool(false) || v == Num(0.0) || v == Str("") || v == Arr([]) || v == Obj([])
  }

  lemma TruthyMeans(v: Json)
    ensures Truthy(v) <==> !Blank(v)
  {
  }

  /** Python's `a or b`. */
  function Or(a: Json, b: Json): Json {
    if Truthy(a) then a else b
  }

  /** A lower bound on the number of characters in any JSON text that denotes `v`. */
  function Size(v: Json): (n: nat)
    ensures n >= 1
  {
    match v
    case Null => 1
    case Bool(_) => 1
    case Num(_) => 1
    case Str(s) => |s| + 2
    case Arr(items) => 2 + ItemsSize(items)
    case Obj(fields) => 2 + FieldsSize(fields)
  }

  function ItemsSize(items: seq<Json>): nat {
    if items == [] then 0 else Size(items[0]) + ItemsSize(items[1..])
  }

  function FieldsSize(fields: seq<Field>): nat {
    if fields == [] then 0 else FieldSize(fields[0]) + FieldsSize(fields[1..])
  }

  function FieldSize(field: Field): nat {
    3 + Size(field.value)
  }

  /** A value stored in an object is smaller than the object. */
  lemma MemberIsSmaller(v: Json, key: Key)
    requires Get(v, key) != Null
    ensures Size(Get(v, key)) < Size(v)
  {
    FieldIsSmaller(v.fields, key);
  }

  lemma {:induction false} FieldIsSmaller(fields: seq<Field>, key: Key)
    ensures GetField(fields, key) == Null || Size(GetField(fields, key)) < FieldsSize(fields)
  {
    if fields != [] && fields[0].key != key {
      FieldIsSmaller(fields[1..], key);
    }
  }

  lemma {:induction false} ItemIsSmaller(items: seq<Json>, i: nat)
    requires i < |items|
    ensures Size(items[i]) <= ItemsSize(items)
  {
    if i > 0 {
      ItemIsSmaller(items[1..], i - 1);
    }
  }
}
