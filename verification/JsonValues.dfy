/**
 * JSON values, the host language's equality on them, and the schema subset that units declare
 * for their outputs.
 */
module JsonValues {
  import opened Basics

  /** `MinusZero` is the float written `-0.0`. */
  datatype Json =
    | Null
    | Bool(flag: bool)
    | Int(number: int)
    | Float(amount: real)
    | MinusZero
    | Str(text: string)
    | List(items: seq<Json>)
    | Obj(fields: map<string, Json>)

  predicate Numeric(v: Json) { v.Bool? || v.Int? || v.Float? || v.MinusZero? }

  function Amount(v: Json): real
    requires Numeric(v)
  {
    match v
    case Bool(b) => if b then 1.0 else 0.0
    case Int(n) => n as real
    case Float(x) => x
    case MinusZero => 0.0
  }

  /** `a == b` in the host language: numbers compare by amount, so `1`, `1.0` and `true` are equal. */
  predicate HostEqual(a: Json, b: Json)
    decreases a
  {
    if Numeric(a) && Numeric(b) then Amount(a) == Amount(b)
    else match (a, b)
      case (List(x), List(y)) => |x| == |y| && forall i :: 0 <= i < |x| ==> HostEqual(x[i], y[i])
      case (Obj(x), Obj(y)) => x.Keys == y.Keys && forall k :: k in x ==> HostEqual(x[k], y[k])
      case _ => a == b
  }

  lemma {:induction false} HostEqualReflexive(a: Json)
    ensures HostEqual(a, a)
    decreases a
  {
    match a
    case List(x) => forall i | 0 <= i < |x| { HostEqualReflexive(x[i]); }
    case Obj(x) => forall k | k in x { HostEqualReflexive(x[k]); }
    case _ =>
  }

  lemma {:induction false} HostEqualSymmetric(a: Json, b: Json)
    requires HostEqual(a, b)
    ensures HostEqual(b, a)
    decreases a
  {
    match (a, b)
    case (List(x), List(y)) => forall i | 0 <= i < |x| ensures HostEqual(y[i], x[i]) { HostEqualSymmetric(x[i], y[i]); }
    case (Obj(x), Obj(y)) => forall k | k in y ensures HostEqual(y[k], x[k]) { HostEqualSymmetric(x[k], y[k]); }
    case _ =>
  }

  lemma {:induction false} HostEqualTransitive(a: Json, b: Json, c: Json)
    requires HostEqual(a, b) && HostEqual(b, c)
    ensures HostEqual(a, c)
    decreases a
  {
    match (a, b, c)
    case (List(x), List(y), List(z)) =>
      forall i | 0 <= i < |x| ensures HostEqual(x[i], z[i]) { HostEqualTransitive(x[i], y[i], z[i]); }
    case (Obj(x), Obj(y), Obj(z)) =>
      forall k | k in x ensures HostEqual(x[k], z[k]) { HostEqualTransitive(x[k], y[k], z[k]); }
    case _ =>
  }

  // ---------------------------------------------------------------- schemas

  datatype JsonType = ObjectType | ArrayType | StringType | IntegerType | NumberType | BooleanType | NullType

  datatype Additional = Anything | Nothing | Matching(schema: Schema)

  datatype Items = Unconstrained | Each(schema: Schema) | Positional(schemas: seq<Schema>)

  datatype Schema = Schema(
    types: Option<seq<JsonType>>,
    choices: Option<seq<Json>>,
    minLength: Option<nat>, maxLength: Option<nat>,
    minItems: Option<nat>, maxItems: Option<nat>,
    minimum: Option<real>, maximum: Option<real>,
    required: seq<string>,
    properties: map<string, Schema>,
    additional: Additional,
    items: Items)

  predicate TypeMatches(v: Json, t: JsonType) {
    match t
    case ObjectType => v.Obj?
    case ArrayType => v.List?
    case StringType => v.Str?
    case IntegerType => v.Int?
    case NumberType => v.Int? || v.Float? || v.MinusZero?
    case BooleanType => v.Bool?
    case NullType => v.Null?
  }

  predicate AtLeast(low: Option<nat>, n: nat) { low.Some? ==> low.value <= n }

  predicate AtMost(high: Option<nat>, n: nat) { high.Some? ==> n <= high.value }

  /** `validate_value`, apart from the size and privacy checks. */
  predicate Conforms(v: Json, s: Schema)
    decreases v
  {
    && (s.types.Some? ==> exists i :: 0 <= i < |s.types.value| && TypeMatches(v, s.types.value[i]))
    && (s.choices.Some? ==> exists i :: 0 <= i < |s.choices.value| && HostEqual(v, s.choices.value[i]))
    && match v
       case Str(text) => AtLeast(s.minLength, |text|) && AtMost(s.maxLength, |text|)
       case Int(n) => (s.minimum.Some? ==> s.minimum.value <= n as real) &&
                         (s.maximum.Some? ==> n as real <= s.maximum.value)
       case Float(x) => (s.minimum.Some? ==> s.minimum.value <= x) && (s.maximum.Some? ==> x <= s.maximum.value)
       case MinusZero => (s.minimum.Some? ==> s.minimum.value <= 0.0) && (s.maximum.Some? ==> 0.0 <= s.maximum.value)
       case List(items) =>
         && AtLeast(s.minItems, |items|) && AtMost(s.maxItems, |items|)
         && (match s.items
             case Unconstrained => true
             case Each(schema) => forall i :: 0 <= i < |items| ==> Conforms(items[i], schema)
             case Positional(schemas) =>
               forall i :: 0 <= i < |schemas| && i < |items| ==> Conforms(items[i], schemas[i]))
       case Obj(fields) =>
         && (forall i :: 0 <= i < |s.required| ==> s.required[i] in fields)
         && (forall k :: k in fields ==>
               if k in s.properties then Conforms(fields[k], s.properties[k])
               else match s.additional
                    case Anything => true
                    case Nothing => false
                    case Matching(schema) => Conforms(fields[k], schema))
       case _ => true
  }
}
