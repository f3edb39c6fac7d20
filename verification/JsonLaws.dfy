/** What the host language's equality and the schema keywords mean. */
module JsonLaws {
  import opened Basics
  import opened JsonValues

  // ---------------------------------------------------------------- equality

  /** The value with every number, at any depth, written as one float. */
  function Normal(v: Json): Json {
    match v
    case Bool(flag) => Float(if flag then 1.0 else 0.0)
    case Int(n) => Float(n as real)
    case MinusZero => Float(0.0)
    case List(items) => List(seq(|items|, i requires 0 <= i < |items| => Normal(items[i])))
    case Obj(fields) => Obj(map k | k in fields :: Normal(fields[k]))
    case _ => v
  }

  /** Values are equal in the host language exactly if they differ in how numbers are written only. */
  lemma {:induction false} EqualIffNormal(a: Json, b: Json)
    ensures HostEqual(a, b) <==> Normal(a) == Normal(b)
    decreases a
  {
    match (a, b)
    case (List(x), List(y)) =>
      var m, n := Normal(a).items, Normal(b).items;
      if |x| == |y| {
        forall i | 0 <= i < |x| ensures HostEqual(x[i], y[i]) <==> m[i] == n[i] { EqualIffNormal(x[i], y[i]); }
      }
      assert m == n <==> |m| == |n| && forall i :: 0 <= i < |m| ==> m[i] == n[i];
    case (Obj(x), Obj(y)) =>
      var m, n := Normal(a).fields, Normal(b).fields;
      assert m.Keys == x.Keys && n.Keys == y.Keys;
      if x.Keys == y.Keys {
        forall k | k in x ensures HostEqual(x[k], y[k]) <==> m[k] == n[k] { EqualIffNormal(x[k], y[k]); }
      }
      assert m == n <==> m.Keys == n.Keys && forall k :: k in m ==> m[k] == n[k];
    case _ =>
  }

  // ---------------------------------------------------------------- schemas

  const ANYTHING := Schema(None, None, None, None, None, None, None, None, [], map[], Anything, Unconstrained)

  lemma WithoutTypes(v: Json, s: Schema)
    ensures Conforms(v, s) <==> Conforms(v, s.(types := None)) && Conforms(v, ANYTHING.(types := s.types))
  {
    hide TypeMatches, HostEqual;
  }

  lemma WithoutChoices(v: Json, s: Schema)
    ensures Conforms(v, s) <==> Conforms(v, s.(choices := None)) && Conforms(v, ANYTHING.(choices := s.choices))
  {
    hide TypeMatches, HostEqual;
  }

  lemma WithoutLengths(v: Json, s: Schema)
    ensures Conforms(v, s) <==> (
      && Conforms(v, s.(minLength := None, maxLength := None))
      && Conforms(v, ANYTHING.(minLength := s.minLength)) && Conforms(v, ANYTHING.(maxLength := s.maxLength)))
  {
    hide TypeMatches, HostEqual;
  }

  lemma WithoutSizes(v: Json, s: Schema)
    ensures Conforms(v, s) <==> (
      && Conforms(v, s.(minItems := None, maxItems := None))
      && Conforms(v, ANYTHING.(minItems := s.minItems)) && Conforms(v, ANYTHING.(maxItems := s.maxItems)))
  {
    hide TypeMatches, HostEqual;
  }

  lemma WithoutBounds(v: Json, s: Schema)
    ensures Conforms(v, s) <==> (
      && Conforms(v, s.(minimum := None, maximum := None))
      && Conforms(v, ANYTHING.(minimum := s.minimum)) && Conforms(v, ANYTHING.(maximum := s.maximum)))
  {
    hide TypeMatches, HostEqual;
  }

  lemma WithoutRequired(v: Json, s: Schema)
    ensures Conforms(v, s) <==> Conforms(v, s.(required := [])) && Conforms(v, ANYTHING.(required := s.required))
  {
    hide TypeMatches, HostEqual;
  }

  lemma WithoutProperties(v: Json, s: Schema)
    ensures Conforms(v, s) <==> (
      && Conforms(v, s.(properties := map[], additional := Anything))
      && Conforms(v, ANYTHING.(properties := s.properties, additional := s.additional)))
  {
    hide TypeMatches, HostEqual;
  }

  /** A value fits a schema exactly if it fits each group of its keywords. */
  lemma KeywordByKeyword(v: Json, s: Schema)
    ensures Conforms(v, s) <==> (
      && Conforms(v, ANYTHING.(types := s.types)) && Conforms(v, ANYTHING.(choices := s.choices))
      && Conforms(v, ANYTHING.(minLength := s.minLength)) && Conforms(v, ANYTHING.(maxLength := s.maxLength))
      && Conforms(v, ANYTHING.(minItems := s.minItems)) && Conforms(v, ANYTHING.(maxItems := s.maxItems))
      && Conforms(v, ANYTHING.(minimum := s.minimum)) && Conforms(v, ANYTHING.(maximum := s.maximum))
      && Conforms(v, ANYTHING.(required := s.required))
      && Conforms(v, ANYTHING.(properties := s.properties, additional := s.additional))
      && Conforms(v, ANYTHING.(items := s.items)))
  {
    hide Conforms;
    WithoutTypes(v, s);
    var a := s.(types := None);
    WithoutChoices(v, a);
    var b := a.(choices := None);
    WithoutLengths(v, b);
    var c := b.(minLength := None, maxLength := None);
    WithoutSizes(v, c);
    var d := c.(minItems := None, maxItems := None);
    WithoutBounds(v, d);
    var e := d.(minimum := None, maximum := None);
    WithoutRequired(v, e);
    var f := e.(required := []);
    WithoutProperties(v, f);
    assert f.(properties := map[], additional := Anything) == ANYTHING.(items := s.items);
  }

  /** The type keyword: a whole number is a number too, a truth value is not. */
  lemma TypesMean(v: Json, ts: seq<JsonType>)
    ensures Conforms(v, ANYTHING.(types := Some(ts))) <==>
      match v
      case Null => NullType in ts
      case Bool(_) => BooleanType in ts
      case Int(_) => IntegerType in ts || NumberType in ts
      case Float(_) => NumberType in ts
      case MinusZero => NumberType in ts
      case Str(_) => StringType in ts
      case List(_) => ArrayType in ts
      case Obj(_) => ObjectType in ts
  {
  }

  /** Enumerated values are compared as the host language compares them. */
  lemma ChoicesMean(v: Json, cs: seq<Json>)
    ensures Conforms(v, ANYTHING.(choices := Some(cs))) <==> exists i :: 0 <= i < |cs| && Normal(cs[i]) == Normal(v)
  {
    forall i | 0 <= i < |cs| ensures HostEqual(v, cs[i]) <==> Normal(cs[i]) == Normal(v) { EqualIffNormal(v, cs[i]); }
  }

  /** Lengths bind strings, sizes bind lists, and only them. */
  lemma LengthsMean(v: Json, low: nat, high: nat)
    ensures Conforms(v, ANYTHING.(minLength := Some(low))) <==> (v.Str? ==> |v.text| >= low)
    ensures Conforms(v, ANYTHING.(maxLength := Some(high))) <==> (v.Str? ==> |v.text| <= high)
    ensures Conforms(v, ANYTHING.(minItems := Some(low))) <==> (v.List? ==> |v.items| >= low)
    ensures Conforms(v, ANYTHING.(maxItems := Some(high))) <==> (v.List? ==> |v.items| <= high)
  {
  }

  /** Bounds bind whole numbers and floats, not truth values. */
  lemma BoundsMean(v: Json, low: real, high: real)
    ensures Conforms(v, ANYTHING.(minimum := Some(low))) <==>
      (v.Int? ==> v.number as real >= low) && (v.Float? ==> v.amount >= low) && (v.MinusZero? ==> 0.0 >= low)
    ensures Conforms(v, ANYTHING.(maximum := Some(high))) <==>
      (v.Int? ==> v.number as real <= high) && (v.Float? ==> v.amount <= high) && (v.MinusZero? ==> 0.0 <= high)
  {
  }

  /** Required keys, schemas of properties, and what may stand beside them. */
  lemma ObjectsMean(v: Json, required: seq<string>, properties: map<string, Schema>, additional: Additional)
    ensures Conforms(v, ANYTHING.(required := required)) <==>
      (v.Obj? ==> forall i :: 0 <= i < |required| ==> required[i] in v.fields)
    ensures Conforms(v, ANYTHING.(properties := properties, additional := additional)) <==>
      (v.Obj? ==>
        && (forall k :: k in v.fields && k in properties ==> Conforms(v.fields[k], properties[k]))
        && (additional.Nothing? ==> v.fields.Keys <= properties.Keys)
        && (additional.Matching? ==>
              forall k :: k in v.fields && k !in properties ==> Conforms(v.fields[k], additional.schema)))
  {
  }

  /** Elements, all under one schema or place by place as far as both go. */
  lemma ItemsMean(v: Json, items: Items)
    ensures Conforms(v, ANYTHING.(items := items)) <==>
      (v.List? ==>
        && (items.Each? ==> forall i :: 0 <= i < |v.items| ==> Conforms(v.items[i], items.schema))
        && (items.Positional? ==>
              forall i :: 0 <= i < |v.items| && i < |items.schemas| ==> Conforms(v.items[i], items.schemas[i])))
  {
  }
}
