/**
 * `structurally_compatible_merge` is a partial join.  Values are ordered by `Under`: an object
 * is under another one that has at least its keys, with its values under theirs; everything
 * else is under what the host language calls equal to it.  A merge exists exactly when the parts have a common upper
 * bound, and is then the least one.
 */
module Merge {
  import opened Basics
  import opened JsonValues
  import opened Order
  import opened Rearrange

  /** Equal and of one type: the same value, or two zeros that differ in sign. */
  predicate Alike(a: Json, b: Json) {
    a == b || (a in {Float(0.0), MinusZero} && b in {Float(0.0), MinusZero})
  }

  /** `_merge_values`: objects merge key by key, lists must be equal, anything else equal and of one type. */
  function Join(a: Json, b: Json): Option<Json>
    decreases a
  {
    match (a, b)
    case (Obj(x), Obj(y)) =>
      if exists k :: k in x && k in y && Join(x[k], y[k]).None? then None
      else Some(Obj(map k | k in x.Keys + y.Keys ::
                      if k !in y then x[k] else if k !in x then y[k] else Join(x[k], y[k]).value))
    case (List(_), List(_)) => if HostEqual(a, b) then Some(a) else None
    case _ => if Alike(a, b) then Some(a) else None
  }

  ghost predicate Under(a: Json, b: Json)
    decreases a
  {
    match (a, b)
    case (Obj(x), Obj(y)) => forall k :: k in x ==> k in y && Under(x[k], y[k])
    case (List(_), List(_)) => HostEqual(a, b)
    case _ => Alike(a, b)
  }

  /** Equal up to the host language's equality of lists and of zeros. */
  ghost predicate Same(a: Json, b: Json) { Under(a, b) && Under(b, a) }

  lemma {:induction false} UnderReflexive(a: Json)
    ensures Under(a, a)
    decreases a
  {
    match a
    case Obj(x) => forall k | k in x { UnderReflexive(x[k]); }
    case _ => HostEqualReflexive(a);
  }

  lemma {:induction false} UnderTransitive(a: Json, b: Json, c: Json)
    requires Under(a, b) && Under(b, c)
    ensures Under(a, c)
    decreases a
  {
    match (a, b, c)
    case (Obj(x), Obj(y), Obj(z)) =>
      forall k | k in x ensures k in z && Under(x[k], z[k]) { UnderTransitive(x[k], y[k], z[k]); }
    case (List(_), List(_), List(_)) => HostEqualTransitive(a, b, c);
    case _ =>
  }

  /** The merge has every leaf of both arguments, lists and zeros up to the host language's equality. */
  lemma {:induction false} JoinIsUpper(a: Json, b: Json)
    requires Join(a, b).Some?
    ensures Under(a, Join(a, b).value) && Under(b, Join(a, b).value)
    decreases a
  {
    match (a, b)
    case (Obj(x), Obj(y)) =>
      var m := Join(a, b).value;
      forall k | k in x ensures Under(x[k], m.fields[k]) {
        if k in y { JoinIsUpper(x[k], y[k]); } else { UnderReflexive(x[k]); }
      }
      forall k | k in y ensures Under(y[k], m.fields[k]) {
        if k in x { JoinIsUpper(x[k], y[k]); } else { UnderReflexive(y[k]); }
      }
    case (List(_), List(_)) =>
      HostEqualReflexive(a);
      HostEqualSymmetric(a, b);
    case _ =>
  }

  /** It has nothing else, and it exists whenever anything has both. */
  lemma {:induction false} JoinIsLeast(a: Json, b: Json, u: Json)
    requires Under(a, u) && Under(b, u)
    ensures Join(a, b).Some? && Under(Join(a, b).value, u)
    decreases a
  {
    match (a, b, u)
    case (Obj(x), Obj(y), Obj(z)) =>
      forall k | k in x && k in y ensures Join(x[k], y[k]).Some? && Under(Join(x[k], y[k]).value, z[k]) {
        JoinIsLeast(x[k], y[k], z[k]);
      }
    case (List(_), List(_), List(_)) =>
      HostEqualSymmetric(b, u);
      HostEqualTransitive(a, u, b);
    case _ =>
  }

  /** Merging a value with itself gives it back. */
  lemma {:induction false} JoinIdempotent(a: Json)
    ensures Join(a, a) == Some(a)
    decreases a
  {
    match a
    case Obj(x) =>
      forall k | k in x ensures Join(x[k], x[k]) == Some(x[k]) { JoinIdempotent(x[k]); }
      assert Join(a, a).Some? && Join(a, a).value.fields == x;
    case _ => HostEqualReflexive(a);
  }

  function Then(a: Option<Json>, b: Option<Json>): Option<Json> {
    if a.Some? && b.Some? then Join(a.value, b.value) else None
  }

  /** What one key of a merged object holds; `Clash` when the merge fails there. */
  datatype Slot = Absent | Clash | Holds(value: Json)

  ghost function At(x: map<string, Json>, k: string): Slot {
    if k in x then Holds(x[k]) else Absent
  }

  ghost function JoinSlots(a: Slot, b: Slot): Slot {
    if a.Clash? || b.Clash? then Clash
    else if a.Absent? then b
    else if b.Absent? then a
    else if Join(a.value, b.value).Some? then Holds(Join(a.value, b.value).value) else Clash
  }

  lemma ObjectsBySlot(x: map<string, Json>, y: map<string, Json>)
    ensures Join(Obj(x), Obj(y)).Some? <==> forall k :: !JoinSlots(At(x, k), At(y, k)).Clash?
    ensures Join(Obj(x), Obj(y)).Some? ==> Join(Obj(x), Obj(y)).value.Obj?
    ensures Join(Obj(x), Obj(y)).Some? ==>
      forall k :: At(Join(Obj(x), Obj(y)).value.fields, k) == JoinSlots(At(x, k), At(y, k))
  {
    if k :| k in x && k in y && Join(x[k], y[k]).None? {
      assert JoinSlots(At(x, k), At(y, k)).Clash?;
    }
  }

  lemma SameSlots(x: map<string, Json>, y: map<string, Json>)
    requires forall k :: At(x, k) == At(y, k)
    ensures x == y
  {
    forall k ensures k in x <==> k in y { assert At(x, k) == At(y, k); }
    forall k | k in x ensures x[k] == y[k] { assert At(x, k) == At(y, k); }
  }

  /** Grouping does not matter, failure included, and not even list elements tell the difference. */
  lemma {:induction false} JoinAssociative(a: Json, b: Json, c: Json)
    ensures Then(Join(a, b), Some(c)) == Then(Some(a), Join(b, c))
    decreases a
  {
    match (a, b, c)
    case (Obj(x), Obj(y), Obj(z)) =>
      forall k ensures JoinSlots(JoinSlots(At(x, k), At(y, k)), At(z, k))
                    == JoinSlots(At(x, k), JoinSlots(At(y, k), At(z, k))) {
        if k in x && k in y && k in z { JoinAssociative(x[k], y[k], z[k]); }
      }
      AssociativeObjects(x, y, z);
    case (List(_), List(_), List(_)) =>
      if HostEqual(a, b) {
        if HostEqual(b, c) { HostEqualTransitive(a, b, c); }
        if HostEqual(a, c) { HostEqualSymmetric(a, b); HostEqualTransitive(b, a, c); }
      }
    case _ =>
  }

  lemma AssociativeObjects(x: map<string, Json>, y: map<string, Json>, z: map<string, Json>)
    requires forall k :: JoinSlots(JoinSlots(At(x, k), At(y, k)), At(z, k))
                      == JoinSlots(At(x, k), JoinSlots(At(y, k), At(z, k)))
    ensures Then(Join(Obj(x), Obj(y)), Some(Obj(z))) == Then(Some(Obj(x)), Join(Obj(y), Obj(z)))
  {
    var xy, yz := Join(Obj(x), Obj(y)), Join(Obj(y), Obj(z));
    var left, right := Then(xy, Some(Obj(z))), Then(Some(Obj(x)), yz);
    hide Join, At;
    ObjectsBySlot(x, y);
    ObjectsBySlot(y, z);
    if xy.Some? { ObjectsBySlot(xy.value.fields, z); }
    if yz.Some? { ObjectsBySlot(x, yz.value.fields); }
    if left.Some? {
      forall k ensures !JoinSlots(At(y, k), At(z, k)).Clash?
               ensures !JoinSlots(At(x, k), JoinSlots(At(y, k), At(z, k))).Clash? {
        assert !JoinSlots(JoinSlots(At(x, k), At(y, k)), At(z, k)).Clash?;
      }
    }
    if right.Some? {
      forall k ensures !JoinSlots(At(x, k), At(y, k)).Clash?
               ensures !JoinSlots(JoinSlots(At(x, k), At(y, k)), At(z, k)).Clash? {
        assert !JoinSlots(At(x, k), JoinSlots(At(y, k), At(z, k))).Clash?;
      }
    }
    if left.Some? && right.Some? {
      SameSlots(left.value.fields, right.value.fields);
    }
  }

  /** At every place that both values have, lists or zeros the host language calls equal are the same. */
  ghost predicate LeavesAgree(a: Json, b: Json)
    decreases a
  {
    match (a, b)
    case (Obj(x), Obj(y)) => forall k :: k in x && k in y ==> LeavesAgree(x[k], y[k])
    case (List(_), List(_)) => HostEqual(a, b) ==> a == b
    case _ => Alike(a, b) ==> a == b
  }

  /** The order of two parts never decides success, and decides the result only through such places. */
  lemma {:induction false} JoinCommutative(a: Json, b: Json)
    ensures Join(a, b).Some? <==> Join(b, a).Some?
    ensures Join(a, b).Some? ==> Same(Join(a, b).value, Join(b, a).value)
    ensures Join(a, b).Some? ==> (Join(a, b) == Join(b, a) <==> LeavesAgree(a, b))
    decreases a
  {
    if Join(a, b).Some? {
      JoinIsUpper(a, b);
      JoinIsLeast(b, a, Join(a, b).value);
      JoinIsUpper(b, a);
      JoinIsLeast(a, b, Join(b, a).value);
      JoinExactlyCommutes(a, b);
    } else if Join(b, a).Some? {
      JoinIsUpper(b, a);
      JoinIsLeast(a, b, Join(b, a).value);
    }
  }

  lemma {:induction false} JoinExactlyCommutes(a: Json, b: Json)
    requires Join(a, b).Some? && Join(b, a).Some?
    ensures Join(a, b) == Join(b, a) <==> LeavesAgree(a, b)
    decreases a
  {
    match (a, b)
    case (Obj(x), Obj(y)) =>
      var ab, ba := Join(a, b).value.fields, Join(b, a).value.fields;
      assert ab.Keys == ba.Keys;
      forall k | k in x && k in y ensures ab[k] == ba[k] <==> LeavesAgree(x[k], y[k]) {
        JoinExactlyCommutes(x[k], y[k]);
      }
      if LeavesAgree(a, b) { assert ab == ba; }
    case _ =>
  }

  /** The host language takes `[1]` and `[true]` for equal, so the merge keeps whichever came first. */
  lemma ListOrderMatters()
    ensures var a, b := List([Int(1)]), List([Bool(true)]);
      Join(a, b) == Some(a) && Join(b, a) == Some(b) && a != b
  {
    assert HostEqual(Int(1), Bool(true)) && HostEqual(Bool(true), Int(1));
    assert List([Int(1)]).items[0] != List([Bool(true)]).items[0];
  }

  /** So are the two zeros. */
  lemma ZeroOrderMatters(k: string)
    ensures var a, b := Obj(map[k := Float(0.0)]), Obj(map[k := MinusZero]);
      Join(a, b) == Some(a) && Join(b, a) == Some(b) && a != b
  {
    var x, y := map[k := Float(0.0)], map[k := MinusZero];
    assert k in x && k in y && Join(x[k], y[k]) == Some(x[k]) && Join(y[k], x[k]) == Some(y[k]);
    assert Join(Obj(x), Obj(y)).value.fields == x && Join(Obj(y), Obj(x)).value.fields == y;
    assert x[k] != y[k];
  }

  // ---------------------------------------------------------------- lists of parts

  /** What the argument of a merge is taken apart into; other arguments are refused. */
  function PartsOf(input: Json): Option<seq<Json>> {
    match input
    case Obj(fields) =>
      if fields != map[] && forall k :: k in fields ==> fields[k].Obj? then
        BeforeIsTotal();
        var keys := Sort(Before, fields.Keys);
        Some(seq(|keys|, i requires 0 <= i < |keys| => assert keys[i] in keys; fields[keys[i]]))
      else Some([input])
    case List(items) => Some(items)
    case _ => None
  }

  /** Values of different kinds never merge, and of one kind only equal ones, objects and lists aside. */
  lemma OneKind(a: Json, b: Json)
    ensures (a.Obj? != b.Obj? || a.List? != b.List?) ==> Join(a, b).None?
    ensures !a.Obj? && !a.List? && !b.Obj? && !b.List? ==>
      (Join(a, b).Some? <==>
        match a
        case Null => b.Null?
        case Bool(flag) => b.Bool? && b.flag == flag
        case Int(n) => b.Int? && b.number == n
        case Float(x) => (b.Float? && b.amount == x) || (b.MinusZero? && x == 0.0)
        case MinusZero => b.MinusZero? || (b.Float? && b.amount == 0.0)
        case Str(text) => b.Str? && b.text == text)
    ensures a.List? && b.List? ==> (Join(a, b).Some? <==> HostEqual(a, b))
    ensures a.Obj? && b.Obj? ==>
      (Join(a, b).Some? <==>
        forall k :: k in a.fields && k in b.fields ==> Join(a.fields[k], b.fields[k]).Some?)
  {
  }

  /**
   * What a merge is asked to merge: the elements of a list; the values of an object of objects, in
   * the order of its keys; any other object alone; nothing else.
   */
  lemma PartsMean(input: Json)
    ensures input.List? ==> PartsOf(input) == Some(input.items)
    ensures input.Obj? && (input.fields == map[] || exists k :: k in input.fields && !input.fields[k].Obj?) ==>
      PartsOf(input) == Some([input])
    ensures input.Obj? && input.fields != map[] && (forall k :: k in input.fields ==> input.fields[k].Obj?) ==>
      exists keys :: InKeyOrder(input.fields, keys) && PartsOf(input) == Some(ValuesAt(input.fields, keys))
    ensures !input.List? && !input.Obj? ==> PartsOf(input).None?
  {
    hide Before, InKeyOrder;
    if input.Obj? && input.fields != map[] && forall k :: k in input.fields ==> input.fields[k].Obj? {
      var keys := NamedParts(input);
    }
  }

  lemma NamedParts(input: Json) returns (keys: seq<string>)
    requires input.Obj? && input.fields != map[] && forall k :: k in input.fields ==> input.fields[k].Obj?
    ensures InKeyOrder(input.fields, keys) && PartsOf(input) == Some(ValuesAt(input.fields, keys))
  {
    keys := KeysInOrder(input.fields);
    hide Before;
    assert PartsOf(input).value == ValuesAt(input.fields, keys);
  }

  lemma KeysInOrder(fields: map<string, Json>) returns (keys: seq<string>)
    ensures StrictTotal(Before) && keys == Sort(Before, fields.Keys) && InKeyOrder(fields, keys)
  {
    BeforeIsTotal();
    hide Before, StrictTotal, InKeyOrder, Ascending, Elements, Sort;
    keys := Sort(Before, fields.Keys);
    SortedKeys(fields, keys);
  }

  lemma SortedKeys(fields: map<string, Json>, keys: seq<string>)
    requires Ascending(Before, keys) && Elements(keys) == fields.Keys
    ensures InKeyOrder(fields, keys)
  {
    hide Before;
    assert forall k :: k in keys <==> k in Elements(keys);
    assert forall i :: 0 <= i < |keys| ==> keys[i] in keys;
  }

  /** The keys, each once, in ascending order. */
  ghost predicate InKeyOrder(fields: map<string, Json>, keys: seq<string>) {
    && (forall k :: k in keys <==> k in fields) && (forall i :: 0 <= i < |keys| ==> keys[i] in fields)
    && forall i, j :: 0 <= i < j < |keys| ==> Before(keys[i], keys[j])
  }

  ghost function ValuesAt(fields: map<string, Json>, keys: seq<string>): seq<Json>
    requires InKeyOrder(fields, keys)
  {
    seq(|keys|, i requires 0 <= i < |keys| => fields[keys[i]])
  }

  /** Every part is under `u`. */
  ghost predicate Bounds(parts: seq<Json>, u: Json) {
    forall i :: 0 <= i < |parts| ==> Under(parts[i], u)
  }

  /** `m` is the least value above every part. */
  ghost predicate LeastBound(parts: seq<Json>, m: Json) {
    Bounds(parts, m) && forall u :: Bounds(parts, u) ==> Under(m, u)
  }

  /** The parts merged one after the other, from the left. */
  function JoinAll(parts: seq<Json>): Option<Json>
    requires parts != []
  {
    if |parts| == 1 then Some(parts[0])
    else Then(JoinAll(parts[..|parts| - 1]), Some(parts[|parts| - 1]))
  }

  /**
   * Merging a list of parts succeeds exactly when something bounds them all, and then yields the
   * least such value.
   */
  lemma {:induction false} JoinAllIsLeastBound(parts: seq<Json>)
    requires parts != []
    ensures JoinAll(parts).Some? <==> exists u :: Bounds(parts, u)
    ensures JoinAll(parts).Some? ==> LeastBound(parts, JoinAll(parts).value)
  {
    if |parts| == 1 {
      OnePart(parts);
    } else {
      var init, last := parts[..|parts| - 1], parts[|parts| - 1];
      assert parts == init + [last];
      JoinAllIsLeastBound(init);
      if JoinAll(init).Some? {
        OneMore(init, JoinAll(init).value, last);
      } else {
        forall u ensures !Bounds(parts, u) {
          assert Bounds(parts, u) ==> Bounds(init, u);
        }
      }
    }
  }

  /** Merging in two groups gives what merging in one go gives, failure included. */
  lemma {:induction false} GroupingIrrelevant(front: seq<Json>, back: seq<Json>)
    requires front != [] && back != []
    ensures JoinAll(front + back) == Then(JoinAll(front), JoinAll(back))
    decreases |back|
  {
    hide Join;
    var all, last := front + back, back[|back| - 1];
    assert all[..|all| - 1] == front + back[..|back| - 1];
    if |back| == 1 {
      assert front + back[..0] == front;
    } else {
      GroupingIrrelevant(front, back[..|back| - 1]);
      var a, b := JoinAll(front), JoinAll(back[..|back| - 1]);
      if a.Some? && b.Some? { JoinAssociative(a.value, b.value, last); }
    }
  }

  /** The loop over the parts; no parts merge to the empty object. */
  method MergeParts(parts: seq<Json>) returns (merged: Option<Json>)
    ensures merged == if parts == [] then Some(Obj(map[])) else JoinAll(parts)
  {
    if parts == [] {
      return Some(Obj(map[]));
    }
    var value := parts[0];
    for n := 1 to |parts|
      invariant JoinAll(parts[..n]) == Some(value)
    {
      assert parts[..n + 1][..n] == parts[..n];
      assert JoinAll(parts[..n + 1]) == Then(JoinAll(parts[..n]), Some(parts[n]));
      var next := Join(value, parts[n]);
      if next.None? {
        FailureStays(parts, n + 1);
        return None;
      }
      value := next.value;
    }
    assert parts[..|parts|] == parts;
    return Some(value);
  }

  lemma {:induction false} FailureStays(parts: seq<Json>, n: nat)
    requires 0 < n <= |parts| && JoinAll(parts[..n]).None?
    ensures JoinAll(parts).None?
    decreases |parts|
  {
    if n < |parts| {
      assert parts[..|parts| - 1][..n] == parts[..n];
      FailureStays(parts[..|parts| - 1], n);
    } else {
      assert parts[..n] == parts;
    }
  }

  /** The whole call: take the argument apart, merge, and check the result against the schema given. */
  method StructurallyCompatibleMerge(input: Json, schema: Option<Schema>) returns (merged: Option<Json>)
    ensures merged.Some? ==> PartsOf(input).Some? && (schema.Some? ==> Conforms(merged.value, schema.value))
    ensures PartsOf(input).Some? ==>
      var joined := if PartsOf(input).value == [] then Some(Obj(map[])) else JoinAll(PartsOf(input).value);
      merged == if joined.Some? && schema.Some? && !Conforms(joined.value, schema.value) then None else joined
  {
    var parts := PartsOf(input);
    if parts.None? { return None; }
    merged := MergeParts(parts.value);
    if merged.Some? && schema.Some? && !Conforms(merged.value, schema.value) {
      merged := None;
    }
  }

  lemma OnePart(parts: seq<Json>)
    requires |parts| == 1
    ensures LeastBound(parts, parts[0])
  {
    UnderReflexive(parts[0]);
  }

  lemma OneMore(parts: seq<Json>, m: Json, part: Json)
    requires LeastBound(parts, m)
    ensures Join(m, part).Some? <==> exists u :: Bounds(parts + [part], u)
    ensures Join(m, part).Some? ==> LeastBound(parts + [part], Join(m, part).value)
  {
    var more := parts + [part];
    forall u | Bounds(more, u) ensures Join(m, part).Some? && Under(Join(m, part).value, u) {
      assert Bounds(parts, u) by {
        forall i | 0 <= i < |parts| ensures Under(parts[i], u) { assert more[i] == parts[i]; }
      }
      assert more[|parts|] == part;
      JoinIsLeast(m, part, u);
    }
    if Join(m, part).Some? {
      var j := Join(m, part).value;
      JoinIsUpper(m, part);
      forall i | 0 <= i < |more| ensures Under(more[i], j) {
        if i < |parts| { UnderTransitive(parts[i], m, j); }
      }
      assert Bounds(more, j);
    }
  }

  /** Success of a merge, and its result up to equal lists and zeros, do not depend on the order of the parts. */
  lemma PartOrderIrrelevant(parts: seq<Json>, parts': seq<Json>)
    requires multiset(parts) == multiset(parts') && parts != [] && parts' != []
    ensures JoinAll(parts).Some? <==> JoinAll(parts').Some?
    ensures JoinAll(parts).Some? ==> Same(JoinAll(parts).value, JoinAll(parts').value)
  {
    JoinAllIsLeastBound(parts);
    JoinAllIsLeastBound(parts');
    forall u ensures Bounds(parts, u) <==> Bounds(parts', u) {
      if Bounds(parts, u) { SameBounds(parts, parts', u); }
      if Bounds(parts', u) { SameBounds(parts', parts, u); }
    }
  }

  lemma SameBounds(parts: seq<Json>, parts': seq<Json>, u: Json)
    requires multiset(parts) == multiset(parts') && Bounds(parts, u)
    ensures Bounds(parts', u)
  {
    forall i | 0 <= i < |parts'| ensures Under(parts'[i], u) {
      assert parts'[i] in multiset(parts');
      assert parts'[i] in multiset(parts);
      assert parts'[i] in parts;
    }
  }

  // ---------------------------------------------------------------- exactly when the order does not matter

  /** Any two parts merge to the same value in either order. */
  ghost predicate PairsAgree(parts: seq<Json>) {
    forall i, j :: 0 <= i < j < |parts| ==> LeavesAgree(parts[i], parts[j])
  }

  /** Agreement goes both ways. */
  lemma {:induction false} LeavesAgreeSymmetric(a: Json, b: Json)
    requires LeavesAgree(a, b)
    ensures LeavesAgree(b, a)
    decreases a
  {
    match (a, b)
    case (Obj(x), Obj(y)) =>
      forall k | k in x && k in y ensures LeavesAgree(y[k], x[k]) { LeavesAgreeSymmetric(x[k], y[k]); }
    case (List(_), List(_)) => if HostEqual(b, a) { HostEqualSymmetric(b, a); }
    case _ =>
  }

  /** Two neighbouring parts that agree may change places, failure included. */
  lemma SwapNeighbours(front: seq<Json>, a: Json, b: Json, back: seq<Json>)
    requires LeavesAgree(a, b)
    ensures JoinAll(front + [a, b] + back) == JoinAll(front + [b, a] + back)
  {
    JoinCommutative(a, b);
    assert JoinAll([a, b]) == JoinAll([b, a]) by {
      assert [a, b][..1] == [a] && [b, a][..1] == [b];
    }
    hide JoinAll;
    if front != [] {
      GroupingIrrelevant(front, [a, b]);
      GroupingIrrelevant(front, [b, a]);
    } else {
      assert front + [a, b] == [a, b] && front + [b, a] == [b, a];
    }
    if back != [] {
      GroupingIrrelevant(front + [a, b], back);
      GroupingIrrelevant(front + [b, a], back);
    } else {
      assert front + [a, b] + back == front + [a, b] && front + [b, a] + back == front + [b, a];
    }
  }

  /** A part that agrees with all parts after it may be merged last. */
  lemma {:induction false} MergedLast(front: seq<Json>, a: Json, back: seq<Json>)
    requires forall i :: 0 <= i < |back| ==> LeavesAgree(a, back[i])
    ensures JoinAll(front + [a] + back) == JoinAll(front + back + [a])
    decreases |back|
  {
    hide JoinAll;
    if back == [] {
      assert front + [a] + back == front + back + [a];
    } else {
      var b, rest := back[0], back[1..];
      assert front + [a] + back == front + [a, b] + rest;
      SwapNeighbours(front, a, b, rest);
      assert front + [b, a] + rest == front + [b] + [a] + rest;
      MergedLast(front + [b], a, rest);
      assert front + [b] + rest + [a] == front + back + [a];
    }
  }

  lemma AgreeAt(parts: seq<Json>, i: nat, j: nat)
    requires PairsAgree(parts) && i < |parts| && j < |parts| && i != j
    ensures LeavesAgree(parts[i], parts[j])
  {
    if j < i { LeavesAgreeSymmetric(parts[j], parts[i]); }
  }

  lemma WithoutAgrees(parts: seq<Json>, k: nat)
    requires PairsAgree(parts) && k < |parts|
    ensures PairsAgree(Without(parts, k))
  {
    hide LeavesAgree;
    var less := Without(parts, k);
    forall i, j | 0 <= i < j < |less| ensures LeavesAgree(less[i], less[j]) {
      AgreeAt(parts, if i < k then i else i + 1, if j < k then j else j + 1);
    }
  }

  /** Of parts that agree pairwise, any may be merged last. */
  lemma AnyPartLast(parts: seq<Json>, k: nat)
    requires PairsAgree(parts) && k < |parts|
    ensures JoinAll(parts) == JoinAll(Without(parts, k) + [parts[k]])
  {
    hide JoinAll, LeavesAgree, PairsAgree;
    var back := parts[k + 1..];
    forall i: nat | i < |back| ensures LeavesAgree(parts[k], back[i]) { AgreeAt(parts, k, k + 1 + i); }
    MergedLast(parts[..k], parts[k], back);
    assert parts == parts[..k] + [parts[k]] + back;
  }

  /** Where the last of a rearranged list stood, and what is left without it. */
  lemma LastTakenOut(parts: seq<Json>, front: seq<Json>, last: Json) returns (k: nat)
    requires multiset(parts) == multiset(front + [last])
    ensures k < |parts| && parts[k] == last && multiset(Without(parts, k)) == multiset(front)
  {
    assert last in multiset(front + [last]) && last in parts;
    k :| 0 <= k < |parts| && parts[k] == last;
    WithoutOne(parts, k);
    hide Without;
    assert multiset(front + [last]) == multiset(front) + multiset{last};
    assert multiset(Without(parts, k)) == multiset(parts) - multiset{last} == multiset(front);
  }

  /** Parts that agree pairwise merge to one and the same value in every order. */
  lemma {:induction false} AgreeingPartsCommute(parts: seq<Json>, parts': seq<Json>)
    requires parts != [] && multiset(parts) == multiset(parts') && PairsAgree(parts)
    ensures parts' != [] && JoinAll(parts) == JoinAll(parts')
    decreases |parts|
  {
    hide JoinAll, LeavesAgree, PairsAgree, Without;
    SameElements(parts, parts');
    var n := |parts| - 1;
    var front', last := parts'[..n], parts'[n];
    assert parts' == front' + [last];
    var k := LastTakenOut(parts, front', last);
    var less := Without(parts, k);
    SameElements(less, front');
    AnyPartLast(parts, k);
    if n > 0 {
      WithoutAgrees(parts, k);
      AgreeingPartsCommute(less, front');
      OneMorePart(less, last);
      OneMorePart(front', last);
    } else {
      assert less == front';
    }
  }

  lemma OneMorePart(parts: seq<Json>, part: Json)
    requires parts != []
    ensures JoinAll(parts + [part]) == Then(JoinAll(parts), Some(part))
  {
    assert (parts + [part])[..|parts|] == parts;
  }

  /** What is merged later never hides a difference between values merged before. */
  lemma {:induction false} DifferenceStays(a: Json, b: Json, r: Json)
    requires Same(a, b) && Join(a, r).Some? && Join(a, r) == Join(b, r)
    ensures a == b
    decreases a
  {
    match (a, b, r)
    case (Obj(x), Obj(y), Obj(z)) =>
      var ar, br := Join(a, r).value.fields, Join(b, r).value.fields;
      assert x.Keys == y.Keys;
      forall k | k in x ensures x[k] == y[k] {
        assert ar[k] == br[k];
        if k in z { DifferenceStays(x[k], y[k], z[k]); }
      }
      assert x == y;
    case _ =>
  }

  /** Two parts that do not agree give different values when either is put first. */
  lemma DisagreementShows(parts: seq<Json>, i: nat, j: nat)
    requires i < |parts| && j < |parts| && i != j && !LeavesAgree(parts[i], parts[j]) && JoinAll(parts).Some?
    ensures JoinAll(PairFirst(parts, i, j)) != JoinAll(PairFirst(parts, j, i))
  {
    var a, b := parts[i], parts[j];
    var rest := PairFirst(parts, i, j)[2..];
    assert PairFirst(parts, i, j) == [a, b] + rest && PairFirst(parts, j, i) == [b, a] + rest;
    PairFirstKeeps(parts, i, j);
    hide PairFirst;
    PartOrderIrrelevant(parts, [a, b] + rest);
    DisagreementLeads(a, b, rest);
  }

  lemma JoinPair(a: Json, b: Json)
    ensures JoinAll([a, b]) == Join(a, b)
  {
    hide Join;
    assert [a, b][..1] == [a];
  }

  lemma DisagreementLeads(a: Json, b: Json, rest: seq<Json>)
    requires !LeavesAgree(a, b) && JoinAll([a, b] + rest).Some?
    ensures JoinAll([a, b] + rest) != JoinAll([b, a] + rest)
  {
    hide JoinAll, Join, LeavesAgree;
    JoinPair(a, b);
    JoinPair(b, a);
    JoinCommutative(a, b);
    if rest == [] {
      assert [a, b] + rest == [a, b] && [b, a] + rest == [b, a];
    } else {
      GroupingIrrelevant([a, b], rest);
      GroupingIrrelevant([b, a], rest);
      if JoinAll([a, b] + rest) == JoinAll([b, a] + rest) {
        DifferenceStays(Join(a, b).value, Join(b, a).value, JoinAll(rest).value);
      }
    }
  }

  ghost predicate MergesAlike(parts: seq<Json>, parts': seq<Json>) {
    parts != [] && parts' != [] && JoinAll(parts) == JoinAll(parts')
  }

  /**
   * Parts that can be merged give one and the same value in every order if and only if, at every
   * place that two of them have, lists or zeros the host language calls equal are the same.
   */
  lemma EveryOrderIff(parts: seq<Json>)
    requires parts != [] && JoinAll(parts).Some?
    ensures (forall parts' :: multiset(parts') == multiset(parts) ==> MergesAlike(parts, parts')) <==> PairsAgree(parts)
  {
    hide LeavesAgree, JoinAll;
    if PairsAgree(parts) {
      forall parts' | multiset(parts') == multiset(parts) ensures MergesAlike(parts, parts') {
        AgreeingPartsCommute(parts, parts');
      }
    } else {
      var i, j :| 0 <= i < j < |parts| && !LeavesAgree(parts[i], parts[j]);
      DisagreementShows(parts, i, j);
      PairFirstKeeps(parts, i, j);
      PairFirstKeeps(parts, j, i);
      assert !MergesAlike(parts, PairFirst(parts, i, j)) || !MergesAlike(parts, PairFirst(parts, j, i));
    }
  }
}
