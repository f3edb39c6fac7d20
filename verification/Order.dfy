/**
 * Orders and sorted lists.  Unit identifiers are strings compared code point by code
 * point, and every `sorted(...)` of the engine is over a list without repeats, so a
 * sorted list is a strictly ascending one and is determined by its set of elements.
 */
module Order {

  ghost predicate StrictTotal<T(!new)>(less: (T, T) -> bool) {
    && (forall a {:trigger less(a, a)} :: !less(a, a))
    && (forall a, b {:trigger less(a, b)} :: a == b || less(a, b) || less(b, a))
    && (forall a, b, c {:trigger less(a, b), less(b, c)} :: less(a, b) && less(b, c) ==> less(a, c))
  }

  /** The lexicographic order that `less` induces on lists; a proper prefix comes first. */
  predicate Lex<T(==)>(less: (T, T) -> bool, a: seq<T>, b: seq<T>)
    decreases |a|
  {
    b != [] && (a == [] || less(a[0], b[0]) || (a[0] == b[0] && Lex(less, a[1..], b[1..])))
  }

  lemma {:induction false} LexTransitive<T(!new)>(less: (T, T) -> bool, a: seq<T>, b: seq<T>, c: seq<T>)
    requires StrictTotal(less) && Lex(less, a, b) && Lex(less, b, c)
    ensures Lex(less, a, c)
    decreases |a|
  {
    if a != [] && a[0] == b[0] && b[0] == c[0] {
      LexTransitive(less, a[1..], b[1..], c[1..]);
    }
  }

  lemma {:induction false} LexTotal<T(!new)>(less: (T, T) -> bool, a: seq<T>, b: seq<T>)
    requires StrictTotal(less)
    ensures a == b || Lex(less, a, b) || Lex(less, b, a)
    ensures !(Lex(less, a, b) && Lex(less, b, a))
    ensures a == b ==> !Lex(less, a, b)
    decreases |a|
  {
    if a != [] && b != [] && a[0] == b[0] {
      LexTotal(less, a[1..], b[1..]);
      assert a == [a[0]] + a[1..] && b == [b[0]] + b[1..];
    }
  }

  /** A list is lexicographically below another once they agree up to `k` and differ the right way at `k`. */
  lemma {:induction false} LexAt<T(!new)>(less: (T, T) -> bool, a: seq<T>, b: seq<T>, k: nat)
    requires k < |a| && k < |b| && a[..k] == b[..k] && less(a[k], b[k])
    ensures Lex(less, a, b)
    decreases k
  {
    if k > 0 {
      assert a[0] == a[..k][0] == b[..k][0] == b[0];
      assert a[1..][..k - 1] == a[..k][1..] == b[..k][1..] == b[1..][..k - 1];
      LexAt(less, a[1..], b[1..], k - 1);
    }
  }

  predicate CharBefore(a: char, b: char) { a < b }

  /** Order of identifiers. */
  predicate Before(a: string, b: string) { Lex(CharBefore, a, b) }

  /** An identifier comes before another as its proper prefix, or by the lower code point where they first differ. */
  lemma {:induction false} BeforeIff(a: string, b: string)
    ensures Before(a, b) <==> a < b || exists k :: 0 <= k < |a| && k < |b| && a[..k] == b[..k] && a[k] < b[k]
    decreases |a|
  {
    if a != [] && b != [] && a[0] == b[0] {
      BeforeIff(a[1..], b[1..]);
      assert a == [a[0]] + a[1..] && b == [b[0]] + b[1..];
      if k :| 0 <= k < |a| - 1 && k < |b| - 1 && a[1..][..k] == b[1..][..k] && a[1..][k] < b[1..][k] {
        assert a[..k + 1] == [a[0]] + a[1..][..k] == [b[0]] + b[1..][..k] == b[..k + 1];
        assert a[k + 1] < b[k + 1];
      }
      if k :| 0 <= k < |a| && k < |b| && a[..k] == b[..k] && a[k] < b[k] {
        assert k > 0;
        assert a[1..][..k - 1] == a[..k][1..] == b[..k][1..] == b[1..][..k - 1];
        assert a[1..][k - 1] < b[1..][k - 1];
      }
    } else if a != [] && b != [] {
      if a[0] < b[0] { assert a[..0] == b[..0]; }
      forall k | 0 < k < |a| && k < |b| ensures a[..k] != b[..k] { assert a[..k][0] != b[..k][0]; }
    }
  }

  /** Order of lists of identifiers. */
  predicate ListBefore(a: seq<string>, b: seq<string>) { Lex(Before, a, b) }

  lemma BeforeIsTotal()
    ensures StrictTotal(Before)
  {
    assert StrictTotal(CharBefore);
    forall a, b ensures a == b || Before(a, b) || Before(b, a)
                ensures a == b ==> !Before(a, b) { LexTotal(CharBefore, a, b); }
    forall a, b, c | Before(a, b) && Before(b, c) ensures Before(a, c) { LexTransitive(CharBefore, a, b, c); }
  }

  lemma ListBeforeIsTotal()
    ensures StrictTotal(ListBefore)
  {
    BeforeIsTotal();
    forall a, b ensures a == b || ListBefore(a, b) || ListBefore(b, a)
                ensures a == b ==> !ListBefore(a, b) { LexTotal(Before, a, b); }
    forall a, b, c | ListBefore(a, b) && ListBefore(b, c) ensures ListBefore(a, c) { LexTransitive(Before, a, b, c); }
  }

  predicate Ascending<T>(less: (T, T) -> bool, s: seq<T>) {
    forall i, j :: 0 <= i < j < |s| ==> less(s[i], s[j])
  }

  ghost function Elements<T>(s: seq<T>): set<T> { set x | x in s }

  ghost predicate IsLeast<T(!new)>(less: (T, T) -> bool, s: set<T>, m: T) {
    m in s && forall x :: x in s ==> x == m || less(m, x)
  }

  lemma {:induction false} LeastOf<T(!new)>(less: (T, T) -> bool, s: set<T>) returns (m: T)
    requires StrictTotal(less) && s != {}
    ensures IsLeast(less, s, m)
    decreases |s|
  {
    var x :| x in s;
    m := x;
    if s - {x} != {} {
      var y := LeastOf(less, s - {x});
      m := if less(y, x) then y else x;
      forall z | z in s ensures z == m || less(m, z) {
        assert z == x || z in s - {x};
        assert z != x ==> z == y || less(y, z);
      }
    } else {
      assert s == {x};
    }
  }

  lemma LeastExists<T(!new)>(less: (T, T) -> bool, s: set<T>)
    requires StrictTotal(less) && s != {}
    ensures exists m :: IsLeast(less, s, m)
  {
    var m := LeastOf(less, s);
  }

  function Least<T(==,!new)>(less: (T, T) -> bool, s: set<T>): (m: T)
    requires StrictTotal(less) && s != {}
    ensures IsLeast(less, s, m)
  {
    LeastExists(less, s);
    var m :| m in s && forall x :: x in s ==> x == m || less(m, x);
    m
  }

  /** `sorted(s)` for a collection without repeats. */
  function Sort<T(==,!new)>(less: (T, T) -> bool, s: set<T>): (q: seq<T>)
    requires StrictTotal(less)
    ensures Ascending(less, q) && Elements(q) == s && |q| == |s|
    ensures forall x :: x in q <==> x in s
    decreases |s|
  {
    if s == {} then [] else
      var m := Least(less, s);
      var q := [m] + Sort(less, s - {m});
      assert Elements(q) == s;
      q
  }

  /** An ascending list is determined by its elements. */
  lemma {:induction false} AscendingUnique<T(!new)>(less: (T, T) -> bool, a: seq<T>, b: seq<T>)
    requires StrictTotal(less) && Ascending(less, a) && Ascending(less, b)
    requires forall x :: x in a <==> x in b
    ensures a == b
    decreases |a|
  {
    if a == [] {
      assert forall k :: 0 <= k < |b| ==> b[k] in a;
    } else {
      assert a[0] in a && a[0] in b;
      assert b[0] in a;
      var i :| 0 <= i < |b| && b[i] == a[0];
      var j :| 0 <= j < |a| && a[j] == b[0];
      assert a[0] == b[0];
      forall x ensures x in a[1..] <==> x in b[1..] {
        if x in a[1..] {
          var k :| 1 <= k < |a| && a[k] == x;
          assert less(a[0], a[k]) && x != b[0] && x in b;
        }
        if x in b[1..] {
          var k :| 1 <= k < |b| && b[k] == x;
          assert less(b[0], b[k]) && x != a[0] && x in a;
        }
      }
      AscendingUnique(less, a[1..], b[1..]);
    }
  }
}
