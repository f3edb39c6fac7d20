/** Lists with the same elements in another order. */
module Rearrange {

  function Without<T>(s: seq<T>, k: nat): seq<T>
    requires k < |s|
  {
    s[..k] + s[k + 1..]
  }

  lemma WithoutOne<T>(s: seq<T>, k: nat)
    requires k < |s|
    ensures multiset(s) == multiset(Without(s, k)) + multiset{s[k]}
  {
    assert s == s[..k] + [s[k]] + s[k + 1..];
  }

  /** The list with the elements at `i` and `j` in front, in this order. */
  function PairFirst<T>(s: seq<T>, i: nat, j: nat): seq<T>
    requires i < |s| && j < |s| && i != j
  {
    [s[i], s[j]] + if i < j then Without(Without(s, j), i) else Without(Without(s, i), j)
  }

  lemma PairFirstKeeps<T>(s: seq<T>, i: nat, j: nat)
    requires i < |s| && j < |s| && i != j
    ensures multiset(PairFirst(s, i, j)) == multiset(s)
  {
    var lo, hi := if i < j then i else j, if i < j then j else i;
    WithoutOne(s, hi);
    WithoutOne(Without(s, hi), lo);
  }

  /** The list with the element at `i` in front. */
  function OneFirst<T>(s: seq<T>, i: nat): seq<T>
    requires i < |s|
  {
    [s[i]] + Without(s, i)
  }

  lemma OneFirstKeeps<T>(s: seq<T>, i: nat)
    requires i < |s|
    ensures multiset(OneFirst(s, i)) == multiset(s)
  {
    WithoutOne(s, i);
  }

  lemma SameElements<T>(a: seq<T>, b: seq<T>)
    requires multiset(a) == multiset(b)
    ensures |a| == |b| && forall x :: x in a <==> x in b
  {
    assert |multiset(a)| == |a| && |multiset(b)| == |b|;
    forall x ensures x in a <==> x in b { assert x in multiset(a) <==> x in multiset(b); }
  }
}
