/** How the sum of all attempts reacts to an update of the units. */
module Counting {
  import opened Digraph
  import opened Order
  import opened State

  lemma {:induction false} TotalSplits(units: map<Id, Unit>, u: Id)
    requires u in units
    ensures TotalAttempts(units) == units[u].attempts.Total() + TotalAttempts(units - {u})
    decreases |units|
  {
    BeforeIsTotal();
    var first := Least(Before, units.Keys);
    if u != first {
      TotalSplits(units - {first}, u);
      TotalSplits(units - {u}, first);
      assert units - {first} - {u} == units - {u} - {first};
    }
  }

  lemma TotalUpdate(units: map<Id, Unit>, u: Id, unit: Unit)
    requires u in units
    ensures TotalAttempts(units[u := unit]) == TotalAttempts(units) - units[u].attempts.Total() + unit.attempts.Total()
  {
    TotalSplits(units, u);
    TotalSplits(units[u := unit], u);
    assert units[u := unit] - {u} == units - {u};
  }

  lemma {:induction false} TotalSame(a: map<Id, Unit>, b: map<Id, Unit>)
    requires a.Keys == b.Keys && forall u :: u in a ==> a[u].attempts == b[u].attempts
    ensures TotalAttempts(a) == TotalAttempts(b)
    decreases |a|
  {
    if a == map[] {
      assert b == map[];
    } else {
      BeforeIsTotal();
      var u := Least(Before, a.Keys);
      TotalSplits(b, u);
      TotalSame(a - {u}, b - {u});
    }
  }

  lemma {:induction false} TotalZero(a: map<Id, Unit>)
    requires forall u :: u in a ==> a[u].attempts.Total() == 0
    ensures TotalAttempts(a) == 0
    decreases |a|
  {
    if a != map[] {
      BeforeIsTotal();
      TotalZero(a - {Least(Before, a.Keys)});
    }
  }
}
