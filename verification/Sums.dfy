/**
 Amounts held by accounts, and their sum.
 */
module Sums {
  import opened Basics

  type Amounts = map<Address, nat>

  ghost predicate IsUnit(m: Amounts, u: (Address, nat)) { u.0 in m && u.1 < m[u.0] }

  /** One element for every unit of every account. */
  ghost function Units(m: Amounts): set<(Address, nat)> {
    set a, i | a in m && 0 <= i < m[a] :: (a, i)
  }

  ghost function Sum(m: Amounts): nat { |Units(m)| }

  lemma UnitsAre(m: Amounts, u: (Address, nat))
    ensures u in Units(m) <==> IsUnit(m, u)
  {
  }

  lemma OneUnitLess(m: Amounts, a: Address)
    requires a in m && m[a] > 0
    ensures Sum(m) == Sum(m[a := m[a] - 1]) + 1
  {
    var less, u := m[a := m[a] - 1], (a, m[a] - 1);
    forall v ensures v in Units(m) <==> v in Units(less) + {u} {
      UnitsAre(m, v);
      UnitsAre(less, v);
    }
    UnitsAre(less, u);
    assert Units(m) == Units(less) + {u};
  }

  lemma {:induction false} SumTake(m: Amounts, a: Address)
    requires a in m
    ensures Sum(m) == m[a] + Sum(m - {a})
    decreases m[a]
  {
    if m[a] == 0 {
      forall v ensures v in Units(m) <==> v in Units(m - {a}) {
        UnitsAre(m, v);
        UnitsAre(m - {a}, v);
      }
      assert Units(m) == Units(m - {a});
    } else {
      var less := m[a := m[a] - 1];
      OneUnitLess(m, a);
      SumTake(less, a);
      assert less - {a} == m - {a};
    }
  }

  lemma SumNothing(m: Amounts)
    requires m.Keys == {}
    ensures Sum(m) == 0
  {
    assert Units(m) == {};
  }

  lemma Smaller(m: Amounts, a: Address)
    requires a in m
    ensures |m - {a}| == |m| - 1
  {
    assert m.Keys == (m - {a}).Keys + {a};
  }

  function Value(m: Amounts, a: Address): nat { if a in m then m[a] else 0 }

  lemma SumPut(m: Amounts, a: Address, v: nat)
    ensures Sum(m[a := v]) == Sum(m) - Value(m, a) + v
  {
    SumTake(m[a := v], a);
    assert m[a := v] - {a} == m - {a};
    if a in m { SumTake(m, a); } else { assert m - {a} == m; }
  }
}
