/** Monetary amounts. The engine computes with Python Decimals; here an amount
    is an exact `real`. Rounding to cents follows Decimal's default context,
    which rounds half to even. */
module Money {

  import opened Values

  /** Whether an amount is a whole number of cents. */
  predicate IsCents(x: real) {
    (x * 100.0).Floor as real == x * 100.0
  }

  /** round(x, 2) on a Decimal: the nearest whole number of cents, a tie
      going to the even one. */
  function Round2(x: real): (r: real)
    ensures IsCents(r)
    ensures x - 0.005 <= r <= x + 0.005
  {
    var y := x * 100.0;
    var f := y.Floor;
    var frac := y - f as real;
    var n := if frac < 0.5 then f
             else if frac > 0.5 then f + 1
             else if f % 2 == 0 then f
             else f + 1;
    n as real / 100.0
  }

  /** An amount already given in cents is left unchanged by rounding. */
  lemma Round2OfCents(x: real)
    requires IsCents(x)
    ensures Round2(x) == x
  {
    var y := x * 100.0;
    assert y - y.Floor as real == 0.0;
  }

  /** The exact ties go to the even cent. */
  lemma Round2HalfEven()
    ensures Round2(0.125) == 0.12
    ensures Round2(0.135) == 0.14
    ensures Round2(2.675) == 2.68
  {
    assert (0.125 * 100.0).Floor == 12;
    assert (0.135 * 100.0).Floor == 13;
    assert (2.675 * 100.0).Floor == 267;
  }

  /** A non-empty finite set of group ids has a smallest element. */
  lemma MinKeyExists(s: set<int>)
    requires s != {}
    ensures exists k :: k in s && forall j :: j in s ==> k <= j
    decreases |s|
  {
    NonEmptyHasElement(s);
    var x :| x in s;
    if !(forall j :: j in s ==> x <= j) {
      var y :| y in s && y < x;
      assert y in s - {x};
      MinKeyExists(s - {x});
      var k :| k in s - {x} && forall j :: j in s - {x} ==> k <= j;
      forall j | j in s
        ensures k <= j
      {
        if j != x {
          assert j in s - {x};
        }
      }
    }
  }

  /** The smallest of a non-empty set of group ids. */
  function MinKey(s: set<int>): (k: int)
    requires s != {}
    ensures k in s && forall j :: j in s ==> k <= j
  {
    MinKeyExists(s);
    var k :| k in s && forall j :: j in s ==> k <= j;
    k
  }

  /** sum(m.values()): the total of all amounts in a map, taken in
      ascending key order. */
  function SumValues(m: map<int, real>): real
    decreases |m|
  {
    if m == map[] then 0.0
    else
      var k := MinKey(m.Keys);
      m[k] + SumValues(m - {k})
  }

  /** The total does not depend on the order keys are visited in: any key
      can be taken out first. */
  lemma {:induction false} SumValuesRemove(m: map<int, real>, k: int)
    requires k in m
    ensures SumValues(m) == m[k] + SumValues(m - {k})
    decreases |m|
  {
    var k0 := MinKey(m.Keys);
    if k0 != k {
      assert SumValues(m) == m[k0] + SumValues(m - {k0});
      SumValuesRemove(m - {k0}, k);
      SumValuesRemove(m - {k}, k0);
      assert (m - {k0}) - {k} == (m - {k}) - {k0};
    }
  }

  /** Adding an amount to one entry adds it to the total. */
  lemma SumValuesAdd(m: map<int, real>, k: int, a: real)
    ensures SumValues(m[k := (if k in m then m[k] else 0.0) + a]) == SumValues(m) + a
  {
    var m' := m[k := (if k in m then m[k] else 0.0) + a];
    SumValuesRemove(m', k);
    if k in m {
      SumValuesRemove(m, k);
      assert m' - {k} == m - {k};
    } else {
      assert m' - {k} == m;
    }
  }
}
