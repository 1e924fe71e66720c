/** Small vocabulary shared by every module: optional values and real arithmetic. */
module Common {

  datatype Option<+T> = None | Some(value: T) {
    predicate IsFailure() {
      None?
    }

    function PropagateFailure<U>(): Option<U>
      requires None?
    {
      None
    }

    function Extract(): T
      requires Some?
    {
      value
    }
  }

  function Abs(x: real): real {
    if x < 0.0 then -x else x
  }

  function Min(x: real, y: real): real {
    if x <= y then x else y
  }

  function Max(x: real, y: real): real {
    if x <= y then y else x
  }

  function MinInt(a: int, b: int): int {
    if a <= b then a else b
  }

  /** Product and quotient by name, so that a proof can hide what they compute and keep only
      the laws it has been given. */
  function Times(x: real, y: real): real {
    x * y
  }

  function Over(x: real, y: real): real
    requires y != 0.0
  {
    x / y
  }

  lemma {:induction false} TimesMonotone(x: real, y: real, k: real)
    requires x <= y
    ensures k >= 0.0 ==> Times(x, k) <= Times(y, k) && Times(k, x) <= Times(k, y)
    ensures k <= 0.0 ==> Times(x, k) >= Times(y, k) && Times(k, x) >= Times(k, y)
  {
    assert (y - x) * k >= 0.0 <==> y * k >= x * k;
  }

  lemma {:induction false} TimesStrict(x: real, y: real, k: real)
    requires x < y && k > 0.0
    ensures Times(x, k) < Times(y, k) && Times(k, x) < Times(k, y)
  {
    assert (y - x) * k > 0.0;
  }

  lemma {:induction false} OverMonotone(x: real, y: real, k: real)
    requires k > 0.0
    ensures x <= y ==> Over(x, k) <= Over(y, k)
    ensures x < y ==> Over(x, k) < Over(y, k)
  {
    assert y / k - x / k == (y - x) / k;
  }

  lemma {:induction false} SubsetCard<T>(a: set<T>, b: set<T>)
    requires a <= b
    ensures |a| <= |b|
  {
    assert b == a + (b - a);
  }

  /** x raised to a natural exponent. */
  function Pow(x: real, n: nat): real {
    if n == 0 then 1.0 else Times(Pow(x, n - 1), x)
  }

  lemma {:induction false} PowPositive(x: real, n: nat)
    requires x > 0.0
    ensures Pow(x, n) > 0.0
  {
    if n > 0 {
      PowPositive(x, n - 1);
    }
  }
}
