/** Exact-rational stand-ins for the numeric helpers the valuation engine leans on:
    integer powers (`**`), and the sum and arithmetic mean of a column. */
module RealMath {

  /** A value that may be missing: `None` stands for a failed lookup. */
  datatype Option<T> = None | Some(value: T)

  /** `b ** n` for a natural exponent. */
  function Pow(b: real, n: nat): real
  {
    if n == 0 then 1.0 else b * Pow(b, n - 1)
  }

  /** A power keeps the sign of a non-negative base, and a non-zero base has non-zero
      powers. */
  lemma {:induction false} PowSign(b: real, n: nat)
    ensures b != 0.0 ==> Pow(b, n) != 0.0
    ensures b > 0.0 ==> Pow(b, n) > 0.0
    ensures b >= 0.0 ==> Pow(b, n) >= 0.0
  {
    if n > 0 {
      PowSign(b, n - 1);
      if b > 0.0 {
        assert b * Pow(b, n - 1) > 0.0;
      }
      if b >= 0.0 {
        MulLeMonotone(b, 0.0, Pow(b, n - 1));
      }
    }
  }

  /** Raising to one more power multiplies by the base once more. */
  lemma PowSucc(b: real, n: nat)
    ensures Pow(b, n + 1) == b * Pow(b, n)
  {
  }

  /** Powers of two non-negative bases keep the order of the bases. */
  lemma {:induction false} PowMonotoneBase(a: real, b: real, n: nat)
    requires 0.0 <= a <= b
    ensures Pow(a, n) <= Pow(b, n)
  {
    if n > 0 {
      PowMonotoneBase(a, b, n - 1);
      PowSign(a, n - 1);
      PowSign(b, n - 1);
      calc {
        Pow(a, n);
        a * Pow(a, n - 1);
      <= { MulLeMonotone(a, Pow(a, n - 1), Pow(b, n - 1)); }
        a * Pow(b, n - 1);
      <= { MulLeMonotone(Pow(b, n - 1), a, b); }
        b * Pow(b, n - 1);
        Pow(b, n);
      }
    }
  }

  /** Every power of one is one. */
  lemma {:induction false} PowOne(n: nat)
    ensures Pow(1.0, n) == 1.0
  {
    if n > 0 {
      PowOne(n - 1);
    }
  }

  lemma MulLeMonotone(k: real, x: real, y: real)
    requires 0.0 <= k && x <= y
    ensures k * x <= k * y && x * k <= y * k
  {
  }

  /** Division by a divisor the caller has ruled out to be zero. */
  function Div(x: real, y: real): (q: real)
    requires y != 0.0
    ensures q * y == x
  {
    x / y
  }

  /** A quotient is the only number that times the divisor gives the dividend. */
  lemma QuotientUnique(q: real, x: real, y: real)
    requires y != 0.0 && q * y == x
    ensures q == x / y
  {
  }

  /** Sum of a column. */
  function Sum(s: seq<real>): real
  {
    if |s| == 0 then 0.0 else s[0] + Sum(s[1..])
  }

  /** Arithmetic mean of a non-empty column (pandas `Series.mean` on a column with no NaN). */
  function Mean(s: seq<real>): (m: real)
    requires |s| > 0
  {
    Sum(s) / (|s| as real)
  }

  /** The mean of a single value is that value. */
  lemma MeanSingleton(x: real)
    ensures Mean([x]) == x
  {
    assert Sum([x]) == x + Sum([]);
  }
}
