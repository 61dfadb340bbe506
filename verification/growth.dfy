/** Growth estimate by the equity-earnings method: the mean over the window of
    retention ratio times return on equity. */
module Growth {
  import opened RealMath

  /** One year's growth term as the source computes it. The cash-flow statement reports
      dividends paid as a negative number, so the column is negated first; the retention
      ratio is one minus (negated dividends over net income) and the return on equity is
      net income over book value of equity. */
  function GrowthTerm(dividendsPaid: real, netIncome: real, bookValueEquity: real): (t: real)
    requires netIncome != 0.0 && bookValueEquity != 0.0
    ensures t * bookValueEquity == netIncome + dividendsPaid
  {
    var paid := -1.0 * dividendsPaid;
    var retentionRatio := 1.0 - paid / netIncome;
    var returnOnEquity := netIncome / bookValueEquity;
    TermSimplifies(dividendsPaid, netIncome, bookValueEquity);
    returnOnEquity * retentionRatio
  }

  /** (1 - (-d)/n) * (n/b) is (n + d)/b. */
  lemma TermSimplifies(d: real, n: real, b: real)
    requires n != 0.0 && b != 0.0
    ensures (n / b) * (1.0 - (-1.0 * d) / n) * b == n + d
  {
    var q := n / b;
    assert q * b == n;
    assert (1.0 - (-1.0 * d) / n) * n == n + d;
    calc {
      q * (1.0 - (-1.0 * d) / n) * b;
      (q * b) * (1.0 - (-1.0 * d) / n);
      n * (1.0 - (-1.0 * d) / n);
      n + d;
    }
  }

  /** The three aligned columns: one entry per year of the window. */
  predicate Aligned(dividendsPaid: seq<real>, netIncome: seq<real>, bookValueEquity: seq<real>) {
    |dividendsPaid| == |netIncome| == |bookValueEquity| > 0
  }

  /** Neither ratio of the window divides by zero (the source never checks). */
  predicate Defined(netIncome: seq<real>, bookValueEquity: seq<real>) {
    |netIncome| == |bookValueEquity| &&
    forall i :: 0 <= i < |netIncome| ==> netIncome[i] != 0.0 && bookValueEquity[i] != 0.0
  }

  /** Yearly growth terms, in the window's order. */
  function GrowthTerms(dividendsPaid: seq<real>, netIncome: seq<real>, bookValueEquity: seq<real>): (ts: seq<real>)
    requires Aligned(dividendsPaid, netIncome, bookValueEquity) && Defined(netIncome, bookValueEquity)
    ensures |ts| == |netIncome|
    ensures forall i :: 0 <= i < |ts| ==> ts[i] * bookValueEquity[i] == netIncome[i] + dividendsPaid[i]
  {
    seq(|netIncome|, i requires 0 <= i < |netIncome| => GrowthTerm(dividendsPaid[i], netIncome[i], bookValueEquity[i]))
  }

  /** Reference definition: the yearly term is (net income + dividends paid) over book
      value of equity, i.e. the earnings kept over the equity base. */
  function RetainedOverEquity(dividendsPaid: seq<real>, netIncome: seq<real>, bookValueEquity: seq<real>): (ts: seq<real>)
    requires Aligned(dividendsPaid, netIncome, bookValueEquity) && Defined(netIncome, bookValueEquity)
    ensures |ts| == |netIncome|
  {
    seq(|netIncome|, i requires 0 <= i < |netIncome| => (netIncome[i] + dividendsPaid[i]) / bookValueEquity[i])
  }

  /** Retention ratio times ROE is, year by year, the reference term. */
  lemma {:induction false} GrowthTermsAreRetainedOverEquity(dividendsPaid: seq<real>, netIncome: seq<real>, bookValueEquity: seq<real>)
    requires Aligned(dividendsPaid, netIncome, bookValueEquity) && Defined(netIncome, bookValueEquity)
    ensures GrowthTerms(dividendsPaid, netIncome, bookValueEquity) == RetainedOverEquity(dividendsPaid, netIncome, bookValueEquity)
  {
    var ts := GrowthTerms(dividendsPaid, netIncome, bookValueEquity);
    var rs := RetainedOverEquity(dividendsPaid, netIncome, bookValueEquity);
    forall i | 0 <= i < |ts| ensures ts[i] == rs[i] {
      QuotientUnique(ts[i], netIncome[i] + dividendsPaid[i], bookValueEquity[i]);
    }
  }

  /** Average growth rate of net income: the arithmetic mean over the window of the
      yearly (net income + dividends paid) / book value of equity. */
  function AverageNetIncomeGrowth(dividendsPaid: seq<real>, netIncome: seq<real>, bookValueEquity: seq<real>): (g: real)
    requires Aligned(dividendsPaid, netIncome, bookValueEquity) && Defined(netIncome, bookValueEquity)
    ensures g == Mean(RetainedOverEquity(dividendsPaid, netIncome, bookValueEquity))
  {
    GrowthTermsAreRetainedOverEquity(dividendsPaid, netIncome, bookValueEquity);
    Mean(GrowthTerms(dividendsPaid, netIncome, bookValueEquity))
  }

  /** Return on equity for each year of the window. */
  function ReturnOnEquity(netIncome: seq<real>, bookValueEquity: seq<real>): (ts: seq<real>)
    requires Defined(netIncome, bookValueEquity)
    ensures |ts| == |netIncome|
  {
    seq(|netIncome|, i requires 0 <= i < |netIncome| => netIncome[i] / bookValueEquity[i])
  }

  /** With no dividends every year is fully retained and the estimate is mean ROE. */
  lemma NoDividendsGivesMeanReturnOnEquity(dividendsPaid: seq<real>, netIncome: seq<real>, bookValueEquity: seq<real>)
    requires Aligned(dividendsPaid, netIncome, bookValueEquity) && Defined(netIncome, bookValueEquity)
    requires forall i :: 0 <= i < |dividendsPaid| ==> dividendsPaid[i] == 0.0
    ensures AverageNetIncomeGrowth(dividendsPaid, netIncome, bookValueEquity)
         == Mean(ReturnOnEquity(netIncome, bookValueEquity))
  {
    var rs := RetainedOverEquity(dividendsPaid, netIncome, bookValueEquity);
    var roe := ReturnOnEquity(netIncome, bookValueEquity);
    assert forall i :: 0 <= i < |rs| ==> rs[i] == roe[i];
    assert rs == roe;
  }
}
