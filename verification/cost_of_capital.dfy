/** Cost of equity by CAPM and the weighted average cost of capital. */
module CostOfCapital {
  import opened RealMath

  /** Daily index returns are annualised over this many trading days. */
  const TradingDaysPerYear: real := 252.0

  /** Annualised market return: mean daily index return times the trading days. */
  function MarketReturn(indexReturns: seq<real>): (m: real)
    requires |indexReturns| > 0
    ensures m * (|indexReturns| as real) == TradingDaysPerYear * Sum(indexReturns)
  {
    Mean(indexReturns) * TradingDaysPerYear
  }

  /** CAPM: the expected return carries beta times the market's premium over the
      risk-free rate. */
  function ExpectedReturn(riskFreeRate: real, beta: real, marketReturn: real): (e: real)
    ensures e - riskFreeRate == beta * (marketReturn - riskFreeRate)
  {
    riskFreeRate + beta * (marketReturn - riskFreeRate)
  }

  /** The source's return pair. */
  datatype CapmResult = CapmResult(expectedStockReturn: real, marketReturn: real)

  /** Expected stock return and market return from the index's daily returns and a beta
      (the beta comes from a regression that is not part of this model). */
  function Capm(indexReturns: seq<real>, beta: real, riskFreeRate: real): (r: CapmResult)
    requires |indexReturns| > 0
    ensures r.marketReturn * (|indexReturns| as real) == TradingDaysPerYear * Sum(indexReturns)
    ensures r.expectedStockReturn - riskFreeRate == beta * (r.marketReturn - riskFreeRate)
  {
    var market := MarketReturn(indexReturns);
    CapmResult(ExpectedReturn(riskFreeRate, beta, market), market)
  }

  /** A stock that moves with the market earns the market return; one with no market
      exposure earns the risk-free rate; with a positive premium, more beta means more
      expected return. */
  lemma CapmAnchors(riskFreeRate: real, marketReturn: real, beta1: real, beta2: real)
    ensures ExpectedReturn(riskFreeRate, 1.0, marketReturn) == marketReturn
    ensures ExpectedReturn(riskFreeRate, 0.0, marketReturn) == riskFreeRate
    ensures marketReturn > riskFreeRate && beta1 <= beta2 ==>
      ExpectedReturn(riskFreeRate, beta1, marketReturn) <= ExpectedReturn(riskFreeRate, beta2, marketReturn)
  {
    if marketReturn > riskFreeRate && beta1 <= beta2 {
      MulLeMonotone(marketReturn - riskFreeRate, beta1, beta2);
    }
  }

  /** Share of debt in the capital base. */
  function DebtWeight(totalEquity: real, totalDebt: real): real
    requires totalDebt + totalEquity != 0.0
  {
    totalDebt / (totalDebt + totalEquity)
  }

  /** Share of equity in the capital base. */
  function EquityWeight(totalEquity: real, totalDebt: real): real
    requires totalDebt + totalEquity != 0.0
  {
    totalEquity / (totalDebt + totalEquity)
  }

  /** The two weights add up to one. */
  lemma WeightsSumToOne(totalEquity: real, totalDebt: real)
    requires totalDebt + totalEquity != 0.0
    ensures DebtWeight(totalEquity, totalDebt) + EquityWeight(totalEquity, totalDebt) == 1.0
  {
  }

  /** Weighted average cost of capital: after-tax cost of debt and cost of equity weighted
      by their shares of debt plus equity (a sum the source never checks for zero). */
  function Wacc(totalEquity: real, totalDebt: real, effTaxRate: real, stockReturn: real, costOfDebt: real): (w: real)
    requires totalDebt + totalEquity != 0.0
    ensures w * (totalDebt + totalEquity) == costOfDebt * (1.0 - effTaxRate) * totalDebt + stockReturn * totalEquity
  {
    var capital := totalDebt + totalEquity;
    var afterTax := costOfDebt * (1.0 - effTaxRate);
    WaccTimesCapital(afterTax, stockReturn, totalDebt, totalEquity);
    afterTax * (totalDebt / capital) + stockReturn * (totalEquity / capital)
  }

  lemma WaccTimesCapital(a: real, b: real, d: real, e: real)
    requires d + e != 0.0
    ensures (a * (d / (d + e)) + b * (e / (d + e))) * (d + e) == a * d + b * e
  {
    var c := d + e;
    assert (d / c) * c == d && (e / c) * c == e;
    calc {
      (a * (d / c) + b * (e / c)) * c;
      a * ((d / c) * c) + b * ((e / c) * c);
      a * d + b * e;
    }
  }

  /** Without debt the WACC is the cost of equity. */
  lemma NoDebtGivesCostOfEquity(totalEquity: real, effTaxRate: real, stockReturn: real, costOfDebt: real)
    requires totalEquity != 0.0
    ensures Wacc(totalEquity, 0.0, effTaxRate, stockReturn, costOfDebt) == stockReturn
  {
    var w := Wacc(totalEquity, 0.0, effTaxRate, stockReturn, costOfDebt);
    assert w * totalEquity == stockReturn * totalEquity;
    CancelFactor(w, stockReturn, totalEquity);
  }

  lemma CancelFactor(x: real, y: real, k: real)
    requires k != 0.0 && x * k == y * k
    ensures x == y
  {
    assert (x - y) * k == 0.0;
  }

  /** With both debt and equity positive the WACC is a proper average: it lies between the
      after-tax cost of debt and the cost of equity, strictly when they differ. */
  lemma WaccBetween(totalEquity: real, totalDebt: real, effTaxRate: real, stockReturn: real, costOfDebt: real)
    requires totalEquity > 0.0 && totalDebt > 0.0
    ensures var w := Wacc(totalEquity, totalDebt, effTaxRate, stockReturn, costOfDebt);
            var a := costOfDebt * (1.0 - effTaxRate);
            (a <= stockReturn ==> a <= w <= stockReturn) &&
            (stockReturn <= a ==> stockReturn <= w <= a) &&
            (a < stockReturn ==> a < w < stockReturn) &&
            (stockReturn < a ==> stockReturn < w < a)
  {
    var w := Wacc(totalEquity, totalDebt, effTaxRate, stockReturn, costOfDebt);
    var a := costOfDebt * (1.0 - effTaxRate);
    var c := totalDebt + totalEquity;
    // w - a and b - w are the gap b - a scaled by the equity and the debt share.
    assert (w - a) * c == (stockReturn - a) * totalEquity;
    assert (stockReturn - w) * c == (stockReturn - a) * totalDebt;
    SignOfScaled(w - a, stockReturn - a, c, totalEquity);
    SignOfScaled(stockReturn - w, stockReturn - a, c, totalDebt);
  }

  /** If x * c == y * k with c, k positive, then x has the sign of y. */
  lemma SignOfScaled(x: real, y: real, c: real, k: real)
    requires c > 0.0 && k > 0.0 && x * c == y * k
    ensures (y >= 0.0 ==> x >= 0.0) && (y > 0.0 ==> x > 0.0)
    ensures (y <= 0.0 ==> x <= 0.0) && (y < 0.0 ==> x < 0.0)
  {
    if y > 0.0 { assert y * k > 0.0; }
    if y < 0.0 { assert y * k < 0.0; }
  }
}
