/** The free-cash-flow formula of the valuation engine: current and prior values of the
    statement lines give free cash flow, the change in working capital and capital
    expenditure. */
module FreeCashFlow {

  /** The triple the formula returns, in the source's order. */
  datatype FcfResult = FcfResult(fcf: real, changeWorkingCap: real, capEx: real)

  /** Free cash flow, change in working capital and capital expenditure from one pair of
      years. Capital expenditure is the change in PP&E plus the current year's D&A; the
      change in working capital ADDS the change in payables; free cash flow adds only the
      change in D&A back, so the prior year's D&A is what is finally subtracted. */
  function FreeCashFlows(
    netIncome: real, deprAmortCurrentYr: real, deprAmortPreviousYr: real,
    ppeCurrentYr: real, ppePreviousYr: real,
    inventoryCurrentYr: real, inventoryPreviousYr: real,
    netReceivablesCurrentYr: real, netPayablesCurrentYr: real,
    netReceivablesPreviousYr: real, netPayablesPreviousYr: real
  ): (r: FcfResult)
    ensures r.capEx - deprAmortCurrentYr == ppeCurrentYr - ppePreviousYr
    ensures r.changeWorkingCap - (netPayablesCurrentYr - netPayablesPreviousYr)
         == (netReceivablesCurrentYr - netReceivablesPreviousYr) + (inventoryCurrentYr - inventoryPreviousYr)
    ensures r.fcf == netIncome - deprAmortPreviousYr - (ppeCurrentYr - ppePreviousYr) - r.changeWorkingCap
  {
    var changeWorkingCap :=
      (netReceivablesCurrentYr - netReceivablesPreviousYr)
      + (netPayablesCurrentYr - netPayablesPreviousYr)
      + (inventoryCurrentYr - inventoryPreviousYr);
    var capEx := (ppeCurrentYr - ppePreviousYr) + deprAmortCurrentYr;
    var fcf := netIncome + (deprAmortCurrentYr - deprAmortPreviousYr) - capEx - changeWorkingCap;
    FcfResult(fcf, changeWorkingCap, capEx)
  }

  /** When every line is unchanged from the prior year, working capital does not move,
      capital expenditure is exactly the D&A, and free cash flow is net income LESS the
      D&A (not net income). */
  lemma FlatYear(netIncome: real, da: real, ppe: real, inventory: real, receivables: real, payables: real)
    ensures var r := FreeCashFlows(netIncome, da, da, ppe, ppe, inventory, inventory,
                                   receivables, payables, receivables, payables);
            r.changeWorkingCap == 0.0 && r.capEx == da && r.fcf == netIncome - da
  {
  }

  /** A rise in payables lowers free cash flow one for one, just like a rise in
      receivables or inventory: payables are counted as working capital tied up. */
  lemma PayablesAddToWorkingCapital(
    netIncome: real, daCur: real, daPrev: real, ppeCur: real, ppePrev: real,
    invCur: real, invPrev: real, recCur: real, payCur: real, recPrev: real, payPrev: real, delta: real)
    ensures var r := FreeCashFlows(netIncome, daCur, daPrev, ppeCur, ppePrev, invCur, invPrev, recCur, payCur, recPrev, payPrev);
            var s := FreeCashFlows(netIncome, daCur, daPrev, ppeCur, ppePrev, invCur, invPrev, recCur, payCur + delta, recPrev, payPrev);
            s.changeWorkingCap == r.changeWorkingCap + delta && s.fcf == r.fcf - delta
  {
  }
}
