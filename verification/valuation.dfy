/** Terminal, enterprise and equity values per outlook: the forecast FCFs discounted at the
    WACC, a Gordon-growth terminal value on the last forecast FCF, and the equity value per
    share that follows. */
module Valuation {
  import opened RealMath
  import opened Forecast
  import RatioProfile

  /** The forecast FCFs are read from this year on (`loc[2022:]`). */
  const ValuationFirstYear: int := 2022

  /** The terminal-value column is found only when the table's last row is this year. */
  const TerminalYear: int := 2026

  /** The valuation reads the forecast years from the first valuation year to the terminal year. */
  const ForecastYearsValued: nat := 5

  /** The terminal value is discounted by this many years, whatever the forecast length. */
  const TerminalDiscountYears: nat := 5

  // ---------------------------------------------------------------- net present value

  /** Cash flows discounted from period `t` on: the i-th flow by (1 + rate)^(t + i). */
  function DiscountedFrom(rate: real, cashFlows: seq<real>, t: nat): real
    requires 1.0 + rate != 0.0
    decreases |cashFlows|
  {
    if |cashFlows| == 0 then 0.0
    else
      PowSign(1.0 + rate, t);
      cashFlows[0] / Pow(1.0 + rate, t) + DiscountedFrom(rate, cashFlows[1..], t + 1)
  }

  /** `numpy_financial.npv`: the first flow sits at t = 0 and is not discounted. */
  function Npv(rate: real, cashFlows: seq<real>): real
    requires 1.0 + rate != 0.0
  {
    DiscountedFrom(rate, cashFlows, 0)
  }

  /** Discounting one period later divides by one more factor of 1 + rate. */
  lemma {:induction false} DiscountedShift(rate: real, cashFlows: seq<real>, t: nat)
    requires 1.0 + rate != 0.0
    ensures DiscountedFrom(rate, cashFlows, t + 1) * (1.0 + rate) == DiscountedFrom(rate, cashFlows, t)
    decreases |cashFlows|
  {
    if |cashFlows| > 0 {
      var b := 1.0 + rate;
      var tail := cashFlows[1..];
      DiscountedShift(rate, tail, t + 1);
      PowSucc(b, t);
      PowSign(b, t);
      ShiftStep(cashFlows[0], b, Pow(b, t), Pow(b, t + 1),
        DiscountedFrom(rate, tail, t + 1 + 1), DiscountedFrom(rate, tail, t + 1),
        DiscountedFrom(rate, cashFlows, t + 1), DiscountedFrom(rate, cashFlows, t));
    }
  }

  /** One term more: if the tail shifts by one period, so does the whole. */
  lemma ShiftStep(c: real, b: real, p: real, q: real, tailLater: real, tail: real, later: real, now: real)
    requires b != 0.0 && p != 0.0 && q == b * p && tailLater * b == tail
    requires later == c / q + tailLater && now == c / p + tail
    ensures later * b == now
  {
    DivideByOneMore(c, b, p, q);
  }

  lemma DivideByOneMore(x: real, b: real, p: real, q: real)
    requires b != 0.0 && p != 0.0 && q == b * p
    ensures (x / q) * b == x / p
  {
  }

  /** The NPV recurrence: the first flow counts in full and the rest one period later. */
  lemma NpvRecurrence(rate: real, cashFlows: seq<real>)
    requires 1.0 + rate != 0.0 && |cashFlows| > 0
    ensures Npv(rate, cashFlows) == cashFlows[0] + Npv(rate, cashFlows[1..]) / (1.0 + rate)
  {
    var later := DiscountedFrom(rate, cashFlows[1..], 1);
    assert Npv(rate, cashFlows) == cashFlows[0] / Pow(1.0 + rate, 0) + later;
    DiscountedShift(rate, cashFlows[1..], 0);
    QuotientUnique(later, Npv(rate, cashFlows[1..]), 1.0 + rate);
  }

  /** At a zero rate the NPV is the plain sum of the flows. */
  lemma NpvZeroRate(cashFlows: seq<real>)
    ensures Npv(0.0, cashFlows) == Sum(cashFlows)
  {
    UndiscountedFrom(cashFlows, 0);
  }

  lemma {:induction false} UndiscountedFrom(cashFlows: seq<real>, t: nat)
    ensures DiscountedFrom(0.0, cashFlows, t) == Sum(cashFlows)
    decreases |cashFlows|
  {
    if |cashFlows| > 0 {
      UndiscountedFrom(cashFlows[1..], t + 1);
      PowOne(t);
    }
  }

  /** At a rate above -100%, flows that are no larger period by period have no larger NPV. */
  lemma NpvMonotone(rate: real, low: seq<real>, high: seq<real>)
    requires 1.0 + rate > 0.0 && |low| == |high|
    requires forall i :: 0 <= i < |low| ==> low[i] <= high[i]
    ensures Npv(rate, low) <= Npv(rate, high)
  {
    DiscountedMonotone(rate, low, high, 0);
  }

  lemma {:induction false} DiscountedMonotone(rate: real, low: seq<real>, high: seq<real>, t: nat)
    requires 1.0 + rate > 0.0 && |low| == |high|
    requires forall i :: 0 <= i < |low| ==> low[i] <= high[i]
    ensures DiscountedFrom(rate, low, t) <= DiscountedFrom(rate, high, t)
    decreases |low|
  {
    if |low| > 0 {
      DiscountedMonotone(rate, low[1..], high[1..], t + 1);
      PowSign(1.0 + rate, t);
      DivideMonotone(low[0], high[0], Pow(1.0 + rate, t));
    }
  }

  lemma DivideMonotone(x: real, y: real, p: real)
    requires x <= y && p > 0.0
    ensures x / p <= y / p
  {
  }

  // ---------------------------------------------------------------- terminal value

  /** Gordon growth: next year's FCF, grown at the perpetual rate, over WACC minus that rate.
      The source never checks the denominator, so it must not be zero. */
  function TerminalValue(lastFcf: real, wacc: real, perpetualGrowth: real): (tv: real)
    requires wacc != perpetualGrowth
    ensures tv * (wacc - perpetualGrowth) == lastFcf * (1.0 + perpetualGrowth)
  {
    lastFcf * (1.0 + perpetualGrowth) / (wacc - perpetualGrowth)
  }

  /** The terminal value is the value of a perpetuity growing at g: one period of discounting
      turns next year's FCF plus next year's terminal value (grown by g) back into it. */
  lemma TerminalValueIsPerpetuity(lastFcf: real, wacc: real, perpetualGrowth: real)
    requires wacc != perpetualGrowth
    ensures var tv := TerminalValue(lastFcf, wacc, perpetualGrowth);
      tv * (1.0 + wacc) == lastFcf * (1.0 + perpetualGrowth) + tv * (1.0 + perpetualGrowth)
  {
  }

  /** With WACC above the perpetual rate and a non-negative growth factor, a larger last
      FCF never gives a smaller terminal value. */
  lemma TerminalValueMonotone(low: real, high: real, wacc: real, perpetualGrowth: real)
    requires wacc > perpetualGrowth && 1.0 + perpetualGrowth >= 0.0 && low <= high
    ensures TerminalValue(low, wacc, perpetualGrowth) <= TerminalValue(high, wacc, perpetualGrowth)
  {
    MulLeMonotone(1.0 + perpetualGrowth, low, high);
    DivideMonotone(low * (1.0 + perpetualGrowth), high * (1.0 + perpetualGrowth), wacc - perpetualGrowth);
  }

  /** The terminal value brought back to today over the fixed number of years. */
  function DiscountTerminal(terminalValue: real, wacc: real): (pv: real)
    requires 1.0 + wacc != 0.0
    ensures pv * Pow(1.0 + wacc, TerminalDiscountYears) == terminalValue
  {
    PowSign(1.0 + wacc, TerminalDiscountYears);
    terminalValue / Pow(1.0 + wacc, TerminalDiscountYears)
  }

  // ---------------------------------------------------------------- one outlook

  /** One row of the valuation frame. */
  datatype OutlookValuation = OutlookValuation(
    npvFcff: real,
    terminalValue: real,
    terminalValueDiscounted: real,
    enterpriseValue: real,
    estimateStockPrice: real)

  /** Values one outlook from its forecast FCFs: their NPV at the WACC plus the discounted
      terminal value on the last one make the enterprise value; adding cash, taking off
      debt and dividing by the share count gives the price. */
  function ValueOutlook(fcfs: seq<real>, wacc: real, cash: real, totalDebt: real, numShares: real,
                        perpetualGrowth: real): (v: OutlookValuation)
    requires |fcfs| > 0 && 1.0 + wacc != 0.0 && wacc != perpetualGrowth && numShares != 0.0
    ensures v.npvFcff == Npv(wacc, fcfs)
    ensures v.terminalValue * (wacc - perpetualGrowth) == fcfs[|fcfs| - 1] * (1.0 + perpetualGrowth)
    ensures v.terminalValueDiscounted * Pow(1.0 + wacc, TerminalDiscountYears) == v.terminalValue
    ensures v.enterpriseValue - v.terminalValueDiscounted == Npv(wacc, fcfs)
    ensures v.estimateStockPrice * numShares == v.enterpriseValue + cash - totalDebt
  {
    var npv := Npv(wacc, fcfs);
    var tv := TerminalValue(fcfs[|fcfs| - 1], wacc, perpetualGrowth);
    var discounted := DiscountTerminal(tv, wacc);
    var enterprise := npv + discounted;
    OutlookValuation(npv, tv, discounted, enterprise, Div(enterprise + cash - totalDebt, numShares))
  }

  /** With a positive share count, a WACC above -100% and above the perpetual rate, and a
      non-negative growth factor, FCFs that are no larger year by year give no larger
      enterprise value and price. */
  lemma ValueOutlookMonotone(low: seq<real>, high: seq<real>, wacc: real, cash: real,
                                                totalDebt: real, numShares: real, perpetualGrowth: real)
    requires |low| == |high| > 0
    requires forall i :: 0 <= i < |low| ==> low[i] <= high[i]
    requires 1.0 + wacc > 0.0 && wacc > perpetualGrowth && 1.0 + perpetualGrowth >= 0.0 && numShares > 0.0
    ensures var vl := ValueOutlook(low, wacc, cash, totalDebt, numShares, perpetualGrowth);
      var vh := ValueOutlook(high, wacc, cash, totalDebt, numShares, perpetualGrowth);
      vl.enterpriseValue <= vh.enterpriseValue && vl.estimateStockPrice <= vh.estimateStockPrice
  {
    var vl := ValueOutlook(low, wacc, cash, totalDebt, numShares, perpetualGrowth);
    var vh := ValueOutlook(high, wacc, cash, totalDebt, numShares, perpetualGrowth);
    NpvMonotone(wacc, low, high);
    TerminalValueMonotone(low[|low| - 1], high[|high| - 1], wacc, perpetualGrowth);
    PowSign(1.0 + wacc, TerminalDiscountYears);
    DivideMonotone(vl.terminalValue, vh.terminalValue, Pow(1.0 + wacc, TerminalDiscountYears));
    assert vl.enterpriseValue <= vh.enterpriseValue;
    DivideMonotone(vl.enterpriseValue + cash - totalDebt, vh.enterpriseValue + cash - totalDebt, numShares);
  }

  /** With a positive share count, more cash raises the price and more debt lowers it,
      one for one per share. */
  lemma PriceFollowsNetCash(fcfs: seq<real>, wacc: real, cash: real, totalDebt: real, numShares: real,
                            perpetualGrowth: real, extra: real)
    requires |fcfs| > 0 && 1.0 + wacc != 0.0 && wacc != perpetualGrowth && numShares > 0.0
    ensures ValueOutlook(fcfs, wacc, cash + extra, totalDebt, numShares, perpetualGrowth).estimateStockPrice
         == ValueOutlook(fcfs, wacc, cash, totalDebt, numShares, perpetualGrowth).estimateStockPrice + extra / numShares
    ensures ValueOutlook(fcfs, wacc, cash, totalDebt + extra, numShares, perpetualGrowth).estimateStockPrice
         == ValueOutlook(fcfs, wacc, cash, totalDebt, numShares, perpetualGrowth).estimateStockPrice - extra / numShares
  {
  }

  // ---------------------------------------------------------------- the three outlooks

  /** The three rows of the valuation frame. */
  datatype Valuations = Valuations(neutral: OutlookValuation, positive: OutlookValuation, negative: OutlookValuation)

  function ValuationOf(vs: Valuations, o: Outlook): OutlookValuation {
    match o
    case Neutral => vs.neutral
    case Positive => vs.positive
    case Negative => vs.negative
  }

  predicate HasFcfs(row: Row) {
    FcfForecast in row && FcfForecastPos in row && FcfForecastNeg in row
  }

  /** Every year from the first valuation year to `lastYear` is a row with its three FCFs. */
  predicate FcfRowsPresent(t: Table, lastYear: int) {
    forall y :: ValuationFirstYear <= y <= lastYear ==> y in t && HasFcfs(t[y])
  }

  /** One track's FCF column from the first valuation year to `lastYear`, in year order. */
  function FcfColumn(t: Table, o: Outlook, lastYear: int): (c: seq<real>)
    requires FcfRowsPresent(t, lastYear)
    ensures |c| == if lastYear < ValuationFirstYear then 0 else lastYear - ValuationFirstYear + 1
    ensures forall j :: 0 <= j < |c| ==> c[j] == t[ValuationFirstYear + j][FcfOf(o)]
  {
    var n := if lastYear < ValuationFirstYear then 0 else lastYear - ValuationFirstYear + 1;
    seq(n, j requires 0 <= j < n => t[ValuationFirstYear + j][FcfOf(o)])
  }

  /** The last entry of a non-empty column is the last year's cell. */
  lemma ColumnLast(t: Table, o: Outlook, lastYear: int)
    requires FcfRowsPresent(t, lastYear) && lastYear >= ValuationFirstYear
    ensures |FcfColumn(t, o, lastYear)| > 0
    ensures FcfColumn(t, o, lastYear)[|FcfColumn(t, o, lastYear)| - 1] == t[lastYear][FcfOf(o)]
  {
  }

  /** Values one outlook's column of the forecast table; its terminal value rests on the
      last year's cell. */
  function ValueTrack(t: Table, o: Outlook, lastYear: int, wacc: real, cash: real, totalDebt: real,
                      numShares: real, perpetualGrowth: real): (v: OutlookValuation)
    requires FcfRowsPresent(t, lastYear) && lastYear >= ValuationFirstYear
    requires 1.0 + wacc != 0.0 && wacc != perpetualGrowth && numShares != 0.0
    ensures v.terminalValue * (wacc - perpetualGrowth) == t[lastYear][FcfOf(o)] * (1.0 + perpetualGrowth)
    ensures v.npvFcff == Npv(wacc, FcfColumn(t, o, lastYear))
    ensures v.terminalValueDiscounted * Pow(1.0 + wacc, TerminalDiscountYears) == v.terminalValue
    ensures v.enterpriseValue - v.terminalValueDiscounted == v.npvFcff
    ensures v.estimateStockPrice * numShares == v.enterpriseValue + cash - totalDebt
  {
    ColumnLast(t, o, lastYear);
    ValueOutlook(FcfColumn(t, o, lastYear), wacc, cash, totalDebt, numShares, perpetualGrowth)
  }

  /** Values all three outlooks from the forecast table whose last (latest) row is
      `lastYear`. `None` stands for the `KeyError` raised when that row is not the terminal
      year, whose label names the terminal-value column. */
  function EquityValuations(t: Table, lastYear: int, wacc: real, cash: real, totalDebt: real,
                            numShares: real, perpetualGrowth: real): (r: Option<Valuations>)
    requires lastYear in t && forall y :: y in t ==> y <= lastYear
    requires lastYear == TerminalYear ==> FcfRowsPresent(t, lastYear)
    requires 1.0 + wacc != 0.0 && wacc != perpetualGrowth && numShares != 0.0
    ensures r.Some? <==> lastYear == TerminalYear
    ensures r.Some? ==> forall o ::
      ValuationOf(r.value, o) == ValueTrack(t, o, lastYear, wacc, cash, totalDebt, numShares, perpetualGrowth)
  {
    if lastYear != TerminalYear then None
    else
      Some(Valuations(
        ValueTrack(t, Neutral, lastYear, wacc, cash, totalDebt, numShares, perpetualGrowth),
        ValueTrack(t, Positive, lastYear, wacc, cash, totalDebt, numShares, perpetualGrowth),
        ValueTrack(t, Negative, lastYear, wacc, cash, totalDebt, numShares, perpetualGrowth)))
  }

  // ---------------------------------------------------------------- from the forecast

  /** A track's closed-form FCFs for forecast years 1 to k. */
  function TrackFcfs(rule: FcfRule, seed: real, growthRate: real, o: Outlook, k: nat): (c: seq<real>)
    ensures |c| == k
    ensures forall j :: 0 <= j < k ==> c[j] == TrackFcf(rule, seed, growthRate, o, j + 1)
  {
    seq(k, j requires 0 <= j < k => TrackFcf(rule, seed, growthRate, o, j + 1))
  }

  /** Valuing the table a five-year forecast from the first valuation year leaves behind
      (the historical rows all earlier) values each outlook on its closed-form FCFs. */
  lemma ValuationOfForecast(t: Table, growthRate: real, rule: FcfRule, wacc: real, cash: real,
                            totalDebt: real, numShares: real, perpetualGrowth: real)
    requires ValuationFirstYear - 1 in t && Revenue in t[ValuationFirstYear - 1]
    requires forall y :: y in t ==> y < ValuationFirstYear
    requires 1.0 + wacc != 0.0 && wacc != perpetualGrowth && numShares != 0.0
    ensures var f := ForecastTable(t, ValuationFirstYear, growthRate, rule, ForecastYearsValued);
      var seed := t[ValuationFirstYear - 1][Revenue];
      TerminalYear in f && (forall y :: y in f ==> y <= TerminalYear) && FcfRowsPresent(f, TerminalYear) &&
      EquityValuations(f, TerminalYear, wacc, cash, totalDebt, numShares, perpetualGrowth)
        == Some(Valuations(
          ValueOutlook(TrackFcfs(rule, seed, growthRate, Neutral, ForecastYearsValued), wacc, cash, totalDebt, numShares, perpetualGrowth),
          ValueOutlook(TrackFcfs(rule, seed, growthRate, Positive, ForecastYearsValued), wacc, cash, totalDebt, numShares, perpetualGrowth),
          ValueOutlook(TrackFcfs(rule, seed, growthRate, Negative, ForecastYearsValued), wacc, cash, totalDebt, numShares, perpetualGrowth)))
  {
    ForecastRows(t, ValuationFirstYear, ForecastYearsValued, TerminalYear, growthRate, rule);
    var f := ForecastTable(t, ValuationFirstYear, growthRate, rule, ForecastYearsValued);
    var seed := t[ValuationFirstYear - 1][Revenue];
    ForecastColumns(t, ValuationFirstYear, ForecastYearsValued, TerminalYear, growthRate, rule, f);
    ValuationOfColumns(f, wacc, cash, totalDebt, numShares, perpetualGrowth,
      TrackFcfs(rule, seed, growthRate, Neutral, ForecastYearsValued), TrackFcfs(rule, seed, growthRate, Positive, ForecastYearsValued),
      TrackFcfs(rule, seed, growthRate, Negative, ForecastYearsValued));
  }

  /** The three FCF columns of a k-year forecast from the first valuation year are the
      tracks' closed-form FCFs. */
  lemma ForecastColumns(t: Table, firstYear: int, k: nat, lastYear: int, growthRate: real, rule: FcfRule, f: Table)
    requires firstYear - 1 in t && Revenue in t[firstYear - 1]
    requires firstYear == ValuationFirstYear && k > 0 && lastYear == firstYear + k - 1
    requires f == ForecastTable(t, firstYear, growthRate, rule, k) && FcfRowsPresent(f, lastYear)
    ensures forall o :: FcfColumn(f, o, lastYear) == TrackFcfs(rule, t[firstYear - 1][Revenue], growthRate, o, k)
  {
    forall o ensures FcfColumn(f, o, lastYear) == TrackFcfs(rule, t[firstYear - 1][Revenue], growthRate, o, k) {
      ForecastColumnUpTo(t, firstYear, k, growthRate, rule, o, f, lastYear, k);
    }
  }

  /** The column up to forecast year y, the n-th, is the track's first n closed-form FCFs. */
  lemma {:induction false} ForecastColumnUpTo(t: Table, firstYear: int, k: nat, growthRate: real, rule: FcfRule,
                                              o: Outlook, f: Table, y: int, n: nat)
    requires firstYear - 1 in t && Revenue in t[firstYear - 1]
    requires firstYear == ValuationFirstYear && n <= k && y == firstYear + n - 1
    requires f == ForecastTable(t, firstYear, growthRate, rule, k) && FcfRowsPresent(f, y)
    ensures FcfColumn(f, o, y) == TrackFcfs(rule, t[firstYear - 1][Revenue], growthRate, o, n)
    decreases n
  {
    if n > 0 {
      ColumnSnoc(f, o, y);
      ForecastColumnUpTo(t, firstYear, k, growthRate, rule, o, f, y - 1, n - 1);
      ForecastTableFcf(t, firstYear, growthRate, rule, k, y, n, o, f);
      TrackFcfsSnoc(rule, t[firstYear - 1][Revenue], growthRate, o, n);
    }
  }

  /** A column one year longer ends in that year's cell. */
  lemma ColumnSnoc(t: Table, o: Outlook, lastYear: int)
    requires lastYear >= ValuationFirstYear && FcfRowsPresent(t, lastYear)
    ensures FcfRowsPresent(t, lastYear - 1)
    ensures FcfColumn(t, o, lastYear) == FcfColumn(t, o, lastYear - 1) + [t[lastYear][FcfOf(o)]]
  {
    assert FcfRowsPresent(t, lastYear - 1);
    var c := FcfColumn(t, o, lastYear);
    var d := FcfColumn(t, o, lastYear - 1) + [t[lastYear][FcfOf(o)]];
    forall j | 0 <= j < |c| ensures c[j] == d[j] { }
  }

  /** One more forecast year appends its FCF. */
  lemma TrackFcfsSnoc(rule: FcfRule, seed: real, growthRate: real, o: Outlook, k: nat)
    requires k >= 1
    ensures TrackFcfs(rule, seed, growthRate, o, k) == TrackFcfs(rule, seed, growthRate, o, k - 1) + [TrackFcf(rule, seed, growthRate, o, k)]
  {
    var c := TrackFcfs(rule, seed, growthRate, o, k);
    var d := TrackFcfs(rule, seed, growthRate, o, k - 1) + [TrackFcf(rule, seed, growthRate, o, k)];
    forall j | 0 <= j < k ensures c[j] == d[j] { }
  }

  /** A table ending at the terminal year is valued on its three FCF columns. */
  lemma ValuationOfColumns(f: Table, wacc: real, cash: real, totalDebt: real, numShares: real, perpetualGrowth: real,
                           neutral: seq<real>, positive: seq<real>, negative: seq<real>)
    requires TerminalYear in f && (forall y :: y in f ==> y <= TerminalYear) && FcfRowsPresent(f, TerminalYear)
    requires 1.0 + wacc != 0.0 && wacc != perpetualGrowth && numShares != 0.0
    requires FcfColumn(f, Neutral, TerminalYear) == neutral
    requires FcfColumn(f, Positive, TerminalYear) == positive
    requires FcfColumn(f, Negative, TerminalYear) == negative
    ensures EquityValuations(f, TerminalYear, wacc, cash, totalDebt, numShares, perpetualGrowth)
         == Some(Valuations(
              ValueOutlook(neutral, wacc, cash, totalDebt, numShares, perpetualGrowth),
              ValueOutlook(positive, wacc, cash, totalDebt, numShares, perpetualGrowth),
              ValueOutlook(negative, wacc, cash, totalDebt, numShares, perpetualGrowth)))
  {
  }

  /** A forecast of k years from the first valuation year ends at its last year and holds
      every FCF the valuation reads. */
  lemma ForecastRows(t: Table, firstYear: int, k: nat, lastYear: int, growthRate: real, rule: FcfRule)
    requires firstYear - 1 in t && Revenue in t[firstYear - 1]
    requires forall y :: y in t ==> y < firstYear
    requires firstYear == ValuationFirstYear && k > 0 && lastYear == firstYear + k - 1
    ensures var f := ForecastTable(t, firstYear, growthRate, rule, k);
      lastYear in f && (forall y :: y in f ==> y <= lastYear) && FcfRowsPresent(f, lastYear)
  {
    var f := ForecastTable(t, firstYear, growthRate, rule, k);
    forall y | firstYear <= y <= lastYear ensures y in f && HasFcfs(f[y]) {
      ForecastTableFcfCells(t, firstYear, growthRate, rule, k, y);
    }
  }

  // ---------------------------------------------------------------- ordering of the outlooks

  /** With a covered profile, positive base revenue and a non-negative pessimistic growth
      factor, the negative outlook is valued no higher than the neutral one and the neutral
      no higher than the positive one, in enterprise value and in price. */
  lemma {:induction false} PricesOrdered(ratios: RatioProfile.Ratios, seed: real, growthRate: real, k: nat, wacc: real,
                                         cash: real, totalDebt: real, numShares: real, perpetualGrowth: real)
    requires CoveredProfile(ratios) && seed > 0.0 && 1.0 + growthRate - 0.05 >= 0.0 && k > 0
    requires 1.0 + wacc > 0.0 && wacc > perpetualGrowth && 1.0 + perpetualGrowth >= 0.0 && numShares > 0.0
    ensures var neg := ValueOutlook(TrackFcfs(RatiosRule(ratios), seed, growthRate, Negative, k), wacc, cash, totalDebt, numShares, perpetualGrowth);
      var neu := ValueOutlook(TrackFcfs(RatiosRule(ratios), seed, growthRate, Neutral, k), wacc, cash, totalDebt, numShares, perpetualGrowth);
      var pos := ValueOutlook(TrackFcfs(RatiosRule(ratios), seed, growthRate, Positive, k), wacc, cash, totalDebt, numShares, perpetualGrowth);
      neg.enterpriseValue <= neu.enterpriseValue <= pos.enterpriseValue &&
      neg.estimateStockPrice <= neu.estimateStockPrice <= pos.estimateStockPrice
  {
    var neg := TrackFcfs(RatiosRule(ratios), seed, growthRate, Negative, k);
    var neu := TrackFcfs(RatiosRule(ratios), seed, growthRate, Neutral, k);
    var pos := TrackFcfs(RatiosRule(ratios), seed, growthRate, Positive, k);
    forall j | 0 <= j < k
      ensures neg[j] <= neu[j] && neu[j] <= pos[j]
    {
      TrackFcfsOrdered(ratios, seed, growthRate, j + 1);
    }
    ValueOutlookMonotone(neg, neu, wacc, cash, totalDebt, numShares, perpetualGrowth);
    ValueOutlookMonotone(neu, pos, wacc, cash, totalDebt, numShares, perpetualGrowth);
  }

  /** The same for the valuation of the five-year forecast's table. */
  lemma ForecastPricesOrdered(t: Table, growthRate: real, ratios: RatioProfile.Ratios, wacc: real, cash: real,
                              totalDebt: real, numShares: real, perpetualGrowth: real)
    requires ValuationFirstYear - 1 in t && Revenue in t[ValuationFirstYear - 1]
    requires forall y :: y in t ==> y < ValuationFirstYear
    requires CoveredProfile(ratios) && t[ValuationFirstYear - 1][Revenue] > 0.0 && 1.0 + growthRate - 0.05 >= 0.0
    requires 1.0 + wacc > 0.0 && wacc > perpetualGrowth && 1.0 + perpetualGrowth >= 0.0 && numShares > 0.0
    ensures var f := ForecastTable(t, ValuationFirstYear, growthRate, RatiosRule(ratios), ForecastYearsValued);
      TerminalYear in f && (forall y :: y in f ==> y <= TerminalYear) && FcfRowsPresent(f, TerminalYear)
    ensures var f := ForecastTable(t, ValuationFirstYear, growthRate, RatiosRule(ratios), ForecastYearsValued);
      var r := EquityValuations(f, TerminalYear, wacc, cash, totalDebt, numShares, perpetualGrowth);
      r.Some? &&
      r.value.negative.estimateStockPrice <= r.value.neutral.estimateStockPrice <= r.value.positive.estimateStockPrice
  {
    ValuationOfForecast(t, growthRate, RatiosRule(ratios), wacc, cash, totalDebt, numShares, perpetualGrowth);
    PricesOrdered(ratios, t[ValuationFirstYear - 1][Revenue], growthRate, ForecastYearsValued, wacc, cash, totalDebt,
                  numShares, perpetualGrowth);
  }

  /** Without a covered profile the prices need not be ordered: for the thin-margin profile,
      base revenue 1 and growth 5%, the positive outlook of a forecast of up to five years is
      valued no higher than the neutral one at any admissible WACC. */
  lemma {:induction false} PositivePriceNotAbove(k: nat, wacc: real, cash: real, totalDebt: real, numShares: real,
                                                 perpetualGrowth: real)
    requires 1 <= k <= 5
    requires 1.0 + wacc > 0.0 && wacc > perpetualGrowth && 1.0 + perpetualGrowth >= 0.0 && numShares > 0.0
    ensures var neu := ValueOutlook(TrackFcfs(RatiosRule(ThinMarginProfile), 1.0, 0.05, Neutral, k), wacc, cash, totalDebt, numShares, perpetualGrowth);
      var pos := ValueOutlook(TrackFcfs(RatiosRule(ThinMarginProfile), 1.0, 0.05, Positive, k), wacc, cash, totalDebt, numShares, perpetualGrowth);
      pos.enterpriseValue <= neu.enterpriseValue && pos.estimateStockPrice <= neu.estimateStockPrice
  {
    var neu := TrackFcfs(RatiosRule(ThinMarginProfile), 1.0, 0.05, Neutral, k);
    var pos := TrackFcfs(RatiosRule(ThinMarginProfile), 1.0, 0.05, Positive, k);
    forall j | 0 <= j < k
      ensures pos[j] <= neu[j]
    {
      PositiveTrailsNeutral(j + 1);
    }
    ValueOutlookMonotone(pos, neu, wacc, cash, totalDebt, numShares, perpetualGrowth);
  }
}
