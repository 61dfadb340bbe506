/** The forecast engine: revenue grows year by year on three tracks (neutral, positive
    and negative outlook) from the base-year revenue, and each year's free cash flow is
    the free-cash-flow formula applied to ratio times revenue for that year and the year
    before. The forecast is written row by row into the free-cash-flow table in place. */
module Forecast {
  import opened RealMath
  import opened FreeCashFlow
  import opened RatioProfile

  /** The three outlooks and their offsets to the growth rate. */
  datatype Outlook = Neutral | Positive | Negative

  function Offset(o: Outlook): real {
    match o
    case Neutral => 0.0
    case Positive => 0.05
    case Negative => -0.05
  }

  /** Column labels of the free-cash-flow table. `Other` stands for every historical
      column the forecast neither reads nor writes. */
  datatype Column =
    | Revenue
    | RevenuePosOutlook
    | RevenueNegOutlook
    | FcfForecast
    | FcfForecastPos
    | FcfForecastNeg
    | ChangeWorkingCapForecast
    | CapExForecast
    | Other(name: string)

  function RevenueOf(o: Outlook): Column {
    match o
    case Neutral => Revenue
    case Positive => RevenuePosOutlook
    case Negative => RevenueNegOutlook
  }

  function FcfOf(o: Outlook): Column {
    match o
    case Neutral => FcfForecast
    case Positive => FcfForecastPos
    case Negative => FcfForecastNeg
  }

  /** The intermediate columns written next to each FCF and dropped right after. */
  const ScratchColumns: set<Column> := {ChangeWorkingCapForecast, CapExForecast}

  /** A row maps the labels of its non-empty cells to their values; a missing label is an
      empty (NaN) cell. A table maps each year label to its row. */
  type Row = map<Column, real>
  type Table = map<int, Row>

  function RowOr(t: Table, year: int): Row {
    if year in t then t[year] else map[]
  }

  /** The three revenue cells a forecast step reads from the prior row. */
  predicate HasRevenues(r: Row) {
    Revenue in r && RevenuePosOutlook in r && RevenueNegOutlook in r
  }

  /** A row without the scratch columns. */
  function Scrub(r: Row): (s: Row)
    ensures forall c :: c in s <==> c in r && c !in ScratchColumns
    ensures forall c :: c in s ==> s[c] == r[c]
  {
    r - ScratchColumns
  }

  /** The table after `drop(scratch columns, axis = 1)`. */
  function ScrubTable(t: Table): (s: Table)
    ensures s.Keys == t.Keys
    ensures forall y :: y in s ==> s[y] == Scrub(t[y])
  {
    map y | y in t :: Scrub(t[y])
  }

  /** Dropping the scratch columns after writing a row is writing the scrubbed row. */
  lemma ScrubTableUpdate(t: Table, year: int, row: Row)
    ensures ScrubTable(t[year := row]) == ScrubTable(t)[year := Scrub(row)]
  {
  }

  /** Writing a kept cell and both scratch cells, then scrubbing, keeps just the one cell. */
  lemma ScrubWritten(row: Row, c: Column, v: real, a: real, b: real)
    requires c !in ScratchColumns
    ensures Scrub(row[c := v][ChangeWorkingCapForecast := a][CapExForecast := b]) == Scrub(row)[c := v]
  {
  }

  /** Scrubbing is idempotent and commutes with writing a kept cell. */
  lemma ScrubKept(row: Row, c: Column, v: real)
    requires c !in ScratchColumns
    ensures Scrub(Scrub(row)) == Scrub(row)
    ensures Scrub(Scrub(row)[c := v]) == Scrub(row)[c := v]
  {
  }

  /** Dropping the scratch columns again after writing a row of an already scrubbed table. */
  lemma RescrubUpdate(t: Table, year: int, row: Row)
    ensures ScrubTable(ScrubTable(t)[year := row]) == ScrubTable(t)[year := Scrub(row)]
  {
    ScrubTableUpdate(ScrubTable(t), year, row);
    forall y | y in t ensures Scrub(Scrub(t[y])) == Scrub(t[y]) {
      ScrubKept(t[y], Revenue, 0.0);
    }
  }

  /** How a track's FCF follows from its revenue this year and the year before. */
  type FcfRule = (real, real) -> real

  /** The table after one track's FCF is written for `year` and the scratch columns are
      dropped: the FCF comes from the track's revenue in `year` and in the year before. */
  function Written(t: Table, year: int, o: Outlook, rule: FcfRule): Table
    requires year - 1 in t && year in t
    requires RevenueOf(o) in t[year - 1] && RevenueOf(o) in t[year]
  {
    ScrubTable(t)[year := Scrub(t[year])[FcfOf(o) := rule(t[year][RevenueOf(o)], t[year - 1][RevenueOf(o)])]]
  }

  /** Writing a track onto a table whose row `year` was just replaced by `row`. */
  lemma WriteOnto(t: Table, year: int, row: Row, o: Outlook, rule: FcfRule)
    requires year - 1 in t && RevenueOf(o) in t[year - 1] && RevenueOf(o) in row
    ensures Written(t[year := row], year, o, rule)
         == ScrubTable(t)[year := Scrub(row)[FcfOf(o) := rule(row[RevenueOf(o)], t[year - 1][RevenueOf(o)])]]
  {
    ScrubTableUpdate(t, year, row);
  }

  /** The same onto an already scrubbed table: its other rows are scrubbed only once. */
  lemma WriteOntoScrubbed(t: Table, year: int, row: Row, o: Outlook, rule: FcfRule)
    requires year - 1 in t && RevenueOf(o) in t[year - 1] && RevenueOf(o) in row
    ensures year - 1 in ScrubTable(t)[year := row] && RevenueOf(o) in ScrubTable(t)[year := row][year - 1]
    ensures Written(ScrubTable(t)[year := row], year, o, rule)
         == ScrubTable(t)[year := Scrub(row)[FcfOf(o) := rule(row[RevenueOf(o)], t[year - 1][RevenueOf(o)])]]
  {
    RescrubUpdate(t, year, row);
  }

  /** The table after `year`'s three revenue cells are grown from the year before. */
  function Grown(t: Table, year: int, growthRate: real): Table
    requires year - 1 in t && HasRevenues(t[year - 1])
  {
    t[year := RowOr(t, year)
      [Revenue := Grow(t[year - 1][Revenue], TrackGrowth(growthRate, Neutral))]
      [RevenuePosOutlook := Grow(t[year - 1][RevenuePosOutlook], TrackGrowth(growthRate, Positive))]
      [RevenueNegOutlook := Grow(t[year - 1][RevenueNegOutlook], TrackGrowth(growthRate, Negative))]]
  }

  /** Both rows a forecast step reads hold all three revenue cells. */
  predicate StepReady(t: Table, year: int) {
    year - 1 in t && year in t && HasRevenues(t[year - 1]) && HasRevenues(t[year])
  }

  /** The grown row's three revenue cells. */
  lemma GrownRevenues(t: Table, year: int, growthRate: real)
    requires year - 1 in t && HasRevenues(t[year - 1])
    ensures var r := Grown(t, year, growthRate)[year];
      var prev := t[year - 1];
      r[Revenue] == Grow(prev[Revenue], TrackGrowth(growthRate, Neutral)) &&
      r[RevenuePosOutlook] == Grow(prev[RevenuePosOutlook], TrackGrowth(growthRate, Positive)) &&
      r[RevenueNegOutlook] == Grow(prev[RevenueNegOutlook], TrackGrowth(growthRate, Negative))
  {
  }

  lemma GrownReady(t: Table, year: int, growthRate: real)
    requires year - 1 in t && HasRevenues(t[year - 1])
    ensures StepReady(Grown(t, year, growthRate), year)
  {
  }

  lemma WrittenReady(t: Table, year: int, o: Outlook, rule: FcfRule)
    requires StepReady(t, year)
    ensures StepReady(Written(t, year, o, rule), year)
  {
  }

  // ---------------------------------------------------------------- specification

  /** Growth rate of a track: the estimate plus the outlook's offset. */
  function TrackGrowth(growthRate: real, o: Outlook): real {
    growthRate + Offset(o)
  }

  /** One year of growth. */
  function Grow(revenue: real, rate: real): real {
    revenue * (1.0 + rate)
  }

  /** Revenue of a track n years after the base year, in closed form. */
  function TrackRevenue(seed: real, growthRate: real, o: Outlook, n: nat): real {
    seed * Pow(1.0 + TrackGrowth(growthRate, o), n)
  }

  /** The FCF formula fed with ratio times revenue for the current and the prior year. */
  function FcfFromRatios(ratios: Ratios, current: real, previous: real): FcfResult {
    FreeCashFlows(
      ratios.netIncome * current,
      ratios.depreciationAndAmortization * current,
      ratios.depreciationAndAmortization * previous,
      ratios.propertyPlantEquipmentNet * current,
      ratios.propertyPlantEquipmentNet * previous,
      ratios.inventory * current,
      ratios.inventory * previous,
      ratios.netReceivables * current,
      ratios.accountPayables * current,
      ratios.netReceivables * previous,
      ratios.accountPayables * previous)
  }

  /** The FCF rule of a ratio profile. */
  function RatiosRule(ratios: Ratios): FcfRule {
    (current: real, previous: real) => FcfFromRatios(ratios, current, previous).fcf
  }

  /** Forecast FCF in closed form: the net-income share of this year's revenue, less the
      D&A share of last year's, less the balance-sheet shares of the revenue change. */
  lemma FcfClosedForm(ratios: Ratios, current: real, previous: real)
    ensures FcfFromRatios(ratios, current, previous).fcf
         == ratios.netIncome * current
            - ratios.depreciationAndAmortization * previous
            - (ratios.propertyPlantEquipmentNet + ratios.netReceivables + ratios.accountPayables + ratios.inventory)
              * (current - previous)
  {
    var r := ratios;
    var d := current - previous;
    assert r.propertyPlantEquipmentNet * current - r.propertyPlantEquipmentNet * previous == r.propertyPlantEquipmentNet * d;
    assert r.netReceivables * current - r.netReceivables * previous == r.netReceivables * d;
    assert r.accountPayables * current - r.accountPayables * previous == r.accountPayables * d;
    assert r.inventory * current - r.inventory * previous == r.inventory * d;
  }

  /** FCF of a track in forecast year n (n >= 1). */
  function TrackFcf(rule: FcfRule, seed: real, growthRate: real, o: Outlook, n: nat): real
    requires n >= 1
  {
    rule(TrackRevenue(seed, growthRate, o, n), TrackRevenue(seed, growthRate, o, n - 1))
  }

  /** A row with one track's revenue and FCF cells set from its current and prior
      revenue. */
  function WithTrack(row: Row, rule: FcfRule, o: Outlook, current: real, previous: real): Row {
    row[RevenueOf(o) := current][FcfOf(o) := rule(current, previous)]
  }

  /** Forecast row for year n: the row's other cells, with both cells of every track set
      from the closed-form revenues of years n and n - 1. */
  function ForecastRow(row: Row, rule: FcfRule, seed: real, growthRate: real, n: nat): Row
    requires n >= 1
  {
    WithTrack(WithTrack(WithTrack(row,
      rule, Neutral, TrackRevenue(seed, growthRate, Neutral, n), TrackRevenue(seed, growthRate, Neutral, n - 1)),
      rule, Positive, TrackRevenue(seed, growthRate, Positive, n), TrackRevenue(seed, growthRate, Positive, n - 1)),
      rule, Negative, TrackRevenue(seed, growthRate, Negative, n), TrackRevenue(seed, growthRate, Negative, n - 1))
  }

  /** One year of the recurrence on the table: every track's revenue grows from the prior
      row's by its growth rate, and its FCF is taken from the two revenues. */
  function StepRow(prev: Row, row: Row, rule: FcfRule, growthRate: real): Row
    requires HasRevenues(prev)
  {
    WithTrack(WithTrack(WithTrack(row,
      rule, Neutral, Grow(prev[Revenue], TrackGrowth(growthRate, Neutral)), prev[Revenue]),
      rule, Positive, Grow(prev[RevenuePosOutlook], TrackGrowth(growthRate, Positive)), prev[RevenuePosOutlook]),
      rule, Negative, Grow(prev[RevenueNegOutlook], TrackGrowth(growthRate, Negative)), prev[RevenueNegOutlook])
  }

  /** A track's revenue one year on is last year's times one plus its growth. */
  lemma TrackRevenueStep(seed: real, growthRate: real, o: Outlook, n: nat)
    ensures TrackRevenue(seed, growthRate, o, n + 1)
         == Grow(TrackRevenue(seed, growthRate, o, n), TrackGrowth(growthRate, o))
  {
    var b := 1.0 + TrackGrowth(growthRate, o);
    PowSucc(b, n);
    assert seed * (b * Pow(b, n)) == (seed * Pow(b, n)) * b;
  }

  /** Stepping a row whose revenues are the closed form for year n gives the closed-form
      row for year n + 1. */
  lemma StepRowIsForecastRow(prev: Row, row: Row, rule: FcfRule, seed: real, growthRate: real, n: nat)
    requires HasRevenues(prev)
    requires prev[Revenue] == TrackRevenue(seed, growthRate, Neutral, n)
    requires prev[RevenuePosOutlook] == TrackRevenue(seed, growthRate, Positive, n)
    requires prev[RevenueNegOutlook] == TrackRevenue(seed, growthRate, Negative, n)
    ensures StepRow(prev, row, rule, growthRate) == ForecastRow(row, rule, seed, growthRate, n + 1)
  {
    TrackRevenueStep(seed, growthRate, Neutral, n);
    TrackRevenueStep(seed, growthRate, Positive, n);
    TrackRevenueStep(seed, growthRate, Negative, n);
    assert n + 1 - 1 == n;
  }

  /** Growing the three revenue cells first and then writing the three FCF cells (the
      source's order) gives the row `StepRow` describes. */
  lemma GrownRowIsStepRow(prev: Row, row: Row, rule: FcfRule, growthRate: real, f0: real, f1: real, f2: real)
    requires HasRevenues(prev)
    requires f0 == rule(Grow(prev[Revenue], TrackGrowth(growthRate, Neutral)), prev[Revenue])
    requires f1 == rule(Grow(prev[RevenuePosOutlook], TrackGrowth(growthRate, Positive)), prev[RevenuePosOutlook])
    requires f2 == rule(Grow(prev[RevenueNegOutlook], TrackGrowth(growthRate, Negative)), prev[RevenueNegOutlook])
    ensures Scrub(row
              [Revenue := Grow(prev[Revenue], TrackGrowth(growthRate, Neutral))]
              [RevenuePosOutlook := Grow(prev[RevenuePosOutlook], TrackGrowth(growthRate, Positive))]
              [RevenueNegOutlook := Grow(prev[RevenueNegOutlook], TrackGrowth(growthRate, Negative))])
              [FcfForecast := f0][FcfForecastPos := f1][FcfForecastNeg := f2]
         == StepRow(prev, Scrub(row), rule, growthRate)
  {
  }

  /** Writing the neutral track onto the grown table. */
  lemma NeutralWritten(t: Table, year: int, growthRate: real, rule: FcfRule)
    requires year - 1 in t && HasRevenues(t[year - 1])
    ensures StepReady(Grown(t, year, growthRate), year)
    ensures var r := Grown(t, year, growthRate)[year];
      Written(Grown(t, year, growthRate), year, Neutral, rule)
        == ScrubTable(t)[year := Scrub(r)[FcfForecast := rule(r[Revenue], t[year - 1][Revenue])]]
  {
    GrownReady(t, year, growthRate);
    var r := Grown(t, year, growthRate)[year];
    assert Grown(t, year, growthRate) == t[year := r];
    WriteOnto(t, year, r, Neutral, rule);
  }

  /** Writing another track onto a scrubbed table whose row `year` is `x`, already scrubbed. */
  lemma TrackWritten(t: Table, year: int, x: Row, o: Outlook, rule: FcfRule)
    requires year - 1 in t && HasRevenues(t[year - 1]) && HasRevenues(x) && Scrub(x) == x
    ensures StepReady(ScrubTable(t)[year := x], year)
    ensures Written(ScrubTable(t)[year := x], year, o, rule)
         == ScrubTable(t)[year := x[FcfOf(o) := rule(x[RevenueOf(o)], t[year - 1][RevenueOf(o)])]]
  {
    WriteOntoScrubbed(t, year, x, o, rule);
  }

  /** Writing the positive and then the negative track onto a scrubbed table whose row
      `year` is `x`. */
  lemma OutlooksWritten(t: Table, year: int, x: Row, rule: FcfRule)
    requires year - 1 in t && HasRevenues(t[year - 1])
    requires HasRevenues(x)
    requires Scrub(x) == x
    ensures StepReady(ScrubTable(t)[year := x], year)
    ensures StepReady(Written(ScrubTable(t)[year := x], year, Positive, rule), year)
    ensures Written(Written(ScrubTable(t)[year := x], year, Positive, rule), year, Negative, rule)
         == ScrubTable(t)[year := x
              [FcfForecastPos := rule(x[RevenuePosOutlook], t[year - 1][RevenuePosOutlook])]
              [FcfForecastNeg := rule(x[RevenueNegOutlook], t[year - 1][RevenueNegOutlook])]]
  {
    var x1 := x[FcfForecastPos := rule(x[RevenuePosOutlook], t[year - 1][RevenuePosOutlook])];
    TrackWritten(t, year, x, Positive, rule);
    assert HasRevenues(x1) && Scrub(x1) == x1 by { ScrubKept(x, FcfForecastPos, x1[FcfForecastPos]); }
    TrackWritten(t, year, x1, Negative, rule);
  }

  /** Growing the revenues of `year` and writing the three tracks' FCF, in the source's
      order, replaces row `year` of the scrubbed table by the step row. */
  lemma ForecastYearEffect(t: Table, year: int, growthRate: real, rule: FcfRule)
    requires year - 1 in t && HasRevenues(t[year - 1])
    ensures StepReady(Grown(t, year, growthRate), year)
    ensures StepReady(Written(Grown(t, year, growthRate), year, Neutral, rule), year)
    ensures StepReady(Written(Written(Grown(t, year, growthRate), year, Neutral, rule), year, Positive, rule), year)
    ensures Written(Written(Written(Grown(t, year, growthRate), year, Neutral, rule), year, Positive, rule), year, Negative, rule)
         == ScrubTable(t)[year := StepRow(t[year - 1], Scrub(RowOr(t, year)), rule, growthRate)]
  {
    var prev := t[year - 1];
    var r := Grown(t, year, growthRate)[year];
    var f0 := rule(r[Revenue], prev[Revenue]);
    var x0 := Scrub(r)[FcfForecast := f0];
    NeutralWritten(t, year, growthRate, rule);
    NeutralRowReady(t, year, growthRate, rule);
    OutlooksWritten(t, year, x0, rule);
    GrownRevenues(t, year, growthRate);
    GrownRowIsStepRow(prev, RowOr(t, year), rule, growthRate, f0,
      rule(r[RevenuePosOutlook], prev[RevenuePosOutlook]),
      rule(r[RevenueNegOutlook], prev[RevenueNegOutlook]));
  }

  /** The row after the neutral FCF is written is scrubbed and keeps its revenues. */
  lemma NeutralRowReady(t: Table, year: int, growthRate: real, rule: FcfRule)
    requires year - 1 in t && HasRevenues(t[year - 1])
    ensures var r := Grown(t, year, growthRate)[year];
      var x0 := Scrub(r)[FcfForecast := rule(r[Revenue], t[year - 1][Revenue])];
      HasRevenues(x0) && Scrub(x0) == x0
  {
    var r := Grown(t, year, growthRate)[year];
    ScrubKept(r, FcfForecast, rule(r[Revenue], t[year - 1][Revenue]));
  }

  /** The table after one forecast year: the scratch columns dropped everywhere and
      row `year` replaced by the step row from the row before. */
  function Advance(t: Table, year: int, growthRate: real, rule: FcfRule): Table
    requires year - 1 in t && HasRevenues(t[year - 1])
  {
    ScrubTable(t)[year := StepRow(t[year - 1], Scrub(RowOr(t, year)), rule, growthRate)]
  }

  // ---------------------------------------------------------------- the whole forecast

  /** The years a forecast of `k` years starting at `firstYear` writes. */
  function ForecastYears(firstYear: int, k: nat): (ys: set<int>)
    ensures forall y :: y in ys <==> firstYear <= y < firstYear + k
  {
    if k == 0 then {} else ForecastYears(firstYear, k - 1) + {firstYear + k - 1}
  }

  /** The base year's two outlook revenue cells start from its revenue. */
  function Seeded(t: Table, base: int): (s: Table)
    requires base in t && Revenue in t[base]
    ensures s.Keys == t.Keys
  {
    t[base := t[base][RevenuePosOutlook := t[base][Revenue]][RevenueNegOutlook := t[base][Revenue]]]
  }

  /** Seeding sets the base row's two outlook revenues to its revenue and leaves every
      other cell of the base row, and every other row, as it was. */
  lemma SeededCells(t: Table, base: int)
    requires base in t && Revenue in t[base]
    ensures var s := Seeded(t, base);
      base in s &&
      RevenuePosOutlook in s[base] && s[base][RevenuePosOutlook] == t[base][Revenue] &&
      RevenueNegOutlook in s[base] && s[base][RevenueNegOutlook] == t[base][Revenue] &&
      (forall c :: c in s[base] <==> c in t[base] || c == RevenuePosOutlook || c == RevenueNegOutlook) &&
      (forall c :: c in t[base] && c != RevenuePosOutlook && c != RevenueNegOutlook ==> s[base][c] == t[base][c]) &&
      (forall y :: y in t && y != base ==> y in s && s[y] == t[y])
  {
  }

  /** The shape of the table after k forecast years from `firstYear`, for any way
      `rowAt(row, j)` of building forecast year j (counted from 0) out of that year's
      scrubbed cells: after the first year is written, every other row has lost the
      scratch columns. */
  function Layout(t: Table, firstYear: int, k: nat, rowAt: (Row, nat) -> Row): (f: Table)
    ensures f.Keys == t.Keys + ForecastYears(firstYear, k)
  {
    if k == 0 then t
    else
      map y | y in t.Keys + ForecastYears(firstYear, k) ::
        if firstYear <= y < firstYear + k then rowAt(Scrub(RowOr(t, y)), y - firstYear)
        else Scrub(t[y])
  }

  /** Builds forecast year j + 1's closed-form row. */
  function RowBuilder(rule: FcfRule, seed: real, growthRate: real): (Row, nat) -> Row {
    (row: Row, j: nat) => ForecastRow(row, rule, seed, growthRate, j + 1)
  }

  lemma RowBuilderAt(rule: FcfRule, seed: real, growthRate: real, row: Row, j: nat, n: nat)
    requires n == j + 1
    ensures RowBuilder(rule, seed, growthRate)(row, j) == ForecastRow(row, rule, seed, growthRate, n)
  {
  }

  /** The table after a forecast of `k` years from `firstYear`, in closed form: the base
      row seeded, forecast year y the closed-form row for year y - firstYear + 1 over its
      own non-scratch cells, and (once a year is written) every other row scrubbed. */
  function ForecastTable(t: Table, firstYear: int, growthRate: real, rule: FcfRule, k: nat): (f: Table)
    requires firstYear - 1 in t && Revenue in t[firstYear - 1]
    ensures f.Keys == t.Keys + ForecastYears(firstYear, k)
  {
    Layout(Seeded(t, firstYear - 1), firstYear, k, RowBuilder(rule, t[firstYear - 1][Revenue], growthRate))
  }

  /** A row builder that leaves scrubbed rows scrubbed. */
  ghost predicate KeepsScrubbed(rowAt: (Row, nat) -> Row) {
    forall row, j :: Scrub(row) == row ==> Scrub(rowAt(row, j)) == rowAt(row, j)
  }

  /** Every year written holds the builder's row for it. */
  lemma LayoutAt(t: Table, firstYear: int, k: nat, rowAt: (Row, nat) -> Row, y: int)
    requires firstYear <= y < firstYear + k
    ensures y in Layout(t, firstYear, k, rowAt)
    ensures Layout(t, firstYear, k, rowAt)[y] == rowAt(Scrub(RowOr(t, y)), y - firstYear)
  {
  }

  /** Every other year keeps its cells, scratch ones aside, once a year is written. */
  lemma LayoutOutside(t: Table, firstYear: int, k: nat, rowAt: (Row, nat) -> Row, y: int)
    requires k > 0 && y in t && !(firstYear <= y < firstYear + k)
    ensures y in Layout(t, firstYear, k, rowAt) && Layout(t, firstYear, k, rowAt)[y] == Scrub(t[y])
  {
  }

  /** The next year, not yet written, holds its original cells (scratch ones aside). */
  lemma LayoutUnwritten(t: Table, firstYear: int, k: nat, rowAt: (Row, nat) -> Row)
    ensures Scrub(RowOr(Layout(t, firstYear, k, rowAt), firstYear + k)) == Scrub(RowOr(t, firstYear + k))
  {
    var y := firstYear + k;
    if y in t {
      ScrubKept(t[y], Revenue, 0.0);
    }
  }

  /** A year already written is the same in the layouts for k and k + 1 years, once the
      scratch columns are dropped again. */
  lemma LayoutKeepsWritten(t: Table, firstYear: int, k: nat, rowAt: (Row, nat) -> Row, z: int)
    requires KeepsScrubbed(rowAt)
    requires firstYear <= z < firstYear + k
    ensures z in Layout(t, firstYear, k, rowAt) && z in Layout(t, firstYear, k + 1, rowAt)
    ensures Scrub(Layout(t, firstYear, k, rowAt)[z]) == Layout(t, firstYear, k + 1, rowAt)[z]
  {
    ScrubKept(RowOr(t, z), Revenue, 0.0);
  }

  /** Any other row is the same in the layouts for k and k + 1 years, once the scratch
      columns are dropped. */
  lemma LayoutKeepsOther(t: Table, firstYear: int, k: nat, rowAt: (Row, nat) -> Row, z: int)
    requires z in t && !(firstYear <= z < firstYear + k + 1)
    ensures z in Layout(t, firstYear, k, rowAt) && z in Layout(t, firstYear, k + 1, rowAt)
    ensures Scrub(Layout(t, firstYear, k, rowAt)[z]) == Layout(t, firstYear, k + 1, rowAt)[z]
  {
    if k > 0 {
      ScrubKept(t[z], Revenue, 0.0);
    }
  }

  /** Two tables with the same years and the same row for each year are equal. */
  lemma TableExt(h: Table, g: Table)
    requires forall z :: z in h <==> z in g
    requires forall z :: z in h ==> h[z] == g[z]
    ensures h == g
  {
    forall z | z in h ensures z in g && h[z] == g[z] { }
    forall z | z in g ensures z in h { }
  }

  /** One row of `LayoutExtend`. */
  lemma LayoutExtendAt(t: Table, firstYear: int, k: nat, rowAt: (Row, nat) -> Row, z: int)
    requires KeepsScrubbed(rowAt)
    requires z in Layout(t, firstYear, k + 1, rowAt)
    ensures z in ScrubTable(Layout(t, firstYear, k, rowAt))[firstYear + k := rowAt(Scrub(RowOr(t, firstYear + k)), k)]
    ensures ScrubTable(Layout(t, firstYear, k, rowAt))[firstYear + k := rowAt(Scrub(RowOr(t, firstYear + k)), k)][z]
         == Layout(t, firstYear, k + 1, rowAt)[z]
  {
    var f := Layout(t, firstYear, k, rowAt);
    if z == firstYear + k {
      LayoutAt(t, firstYear, k + 1, rowAt, z);
    } else {
      assert z in f;
      assert ScrubTable(f)[firstYear + k := rowAt(Scrub(RowOr(t, firstYear + k)), k)][z] == Scrub(f[z]);
      if firstYear <= z < firstYear + k {
        LayoutKeepsWritten(t, firstYear, k, rowAt, z);
      } else {
        LayoutKeepsOther(t, firstYear, k, rowAt, z);
      }
    }
  }

  /** Writing the builder's row for the next year into the scrubbed layout for k years
      gives the layout for k + 1 years. */
  lemma LayoutExtend(t: Table, firstYear: int, k: nat, rowAt: (Row, nat) -> Row)
    requires KeepsScrubbed(rowAt)
    ensures ScrubTable(Layout(t, firstYear, k, rowAt))[firstYear + k := rowAt(Scrub(RowOr(t, firstYear + k)), k)]
         == Layout(t, firstYear, k + 1, rowAt)
  {
    var h := ScrubTable(Layout(t, firstYear, k, rowAt))[firstYear + k := rowAt(Scrub(RowOr(t, firstYear + k)), k)];
    var g := Layout(t, firstYear, k + 1, rowAt);
    forall z | z in g
      ensures z in h && h[z] == g[z]
    {
      LayoutExtendAt(t, firstYear, k, rowAt, z);
    }
    TableExt(h, g);
  }

  /** The cells of a closed-form forecast row: every track's revenue and FCF for year n,
      and the row's other cells unchanged. */
  lemma ForecastRowCells(row: Row, rule: FcfRule, seed: real, growthRate: real, n: nat)
    requires n >= 1
    ensures var f := ForecastRow(row, rule, seed, growthRate, n);
      (forall o :: RevenueOf(o) in f && f[RevenueOf(o)] == TrackRevenue(seed, growthRate, o, n)) &&
      (forall o :: FcfOf(o) in f && f[FcfOf(o)] == TrackFcf(rule, seed, growthRate, o, n)) &&
      (forall c :: c in row && c !in TrackColumns ==> c in f && f[c] == row[c]) &&
      (forall c :: c in f ==> c in row || c in TrackColumns)
  {
  }

  /** The six columns the forecast writes. */
  const TrackColumns: set<Column> :=
    {Revenue, RevenuePosOutlook, RevenueNegOutlook, FcfForecast, FcfForecastPos, FcfForecastNeg}

  /** The closed-form rows keep scrubbed rows scrubbed. */
  lemma RowBuilderKeepsScrubbed(rule: FcfRule, seed: real, growthRate: real)
    ensures KeepsScrubbed(RowBuilder(rule, seed, growthRate))
  {
    forall row, j: nat | Scrub(row) == row
      ensures Scrub(RowBuilder(rule, seed, growthRate)(row, j)) == RowBuilder(rule, seed, growthRate)(row, j)
    {
      ForecastRowScrubbed(row, rule, seed, growthRate, j + 1);
    }
  }

  /** A forecast row built on a scrubbed row is scrubbed. */
  lemma ForecastRowScrubbed(row: Row, rule: FcfRule, seed: real, growthRate: real, n: nat)
    requires n >= 1 && Scrub(row) == row
    ensures Scrub(ForecastRow(row, rule, seed, growthRate, n)) == ForecastRow(row, rule, seed, growthRate, n)
  {
    ForecastRowCells(row, rule, seed, growthRate, n);
  }

  /** After k years the last row written (the base row when k = 0) holds the closed-form
      revenues for year k. */
  lemma ForecastTableReady(t: Table, firstYear: int, growthRate: real, rule: FcfRule, k: nat)
    requires firstYear - 1 in t && Revenue in t[firstYear - 1]
    ensures var f := ForecastTable(t, firstYear, growthRate, rule, k);
      var seed := t[firstYear - 1][Revenue];
      firstYear + k - 1 in f && HasRevenues(f[firstYear + k - 1]) &&
      f[firstYear + k - 1][Revenue] == TrackRevenue(seed, growthRate, Neutral, k) &&
      f[firstYear + k - 1][RevenuePosOutlook] == TrackRevenue(seed, growthRate, Positive, k) &&
      f[firstYear + k - 1][RevenueNegOutlook] == TrackRevenue(seed, growthRate, Negative, k)
  {
    if k == 0 {
      ForecastTableReadyStart(t, firstYear, growthRate, rule);
    } else {
      ForecastTableReadyLast(t, firstYear, growthRate, rule, k);
    }
  }

  lemma ForecastTableReadyStart(t: Table, firstYear: int, growthRate: real, rule: FcfRule)
    requires firstYear - 1 in t && Revenue in t[firstYear - 1]
    ensures var f := ForecastTable(t, firstYear, growthRate, rule, 0);
      var seed := t[firstYear - 1][Revenue];
      firstYear - 1 in f && HasRevenues(f[firstYear - 1]) &&
      f[firstYear - 1][Revenue] == TrackRevenue(seed, growthRate, Neutral, 0) &&
      f[firstYear - 1][RevenuePosOutlook] == TrackRevenue(seed, growthRate, Positive, 0) &&
      f[firstYear - 1][RevenueNegOutlook] == TrackRevenue(seed, growthRate, Negative, 0)
  {
    var seed := t[firstYear - 1][Revenue];
    TracksShareSeed(seed, growthRate, Neutral);
    TracksShareSeed(seed, growthRate, Positive);
    TracksShareSeed(seed, growthRate, Negative);
  }

  lemma ForecastTableReadyLast(t: Table, firstYear: int, growthRate: real, rule: FcfRule, k: nat)
    requires firstYear - 1 in t && Revenue in t[firstYear - 1] && k > 0
    ensures var f := ForecastTable(t, firstYear, growthRate, rule, k);
      var seed := t[firstYear - 1][Revenue];
      firstYear + k - 1 in f && HasRevenues(f[firstYear + k - 1]) &&
      f[firstYear + k - 1][Revenue] == TrackRevenue(seed, growthRate, Neutral, k) &&
      f[firstYear + k - 1][RevenuePosOutlook] == TrackRevenue(seed, growthRate, Positive, k) &&
      f[firstYear + k - 1][RevenueNegOutlook] == TrackRevenue(seed, growthRate, Negative, k)
  {
    ForecastYearRow(t, firstYear, growthRate, rule, k, firstYear + k - 1, k);
    ForecastRowRevenues(Scrub(RowOr(Seeded(t, firstYear - 1), firstYear + k - 1)), rule, t[firstYear - 1][Revenue], growthRate, k);
  }

  /** Forecast year y, the n-th of the forecast, holds the closed-form row for year n over
      its own scrubbed cells. */
  lemma ForecastYearRow(t: Table, firstYear: int, growthRate: real, rule: FcfRule, k: nat, y: int, n: nat)
    requires firstYear - 1 in t && Revenue in t[firstYear - 1]
    requires firstYear <= y < firstYear + k && n == y - firstYear + 1
    ensures y in ForecastTable(t, firstYear, growthRate, rule, k)
    ensures ForecastTable(t, firstYear, growthRate, rule, k)[y]
         == ForecastRow(Scrub(RowOr(Seeded(t, firstYear - 1), y)), rule, t[firstYear - 1][Revenue], growthRate, n)
  {
    var s := Seeded(t, firstYear - 1);
    var rowAt := RowBuilder(rule, t[firstYear - 1][Revenue], growthRate);
    assert ForecastTable(t, firstYear, growthRate, rule, k) == Layout(s, firstYear, k, rowAt);
    LayoutAt(s, firstYear, k, rowAt, y);
    RowBuilderAt(rule, t[firstYear - 1][Revenue], growthRate, Scrub(RowOr(s, y)), y - firstYear, n);
  }

  /** The three revenue cells of a closed-form forecast row. */
  lemma ForecastRowRevenues(row: Row, rule: FcfRule, seed: real, growthRate: real, n: nat)
    requires n >= 1
    ensures var f := ForecastRow(row, rule, seed, growthRate, n);
      HasRevenues(f) &&
      f[Revenue] == TrackRevenue(seed, growthRate, Neutral, n) &&
      f[RevenuePosOutlook] == TrackRevenue(seed, growthRate, Positive, n) &&
      f[RevenueNegOutlook] == TrackRevenue(seed, growthRate, Negative, n)
  {
  }

  /** Before the first year only the seeding has happened. */
  lemma ForecastTableStart(t: Table, firstYear: int, growthRate: real, rule: FcfRule)
    requires firstYear - 1 in t && Revenue in t[firstYear - 1]
    ensures ForecastTable(t, firstYear, growthRate, rule, 0) == Seeded(t, firstYear - 1)
  {
  }

  /** One more loop iteration turns the closed form for k years into the one for k + 1. */
  lemma ForecastTableStep(t: Table, firstYear: int, growthRate: real, rule: FcfRule, k: nat)
    requires firstYear - 1 in t && Revenue in t[firstYear - 1]
    ensures var f := ForecastTable(t, firstYear, growthRate, rule, k);
      var y := firstYear + k;
      y - 1 in f && HasRevenues(f[y - 1]) &&
      Advance(f, y, growthRate, rule) == ForecastTable(t, firstYear, growthRate, rule, k + 1)
  {
    var seed := t[firstYear - 1][Revenue];
    var s := Seeded(t, firstYear - 1);
    var rowAt := RowBuilder(rule, seed, growthRate);
    var f := ForecastTable(t, firstYear, growthRate, rule, k);
    var row := Scrub(RowOr(s, firstYear + k));
    ForecastTableReady(t, firstYear, growthRate, rule, k);
    assert StepRow(f[firstYear + k - 1], row, rule, growthRate) == rowAt(row, k) by {
      StepRowIsForecastRow(f[firstYear + k - 1], row, rule, seed, growthRate, k);
    }
    RowBuilderKeepsScrubbed(rule, seed, growthRate);
    LayoutAdvance(s, firstYear, k, rowAt, rule, growthRate);
  }

  /** For any row builder that agrees with the step row on the next year, advancing the
      layout for k years gives the layout for k + 1 years. */
  lemma LayoutAdvance(t: Table, firstYear: int, k: nat, rowAt: (Row, nat) -> Row, rule: FcfRule, growthRate: real)
    requires KeepsScrubbed(rowAt)
    requires firstYear + k - 1 in Layout(t, firstYear, k, rowAt)
    requires HasRevenues(Layout(t, firstYear, k, rowAt)[firstYear + k - 1])
    requires StepRow(Layout(t, firstYear, k, rowAt)[firstYear + k - 1], Scrub(RowOr(t, firstYear + k)), rule, growthRate)
          == rowAt(Scrub(RowOr(t, firstYear + k)), k)
    ensures Advance(Layout(t, firstYear, k, rowAt), firstYear + k, growthRate, rule) == Layout(t, firstYear, k + 1, rowAt)
  {
    LayoutUnwritten(t, firstYear, k, rowAt);
    LayoutExtend(t, firstYear, k, rowAt);
  }

  // ---------------------------------------------------------------- properties

  /** All three tracks start from the base-year revenue. */
  lemma TracksShareSeed(seed: real, growthRate: real, o: Outlook)
    ensures TrackRevenue(seed, growthRate, o, 0) == seed
  {
  }

  /** With positive base revenue and a non-negative pessimistic growth factor, the
      positive track is never below the neutral one and the neutral never below the
      negative one. */
  lemma {:induction false} TracksOrdered(seed: real, growthRate: real, n: nat)
    requires seed > 0.0 && 1.0 + growthRate - 0.05 >= 0.0
    ensures TrackRevenue(seed, growthRate, Negative, n) <= TrackRevenue(seed, growthRate, Neutral, n)
    ensures TrackRevenue(seed, growthRate, Neutral, n) <= TrackRevenue(seed, growthRate, Positive, n)
  {
    TrackRevenueLe(seed, growthRate, Negative, Neutral, n);
    TrackRevenueLe(seed, growthRate, Neutral, Positive, n);
  }

  /** A track with the larger (non-negative) growth factor is never behind. */
  lemma {:induction false} TrackRevenueLe(seed: real, growthRate: real, lo: Outlook, hi: Outlook, n: nat)
    requires seed > 0.0 && 0.0 <= 1.0 + TrackGrowth(growthRate, lo) <= 1.0 + TrackGrowth(growthRate, hi)
    ensures TrackRevenue(seed, growthRate, lo, n) <= TrackRevenue(seed, growthRate, hi, n)
  {
    var bl, bh := 1.0 + TrackGrowth(growthRate, lo), 1.0 + TrackGrowth(growthRate, hi);
    var pl, ph := Pow(bl, n), Pow(bh, n);
    PowMonotoneBase(bl, bh, n);
    MulLeMonotone(seed, pl, ph);
    assert TrackRevenue(seed, growthRate, lo, n) == seed * pl;
    assert TrackRevenue(seed, growthRate, hi, n) == seed * ph;
  }

  /** Forecast year y, the n-th of the forecast, holds on every track the closed-form
      revenue and FCF for year n. */
  lemma ForecastTableTracks(t: Table, firstYear: int, growthRate: real, rule: FcfRule, k: nat, y: int, n: nat, o: Outlook)
    requires firstYear - 1 in t && Revenue in t[firstYear - 1]
    requires firstYear <= y < firstYear + k && n == y - firstYear + 1
    ensures var f := ForecastTable(t, firstYear, growthRate, rule, k);
      var seed := t[firstYear - 1][Revenue];
      y in f && RevenueOf(o) in f[y] && FcfOf(o) in f[y] &&
      f[y][RevenueOf(o)] == TrackRevenue(seed, growthRate, o, n) &&
      f[y][FcfOf(o)] == TrackFcf(rule, seed, growthRate, o, n)
  {
    ForecastYearRow(t, firstYear, growthRate, rule, k, y, n);
    ForecastRowCells(Scrub(RowOr(Seeded(t, firstYear - 1), y)), rule, t[firstYear - 1][Revenue], growthRate, n);
  }
  /** The FCF cell alone of forecast year y (the n-th), for the table `f` the forecast left. */
  lemma ForecastTableFcf(t: Table, firstYear: int, growthRate: real, rule: FcfRule, k: nat, y: int, n: nat,
                         o: Outlook, f: Table)
    requires firstYear - 1 in t && Revenue in t[firstYear - 1]
    requires firstYear <= y < firstYear + k && n == y - firstYear + 1
    requires f == ForecastTable(t, firstYear, growthRate, rule, k)
    ensures y in f && FcfOf(o) in f[y] && f[y][FcfOf(o)] == TrackFcf(rule, t[firstYear - 1][Revenue], growthRate, o, n)
  {
    ForecastTableTracks(t, firstYear, growthRate, rule, k, y, n, o);
  }

  /** Every forecast year holds all three FCF cells. */
  lemma ForecastTableFcfCells(t: Table, firstYear: int, growthRate: real, rule: FcfRule, k: nat, y: int)
    requires firstYear - 1 in t && Revenue in t[firstYear - 1]
    requires firstYear <= y < firstYear + k
    ensures var f := ForecastTable(t, firstYear, growthRate, rule, k);
      y in f && FcfForecast in f[y] && FcfForecastPos in f[y] && FcfForecastNeg in f[y]
  {
    ForecastYearRow(t, firstYear, growthRate, rule, k, y, y - firstYear + 1);
    ForecastRowCells(Scrub(RowOr(Seeded(t, firstYear - 1), y)), rule, t[firstYear - 1][Revenue], growthRate, y - firstYear + 1);
  }

  /** A forecast year keeps the cells it had outside the forecast and scratch columns, and
      gains no others. */
  lemma ForecastTableKeepsCells(t: Table, firstYear: int, growthRate: real, rule: FcfRule, k: nat, y: int)
    requires firstYear - 1 in t && Revenue in t[firstYear - 1]
    requires firstYear <= y < firstYear + k
    ensures var f := ForecastTable(t, firstYear, growthRate, rule, k);
      y in f &&
      (forall c :: c in RowOr(t, y) && c !in TrackColumns && c !in ScratchColumns ==> c in f[y] && f[y][c] == t[y][c]) &&
      (forall c :: c in f[y] ==> c in TrackColumns || (c in RowOr(t, y) && c !in ScratchColumns))
  {
    var row := Scrub(RowOr(Seeded(t, firstYear - 1), y));
    assert row == Scrub(RowOr(t, y));
    ForecastYearRow(t, firstYear, growthRate, rule, k, y, y - firstYear + 1);
    ForecastRowCells(row, rule, t[firstYear - 1][Revenue], growthRate, y - firstYear + 1);
  }

  /** Outside the forecast years every row keeps its cells, scratch ones aside, except that
      the base year gains the two outlook revenues seeded from its revenue. */
  lemma ForecastTableOtherRows(t: Table, firstYear: int, growthRate: real, rule: FcfRule, k: nat, y: int)
    requires firstYear - 1 in t && Revenue in t[firstYear - 1] && k > 0
    requires y in t && !(firstYear <= y < firstYear + k)
    ensures var f := ForecastTable(t, firstYear, growthRate, rule, k);
      var seed := t[firstYear - 1][Revenue];
      y in f &&
      (y != firstYear - 1 ==> f[y] == Scrub(t[y])) &&
      (y == firstYear - 1 ==> f[y] == Scrub(t[y])[RevenuePosOutlook := seed][RevenueNegOutlook := seed])
  {
    var seed := t[firstYear - 1][Revenue];
    var s := Seeded(t, firstYear - 1);
    assert ForecastTable(t, firstYear, growthRate, rule, k) == Layout(s, firstYear, k, RowBuilder(rule, seed, growthRate));
    LayoutOutside(s, firstYear, k, RowBuilder(rule, seed, growthRate), y);
    if y == firstYear - 1 {
      ScrubSeeded(t[y], seed);
    }
  }

  /** The seeded outlook revenue cells survive the scrub. */
  lemma ScrubSeeded(row: Row, seed: real)
    ensures Scrub(row[RevenuePosOutlook := seed][RevenueNegOutlook := seed])
         == Scrub(row)[RevenuePosOutlook := seed][RevenueNegOutlook := seed]
  {
    var l := Scrub(row[RevenuePosOutlook := seed][RevenueNegOutlook := seed]);
    var r := Scrub(row)[RevenuePosOutlook := seed][RevenueNegOutlook := seed];
    forall c | c in l ensures c in r && l[c] == r[c] { }
    forall c | c in r ensures c in l { }
  }

  /** The ratio-profile FCF is linear in revenue: scaling this year's and last year's
      revenue by the same factor scales the FCF by it. */
  lemma FcfScales(ratios: Ratios, factor: real, current: real, previous: real)
    ensures FcfFromRatios(ratios, factor * current, factor * previous).fcf
         == factor * FcfFromRatios(ratios, current, previous).fcf
  {
    FcfClosedForm(ratios, current, previous);
    FcfClosedForm(ratios, factor * current, factor * previous);
    var r := ratios;
    var w := r.propertyPlantEquipmentNet + r.netReceivables + r.accountPayables + r.inventory;
    assert w * (factor * current - factor * previous) == factor * (w * (current - previous));
    assert r.netIncome * (factor * current) == factor * (r.netIncome * current);
    assert r.depreciationAndAmortization * (factor * previous) == factor * (r.depreciationAndAmortization * previous);
  }

  /** With a ratio profile, each track's forecast FCF grows at the track's own rate from
      the second forecast year on. */
  lemma TrackFcfGrows(ratios: Ratios, seed: real, growthRate: real, o: Outlook, n: nat)
    requires n >= 1
    ensures TrackFcf(RatiosRule(ratios), seed, growthRate, o, n + 1)
         == Grow(TrackFcf(RatiosRule(ratios), seed, growthRate, o, n), TrackGrowth(growthRate, o))
  {
    var b := 1.0 + TrackGrowth(growthRate, o);
    var cur, prev := TrackRevenue(seed, growthRate, o, n), TrackRevenue(seed, growthRate, o, n - 1);
    TrackRevenueStep(seed, growthRate, o, n);
    TrackRevenueStep(seed, growthRate, o, n - 1);
    assert TrackRevenue(seed, growthRate, o, n + 1) == b * cur;
    assert n - 1 + 1 == n;
    assert cur == b * prev;
    FcfScales(ratios, b, cur, prev);
  }

  /** The balance-sheet shares of revenue that the FCF charges on the revenue change. */
  function ReinvestmentShare(ratios: Ratios): real {
    ratios.propertyPlantEquipmentNet + ratios.netReceivables + ratios.accountPayables + ratios.inventory
  }

  /** A profile whose net-income share covers its reinvestment share, which in turn covers
      its D&A share: then the FCF weighs this year's and last year's revenue non-negatively. */
  predicate CoveredProfile(ratios: Ratios) {
    ratios.netIncome >= ReinvestmentShare(ratios) >= ratios.depreciationAndAmortization
  }

  /** For a covered profile more revenue, this year or last, never lowers the FCF. */
  lemma FcfMonotone(ratios: Ratios, current1: real, previous1: real, current2: real, previous2: real)
    requires CoveredProfile(ratios) && current1 <= current2 && previous1 <= previous2
    ensures FcfFromRatios(ratios, current1, previous1).fcf <= FcfFromRatios(ratios, current2, previous2).fcf
  {
    var w := ReinvestmentShare(ratios);
    FcfClosedForm(ratios, current1, previous1);
    FcfClosedForm(ratios, current2, previous2);
    MulLeMonotone(ratios.netIncome - w, current1, current2);
    MulLeMonotone(w - ratios.depreciationAndAmortization, previous1, previous2);
    assert FcfFromRatios(ratios, current1, previous1).fcf
        == (ratios.netIncome - w) * current1 + (w - ratios.depreciationAndAmortization) * previous1;
    assert FcfFromRatios(ratios, current2, previous2).fcf
        == (ratios.netIncome - w) * current2 + (w - ratios.depreciationAndAmortization) * previous2;
  }

  /** With a covered profile, positive base revenue and a non-negative pessimistic growth
      factor, the three tracks' FCFs are ordered negative <= neutral <= positive in every
      forecast year. */
  lemma {:induction false} TrackFcfsOrdered(ratios: Ratios, seed: real, growthRate: real, n: nat)
    requires CoveredProfile(ratios) && seed > 0.0 && 1.0 + growthRate - 0.05 >= 0.0 && n >= 1
    ensures TrackFcf(RatiosRule(ratios), seed, growthRate, Negative, n) <= TrackFcf(RatiosRule(ratios), seed, growthRate, Neutral, n)
    ensures TrackFcf(RatiosRule(ratios), seed, growthRate, Neutral, n) <= TrackFcf(RatiosRule(ratios), seed, growthRate, Positive, n)
  {
    TracksOrdered(seed, growthRate, n);
    TracksOrdered(seed, growthRate, n - 1);
    FcfMonotone(ratios,
      TrackRevenue(seed, growthRate, Negative, n), TrackRevenue(seed, growthRate, Negative, n - 1),
      TrackRevenue(seed, growthRate, Neutral, n), TrackRevenue(seed, growthRate, Neutral, n - 1));
    FcfMonotone(ratios,
      TrackRevenue(seed, growthRate, Neutral, n), TrackRevenue(seed, growthRate, Neutral, n - 1),
      TrackRevenue(seed, growthRate, Positive, n), TrackRevenue(seed, growthRate, Positive, n - 1));
  }

  /** A profile whose reinvestment share exceeds its net-income share: faster revenue growth
      costs more reinvestment than it earns. */
  const ThinMarginProfile: Ratios := Ratios(0.1, 0.0, 0.0, 1.0, 0.0, 0.0)

  /** Its net-income share (0.1) is below its reinvestment share (1). */
  lemma ThinMarginNotCovered()
    ensures ReinvestmentShare(ThinMarginProfile) > ThinMarginProfile.netIncome
    ensures !CoveredProfile(ThinMarginProfile)
  {
  }

  /** Without a covered profile the tracks need not be ordered: with a base revenue of 1 and
      growth 5%, the positive track's FCF stays below the neutral one's in each of the first
      five forecast years. */
  lemma PositiveTrailsNeutral(n: nat)
    requires 1 <= n <= 5
    ensures TrackFcf(RatiosRule(ThinMarginProfile), 1.0, 0.05, Positive, n)
          < TrackFcf(RatiosRule(ThinMarginProfile), 1.0, 0.05, Neutral, n)
  {
    var m: nat := n - 1;
    PowBelow(m);
    PowMonotoneBase(1.0, 1.05, m);
    PowOne(m);
    ThinMarginGap(n, Pow(1.1, m), Pow(1.05, m));
  }

  /** The first forecast year of that example, on the formula: revenue 1.1 after 1 gives an
      FCF of 0.01, revenue 1.05 after 1 gives 0.055. */
  lemma ThinMarginFirstYear()
    ensures FcfFromRatios(ThinMarginProfile, 1.1, 1.0).fcf == 0.01
    ensures FcfFromRatios(ThinMarginProfile, 1.05, 1.0).fcf == 0.055
  {
    ThinMarginFcf(1.1, 1.0);
    ThinMarginFcf(1.05, 1.0);
  }

  /** The gap between the two tracks once their growth factors are bounded. */
  lemma ThinMarginGap(n: nat, p: real, q: real)
    requires n >= 1 && p == Pow(1.1, n - 1) && q == Pow(1.05, n - 1) && 0.0 < p <= 1.5 && 1.0 <= q
    ensures TrackFcf(RatiosRule(ThinMarginProfile), 1.0, 0.05, Positive, n)
          < TrackFcf(RatiosRule(ThinMarginProfile), 1.0, 0.05, Neutral, n)
  {
    ThinMarginTrack(Positive, n, 1.1, p);
    ThinMarginTrack(Neutral, n, 1.05, q);
    ScaledBelow(p, q);
  }

  lemma ScaledBelow(p: real, q: real)
    requires 0.0 < p <= 1.5 && 1.0 <= q
    ensures p * (1.0 - 0.9 * 1.1) < q * (1.0 - 0.9 * 1.05)
  {
  }

  /** A thin-margin track's FCF in year n, from base revenue 1 and growth 5%. */
  lemma ThinMarginTrack(o: Outlook, n: nat, b: real, p: real)
    requires n >= 1 && b == 1.0 + TrackGrowth(0.05, o) && p == Pow(b, n - 1)
    ensures TrackFcf(RatiosRule(ThinMarginProfile), 1.0, 0.05, o, n) == p * (1.0 - 0.9 * b)
  {
    PowSucc(b, n - 1);
    assert TrackRevenue(1.0, 0.05, o, n) == b * p;
    assert TrackRevenue(1.0, 0.05, o, n - 1) == p;
    ThinMarginFcf(b, p);
  }

  /** The thin-margin FCF for a year whose revenue is `b` times the year before's. */
  lemma ThinMarginFcf(b: real, previous: real)
    ensures FcfFromRatios(ThinMarginProfile, b * previous, previous).fcf == previous * (1.0 - 0.9 * b)
  {
    FcfClosedForm(ThinMarginProfile, b * previous, previous);
  }

  /** 1.1^m stays below 1.5 for the first four years. */
  lemma PowBelow(m: nat)
    requires m <= 4
    ensures 0.0 < Pow(1.1, m) <= 1.5
  {
    assert Pow(1.1, 1) == 1.1;
    assert Pow(1.1, 2) == 1.21;
    assert Pow(1.1, 3) == 1.331;
    assert Pow(1.1, 4) == 1.4641;
  }

  // ---------------------------------------------------------------- the table

  /** The free-cash-flow table the forecast is written into. */
  class FcfTable {
    var cells: Table

    constructor (rows: Table)
      ensures cells == rows
    {
      cells := rows;
    }

    /** `df.loc[year, column] = value`: overwrites the cell, adding the row if needed. */
    method SetCell(year: int, c: Column, v: real)
      modifies this
      ensures cells == old(cells)[year := RowOr(old(cells), year)[c := v]]
    {
      cells := cells[year := RowOr(cells, year)[c := v]];
    }

    /** `df.drop(scratch columns, axis = 1, inplace = True)`: the columns go from every row. */
    method DropScratch()
      modifies this
      ensures cells == ScrubTable(old(cells))
    {
      cells := ScrubTable(cells);
    }

    /** Writes one track's FCF, change in working capital and capex for `year`, then drops
        the two intermediate columns. */
    method WriteTrackFcf(year: int, o: Outlook, ratios: Ratios)
      requires year - 1 in cells && year in cells
      requires RevenueOf(o) in cells[year - 1] && RevenueOf(o) in cells[year]
      modifies this
      ensures cells == Written(old(cells), year, o, RatiosRule(ratios))
    {
      ghost var t := cells;
      var r := FcfFromRatios(ratios, cells[year][RevenueOf(o)], cells[year - 1][RevenueOf(o)]);
      SetCell(year, FcfOf(o), r.fcf);
      SetCell(year, ChangeWorkingCapForecast, r.changeWorkingCap);
      SetCell(year, CapExForecast, r.capEx);
      ghost var written := t[year][FcfOf(o) := r.fcf][ChangeWorkingCapForecast := r.changeWorkingCap][CapExForecast := r.capEx];
      assert cells == t[year := written];
      DropScratch();
      ScrubWritten(t[year], FcfOf(o), r.fcf, r.changeWorkingCap, r.capEx);
      ScrubTableUpdate(t, year, written);
    }

    /** The three revenue cells of `year`, each grown from the prior year's by its
        track's growth rate. */
    method GrowRevenues(year: int, growthRate: real)
      requires year - 1 in cells && HasRevenues(cells[year - 1])
      modifies this
      ensures cells == Grown(old(cells), year, growthRate)
    {
      SetCell(year, Revenue, Grow(cells[year - 1][Revenue], TrackGrowth(growthRate, Neutral)));
      SetCell(year, RevenuePosOutlook, Grow(cells[year - 1][RevenuePosOutlook], TrackGrowth(growthRate, Positive)));
      SetCell(year, RevenueNegOutlook, Grow(cells[year - 1][RevenueNegOutlook], TrackGrowth(growthRate, Negative)));
    }

    /** One iteration of the forecast loop for `year`. */
    method ForecastYear(year: int, growthRate: real, ratios: Ratios)
      requires year - 1 in cells && HasRevenues(cells[year - 1])
      modifies this
      ensures cells == Advance(old(cells), year, growthRate, RatiosRule(ratios))
    {
      ghost var t := cells;
      GrowRevenues(year, growthRate);
      GrownReady(t, year, growthRate);
      WriteTrackFcf(year, Neutral, ratios);
      WrittenReady(Grown(t, year, growthRate), year, Neutral, RatiosRule(ratios));
      WriteTrackFcf(year, Positive, ratios);
      WrittenReady(Written(Grown(t, year, growthRate), year, Neutral, RatiosRule(ratios)), year, Positive, RatiosRule(ratios));
      WriteTrackFcf(year, Negative, ratios);
      ForecastYearEffect(t, year, growthRate, RatiosRule(ratios));
    }

    /** One pass of the loop body, read against the closed form: it takes the table
        after k forecast years to the table after k + 1. */
    method ForecastNextYear(ghost t: Table, firstYear: int, k: nat, growthRate: real, ratios: Ratios)
      requires firstYear - 1 in t && Revenue in t[firstYear - 1]
      requires cells == ForecastTable(t, firstYear, growthRate, RatiosRule(ratios), k)
      modifies this
      ensures cells == ForecastTable(t, firstYear, growthRate, RatiosRule(ratios), k + 1)
    {
      ForecastTableStep(t, firstYear, growthRate, RatiosRule(ratios), k);
      ForecastYear(firstYear + k, growthRate, ratios);
    }

    /** Copies the base year's revenue into its two outlook revenue cells. */
    method SeedOutlooks(base: int)
      requires base in cells && Revenue in cells[base]
      modifies this
      ensures cells == Seeded(old(cells), base)
    {
      var seed := cells[base][Revenue];
      SetCell(base, RevenuePosOutlook, seed);
      SetCell(base, RevenueNegOutlook, seed);
    }

    /** Forecasts `yearCount` years from `firstYear` on: seeds the outlook revenues of the
        year before, then steps each year in turn. The table ends up as the closed form.
        An empty list of years has no first year to seed from (the `IndexError` of the
        source): `ok` is false and the table is untouched. */
    method ForecastFcf(growthRate: real, firstYear: int, yearCount: nat, ratios: Ratios) returns (ok: bool)
      requires yearCount >= 1 ==> firstYear - 1 in cells && Revenue in cells[firstYear - 1]
      modifies this
      ensures ok <==> yearCount >= 1
      ensures ok ==> cells == ForecastTable(old(cells), firstYear, growthRate, RatiosRule(ratios), yearCount)
      ensures !ok ==> cells == old(cells)
    {
      if yearCount == 0 {
        return false;
      }
      ok := true;
      ghost var t := cells;
      SeedOutlooks(firstYear - 1);
      ForecastTableStart(t, firstYear, growthRate, RatiosRule(ratios));
      var k := 0;
      while k < yearCount
        invariant 0 <= k <= yearCount
        invariant cells == ForecastTable(t, firstYear, growthRate, RatiosRule(ratios), k)
      {
        ForecastNextYear(t, firstYear, k, growthRate, ratios);
        k := k + 1;
      }
    }
  }
}
