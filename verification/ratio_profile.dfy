/** The ratio profile: each of six statement lines divided by revenue, taken either from
    one chosen year or as the mean of the line over the mean of revenue across all years. */
module RatioProfile {
  import opened RealMath

  /** The six statement lines the profile covers, in the source's row order. */
  datatype Line =
    | NetIncome
    | DepreciationAndAmortization
    | Inventory
    | PropertyPlantEquipmentNet
    | NetReceivables
    | AccountPayables

  /** A profile holds one ratio to revenue per line (the `ratio_to_revenue` column,
      one row per line), so no line can be missing from it. */
  datatype Ratios = Ratios(
    netIncome: real,
    depreciationAndAmortization: real,
    inventory: real,
    propertyPlantEquipmentNet: real,
    netReceivables: real,
    accountPayables: real)

  /** The profile's row for one line. */
  function Ratio(p: Ratios, l: Line): real {
    match l
    case NetIncome => p.netIncome
    case DepreciationAndAmortization => p.depreciationAndAmortization
    case Inventory => p.inventory
    case PropertyPlantEquipmentNet => p.propertyPlantEquipmentNet
    case NetReceivables => p.netReceivables
    case AccountPayables => p.accountPayables
  }

  /** One fiscal year's row of the historical FCF-component table. */
  datatype FinancialRecord = FinancialRecord(
    year: int,
    revenue: real,
    netIncome: real,
    depreciationAndAmortization: real,
    inventory: real,
    propertyPlantEquipmentNet: real,
    netReceivables: real,
    accountPayables: real)

  function LineValue(rec: FinancialRecord, l: Line): real {
    match l
    case NetIncome => rec.netIncome
    case DepreciationAndAmortization => rec.depreciationAndAmortization
    case Inventory => rec.inventory
    case PropertyPlantEquipmentNet => rec.propertyPlantEquipmentNet
    case NetReceivables => rec.netReceivables
    case AccountPayables => rec.accountPayables
  }

  /** The column of one line across all records, in record order. */
  function LineColumn(records: seq<FinancialRecord>, l: Line): (c: seq<real>)
    ensures |c| == |records|
    ensures forall i :: 0 <= i < |records| ==> c[i] == LineValue(records[i], l)
  {
    seq(|records|, i requires 0 <= i < |records| => LineValue(records[i], l))
  }

  function RevenueColumn(records: seq<FinancialRecord>): (c: seq<real>)
    ensures |c| == |records|
    ensures forall i :: 0 <= i < |records| ==> c[i] == records[i].revenue
  {
    seq(|records|, i requires 0 <= i < |records| => records[i].revenue)
  }

  /** The table is indexed by calendar year, one row per year. */
  predicate YearsDistinct(records: seq<FinancialRecord>) {
    forall i, j :: 0 <= i < j < |records| ==> records[i].year != records[j].year
  }

  predicate HasYear(records: seq<FinancialRecord>, year: int) {
    exists i :: 0 <= i < |records| && records[i].year == year
  }

  /** Which year the ratios are set from: `"all"` or one calendar year. */
  datatype RatioYearSet = All | Year(year: int)

  /** Position of the row labelled `year`, if there is one. */
  function FindYear(records: seq<FinancialRecord>, year: int): (k: Option<nat>)
    ensures k.Some? ==> k.value < |records| && records[k.value].year == year
    ensures k.None? ==> !HasYear(records, year)
  {
    if |records| == 0 then None
    else if records[0].year == year then Some(0)
    else match FindYear(records[1..], year)
      case None => None
      case Some(k) => Some(k + 1)
  }

  /** Ratios set from one year: each line over that year's revenue. */
  function YearRatios(rec: FinancialRecord): (p: Ratios)
    requires rec.revenue != 0.0
    ensures forall l :: Ratio(p, l) * rec.revenue == LineValue(rec, l)
  {
    var r := rec.revenue;
    Ratios(Div(rec.netIncome, r), Div(rec.depreciationAndAmortization, r), Div(rec.inventory, r),
           Div(rec.propertyPlantEquipmentNet, r), Div(rec.netReceivables, r), Div(rec.accountPayables, r))
  }

  /** Ratios set from all years: the mean of each line over the mean revenue. */
  function MeanRatios(records: seq<FinancialRecord>): (p: Ratios)
    requires |records| > 0 && Mean(RevenueColumn(records)) != 0.0
    ensures forall l :: Ratio(p, l) * Mean(RevenueColumn(records)) == Mean(LineColumn(records, l))
  {
    var r := Mean(RevenueColumn(records));
    Ratios(Div(Mean(LineColumn(records, NetIncome)), r),
           Div(Mean(LineColumn(records, DepreciationAndAmortization)), r),
           Div(Mean(LineColumn(records, Inventory)), r),
           Div(Mean(LineColumn(records, PropertyPlantEquipmentNet)), r),
           Div(Mean(LineColumn(records, NetReceivables)), r),
           Div(Mean(LineColumn(records, AccountPayables)), r))
  }

  /** Ratios of the six lines to revenue. `None` stands for the lookup of a year that
      is not in the table (a `KeyError` in the source). Revenue is never checked
      before dividing, so a non-zero divisor is required of the caller. */
  function RatiosToRevenue(records: seq<FinancialRecord>, yearSet: RatioYearSet): (r: Option<Ratios>)
    requires yearSet.Year? ==> YearsDistinct(records)
    requires yearSet.All? ==> |records| > 0 && Mean(RevenueColumn(records)) != 0.0
    requires yearSet.Year? ==>
      forall i :: 0 <= i < |records| && records[i].year == yearSet.year ==> records[i].revenue != 0.0
    ensures yearSet.All? ==> r == Some(MeanRatios(records))
    ensures yearSet.Year? ==> (r.Some? <==> HasYear(records, yearSet.year))
    ensures yearSet.Year? ==>
      forall i :: 0 <= i < |records| && records[i].year == yearSet.year ==> r == Some(YearRatios(records[i]))
  {
    match yearSet
    case All => Some(MeanRatios(records))
    case Year(y) =>
      match FindYear(records, y)
      case None => None
      case Some(k) => Some(YearRatios(records[k]))
  }

  /** In `"all"` mode each ratio is a ratio of sums (equivalently of means), not the
      mean of the yearly ratios. */
  lemma AllIsRatioOfSums(records: seq<FinancialRecord>, l: Line)
    requires |records| > 0 && Mean(RevenueColumn(records)) != 0.0
    ensures Sum(RevenueColumn(records)) != 0.0
    ensures Ratio(RatiosToRevenue(records, All).value, l)
         == Sum(LineColumn(records, l)) / Sum(RevenueColumn(records))
  {
    var n := |records| as real;
    var sl, sr := Sum(LineColumn(records, l)), Sum(RevenueColumn(records));
    var ml, mr := Mean(LineColumn(records, l)), Mean(RevenueColumn(records));
    assert ml == sl / n && mr == sr / n;
    assert sr == mr * n;
    assert (sl / n) / (sr / n) == sl / sr by { CancelCommonDivisor(sl, sr, n); }
  }

  lemma CancelCommonDivisor(x: real, y: real, n: real)
    requires n != 0.0 && y != 0.0
    ensures (x / n) / (y / n) == x / y
  {
  }

  /** With a single year of data the two modes agree on that year. */
  lemma SingleYearModesAgree(rec: FinancialRecord)
    requires rec.revenue != 0.0
    ensures Mean(RevenueColumn([rec])) != 0.0
    ensures RatiosToRevenue([rec], All) == RatiosToRevenue([rec], Year(rec.year))
  {
    assert RevenueColumn([rec]) == [rec.revenue];
    MeanSingleton(rec.revenue);
    forall l
      ensures Mean(LineColumn([rec], l)) == LineValue(rec, l)
    {
      assert LineColumn([rec], l) == [LineValue(rec, l)];
      MeanSingleton(LineValue(rec, l));
    }
  }

  /** The ratio of means can differ from the mean of the yearly ratios: two years with
      revenue 1 and 3 and net income 1 and 1 give 1/2 in `"all"` mode, while the yearly
      ratios 1 and 1/3 average to 2/3. */
  lemma RatioOfMeansIsNotMeanOfRatios()
    ensures var a := FinancialRecord(2020, 1.0, 1.0, 0.0, 0.0, 0.0, 0.0, 0.0);
            var b := FinancialRecord(2021, 3.0, 1.0, 0.0, 0.0, 0.0, 0.0, 0.0);
            Mean(RevenueColumn([a, b])) != 0.0 &&
            RatiosToRevenue([a, b], All).value.netIncome == 0.5 &&
            Mean([YearRatios(a).netIncome, YearRatios(b).netIncome]) == 2.0 / 3.0
  {
    var a := FinancialRecord(2020, 1.0, 1.0, 0.0, 0.0, 0.0, 0.0, 0.0);
    var b := FinancialRecord(2021, 3.0, 1.0, 0.0, 0.0, 0.0, 0.0, 0.0);
    assert RevenueColumn([a, b]) == [1.0, 3.0];
    assert LineColumn([a, b], NetIncome) == [1.0, 1.0];
    MeanPair(1.0, 3.0);
    MeanPair(1.0, 1.0);
    assert YearRatios(a).netIncome == 1.0 && YearRatios(b).netIncome == 1.0 / 3.0;
    MeanPair(1.0, 1.0 / 3.0);
  }

  lemma MeanPair(x: real, y: real)
    ensures Mean([x, y]) == (x + y) / 2.0
  {
    assert [x, y][1..] == [y];
    assert Sum([y]) == y + Sum([]);
  }
}
