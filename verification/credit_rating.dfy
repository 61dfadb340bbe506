/** Synthetic credit rating from the interest coverage ratio, and the cost of debt it
    implies. */
module CreditRating {

  /** The fifteen ratings, lowest first. */
  datatype Rating = D | C | CC | CCC | BMinus | B | BPlus | BB | BBPlus | BBB | AMinus | A | APlus | AA | AAA

  /** The ratings in bucket order: bucket k carries Ratings[k]. */
  const Ratings: seq<Rating> := [D, C, CC, CCC, BMinus, B, BPlus, BB, BBPlus, BBB, AMinus, A, APlus, AA, AAA]

  /** The finite bin edges, ascending; the outer edges are minus and plus infinity. */
  const Edges: seq<real> := [0.5, 0.8, 1.25, 1.5, 2.0, 2.5, 3.0, 3.5, 4.0, 4.5, 6.0, 7.5, 9.5, 12.5]

  const BucketCount: nat := 15

  /** Credit default spread per rating. */
  function Spread(r: Rating): real {
    match r
    case D => 0.1434
    case C => 0.1076
    case CC => 0.088
    case CCC => 0.0778
    case BMinus => 0.0462
    case B => 0.0378
    case BPlus => 0.0315
    case BB => 0.0215
    case BBPlus => 0.0193
    case BBB => 0.0159
    case AMinus => 0.0129
    case A => 0.014
    case APlus => 0.0103
    case AA => 0.0082
    case AAA => 0.0067
  }

  /** The edges are strictly ascending. */
  lemma EdgesAscending()
    ensures |Edges| == BucketCount - 1 && |Ratings| == BucketCount
    ensures forall i, j :: 0 <= i < j < |Edges| ==> Edges[i] < Edges[j]
  {
  }

  /** Bucket k is the right-closed interval (lower, upper]: its lower edge is minus
      infinity for k = 0 and its upper edge is plus infinity for the last bucket. */
  predicate InBucket(x: real, k: nat) {
    k < BucketCount &&
    (k == 0 || Edges[k - 1] < x) &&
    (k == BucketCount - 1 || x <= Edges[k])
  }

  /** First bucket at or after `from` whose upper edge is at least `x`. */
  function BucketFrom(x: real, from: nat): (k: nat)
    requires from < BucketCount
    requires from == 0 || Edges[from - 1] < x
    ensures from <= k && InBucket(x, k)
    decreases BucketCount - from
  {
    if from == BucketCount - 1 || x <= Edges[from] then from
    else BucketFrom(x, from + 1)
  }

  /** The bucket `pandas.cut` assigns with its default right-closed bins. */
  function Bucket(coverage: real): (k: nat)
    ensures InBucket(coverage, k)
  {
    BucketFrom(coverage, 0)
  }

  /** Buckets do not overlap: a value lies in exactly one. */
  lemma BucketUnique(x: real, k: nat)
    requires InBucket(x, k)
    ensures Bucket(x) == k
  {
    EdgesAscending();
  }

  function RatingFor(coverage: real): (r: Rating) {
    Ratings[Bucket(coverage)]
  }

  /** Position of a rating in the ladder, lowest first. */
  function Rank(r: Rating): (k: nat)
    ensures k < BucketCount && Ratings[k] == r
  {
    match r
    case D => 0 case C => 1 case CC => 2 case CCC => 3 case BMinus => 4 case B => 5
    case BPlus => 6 case BB => 7 case BBPlus => 8 case BBB => 9 case AMinus => 10
    case A => 11 case APlus => 12 case AA => 13 case AAA => 14
  }

  /** A higher coverage never earns a lower rating. */
  lemma RatingMonotone(x: real, y: real)
    requires x <= y
    ensures Bucket(x) <= Bucket(y)
    ensures Rank(RatingFor(x)) <= Rank(RatingFor(y))
  {
    EdgesAscending();
    RankOfBucket(Bucket(x));
    RankOfBucket(Bucket(y));
  }

  lemma RankOfBucket(k: nat)
    requires k < BucketCount
    ensures Rank(Ratings[k]) == k
  {
  }

  /** The boundary cases: right-closed bins put every coverage up to and including 0.5
      (negative ones too) in D, exactly 2.0 in B-, (2, 2.5] in B, and above 12.5 in AAA. */
  lemma BoundarySemantics(x: real)
    ensures x <= 0.5 ==> RatingFor(x) == D
    ensures x == 2.0 ==> RatingFor(x) == BMinus
    ensures 2.0 < x <= 2.5 ==> RatingFor(x) == B
    ensures x > 12.5 ==> RatingFor(x) == AAA
  {
    if x <= 0.5 { BucketUnique(x, 0); }
    if x == 2.0 { BucketUnique(x, 4); }
    if 2.0 < x <= 2.5 { BucketUnique(x, 5); }
    if x > 12.5 { BucketUnique(x, 14); }
  }

  /** The spread table is not monotone in the rating: A pays more than A-. */
  lemma SpreadNotMonotone()
    ensures Rank(AMinus) < Rank(A) && Spread(AMinus) < Spread(A)
  {
  }

  /** Interest coverage ratio and cost of debt, the source's return pair. */
  datatype CreditResult = CreditResult(interestCoverageRatio: real, costOfDebt: real)

  /** Coverage is (EBITDA - D&A) / interest expense; cost of debt is the rating's spread
      plus the risk-free rate. Interest expense is never checked, so it must not be zero. */
  function SyntheticRating(ebitda: real, deprAndAmort: real, interestExpense: real, riskFreeRate: real): (r: CreditResult)
    requires interestExpense != 0.0
    ensures r.interestCoverageRatio * interestExpense == ebitda - deprAndAmort
    ensures InBucket(r.interestCoverageRatio, Rank(RatingFor(r.interestCoverageRatio)))
    ensures r.costOfDebt - riskFreeRate == Spread(RatingFor(r.interestCoverageRatio))
  {
    var coverage := (ebitda - deprAndAmort) / interestExpense;
    RankOfBucket(Bucket(coverage));
    CreditResult(coverage, Spread(RatingFor(coverage)) + riskFreeRate)
  }

  /** The cost of debt lies between the AAA and the D spread over the risk-free rate. */
  lemma CostOfDebtBounds(ebitda: real, deprAndAmort: real, interestExpense: real, riskFreeRate: real)
    requires interestExpense != 0.0
    ensures var r := SyntheticRating(ebitda, deprAndAmort, interestExpense, riskFreeRate);
            riskFreeRate + 0.0067 <= r.costOfDebt <= riskFreeRate + 0.1434
  {
  }
}
