/**
 * The check script: the employment rate of women aged 14 or over in CABA
 * (area 32) for one quarter, computed from the weights of one loaded table.
 */
module Test {
  import opened Common
  import opened Tables
  import opened Survey

  const CabaCode: real := 32.0

  predicate InCaba(r: SurveyRow) {
    ToNumeric(r.aglomerado) == Some(CabaCode)
  }

  /** CH04 == 2 and CH06 >= 14; a missing value compares false. */
  predicate IsAdultWoman(r: SurveyRow) {
    && ToNumeric(r.ch04) == Some(2.0)
    && match ToNumeric(r.ch06)
       case Some(age) => age >= 14.0
       case None => false
  }

  predicate IsEmployed(r: SurveyRow) {
    ToNumeric(r.estado) == Some(1.0)
  }

  function Pondera(r: SurveyRow): Option<real> {
    ToNumeric(r.pondera)
  }

  /** Every row in the one group a plain column sum adds over. */
  function WholeTable(r: SurveyRow): Option<bool> {
    Some(true)
  }

  /** `df['PONDERA'].sum()`: missing weights are skipped. */
  function WeightTotal(rows: seq<SurveyRow>): real {
    GroupSum(rows, WholeTable, Pondera, true)
  }

  function Reference(rows: seq<SurveyRow>): seq<SurveyRow> {
    Filter(Filter(rows, InCaba), IsAdultWoman)
  }

  function Occupied(rows: seq<SurveyRow>): seq<SurveyRow> {
    Filter(Reference(rows), IsEmployed)
  }

  /**
   * `calculate_employment_rate_caba_women()`: None when the table cannot be
   * loaded; otherwise 100 times the employed weight over the reference weight,
   * or 0 when the reference weight is not positive.
   */
  function CalculateEmploymentRateCabaWomen(loaded: Option<seq<SurveyRow>>): (rate: Option<real>)
    ensures rate.None? <==> loaded.None?
  {
    match loaded
    case None => None
    case Some(rows) =>
      Some(RateOf(WeightTotal(Occupied(rows)), WeightTotal(Reference(rows))))
  }

  /** The final step: 100 times occupied over total, or 0 when the total is not positive. */
  function RateOf(occupied: real, total: real): real {
    if total > 0.0 then (occupied / total) * 100.0 else 0.0
  }

  /** The rate of a loaded table depends on its two weight totals only. */
  lemma RateOfTable(rows: seq<SurveyRow>)
    ensures CalculateEmploymentRateCabaWomen(Some(rows)) == Some(RateOf(WeightTotal(Occupied(rows)), WeightTotal(Reference(rows))))
  {
  }

  /** The reference rows are exactly the rows of CABA women aged 14 or over; the employed ones among them are occupied. */
  lemma ReferenceRows(rows: seq<SurveyRow>)
    ensures forall r :: r in Reference(rows) <==> r in rows && InCaba(r) && IsAdultWoman(r)
    ensures forall r :: r in Occupied(rows) <==> r in Reference(rows) && IsEmployed(r)
  {
  }

  /** With non-negative weights the occupied weight is non-negative and never exceeds the reference weight. */
  lemma OccupiedWithinReference(rows: seq<SurveyRow>)
    requires forall r :: r in rows && Pondera(r).Some? ==> Pondera(r).value >= 0.0
    ensures 0.0 <= WeightTotal(Occupied(rows)) <= WeightTotal(Reference(rows))
  {
    var ref := Reference(rows);
    assert NonNegativeValues(ref, Pondera);
    GroupSumFilterBelow(ref, IsEmployed, WholeTable, Pondera, true);
  }

  /**
   * With non-negative weights the rate is 100·occupied/total, in [0, 100],
   * when the reference weight is positive, and 0 otherwise.
   */
  lemma RateBounds(rows: seq<SurveyRow>)
    requires forall r :: r in rows && Pondera(r).Some? ==> Pondera(r).value >= 0.0
    ensures 0.0 <= CalculateEmploymentRateCabaWomen(Some(rows)).value <= 100.0
    ensures WeightTotal(Reference(rows)) > 0.0 ==>
      CalculateEmploymentRateCabaWomen(Some(rows)).value == 100.0 * WeightTotal(Occupied(rows)) / WeightTotal(Reference(rows))
    ensures WeightTotal(Reference(rows)) <= 0.0 ==> CalculateEmploymentRateCabaWomen(Some(rows)).value == 0.0
  {
    OccupiedWithinReference(rows);
    RateOfTable(rows);
    RateFromTotals(WeightTotal(Occupied(rows)), WeightTotal(Reference(rows)));
  }

  /** The arithmetic of the final step, apart from any table. */
  lemma RateFromTotals(occupied: real, total: real)
    requires 0.0 <= occupied <= total
    ensures 0.0 <= RateOf(occupied, total) <= 100.0
    ensures total > 0.0 ==> RateOf(occupied, total) == 100.0 * occupied / total
    ensures total <= 0.0 ==> RateOf(occupied, total) == 0.0
  {
  }

  /** A row whose weight is missing changes neither sum, so it leaves the result as it was. */
  lemma MissingWeightIgnored(a: seq<SurveyRow>, r: SurveyRow, b: seq<SurveyRow>)
    requires Pondera(r).None?
    ensures CalculateEmploymentRateCabaWomen(Some(a + [r] + b)) == CalculateEmploymentRateCabaWomen(Some(a + b))
  {
    var ca, cr, cb := FilterSplit(a, [r], b, InCaba);
    var wa, wr, wb := FilterSplit(ca, cr, cb, IsAdultWoman);
    var ea, er, eb := FilterSplit(wa, wr, wb, IsEmployed);
    WeightlessTotal(wa, wr, wb);
    WeightlessTotal(ea, er, eb);
    assert WeightTotal(Reference(a + [r] + b)) == WeightTotal(Reference(a + b));
    assert WeightTotal(Occupied(a + [r] + b)) == WeightTotal(Occupied(a + b));
    RateOfTable(a + [r] + b);
    RateOfTable(a + b);
  }

  predicate Weightless(m: seq<SurveyRow>) {
    forall r :: r in m ==> Pondera(r).None?
  }

  /** Filtering a table cut in three pieces filters each piece. */
  lemma FilterSplit(x: seq<SurveyRow>, m: seq<SurveyRow>, y: seq<SurveyRow>, p: SurveyRow -> bool)
    returns (fx: seq<SurveyRow>, fm: seq<SurveyRow>, fy: seq<SurveyRow>)
    ensures fx == Filter(x, p) && fm == Filter(m, p) && fy == Filter(y, p)
    ensures Filter(x + m + y, p) == fx + fm + fy
    ensures Filter(x + y, p) == fx + fy
    ensures Weightless(m) ==> Weightless(fm)
  {
    fx, fm, fy := Filter(x, p), Filter(m, p), Filter(y, p);
    FilterAppend(x + m, y, p);
    FilterAppend(x, m, p);
    FilterAppend(x, y, p);
  }

  /** Rows without a weight add nothing to a weight total. */
  lemma WeightlessTotal(x: seq<SurveyRow>, m: seq<SurveyRow>, y: seq<SurveyRow>)
    requires Weightless(m)
    ensures WeightTotal(x + m + y) == WeightTotal(x + y)
  {
    GroupSumAppend(x + m, y, WholeTable, Pondera, true);
    GroupSumAppend(x, m, WholeTable, Pondera, true);
    GroupSumAppend(x, y, WholeTable, Pondera, true);
    WeightlessSum(m);
  }

  lemma {:induction false} WeightlessSum(m: seq<SurveyRow>)
    requires Weightless(m)
    ensures WeightTotal(m) == 0.0
  {
    if m != [] {
      assert m[0] in m;
      assert forall r :: r in m[1..] ==> r in m;
      WeightlessSum(m[1..]);
    }
  }
}
