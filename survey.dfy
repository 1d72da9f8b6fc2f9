/**
 * One row of the household survey (one person in one quarter) as the
 * sanitised CSV files hold it, the (ANO4, TRIMESTRE, AGLOMERADO) key every
 * aggregate is grouped by, the order `groupby` sorts those keys in, and the
 * continuous PERIODO index used for plotting.
 */
module Survey {
  import opened Common
  import opened Tables

  /**
   * The columns the core reads. ANO4 and TRIMESTRE are integers as loaded and
   * never coerced; PONDIIO is a number or missing; the other columns are raw
   * cells that the code coerces (or compares) where it uses them.
   */
  datatype SurveyRow = SurveyRow(
    ano4: int,          // year
    trimestre: int,     // quarter
    aglomerado: Cell,   // urban area code
    ch04: Cell,         // sex (2 = woman)
    ch06: Cell,         // age in years
    estado: Cell,       // activity status (1 employed, 2 unemployed)
    pondera: Cell,      // person weight
    p21: Cell,          // income
    pondiio: Option<real> // income weight
  )

  /** (ANO4, TRIMESTRE, AGLOMERADO) with the area code read as a number. */
  datatype PeriodKey = PeriodKey(ano4: int, trimestre: int, aglomerado: real)

  /** The group a row falls in; a row whose area code is not numeric falls in none. */
  function RowKey(r: SurveyRow): (k: Option<PeriodKey>)
    ensures k.Some? <==> ToNumeric(r.aglomerado).Some?
    ensures k.Some? ==> k.value.ano4 == r.ano4 && k.value.trimestre == r.trimestre
  {
    match ToNumeric(r.aglomerado)
    case Some(a) => Some(PeriodKey(r.ano4, r.trimestre, a))
    case None => None
  }

  /** Lexicographic order on (ANO4, TRIMESTRE, AGLOMERADO), the order of `groupby`'s result. */
  predicate KeyLess(a: PeriodKey, b: PeriodKey) {
    || a.ano4 < b.ano4
    || (a.ano4 == b.ano4 && a.trimestre < b.trimestre)
    || (a.ano4 == b.ano4 && a.trimestre == b.trimestre && a.aglomerado < b.aglomerado)
  }

  lemma KeyLessIsStrictTotalOrder()
    ensures StrictTotalOrder(KeyLess)
  {
  }

  /** `ANO4 + (TRIMESTRE - 1) / 4` */
  function Periodo(ano4: int, trimestre: int): (p: real)
    ensures 1 <= trimestre <= 4 ==> ano4 as real <= p < ano4 as real + 1.0
  {
    ano4 as real + (trimestre - 1) as real / 4.0
  }

  /**
   * For quarters 1 to 4, PERIODO orders periods exactly as (year, quarter)
   * does: earlier periods get smaller indices and vice versa.
   */
  lemma PeriodoOrder(y1: int, q1: int, y2: int, q2: int)
    requires 1 <= q1 <= 4 && 1 <= q2 <= 4
    ensures (y1 < y2 || (y1 == y2 && q1 < q2)) <==> Periodo(y1, q1) < Periodo(y2, q2)
    ensures Periodo(y1, q1) == Periodo(y2, q2) <==> y1 == y2 && q1 == q2
  {
  }

  /** A key that sorts earlier never has a later PERIODO. */
  lemma KeyPeriodo(a: PeriodKey, b: PeriodKey)
    requires KeyLess(a, b)
    requires 1 <= a.trimestre <= 4 && 1 <= b.trimestre <= 4
    ensures Periodo(a.ano4, a.trimestre) <= Periodo(b.ano4, b.trimestre)
  {
    PeriodoOrder(a.ano4, a.trimestre, b.ano4, b.trimestre);
  }
}
