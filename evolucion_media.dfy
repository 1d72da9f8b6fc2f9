/**
 * The labour-rate calculator: from person rows to one row per
 * (ANO4, TRIMESTRE, AGLOMERADO) holding the weighted reference, active,
 * employed and unemployed populations and the employment, activity and
 * unemployment rates derived from them.
 */
module EvolucionMedia {
  import opened Common
  import opened Tables
  import opened Survey

  // ---------------------------------------------------------------------------
  // Coercion of the caller's frame

  /** The four columns the calculator coerces in place: PONDERA, ESTADO, CH06, AGLOMERADO. */
  function CoerceRow(r: SurveyRow): (c: SurveyRow)
    ensures c.pondera.Num? || c.pondera.Empty?
    ensures c.estado.Num? || c.estado.Empty?
    ensures c.ch06.Num? || c.ch06.Empty?
    ensures c.aglomerado.Num? || c.aglomerado.Empty?
    ensures c.(pondera := r.pondera, estado := r.estado, ch06 := r.ch06, aglomerado := r.aglomerado) == r
  {
    r.(pondera := Coerce(r.pondera), estado := Coerce(r.estado), ch06 := Coerce(r.ch06), aglomerado := Coerce(r.aglomerado))
  }

  /** The survey table the caller passes in; the calculator overwrites four of its columns. */
  class SurveyFrame {
    var rows: seq<SurveyRow>

    constructor (rows: seq<SurveyRow>)
      ensures this.rows == rows
    {
      this.rows := rows;
    }
  }

  // ---------------------------------------------------------------------------
  // Populations

  function Weight(r: SurveyRow): Option<real> {
    ToNumeric(r.pondera)
  }

  function Status(r: SurveyRow): Option<real> {
    ToNumeric(r.estado)
  }

  /** Reference population: age 14 or over; a missing age compares false. */
  predicate InReference(r: SurveyRow) {
    match ToNumeric(r.ch06)
    case Some(age) => age >= 14.0
    case None => false
  }

  /** `ESTADO.isin([1, 2])` */
  predicate IsActive(r: SurveyRow) {
    Status(r) == Some(1.0) || Status(r) == Some(2.0)
  }

  predicate IsEmployed(r: SurveyRow) {
    Status(r) == Some(1.0)
  }

  predicate IsUnemployed(r: SurveyRow) {
    Status(r) == Some(2.0)
  }

  function Reference(rows: seq<SurveyRow>): seq<SurveyRow> {
    Filter(rows, InReference)
  }

  function Active(rows: seq<SurveyRow>): seq<SurveyRow> {
    Filter(Reference(rows), IsActive)
  }

  function Employed(rows: seq<SurveyRow>): seq<SurveyRow> {
    Filter(Reference(rows), IsEmployed)
  }

  function Unemployed(rows: seq<SurveyRow>): seq<SurveyRow> {
    Filter(Reference(rows), IsUnemployed)
  }

  /** The summed PONDERA of a population for one key (the `groupby(...).sum()` value). */
  function WeightSum(population: seq<SurveyRow>, k: PeriodKey): real {
    GroupSum(population, RowKey, Weight, k)
  }

  /** The grouped table of one population, as `groupby(...)['PONDERA'].sum().reset_index()` builds it. */
  function Grouped(population: seq<SurveyRow>): seq<Aggregate<PeriodKey>> {
    KeyLessIsStrictTotalOrder();
    GroupedSums(population, RowKey, Weight, KeyLess)
  }

  /** The keys of the reference population, in the order of the result. */
  function ResultKeys(rows: seq<SurveyRow>): (ks: seq<PeriodKey>)
    ensures StrictlySorted(ks, KeyLess)
    ensures forall k :: k in ks <==> exists r :: r in Reference(rows) && RowKey(r) == Some(k)
  {
    KeyLessIsStrictTotalOrder();
    SortedKeys(Reference(rows), RowKey, KeyLess)
  }

  predicate NonZeroValues(g: seq<Aggregate<PeriodKey>>) {
    forall i :: 0 <= i < |g| ==> g[i].value != 0.0
  }

  /**
   * The source leaves a zero Total_PTR unhandled (the division gives NaN or
   * inf); callers must not pass rows where a reference group weighs 0.
   */
  predicate TotalsNonZero(rows: seq<SurveyRow>) {
    NonZeroValues(Grouped(Reference(rows)))
  }

  // ---------------------------------------------------------------------------
  // Result rows

  datatype RateRow = RateRow(
    key: PeriodKey,
    totalPtr: real,
    poblacionActiva: real,
    poblacionOcupada: real,
    poblacionDesocupada: real,
    tasaEmpleo: real,
    tasaActividad: real,
    tasaDesocupacion: real,
    periodo: real
  )

  /**
   * One row of the merged frame: the Total_PTR row, with the other three sums
   * picked up by left merges and filled with 0 when their key is absent, the
   * three rates, and PERIODO.
   */
  function MergeRow(total: Aggregate<PeriodKey>, activas: seq<Aggregate<PeriodKey>>,
                    ocupadas: seq<Aggregate<PeriodKey>>, desocupadas: seq<Aggregate<PeriodKey>>): RateRow
    requires total.value != 0.0
  {
    var k := total.key;
    var activa := Lookup(activas, k).GetOr(0.0);
    var ocupada := Lookup(ocupadas, k).GetOr(0.0);
    var desocupada := Lookup(desocupadas, k).GetOr(0.0);
    RateRow(
      k, total.value, activa, ocupada, desocupada,
      (ocupada / total.value) * 100.0,
      (activa / total.value) * 100.0,
      if activa == 0.0 then 0.0 else (desocupada / activa) * 100.0,
      Periodo(k.ano4, k.trimestre))
  }

  /** The three left merges onto the Total_PTR table, row by row in its order. */
  function MergeRates(totals: seq<Aggregate<PeriodKey>>, activas: seq<Aggregate<PeriodKey>>,
                      ocupadas: seq<Aggregate<PeriodKey>>, desocupadas: seq<Aggregate<PeriodKey>>): (t: seq<RateRow>)
    requires NonZeroValues(totals)
    ensures |t| == |totals|
  {
    seq(|totals|, i requires 0 <= i < |totals| => MergeRow(totals[i], activas, ocupadas, desocupadas))
  }

  /** The result of the calculator: one row per reference group, in key order. */
  function RateTable(rows: seq<SurveyRow>): seq<RateRow>
    requires TotalsNonZero(rows)
  {
    MergeRates(Grouped(Reference(rows)), Grouped(Active(rows)), Grouped(Employed(rows)), Grouped(Unemployed(rows)))
  }

  /**
   * `calcular_tasa_empleo_por_aglomerado(aglomerado, df)`: coerces four
   * columns of the caller's frame in place, then computes the rate table of
   * the whole frame. The `aglomerado` argument is not used.
   */
  method CalcularTasaEmpleoPorAglomerado(aglomerado: int, df: SurveyFrame) returns (resultado: seq<RateRow>)
    requires TotalsNonZero(df.rows)
    modifies df
    ensures df.rows == Map(old(df.rows), CoerceRow)
    ensures TotalsNonZero(df.rows)
    ensures resultado == RateTable(old(df.rows)) == RateTable(df.rows)
  {
    ghost var before := df.rows;
    df.rows := Map(df.rows, CoerceRow);
    CoercionPreservesRateTable(before);
    resultado := RateTable(df.rows);
  }

  // ---------------------------------------------------------------------------
  // Properties

  /** Coercing the four columns changes nothing any population, key or weight reads. */
  lemma CoercionPreservesRateTable(rows: seq<SurveyRow>)
    ensures TotalsNonZero(Map(rows, CoerceRow)) <==> TotalsNonZero(rows)
    ensures TotalsNonZero(rows) ==> RateTable(Map(rows, CoerceRow)) == RateTable(rows)
  {
    var ref := Reference(rows);
    FilterMap(rows, CoerceRow, InReference);
    assert Reference(Map(rows, CoerceRow)) == Map(ref, CoerceRow);
    FilterMap(ref, CoerceRow, IsActive);
    FilterMap(ref, CoerceRow, IsEmployed);
    FilterMap(ref, CoerceRow, IsUnemployed);
    GroupedMap(ref);
    GroupedMap(Filter(ref, IsActive));
    GroupedMap(Filter(ref, IsEmployed));
    GroupedMap(Filter(ref, IsUnemployed));
  }

  /** Coercion leaves a population's grouped table as it was. */
  lemma GroupedMap(population: seq<SurveyRow>)
    ensures Grouped(Map(population, CoerceRow)) == Grouped(population)
  {
    KeyLessIsStrictTotalOrder();
    GroupedSumsMap(population, CoerceRow, RowKey, Weight, KeyLess);
  }

  /** Rows that are not in the reference population (under 14, or no numeric age) change nothing. */
  lemma NonReferenceRowIgnored(a: seq<SurveyRow>, r: SurveyRow, b: seq<SurveyRow>)
    requires !InReference(r)
    ensures Reference(a + [r] + b) == Reference(a + b)
    ensures TotalsNonZero(a + [r] + b) <==> TotalsNonZero(a + b)
    ensures TotalsNonZero(a + b) ==> RateTable(a + [r] + b) == RateTable(a + b)
  {
    FilterAppend(a + [r], b, InReference);
    FilterAppend(a, [r], InReference);
    FilterAppend(a, b, InReference);
    assert Filter([r], InReference) == [];
  }

  /** Row i of the result is the merge of the i-th reference group with the three subset tables. */
  lemma RateTableAt(rows: seq<SurveyRow>, i: nat)
    requires TotalsNonZero(rows)
    requires i < |RateTable(rows)|
    ensures |RateTable(rows)| == |ResultKeys(rows)|
    ensures |Grouped(Reference(rows))| == |RateTable(rows)|
    ensures Grouped(Reference(rows))[i] == Aggregate(ResultKeys(rows)[i], WeightSum(Reference(rows), ResultKeys(rows)[i]))
    ensures RateTable(rows)[i] == MergeRow(Grouped(Reference(rows))[i], Grouped(Active(rows)), Grouped(Employed(rows)), Grouped(Unemployed(rows)))
  {
    KeyLessIsStrictTotalOrder();
    GroupedSumsAt(Reference(rows), RowKey, Weight, KeyLess, i);
  }

  /** The result has exactly one row per key of the reference population, in strictly increasing key order. */
  lemma RateTableKeys(rows: seq<SurveyRow>)
    requires TotalsNonZero(rows)
    ensures forall i, j :: 0 <= i < j < |RateTable(rows)| ==> KeyLess(RateTable(rows)[i].key, RateTable(rows)[j].key)
    ensures forall k :: (exists i :: 0 <= i < |RateTable(rows)| && RateTable(rows)[i].key == k) <==>
                        (exists r :: r in rows && InReference(r) && RowKey(r) == Some(k))
  {
    var t := RateTable(rows);
    var ks := ResultKeys(rows);
    forall i | 0 <= i < |t| ensures t[i].key == ks[i] {
      RateTableAt(rows, i);
    }
    forall k ensures (exists i :: 0 <= i < |t| && t[i].key == k) <==> k in ks {
      if k in ks {
        var i :| 0 <= i < |ks| && ks[i] == k;
        assert t[i].key == k;
      }
    }
    forall k ensures k in ks <==> exists r :: r in rows && InReference(r) && RowKey(r) == Some(k) {
      if k in ks {
        var r :| r in Reference(rows) && RowKey(r) == Some(k);
        assert r in rows && InReference(r);
      }
      if exists r :: r in rows && InReference(r) && RowKey(r) == Some(k) {
        var r :| r in rows && InReference(r) && RowKey(r) == Some(k);
        assert r in Reference(rows);
      }
    }
  }

  /**
   * Each result row holds the weighted sums of its key: a subset with no rows
   * for the key contributes 0, and the active population is the employed plus
   * the unemployed population.
   */
  lemma RateTableSums(rows: seq<SurveyRow>, i: nat)
    requires TotalsNonZero(rows)
    requires i < |RateTable(rows)|
    ensures var row := RateTable(rows)[i];
      && row.key == ResultKeys(rows)[i]
      && row.totalPtr == WeightSum(Reference(rows), row.key)
      && row.poblacionActiva == WeightSum(Active(rows), row.key)
      && row.poblacionOcupada == WeightSum(Employed(rows), row.key)
      && row.poblacionDesocupada == WeightSum(Unemployed(rows), row.key)
      && row.poblacionActiva == row.poblacionOcupada + row.poblacionDesocupada
  {
    RateTableAt(rows, i);
    var k := ResultKeys(rows)[i];
    KeyLessIsStrictTotalOrder();
    LeftMergeFillZero(Active(rows), RowKey, Weight, KeyLess, k);
    LeftMergeFillZero(Employed(rows), RowKey, Weight, KeyLess, k);
    LeftMergeFillZero(Unemployed(rows), RowKey, Weight, KeyLess, k);
    ActiveIsEmployedPlusUnemployed(rows, k);
  }

  /** The rates of a row are the sums' quotients: employment and activity over Total_PTR, unemployment over Activa. */
  lemma RateTableRates(rows: seq<SurveyRow>, i: nat)
    requires TotalsNonZero(rows)
    requires i < |RateTable(rows)|
    ensures var row := RateTable(rows)[i];
      && row.totalPtr != 0.0
      && row.tasaEmpleo == (row.poblacionOcupada / row.totalPtr) * 100.0
      && row.tasaActividad == (row.poblacionActiva / row.totalPtr) * 100.0
      && row.tasaDesocupacion == (if row.poblacionActiva == 0.0 then 0.0 else (row.poblacionDesocupada / row.poblacionActiva) * 100.0)
      && row.periodo == Periodo(row.key.ano4, row.key.trimestre)
  {
    RateTableAt(rows, i);
  }

  /** ESTADO in {1, 2} splits into ESTADO = 1 and ESTADO = 2, so the sums add up. */
  lemma ActiveIsEmployedPlusUnemployed(rows: seq<SurveyRow>, k: PeriodKey)
    ensures WeightSum(Active(rows), k) == WeightSum(Employed(rows), k) + WeightSum(Unemployed(rows), k)
  {
    GroupSumFilterSplit(Reference(rows), IsActive, IsEmployed, IsUnemployed, RowKey, Weight, k);
  }

  ghost predicate NonNegativeWeights(rows: seq<SurveyRow>) {
    forall r :: r in rows && Weight(r).Some? ==> Weight(r).value >= 0.0
  }

  /** With non-negative weights the four populations of a key nest by weight. */
  lemma PopulationsNest(rows: seq<SurveyRow>, k: PeriodKey)
    requires NonNegativeWeights(rows)
    ensures 0.0 <= WeightSum(Employed(rows), k) <= WeightSum(Active(rows), k) <= WeightSum(Reference(rows), k)
    ensures 0.0 <= WeightSum(Unemployed(rows), k) <= WeightSum(Active(rows), k)
  {
    var ref := Reference(rows);
    assert NonNegativeValues(rows, Weight);
    GroupSumFilterBelow(rows, InReference, RowKey, Weight, k);
    assert NonNegativeValues(ref, Weight);
    GroupSumFilterBelow(ref, IsActive, RowKey, Weight, k);
    GroupSumFilterBelow(ref, IsEmployed, RowKey, Weight, k);
    GroupSumFilterBelow(ref, IsUnemployed, RowKey, Weight, k);
    ActiveIsEmployedPlusUnemployed(rows, k);
  }

  /**
   * With non-negative weights the populations nest by weight
   * (employed and unemployed within active within reference), every rate lies
   * in [0, 100], the employment rate never exceeds the activity rate, and the
   * unemployment rate is 0 exactly when nobody is unemployed.
   */
  lemma RateBounds(rows: seq<SurveyRow>, i: nat)
    requires TotalsNonZero(rows) && NonNegativeWeights(rows)
    requires i < |RateTable(rows)|
    ensures var row := RateTable(rows)[i];
      && 0.0 <= row.poblacionOcupada <= row.poblacionActiva <= row.totalPtr
      && 0.0 <= row.poblacionDesocupada <= row.poblacionActiva
      && 0.0 < row.totalPtr
      && 0.0 <= row.tasaEmpleo <= row.tasaActividad <= 100.0
      && 0.0 <= row.tasaDesocupacion <= 100.0
      && (row.poblacionActiva == 0.0 ==> row.tasaDesocupacion == 0.0)
      && (row.tasaDesocupacion == 0.0 <==> row.poblacionDesocupada == 0.0)
  {
    var row := RateTable(rows)[i];
    RateTableSums(rows, i);
    RateTableRates(rows, i);
    PopulationsNest(rows, row.key);
    RatesInRange(row.poblacionOcupada, row.poblacionDesocupada, row.poblacionActiva, row.totalPtr,
                 row.tasaEmpleo, row.tasaActividad, row.tasaDesocupacion);
  }

  /** The arithmetic behind the bounds, apart from any table. */
  lemma RatesInRange(o: real, d: real, a: real, t: real, te: real, ta: real, td: real)
    requires 0.0 <= o <= a <= t && 0.0 <= d <= a && t != 0.0
    requires te == (o / t) * 100.0 && ta == (a / t) * 100.0
    requires td == (if a == 0.0 then 0.0 else (d / a) * 100.0)
    ensures 0.0 < t
    ensures 0.0 <= te <= ta <= 100.0
    ensures 0.0 <= td <= 100.0
    ensures td == 0.0 <==> d == 0.0
  {
    DivBounds(o, a, t);
    DivBounds(a, t, t);
    if a != 0.0 {
      DivBounds(d, a, a);
    }
  }

  lemma DivBounds(x: real, y: real, t: real)
    requires 0.0 <= x <= y && t > 0.0
    ensures 0.0 <= (x / t) * 100.0 <= (y / t) * 100.0
    ensures (y == t ==> (y / t) * 100.0 == 100.0)
    ensures x == 0.0 <==> (x / t) * 100.0 == 0.0
  {
  }

  /** Along the table PERIODO never decreases, because rows come in key order. */
  lemma PeriodoNonDecreasing(rows: seq<SurveyRow>, i: nat, j: nat)
    requires TotalsNonZero(rows)
    requires i <= j < |RateTable(rows)|
    requires 1 <= RateTable(rows)[i].key.trimestre <= 4 && 1 <= RateTable(rows)[j].key.trimestre <= 4
    ensures RateTable(rows)[i].periodo <= RateTable(rows)[j].periodo
  {
    RowPeriodo(rows, i);
    RowPeriodo(rows, j);
    if i < j {
      ResultKeysOrdered(rows, i, j);
    }
    PeriodoMonotone(RateTable(rows)[i], RateTable(rows)[j], i < j);
  }

  /** Rows whose keys are ordered (or that are the same row) have ordered PERIODO values. */
  lemma PeriodoMonotone(a: RateRow, b: RateRow, ordered: bool)
    requires ordered ==> KeyLess(a.key, b.key)
    requires !ordered ==> a == b
    requires 1 <= a.key.trimestre <= 4 && 1 <= b.key.trimestre <= 4
    requires a.periodo == Periodo(a.key.ano4, a.key.trimestre) && b.periodo == Periodo(b.key.ano4, b.key.trimestre)
    ensures a.periodo <= b.periodo
  {
    if ordered {
      KeyPeriodo(a.key, b.key);
    }
  }

  lemma ResultKeysOrdered(rows: seq<SurveyRow>, i: nat, j: nat)
    requires i < j < |ResultKeys(rows)|
    ensures KeyLess(ResultKeys(rows)[i], ResultKeys(rows)[j])
  {
  }

  /** Row i of the table carries the i-th key and that key's PERIODO. */
  lemma RowPeriodo(rows: seq<SurveyRow>, i: nat)
    requires TotalsNonZero(rows)
    requires i < |RateTable(rows)|
    ensures i < |ResultKeys(rows)|
    ensures RateTable(rows)[i].key == ResultKeys(rows)[i]
    ensures RateTable(rows)[i].periodo == Periodo(ResultKeys(rows)[i].ano4, ResultKeys(rows)[i].trimestre)
  {
    RateTableAt(rows, i);
  }

}
