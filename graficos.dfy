/**
 * The numbers behind the two charts: the weighted mean real income per
 * (ANO4, TRIMESTRE, AGLOMERADO) with its PERIODO index, and the size of the
 * grid of per-area panels.
 */
module Graficos {
  import opened Common
  import opened Tables
  import opened Survey
  import opened MediaIngresos

  // ---------------------------------------------------------------------------
  // Weighted mean real income

  /** The group of a deflated row, with AGLOMERADO read as a number. */
  function IncomeKey(o: IncomeRow): Option<PeriodKey> {
    RowKey(o.row)
  }

  function Ponderado(o: IncomeRow): Option<real> {
    o.p21PonderadoReal
  }

  function Pondiio(o: IncomeRow): Option<real> {
    o.row.pondiio
  }

  function RealIncome(o: IncomeRow): Option<real> {
    o.p21Real
  }

  /** `Suma_P21_Ponderado_Real`: the weighted real income summed per key. */
  function NumeratorTable(rows: seq<IncomeRow>): seq<Aggregate<PeriodKey>> {
    KeyLessIsStrictTotalOrder();
    GroupedSums(rows, IncomeKey, Ponderado, KeyLess)
  }

  /** `Suma_PONDIIO`: the income weight summed per key. */
  function DenominatorTable(rows: seq<IncomeRow>): seq<Aggregate<PeriodKey>> {
    KeyLessIsStrictTotalOrder();
    GroupedSums(rows, IncomeKey, Pondiio, KeyLess)
  }

  datatype SumsRow = SumsRow(key: PeriodKey, sumaPonderado: real, sumaPondiio: real)

  /** The inner merge of the two sum tables on the key, in the numerator table's order. */
  function MergeOnKey(num: seq<Aggregate<PeriodKey>>, den: seq<Aggregate<PeriodKey>>): (m: seq<SumsRow>)
    ensures |m| <= |num|
  {
    if num == [] then []
    else
      var rest := MergeOnKey(num[1..], den);
      match Lookup(den, num[0].key)
      case Some(d) => [SumsRow(num[0].key, num[0].value, d)] + rest
      case None => rest
  }

  /** When every key of the numerator is in the denominator, the inner merge keeps every row. */
  lemma {:induction false} MergeOnKeyAll(num: seq<Aggregate<PeriodKey>>, den: seq<Aggregate<PeriodKey>>)
    requires forall i :: 0 <= i < |num| ==> Lookup(den, num[i].key).Some?
    ensures |MergeOnKey(num, den)| == |num|
    ensures forall i :: 0 <= i < |num| ==>
      MergeOnKey(num, den)[i] == SumsRow(num[i].key, num[i].value, Lookup(den, num[i].key).value)
  {
    if num != [] {
      assert Lookup(den, num[0].key).Some?;
      assert forall i :: 1 <= i < |num| ==> num[1..][i - 1] == num[i];
      MergeOnKeyAll(num[1..], den);
    }
  }

  function MergedSums(rows: seq<IncomeRow>): seq<SumsRow> {
    MergeOnKey(NumeratorTable(rows), DenominatorTable(rows))
  }

  /** The source divides with no guard; a key whose income weights sum to 0 is excluded by the caller. */
  predicate WeightSumsNonZero(rows: seq<IncomeRow>) {
    forall i :: 0 <= i < |MergedSums(rows)| ==> MergedSums(rows)[i].sumaPondiio != 0.0
  }

  datatype MeanIncomeRow = MeanIncomeRow(
    key: PeriodKey,
    sumaPonderado: real,
    sumaPondiio: real,
    mediaIngresoReal: real,
    periodo: real
  )

  /** `df_media` of `graficar_media_ingreso_real`: sums, their quotient and PERIODO, per key. */
  function MediaIngresoReal(rows: seq<IncomeRow>): (t: seq<MeanIncomeRow>)
    requires WeightSumsNonZero(rows)
    ensures |t| == |MergedSums(rows)|
  {
    var m := MergedSums(rows);
    seq(|m|, i requires 0 <= i < |m| =>
      MeanIncomeRow(m[i].key, m[i].sumaPonderado, m[i].sumaPondiio,
                    m[i].sumaPonderado / m[i].sumaPondiio, Periodo(m[i].key.ano4, m[i].key.trimestre)))
  }

  function IncomeKeys(rows: seq<IncomeRow>): seq<PeriodKey> {
    KeyLessIsStrictTotalOrder();
    SortedKeys(rows, IncomeKey, KeyLess)
  }

  /**
   * Both sum tables group the same rows by the same key, so the merge loses
   * no key: the merged table has one row per key of the deflated rows, in key
   * order, holding that key's two sums.
   */
  lemma MergedSumsAt(rows: seq<IncomeRow>, i: nat)
    requires i < |IncomeKeys(rows)|
    ensures |MergedSums(rows)| == |IncomeKeys(rows)|
    ensures MergedSums(rows)[i] ==
      SumsRow(IncomeKeys(rows)[i], GroupSum(rows, IncomeKey, Ponderado, IncomeKeys(rows)[i]), GroupSum(rows, IncomeKey, Pondiio, IncomeKeys(rows)[i]))
  {
    KeyLessIsStrictTotalOrder();
    var num, den, ks := NumeratorTable(rows), DenominatorTable(rows), IncomeKeys(rows);
    forall j | 0 <= j < |num| ensures Lookup(den, num[j].key).Some? && Lookup(den, num[j].key).value == GroupSum(rows, IncomeKey, Pondiio, ks[j]) {
      GroupedSumsAt(rows, IncomeKey, Ponderado, KeyLess, j);
      assert ks[j] in ks;
      LeftMergeFillZero(rows, IncomeKey, Pondiio, KeyLess, ks[j]);
    }
    MergeOnKeyAll(num, den);
    GroupedSumsAt(rows, IncomeKey, Ponderado, KeyLess, i);
  }

  /**
   * Each row of the mean-income table: its key is the i-th key of the
   * deflated rows, its sums are that key's sums of P21_PONDERADO_REAL and of
   * PONDIIO, the mean is their quotient and PERIODO is ANO4 + (TRIMESTRE - 1) / 4.
   */
  lemma MediaIngresoRealRows(rows: seq<IncomeRow>, i: nat)
    requires WeightSumsNonZero(rows)
    requires i < |MediaIngresoReal(rows)|
    ensures |MediaIngresoReal(rows)| == |IncomeKeys(rows)|
    ensures var row := MediaIngresoReal(rows)[i];
      && row.key == IncomeKeys(rows)[i]
      && row.sumaPonderado == GroupSum(rows, IncomeKey, Ponderado, row.key)
      && row.sumaPondiio == GroupSum(rows, IncomeKey, Pondiio, row.key)
      && row.sumaPondiio != 0.0
      && row.mediaIngresoReal == row.sumaPonderado / row.sumaPondiio
      && row.periodo == Periodo(row.key.ano4, row.key.trimestre)
  {
    KeyLessIsStrictTotalOrder();
    var ks := IncomeKeys(rows);
    if |MergedSums(rows)| != |ks| {
      MergedSumsLength(rows);
    }
    MergedSumsAt(rows, i);
  }

  lemma MergedSumsLength(rows: seq<IncomeRow>)
    ensures |MergedSums(rows)| == |IncomeKeys(rows)|
  {
    if |IncomeKeys(rows)| > 0 {
      MergedSumsAt(rows, 0);
    } else {
      KeyLessIsStrictTotalOrder();
      assert |NumeratorTable(rows)| == 0;
    }
  }

  /** The mean-income table has one row per key of the deflated rows, in strictly increasing key order. */
  lemma MediaIngresoRealKeys(rows: seq<IncomeRow>)
    requires WeightSumsNonZero(rows)
    ensures forall i, j :: 0 <= i < j < |MediaIngresoReal(rows)| ==> KeyLess(MediaIngresoReal(rows)[i].key, MediaIngresoReal(rows)[j].key)
    ensures forall k :: (exists i :: 0 <= i < |MediaIngresoReal(rows)| && MediaIngresoReal(rows)[i].key == k) <==>
      (exists o :: o in rows && IncomeKey(o) == Some(k))
  {
    var t, ks := MediaIngresoReal(rows), IncomeKeys(rows);
    MergedSumsLength(rows);
    forall i | 0 <= i < |t| ensures t[i].key == ks[i] {
      MediaIngresoRealRows(rows, i);
    }
    KeyLessIsStrictTotalOrder();
    forall k ensures (exists i :: 0 <= i < |t| && t[i].key == k) <==> k in ks {
      if k in ks {
        var i :| 0 <= i < |ks| && ks[i] == k;
        assert t[i].key == k;
      }
    }
  }

  /** A deflated row as `deflacionar_ingresos` leaves it: a real income, and its product with PONDIIO. */
  predicate WeightedIncome(o: IncomeRow) {
    o.p21Real.Some? && o.p21PonderadoReal == Multiply(o.p21Real, o.row.pondiio)
  }

  lemma DeflatedRowsAreWeighted(eph: seq<SurveyRow>, loaded: Option<seq<Utils.IpcRow>>)
    requires DeflacionarIngresos(eph, loaded).Ok?
    ensures forall o :: o in DeflacionarIngresos(eph, loaded).value ==> WeightedIncome(o)
  {
    var defl := GetDeflactores(loaded).value;
    DeflateRowsSound(eph, defl);
    forall o | o in DeflacionarIngresos(eph, loaded).value ensures WeightedIncome(o) {
      var r, d :| r in eph && d in defl && Derived(o, r, d);
    }
  }

  /**
   * With non-negative income weights, the weighted mean of a key lies
   * between any bounds of the key's real incomes: between their minimum and
   * maximum.
   */
  function SumaPonderado(r: MeanIncomeRow): real {
    r.sumaPonderado
  }

  function SumaPondiio(r: MeanIncomeRow): real {
    r.sumaPondiio
  }

  /** One column of the mean-income table, added down all its rows. */
  function ColumnTotal(t: seq<MeanIncomeRow>, col: MeanIncomeRow -> real): real {
    if t == [] then 0.0 else col(t[0]) + ColumnTotal(t[1..], col)
  }

  /** A column holding the group sums for the keys `ks`, row by row, totals to their sum over those keys. */
  lemma {:induction false} ColumnTotalOverKeys(t: seq<MeanIncomeRow>, col: MeanIncomeRow -> real, rows: seq<IncomeRow>,
                                               val: IncomeRow -> Option<real>, ks: seq<PeriodKey>)
    requires |t| == |ks|
    requires forall i :: 0 <= i < |t| ==> col(t[i]) == GroupSum(rows, IncomeKey, val, ks[i])
    ensures ColumnTotal(t, col) == SumOverKeys(rows, IncomeKey, val, ks)
  {
    if t != [] {
      assert col(t[0]) == GroupSum(rows, IncomeKey, val, ks[0]);
      ColumnTotalOverKeys(t[1..], col, rows, val, ks[1..]);
    }
  }

  /**
   * Grouping loses no income: the two sum columns of the mean-income table
   * add up to the totals over every deflated row with a key, so the ratio of
   * the column totals is the weighted mean of the ungrouped table.
   */
  lemma MediaIngresoRealTotals(rows: seq<IncomeRow>)
    requires WeightSumsNonZero(rows)
    ensures ColumnTotal(MediaIngresoReal(rows), SumaPonderado) == KeyedSum(rows, IncomeKey, Ponderado)
    ensures ColumnTotal(MediaIngresoReal(rows), SumaPondiio) == KeyedSum(rows, IncomeKey, Pondiio)
    ensures KeyedSum(rows, IncomeKey, Pondiio) != 0.0 ==>
      ColumnTotal(MediaIngresoReal(rows), SumaPonderado) / ColumnTotal(MediaIngresoReal(rows), SumaPondiio) ==
      KeyedSum(rows, IncomeKey, Ponderado) / KeyedSum(rows, IncomeKey, Pondiio)
  {
    KeyLessIsStrictTotalOrder();
    var t := MediaIngresoReal(rows);
    var ks := IncomeKeys(rows);
    MergedSumsLength(rows);
    forall i | 0 <= i < |t|
      ensures SumaPonderado(t[i]) == GroupSum(rows, IncomeKey, Ponderado, ks[i])
      ensures SumaPondiio(t[i]) == GroupSum(rows, IncomeKey, Pondiio, ks[i])
    {
      MediaIngresoRealRows(rows, i);
    }
    ColumnTotalOverKeys(t, SumaPonderado, rows, Ponderado, ks);
    ColumnTotalOverKeys(t, SumaPondiio, rows, Pondiio, ks);
    SortedIsDistinct(ks, KeyLess);
    SumOverKeysIsKeyedSum(rows, IncomeKey, Ponderado, ks);
    SumOverKeysIsKeyedSum(rows, IncomeKey, Pondiio, ks);
  }

  lemma MediaIngresoRealBounds(rows: seq<IncomeRow>, i: nat, lo: real, hi: real)
    requires WeightSumsNonZero(rows)
    requires i < |MediaIngresoReal(rows)|
    requires forall o :: o in rows ==> WeightedIncome(o)
    requires forall o :: o in rows && o.row.pondiio.Some? ==> o.row.pondiio.value >= 0.0
    requires forall o :: o in rows && IncomeKey(o) == Some(MediaIngresoReal(rows)[i].key) ==>
      o.p21Real.Some? && lo <= o.p21Real.value <= hi
    ensures lo <= MediaIngresoReal(rows)[i].mediaIngresoReal <= hi
  {
    MediaIngresoRealRows(rows, i);
    WeightedMeanBounds(rows, MediaIngresoReal(rows)[i].key, lo, hi);
  }

  /** The weighted mean of one key lies between bounds of its real incomes. */
  lemma WeightedMeanBounds(rows: seq<IncomeRow>, k: PeriodKey, lo: real, hi: real)
    requires forall o :: o in rows ==> WeightedIncome(o)
    requires forall o :: o in rows && o.row.pondiio.Some? ==> o.row.pondiio.value >= 0.0
    requires forall o :: o in rows && IncomeKey(o) == Some(k) ==> o.p21Real.Some? && lo <= o.p21Real.value <= hi
    requires GroupSum(rows, IncomeKey, Pondiio, k) != 0.0
    ensures lo <= GroupSum(rows, IncomeKey, Ponderado, k) / GroupSum(rows, IncomeKey, Pondiio, k) <= hi
  {
    forall j | 0 <= j < |rows| && IncomeKey(rows[j]) == Some(k) ensures WeightedRow(rows[j], RealIncome, Pondiio, Ponderado, lo, hi) {
      assert rows[j] in rows;
    }
    WeightedSumBounds(rows, IncomeKey, RealIncome, Pondiio, Ponderado, k, lo, hi);
    assert NonNegativeValues(rows, Pondiio);
    GroupSumNonNegative(rows, IncomeKey, Pondiio, k);
    QuotientBounds(GroupSum(rows, IncomeKey, Ponderado, k), GroupSum(rows, IncomeKey, Pondiio, k), lo, hi);
  }

  // ---------------------------------------------------------------------------
  // Panel grid

  const Ncols: nat := 2

  /** `int(np.ceil(n / ncols))`: the fewest rows of two panels that hold n panels. */
  function GridRows(n: nat): (r: nat)
    ensures Ncols * r >= n
    ensures r == 0 || Ncols * (r - 1) < n
  {
    (n + Ncols - 1) / Ncols
  }

  /** The panel indices left empty and deleted: `range(n, nrows * ncols)`. */
  function DeletedAxes(n: nat): (d: seq<nat>)
    ensures forall j :: 0 <= j < |d| ==> d[j] == n + j
  {
    seq(Ncols * GridRows(n) - n, j requires 0 <= j < Ncols * GridRows(n) - n => n + j)
  }

  /**
   * The grid has one spare panel exactly when the number of areas is odd;
   * the used and deleted panels together fill the grid.
   */
  lemma GridFits(n: nat)
    ensures |DeletedAxes(n)| <= 1
    ensures |DeletedAxes(n)| == 1 <==> n % 2 == 1
    ensures n + |DeletedAxes(n)| == Ncols * GridRows(n)
    ensures forall j :: j in DeletedAxes(n) ==> n <= j < Ncols * GridRows(n)
  {
  }
}
