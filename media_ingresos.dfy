/**
 * Real income: the quarterly price index normalised against the base quarter
 * (2025, 1), joined onto the survey rows by (year, quarter), and used to
 * deflate the income column P21 and weight it by PONDIIO.
 */
module MediaIngresos {
  import opened Common
  import opened Tables
  import opened Survey
  import opened Utils

  // ---------------------------------------------------------------------------
  // Deflators

  const BaseYear: real := 2025.0
  const BaseQuarter: int := 1

  /** One row of the deflator table: the quarterly index and `Deflactor_normalizado`. */
  datatype DeflatorRow = DeflatorRow(anio: real, trimestre: int, indice: Option<real>, deflactor: Option<real>)

  /** Why the deflator table cannot be built: no price series, or no row for the base quarter. */
  datatype DeflatorError = IpcUnavailable | BaseQuarterMissing

  predicate IsBase(q: IpcQuarter) {
    q.anio == BaseYear && q.trimestre == BaseQuarter
  }

  /**
   * `t[(ANIO == 2025) & (TRIMESTRE == 1)]['INDICE'].iloc[0]`: the index of the
   * first base-quarter row (itself possibly missing), or None when no row is
   * for the base quarter.
   */
  function BaseIpc(t: seq<IpcQuarter>): (b: Option<Option<real>>)
    ensures b.None? <==> forall i :: 0 <= i < |t| ==> !IsBase(t[i])
    ensures b.Some? ==> exists i :: 0 <= i < |t| && IsBase(t[i]) && t[i].indice == b.value
  {
    if t == [] then None
    else if IsBase(t[0]) then Some(t[0].indice)
    else
      var b := BaseIpc(t[1..]);
      assert forall i :: 1 <= i < |t| ==> t[i] == t[1..][i - 1];
      b
  }

  /** Division of possibly missing numbers; a missing operand or a zero divisor gives missing. */
  function Divide(x: Option<real>, y: Option<real>): (r: Option<real>)
    ensures r.Some? <==> x.Some? && y.Some? && y.value != 0.0
    ensures r.Some? ==> r.value * y.value == x.value
  {
    if x.Some? && y.Some? && y.value != 0.0 then Some(x.value / y.value) else None
  }

  /** Multiplication of possibly missing numbers; missing if either is. */
  function Multiply(x: Option<real>, y: Option<real>): (r: Option<real>)
    ensures r.Some? <==> x.Some? && y.Some?
  {
    if x.Some? && y.Some? then Some(x.value * y.value) else None
  }

  /** `INDICE / BASE_IPC`, row by row. */
  function Normalise(t: seq<IpcQuarter>, base: Option<real>): (d: seq<DeflatorRow>)
    ensures |d| == |t|
  {
    seq(|t|, i requires 0 <= i < |t| => DeflatorRow(t[i].anio, t[i].trimestre, t[i].indice, Divide(t[i].indice, base)))
  }

  /**
   * `get_deflactores()`: the quarterly series normalised by the base quarter's
   * index. Fails when the series is unavailable (the source then subscripts
   * None) or has no base-quarter row (`.iloc[0]` on an empty selection).
   */
  function GetDeflactores(loaded: Option<seq<IpcRow>>): (r: Result<seq<DeflatorRow>, DeflatorError>)
    ensures r == Err(IpcUnavailable) <==> loaded.None?
    ensures r == Err(BaseQuarterMissing) <==> loaded.Some? && BaseIpc(IpcTable(loaded.value)).None?
    ensures r.Ok? ==> |r.value| == |IpcTable(loaded.value)|
  {
    match CalcularIpcTrimestral(loaded)
    case None => Err(IpcUnavailable)
    case Some(t) =>
      match BaseIpc(t)
      case None => Err(BaseQuarterMissing)
      case Some(b) => Ok(Normalise(t, b))
  }

  /** Each deflator row is its quarter's index over the base quarter's index. */
  lemma DeflatorRows(loaded: Option<seq<IpcRow>>, i: nat)
    requires GetDeflactores(loaded).Ok?
    requires i < |GetDeflactores(loaded).value|
    ensures var d := GetDeflactores(loaded).value[i];
      var q := IpcTable(loaded.value)[i];
      && d.anio == q.anio && d.trimestre == q.trimestre && d.indice == q.indice
      && d.deflactor == Divide(q.indice, BaseIpc(IpcTable(loaded.value)).value)
  {
  }

  /**
   * The base quarter's own deflator is exactly 1 whenever its index is a
   * non-zero number: the quarterly table has one row per quarter, so the
   * row found as base is that row.
   */
  lemma BaseDeflatorIsOne(loaded: Option<seq<IpcRow>>, i: nat)
    requires GetDeflactores(loaded).Ok?
    requires i < |GetDeflactores(loaded).value|
    requires GetDeflactores(loaded).value[i].anio == BaseYear && GetDeflactores(loaded).value[i].trimestre == BaseQuarter
    requires GetDeflactores(loaded).value[i].indice.Some? && GetDeflactores(loaded).value[i].indice.value != 0.0
    ensures GetDeflactores(loaded).value[i].deflactor == Some(1.0)
  {
    var t := IpcTable(loaded.value);
    DeflatorRows(loaded, i);
    BaseRowIsFound(loaded.value, i);
    var x := t[i].indice.value;
    assert Divide(Some(x), Some(x)) == Some(1.0);
  }

  /** In the quarterly table the base row, when present, is the one `BaseIpc` finds. */
  lemma BaseRowIsFound(rows: seq<IpcRow>, i: nat)
    requires i < |IpcTable(rows)| && IsBase(IpcTable(rows)[i])
    ensures BaseIpc(IpcTable(rows)) == Some(IpcTable(rows)[i].indice)
  {
    var t := IpcTable(rows);
    var j :| 0 <= j < |t| && IsBase(t[j]) && t[j].indice == BaseIpc(t).value;
    if i < j {
      IpcTableDistinct(rows, i, j);
    } else if j < i {
      IpcTableDistinct(rows, j, i);
    }
  }

  /** Deflator rows are for distinct (year, quarter) pairs. */
  predicate UniqueQuarters(defl: seq<DeflatorRow>) {
    forall i, j :: 0 <= i < j < |defl| ==> defl[i].anio != defl[j].anio || defl[i].trimestre != defl[j].trimestre
  }

  lemma DeflatorQuartersUnique(loaded: Option<seq<IpcRow>>)
    requires GetDeflactores(loaded).Ok?
    ensures UniqueQuarters(GetDeflactores(loaded).value)
  {
    var d := GetDeflactores(loaded).value;
    forall i, j | 0 <= i < j < |d| ensures d[i].anio != d[j].anio || d[i].trimestre != d[j].trimestre {
      DeflatorRows(loaded, i);
      DeflatorRows(loaded, j);
      IpcTableDistinct(loaded.value, i, j);
    }
  }

  // ---------------------------------------------------------------------------
  // Inner join and deflation

  /** A survey row joined with the deflator of its quarter. */
  datatype MergedRow = MergedRow(row: SurveyRow, deflactor: Option<real>)

  /** `left_on=['ANO4', 'TRIMESTRE'], right_on=['ANIO', 'TRIMESTRE']` */
  predicate Matches(r: SurveyRow, d: DeflatorRow) {
    r.ano4 as real == d.anio && r.trimestre == d.trimestre
  }

  /** The join rows of one survey row: one per matching deflator row, in the deflator table's order. */
  function MatchesOf(r: SurveyRow, defl: seq<DeflatorRow>): (m: seq<MergedRow>)
    ensures |m| <= |defl|
    ensures forall x :: x in m <==> exists d :: d in defl && Matches(r, d) && x == MergedRow(r, d.deflactor)
  {
    if defl == [] then []
    else
      var rest := MatchesOf(r, defl[1..]);
      assert forall d :: d in defl <==> d == defl[0] || d in defl[1..];
      (if Matches(r, defl[0]) then [MergedRow(r, defl[0].deflactor)] else []) + rest
  }

  /** `pd.merge(eph, deflactores, how='inner')`: survey rows in order, each with all its matches. */
  function InnerMerge(eph: seq<SurveyRow>, defl: seq<DeflatorRow>): (m: seq<MergedRow>)
    ensures forall x :: x in m <==> exists r, d :: r in eph && d in defl && Matches(r, d) && x == MergedRow(r, d.deflactor)
  {
    if eph == [] then []
    else
      var rest := InnerMerge(eph[1..], defl);
      assert forall r :: r in eph <==> r == eph[0] || r in eph[1..];
      MatchesOf(eph[0], defl) + rest
  }

  /** A survey row after deflation, with the derived columns. */
  datatype IncomeRow = IncomeRow(row: SurveyRow, deflactor: Option<real>, p21Real: Option<real>, p21PonderadoReal: Option<real>)

  /** P21 coerced to numeric; the other survey columns are kept as they are. */
  function CoerceP21(r: SurveyRow): SurveyRow {
    r.(p21 := Coerce(r.p21))
  }

  /** `P21_REAL = P21 / Deflactor_normalizado` and `P21_PONDERADO_REAL = P21_REAL * PONDIIO` */
  function AddRealIncome(m: MergedRow): IncomeRow {
    var realIncome := Divide(ToNumeric(m.row.p21), m.deflactor);
    IncomeRow(CoerceP21(m.row), m.deflactor, realIncome, Multiply(realIncome, m.row.pondiio))
  }

  predicate HasRealIncome(o: IncomeRow) {
    o.p21Real.Some?
  }

  /** The join, the derived columns, and `dropna(subset=['P21_REAL'])`. */
  function DeflateRows(eph: seq<SurveyRow>, defl: seq<DeflatorRow>): seq<IncomeRow> {
    var merged := InnerMerge(eph, defl);
    Filter(seq(|merged|, i requires 0 <= i < |merged| => AddRealIncome(merged[i])), HasRealIncome)
  }

  /** `deflacionar_ingresos(df_eph)`, failing exactly when the deflator table cannot be built. */
  function DeflacionarIngresos(eph: seq<SurveyRow>, loaded: Option<seq<IpcRow>>): (r: Result<seq<IncomeRow>, DeflatorError>)
    ensures r.Err? <==> GetDeflactores(loaded).Err?
    ensures r.Err? ==> r.error == GetDeflactores(loaded).error
  {
    match GetDeflactores(loaded)
    case Err(e) => Err(e)
    case Ok(defl) => Ok(DeflateRows(eph, defl))
  }

  /**
   * Every output row is a survey row (P21 coerced, everything else unchanged)
   * joined with a deflator row of its own quarter, and carries a real income
   * equal to P21 over that deflator and a weighted income equal to the real
   * income times PONDIIO.
   */
  predicate Derived(o: IncomeRow, r: SurveyRow, d: DeflatorRow) {
    && Matches(r, d)
    && o.row == CoerceP21(r)
    && o.deflactor == d.deflactor
    && o.p21Real == Divide(ToNumeric(r.p21), d.deflactor)
    && o.p21PonderadoReal == Multiply(o.p21Real, r.pondiio)
  }

  lemma DeflateRowsSound(eph: seq<SurveyRow>, defl: seq<DeflatorRow>)
    ensures forall o :: o in DeflateRows(eph, defl) ==>
      o.p21Real.Some? && exists r, d :: r in eph && d in defl && Derived(o, r, d)
  {
    var merged := InnerMerge(eph, defl);
    var enriched := seq(|merged|, i requires 0 <= i < |merged| => AddRealIncome(merged[i]));
    forall o | o in DeflateRows(eph, defl) ensures o.p21Real.Some? && exists r, d :: r in eph && d in defl && Derived(o, r, d) {
      assert o in enriched;
      var i :| 0 <= i < |enriched| && enriched[i] == o;
      assert merged[i] in merged;
      var r, d :| r in eph && d in defl && Matches(r, d) && merged[i] == MergedRow(r, d.deflactor);
      assert Derived(o, r, d);
    }
  }

  /** Conversely, every survey row whose quarter has a deflator and whose income can be deflated is kept. */
  lemma DeflateRowsComplete(eph: seq<SurveyRow>, defl: seq<DeflatorRow>, r: SurveyRow, d: DeflatorRow)
    requires r in eph && d in defl && Matches(r, d)
    requires Divide(ToNumeric(r.p21), d.deflactor).Some?
    ensures AddRealIncome(MergedRow(r, d.deflactor)) in DeflateRows(eph, defl)
  {
    var merged := InnerMerge(eph, defl);
    var enriched := seq(|merged|, i requires 0 <= i < |merged| => AddRealIncome(merged[i]));
    var m := MergedRow(r, d.deflactor);
    assert m in merged;
    var i :| 0 <= i < |merged| && merged[i] == m;
    assert enriched[i] == AddRealIncome(m);
  }

  /** With one deflator row per quarter, a survey row matches at most once. */
  lemma {:induction false} MatchesOfAtMostOne(r: SurveyRow, defl: seq<DeflatorRow>)
    requires UniqueQuarters(defl)
    ensures |MatchesOf(r, defl)| <= 1
  {
    if defl != [] {
      MatchesOfAtMostOne(r, defl[1..]);
      if Matches(r, defl[0]) {
        NoMatchAfter(r, defl);
      }
    }
  }

  lemma NoMatchAfter(r: SurveyRow, defl: seq<DeflatorRow>)
    requires defl != [] && UniqueQuarters(defl) && Matches(r, defl[0])
    ensures MatchesOf(r, defl[1..]) == []
  {
    var rest := MatchesOf(r, defl[1..]);
    if rest != [] {
      assert rest[0] in rest;
      var d :| d in defl[1..] && Matches(r, d) && rest[0] == MergedRow(r, d.deflactor);
      var j :| 1 <= j < |defl| && defl[j] == d;
      assert false;
    }
  }

  lemma {:induction false} InnerMergeLength(eph: seq<SurveyRow>, defl: seq<DeflatorRow>)
    requires UniqueQuarters(defl)
    ensures |InnerMerge(eph, defl)| <= |eph|
  {
    if eph != [] {
      MatchesOfAtMostOne(eph[0], defl);
      InnerMergeLength(eph[1..], defl);
    }
  }

  /** The deflated table is never longer than the survey table: each person appears at most once. */
  lemma DeflacionarIngresosLength(eph: seq<SurveyRow>, loaded: Option<seq<IpcRow>>)
    requires DeflacionarIngresos(eph, loaded).Ok?
    ensures |DeflacionarIngresos(eph, loaded).value| <= |eph|
  {
    var defl := GetDeflactores(loaded).value;
    DeflatorQuartersUnique(loaded);
    InnerMergeLength(eph, defl);
  }
}
