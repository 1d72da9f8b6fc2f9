/**
 * The quarterly consumer-price series: the fixed assignment of month tokens
 * to quarters, the case-insensitive lookup of a month's quarter, and the
 * per-(year, quarter) mean of the monthly index.
 */
module Utils {
  import opened Common
  import opened Tables

  // ---------------------------------------------------------------------------
  // Months and quarters

  /** `TRIMESTRES_POR_MES`, in its insertion order: quarter number and its three month tokens. */
  const QuarterMonths: seq<(int, seq<string>)> := [
    (1, ["jan", "feb", "mar"]),
    (2, ["apr", "may", "jun"]),
    (3, ["jul", "aug", "sep"]),
    (4, ["oct", "nov", "dec"])
  ]

  /** The twelve month tokens in calendar order: the reference the quarter map is checked against. */
  const Months: seq<string> := ["jan", "feb", "mar", "apr", "may", "jun", "jul", "aug", "sep", "oct", "nov", "dec"]

  /** Position of the first occurrence of `x` in `s`, or |s| when it does not occur. */
  function IndexOf(s: seq<string>, x: string): (i: nat)
    ensures i <= |s|
    ensures i < |s| ==> s[i] == x
    ensures forall j :: 0 <= j < i ==> s[j] != x
    ensures i < |s| <==> x in s
  {
    if s == [] then 0 else if s[0] == x then 0 else 1 + IndexOf(s[1..], x)
  }

  /**
   * The quarter of a month token, from its calendar position: months 1-3 are
   * quarter 1, and so on. Letters are compared lower-cased.
   */
  function QuarterOfMonth(mes: string): (q: Option<int>)
    ensures q.Some? <==> Lower(mes) in Months
    ensures q.Some? ==> 1 <= q.value <= 4 && Lower(mes) in QuarterMonths[q.value - 1].1
  {
    var i := IndexOf(Months, Lower(mes));
    if i < 12 then
      MonthInQuarter(i);
      Some(i / 3 + 1)
    else
      None
  }

  /** Month i of the calendar is listed under quarter i / 3 + 1. */
  lemma MonthInQuarter(i: nat)
    requires i < 12
    ensures QuarterMonths[i / 3].1[i % 3] == Months[i]
  {
    var j := i / 3;
    QuarterMonthsAreCalendar();
    assert QuarterMonths[j].1 == Months[3 * j..3 * j + 3];
    assert i == 3 * j + i % 3;
  }

  /** Quarter j + 1 lists calendar months 3j + 1 to 3j + 3, and the months are all different. */
  lemma QuarterMonthsAreCalendar()
    ensures |QuarterMonths| == 4
    ensures forall j :: 0 <= j < 4 ==> QuarterMonths[j].0 == j + 1 && |QuarterMonths[j].1| == 3
    ensures forall j :: 0 <= j < 4 ==> QuarterMonths[j].1 == Months[3 * j..3 * j + 3]
    ensures forall a, b :: 0 <= a < b < 12 ==> Months[a] != Months[b]
  {
  }

  /** The twelve tokens are partitioned: each lies in exactly one quarter's list, three per quarter. */
  lemma QuartersPartitionMonths()
    ensures forall j :: 0 <= j < 4 ==> |QuarterMonths[j].1| == 3
    ensures forall m :: m in Months <==> exists j :: 0 <= j < 4 && m in QuarterMonths[j].1
    ensures forall m, j1, j2 :: 0 <= j1 < 4 && 0 <= j2 < 4 && m in QuarterMonths[j1].1 && m in QuarterMonths[j2].1 ==> j1 == j2
  {
    QuarterMonthsAreCalendar();
    forall m, j1, j2 | 0 <= j1 < 4 && 0 <= j2 < 4 && m in QuarterMonths[j1].1 && m in QuarterMonths[j2].1
      ensures j1 == j2
    {
      var k1 :| 0 <= k1 < 3 && QuarterMonths[j1].1[k1] == m;
      var k2 :| 0 <= k2 < 3 && QuarterMonths[j2].1[k2] == m;
      assert QuarterMonths[j1].1[k1] == Months[3 * j1 + k1];
      assert QuarterMonths[j2].1[k2] == Months[3 * j2 + k2];
    }
    forall m ensures m in Months <==> exists j :: 0 <= j < 4 && m in QuarterMonths[j].1 {
      if m in Months {
        var i :| 0 <= i < 12 && Months[i] == m;
        assert QuarterMonths[i / 3].1 == Months[3 * (i / 3)..3 * (i / 3) + 3];
        assert QuarterMonths[i / 3].1[i % 3] == m;
      }
    }
  }

  /** The token at calendar position i is found at position i. */
  lemma IndexOfMonth(i: nat)
    requires i < 12
    ensures IndexOf(Months, Months[i]) == i
  {
    QuarterMonthsAreCalendar();
  }

  /** The token listed k-th in quarter n + 1 sits at calendar position 3n + k. */
  lemma FoundInQuarter(n: nat, k: nat)
    requires n < 4 && k < 3
    ensures IndexOf(Months, Months[3 * n + k]) / 3 == n
  {
    IndexOfMonth(3 * n + k);
  }

  /**
   * `get_trimestre(mes)`: the first quarter, in the map's order, whose list
   * holds `mes.lower()`; None when no list does.
   */
  method GetTrimestre(mes: string) returns (q: Option<int>)
    ensures q == QuarterOfMonth(mes)
  {
    var lowered := Lower(mes);
    var n := 0;
    while n < |QuarterMonths|
      invariant 0 <= n <= |QuarterMonths| == 4
      invariant forall i :: 0 <= i < 3 * n ==> Months[i] != lowered
    {
      var (trimestre, meses) := QuarterMonths[n];
      QuarterLookup(n, lowered);
      if lowered in meses {
        return Some(trimestre);
      }
      n := n + 1;
    }
    assert IndexOf(Months, lowered) == 12;
    return None;
  }

  /** What the loop learns from quarter n + 1's list about a lower-cased token x. */
  lemma QuarterLookup(n: nat, x: string)
    requires n < 4
    ensures |QuarterMonths| == 4 && QuarterMonths[n].0 == n + 1
    ensures x in QuarterMonths[n].1 ==> IndexOf(Months, x) < 12 && IndexOf(Months, x) / 3 == n
    ensures x !in QuarterMonths[n].1 ==> forall i :: 3 * n <= i < 3 * n + 3 ==> Months[i] != x
  {
    QuarterMonthsAreCalendar();
    var meses := QuarterMonths[n].1;
    assert meses == Months[3 * n..3 * n + 3];
    if x in meses {
      var k :| 0 <= k < 3 && meses[k] == x;
      FoundInQuarter(n, k);
    } else {
      assert forall i :: 3 * n <= i < 3 * n + 3 ==> Months[i] == meses[i - 3 * n];
    }
  }

  /** Matching ignores case: "Mar" is in the first quarter. */
  lemma QuarterOfMonthMar()
    ensures QuarterOfMonth("Mar") == Some(1)
  {
    var lowered := Lower("Mar");
    assert lowered[0] == 'm' && lowered[1] == 'a' && lowered[2] == 'r';
    assert lowered == Months[2];
    IndexOfMonth(2);
  }

  /** A token that is not one of the twelve abbreviations has no quarter. */
  lemma QuarterOfMonthUnknown()
    ensures QuarterOfMonth("march") == None
  {
    var lowered := Lower("march");
    assert |lowered| == 5;
    assert forall j :: 0 <= j < 12 ==> |Months[j]| == 3;
    assert IndexOf(Months, lowered) == 12;
  }

  // ---------------------------------------------------------------------------
  // Quarterly index

  /** One monthly row of the price file: year, month token and index value as loaded. */
  datatype IpcRow = IpcRow(anio: Cell, mes: string, indice: Cell)

  datatype IpcKey = IpcKey(anio: real, trimestre: int)

  /** One row of the quarterly table; the index is missing when the group has no numeric value. */
  datatype IpcQuarter = IpcQuarter(anio: real, trimestre: int, indice: Option<real>)

  /** The group of a monthly row: its numeric year and its month's quarter; none if either is missing. */
  function IpcRowKey(r: IpcRow): (k: Option<IpcKey>)
    ensures k.Some? <==> ToNumeric(r.anio).Some? && QuarterOfMonth(r.mes).Some?
    ensures k.Some? ==> k.value == IpcKey(ToNumeric(r.anio).value, QuarterOfMonth(r.mes).value)
  {
    match (ToNumeric(r.anio), QuarterOfMonth(r.mes))
    case (Some(a), Some(q)) => Some(IpcKey(a, q))
    case _ => None
  }

  function Indice(r: IpcRow): Option<real> {
    ToNumeric(r.indice)
  }

  predicate IpcKeyLess(a: IpcKey, b: IpcKey) {
    a.anio < b.anio || (a.anio == b.anio && a.trimestre < b.trimestre)
  }

  lemma IpcKeyLessIsStrictTotalOrder()
    ensures StrictTotalOrder(IpcKeyLess)
  {
  }

  /** The (year, quarter) groups of the monthly rows, each once, in increasing order. */
  function IpcKeys(rows: seq<IpcRow>): (ks: seq<IpcKey>)
    ensures StrictlySorted(ks, IpcKeyLess)
    ensures forall k :: k in ks <==> exists r :: r in rows && IpcRowKey(r) == Some(k)
  {
    IpcKeyLessIsStrictTotalOrder();
    SortedKeys(rows, IpcRowKey, IpcKeyLess)
  }

  /** `groupby(['ANIO', 'TRIMESTRE'], as_index=False)['INDICE'].mean()` over the coerced rows. */
  function IpcTable(rows: seq<IpcRow>): (t: seq<IpcQuarter>)
    ensures |t| == |IpcKeys(rows)|
  {
    var ks := IpcKeys(rows);
    seq(|ks|, i requires 0 <= i < |ks| => IpcQuarter(ks[i].anio, ks[i].trimestre, GroupMean(rows, IpcRowKey, Indice, ks[i])))
  }

  /** `calcular_ipc_trimestral()`: None when the price file could not be loaded. */
  function CalcularIpcTrimestral(loaded: Option<seq<IpcRow>>): (r: Option<seq<IpcQuarter>>)
    ensures r.Some? <==> loaded.Some?
    ensures loaded.Some? ==> r.value == IpcTable(loaded.value)
  {
    match loaded
    case None => None
    case Some(rows) => Some(IpcTable(rows))
  }

  /** Row i of the quarterly table is the i-th sorted key with its group's mean. */
  lemma IpcTableAt(rows: seq<IpcRow>, i: nat)
    requires i < |IpcTable(rows)|
    ensures IpcKey(IpcTable(rows)[i].anio, IpcTable(rows)[i].trimestre) == IpcKeys(rows)[i]
    ensures IpcTable(rows)[i].indice == GroupMean(rows, IpcRowKey, Indice, IpcKeys(rows)[i])
  {
  }

  /**
   * The quarterly table has one row per (year, quarter) some monthly row has,
   * in strictly increasing order; rows with a non-numeric year or an
   * unrecognised month form no group.
   */
  lemma IpcTableKeys(rows: seq<IpcRow>)
    ensures forall i, j :: 0 <= i < j < |IpcTable(rows)| ==>
      IpcKeyLess(IpcKey(IpcTable(rows)[i].anio, IpcTable(rows)[i].trimestre), IpcKey(IpcTable(rows)[j].anio, IpcTable(rows)[j].trimestre))
    ensures forall k :: (exists i :: 0 <= i < |IpcTable(rows)| && IpcKey(IpcTable(rows)[i].anio, IpcTable(rows)[i].trimestre) == k) <==>
      (exists r :: r in rows && IpcRowKey(r) == Some(k))
  {
    var t, ks := IpcTable(rows), IpcKeys(rows);
    forall i | 0 <= i < |t| ensures IpcKey(t[i].anio, t[i].trimestre) == ks[i] {
      IpcTableAt(rows, i);
    }
    forall k ensures (exists i :: 0 <= i < |t| && IpcKey(t[i].anio, t[i].trimestre) == k) <==> k in ks {
      if k in ks {
        var i :| 0 <= i < |ks| && ks[i] == k;
        assert IpcKey(t[i].anio, t[i].trimestre) == k;
      }
    }
  }

  /** Two rows of the quarterly table are never for the same (year, quarter). */
  lemma IpcTableDistinct(rows: seq<IpcRow>, i: nat, j: nat)
    requires i < j < |IpcTable(rows)|
    ensures IpcTable(rows)[i].anio != IpcTable(rows)[j].anio || IpcTable(rows)[i].trimestre != IpcTable(rows)[j].trimestre
  {
    IpcTableAt(rows, i);
    IpcTableAt(rows, j);
    assert IpcKeyLess(IpcKeys(rows)[i], IpcKeys(rows)[j]);
  }

  /**
   * Each quarterly index is the mean of its group's numeric monthly values,
   * so it lies between any bounds of those values; it is missing only when
   * the group has none.
   */
  lemma IpcMeanBounds(rows: seq<IpcRow>, i: nat, lo: real, hi: real)
    requires i < |IpcTable(rows)|
    requires forall r :: r in rows && IpcRowKey(r) == Some(IpcKey(IpcTable(rows)[i].anio, IpcTable(rows)[i].trimestre)) && Indice(r).Some? ==>
      lo <= Indice(r).value <= hi
    ensures IpcTable(rows)[i].indice.None? <==>
      GroupCount(rows, IpcRowKey, Indice, IpcKey(IpcTable(rows)[i].anio, IpcTable(rows)[i].trimestre)) == 0
    ensures IpcTable(rows)[i].indice.Some? ==> lo <= IpcTable(rows)[i].indice.value <= hi
  {
    var k := IpcKeys(rows)[i];
    IpcTableAt(rows, i);
    if GroupMean(rows, IpcRowKey, Indice, k).Some? {
      GroupMeanBounds(rows, IpcRowKey, Indice, k, lo, hi);
    }
  }

  /** The quarterly table does not depend on the order of the monthly rows. */
  lemma IpcTableOrderIndependent(a: seq<IpcRow>, b: seq<IpcRow>)
    requires multiset(a) == multiset(b)
    ensures IpcTable(a) == IpcTable(b)
  {
    IpcKeyLessIsStrictTotalOrder();
    SortedKeysPermutation(a, b, IpcRowKey, IpcKeyLess);
    var ks := IpcKeys(a);
    forall i | 0 <= i < |ks| ensures IpcTable(a)[i] == IpcTable(b)[i] {
      GroupMeanPermutation(a, b, IpcRowKey, Indice, ks[i]);
    }
  }
}
