/**
 * The sanitiser's decisions: which member of a survey archive holds the
 * person-level table, which rows are kept (those of the areas of interest),
 * which periods are skipped, and the name each kept table is written under.
 * Opening archives, reading and writing CSV files and checking for files on
 * disk are left to the caller: an archive arrives as its member list (None
 * when it cannot be read) and a loaded table as a value (None when loading
 * fails).
 */
module Sanitize {
  import opened Common
  import opened Tables
  import Scraper

  // ---------------------------------------------------------------------------
  // Archive member selection

  /** The keywords searched for, in priority order; only the person-level table is looked for. */
  const Keywords: seq<string> := ["individual"]

  /** A member qualifies for a keyword when its lowercased name ends in .txt or .csv and contains the keyword. */
  predicate IsDataFile(name: string, keyword: string) {
    var lowered := Lower(name);
    (EndsWith(lowered, ".txt") || EndsWith(lowered, ".csv")) && Contains(lowered, keyword)
  }

  /**
   * `get_data_file_name_from_zip` over the archive's member list: the first
   * member, in archive order, that qualifies for "individual"; None when none
   * qualifies or when the archive cannot be read.
   */
  method GetDataFileName(members: Option<seq<string>>) returns (found: Option<string>)
    ensures found.Some? <==> HasDataFile(members)
    ensures members.None? ==> found.None?
    ensures members.Some? ==> (found.None? <==> forall i :: 0 <= i < |members.value| ==> !IsDataFile(members.value[i], "individual"))
    ensures found.Some? ==> members.Some? && exists i :: 0 <= i < |members.value| && members.value[i] == found.value &&
                                                         IsDataFile(found.value, "individual") &&
                                                         forall j :: 0 <= j < i ==> !IsDataFile(members.value[j], "individual")
  {
    if members.None? {
      return None;
    }
    var names := members.value;
    var k := 0;
    while k < |Keywords|
      invariant 0 <= k <= |Keywords|
      invariant forall m, j :: 0 <= m < k && 0 <= j < |names| ==> !IsDataFile(names[j], Keywords[m])
    {
      var keyword := Keywords[k];
      var n := 0;
      while n < |names|
        invariant 0 <= n <= |names|
        invariant forall j :: 0 <= j < n ==> !IsDataFile(names[j], keyword)
      {
        var lowered := Lower(names[n]);
        var isData := IsDataFileAt(lowered, keyword);
        if isData {
          assert IsDataFile(names[n], "individual");
          return Some(names[n]);
        }
        n := n + 1;
      }
      k := k + 1;
    }
    assert forall j :: 0 <= j < |names| ==> !IsDataFile(names[j], Keywords[0]);
    return None;
  }

  /** The archive can be read and has a member that qualifies. */
  predicate HasDataFile(members: Option<seq<string>>) {
    members.Some? && exists i :: 0 <= i < |members.value| && IsDataFile(members.value[i], "individual")
  }

  /** The test of one lowercased name against one keyword. */
  method IsDataFileAt(lowered: string, keyword: string) returns (b: bool)
    ensures b <==> (EndsWith(lowered, ".txt") || EndsWith(lowered, ".csv")) && Contains(lowered, keyword)
  {
    b := EndsWith(lowered, ".txt") || EndsWith(lowered, ".csv");
    if b {
      b := Scraper.ContainsAt(lowered, keyword);
    }
  }

  /** The member test ignores case: a name and its lowercase form qualify alike. */
  lemma IsDataFileIgnoresCase(name: string)
    ensures IsDataFile(Lower(name), "individual") <==> IsDataFile(name, "individual")
  {
    LowerIdempotent(name);
  }

  lemma LowerIdempotent(s: string)
    ensures Lower(Lower(s)) == Lower(s)
  {
    var t := Lower(s);
    assert |Lower(t)| == |t|;
    forall i | 0 <= i < |t| ensures Lower(t)[i] == t[i] {
    }
  }

  // ---------------------------------------------------------------------------
  // Area filter

  /** The areas kept: Ushuaia (31) and Ciudad de Buenos Aires (32). */
  const AglomeradosInteres: seq<int> := [31, 32]

  /** One survey row as loaded: its AGLOMERADO value and the other columns, carried unchanged. */
  datatype EphRow = EphRow(aglomerado: Cell, others: seq<Cell>)

  /** A loaded table: its column names and its rows. */
  datatype EphTable = EphTable(columns: seq<string>, rows: seq<EphRow>)

  /** `isin(AGLOMERADOS_INTERES)`: a numeric value equal to one of the codes; text and missing values never match. */
  predicate InAreas(r: EphRow) {
    r.aglomerado.Num? && exists a :: a in AglomeradosInteres && r.aglomerado.v == a as real
  }

  /** A row is kept exactly when its AGLOMERADO is the number 31 or 32. */
  lemma InAreasCodes(r: EphRow)
    ensures InAreas(r) <==> r.aglomerado == Num(31.0) || r.aglomerado == Num(32.0)
  {
    if r.aglomerado == Num(31.0) {
      assert 31 in AglomeradosInteres;
    } else if r.aglomerado == Num(32.0) {
      assert 32 in AglomeradosInteres;
    }
  }

  /** `df[df['AGLOMERADO'].isin(AGLOMERADOS_INTERES)]` */
  function FilterAreas(rows: seq<EphRow>): (kept: seq<EphRow>)
    ensures |kept| <= |rows|
    ensures forall r :: r in kept <==> r in rows && (r.aglomerado == Num(31.0) || r.aglomerado == Num(32.0))
  {
    var kept := Filter(rows, InAreas);
    forall r ensures InAreas(r) <==> r.aglomerado == Num(31.0) || r.aglomerado == Num(32.0) {
      InAreasCodes(r);
    }
    kept
  }

  /** The filter keeps rows in their original order: it distributes over any split of the table. */
  lemma FilterAreasOrder(a: seq<EphRow>, b: seq<EphRow>)
    ensures FilterAreas(a + b) == FilterAreas(a) + FilterAreas(b)
  {
    FilterAppend(a, b, InAreas);
  }

  /** Filtering a sanitised table again changes nothing. */
  lemma {:induction false} FilterAreasIdempotent(rows: seq<EphRow>)
    ensures FilterAreas(FilterAreas(rows)) == FilterAreas(rows)
  {
    AllKeptUnchanged(FilterAreas(rows));
  }

  lemma {:induction false} AllKeptUnchanged(rows: seq<EphRow>)
    requires forall r :: r in rows ==> InAreas(r)
    ensures Filter(rows, InAreas) == rows
  {
    if rows != [] {
      assert rows[0] in rows;
      forall r | r in rows[1..] ensures InAreas(r) {
        assert r in rows;
      }
      AllKeptUnchanged(rows[1..]);
      assert [rows[0]] + rows[1..] == rows;
    }
  }

  /** Steps 5 and 6: no AGLOMERADO column means the period is skipped; otherwise the kept rows. */
  function SanitizeTable(t: EphTable): (r: Option<seq<EphRow>>)
    ensures r.None? <==> "AGLOMERADO" !in t.columns
    ensures r.Some? ==> r.value == FilterAreas(t.rows)
  {
    if "AGLOMERADO" !in t.columns then None else Some(FilterAreas(t.rows))
  }

  // ---------------------------------------------------------------------------
  // Output names

  /** `"_".join(map(str, codes))` */
  function JoinCodes(codes: seq<int>): string {
    if codes == [] then ""
    else if |codes| == 1 then Show(codes[0])
    else Show(codes[0]) + "_" + JoinCodes(codes[1..])
  }

  /** `EPH_T{trim}_{year}_AGLOS_{aglomerados_str}.csv` */
  function SanitizedFilename(trim: int, year: int): string {
    Scraper.PeriodName("EPH_T", trim, year, "_AGLOS_" + JoinCodes(AglomeradosInteres) + ".csv")
  }

  /** With the codes 31 and 32 the name ends in `_AGLOS_31_32.csv`. */
  lemma SanitizedFilenameSuffix(trim: int, year: int)
    ensures SanitizedFilename(trim, year) == Scraper.PeriodName("EPH_T", trim, year, "_AGLOS_31_32.csv")
  {
    assert NatDigits(3) == "3" && NatDigits(1) == "1" && NatDigits(2) == "2";
    assert Show(31) == NatDigits(3) + [DigitChar(1)] == "31";
    assert Show(32) == NatDigits(3) + [DigitChar(2)] == "32";
    assert JoinCodes(AglomeradosInteres) == "31_32";
  }

  /** Different periods are written to different files. */
  lemma SanitizedFilenameInjective(t1: int, y1: int, t2: int, y2: int)
    requires 1 <= t1 <= 4 && 1 <= t2 <= 4
    requires SanitizedFilename(t1, y1) == SanitizedFilename(t2, y2)
    ensures t1 == t2 && y1 == y2
  {
    Scraper.PeriodNameInjective("EPH_T", "_AGLOS_" + JoinCodes(AglomeradosInteres) + ".csv", t1, y1, t2, y2);
  }

  // ---------------------------------------------------------------------------
  // The sanitising loop

  /** A file written by the sanitiser: its name and its rows. */
  datatype Written = Written(name: string, rows: seq<EphRow>)

  /**
   * What one period writes. The archive `EPH_T{trim}_{year}_txt.zip` must be
   * present, hold a data member, load, and have an AGLOMERADO column;
   * otherwise the period is skipped.
   */
  function Outcome(period: (int, int), archives: map<string, Option<seq<string>>>, loaded: map<string, Option<EphTable>>): (w: seq<Written>)
    ensures |w| <= 1
  {
    var (year, trim) := period;
    var zipName := Scraper.StandardizedFilename(trim, year);
    if zipName !in archives || zipName !in loaded then []
    else if !HasDataFile(archives[zipName]) then []
    else if loaded[zipName].None? then []
    else match SanitizeTable(loaded[zipName].value)
      case None => []
      case Some(kept) => [Written(SanitizedFilename(trim, year), kept)]
  }

  function Outcomes(periods: seq<(int, int)>, archives: map<string, Option<seq<string>>>, loaded: map<string, Option<EphTable>>): seq<Written> {
    if periods == [] then [] else Outcome(periods[0], archives, loaded) + Outcomes(periods[1..], archives, loaded)
  }

  lemma {:induction false} OutcomesAppend(ps: seq<(int, int)>, p: (int, int), archives: map<string, Option<seq<string>>>, loaded: map<string, Option<EphTable>>)
    ensures Outcomes(ps + [p], archives, loaded) == Outcomes(ps, archives, loaded) + Outcome(p, archives, loaded)
  {
    if ps == [] {
      assert ps + [p] == [p];
    } else {
      assert (ps + [p])[1..] == ps[1..] + [p];
      OutcomesAppend(ps[1..], p, archives, loaded);
    }
  }

  lemma OutcomesStep(periods: seq<(int, int)>, i: nat, archives: map<string, Option<seq<string>>>, loaded: map<string, Option<EphTable>>)
    requires i < |periods|
    ensures Outcomes(periods[..i + 1], archives, loaded) == Outcomes(periods[..i], archives, loaded) + Outcome(periods[i], archives, loaded)
  {
    assert periods[..i + 1] == periods[..i] + [periods[i]];
    OutcomesAppend(periods[..i], periods[i], archives, loaded);
  }

  /**
   * `sanitize_and_filter_eph`: for each period of the range, year by year and
   * quarter by quarter, the sanitised table is written when every step
   * succeeds, and `processed_count` counts the files written. `archives`
   * holds the member list of each archive on disk (keyed by its name), and
   * `loaded` the table loaded from it (an archive missing from `loaded`
   * cannot be read).
   */
  method SanitizeAndFilterEph(startYear: int, endYear: int,
                              archives: map<string, Option<seq<string>>>, loaded: map<string, Option<EphTable>>)
    returns (processed: nat, written: seq<Written>)
    ensures written == Outcomes(Scraper.GenerateEphPeriods(startYear, endYear), archives, loaded)
    ensures processed == |written|
  {
    var periods := Scraper.GenerateEphPeriods(startYear, endYear);
    processed := 0;
    written := [];
    var i := 0;
    while i < |periods|
      invariant 0 <= i <= |periods|
      invariant written == Outcomes(periods[..i], archives, loaded)
      invariant processed == |written|
    {
      var w := ProcessPeriod(periods[i], archives, loaded);
      OutcomesStep(periods, i, archives, loaded);
      written := written + w;
      processed := processed + |w|;
      i := i + 1;
    }
    assert periods[..i] == periods;
  }

  /** The body of the loop for one period; each early return is one of its `continue`s. */
  method ProcessPeriod(period: (int, int), archives: map<string, Option<seq<string>>>, loaded: map<string, Option<EphTable>>)
    returns (w: seq<Written>)
    ensures w == Outcome(period, archives, loaded)
  {
    var (year, trim) := period;
    var zipName := Scraper.StandardizedFilename(trim, year);
    if zipName !in archives || zipName !in loaded {
      return [];
    }
    var internalName := GetDataFileName(archives[zipName]);
    if internalName.None? {
      return [];
    }
    var df := loaded[zipName];
    if df.None? {
      return [];
    }
    if "AGLOMERADO" !in df.value.columns {
      return [];
    }
    var kept := FilterAreas(df.value.rows);
    return [Written(SanitizedFilename(trim, year), kept)];
  }

  /**
   * Every written file is a listed period's sanitised name holding only rows
   * of the areas of interest, taken from that period's loaded table, whose
   * columns include AGLOMERADO.
   */
  lemma {:induction false} OutcomesSound(periods: seq<(int, int)>, archives: map<string, Option<seq<string>>>, loaded: map<string, Option<EphTable>>)
    ensures forall w :: w in Outcomes(periods, archives, loaded) ==>
      exists p :: p in periods && w.name == SanitizedFilename(p.1, p.0) && WrittenFrom(p, archives, loaded, w)
  {
    if periods != [] {
      OutcomesSound(periods[1..], archives, loaded);
      forall p | p in periods[1..] ensures p in periods {
      }
    }
  }

  /** The period's archive loaded into a table with an AGLOMERADO column, and `w` holds its kept rows. */
  predicate WrittenFrom(p: (int, int), archives: map<string, Option<seq<string>>>, loaded: map<string, Option<EphTable>>, w: Written) {
    var zipName := Scraper.StandardizedFilename(p.1, p.0);
    zipName in archives && zipName in loaded && loaded[zipName].Some? &&
    "AGLOMERADO" in loaded[zipName].value.columns && w.rows == FilterAreas(loaded[zipName].value.rows)
  }

  /**
   * A period whose loaded table lacks the AGLOMERADO column writes nothing:
   * no written file carries its name.
   */
  lemma MissingColumnSkipped(startYear: int, endYear: int, archives: map<string, Option<seq<string>>>,
                             loaded: map<string, Option<EphTable>>, year: int, trim: int)
    requires 1 <= trim <= 4
    requires var zipName := Scraper.StandardizedFilename(trim, year);
      zipName in loaded && loaded[zipName].Some? && "AGLOMERADO" !in loaded[zipName].value.columns
    ensures forall w :: w in Outcomes(Scraper.GenerateEphPeriods(startYear, endYear), archives, loaded) ==>
      w.name != SanitizedFilename(trim, year)
  {
    var periods := Scraper.GenerateEphPeriods(startYear, endYear);
    OutcomesSound(periods, archives, loaded);
    forall w | w in Outcomes(periods, archives, loaded) ensures w.name != SanitizedFilename(trim, year) {
      var p :| p in periods && w.name == SanitizedFilename(p.1, p.0) && WrittenFrom(p, archives, loaded, w);
      Scraper.PeriodsMembership(startYear, endYear, p.0, p.1);
      if w.name == SanitizedFilename(trim, year) {
        SanitizedFilenameInjective(p.1, p.0, trim, year);
        assert false;
      }
    }
  }
}
