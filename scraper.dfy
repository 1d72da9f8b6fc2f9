/**
 * The scraper's pure decisions: which (year, quarter) periods to look for,
 * which file-name endings identify a period's archive, which link on the
 * index page is taken, the name the archive is stored under, and how many
 * downloads are counted. Fetching the page and the files is left to the
 * caller: the page arrives as its list of links, and whether a file already
 * exists or a download fails arrive as sets.
 */
module Scraper {
  import opened Common
  import opened Tables

  // ---------------------------------------------------------------------------
  // Periods

  /** `list(product(range(start_year, end_year + 1), [1, 2, 3, 4]))` */
  function GenerateEphPeriods(startYear: int, endYear: int): (ps: seq<(int, int)>)
    decreases endYear - startYear
  {
    if endYear < startYear then []
    else [(startYear, 1), (startYear, 2), (startYear, 3), (startYear, 4)] + GenerateEphPeriods(startYear + 1, endYear)
  }

  /**
   * The periods come year by year, quarters 1 to 4 inside each year: entry i
   * is year start + i / 4, quarter i % 4 + 1; there are 4 per year, none when
   * the range is empty.
   */
  lemma {:induction false} PeriodsLayout(startYear: int, endYear: int)
    ensures |GenerateEphPeriods(startYear, endYear)| == if endYear < startYear then 0 else 4 * (endYear - startYear + 1)
    ensures forall i :: 0 <= i < |GenerateEphPeriods(startYear, endYear)| ==>
      GenerateEphPeriods(startYear, endYear)[i] == (startYear + i / 4, i % 4 + 1)
    decreases endYear - startYear
  {
    if endYear >= startYear {
      var ps, rest := GenerateEphPeriods(startYear, endYear), GenerateEphPeriods(startYear + 1, endYear);
      PeriodsLayout(startYear + 1, endYear);
      forall i | 4 <= i < |ps| ensures ps[i] == (startYear + i / 4, i % 4 + 1) {
        assert ps[i] == rest[i - 4];
        assert (i - 4) / 4 == i / 4 - 1 && (i - 4) % 4 == i % 4;
      }
    }
  }

  /** A pair is listed exactly when its year is in the range and its quarter is 1 to 4. */
  lemma PeriodsMembership(startYear: int, endYear: int, y: int, t: int)
    ensures (y, t) in GenerateEphPeriods(startYear, endYear) <==> startYear <= y <= endYear && 1 <= t <= 4
  {
    PeriodsLayout(startYear, endYear);
    var ps := GenerateEphPeriods(startYear, endYear);
    if startYear <= y <= endYear && 1 <= t <= 4 {
      var i := 4 * (y - startYear) + (t - 1);
      assert i / 4 == y - startYear && i % 4 == t - 1;
      assert ps[i] == (y, t);
    }
  }

  // ---------------------------------------------------------------------------
  // File-name patterns

  const TrimStd: seq<string> := ["1_Trim", "2_Trim", "3_Trim", "4_Trim"]
  const TrimAlt: seq<string> := ["1erTrim", "2doTrim", "3erTrim", "4toTrim"]
  const TrimAltAlt: seq<string> := ["1er_Trim", "2do_Trim", "3er_Trim", "4to_Trim"]

  /** `trim_map.get(trim)` rendered by an f-string: the label, or "None" for any other quarter. */
  function TrimLabel(labels: seq<string>, trim: int): string
    requires |labels| == 4
  {
    if 1 <= trim <= 4 then labels[trim - 1] else "None"
  }

  /** `_{year}_txt.zip`, the common ending of every pattern of a year. */
  function YearSuffix(year: int): string {
    "_" + Show(year) + "_txt.zip"
  }

  function Pattern(tag: string, year: int): string {
    "_" + tag + YearSuffix(year)
  }

  /** `get_possible_patterns(trim, year)`: the standard, alternative and second alternative endings. */
  function GetPossiblePatterns(trim: int, year: int): (ps: seq<string>)
    ensures |ps| == 3
    ensures forall i :: 0 <= i < 3 ==> EndsWith(ps[i], YearSuffix(year))
  {
    var ps := [Pattern(TrimLabel(TrimStd, trim), year), Pattern(TrimLabel(TrimAlt, trim), year), Pattern(TrimLabel(TrimAltAlt, trim), year)];
    forall i | 0 <= i < 3 ensures EndsWith(ps[i], YearSuffix(year)) {
      var tag := TrimLabel([TrimStd, TrimAlt, TrimAltAlt][i], trim);
      assert ps[i] == ("_" + tag) + YearSuffix(year);
    }
    ps
  }

  /** For quarters 1 to 4 the three endings are different (their quarter labels differ in length). */
  lemma PatternsDistinct(trim: int, year: int)
    requires 1 <= trim <= 4
    ensures forall i, j :: 0 <= i < j < 3 ==> GetPossiblePatterns(trim, year)[i] != GetPossiblePatterns(trim, year)[j]
  {
    var ps := GetPossiblePatterns(trim, year);
    assert |TrimLabel(TrimStd, trim)| == 6;
    assert |TrimLabel(TrimAlt, trim)| == 7;
    assert |TrimLabel(TrimAltAlt, trim)| == 8;
    assert |ps[0]| + 1 == |ps[1]| && |ps[1]| + 1 == |ps[2]|;
  }

  /** Outside quarters 1 to 4 every label is "None", so the three endings coincide. */
  lemma PatternsForUnknownQuarter(trim: int, year: int)
    requires !(1 <= trim <= 4)
    ensures forall i :: 0 <= i < 3 ==> GetPossiblePatterns(trim, year)[i] == "_None" + YearSuffix(year)
  {
  }

  // ---------------------------------------------------------------------------
  // Link selection

  const EphPath: string := "/ftp/cuadros/menusuperior/eph/"

  /** `link.get('href', '')` */
  function Href(link: Option<string>): string {
    link.GetOr("")
  }

  /** A link is taken when it ends with one of the patterns and points into the survey directory. */
  predicate Qualifies(href: string, patterns: seq<string>) {
    EndsWithAny(href, patterns) && Contains(href, EphPath)
  }

  /** `any(href.endswith(p) for p in patterns)`, pattern by pattern. */
  predicate EndsWithAny(href: string, patterns: seq<string>) {
    patterns != [] && (EndsWith(href, patterns[0]) || EndsWithAny(href, patterns[1..]))
  }

  /** The pattern-by-pattern test holds exactly when some pattern is a suffix of the href. */
  lemma {:induction false} EndsWithAnyExists(href: string, patterns: seq<string>)
    ensures EndsWithAny(href, patterns) <==> exists p :: p in patterns && EndsWith(href, p)
  {
    if patterns != [] {
      EndsWithAnyExists(href, patterns[1..]);
      if exists p :: p in patterns && EndsWith(href, p) {
        var p :| p in patterns && EndsWith(href, p);
        if p != patterns[0] {
          assert p in patterns[1..];
        }
      }
    }
  }

  /**
   * A qualifying href contains the survey directory and so is never empty:
   * the truthiness test on the found link is the same as "a link was found".
   */
  lemma QualifyingHrefNonEmpty(href: string, patterns: seq<string>)
    requires Qualifies(href, patterns)
    ensures |href| >= |EphPath| > 0
  {
  }

  /** `any(href.endswith(p) for p in patterns)` */
  method AnyEndsWith(href: string, patterns: seq<string>) returns (b: bool)
    ensures b <==> EndsWithAny(href, patterns)
  {
    var k := 0;
    while k < |patterns|
      invariant 0 <= k <= |patterns|
      invariant EndsWithAny(href, patterns) <==> EndsWithAny(href, patterns[k..])
    {
      if EndsWith(href, patterns[k]) {
        return true;
      }
      assert patterns[k..][1..] == patterns[k + 1..];
      k := k + 1;
    }
    return false;
  }

  /** `needle in s`, by trying each start position in turn. */
  method ContainsAt(s: string, needle: string) returns (b: bool)
    ensures b <==> Contains(s, needle)
  {
    var i := 0;
    while i <= |s| - |needle|
      invariant 0 <= i <= (if |s| >= |needle| then |s| - |needle| + 1 else 0)
      invariant forall j :: 0 <= j < i ==> !OccursAt(s, needle, j)
    {
      if s[i..i + |needle|] == needle {
        assert OccursAt(s, needle, i);
        return true;
      }
      i := i + 1;
    }
    return false;
  }

  /**
   * The link search of one period: the first href, in page order, that
   * qualifies; None when no link does.
   */
  method FindLink(links: seq<Option<string>>, patterns: seq<string>) returns (found: Option<string>)
    ensures found.None? <==> forall i :: 0 <= i < |links| ==> !Qualifies(Href(links[i]), patterns)
    ensures found.Some? ==> exists i :: 0 <= i < |links| && Href(links[i]) == found.value && Qualifies(found.value, patterns) &&
                                       forall j :: 0 <= j < i ==> !Qualifies(Href(links[j]), patterns)
    ensures found == FirstQualifying(links, patterns)
  {
    found := None;
    var n := 0;
    while n < |links|
      invariant 0 <= n <= |links|
      invariant forall j :: 0 <= j < n ==> !Qualifies(Href(links[j]), patterns)
    {
      var href := Href(links[n]);
      var matches := AnyEndsWith(href, patterns);
      if matches {
        var inDirectory := ContainsAt(href, EphPath);
        if inDirectory {
          found := Some(href);
          FirstQualifyingAt(links, patterns, n);
          return;
        }
      }
      n := n + 1;
    }
    FirstQualifyingNone(links, patterns);
  }

  /** The link the search takes, stated as a recursion over the page's links. */
  function FirstQualifying(links: seq<Option<string>>, patterns: seq<string>): Option<string> {
    if links == [] then None
    else if Qualifies(Href(links[0]), patterns) then Some(Href(links[0]))
    else FirstQualifying(links[1..], patterns)
  }

  lemma {:induction false} FirstQualifyingAt(links: seq<Option<string>>, patterns: seq<string>, n: nat)
    requires n < |links| && Qualifies(Href(links[n]), patterns)
    requires forall j :: 0 <= j < n ==> !Qualifies(Href(links[j]), patterns)
    ensures FirstQualifying(links, patterns) == Some(Href(links[n]))
  {
    if n > 0 {
      FirstQualifyingAt(links[1..], patterns, n - 1);
    }
  }

  lemma {:induction false} FirstQualifyingNone(links: seq<Option<string>>, patterns: seq<string>)
    requires forall j :: 0 <= j < |links| ==> !Qualifies(Href(links[j]), patterns)
    ensures FirstQualifying(links, patterns) == None
  {
    if links != [] {
      FirstQualifyingNone(links[1..], patterns);
    }
  }

  // ---------------------------------------------------------------------------
  // Stored file names

  /** `EPH_T{trim}_{year}_txt.zip` */
  function StandardizedFilename(trim: int, year: int): string {
    PeriodName("EPH_T", trim, year, "_txt.zip")
  }

  /** `{prefix}{trim}_{year}{suffix}`, the shape of every per-period file name. */
  function PeriodName(prefix: string, trim: int, year: int, suffix: string): string {
    prefix + Show(trim) + "_" + Show(year) + suffix
  }

  /** Distinct periods are stored under distinct names, so no download overwrites another period's archive. */
  lemma StandardizedFilenameInjective(t1: int, y1: int, t2: int, y2: int)
    requires 1 <= t1 <= 4 && 1 <= t2 <= 4
    requires StandardizedFilename(t1, y1) == StandardizedFilename(t2, y2)
    ensures t1 == t2 && y1 == y2
  {
    PeriodNameInjective("EPH_T", "_txt.zip", t1, y1, t2, y2);
  }

  /**
   * A name made of a fixed prefix, a one-digit quarter, "_", the year and a
   * fixed suffix determines the quarter and the year.
   */
  lemma PeriodNameInjective(prefix: string, suffix: string, t1: int, y1: int, t2: int, y2: int)
    requires 1 <= t1 <= 4 && 1 <= t2 <= 4
    requires PeriodName(prefix, t1, y1, suffix) == PeriodName(prefix, t2, y2, suffix)
    ensures t1 == t2 && y1 == y2
  {
    var n := |prefix|;
    PeriodNameParts(prefix, suffix, t1, y1);
    PeriodNameParts(prefix, suffix, t2, y2);
    var a := PeriodName(prefix, t1, y1, suffix);
    assert DigitChar(t1) == a[n] == DigitChar(t2);
    assert Show(y1) == a[n + 2..|a| - |suffix|] == Show(y2);
    ParseShow(y1);
    ParseShow(y2);
  }

  /** The quarter digit follows the prefix, and the year lies between "_" and the suffix. */
  lemma PeriodNameParts(prefix: string, suffix: string, t: int, y: int)
    requires 1 <= t <= 4
    ensures var a := PeriodName(prefix, t, y, suffix);
      |a| == |prefix| + 2 + |Show(y)| + |suffix| && a[|prefix|] == DigitChar(t) &&
      a[|prefix| + 2..|a| - |suffix|] == Show(y)
  {
    assert Show(t) == NatDigits(t) == [DigitChar(t)];
    var a := PeriodName(prefix, t, y, suffix);
    assert a == (prefix + [DigitChar(t)] + "_") + Show(y) + suffix;
  }

  // ---------------------------------------------------------------------------
  // The download loop

  /**
   * The download count of `scrape_and_download`: for each period in order,
   * a link is searched for; when one is found, the archive is fetched unless
   * its standardised name already exists, and a successful fetch is counted.
   */
  method ScrapeAndDownload(startYear: int, endYear: int, links: seq<Option<string>>,
                           existing: set<string>, failing: set<string>) returns (downloaded: nat)
    ensures downloaded == |Downloads(GenerateEphPeriods(startYear, endYear), links, existing, failing)|
  {
    var periods := GenerateEphPeriods(startYear, endYear);
    ghost var fetched := FetchTest(links, existing, failing);
    downloaded := 0;
    var i := 0;
    while i < |periods|
      invariant 0 <= i <= |periods|
      invariant downloaded == |Filter(periods[..i], fetched)|
    {
      var counted := DownloadPeriod(periods[i], links, existing, failing);
      FilterPrefixStep(periods, i, fetched);
      if counted {
        downloaded := downloaded + 1;
      }
      i := i + 1;
    }
    assert periods[..i] == periods;
  }

  /**
   * The body of the loop for one period: the link search, then the fetch when
   * a link was found and the standardised name is new; true when a fetch
   * succeeded and is counted.
   */
  method DownloadPeriod(period: (int, int), links: seq<Option<string>>, existing: set<string>, failing: set<string>)
    returns (counted: bool)
    ensures counted <==> IsFetched(period, links, existing, failing)
  {
    var (year, trim) := period;
    var expected := GetPossiblePatterns(trim, year);
    var found := FindLink(links, expected);
    counted := false;
    if found.Some? {
      var filename := StandardizedFilename(trim, year);
      if filename !in existing {
        if found.value !in failing {
          counted := true;
        }
      }
    }
  }

  /** The link the search takes for one period. */
  function PeriodLink(period: (int, int), links: seq<Option<string>>): Option<string> {
    FirstQualifying(links, GetPossiblePatterns(period.1, period.0))
  }

  /** A period's archive is fetched when a link is found, its standardised name is new and the fetch succeeds. */
  predicate IsFetched(period: (int, int), links: seq<Option<string>>, existing: set<string>, failing: set<string>) {
    var link := PeriodLink(period, links);
    link.Some? && StandardizedFilename(period.1, period.0) !in existing && link.value !in failing
  }

  function FetchTest(links: seq<Option<string>>, existing: set<string>, failing: set<string>): (test: ((int, int)) -> bool)
    ensures forall p :: test(p) == IsFetched(p, links, existing, failing)
  {
    p => IsFetched(p, links, existing, failing)
  }

  /** The periods whose archive is fetched, in order. */
  function Downloads(periods: seq<(int, int)>, links: seq<Option<string>>, existing: set<string>, failing: set<string>): seq<(int, int)> {
    Filter(periods, FetchTest(links, existing, failing))
  }

  /** At most one archive per period is counted: four per year of the range at most. */
  lemma DownloadsBound(startYear: int, endYear: int, links: seq<Option<string>>, existing: set<string>, failing: set<string>)
    ensures |Downloads(GenerateEphPeriods(startYear, endYear), links, existing, failing)| <=
      if endYear < startYear then 0 else 4 * (endYear - startYear + 1)
  {
    PeriodsLayout(startYear, endYear);
  }

  /**
   * Every fetched period is a listed one and its archive's name was not on
   * disk, and no two downloads of a run share a file name, so no download
   * finds an earlier download of the same run in its place.
   */
  lemma DownloadsFresh(startYear: int, endYear: int, links: seq<Option<string>>, existing: set<string>, failing: set<string>)
    ensures forall p :: p in Downloads(GenerateEphPeriods(startYear, endYear), links, existing, failing) ==>
      startYear <= p.0 <= endYear && 1 <= p.1 <= 4 && StandardizedFilename(p.1, p.0) !in existing
    ensures var d := Downloads(GenerateEphPeriods(startYear, endYear), links, existing, failing);
      forall i, j :: 0 <= i < j < |d| ==> StandardizedFilename(d[i].1, d[i].0) != StandardizedFilename(d[j].1, d[j].0)
  {
    var ps := GenerateEphPeriods(startYear, endYear);
    var d := Downloads(ps, links, existing, failing);
    forall p | p in d ensures startYear <= p.0 <= endYear && 1 <= p.1 <= 4 && StandardizedFilename(p.1, p.0) !in existing {
      assert p in ps && IsFetched(p, links, existing, failing);
      PeriodsMembership(startYear, endYear, p.0, p.1);
    }
    PeriodsLayout(startYear, endYear);
    forall i, j | 0 <= i < j < |ps| ensures ps[i] != ps[j] {
      if i / 4 == j / 4 {
        assert i % 4 != j % 4;
      }
    }
    FilterDistinct(ps, FetchTest(links, existing, failing));
    forall i, j | 0 <= i < j < |d| ensures StandardizedFilename(d[i].1, d[i].0) != StandardizedFilename(d[j].1, d[j].0) {
      assert d[i] in d && d[j] in d;
      if StandardizedFilename(d[i].1, d[i].0) == StandardizedFilename(d[j].1, d[j].0) {
        StandardizedFilenameInjective(d[i].1, d[i].0, d[j].1, d[j].0);
        assert false;
      }
    }
  }
}
