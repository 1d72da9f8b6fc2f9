# Labour-market indicators and real income from the household survey, in Dafny

This project models the computational core of a small analysis pipeline over
Argentina's quarterly household survey (EPH) microdata and proves properties
of that model. The pipeline:

- looks for each quarter's archive on the statistics office's index page
  (`scraper.py`: period list, file-name endings, first qualifying link,
  stored file name, download count);
- picks the person-level data file inside each archive and keeps only the rows
  of the urban areas 31 and 32 (`sanitize.py`);
- computes, per (year, quarter, area), the weighted reference, active,
  employed and unemployed populations and the employment, activity and
  unemployment rates (`evolucion_media.py`);
- turns the monthly consumer-price index into a quarterly series
  (`utils.py`), normalises it against the first quarter of 2025 and deflates
  survey incomes with it (`media_ingresos.py`);
- aggregates the weighted mean real income per key and lays out the chart
  grid (`graficos.py`);
- checks one employment rate, for women in CABA, by hand (`test.py`).

pandas semantics are written out explicitly:

- `to_numeric(errors='coerce')` is `Common.ToNumeric`.
- Group keys are sorted and a missing key forms no group (`Tables.SortedKeys`).
- `sum()` skips missing values (`Tables.GroupSum`).
- `mean()` is missing for a group with no values (`Tables.GroupMean`).
- A left merge followed by `fillna(0)` is `Tables.Lookup(...).GetOr(0.0)`.
- An inner merge is `MediaIngresos.InnerMerge`.
- A boolean mask or `dropna` is `Tables.Filter`.

Numbers are exact reals. Missing values are `Option`, and failures are
`Result`.

Two divisions and one lookup in the code have no guard, and the model
states them as follows:

- The code divides by `Suma_PONDIIO` without a guard, so
  `Graficos.MediaIngresoReal` requires non-zero sums.
- `.iloc[0]` on an empty base-quarter selection fails, and the model returns
  `Err(BaseQuarterMissing)` there.
- The code divides by `Total_PTR` without a guard, so the rate table requires
  every `Total_PTR` to be non-zero.

Modules and files:

| file | module | models |
|---|---|---|
| common.dfy | Common | cells, numeric coercion, decimal rendering, ASCII lowering, substring tests |
| tables.dfy | Tables | filter, group sum/count/mean, sorted group keys, grouped tables, left merge, weighted sums |
| survey.dfy | Survey | the survey row, the (ANO4, TRIMESTRE, AGLOMERADO) key and its order, PERIODO |
| scraper.dfy | Scraper | `src/scraper.py` |
| sanitize.dfy | Sanitize | `src/sanitize.py` |
| evolucion_media.dfy | EvolucionMedia | `src/evolucion_media.py` |
| utils.dfy | Utils | `src/utils.py` |
| media_ingresos.dfy | MediaIngresos | `src/media_ingresos.py` |
| graficos.dfy | Graficos | `src/graficos.py` |
| test.dfy | Test | `src/test.py` |

Three loops are imperative methods, each proved against a specification
function:

- The link search is `Scraper.FindLink`, with `AnyEndsWith` and `ContainsAt`.
- The download loop is `Scraper.ScrapeAndDownload`.
- The archive-member search is `Sanitize.GetDataFileName`.

Two more follow the same pattern: the sanitising loop
(`Sanitize.SanitizeAndFilterEph`) and the month lookup (`Utils.GetTrimestre`).
The rate calculator overwrites four columns of the caller's frame. It is a
method on a `SurveyFrame` object whose `rows` it reassigns.

## Model

| member | source | states |
|---|---|---|
| Common.ToNumeric | src/evolucion_media.py:54-57 | a number stays itself, an empty cell is missing, a text cell is its decimal value when it is a signed decimal numeral and missing otherwise |
| Common.Coerce | src/evolucion_media.py:54-57 | the coerced cell is a number or empty and reads as the same number (or as missing) as the original |
| Common.ParseShow | src/scraper.py:132 | reading back the decimal rendering of any integer gives that integer |
| Common.ShowDigits | src/scraper.py:132 | the rendering of an integer is all digits, with a leading '-' exactly for negatives |
| Common.Lower | src/utils.py:118 | `lower()` keeps the length and maps each capital A-Z to its small letter, every other character unchanged |
| Survey.RowKey | src/evolucion_media.py:72-78 | a row has a group key exactly when its AGLOMERADO is numeric, and the key carries the row's year and quarter |
| Survey.KeyLessIsStrictTotalOrder | src/evolucion_media.py:77-78 | the (ANO4, TRIMESTRE, AGLOMERADO) order of the grouped output is a strict total order |
| Survey.Periodo | src/evolucion_media.py:124-125 | for quarters 1-4, PERIODO lies in [year, year + 1) |
| Survey.PeriodoOrder | src/evolucion_media.py:124-125 | for quarters 1-4, PERIODO is strictly increasing in (year, quarter) order, both directions, and equal only for the same period |
| Survey.KeyPeriodo | src/evolucion_media.py:124-125 | a key that comes earlier never has a larger PERIODO |
| Tables.Filter | src/evolucion_media.py:60-69 | a mask keeps no more rows than it gets, and keeps a row exactly when the row is in the table and passes |
| Tables.FilterAppend | src/sanitize.py:102 | masking a concatenation masks each part: kept rows keep their order |
| Tables.FilterDistinct | src/scraper.py:109-138 | masking a list without repeats gives a list without repeats |
| Tables.GroupSumAppend | src/evolucion_media.py:77-90 | a group's sum and count over a concatenation are the sums and counts of the parts |
| Tables.GroupSumPermutation | src/utils.py:110-111 | group sums and counts do not depend on row order |
| Tables.GroupSumNonNegative | src/evolucion_media.py:77-90 | non-negative values give a non-negative group sum |
| Tables.GroupSumFilterBelow | src/evolucion_media.py:63-69 | with non-negative values a subset's group sum is between 0 and the whole table's |
| Tables.GroupSumFilterSplit | src/evolucion_media.py:63-69 | when a mask is the disjoint union of two others, its group sum is the sum of theirs |
| Tables.GroupSumBounds | src/utils.py:110-111 | when every value of a group lies in [lo, hi], its sum lies between lo and hi times its count |
| Tables.SortedKeys | src/evolucion_media.py:77-78 | groupby keys are strictly sorted and are exactly the keys some row has |
| Tables.SortedUnique | src/evolucion_media.py:77-78 | two strictly sorted key lists holding the same keys are equal |
| Tables.SortedKeysPermutation | src/utils.py:110-111 | groupby keys do not depend on row order |
| Tables.SumOverKeysIsKeyedSum | src/evolucion_media.py:77-78 | adding the group sums over all keys gives the sum over every keyed row: grouping loses and duplicates nothing |
| Tables.Lookup | src/evolucion_media.py:93-97 | a merge finds a value for a key exactly when the grouped table has a row with that key |
| Tables.LeftMergeFillZero | src/evolucion_media.py:93-102 | a left merge of a subset's grouped sum with `fillna(0)` yields that subset's group sum, 0 when it has no row for the key |
| Tables.Map | src/evolucion_media.py:54-57 | a column rewrite keeps the number of rows and rewrites each row in place |
| Tables.FilterMap | src/evolucion_media.py:54-60 | when a rewrite does not change a mask's answer, masking before or after it gives the same rows |
| Tables.GroupedSumsMap | src/evolucion_media.py:54-57 | a rewrite that keeps every key and value leaves the grouped table unchanged |
| Tables.GroupMean | src/utils.py:110-111 | a group mean is missing exactly when the group has no numeric value |
| Tables.GroupMeanBounds | src/utils.py:110-111 | a group mean lies between any bounds of the group's values, so between their minimum and maximum |
| Tables.GroupMeanPermutation | src/utils.py:110-111 | group means do not depend on row order |
| Tables.WeightedSumBounds | src/graficos.py:108-116 | with non-negative weights and values in [lo, hi], the weighted sum lies between lo and hi times the weight sum |
| Scraper.PeriodsLayout | src/scraper.py:17-23 | 4·(end − start + 1) periods, none when end < start; entry i is (start + i / 4, i % 4 + 1), year-major with quarters 1-4 |
| Scraper.PeriodsMembership | src/scraper.py:17-23 | (y, t) is listed exactly when start ≤ y ≤ end and 1 ≤ t ≤ 4 |
| Scraper.GetPossiblePatterns | src/scraper.py:46-81 | exactly three endings, each ending in `_{year}_txt.zip` |
| Scraper.PatternsDistinct | src/scraper.py:50-78 | for quarters 1-4 the three endings are pairwise different |
| Scraper.PatternsForUnknownQuarter | src/scraper.py:73-78 | outside 1-4 every map lookup renders as "None", so all three endings are `_None_{year}_txt.zip` |
| Scraper.EndsWithAnyExists | src/scraper.py:123 | the pattern-by-pattern test holds exactly when some pattern is a suffix of the href |
| Scraper.AnyEndsWith | src/scraper.py:123 | the `any(...endswith...)` loop answers true exactly when the href ends with one of the patterns |
| Scraper.ContainsAt | src/scraper.py:124 | the `in` test answers true exactly when the directory occurs in the href |
| Scraper.QualifyingHrefNonEmpty | src/scraper.py:124-130 | a qualifying href is never empty, so `if found_link` is the same as "a link was found" |
| Scraper.FindLink | src/scraper.py:114-128 | None exactly when no link qualifies; otherwise the href of the first qualifying link in page order |
| Scraper.StandardizedFilenameInjective | src/scraper.py:132 | two periods with quarters 1-4 and the same `EPH_T{trim}_{year}_txt.zip` name are the same period |
| Scraper.PeriodNameInjective | src/scraper.py:132 | a fixed prefix, a one-digit quarter, "_", the year and a fixed suffix determine the quarter and the year |
| Scraper.DownloadPeriod | src/scraper.py:112-140 | one period counts exactly when a link is found, its stored name does not exist yet and the fetch succeeds |
| Scraper.ScrapeAndDownload | src/scraper.py:106-145 | the final count is the number of periods in the range that count |
| Scraper.DownloadsBound | src/scraper.py:109-138 | at most one download per period: at most four per year of the range |
| Scraper.DownloadsFresh | src/scraper.py:130-140 | every counted period is in the range with a quarter 1-4 and a name not on disk, and no two counted periods share a file name |
| Sanitize.GetDataFileName | src/sanitize.py:16-33 | None for an unreadable archive; otherwise the first member name whose lowered form ends with .txt or .csv and contains "individual", and None exactly when no name does |
| Sanitize.IsDataFileAt | src/sanitize.py:28 | the test on a lowered name answers the suffix-and-keyword condition exactly |
| Sanitize.IsDataFileIgnoresCase | src/sanitize.py:28 | a name and its lowered form pass or fail together |
| Sanitize.LowerIdempotent | src/sanitize.py:28 | lowering twice is lowering once |
| Sanitize.InAreasCodes | src/sanitize.py:102 | `isin([31, 32])` on the raw cell holds exactly for the numbers 31 and 32 |
| Sanitize.FilterAreas | src/sanitize.py:102 | at most as many rows as the input; a row is kept exactly when its AGLOMERADO is 31 or 32 |
| Sanitize.FilterAreasOrder | src/sanitize.py:102 | the area filter distributes over concatenation, so kept rows keep their original order |
| Sanitize.FilterAreasIdempotent | src/sanitize.py:102 | filtering a filtered table changes nothing |
| Sanitize.SanitizeTable | src/sanitize.py:97-102 | nothing when the AGLOMERADO column is missing; otherwise the area-filtered rows |
| Sanitize.SanitizedFilenameSuffix | src/sanitize.py:110 | the output name is `EPH_T{trim}_{year}_AGLOS_31_32.csv`, the codes joined by "_" as on line 69 |
| Sanitize.SanitizedFilenameInjective | src/sanitize.py:110 | different periods are written to different files |
| Sanitize.Outcome | src/sanitize.py:75-115 | one period writes at most one file |
| Sanitize.OutcomesAppend | src/sanitize.py:73-115 | the files of a longer period list are those of the shorter list followed by the new period's |
| Sanitize.ProcessPeriod | src/sanitize.py:75-115 | one loop iteration writes exactly that period's outcome |
| Sanitize.SanitizeAndFilterEph | src/sanitize.py:53-118 | the files written are the periods' outcomes in period order, and the count is the number of files written |
| Sanitize.OutcomesSound | src/sanitize.py:79-114 | every written file carries a listed period's name, and that period's archive existed, loaded, had AGLOMERADO and gave exactly the filtered rows |
| Sanitize.MissingColumnSkipped | src/sanitize.py:97-100 | a period whose table lacks AGLOMERADO gets no file |
| EvolucionMedia.CoerceRow | src/evolucion_media.py:54-57 | the four coerced columns become numbers or empty, and every other column is unchanged |
| EvolucionMedia.CalcularTasaEmpleoPorAglomerado | src/evolucion_media.py:47-127 | the caller's frame is coerced in place, and the result is the rate table of the whole frame whatever `aglomerado` is |
| EvolucionMedia.CoercionPreservesRateTable | src/evolucion_media.py:54-57 | coercing the four columns changes neither the rate table nor whether its totals are non-zero |
| EvolucionMedia.NonReferenceRowIgnored | src/evolucion_media.py:60 | a row under 14 or with no numeric age changes neither the reference population nor the rate table |
| EvolucionMedia.ResultKeys | src/evolucion_media.py:77-78 | the result keys are strictly sorted and are exactly the keys of the reference population |
| EvolucionMedia.MergeRates | src/evolucion_media.py:93-125 | the left merges keep one row per Total_PTR group |
| EvolucionMedia.RateTableKeys | src/evolucion_media.py:77-102 | keys strictly increase, and a key is in the result exactly when some row aged 14 or over has it |
| EvolucionMedia.RateTableSums | src/evolucion_media.py:77-102 | the four populations are the weight sums of their subsets (0 for a subset with no rows for the key), and Activa = Ocupada + Desocupada |
| EvolucionMedia.RateTableRates | src/evolucion_media.py:107-125 | Tasa_Empleo and Tasa_Actividad over Total_PTR, Tasa_Desocupacion over Activa (0 when Activa is 0), and PERIODO |
| EvolucionMedia.ActiveIsEmployedPlusUnemployed | src/evolucion_media.py:63-69 | for every key, the active weight is the employed plus the unemployed weight |
| EvolucionMedia.PopulationsNest | src/evolucion_media.py:60-90 | with non-negative weights, 0 ≤ Ocupada ≤ Activa ≤ Total_PTR and 0 ≤ Desocupada ≤ Activa |
| EvolucionMedia.RateBounds | src/evolucion_media.py:60-121 | with non-negative weights, 0 ≤ Tasa_Empleo ≤ Tasa_Actividad ≤ 100, 0 ≤ Tasa_Desocupacion ≤ 100, and it is 0 exactly when Desocupada is 0 |
| EvolucionMedia.RatesInRange | src/evolucion_media.py:107-121 | the rate formulas' bounds on plain numbers |
| EvolucionMedia.PeriodoNonDecreasing | src/evolucion_media.py:124-125 | PERIODO never decreases down the result for quarters 1-4 |
| Utils.QuarterOfMonth | src/utils.py:116-120 | a quarter exactly when the lowered token is one of the twelve, and then quarter q's list holds it |
| Utils.QuarterMonthsAreCalendar | src/utils.py:27-32 | quarter j + 1 lists calendar months 3j + 1 to 3j + 3, and all twelve tokens differ |
| Utils.QuartersPartitionMonths | src/utils.py:27-32 | three tokens per quarter, and each month token is in exactly one quarter's list |
| Utils.GetTrimestre | src/utils.py:116-120 | the loop with early return gives the quarter whose list holds `mes.lower()`, None when none does |
| Utils.QuarterOfMonthMar | src/utils.py:118 | "Mar" is in quarter 1: matching ignores case |
| Utils.QuarterOfMonthUnknown | src/utils.py:120 | an unknown token ("march") has no quarter |
| Utils.IpcRowKey | src/utils.py:103-107 | a monthly row has a group exactly when its ANIO is numeric and its month has a quarter |
| Utils.IpcKeys | src/utils.py:110-111 | the groups are strictly sorted and are exactly those some monthly row has |
| Utils.IpcTable | src/utils.py:110-111 | one quarterly row per group |
| Utils.CalcularIpcTrimestral | src/utils.py:94-113 | None exactly when the price file could not be loaded, otherwise the quarterly table |
| Utils.IpcTableKeys | src/utils.py:107-111 | (year, quarter) strictly increase, and a pair is listed exactly when some monthly row has it |
| Utils.IpcTableDistinct | src/utils.py:110-111 | at most one row per (ANIO, TRIMESTRE) |
| Utils.IpcMeanBounds | src/utils.py:110-111 | a quarterly INDICE is missing exactly when the group has no numeric value, and otherwise lies within any bounds of the group's values |
| Utils.IpcTableOrderIndependent | src/utils.py:110-111 | the quarterly table does not depend on the order of the monthly rows |
| MediaIngresos.BaseIpc | src/media_ingresos.py:15-18 | nothing exactly when no quarterly row is (2025, 1); otherwise the INDICE of such a row |
| MediaIngresos.Divide | src/media_ingresos.py:46-48 | a quotient exactly when both values are present and the divisor is non-zero, and then quotient × divisor = dividend |
| MediaIngresos.Multiply | src/media_ingresos.py:52-55 | a product exactly when both values are present |
| MediaIngresos.Normalise | src/media_ingresos.py:20-22 | one deflator row per quarterly row |
| MediaIngresos.GetDeflactores | src/media_ingresos.py:11-24 | fails with IpcUnavailable exactly when the series is unavailable and with BaseQuarterMissing exactly when (2025, 1) is absent; otherwise one row per quarter |
| MediaIngresos.DeflatorRows | src/media_ingresos.py:20-22 | each row keeps its year, quarter and INDICE, and its deflator is INDICE / BASE_IPC |
| MediaIngresos.BaseDeflatorIsOne | src/media_ingresos.py:15-20 | the base quarter's normalised deflator is exactly 1 |
| MediaIngresos.BaseRowIsFound | src/media_ingresos.py:15-18 | when the table has a (2025, 1) row, BASE_IPC is that row's INDICE |
| MediaIngresos.DeflatorQuartersUnique | src/media_ingresos.py:15-22 | no two deflator rows are for the same (year, quarter) |
| MediaIngresos.MatchesOf | src/media_ingresos.py:33-36 | a survey row is paired with exactly the deflator rows of its (ANO4, TRIMESTRE) |
| MediaIngresos.InnerMerge | src/media_ingresos.py:33-36 | the inner join holds exactly the pairs of a survey row and a deflator row of the same quarter |
| MediaIngresos.MatchesOfAtMostOne | src/media_ingresos.py:33-36 | with unique deflator quarters, a survey row matches at most once |
| MediaIngresos.InnerMergeLength | src/media_ingresos.py:33-36 | with unique deflator quarters, the join is no longer than the survey table |
| MediaIngresos.DeflacionarIngresos | src/media_ingresos.py:27-58 | fails exactly when the deflators fail, with the same error |
| MediaIngresos.DeflateRowsSound | src/media_ingresos.py:33-58 | every output row has a real income and comes from a survey row and a matching deflator row: coerced P21, P21_REAL = P21 / deflator, P21_PONDERADO_REAL = P21_REAL · PONDIIO, every other column unchanged |
| MediaIngresos.DeflateRowsComplete | src/media_ingresos.py:33-58 | every matching pair with a defined real income is in the output |
| MediaIngresos.DeflacionarIngresosLength | src/media_ingresos.py:33-58 | the output is no longer than the survey table |
| Graficos.MergeOnKey | src/graficos.py:119-120 | the inner merge has no more rows than the numerator table |
| Graficos.MergeOnKeyAll | src/graficos.py:119-120 | when every numerator key has a denominator row, each numerator row is kept with both sums |
| Graficos.MergedSumsLength | src/graficos.py:108-120 | numerator and denominator share their keys, so the merge loses no key |
| Graficos.MergedSumsAt | src/graficos.py:108-120 | merged row i is the i-th key with its P21_PONDERADO_REAL sum and its PONDIIO sum |
| Graficos.MediaIngresoReal | src/graficos.py:108-127 | one mean-income row per merged row |
| Graficos.MediaIngresoRealRows | src/graficos.py:108-127 | each row carries its key's two sums, their quotient as Media_Ingreso_Real, and PERIODO |
| Graficos.MediaIngresoRealKeys | src/graficos.py:108-120 | keys strictly increase, and a key is listed exactly when some deflated row has it |
| Graficos.DeflatedRowsAreWeighted | src/media_ingresos.py:46-58 | every deflated row has a real income and its weighted income is that times PONDIIO |
| Graficos.MediaIngresoRealTotals | src/graficos.py:108-124 | the Suma_P21_Ponderado_Real and Suma_PONDIIO columns add up to the totals over every keyed deflated row, so the ratio of the column totals is the weighted mean of the ungrouped table |
| Graficos.MediaIngresoRealBounds | src/graficos.py:122-124 | with non-negative weights, a mean lies between any bounds of its group's real incomes |
| Graficos.WeightedMeanBounds | src/graficos.py:108-124 | a weighted mean with non-negative weights lies within the bounds of the values it averages |
| Graficos.GridRows | src/graficos.py:38-39 | nrows = ⌈n / 2⌉: two columns of nrows hold n panels, and one row fewer would not |
| Graficos.DeletedAxes | src/graficos.py:90-91 | the deleted axes are n, n + 1, … in order |
| Graficos.GridFits | src/graficos.py:90-91 | 2·nrows − n axes are deleted, one exactly when n is odd, all of them past the last panel |
| Test.CalculateEmploymentRateCabaWomen | src/test.py:33-88 | None exactly when the table cannot be loaded |
| Test.ReferenceRows | src/test.py:50-63 | the reference rows are exactly the rows with AGLOMERADO 32, CH04 2 and CH06 ≥ 14, and the occupied rows are those of them with ESTADO 1 |
| Test.OccupiedWithinReference | src/test.py:57-66 | with non-negative weights, 0 ≤ occupied weight ≤ total weight |
| Test.RateBounds | src/test.py:70-88 | with non-negative weights the rate is in [0, 100]; it is 100·occupied/total when the total is positive and 0 otherwise |
| Test.RateFromTotals | src/test.py:70-88 | the final step's bounds on plain numbers |
| Test.MissingWeightIgnored | src/test.py:42-66 | a row without a PONDERA changes neither sum and so not the result |
| Test.WeightlessTotal | src/test.py:57-66 | rows without a weight add nothing to a weight total |
| Test.WeightlessSum | src/test.py:57 | a table whose rows have no weight sums to 0 |

## Left out

- HTTP and HTML: fetching the index page, parsing it and streaming downloads are not modelled. The page arrives as its list of `href` values, and failing downloads arrive as a set of hrefs.
- The file system:
  - Files that already exist arrive as a set of names, held fixed for the run. `Scraper.DownloadsFresh` shows that no download of a run reuses another's name.
  - Archive contents arrive as a map from zip name to member list, where a missing entry is a missing zip and `None` is an unreadable one.
  - Loaded tables arrive as a map from zip name to `Option` table.
  - The price file, the sanitised survey files and the single CABA file arrive as `Option` tables.
- Writing CSV files, creating directories and the printed reports are not modelled. A written file is represented by its name and its rows.
- Plot rendering (matplotlib, seaborn, geopandas) and the display-only axis scaling are not modelled.
- The module-level script calls are not modelled.
- Floating point: numbers are exact reals.
  - `MediaIngresos.Divide`: division by zero gives a missing value where pandas gives inf or NaN, so rows with a zero deflator are dropped.
  - `EvolucionMedia.MergeRates`: the unemployment rate is 0 whenever Activa is 0. pandas gives ±inf when Desocupada is non-zero then, which needs negative weights.
- Common.ToNumeric: text is read as an optionally signed decimal numeral. Exponent notation, "inf", "nan" and surrounding whitespace, which pandas also accepts, are not modelled.
- Common.Lower: lowers ASCII letters only. Python's Unicode lowering of other letters is not modelled.
- EvolucionMedia.CalcularTasaEmpleoPorAglomerado: requires every Total_PTR to be non-zero. The source divides without a guard, and pandas would give inf or NaN there.
- Graficos.MediaIngresoReal: requires every Suma_PONDIIO to be non-zero. The source divides without a guard.
- Graficos.GridRows: for n = 0 the source asks for a 0-row subplot grid, which matplotlib rejects. The model gives 0 rows.
- Survey.RowKey: AGLOMERADO is grouped through its numeric view. ANO4 and TRIMESTRE are integers, and PONDIIO is typed as an optional number because the source never coerces it. A float-typed TRIMESTRE column is not modelled.
- Test.ReferenceRows: CH06 is compared through its numeric view. The source compares the raw column, which matters only if that column holds text.
- Utils.IpcRowKey: MES is taken to be a string. A missing (float NaN) MES, on which `.lower()` would raise, is not modelled.
- Sanitize.FilterAreas: `isin([31, 32])` is applied to the raw cell. The text "31" is not kept, as in pandas.
- The `aglomerado` argument of the rate calculator is accepted and ignored, as in the source.
