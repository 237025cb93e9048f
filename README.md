# BRAINNOVA indicator aggregation, modelled in Dafny

BRAINNOVA is a dashboard of the digital economy of the Comunitat Valenciana. Its indicators
are grouped in dimensions and sub-dimensions. Each indicator has yearly results per
territory: the region itself, España, and four EU peer countries.

This project models three parts of it:

- **The aggregation layer** (`frontend/src/lib/kpis-data.ts`):
  - dimension identifiers derived from names;
  - the indicator catalogue: dimension filter, latest result, `activo` flag and active-first order;
  - per-indicator history series;
  - sub-dimension scores, with territory-synonym and latest-period fallback, the España
    reference and the EU peer average;
  - the dimension score;
  - per-sub-dimension counts and percentage shares.
- **The indicator dashboard page** (`frontend/src/pages/KPIsDashboard.tsx`):
  - the combined search / dimension / sub-dimension filter;
  - the shown-of-total count;
  - value normalisation;
  - the history dictionary built for the first ten rows.
- **The dimensions page** (`frontend/src/pages/Dimensiones.tsx`):
  - the seven fixed cards;
  - grouping the catalogue under the cards;
  - the expanded-card toggle.

The database holds four tables: `dimensiones`, `subdimensiones`, `definicion_indicadores`
and `resultado_indicadores`. The model holds them as a `Db` value of four sequences, in
table order. Each query becomes a pure function over those sequences:

| query form | model |
|---|---|
| `.eq` / `.in` | `Seqs.Filter` |
| `.limit(1)` | the first matching row (`Seqs.FirstIndex`) |
| `.order(desc).limit(1)` | the first row, in table order, among those with the largest key (`Seqs.LatestIndex`) |
| `.order(asc)` | a stable insertion sort (`Seqs.SortByKey`) |
| `.limit(n)` | `Seqs.Take` |
| `count` | the length of the filtered sequence |

The imperative parts stay imperative:

- **The variant loop with `break`** is `KpisData.LookupTerritoryValue`. It is proved equal to
  the recursive specification `KpisData.TerritoryValue`.
- **The in-place `sort`** is `KpisData.SortActiveFirst`, a method on an `array`. It is proved
  to leave `ActiveFirst(old(a[..]))`, which is a stable partition.
- **The `Set` copy-and-mutate of `toggleDimension`** is `DimensionesPage.ToggleDimension`.
- **The `historicos` loop** is `KpisDashboard.BuildHistoricos`.

JavaScript truthiness is modelled explicitly:

- For the territory value, the España value, the latest value of an indicator and the
  `activo` default, a `valor_calculado` of `null` or `0` counts as missing.
- For the EU reference, `Number(d.valor_calculado || 0)` counts a `null` as 0, and a 0 is
  averaged in like any other value.
- In a history point, `Number(item.valor_calculado) || 0` turns a `null` into 0.
- `Math.round(x)` is `Floor(x + 0.5)`.
- `Math.min(100, Math.max(0, x))` is `Numeric.Clamp`.

Numbers are exact reals.

Modules:

- `Wrappers`: `Option`.
- `Seqs`: filter, map, take, searches and the stable sort, with their lemmas.
- `Numeric`: sum, mean bounds, clamp and round.
- `Text`: the JavaScript `\s` class, `toLowerCase`, `includes`.
- `KpisData`, `KpisDashboard`, `DimensionesPage`: one per source file.
- `Scenarios`: concrete tables for the period fallback, the synonym fallback, an indicator
  without results, independent references, the oldest-periods cut of the history, and one
  identifier.

## Model

| member | source | states |
|---|---|---|
| Text.ToLower | frontend/src/lib/kpis-data.ts:50 | same length; character `i` of the result is `ToLowerChar` of character `i` of the input |
| Text.ToLowerIdempotent | frontend/src/pages/KPIsDashboard.tsx:71 | lower-casing twice equals lower-casing once |
| Text.ContainsIsSubstring | frontend/src/pages/KPIsDashboard.tsx:71 | `includes` holds exactly when the needle occurs at some index; the empty needle occurs everywhere |
| Text.ToLowerChar | frontend/src/lib/kpis-data.ts:50 | A–Z go to a–z (code point + 32); Á É Í Ó Ú Ñ Ü go to á é í ó ú ñ ü; every other character is kept; the result is never a modelled capital |
| Numeric.Clamp | frontend/src/lib/kpis-data.ts:429 | result in [0,100]; equals the input inside the range, 0 below it, 100 above it |
| Numeric.Round | frontend/src/lib/kpis-data.ts:468 | the result is the integer within half a unit of `x`, with halves going up |
| Numeric.MeanWithin | frontend/src/lib/kpis-data.ts:426 | the mean of values in [lo,hi] lies in [lo,hi] |
| Seqs.SortByKey | frontend/src/lib/kpis-data.ts:203 | the result is sorted by the key and is a permutation of the input |
| Seqs.SortByKeyStable | frontend/src/lib/kpis-data.ts:203 | elements with equal keys keep their relative order |
| Seqs.LatestIndex | frontend/src/lib/kpis-data.ts:144-145 | None iff no element matches; otherwise a matching element whose key no other match exceeds, with no earlier match of the same key |
| KpisData.FoldVowels | frontend/src/lib/kpis-data.ts:52 | same length; character `i` of the result is `FoldVowel` of character `i` of the input |
| KpisData.FoldVowel | frontend/src/lib/kpis-data.ts:52 | á é í ó ú go to a e i o u; every other character, ñ and ü included, is kept |
| KpisData.CollapseSpaces | frontend/src/lib/kpis-data.ts:51 | no white space remains; the result is no longer than the input |
| KpisData.CollapseRun | frontend/src/lib/kpis-data.ts:51 | one run of white space between two non-space ends becomes exactly one hyphen |
| KpisData.Slug | frontend/src/lib/kpis-data.ts:50-52 | the identifier is no longer than the name; it has no white space, no accented vowel and no capital |
| KpisData.SlugOfWord | frontend/src/lib/kpis-data.ts:50-52 | for a name without white space, character `i` of the identifier is `FoldVowel(ToLowerChar(...))` of character `i` of the name |
| KpisData.SlugJoinsWords | frontend/src/lib/kpis-data.ts:50-52 | the identifier of `a + run + b` is `Slug(a) + "-" + Slug(b)` |
| KpisData.SlugIdempotent | frontend/src/lib/kpis-data.ts:50-52 | deriving an identifier from an identifier gives it back |
| KpisData.GetDimensiones | frontend/src/lib/kpis-data.ts:38-53 | one dimension per row and the same rows; weights descending; each `id` is the `Slug` of its `nombre` |
| KpisData.LatestRow | frontend/src/lib/kpis-data.ts:349-355 | None iff no row matches; otherwise a matching table row with the greatest `periodo` |
| KpisData.ExactRow | frontend/src/lib/kpis-data.ts:335-341 | None iff there is no row at that indicator, territory and period; otherwise such a row |
| KpisData.ResolveVariant | frontend/src/lib/kpis-data.ts:334-360 | a row exists iff the territory name has any row; it is at the exact period when one exists, otherwise at the latest period |
| KpisData.Variations | frontend/src/lib/kpis-data.ts:324-329 | the requested name comes first; every other name maps to itself alone; "Comunitat Valenciana" has four names including "Valencia", "España" three including "Spain" |
| KpisData.ResolveVariantsFirstMatch | frontend/src/lib/kpis-data.ts:333-361 | no row iff no variant has a row; otherwise it is the row of the first variant that has one |
| KpisData.TerritoryValue | frontend/src/lib/kpis-data.ts:324-367 | no value when no name variant has rows; otherwise the truthy value of the exact-then-latest row of the first variant with rows |
| KpisData.TruthyValue | frontend/src/lib/kpis-data.ts:367 | no value iff no row, a null value or a zero value; otherwise the row's value |
| KpisData.LookupTerritoryValue | frontend/src/lib/kpis-data.ts:329-367 | the loop with `break` returns the first-variant, exact-then-latest value |
| KpisData.SpainValue | frontend/src/lib/kpis-data.ts:372-397 | the truthy value of the España row at the exact period when there is one, otherwise of the latest España row; a value is nonzero and taken from an España row |
| KpisData.EuRows | frontend/src/lib/kpis-data.ts:403-409 | the first `min(4, n)` of the `n` peer rows at the exact period, in table order (a prefix of that filter) |
| KpisData.EuValue | frontend/src/lib/kpis-data.ts:400-416 | no value iff no peer row at that period; otherwise the mean over `EuRows` of the values, a null counted as 0; with row values in [0,100], the value lies in [0,100] |
| KpisData.NonNull | frontend/src/lib/kpis-data.ts:421 | no longer than the input; only values present in the input are kept |
| KpisData.NonNullIsPresentValues | frontend/src/lib/kpis-data.ts:421 | the result is exactly the present values, in input order |
| KpisData.NonNullConcat | frontend/src/lib/kpis-data.ts:421 | dropping nulls distributes over concatenation |
| KpisData.CalcularPromedio | frontend/src/lib/kpis-data.ts:420-430 | 0 without valid values; otherwise `Clamp(sum / count)` of the valid values; always in [0,100]; for valid values in range, result × count = sum |
| KpisData.NullsAreIgnored | frontend/src/lib/kpis-data.ts:421-426 | inserting a missing value anywhere leaves the mean unchanged |
| KpisData.ScoreFor | frontend/src/lib/kpis-data.ts:296-444 | named after the sub-dimension; `indicadores` is its definition count; each of the three scores is `CalcularPromedio` of the territory, España or EU values of its definitions; all in [0,100]; all zero without indicators |
| KpisData.SubdimensionesConScores | frontend/src/lib/kpis-data.ts:289-448 | one row per sub-dimension of the dimension, in order; row `i` is `ScoreFor` of sub-dimension `i` |
| KpisData.DimensionScore | frontend/src/lib/kpis-data.ts:458-473 | in [0,100]; 0 without sub-dimensions; otherwise within half a unit of the mean sub-dimension score |
| KpisData.DimensionScoreIgnoresPeso | frontend/src/lib/kpis-data.ts:464-468 | tables that differ only in sub-dimension weights give the same scores |
| KpisData.DimensionOfLastEntry | frontend/src/lib/kpis-data.ts:131-134 | the dimension comes from the last sub-dimension row of that name; "" when there is none |
| KpisData.Enrich | frontend/src/lib/kpis-data.ts:138-169 | `importancia`, `formula`, `fuente` and `origenIndicador` are copied from the definition; `dimension` is `DimensionOf` its sub-dimension; `ultimoValor` and `ultimoPeriodo` come from the indicator's latest row (`TruthyValue`, `PeriodOf`), so a value is nonzero and from a row of the latest period; `totalResultados` counts its rows; no rows gives no value, no period and count 0; `activo` is the stored flag, otherwise "has a latest value" |
| KpisData.PeriodOf | frontend/src/lib/kpis-data.ts:166 | no period iff there is no row or its period is 0; otherwise the row's period |
| KpisData.EnrichedActiveKey | frontend/src/lib/kpis-data.ts:158-176 | an indicator sorts first iff its stored flag is true or it has a latest value |
| KpisData.ActiveFirstPermutation | frontend/src/lib/kpis-data.ts:174-180 | the active-first order is a permutation of its input |
| KpisData.ActiveFirstPartitioned | frontend/src/lib/kpis-data.ts:174-180 | no inactive indicator precedes an active one |
| KpisData.ActiveFirstStable | frontend/src/lib/kpis-data.ts:174-180 | the active group and the inactive group each keep the input order |
| KpisData.SortActiveFirst | frontend/src/lib/kpis-data.ts:174-180 | the array, sorted in place, holds the stable active-first order of its old contents |
| KpisData.GetIndicadoresConDatos | frontend/src/lib/kpis-data.ts:111-182 | returns the active-first order of the enriched, dimension-filtered definitions |
| KpisData.CatalogueOrder | frontend/src/lib/kpis-data.ts:116-180 | the catalogue is a permutation of the enriched filtered definitions, with active before inactive |
| KpisData.DimensionFilterKeepsDimension | frontend/src/lib/kpis-data.ts:119-128 | with a dimension given, a definition is kept iff its sub-dimension belongs to that dimension |
| KpisData.CatalogueCountPerSubdimension | frontend/src/lib/kpis-data.ts:484-485 | the catalogue holds as many indicators of a sub-dimension as the definitions table |
| KpisData.GetIndicadoresPorSubdimension | frontend/src/lib/kpis-data.ts:478-490 | all of the sub-dimension; as many as its definitions; in catalogue order |
| KpisData.GetDatosHistoricosIndicador | frontend/src/lib/kpis-data.ts:192-211 | `min(limit, rows of the pair)` points, periods ascending; the points are the images of a sub-multiset of the pair's rows; every row of the pair older than a returned point is returned too, so the cut keeps the oldest periods |
| KpisData.ToHistoryPoint | frontend/src/lib/kpis-data.ts:208-211 | the period is kept; the value is the row's value, or 0 when it is null |
| KpisData.GetDatosPorSubdimension | frontend/src/lib/kpis-data.ts:221-266 | one entry per sub-dimension of the dimension, in order; the total is the definition count; the count with data is the number of those definitions with a row for the territory (`HasData`), never above the total |
| KpisData.HasResultsInAgrees | frontend/src/lib/kpis-data.ts:245-255 | the `count > 0` test holds iff the table has a row of the indicator in the territory |
| KpisData.TotalIndicadores | frontend/src/lib/kpis-data.ts:523 | 0 for no entries; the count of a single entry; no entry's count exceeds the total |
| KpisData.TotalIndicadoresConcat | frontend/src/lib/kpis-data.ts:523 | the total of a concatenation is the sum of the totals |
| KpisData.Porcentaje | frontend/src/lib/kpis-data.ts:527 | in [0,100]; 0 when the total is 0; otherwise within half a unit of 100·count/total |
| KpisData.GetDistribucionPorSubdimension | frontend/src/lib/kpis-data.ts:495-528 | one entry per sub-dimension, in order; each count is its definition count; every share is `Porcentaje(count, total)`, so it lies in [0,100] and is 0 when the total is 0 |
| KpisData.SharesOf | frontend/src/lib/kpis-data.ts:523-528 | the second pass keeps names, counts and total, and sets each share from the total |
| KpisData.SharesNeedNotSumTo100 | frontend/src/lib/kpis-data.ts:527 | three equal sub-dimensions get 33 each, which sums to 99 |
| KpisData.DistributionTotalIsDimensionCount | frontend/src/lib/kpis-data.ts:495-528 | for sub-dimensions with distinct names, the shares are taken of the number of definitions of the dimension |
| KpisDashboard.SearchIsSubstring | frontend/src/pages/KPIsDashboard.tsx:70-71 | the search holds iff the lower-cased query occurs in the lower-cased name; an empty query always holds |
| KpisDashboard.SearchIgnoresCase | frontend/src/pages/KPIsDashboard.tsx:70-71 | lower-casing the name or the query first does not change the outcome |
| KpisDashboard.FilteredIndicadores | frontend/src/pages/KPIsDashboard.tsx:69-78 | empty without data; every kept indicator passes all three filters; every indicator that passes is kept |
| KpisDashboard.FilteredIsSubsequence | frontend/src/pages/KPIsDashboard.tsx:69-78 | the filtered list keeps catalogue order |
| KpisDashboard.FilteredMultiplicity | frontend/src/pages/KPIsDashboard.tsx:69-78 | a matching indicator is shown as many times as it occurs in the catalogue; a non-matching one never |
| KpisDashboard.SentinelsShowAll | frontend/src/pages/KPIsDashboard.tsx:72-75 | an empty search with both "Todas" options returns the catalogue unchanged |
| KpisDashboard.ShownAtMostTotal | frontend/src/pages/KPIsDashboard.tsx:306 | the shown count never exceeds the total |
| KpisDashboard.GetNormalizedValue | frontend/src/pages/KPIsDashboard.tsx:107-111 | in [0,100]; 0 for a missing or zero value; otherwise the value clamped to [0,100] |
| KpisDashboard.HistoryTargets | frontend/src/pages/KPIsDashboard.tsx:86 | at most ten, a prefix of the filtered list, and all of it when shorter |
| KpisDashboard.ChartSeriesAsWritten | frontend/src/pages/KPIsDashboard.tsx:89-92 | as written, every chart point keeps its period but has no value |
| KpisDashboard.AsWrittenDropsValues | frontend/src/pages/KPIsDashboard.tsx:89-92 | a one-point series of 80 draws without a value as written, and with 80 as intended |
| KpisDashboard.ChartSeries | frontend/src/pages/KPIsDashboard.tsx:89-92 | intended mapping: each point keeps its period and its value |
| KpisDashboard.ChartSeriesRoundTrip | frontend/src/pages/KPIsDashboard.tsx:89-92 | the history series can be read back unchanged from the intended chart points |
| KpisDashboard.BuildHistoricos | frontend/src/pages/KPIsDashboard.tsx:84-95 | keys are names among the first ten filtered indicators; each maps to the chart of its nonempty fetched series; every such target with data is present |
| KpisDashboard.HistoryFetch | frontend/src/pages/KPIsDashboard.tsx:87 | each fetched series has at most five points |
| DimensionesPage.DimensionesData | frontend/src/pages/Dimensiones.tsx:65-115 | seven cards with empty indicator lists, scores in [0,100] and distinct names |
| DimensionesPage.IndicadoresDe | frontend/src/pages/Dimensiones.tsx:119-121 | empty without data; exactly the indicators of the dimension, in catalogue order |
| DimensionesPage.GroupingMultiplicity | frontend/src/pages/Dimensiones.tsx:119-121 | a card holds each indicator of its dimension as many times as the catalogue does, and no other |
| DimensionesPage.Agrupar | frontend/src/pages/Dimensiones.tsx:118-126 | one card per input card, with the same name and score, holding the indicators of its dimension |
| DimensionesPage.DimensionesConIndicadores | frontend/src/pages/Dimensiones.tsx:118-126 | seven cards with the names and scores of `DimensionesData`, card `i` holding `IndicadoresDe` its name |
| DimensionesPage.GroupingIsExact | frontend/src/pages/Dimensiones.tsx:118-125 | a card holds an indicator iff the indicator's dimension is the card's name, in catalogue order |
| DimensionesPage.NoDataEmptyCards | frontend/src/pages/Dimensiones.tsx:119-121 | without data every card is empty |
| DimensionesPage.CardsIndependentOfData | frontend/src/pages/Dimensiones.tsx:122-125 | names, order and scores of the cards do not depend on the data |
| DimensionesPage.SevenCards | frontend/src/pages/Dimensiones.tsx:65-126 | the page always has seven cards |
| DimensionesPage.CardsAreDisjoint | frontend/src/pages/Dimensiones.tsx:118-126 | on cards with distinct names, no indicator appears on two cards |
| DimensionesPage.FixedCardsAreDisjoint | frontend/src/pages/Dimensiones.tsx:65-126 | on the seven fixed cards, no indicator appears twice |
| DimensionesPage.ToggleDimension | frontend/src/pages/Dimensiones.tsx:128-136 | the toggled name flips membership; every other name keeps its membership |
| DimensionesPage.ToggleInvolution | frontend/src/pages/Dimensiones.tsx:128-136 | toggling the same card twice restores the set |
| DimensionesPage.TogglesCommute | frontend/src/pages/Dimensiones.tsx:128-136 | toggles of two cards give the same set in either order |
| Scenarios.FallbackToLatestPeriod | frontend/src/lib/kpis-data.ts:333-361 | with only a 2022 result, a request for 2023 returns the 2022 value |
| Scenarios.FallbackToSynonym | frontend/src/lib/kpis-data.ts:324-361 | a result stored under "Valencia" is found for "Comunitat Valenciana" |
| Scenarios.NoResultsNoValue | frontend/src/lib/kpis-data.ts:333-367 | an indicator with no results resolves to no value |
| Scenarios.MissingIndicatorIsExcluded | frontend/src/lib/kpis-data.ts:420-432 | indicators A (80) and B (no data) give a sub-dimension score of 80, not 40 |
| Scenarios.ReferencesAreIndependent | frontend/src/lib/kpis-data.ts:321-433 | no territory data gives score 0, while España's value of 70 still gives 70 |
| Scenarios.HistoryKeepsOldestPeriods | frontend/src/lib/kpis-data.ts:192-211 | with results for 2024 and 2020 and a limit of one, the history is the 2020 point |
| Scenarios.SlugOfEducacion | frontend/src/lib/kpis-data.ts:50-52 | "Educación" gets the identifier "educacion" |

## Left out

- **Supabase client, network, authentication and `async`/`Promise.all`.** Every read is a pure
  function of the `Db` value. No property depends on how requests interleave.
- **Query failures and logging.** Each `try`/`catch` maps a failure to `[]` or `0`, and each
  `console.log`/`console.error` only writes diagnostics. The model assumes every query
  succeeds.
- **Row order the database does not fix.**
  - `.limit(1)` and `order desc limit 1` resolve ties by first in table order.
  - Ties in the `peso` order of `getDimensiones` keep table order.
  - `subdimensiones` and `indicadores` are held in the order in which `getSubdimensiones`
    (`nombre_dimension, peso`) and `getIndicadores` (`nombre`) return them. The model does
    not compute that order, which depends on collation.
- **The retry without `activo`** in `getIndicadores` (frontend/src/lib/kpis-data.ts:84-98). It
  depends on the text of a database error. A stored flag is modelled as `Option<bool>`, and
  SQL NULL is not told apart from undefined.
- **Floating point.** Values are exact reals, so `(v / 100) * 100` equals `v`. IEEE rounding,
  `NaN` and `Number(...)` coercion are not modelled.
- **Period defaults.** `periodo` is a non-null integer, so `periodo || 0` is the identity.
- Text.ToLower: covers ASCII capitals and Á É Í Ó Ú Ñ Ü only; every other capital, including
  other Latin accented capitals such as À È Ò Ç Ï and the capitals of other alphabets, is kept
  unchanged, although JavaScript's `toLowerCase` lowers them.
- **Territory keys.** A territory named like an `Object.prototype` member (`paisVariations[pais]`)
  is not modelled.
- **Unused parameters.** `getIndicadoresPorSubdimension` takes territory and period but ignores
  them. `getDistribucionPorSubdimension` does the same. The model omits both pairs.
- **Card text and icons.** Each card's `descripcion` and `icon` are display text.
- **KpisDashboard.BuildHistoricos:** the awaited history query is a `fetch` parameter (stated by
  `KpisDashboard.HistoryFetch`). The method uses the corrected point mapping; the as-written
  mapping is `ChartSeriesAsWritten` (see Findings). The query-cache key and `enabled` flag are
  not modelled.
- **UI and elsewhere.** JSX rendering, selects, menus, charts, the CSV export, React query
  caching, `DimensionDetail.tsx` and the route wiring in `App.tsx` are not part of this model.

## Findings

| source | as written | input that shows it | evidently intended | confidence | as-written member | corrected member |
|---|---|---|---|---|---|---|
| frontend/src/pages/KPIsDashboard.tsx:89-92 | each chart point reads `d.valor_calculado`, but the history points carry `{ periodo, valor }` (frontend/src/lib/kpis-data.ts:208-211), so every point's value is `undefined` | the series `[HistoryPoint(2024, 80.0)]` | `valor: d.valor` | not executed | KpisDashboard.ChartSeriesAsWritten | KpisDashboard.ChartSeries |
