/**
 * The client-side logic of the indicator dashboard page (`frontend/src/pages/KPIsDashboard.tsx`):
 * the combined search / dimension / sub-dimension filter, the shown-of-total count, value
 * normalisation, and the per-indicator history series fetched for the first rows.
 */
module KpisDashboard {
  import opened Wrappers
  import opened Seqs
  import opened Numeric
  import opened Text
  import opened KpisData

  /** The select options that switch the dimension and sub-dimension filters off. */
  const TodasLasDimensiones: string := "Todas las dimensiones"
  const TodasLasSubdimensiones: string := "Todas las subdimensiones"

  /** `!searchQuery || nombre.toLowerCase().includes(searchQuery.toLowerCase())`. */
  predicate MatchesSearch(nombre: string, query: string) {
    query == "" || Contains(ToLower(nombre), ToLower(query))
  }

  /** The search is a substring test on the lower-cased name; the empty query matches every name. */
  lemma SearchIsSubstring(nombre: string, query: string)
    ensures MatchesSearch(nombre, query) <==> exists i :: OccursAt(ToLower(nombre), ToLower(query), i)
  {
    ContainsIsSubstring(ToLower(nombre), ToLower(query));
    if query == "" {
      assert OccursAt(ToLower(nombre), ToLower(query), 0);
    }
  }

  /** Lower-casing either side first changes nothing: the search ignores case. */
  lemma SearchIgnoresCase(nombre: string, query: string)
    ensures MatchesSearch(ToLower(nombre), query) == MatchesSearch(nombre, query)
    ensures MatchesSearch(nombre, ToLower(query)) == MatchesSearch(nombre, query)
  {
    ToLowerIdempotent(nombre);
    ToLowerIdempotent(query);
  }

  /** All three filters together. */
  predicate Matches(ind: IndicadorConDatos, query: string, dimension: string, subdimension: string) {
    && MatchesSearch(ind.nombre, query)
    && (dimension == TodasLasDimensiones || ind.dimension == dimension)
    && (subdimension == TodasLasSubdimensiones || ind.subdimension == subdimension)
  }

  function MatchesAll(query: string, dimension: string, subdimension: string): IndicadorConDatos -> bool {
    (ind: IndicadorConDatos) => Matches(ind, query, dimension, subdimension)
  }

  /** `filteredIndicadores`: `indicadores?.filter(...) || []`. */
  function FilteredIndicadores(indicadores: Option<seq<IndicadorConDatos>>, query: string,
                               dimension: string, subdimension: string): (r: seq<IndicadorConDatos>)
    ensures indicadores.None? ==> r == []
    ensures forall i :: 0 <= i < |r| ==> Matches(r[i], query, dimension, subdimension)
    ensures indicadores.Some? ==> forall i ::
      (0 <= i < |indicadores.value| && Matches(indicadores.value[i], query, dimension, subdimension)) ==>
        indicadores.value[i] in r
  {
    match indicadores
    case None => []
    case Some(inds) =>
      var r := Filter(MatchesAll(query, dimension, subdimension), inds);
      assert forall i :: 0 <= i < |r| ==> MatchesAll(query, dimension, subdimension)(r[i]);
      r
  }

  /** The filtered list keeps the order of the catalogue. */
  lemma FilteredIsSubsequence(inds: seq<IndicadorConDatos>, query: string, dimension: string, subdimension: string)
    ensures IsSubsequence(FilteredIndicadores(Some(inds), query, dimension, subdimension), inds)
  {
    FilterIsSubsequence(MatchesAll(query, dimension, subdimension), inds);
  }

  /** Each indicator is shown as often as it occurs in the catalogue when it matches, and not at all otherwise. */
  lemma FilteredMultiplicity(inds: seq<IndicadorConDatos>, query: string, dimension: string, subdimension: string,
                             x: IndicadorConDatos)
    ensures multiset(FilteredIndicadores(Some(inds), query, dimension, subdimension))[x]
         == if Matches(x, query, dimension, subdimension) then multiset(inds)[x] else 0
  {
    FilterMultiplicity(MatchesAll(query, dimension, subdimension), inds, x);
  }

  /** With an empty search and both "all" options selected, every indicator is shown. */
  lemma SentinelsShowAll(inds: seq<IndicadorConDatos>)
    ensures FilteredIndicadores(Some(inds), "", TodasLasDimensiones, TodasLasSubdimensiones) == inds
  {
    FilterKeepsAll(MatchesAll("", TodasLasDimensiones, TodasLasSubdimensiones), inds);
  }

  /** `indicadores?.length || 0`, the total the page prints. */
  function TotalShown(indicadores: Option<seq<IndicadorConDatos>>): nat {
    match indicadores
    case None => 0
    case Some(inds) => |inds|
  }

  /** "Mostrando n de m": the shown count never exceeds the total. */
  lemma ShownAtMostTotal(indicadores: Option<seq<IndicadorConDatos>>, query: string, dimension: string, subdimension: string)
    ensures |FilteredIndicadores(indicadores, query, dimension, subdimension)| <= TotalShown(indicadores)
  {
  }

  /** `getNormalizedValue`: 0 for a missing or zero value, otherwise `(v / 100) * 100` kept within `[0, 100]`. */
  function GetNormalizedValue(valor: Option<real>): (r: real)
    ensures 0.0 <= r <= 100.0
    ensures valor.None? || valor.value == 0.0 ==> r == 0.0
    ensures valor.Some? && 0.0 <= valor.value <= 100.0 ==> r == valor.value
    ensures valor.Some? && valor.value > 100.0 ==> r == 100.0
    ensures valor.Some? && valor.value < 0.0 ==> r == 0.0
  {
    if valor.None? || valor.value == 0.0 then 0.0
    else
      var v := valor.value;
      assert (v / 100.0) * 100.0 == v;
      Clamp((v / 100.0) * 100.0)
  }

  /** How many indicators get a history series, and how many periods each series asks for. */
  const HistoryFetchLimit: nat := 10
  const HistoryPeriods: nat := 5

  /** `filteredIndicadores.slice(0, 10)`. */
  function HistoryTargets(filtered: seq<IndicadorConDatos>): (r: seq<IndicadorConDatos>)
    ensures |r| <= HistoryFetchLimit && r <= filtered
    ensures |filtered| >= HistoryFetchLimit ==> |r| == HistoryFetchLimit
    ensures |filtered| < HistoryFetchLimit ==> r == filtered
  {
    Take(filtered, HistoryFetchLimit)
  }

  /** A point of a sparkline; `valor` is `undefined` when the field read does not exist. */
  datatype ChartPoint = ChartPoint(periodo: int, valor: Option<real>)

  /** The mapping as written: it reads `valor_calculado`, which the history points do not carry. */
  function ChartPointAsWritten(p: HistoryPoint): ChartPoint {
    ChartPoint(p.periodo, None)
  }

  function ChartSeriesAsWritten(series: seq<HistoryPoint>): (r: seq<ChartPoint>)
    ensures |r| == |series|
    ensures forall i :: 0 <= i < |r| ==> r[i].periodo == series[i].periodo && r[i].valor.None?
  {
    MapSeq(ChartPointAsWritten, series)
  }

  /** The evidently intended mapping: the point's own `valor`. */
  function ToChartPoint(p: HistoryPoint): ChartPoint {
    ChartPoint(p.periodo, Some(p.valor))
  }

  function FromChartPoint(c: ChartPoint): HistoryPoint {
    HistoryPoint(c.periodo, c.valor.GetOr(0.0))
  }

  function ChartSeries(series: seq<HistoryPoint>): (r: seq<ChartPoint>)
    ensures |r| == |series|
    ensures forall i :: 0 <= i < |r| ==> r[i].periodo == series[i].periodo && r[i].valor == Some(series[i].valor)
  {
    MapSeq(ToChartPoint, series)
  }

  /** The intended sparkline loses nothing: the series can be read back from it. */
  lemma ChartSeriesRoundTrip(series: seq<HistoryPoint>)
    ensures MapSeq(FromChartPoint, ChartSeries(series)) == series
  {
    var back := MapSeq(FromChartPoint, ChartSeries(series));
    assert forall i :: 0 <= i < |series| ==> back[i] == series[i];
  }

  /** As written, a series with a value of 80 draws a point without a value. */
  lemma AsWrittenDropsValues()
    ensures ChartSeriesAsWritten([HistoryPoint(2024, 80.0)])[0].valor.None?
    ensures ChartSeries([HistoryPoint(2024, 80.0)])[0].valor == Some(80.0)
  {
  }

  /** Some indicator among the history targets has this name. */
  predicate IsTargetName(targets: seq<IndicadorConDatos>, nombre: string) {
    exists i :: 0 <= i < |targets| && targets[i].nombre == nombre
  }

  /**
   * The `historicos` dictionary: for each of the first ten filtered indicators whose series is
   * not empty, its sparkline (with the intended mapping). `fetch(nombre)` stands for the awaited
   * `getDatosHistoricosIndicador(nombre, selectedTerritorio, 5)`, which `HistoryFetch` states.
   */
  method BuildHistoricos(filtered: seq<IndicadorConDatos>, fetch: string -> seq<HistoryPoint>)
    returns (historicos: map<string, seq<ChartPoint>>)
    ensures forall n :: n in historicos ==> IsTargetName(HistoryTargets(filtered), n)
    ensures forall n :: n in historicos ==> fetch(n) != [] && historicos[n] == ChartSeries(fetch(n))
    ensures forall i :: 0 <= i < |HistoryTargets(filtered)| && fetch(HistoryTargets(filtered)[i].nombre) != [] ==>
      HistoryTargets(filtered)[i].nombre in historicos
  {
    historicos := map[];
    if |filtered| == 0 {
      return;
    }
    var targets := HistoryTargets(filtered);
    for k := 0 to |targets|
      invariant forall n :: n in historicos ==> IsTargetName(targets[..k], n)
      invariant forall n :: n in historicos ==> fetch(n) != [] && historicos[n] == ChartSeries(fetch(n))
      invariant forall i :: 0 <= i < k && fetch(targets[i].nombre) != [] ==> targets[i].nombre in historicos
    {
      var nombre := targets[k].nombre;
      var data := fetch(nombre);
      if |data| > 0 {
        historicos := historicos[nombre := ChartSeries(data)];
      }
      TargetNamesGrow(targets, k);
    }
    assert targets[..|targets|] == targets;
  }

  /** One more target adds its own name and keeps every earlier one. */
  lemma TargetNamesGrow(targets: seq<IndicadorConDatos>, k: nat)
    requires k < |targets|
    ensures IsTargetName(targets[..k + 1], targets[k].nombre)
    ensures forall n :: IsTargetName(targets[..k], n) ==> IsTargetName(targets[..k + 1], n)
  {
    assert targets[..k + 1][k] == targets[k];
    forall n | IsTargetName(targets[..k], n)
      ensures IsTargetName(targets[..k + 1], n)
    {
      var i :| 0 <= i < k && targets[..k][i].nombre == n;
      assert targets[..k + 1][i] == targets[..k][i];
    }
  }

  /** The fetch the page performs for one indicator: at most five periods, ascending. */
  function HistoryFetch(rows: seq<Resultado>, territorio: string): (fetch: string -> seq<HistoryPoint>)
    ensures forall n :: |fetch(n)| <= HistoryPeriods
  {
    (nombre: string) => GetDatosHistoricosIndicador(rows, nombre, territorio, HistoryPeriods)
  }
}
