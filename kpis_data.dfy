/**
 * The aggregation layer of the BRAINNOVA dashboard (`frontend/src/lib/kpis-data.ts`).
 *
 * Each database table is a sequence of rows held in memory; a query becomes a filter,
 * sort or take over that sequence. Where the source leaves the row chosen by `.limit(1)`
 * open, the model takes the first matching row in table order.
 */
module KpisData {
  import opened Wrappers
  import opened Seqs
  import opened Numeric
  import opened Text

  // ---------------------------------------------------------------------------------
  // Tables
  // ---------------------------------------------------------------------------------

  /** A row of `dimensiones`. */
  datatype DimensionRow = DimensionRow(nombre: string, peso: real)

  /** A row of `subdimensiones`. */
  datatype Subdimension = Subdimension(nombre: string, nombreDimension: string, peso: real)

  /** A row of `definicion_indicadores`; `activo` is `None` when the flag is undefined. */
  datatype Indicador = Indicador(
    nombre: string,
    nombreSubdimension: string,
    importancia: Option<string>,
    formula: Option<string>,
    fuente: Option<string>,
    origenIndicador: Option<string>,
    activo: Option<bool>)

  /** A row of `resultado_indicadores`; `valorCalculado` is nullable. */
  datatype Resultado = Resultado(nombreIndicador: string, pais: string, periodo: int, valorCalculado: Option<real>)

  /**
   * The database. `subdimensiones` and `indicadores` are in the order in which
   * `getSubdimensiones` and `getIndicadores` return them; `dimensiones` and
   * `resultados` are in table order.
   */
  datatype Db = Db(
    dimensiones: seq<DimensionRow>,
    subdimensiones: seq<Subdimension>,
    indicadores: seq<Indicador>,
    resultados: seq<Resultado>)

  // ---------------------------------------------------------------------------------
  // Records returned to the pages
  // ---------------------------------------------------------------------------------

  datatype Dimension = Dimension(nombre: string, peso: real, id: string)

  /** An indicator joined with its dimension and its latest result. */
  datatype IndicadorConDatos = IndicadorConDatos(
    nombre: string,
    nombreSubdimension: string,
    importancia: Option<string>,
    formula: Option<string>,
    fuente: Option<string>,
    origenIndicador: Option<string>,
    dimension: string,
    subdimension: string,
    ultimoValor: Option<real>,
    ultimoPeriodo: Option<int>,
    totalResultados: nat,
    activo: bool)

  datatype HistoryPoint = HistoryPoint(periodo: int, valor: real)

  datatype DatosSubdimension = DatosSubdimension(subdimension: string, totalIndicadores: nat, indicadoresConDatos: nat)

  datatype SubdimensionScore = SubdimensionScore(nombre: string, score: real, espana: real, ue: real, indicadores: nat)

  datatype Distribucion = Distribucion(nombre: string, porcentaje: int, totalIndicadores: nat)

  // ---------------------------------------------------------------------------------
  // getDimensiones: identifiers derived from names
  // ---------------------------------------------------------------------------------

  /** The accented vowels the identifier folds; `ñ` and `ü` are not among them. */
  predicate IsFoldedVowel(c: char) {
    c == 'á' || c == 'é' || c == 'í' || c == 'ó' || c == 'ú'
  }

  function FoldVowel(c: char): (r: char)
    ensures !IsFoldedVowel(r)
    ensures !IsFoldedVowel(c) ==> r == c
    ensures !IsSpace(c) ==> !IsSpace(r)
    ensures !IsUpper(c) ==> !IsUpper(r)
    ensures c == 'á' ==> r == 'a'
    ensures c == 'é' ==> r == 'e'
    ensures c == 'í' ==> r == 'i'
    ensures c == 'ó' ==> r == 'o'
    ensures c == 'ú' ==> r == 'u'
  {
    match c
    case 'á' => 'a'
    case 'é' => 'e'
    case 'í' => 'i'
    case 'ó' => 'o'
    case 'ú' => 'u'
    case _ => c
  }

  /** `.replace(/[áéíóú]/g, ...)`. */
  function FoldVowels(s: string): (r: string)
    ensures |r| == |s|
    ensures forall i :: 0 <= i < |r| ==> !IsFoldedVowel(r[i])
    ensures forall i :: 0 <= i < |s| && !IsFoldedVowel(s[i]) ==> r[i] == s[i]
    ensures forall i :: 0 <= i < |s| ==> r[i] == FoldVowel(s[i])
  {
    seq(|s|, i requires 0 <= i < |s| => FoldVowel(s[i]))
  }

  /** The rest of `s` once its leading white space is dropped. */
  function SkipSpaces(s: string): (r: string)
    ensures |r| <= |s| && r == s[|s| - |r|..]
    ensures r == [] || !IsSpace(r[0])
    ensures forall i :: 0 <= i < |s| - |r| ==> IsSpace(s[i])
  {
    if s != [] && IsSpace(s[0]) then SkipSpaces(s[1..]) else s
  }

  /** `.replace(/\s+/g, "-")`: every maximal run of white space becomes one hyphen. */
  function CollapseSpaces(s: string): (r: string)
    ensures |r| <= |s|
    ensures forall i :: 0 <= i < |r| ==> !IsSpace(r[i])
    decreases |s|
  {
    if s == [] then []
    else if IsSpace(s[0]) then
      var rest := SkipSpaces(s);
      assert |rest| < |s|;
      ['-'] + CollapseSpaces(rest)
    else [s[0]] + CollapseSpaces(s[1..])
  }

  /** Collapsing adds only hyphens, so a string without capitals stays without them. */
  lemma CollapseKeepsLowerCase(s: string)
    requires forall i :: 0 <= i < |s| ==> !IsUpper(s[i])
    ensures forall i :: 0 <= i < |CollapseSpaces(s)| ==> !IsUpper(CollapseSpaces(s)[i])
    decreases |s|
  {
    if s != [] {
      if IsSpace(s[0]) {
        var rest := SkipSpaces(s);
        assert rest == s[|s| - |rest|..];
        CollapseKeepsLowerCase(rest);
      } else {
        CollapseKeepsLowerCase(s[1..]);
      }
    }
  }

  /** The identifier of a dimension: lower-cased, white-space runs turned into `-`, vowels unaccented. */
  function Slug(nombre: string): (id: string)
    ensures |id| <= |nombre|
    ensures forall i :: 0 <= i < |id| ==> !IsSpace(id[i]) && !IsFoldedVowel(id[i]) && !IsUpper(id[i])
  {
    CollapseKeepsLowerCase(ToLower(nombre));
    FoldVowels(CollapseSpaces(ToLower(nombre)))
  }

  lemma CollapseWithoutSpaces(s: string)
    requires forall i :: 0 <= i < |s| ==> !IsSpace(s[i])
    ensures CollapseSpaces(s) == s
    decreases |s|
  {
    if s != [] {
      CollapseWithoutSpaces(s[1..]);
    }
  }

  lemma SkipAllSpaces(w: string, b: string)
    requires forall i :: 0 <= i < |w| ==> IsSpace(w[i])
    requires b == [] || !IsSpace(b[0])
    ensures SkipSpaces(w + b) == b
    decreases |w|
  {
    if w != [] {
      assert (w + b)[1..] == w[1..] + b;
      SkipAllSpaces(w[1..], b);
    } else {
      assert w + b == b;
    }
  }

  lemma SkipSpacesPrefix(a: string, rest: string)
    requires a != [] && !IsSpace(a[|a| - 1])
    ensures SkipSpaces(a + rest) == SkipSpaces(a) + rest
    decreases |a|
  {
    var s := a + rest;
    assert s[0] == a[0];
    if IsSpace(a[0]) {
      assert |a| >= 2;
      assert s[1..] == a[1..] + rest;
      SkipSpacesPrefix(a[1..], rest);
      assert SkipSpaces(s) == SkipSpaces(a[1..] + rest);
      assert SkipSpaces(a) == SkipSpaces(a[1..]);
    }
  }

  lemma CollapseSpaceHead(s: string)
    requires s != [] && IsSpace(s[0])
    ensures CollapseSpaces(s) == "-" + CollapseSpaces(SkipSpaces(s))
  {
  }

  lemma CollapseTextHead(s: string)
    requires s != [] && !IsSpace(s[0])
    ensures CollapseSpaces(s) == [s[0]] + CollapseSpaces(s[1..])
  {
  }

  /** Leading white space of `a` collapses to the hyphen in front of the rest of `a`. */
  lemma SkipLeadingRun(a: string)
    requires a != [] && IsSpace(a[0]) && !IsSpace(a[|a| - 1])
    ensures 0 < |SkipSpaces(a)| < |a| && !IsSpace(SkipSpaces(a)[|SkipSpaces(a)| - 1])
  {
    var a' := SkipSpaces(a);
    assert a' == a[|a| - |a'|..];
  }

  lemma CollapseAfterLeadingRun(a: string, t: string)
    requires a != [] && IsSpace(a[0]) && !IsSpace(a[|a| - 1])
    ensures CollapseSpaces(a + t) == "-" + CollapseSpaces(SkipSpaces(a) + t)
  {
    SkipSpacesPrefix(a, t);
    CollapseSpaceHead(a + t);
  }

  lemma CollapseRunSpaceStep(a: string, w: string, b: string)
    requires a != [] && IsSpace(a[0]) && !IsSpace(a[|a| - 1])
    requires CollapseSpaces(SkipSpaces(a) + w + b) == CollapseSpaces(SkipSpaces(a)) + "-" + CollapseSpaces(b)
    ensures CollapseSpaces(a + w + b) == CollapseSpaces(a) + "-" + CollapseSpaces(b)
  {
    var a', t := SkipSpaces(a), w + b;
    CollapseAfterLeadingRun(a, t);
    ConcatAssoc(a', w, b);
    ConcatAssoc(a, w, b);
    CollapseSpaceHead(a);
    var x, y := CollapseSpaces(a'), CollapseSpaces(b);
    ConcatAssoc("-", x + "-", y);
    ConcatAssoc("-", x, "-");
  }

  lemma CollapseRunTextStep(a: string, w: string, b: string)
    requires a != [] && !IsSpace(a[0])
    ensures CollapseSpaces(a + w + b) == [a[0]] + CollapseSpaces(a[1..] + w + b)
    ensures CollapseSpaces(a) == [a[0]] + CollapseSpaces(a[1..])
  {
    var s := a + w + b;
    assert s[0] == a[0];
    assert s[1..] == a[1..] + w + b;
    CollapseTextHead(s);
    CollapseTextHead(a);
  }

  /** One run of white space between two words turns into exactly one hyphen. */
  lemma {:induction false} CollapseRun(a: string, w: string, b: string)
    requires a == [] || !IsSpace(a[|a| - 1])
    requires w != [] && forall i :: 0 <= i < |w| ==> IsSpace(w[i])
    requires b == [] || !IsSpace(b[0])
    ensures CollapseSpaces(a + w + b) == CollapseSpaces(a) + "-" + CollapseSpaces(b)
    decreases |a|
  {
    if a == [] {
      assert a + w + b == w + b;
      SkipAllSpaces(w, b);
      CollapseSpaceHead(w + b);
      assert CollapseSpaces(a) + "-" == "-";
    } else if IsSpace(a[0]) {
      SkipLeadingRun(a);
      CollapseRun(SkipSpaces(a), w, b);
      CollapseRunSpaceStep(a, w, b);
    } else {
      CollapseRunTextStep(a, w, b);
      CollapseRun(a[1..], w, b);
      var x, y := CollapseSpaces(a[1..]), CollapseSpaces(b);
      ConcatAssoc([a[0]], x + "-", y);
      ConcatAssoc([a[0]], x, "-");
    }
  }

  /** Applying the derivation to an identifier gives the identifier back. */
  lemma SlugIdempotent(nombre: string)
    ensures Slug(Slug(nombre)) == Slug(nombre)
  {
    var id := Slug(nombre);
    assert ToLower(id) == id;
    CollapseWithoutSpaces(id);
    assert FoldVowels(id) == id;
  }

  lemma ToLowerConcat(x: string, y: string)
    ensures ToLower(x + y) == ToLower(x) + ToLower(y)
  {
  }

  lemma FoldVowelsConcat(x: string, y: string)
    ensures FoldVowels(x + y) == FoldVowels(x) + FoldVowels(y)
  {
  }

  /** Lower-casing keeps white space where it is. */
  lemma ToLowerKeepsSpaces(x: string)
    ensures forall i :: 0 <= i < |x| ==> (IsSpace(ToLower(x)[i]) <==> IsSpace(x[i]))
  {
    forall i | 0 <= i < |x|
      ensures IsSpace(ToLower(x)[i]) <==> IsSpace(x[i])
    {
      assert ToLower(x)[i] == ToLowerChar(x[i]);
    }
  }

  lemma FoldAroundHyphen(ca: string, cb: string)
    ensures FoldVowels(ca + "-" + cb) == FoldVowels(ca) + "-" + FoldVowels(cb)
  {
    FoldVowelsConcat(ca + "-", cb);
    FoldVowelsConcat(ca, "-");
    assert FoldVowels("-") == "-";
  }

  /** On a name without white space the identifier is the name letter by letter, lower-cased and unaccented. */
  lemma SlugOfWord(nombre: string)
    requires forall i :: 0 <= i < |nombre| ==> !IsSpace(nombre[i])
    ensures |Slug(nombre)| == |nombre|
    ensures forall i :: 0 <= i < |nombre| ==> Slug(nombre)[i] == FoldVowel(ToLowerChar(nombre[i]))
  {
    ToLowerKeepsSpaces(nombre);
    CollapseWithoutSpaces(ToLower(nombre));
  }

  /** A run of white space between two words becomes a single hyphen of the identifier. */
  lemma SlugJoinsWords(a: string, w: string, b: string)
    requires a == [] || !IsSpace(a[|a| - 1])
    requires w != [] && forall i :: 0 <= i < |w| ==> IsSpace(w[i])
    requires b == [] || !IsSpace(b[0])
    ensures Slug(a + w + b) == Slug(a) + "-" + Slug(b)
  {
    var la, lw, lb := ToLower(a), ToLower(w), ToLower(b);
    ToLowerConcat(a + w, b);
    ToLowerConcat(a, w);
    assert ToLower(a + w + b) == la + lw + lb;
    ToLowerKeepsSpaces(a);
    ToLowerKeepsSpaces(w);
    ToLowerKeepsSpaces(b);
    CollapseRun(la, lw, lb);
    FoldAroundHyphen(CollapseSpaces(la), CollapseSpaces(lb));
  }

  function NegPeso(d: DimensionRow): real {
    -d.peso
  }

  function WithId(d: DimensionRow): Dimension {
    Dimension(d.nombre, d.peso, Slug(d.nombre))
  }

  function RowOf(d: Dimension): DimensionRow {
    DimensionRow(d.nombre, d.peso)
  }

  /** `getDimensiones`: the dimensions by descending weight, each with its identifier. */
  function GetDimensiones(db: Db): (r: seq<Dimension>)
    ensures |r| == |db.dimensiones|
    ensures multiset(MapSeq(RowOf, r)) == multiset(db.dimensiones)
    ensures forall i, j :: 0 <= i < j < |r| ==> r[i].peso >= r[j].peso
    ensures forall i :: 0 <= i < |r| ==> r[i].id == Slug(r[i].nombre)
  {
    var sorted := SortByKey(db.dimensiones, NegPeso);
    var r := MapSeq(WithId, sorted);
    assert MapSeq(RowOf, r) == sorted;
    r
  }

  // ---------------------------------------------------------------------------------
  // Row selection over resultado_indicadores
  // ---------------------------------------------------------------------------------

  function ForIndicator(nombre: string): Resultado -> bool {
    (r: Resultado) => r.nombreIndicador == nombre
  }

  function ForTerritory(nombre: string, pais: string): Resultado -> bool {
    (r: Resultado) => r.nombreIndicador == nombre && r.pais == pais
  }

  function AtPeriod(nombre: string, pais: string, periodo: int): Resultado -> bool {
    (r: Resultado) => r.nombreIndicador == nombre && r.pais == pais && r.periodo == periodo
  }

  function PeriodoOf(r: Resultado): int {
    r.periodo
  }

  /** There is a row for the indicator in the territory. */
  predicate HasRows(rows: seq<Resultado>, nombre: string, pais: string) {
    exists i :: 0 <= i < |rows| && rows[i].nombreIndicador == nombre && rows[i].pais == pais
  }

  /** `.eq(...).order("periodo", { ascending: false }).limit(1)`. */
  function LatestRow(rows: seq<Resultado>, p: Resultado -> bool): (r: Option<Resultado>)
    ensures r.None? <==> forall i :: 0 <= i < |rows| ==> !p(rows[i])
    ensures r.Some? ==> r.value in rows && p(r.value)
    ensures r.Some? ==> forall i :: 0 <= i < |rows| && p(rows[i]) ==> rows[i].periodo <= r.value.periodo
  {
    match LatestIndex(rows, p, PeriodoOf)
    case Some(i) => Some(rows[i])
    case None => None
  }

  /** `.eq("pais", pais).eq("periodo", periodo).limit(1)`. */
  function ExactRow(rows: seq<Resultado>, nombre: string, pais: string, periodo: int): (r: Option<Resultado>)
    ensures r.None? <==> forall i :: 0 <= i < |rows| ==> !AtPeriod(nombre, pais, periodo)(rows[i])
    ensures r.Some? ==> r.value in rows && r.value.nombreIndicador == nombre && r.value.pais == pais && r.value.periodo == periodo
  {
    match FirstIndex(rows, AtPeriod(nombre, pais, periodo))
    case Some(i) => Some(rows[i])
    case None => None
  }

  /**
   * One territory name: the row at the exact period, else the row of the latest period.
   * There is a row exactly when the territory has any row for the indicator.
   */
  function ResolveVariant(rows: seq<Resultado>, nombre: string, pais: string, periodo: int): (r: Option<Resultado>)
    ensures r.Some? <==> HasRows(rows, nombre, pais)
    ensures r.Some? ==> r.value in rows && r.value.nombreIndicador == nombre && r.value.pais == pais
    ensures r.Some? && ExactRow(rows, nombre, pais, periodo).Some? ==> r.value.periodo == periodo
    ensures r.Some? && ExactRow(rows, nombre, pais, periodo).None? ==>
      forall i :: 0 <= i < |rows| && rows[i].nombreIndicador == nombre && rows[i].pais == pais ==>
        rows[i].periodo <= r.value.periodo
  {
    match ExactRow(rows, nombre, pais, periodo)
    case Some(row) => Some(row)
    case None =>
      var latest := LatestRow(rows, ForTerritory(nombre, pais));
      assert latest.Some? ==> ForTerritory(nombre, pais)(latest.value);
      assert HasRows(rows, nombre, pais) ==> latest.Some? by {
        if HasRows(rows, nombre, pais) {
          var i :| 0 <= i < |rows| && rows[i].nombreIndicador == nombre && rows[i].pais == pais;
          assert ForTerritory(nombre, pais)(rows[i]);
        }
      }
      latest
  }

  /** `paisVariations[pais] || [pais]`: the names tried for a territory, in order. */
  function Variations(pais: string): (vs: seq<string>)
    ensures |vs| > 0 && vs[0] == pais
    ensures pais != "Comunitat Valenciana" && pais != "España" ==> vs == [pais]
    ensures pais == "Comunitat Valenciana" ==> |vs| == 4 && "Valencia" in vs
    ensures pais == "España" ==> |vs| == 3 && "Spain" in vs
  {
    if pais == "Comunitat Valenciana" then
      ["Comunitat Valenciana", "Comunidad Valenciana", "Valencia", "CV"]
    else if pais == "España" then
      ["España", "Spain", "Esp"]
    else
      [pais]
  }

  /** The row of the first name in `variants` that has any row for the indicator. */
  function ResolveVariants(rows: seq<Resultado>, nombre: string, variants: seq<string>, periodo: int): Option<Resultado>
  {
    if variants == [] then None
    else match ResolveVariant(rows, nombre, variants[0], periodo)
      case Some(row) => Some(row)
      case None => ResolveVariants(rows, nombre, variants[1..], periodo)
  }

  /** The search stops at the first name with any row, and finds none only when no name has a row. */
  lemma {:induction false} ResolveVariantsFirstMatch(rows: seq<Resultado>, nombre: string, variants: seq<string>, periodo: int)
    ensures ResolveVariants(rows, nombre, variants, periodo).None? <==>
      forall k :: 0 <= k < |variants| ==> !HasRows(rows, nombre, variants[k])
    ensures ResolveVariants(rows, nombre, variants, periodo).Some? ==>
      exists k :: 0 <= k < |variants| && HasRows(rows, nombre, variants[k])
        && ResolveVariants(rows, nombre, variants, periodo) == ResolveVariant(rows, nombre, variants[k], periodo)
        && forall j :: 0 <= j < k ==> !HasRows(rows, nombre, variants[j])
  {
    if variants != [] {
      ResolveVariantsFirstMatch(rows, nombre, variants[1..], periodo);
      if ResolveVariant(rows, nombre, variants[0], periodo).Some? {
        assert HasRows(rows, nombre, variants[0]);
      } else {
        var r := ResolveVariants(rows, nombre, variants, periodo);
        assert r == ResolveVariants(rows, nombre, variants[1..], periodo);
        if r.Some? {
          var k :| 0 <= k < |variants[1..]| && HasRows(rows, nombre, variants[1..][k])
            && r == ResolveVariant(rows, nombre, variants[1..][k], periodo)
            && forall j :: 0 <= j < k ==> !HasRows(rows, nombre, variants[1..][j]);
          FirstMatchShifts(rows, nombre, variants, k);
          assert HasRows(rows, nombre, variants[k + 1]) && r == ResolveVariant(rows, nombre, variants[k + 1], periodo);
        } else {
          NoMatchShifts(rows, nombre, variants);
        }
      }
    }
  }

  /** A first match at index `k` of the tail is a first match at `k + 1` when the head has no rows. */
  lemma FirstMatchShifts(rows: seq<Resultado>, nombre: string, variants: seq<string>, k: nat)
    requires 0 <= k < |variants| - 1
    requires !HasRows(rows, nombre, variants[0])
    requires forall j :: 0 <= j < k ==> !HasRows(rows, nombre, variants[1..][j])
    ensures variants[k + 1] == variants[1..][k]
    ensures forall j :: 0 <= j < k + 1 ==> !HasRows(rows, nombre, variants[j])
  {
    forall j | 0 <= j < k + 1
      ensures !HasRows(rows, nombre, variants[j])
    {
      if j > 0 {
        assert variants[j] == variants[1..][j - 1];
      }
    }
  }

  lemma NoMatchShifts(rows: seq<Resultado>, nombre: string, variants: seq<string>)
    requires variants != [] && !HasRows(rows, nombre, variants[0])
    requires forall k :: 0 <= k < |variants[1..]| ==> !HasRows(rows, nombre, variants[1..][k])
    ensures forall k :: 0 <= k < |variants| ==> !HasRows(rows, nombre, variants[k])
  {
    forall k | 0 <= k < |variants|
      ensures !HasRows(rows, nombre, variants[k])
    {
      if k > 0 {
        assert variants[k] == variants[1..][k - 1];
      }
    }
  }

  /** `data?.[0]?.valor_calculado ? Number(...) : null`: a null or zero value counts as missing. */
  function TruthyValue(row: Option<Resultado>): (v: Option<real>)
    ensures v.None? <==> row.None? || row.value.valorCalculado.None? || row.value.valorCalculado.value == 0.0
    ensures v.Some? ==> v == row.value.valorCalculado
  {
    if row.Some? && row.value.valorCalculado.Some? && row.value.valorCalculado.value != 0.0
    then row.value.valorCalculado
    else None
  }

  /** The territory's value of an indicator, trying the territory's name variants in order. */
  function TerritoryValue(rows: seq<Resultado>, nombre: string, pais: string, periodo: int): (v: Option<real>)
    ensures var vs := Variations(pais);
      (forall k :: 0 <= k < |vs| ==> !HasRows(rows, nombre, vs[k])) ==> v.None?
    ensures var vs := Variations(pais);
      forall k :: 0 <= k < |vs| && HasRows(rows, nombre, vs[k]) && (forall j :: 0 <= j < k ==> !HasRows(rows, nombre, vs[j])) ==>
        v == TruthyValue(ResolveVariant(rows, nombre, vs[k], periodo))
  {
    var vs := Variations(pais);
    ResolveVariantsFirstMatch(rows, nombre, vs, periodo);
    TruthyValue(ResolveVariants(rows, nombre, vs, periodo))
  }

  /** The loop of `getSubdimensionesConScores` that tries each name variant with `break`. */
  method LookupTerritoryValue(rows: seq<Resultado>, nombre: string, pais: string, periodo: int)
    returns (v: Option<real>)
    ensures v == TerritoryValue(rows, nombre, pais, periodo)
  {
    var variations := Variations(pais);
    var data: Option<Resultado> := None;
    for k := 0 to |variations|
      invariant data.None?
      invariant ResolveVariants(rows, nombre, variations, periodo)
             == ResolveVariants(rows, nombre, variations[k..], periodo)
    {
      assert variations[k..][0] == variations[k];
      assert variations[k..][1..] == variations[k + 1..];
      var periodData := ExactRow(rows, nombre, variations[k], periodo);
      if periodData.Some? {
        data := periodData;
        break;
      }
      var lastData := LatestRow(rows, ForTerritory(nombre, variations[k]));
      if lastData.Some? {
        data := lastData;
        break;
      }
    }
    v := TruthyValue(data);
  }

  /** The Spain value: the same exact-then-latest rule, for the single name "España". */
  function SpainValue(rows: seq<Resultado>, nombre: string, periodo: int): (v: Option<real>)
    ensures ExactRow(rows, nombre, "España", periodo).Some? ==> v == TruthyValue(ExactRow(rows, nombre, "España", periodo))
    ensures ExactRow(rows, nombre, "España", periodo).None? ==>
      v == TruthyValue(LatestRow(rows, ForTerritory(nombre, "España")))
    ensures v.Some? ==> v.value != 0.0
    ensures v.Some? ==>
      exists i :: 0 <= i < |rows| && rows[i].nombreIndicador == nombre && rows[i].pais == "España" && rows[i].valorCalculado == v
  {
    TruthyValue(ResolveVariant(rows, nombre, "España", periodo))
  }

  /** The four peer countries of the EU reference. */
  const PaisesUE: seq<string> := ["Alemania", "Francia", "Italia", "Países Bajos"]

  function InUE(nombre: string, periodo: int): Resultado -> bool {
    (r: Resultado) => r.nombreIndicador == nombre && r.periodo == periodo && r.pais in PaisesUE
  }

  /** `.eq("periodo", periodo).in("pais", PaisesUE).limit(4)`. */
  function EuRows(rows: seq<Resultado>, nombre: string, periodo: int): (r: seq<Resultado>)
    ensures |r| <= 4
    ensures forall i :: 0 <= i < |r| ==>
      r[i] in rows && r[i].nombreIndicador == nombre && r[i].periodo == periodo && r[i].pais in PaisesUE
    ensures var peers := Filter(InUE(nombre, periodo), rows);
      r <= peers && |r| == if |peers| <= 4 then |peers| else 4
  {
    Take(Filter(InUE(nombre, periodo), rows), 4)
  }

  /** `Number(d.valor_calculado || 0)`. */
  function ValueOrZero(r: Resultado): real {
    r.valorCalculado.GetOr(0.0)
  }

  /** The EU reference: the mean of at most four peer rows at the exact period, null rows counting as 0. */
  function EuValue(rows: seq<Resultado>, nombre: string, periodo: int): (v: Option<real>)
    ensures v.None? <==> forall i :: 0 <= i < |rows| ==> !InUE(nombre, periodo)(rows[i])
    ensures v.Some? && (forall i :: 0 <= i < |rows| ==> 0.0 <= ValueOrZero(rows[i]) <= 100.0) ==>
      0.0 <= v.value <= 100.0
    ensures v.Some? ==> var eu := EuRows(rows, nombre, periodo);
      eu != [] && v.value == Sum(MapSeq(ValueOrZero, eu)) / |eu| as real
  {
    var eu := EuRows(rows, nombre, periodo);
    NoPeerRows(rows, nombre, periodo, eu);
    if eu == [] then None
    else
      var vals := MapSeq(ValueOrZero, eu);
      var mean := Sum(vals) / |vals| as real;
      EuMeanBounds(rows, eu, vals, mean);
      Some(mean)
  }

  lemma NoPeerRows(rows: seq<Resultado>, nombre: string, periodo: int, eu: seq<Resultado>)
    requires eu == EuRows(rows, nombre, periodo)
    ensures eu == [] <==> forall i :: 0 <= i < |rows| ==> !InUE(nombre, periodo)(rows[i])
  {
    var peers := Filter(InUE(nombre, periodo), rows);
    if eu == [] {
      assert |peers| == 0;
    }
    if forall i :: 0 <= i < |rows| ==> !InUE(nombre, periodo)(rows[i]) {
      FilterKeepsNone(InUE(nombre, periodo), rows);
    }
  }

  lemma EuMeanBounds(rows: seq<Resultado>, eu: seq<Resultado>, vals: seq<real>, mean: real)
    requires eu != [] && forall i :: 0 <= i < |eu| ==> eu[i] in rows
    requires vals == MapSeq(ValueOrZero, eu)
    requires mean == Sum(vals) / |vals| as real
    ensures (forall i :: 0 <= i < |rows| ==> 0.0 <= ValueOrZero(rows[i]) <= 100.0) ==> 0.0 <= mean <= 100.0
  {
    if forall i :: 0 <= i < |rows| ==> 0.0 <= ValueOrZero(rows[i]) <= 100.0 {
      assert forall i :: 0 <= i < |vals| ==> 0.0 <= vals[i] <= 100.0;
      MeanWithin(vals, 0.0, 100.0);
    }
  }

  // ---------------------------------------------------------------------------------
  // getSubdimensionesConScores and getDimensionScore
  // ---------------------------------------------------------------------------------

  /** `valores.filter(v => v !== null)`. */
  function NonNull(vs: seq<Option<real>>): (r: seq<real>)
    ensures |r| <= |vs|
    ensures forall i :: 0 <= i < |r| ==> Some(r[i]) in vs
  {
    if vs == [] then []
    else if vs[0].Some? then [vs[0].value] + NonNull(vs[1..])
    else NonNull(vs[1..])
  }

  lemma {:induction false} NonNullConcat(a: seq<Option<real>>, b: seq<Option<real>>)
    ensures NonNull(a + b) == NonNull(a) + NonNull(b)
  {
    if a == [] {
      assert a + b == b;
    } else {
      assert (a + b)[1..] == a[1..] + b;
      NonNullConcat(a[1..], b);
    }
  }

  predicate IsPresent(v: Option<real>) {
    v.Some?
  }

  function PresentValue(v: Option<real>): real {
    v.GetOr(0.0)
  }

  /** The values kept are exactly the present ones, in their original order. */
  lemma {:induction false} NonNullIsPresentValues(vs: seq<Option<real>>)
    ensures NonNull(vs) == MapSeq(PresentValue, Filter(IsPresent, vs))
  {
    if vs != [] {
      NonNullIsPresentValues(vs[1..]);
    }
  }

  /**
   * `calcularPromedio`: the mean of the non-null values clamped to `[0, 100]`, or 0 when
   * there are none. For values already in `[0, 100]` the clamp changes nothing.
   */
  function CalcularPromedio(vs: seq<Option<real>>): (r: real)
    ensures 0.0 <= r <= 100.0
    ensures NonNull(vs) == [] ==> r == 0.0
    ensures NonNull(vs) != [] && (forall i :: 0 <= i < |NonNull(vs)| ==> 0.0 <= NonNull(vs)[i] <= 100.0) ==>
      r * |NonNull(vs)| as real == Sum(NonNull(vs))
    ensures NonNull(vs) != [] ==> r == Clamp(Sum(NonNull(vs)) / |NonNull(vs)| as real)
  {
    ClampedMean(NonNull(vs))
  }

  /** The clamped mean of `valid`, 0 for no values; the clamp leaves a mean of values in `[0, 100]` alone. */
  function ClampedMean(valid: seq<real>): (r: real)
    ensures 0.0 <= r <= 100.0
    ensures valid == [] ==> r == 0.0
    ensures valid != [] && (forall i :: 0 <= i < |valid| ==> 0.0 <= valid[i] <= 100.0) ==>
      r * |valid| as real == Sum(valid)
    ensures valid != [] ==> r == Clamp(Sum(valid) / |valid| as real)
  {
    if valid == [] then 0.0
    else
      MeanWithin(valid, 0.0, 100.0);
      MeanTimesCount(valid);
      Clamp(Sum(valid) / |valid| as real)
  }

  /** A missing value anywhere in the list leaves the mean unchanged. */
  lemma NullsAreIgnored(a: seq<Option<real>>, b: seq<Option<real>>)
    ensures CalcularPromedio(a + [None] + b) == CalcularPromedio(a + b)
  {
    NonNullConcat(a + [None], b);
    NonNullConcat(a, [None]);
    NonNullConcat(a, b);
    var none: seq<Option<real>> := [None];
    assert none[1..] == [];
    assert NonNull(none) == [];
    assert NonNull(a + [None]) == NonNull(a);
    var x, y := a + [None] + b, a + b;
    assert NonNull(x) == NonNull(y);
  }

  function InSubdimension(sub: string): Indicador -> bool {
    (ind: Indicador) => ind.nombreSubdimension == sub
  }

  function OfDimension(dim: string): Subdimension -> bool {
    (sub: Subdimension) => sub.nombreDimension == dim
  }

  function TerritoryValueOf(rows: seq<Resultado>, pais: string, periodo: int): Indicador -> Option<real> {
    (ind: Indicador) => TerritoryValue(rows, ind.nombre, pais, periodo)
  }

  function SpainValueOf(rows: seq<Resultado>, periodo: int): Indicador -> Option<real> {
    (ind: Indicador) => SpainValue(rows, ind.nombre, periodo)
  }

  function EuValueOf(rows: seq<Resultado>, periodo: int): Indicador -> Option<real> {
    (ind: Indicador) => EuValue(rows, ind.nombre, periodo)
  }

  /** The scores of one sub-dimension; a sub-dimension without indicators scores all zeros. */
  function ScoreFor(inds: seq<Indicador>, rows: seq<Resultado>, sub: string, pais: string, periodo: int)
    : (s: SubdimensionScore)
    ensures s.nombre == sub
    ensures 0.0 <= s.score <= 100.0 && 0.0 <= s.espana <= 100.0 && 0.0 <= s.ue <= 100.0
    ensures s.indicadores == |Filter(InSubdimension(sub), inds)|
    ensures s.indicadores == 0 ==> s.score == 0.0 && s.espana == 0.0 && s.ue == 0.0
    ensures var indicadores := Filter(InSubdimension(sub), inds);
      s.score == CalcularPromedio(MapSeq(TerritoryValueOf(rows, pais, periodo), indicadores))
      && s.espana == CalcularPromedio(MapSeq(SpainValueOf(rows, periodo), indicadores))
      && s.ue == CalcularPromedio(MapSeq(EuValueOf(rows, periodo), indicadores))
  {
    var indicadores := Filter(InSubdimension(sub), inds);
    if |indicadores| == 0 then SubdimensionScore(sub, 0.0, 0.0, 0.0, 0)
    else
      var valoresTerritorio := MapSeq(TerritoryValueOf(rows, pais, periodo), indicadores);
      var valoresEspana := MapSeq(SpainValueOf(rows, periodo), indicadores);
      var valoresUE := MapSeq(EuValueOf(rows, periodo), indicadores);
      SubdimensionScore(sub, CalcularPromedio(valoresTerritorio), CalcularPromedio(valoresEspana),
                        CalcularPromedio(valoresUE), |indicadores|)
  }

  function ScoreWith(inds: seq<Indicador>, rows: seq<Resultado>, pais: string, periodo: int)
    : Subdimension -> SubdimensionScore
  {
    (sub: Subdimension) => ScoreFor(inds, rows, sub.nombre, pais, periodo)
  }

  /** `getSubdimensionesConScores`: one row per sub-dimension of the dimension, in order. */
  function SubdimensionesConScores(db: Db, nombreDimension: string, pais: string, periodo: int)
    : (r: seq<SubdimensionScore>)
    ensures var subs := Filter(OfDimension(nombreDimension), db.subdimensiones);
      |r| == |subs| && forall i :: 0 <= i < |r| ==> r[i].nombre == subs[i].nombre
    ensures forall i :: 0 <= i < |r| ==>
      0.0 <= r[i].score <= 100.0 && 0.0 <= r[i].espana <= 100.0 && 0.0 <= r[i].ue <= 100.0
    ensures forall i :: 0 <= i < |r| ==> r[i].indicadores == |Filter(InSubdimension(r[i].nombre), db.indicadores)|
    ensures var subs := Filter(OfDimension(nombreDimension), db.subdimensiones);
      forall i :: 0 <= i < |r| ==> r[i] == ScoreFor(db.indicadores, db.resultados, subs[i].nombre, pais, periodo)
  {
    MapSeq(ScoreWith(db.indicadores, db.resultados, pais, periodo), Filter(OfDimension(nombreDimension), db.subdimensiones))
  }

  function ScoreOf(s: SubdimensionScore): real {
    s.score
  }

  /** `getDimensionScore`: the rounded, unweighted mean of the sub-dimension scores; 0 without sub-dimensions. */
  function DimensionScore(db: Db, nombreDimension: string, pais: string, periodo: int): (r: int)
    ensures 0 <= r <= 100
    ensures SubdimensionesConScores(db, nombreDimension, pais, periodo) == [] ==> r == 0
    ensures var subs := SubdimensionesConScores(db, nombreDimension, pais, periodo);
      subs != [] ==>
        var mean := Sum(MapSeq(ScoreOf, subs)) / |subs| as real;
        r as real - 0.5 <= mean < r as real + 0.5
  {
    var subs := SubdimensionesConScores(db, nombreDimension, pais, periodo);
    if |subs| == 0 then 0
    else
      var scores := MapSeq(ScoreOf, subs);
      var promedio := Sum(scores) / |subs| as real;
      MeanWithin(scores, 0.0, 100.0);
      RoundWithin(promedio, 0, 100);
      Round(promedio)
  }

  /** Two sub-dimension lists that differ at most in their weights. */
  predicate SameButPeso(a: seq<Subdimension>, b: seq<Subdimension>) {
    |a| == |b| && forall i :: 0 <= i < |a| ==>
      a[i].nombre == b[i].nombre && a[i].nombreDimension == b[i].nombreDimension
  }

  lemma {:induction false} FilterSameButPeso(a: seq<Subdimension>, b: seq<Subdimension>, dim: string)
    requires SameButPeso(a, b)
    ensures SameButPeso(Filter(OfDimension(dim), a), Filter(OfDimension(dim), b))
  {
    if a != [] {
      var a1, b1 := a[1..], b[1..];
      assert SameButPeso(a1, b1) by {
        forall i | 0 <= i < |a1|
          ensures a1[i].nombre == b1[i].nombre && a1[i].nombreDimension == b1[i].nombreDimension
        {
          assert a1[i] == a[i + 1] && b1[i] == b[i + 1];
        }
      }
      FilterSameButPeso(a1, b1, dim);
      var fa, fb := Filter(OfDimension(dim), a1), Filter(OfDimension(dim), b1);
      if OfDimension(dim)(a[0]) {
        assert Filter(OfDimension(dim), a) == [a[0]] + fa;
        assert Filter(OfDimension(dim), b) == [b[0]] + fb;
        SameButPesoCons(a[0], fa, b[0], fb);
      } else {
        assert Filter(OfDimension(dim), a) == fa;
        assert Filter(OfDimension(dim), b) == fb;
      }
    }
  }

  lemma SameButPesoCons(x: Subdimension, a: seq<Subdimension>, y: Subdimension, b: seq<Subdimension>)
    requires SameButPeso(a, b)
    requires x.nombre == y.nombre && x.nombreDimension == y.nombreDimension
    ensures SameButPeso([x] + a, [y] + b)
  {
    var xa, yb := [x] + a, [y] + b;
    forall i | 0 <= i < |xa|
      ensures xa[i].nombre == yb[i].nombre && xa[i].nombreDimension == yb[i].nombreDimension
    {
      if i > 0 {
        assert xa[i] == a[i - 1] && yb[i] == b[i - 1];
      }
    }
  }

  /** The weights of the sub-dimensions play no part in any score. */
  lemma DimensionScoreIgnoresPeso(db1: Db, db2: Db, nombreDimension: string, pais: string, periodo: int)
    requires db1.indicadores == db2.indicadores && db1.resultados == db2.resultados
    requires SameButPeso(db1.subdimensiones, db2.subdimensiones)
    ensures SubdimensionesConScores(db1, nombreDimension, pais, periodo)
         == SubdimensionesConScores(db2, nombreDimension, pais, periodo)
    ensures DimensionScore(db1, nombreDimension, pais, periodo) == DimensionScore(db2, nombreDimension, pais, periodo)
  {
    FilterSameButPeso(db1.subdimensiones, db2.subdimensiones, nombreDimension);
  }

  // ---------------------------------------------------------------------------------
  // getIndicadoresConDatos
  // ---------------------------------------------------------------------------------

  function NameOf(sub: Subdimension): string {
    sub.nombre
  }

  function NamedSub(nombre: string): Subdimension -> bool {
    (sub: Subdimension) => sub.nombre == nombre
  }

  /** `subdimensiones.filter(sub => sub.nombre_dimension === d).map(sub => sub.nombre)`. */
  function SubdimensionNames(subs: seq<Subdimension>, dim: string): seq<string> {
    MapSeq(NameOf, Filter(OfDimension(dim), subs))
  }

  function InSubdimensions(names: seq<string>): Indicador -> bool {
    (ind: Indicador) => ind.nombreSubdimension in names
  }

  /** `subdimMap.get(nombre) || ""`, where `new Map(entries)` keeps the last entry of each name. */
  function DimensionOf(subs: seq<Subdimension>, nombre: string): string {
    match LastIndex(subs, NamedSub(nombre))
    case Some(i) => subs[i].nombreDimension
    case None => ""
  }

  /** The dimension comes from the last sub-dimension of that name, and is empty when there is none. */
  lemma DimensionOfLastEntry(subs: seq<Subdimension>, nombre: string)
    ensures (forall i :: 0 <= i < |subs| ==> subs[i].nombre != nombre) ==> DimensionOf(subs, nombre) == ""
    ensures forall i ::
      (0 <= i < |subs| && subs[i].nombre == nombre && forall j :: i < j < |subs| ==> subs[j].nombre != nombre) ==>
        DimensionOf(subs, nombre) == subs[i].nombreDimension
  {
    var r := LastIndex(subs, NamedSub(nombre));
    forall i | 0 <= i < |subs| && subs[i].nombre == nombre && (forall j :: i < j < |subs| ==> subs[j].nombre != nombre)
      ensures DimensionOf(subs, nombre) == subs[i].nombreDimension
    {
      assert NamedSub(nombre)(subs[i]);
      assert r.Some?;
    }
    if forall i :: 0 <= i < |subs| ==> subs[i].nombre != nombre {
      assert forall i :: 0 <= i < |subs| ==> !NamedSub(nombre)(subs[i]);
    }
  }

  /** `resultados?.[0]?.periodo || undefined`. */
  function PeriodOf(row: Option<Resultado>): (p: Option<int>)
    ensures p.None? <==> row.None? || row.value.periodo == 0
    ensures p.Some? ==> p.value == row.value.periodo
  {
    if row.Some? && row.value.periodo != 0 then Some(row.value.periodo) else None
  }

  /** One indicator with its dimension, its latest result over all territories, and its `activo` flag. */
  function Enrich(subs: seq<Subdimension>, rows: seq<Resultado>, ind: Indicador): (r: IndicadorConDatos)
    ensures r.nombre == ind.nombre && r.nombreSubdimension == ind.nombreSubdimension
    ensures r.subdimension == ind.nombreSubdimension
    ensures r.importancia == ind.importancia && r.formula == ind.formula
    ensures r.fuente == ind.fuente && r.origenIndicador == ind.origenIndicador
    ensures r.totalResultados == |Filter(ForIndicator(ind.nombre), rows)|
    ensures r.ultimoValor.Some? ==>
      r.ultimoValor.value != 0.0 &&
      exists i :: 0 <= i < |rows| && rows[i].nombreIndicador == ind.nombre && rows[i].valorCalculado == r.ultimoValor
        && forall j :: 0 <= j < |rows| && rows[j].nombreIndicador == ind.nombre ==> rows[j].periodo <= rows[i].periodo
    ensures (forall i :: 0 <= i < |rows| ==> rows[i].nombreIndicador != ind.nombre) ==>
      r.ultimoValor.None? && r.ultimoPeriodo.None? && r.totalResultados == 0
    ensures r.activo == (if ind.activo.Some? then ind.activo.value else r.ultimoValor.Some?)
    ensures r.dimension == DimensionOf(subs, ind.nombreSubdimension)
    ensures r.ultimoValor == TruthyValue(LatestRow(rows, ForIndicator(ind.nombre)))
    ensures r.ultimoPeriodo == PeriodOf(LatestRow(rows, ForIndicator(ind.nombre)))
  {
    var latest := LatestRow(rows, ForIndicator(ind.nombre));
    var ultimoValor := TruthyValue(latest);
    var activo := if ind.activo.Some? then ind.activo.value else ultimoValor.Some?;
    assert latest.Some? ==> latest.value in rows && latest.value.nombreIndicador == ind.nombre;
    NoRowsForIndicator(rows, ind.nombre);
    IndicadorConDatos(
      ind.nombre, ind.nombreSubdimension, ind.importancia, ind.formula, ind.fuente, ind.origenIndicador,
      DimensionOf(subs, ind.nombreSubdimension), ind.nombreSubdimension,
      ultimoValor, PeriodOf(latest), |Filter(ForIndicator(ind.nombre), rows)|, activo)
  }

  lemma NoRowsForIndicator(rows: seq<Resultado>, nombre: string)
    ensures (forall i :: 0 <= i < |rows| ==> rows[i].nombreIndicador != nombre) ==>
      Filter(ForIndicator(nombre), rows) == []
  {
    if forall i :: 0 <= i < |rows| ==> rows[i].nombreIndicador != nombre {
      FilterKeepsNone(ForIndicator(nombre), rows);
    }
  }

  function EnrichWith(subs: seq<Subdimension>, rows: seq<Resultado>): Indicador -> IndicadorConDatos {
    (ind: Indicador) => Enrich(subs, rows, ind)
  }

  /** The comparator's key: `a.activo || a.ultimoValor !== undefined`. */
  predicate ActiveKey(x: IndicadorConDatos) {
    x.activo || x.ultimoValor.Some?
  }

  /** An indicator sorts first when its stored flag is true or it has a latest value. */
  lemma EnrichedActiveKey(subs: seq<Subdimension>, rows: seq<Resultado>, ind: Indicador)
    ensures ActiveKey(Enrich(subs, rows, ind)) <==>
      ind.activo == Some(true) || Enrich(subs, rows, ind).ultimoValor.Some?
  {
  }

  /** The result of `sort` with the active-first comparator (a stable sort). */
  function ActiveFirst(s: seq<IndicadorConDatos>): seq<IndicadorConDatos> {
    Filter(ActiveKey, s) + Filter(Not(ActiveKey), s)
  }

  /** The active-first order is a permutation of its input. */
  lemma ActiveFirstPermutation(s: seq<IndicadorConDatos>)
    ensures |ActiveFirst(s)| == |s|
    ensures multiset(ActiveFirst(s)) == multiset(s)
  {
    FilterPartition(ActiveKey, s);
  }

  /** No inactive indicator precedes an active one. */
  lemma ActiveFirstPartitioned(s: seq<IndicadorConDatos>)
    ensures forall i, j :: 0 <= i < j < |ActiveFirst(s)| && ActiveKey(ActiveFirst(s)[j]) ==> ActiveKey(ActiveFirst(s)[i])
  {
    var act := Filter(ActiveKey, s);
    var rest := Filter(Not(ActiveKey), s);
    assert forall k :: 0 <= k < |rest| ==> !ActiveKey(rest[k]) by {
      forall k | 0 <= k < |rest| ensures !ActiveKey(rest[k]) {
        assert Not(ActiveKey)(rest[k]);
      }
    }
  }

  /** Within the active group and within the inactive group the input order is kept. */
  lemma ActiveFirstStable(s: seq<IndicadorConDatos>)
    ensures Filter(ActiveKey, ActiveFirst(s)) == Filter(ActiveKey, s)
    ensures Filter(Not(ActiveKey), ActiveFirst(s)) == Filter(Not(ActiveKey), s)
  {
    PartitionStable(ActiveKey, s);
  }

  /** `indicadoresConDatos.sort(...)`, in place. */
  method SortActiveFirst(a: array<IndicadorConDatos>)
    modifies a
    ensures a[..] == ActiveFirst(old(a[..]))
  {
    ghost var s := a[..];
    var activos: seq<IndicadorConDatos> := [];
    var inactivos: seq<IndicadorConDatos> := [];
    for i := 0 to a.Length
      invariant a[..] == s
      invariant activos == Filter(ActiveKey, s[..i])
      invariant inactivos == Filter(Not(ActiveKey), s[..i])
    {
      assert s[..i + 1] == s[..i] + [s[i]];
      FilterConcat(ActiveKey, s[..i], [s[i]]);
      FilterConcat(Not(ActiveKey), s[..i], [s[i]]);
      if a[i].activo || a[i].ultimoValor.Some? {
        activos := activos + [a[i]];
      } else {
        inactivos := inactivos + [a[i]];
      }
    }
    assert s[..a.Length] == s;
    var sorted := activos + inactivos;
    FilterPartition(ActiveKey, s);
    for i := 0 to a.Length
      invariant forall j :: 0 <= j < i ==> a[j] == sorted[j]
    {
      a[i] := sorted[i];
    }
    assert a[..] == sorted;
  }

  /** The indicators kept by the optional dimension filter (`if (nombreDimension)`: an empty name filters nothing). */
  function DimensionFilter(db: Db, nombreDimension: Option<string>): seq<Indicador> {
    if nombreDimension.Some? && nombreDimension.value != "" then
      Filter(InSubdimensions(SubdimensionNames(db.subdimensiones, nombreDimension.value)), db.indicadores)
    else
      db.indicadores
  }

  /** What `getIndicadoresConDatos` returns. */
  function IndicadoresConDatos(db: Db, nombreDimension: Option<string>): seq<IndicadorConDatos> {
    ActiveFirst(MapSeq(EnrichWith(db.subdimensiones, db.resultados), DimensionFilter(db, nombreDimension)))
  }

  /** `getIndicadoresConDatos`: filter, enrich, then sort the array in place. */
  method GetIndicadoresConDatos(db: Db, nombreDimension: Option<string>) returns (r: seq<IndicadorConDatos>)
    ensures r == IndicadoresConDatos(db, nombreDimension)
  {
    var indicadores := db.indicadores;
    if nombreDimension.Some? && nombreDimension.value != "" {
      var subdimensionesFiltradas := SubdimensionNames(db.subdimensiones, nombreDimension.value);
      indicadores := Filter(InSubdimensions(subdimensionesFiltradas), indicadores);
    }
    var conDatos := MapSeq(EnrichWith(db.subdimensiones, db.resultados), indicadores);
    var a := new IndicadorConDatos[|conDatos|](i requires 0 <= i < |conDatos| => conDatos[i]);
    assert a[..] == conDatos;
    SortActiveFirst(a);
    r := a[..];
  }

  /**
   * The catalogue is a permutation of the enriched, dimension-filtered definitions, with
   * every active indicator before every inactive one.
   */
  lemma CatalogueOrder(db: Db, nombreDimension: Option<string>)
    ensures var r := IndicadoresConDatos(db, nombreDimension);
      var enriched := MapSeq(EnrichWith(db.subdimensiones, db.resultados), DimensionFilter(db, nombreDimension));
      |r| == |DimensionFilter(db, nombreDimension)| && multiset(r) == multiset(enriched)
      && forall i, j :: 0 <= i < j < |r| && ActiveKey(r[j]) ==> ActiveKey(r[i])
  {
    var enriched := MapSeq(EnrichWith(db.subdimensiones, db.resultados), DimensionFilter(db, nombreDimension));
    ActiveFirstPermutation(enriched);
    ActiveFirstPartitioned(enriched);
  }

  /** With a dimension given, exactly the definitions of that dimension's sub-dimensions are kept. */
  lemma DimensionFilterKeepsDimension(db: Db, dim: string)
    requires dim != ""
    ensures forall i :: 0 <= i < |DimensionFilter(db, Some(dim))| ==>
      DimensionFilter(db, Some(dim))[i].nombreSubdimension in SubdimensionNames(db.subdimensiones, dim)
    ensures forall i ::
      (0 <= i < |db.indicadores| && db.indicadores[i].nombreSubdimension in SubdimensionNames(db.subdimensiones, dim)) ==>
        db.indicadores[i] in DimensionFilter(db, Some(dim))
  {
    var names := SubdimensionNames(db.subdimensiones, dim);
    var kept := DimensionFilter(db, Some(dim));
    forall i | 0 <= i < |kept|
      ensures kept[i].nombreSubdimension in names
    {
      assert InSubdimensions(names)(kept[i]);
    }
    forall i | 0 <= i < |db.indicadores| && db.indicadores[i].nombreSubdimension in names
      ensures db.indicadores[i] in kept
    {
      assert InSubdimensions(names)(db.indicadores[i]);
    }
  }

  lemma FilterSamePredicate<T>(p: T -> bool, q: T -> bool, s: seq<T>)
    requires forall i :: 0 <= i < |s| ==> p(s[i]) == q(s[i])
    ensures Filter(p, s) == Filter(q, s)
    decreases |s|
  {
    if s != [] {
      FilterSamePredicate(p, q, s[1..]);
    }
  }

  function ForSubdimension(sub: string): IndicadorConDatos -> bool {
    (x: IndicadorConDatos) => x.subdimension == sub
  }

  /** The full catalogue holds as many indicators of a sub-dimension as the definitions table. */
  lemma CatalogueCountPerSubdimension(db: Db, sub: string)
    ensures |Filter(ForSubdimension(sub), IndicadoresConDatos(db, None))| == |Filter(InSubdimension(sub), db.indicadores)|
  {
    var f := EnrichWith(db.subdimensiones, db.resultados);
    var enriched := MapSeq(f, db.indicadores);
    ActiveFirstPermutation(enriched);
    FilterCountPermutation(ForSubdimension(sub), IndicadoresConDatos(db, None), enriched);
    FilterMapSeq(ForSubdimension(sub), f, db.indicadores);
    FilterSamePredicate(After(ForSubdimension(sub), f), InSubdimension(sub), db.indicadores);
  }

  /** `getIndicadoresPorSubdimension` (its territory and period parameters are unused). */
  function GetIndicadoresPorSubdimension(db: Db, nombreSubdimension: string): (r: seq<IndicadorConDatos>)
    ensures forall i :: 0 <= i < |r| ==> r[i].subdimension == nombreSubdimension
    ensures |r| == |Filter(InSubdimension(nombreSubdimension), db.indicadores)|
    ensures IsSubsequence(r, IndicadoresConDatos(db, None))
  {
    var r := Filter(ForSubdimension(nombreSubdimension), IndicadoresConDatos(db, None));
    assert forall i :: 0 <= i < |r| ==> ForSubdimension(nombreSubdimension)(r[i]);
    CatalogueCountPerSubdimension(db, nombreSubdimension);
    FilterIsSubsequence(ForSubdimension(nombreSubdimension), IndicadoresConDatos(db, None));
    r
  }

  // ---------------------------------------------------------------------------------
  // getDatosHistoricosIndicador and getDatosPorSubdimension
  // ---------------------------------------------------------------------------------

  function PeriodoKey(r: Resultado): real {
    r.periodo as real
  }

  /** `{ periodo: item.periodo || 0, valor: Number(item.valor_calculado) || 0 }`. */
  function ToHistoryPoint(r: Resultado): (p: HistoryPoint)
    ensures p.periodo == r.periodo
    ensures r.valorCalculado.Some? ==> p.valor == r.valorCalculado.value
    ensures r.valorCalculado.None? ==> p.valor == 0.0
  {
    HistoryPoint(r.periodo, r.valorCalculado.GetOr(0.0))
  }

  /** The point comes from a row of the indicator in the territory. */
  predicate FromRow(rows: seq<Resultado>, nombre: string, pais: string, p: HistoryPoint) {
    exists k :: 0 <= k < |rows| && rows[k].nombreIndicador == nombre && rows[k].pais == pais && ToHistoryPoint(rows[k]) == p
  }

  /** `getDatosHistoricosIndicador`: the first `limit` rows of the pair by ascending period. */
  function GetDatosHistoricosIndicador(rows: seq<Resultado>, nombre: string, pais: string, limit: nat)
    : (r: seq<HistoryPoint>)
    ensures var n := |Filter(ForTerritory(nombre, pais), rows)|;
      |r| == if limit <= n then limit else n
    ensures forall i, j :: 0 <= i < j < |r| ==> r[i].periodo <= r[j].periodo
    ensures forall i :: 0 <= i < |r| ==> FromRow(rows, nombre, pais, r[i])
    ensures multiset(r) <= multiset(MapSeq(ToHistoryPoint, Filter(ForTerritory(nombre, pais), rows)))
    ensures OlderRowsIncluded(rows, nombre, pais, r)
  {
    var r := MapSeq(ToHistoryPoint, Take(SortByKey(Filter(ForTerritory(nombre, pais), rows), PeriodoKey), limit));
    HistoryFacts(rows, nombre, pais, limit, r);
    HistoryRowsChosen(rows, nombre, pais, limit, r);
    r
  }

  lemma HistoryFacts(rows: seq<Resultado>, nombre: string, pais: string, limit: nat, r: seq<HistoryPoint>)
    requires r == MapSeq(ToHistoryPoint, Take(SortByKey(Filter(ForTerritory(nombre, pais), rows), PeriodoKey), limit))
    ensures forall i, j :: 0 <= i < j < |r| ==> r[i].periodo <= r[j].periodo
    ensures forall i :: 0 <= i < |r| ==> FromRow(rows, nombre, pais, r[i])
  {
    var matching := Filter(ForTerritory(nombre, pais), rows);
    var ordered := SortByKey(matching, PeriodoKey);
    var taken := Take(ordered, limit);
    MatchingFromRows(rows, nombre, pais, matching);
    MultisetMembers(ordered, matching);
    PointsFromRows(rows, nombre, pais, matching, ordered, taken, r);
    PointsAscending(ordered, taken, r);
  }

  lemma HistoryRowsChosen(rows: seq<Resultado>, nombre: string, pais: string, limit: nat, r: seq<HistoryPoint>)
    requires r == MapSeq(ToHistoryPoint, Take(SortByKey(Filter(ForTerritory(nombre, pais), rows), PeriodoKey), limit))
    ensures multiset(r) <= multiset(MapSeq(ToHistoryPoint, Filter(ForTerritory(nombre, pais), rows)))
    ensures OlderRowsIncluded(rows, nombre, pais, r)
  {
    var matching := Filter(ForTerritory(nombre, pais), rows);
    var ordered := SortByKey(matching, PeriodoKey);
    var taken := Take(ordered, limit);
    PointsSubMultiset(matching, ordered, taken, r);
    OlderRowsKept(rows, nombre, pais, matching, ordered, taken, r);
  }

  /** Every row of the pair older than a returned point has its own point among those returned. */
  predicate OlderRowsIncluded(rows: seq<Resultado>, nombre: string, pais: string, r: seq<HistoryPoint>) {
    forall k, i ::
      (0 <= k < |rows| && rows[k].nombreIndicador == nombre && rows[k].pais == pais &&
       0 <= i < |r| && rows[k].periodo < r[i].periodo) ==> ToHistoryPoint(rows[k]) in r
  }

  lemma OlderRowIncluded(rows: seq<Resultado>, nombre: string, pais: string, r: seq<HistoryPoint>, k: nat, i: nat)
    requires OlderRowsIncluded(rows, nombre, pais, r)
    requires k < |rows| && rows[k].nombreIndicador == nombre && rows[k].pais == pais && i < |r|
    ensures rows[k].periodo < r[i].periodo ==> ToHistoryPoint(rows[k]) in r
  {
  }

  /** The points are the images of some of the matching rows, each row used at most once. */
  lemma PointsSubMultiset(matching: seq<Resultado>, ordered: seq<Resultado>, taken: seq<Resultado>, r: seq<HistoryPoint>)
    requires multiset(ordered) == multiset(matching)
    requires taken <= ordered
    requires r == MapSeq(ToHistoryPoint, taken)
    ensures multiset(r) <= multiset(MapSeq(ToHistoryPoint, matching))
  {
    var rest := ordered[|taken|..];
    assert ordered == taken + rest;
    MapSeqConcat(ToHistoryPoint, taken, rest);
    MapSeqPermutation(ToHistoryPoint, ordered, matching);
  }

  /** A matching row older than a returned point is itself returned: the cut keeps the oldest periods. */
  lemma OlderRowsKept(rows: seq<Resultado>, nombre: string, pais: string,
                      matching: seq<Resultado>, ordered: seq<Resultado>, taken: seq<Resultado>, r: seq<HistoryPoint>)
    requires matching == Filter(ForTerritory(nombre, pais), rows)
    requires multiset(ordered) == multiset(matching)
    requires SortedBy(ordered, PeriodoKey)
    requires taken <= ordered
    requires r == MapSeq(ToHistoryPoint, taken)
    ensures OlderRowsIncluded(rows, nombre, pais, r)
  {
    forall k, i | 0 <= k < |rows| && rows[k].nombreIndicador == nombre && rows[k].pais == pais &&
                  0 <= i < |r| && rows[k].periodo < r[i].periodo
      ensures ToHistoryPoint(rows[k]) in r
    {
      assert ForTerritory(nombre, pais)(rows[k]);
      assert rows[k] in multiset(ordered);
      var j :| 0 <= j < |ordered| && ordered[j] == rows[k];
      assert r[i].periodo == ordered[i].periodo;
      assert r[j] == ToHistoryPoint(ordered[j]);
    }
  }

  lemma MatchingFromRows(rows: seq<Resultado>, nombre: string, pais: string, matching: seq<Resultado>)
    requires matching == Filter(ForTerritory(nombre, pais), rows)
    ensures forall x :: x in matching ==> x in rows && x.nombreIndicador == nombre && x.pais == pais
  {
    forall x | x in matching
      ensures x in rows && x.nombreIndicador == nombre && x.pais == pais
    {
      var i :| 0 <= i < |matching| && matching[i] == x;
      assert ForTerritory(nombre, pais)(matching[i]);
    }
  }

  lemma PointsFromRows(rows: seq<Resultado>, nombre: string, pais: string,
                       matching: seq<Resultado>, ordered: seq<Resultado>, taken: seq<Resultado>, r: seq<HistoryPoint>)
    requires forall x :: x in matching ==> x in rows && x.nombreIndicador == nombre && x.pais == pais
    requires forall i :: 0 <= i < |ordered| ==> ordered[i] in matching
    requires taken <= ordered
    requires r == MapSeq(ToHistoryPoint, taken)
    ensures forall i :: 0 <= i < |r| ==> FromRow(rows, nombre, pais, r[i])
  {
    forall i | 0 <= i < |r|
      ensures FromRow(rows, nombre, pais, r[i])
    {
      assert taken[i] == ordered[i];
      var k :| 0 <= k < |rows| && rows[k] == taken[i];
      assert ToHistoryPoint(rows[k]) == r[i];
    }
  }

  lemma PointsAscending(ordered: seq<Resultado>, taken: seq<Resultado>, r: seq<HistoryPoint>)
    requires SortedBy(ordered, PeriodoKey)
    requires taken <= ordered
    requires r == MapSeq(ToHistoryPoint, taken)
    ensures forall i, j :: 0 <= i < j < |r| ==> r[i].periodo <= r[j].periodo
  {
    forall i, j | 0 <= i < j < |r|
      ensures r[i].periodo <= r[j].periodo
    {
      assert r[i].periodo == ordered[i].periodo && r[j].periodo == ordered[j].periodo;
      assert PeriodoKey(ordered[i]) <= PeriodoKey(ordered[j]);
    }
  }

  /** The indicator has a result for the territory (`count > 0`). */
  function HasResultsIn(rows: seq<Resultado>, pais: string): Indicador -> bool {
    (ind: Indicador) => |Filter(ForTerritory(ind.nombre, pais), rows)| > 0
  }

  /** The indicator has a row for the territory, stated on the table itself. */
  function HasData(rows: seq<Resultado>, pais: string): Indicador -> bool {
    (ind: Indicador) => HasRows(rows, ind.nombre, pais)
  }

  /** The `count > 0` test holds exactly when the table has a row of the indicator in the territory. */
  lemma HasResultsInAgrees(rows: seq<Resultado>, pais: string, ind: Indicador)
    ensures HasResultsIn(rows, pais)(ind) <==> HasRows(rows, ind.nombre, pais)
  {
    var matching := Filter(ForTerritory(ind.nombre, pais), rows);
    if HasRows(rows, ind.nombre, pais) {
      var i :| 0 <= i < |rows| && rows[i].nombreIndicador == ind.nombre && rows[i].pais == pais;
      assert ForTerritory(ind.nombre, pais)(rows[i]);
      assert rows[i] in matching;
    }
    if |matching| > 0 {
      assert ForTerritory(ind.nombre, pais)(matching[0]) && matching[0] in rows;
      var k :| 0 <= k < |rows| && rows[k] == matching[0];
    }
  }

  lemma CountWithData(rows: seq<Resultado>, pais: string, inds: seq<Indicador>)
    ensures Filter(HasResultsIn(rows, pais), inds) == Filter(HasData(rows, pais), inds)
  {
    forall i | 0 <= i < |inds|
      ensures HasResultsIn(rows, pais)(inds[i]) == HasData(rows, pais)(inds[i])
    {
      HasResultsInAgrees(rows, pais, inds[i]);
    }
    FilterSamePredicate(HasResultsIn(rows, pais), HasData(rows, pais), inds);
  }

  function DatosFor(inds: seq<Indicador>, rows: seq<Resultado>, pais: string): Subdimension -> DatosSubdimension {
    (sub: Subdimension) =>
      var indicadores := Filter(InSubdimension(sub.nombre), inds);
      DatosSubdimension(sub.nombre, |indicadores|, |Filter(HasResultsIn(rows, pais), indicadores)|)
  }

  /** `getDatosPorSubdimension`: per sub-dimension, its indicators and how many have a result in the territory. */
  function GetDatosPorSubdimension(db: Db, nombreDimension: string, pais: string): (r: seq<DatosSubdimension>)
    ensures var subs := Filter(OfDimension(nombreDimension), db.subdimensiones);
      |r| == |subs| && forall i :: 0 <= i < |r| ==> r[i].subdimension == subs[i].nombre
    ensures forall i :: 0 <= i < |r| ==>
      r[i].totalIndicadores == |Filter(InSubdimension(r[i].subdimension), db.indicadores)|
      && r[i].indicadoresConDatos <= r[i].totalIndicadores
    ensures var subs := Filter(OfDimension(nombreDimension), db.subdimensiones);
      forall i :: 0 <= i < |r| ==>
        r[i].indicadoresConDatos
        == |Filter(HasData(db.resultados, pais), Filter(InSubdimension(subs[i].nombre), db.indicadores))|
  {
    var subs := Filter(OfDimension(nombreDimension), db.subdimensiones);
    forall i | 0 <= i < |subs|
      ensures Filter(HasResultsIn(db.resultados, pais), Filter(InSubdimension(subs[i].nombre), db.indicadores))
           == Filter(HasData(db.resultados, pais), Filter(InSubdimension(subs[i].nombre), db.indicadores))
    {
      CountWithData(db.resultados, pais, Filter(InSubdimension(subs[i].nombre), db.indicadores));
    }
    MapSeq(DatosFor(db.indicadores, db.resultados, pais), subs)
  }

  // ---------------------------------------------------------------------------------
  // getDistribucionPorSubdimension
  // ---------------------------------------------------------------------------------

  function CountRow(catalogo: seq<IndicadorConDatos>): Subdimension -> Distribucion {
    (sub: Subdimension) => Distribucion(sub.nombre, 0, |Filter(ForSubdimension(sub.nombre), catalogo)|)
  }

  /** `distribucion.reduce((sum, sub) => sum + sub.totalIndicadores, 0)`. */
  function TotalIndicadores(ds: seq<Distribucion>): (t: nat)
    ensures forall i :: 0 <= i < |ds| ==> ds[i].totalIndicadores <= t
    ensures ds == [] ==> t == 0
    ensures |ds| == 1 ==> t == ds[0].totalIndicadores
  {
    if ds == [] then 0 else ds[0].totalIndicadores + TotalIndicadores(ds[1..])
  }

  /** The sum over a concatenation is the sum of the sums. */
  lemma {:induction false} TotalIndicadoresConcat(a: seq<Distribucion>, b: seq<Distribucion>)
    ensures TotalIndicadores(a + b) == TotalIndicadores(a) + TotalIndicadores(b)
  {
    if a == [] {
      assert a + b == b;
    } else {
      assert (a + b)[1..] == a[1..] + b;
      TotalIndicadoresConcat(a[1..], b);
    }
  }

  /** `totalIndicadores > 0 ? Math.round((count / totalIndicadores) * 100) : 0`. */
  function Porcentaje(count: nat, total: nat): (p: int)
    requires count <= total
    ensures 0 <= p <= 100
    ensures total == 0 ==> p == 0
    ensures total > 0 ==> p as real - 0.5 <= 100.0 * count as real / total as real < p as real + 0.5
  {
    if total > 0 then
      var share := (count as real / total as real) * 100.0;
      assert share == 100.0 * count as real / total as real;
      assert share <= 100.0 by {
        assert count as real / total as real <= 1.0;
      }
      RoundWithin(share, 0, 100);
      Round(share)
    else 0
  }

  function WithPorcentaje(total: nat): Distribucion -> Distribucion {
    (d: Distribucion) => if d.totalIndicadores <= total then d.(porcentaje := Porcentaje(d.totalIndicadores, total)) else d
  }

  /** `getDistribucionPorSubdimension`: each sub-dimension's share of the dimension's indicators. */
  function GetDistribucionPorSubdimension(db: Db, nombreDimension: string): (r: seq<Distribucion>)
    ensures var subs := Filter(OfDimension(nombreDimension), db.subdimensiones);
      |r| == |subs| && forall i :: 0 <= i < |r| ==>
        r[i].nombre == subs[i].nombre
        && r[i].totalIndicadores == |Filter(InSubdimension(subs[i].nombre), db.indicadores)|
    ensures forall i :: 0 <= i < |r| ==> 0 <= r[i].porcentaje <= 100
    ensures TotalIndicadores(r) == 0 ==> forall i :: 0 <= i < |r| ==> r[i].porcentaje == 0
    ensures forall i :: 0 <= i < |r| ==> r[i].porcentaje == Porcentaje(r[i].totalIndicadores, TotalIndicadores(r))
  {
    var subs := Filter(OfDimension(nombreDimension), db.subdimensiones);
    var distribucion := MapSeq(CountRow(IndicadoresConDatos(db, None)), subs);
    var total := TotalIndicadores(distribucion);
    var r := MapSeq(WithPorcentaje(total), distribucion);
    DistributionFacts(db, subs, distribucion, total, r);
    r
  }

  lemma DistributionFacts(db: Db, subs: seq<Subdimension>, distribucion: seq<Distribucion>, total: nat,
                          r: seq<Distribucion>)
    requires distribucion == MapSeq(CountRow(IndicadoresConDatos(db, None)), subs)
    requires total == TotalIndicadores(distribucion)
    requires r == MapSeq(WithPorcentaje(total), distribucion)
    ensures |r| == |subs| && forall i :: 0 <= i < |r| ==>
      r[i].nombre == subs[i].nombre
      && r[i].totalIndicadores == |Filter(InSubdimension(subs[i].nombre), db.indicadores)|
    ensures forall i :: 0 <= i < |r| ==> 0 <= r[i].porcentaje <= 100
    ensures TotalIndicadores(r) == 0 ==> forall i :: 0 <= i < |r| ==> r[i].porcentaje == 0
    ensures forall i :: 0 <= i < |r| ==> r[i].porcentaje == Porcentaje(r[i].totalIndicadores, TotalIndicadores(r))
  {
    CountsMatchDefinitions(db, subs);
    SharesOf(total, distribucion);
  }

  lemma CountsMatchDefinitions(db: Db, subs: seq<Subdimension>)
    ensures var ds := MapSeq(CountRow(IndicadoresConDatos(db, None)), subs);
      forall i :: 0 <= i < |subs| ==>
        ds[i].nombre == subs[i].nombre && ds[i].totalIndicadores == |Filter(InSubdimension(subs[i].nombre), db.indicadores)|
  {
    forall i | 0 <= i < |subs|
      ensures |Filter(ForSubdimension(subs[i].nombre), IndicadoresConDatos(db, None))|
           == |Filter(InSubdimension(subs[i].nombre), db.indicadores)|
    {
      CatalogueCountPerSubdimension(db, subs[i].nombre);
    }
  }

  lemma {:induction false} TotalsUnchanged(total: nat, ds: seq<Distribucion>)
    ensures TotalIndicadores(MapSeq(WithPorcentaje(total), ds)) == TotalIndicadores(ds)
  {
    if ds != [] {
      TotalsUnchanged(total, ds[1..]);
      assert MapSeq(WithPorcentaje(total), ds)[1..] == MapSeq(WithPorcentaje(total), ds[1..]);
    }
  }

  lemma SharesOf(total: nat, ds: seq<Distribucion>)
    requires total == TotalIndicadores(ds)
    ensures var r := MapSeq(WithPorcentaje(total), ds);
      && TotalIndicadores(r) == total
      && forall i :: 0 <= i < |r| ==>
        r[i].nombre == ds[i].nombre && r[i].totalIndicadores == ds[i].totalIndicadores
        && r[i].porcentaje == Porcentaje(ds[i].totalIndicadores, total)
  {
    TotalsUnchanged(total, ds);
  }

  /**
   * When the dimension's sub-dimensions have distinct names, the shares are taken of the
   * number of indicator definitions of the dimension: no definition is counted twice.
   */
  lemma DistributionTotalIsDimensionCount(db: Db, dim: string)
    requires var subs := Filter(OfDimension(dim), db.subdimensiones);
      forall i, j :: 0 <= i < j < |subs| ==> subs[i].nombre != subs[j].nombre
    ensures TotalIndicadores(GetDistribucionPorSubdimension(db, dim))
         == |Filter(InSubdimensions(SubdimensionNames(db.subdimensiones, dim)), db.indicadores)|
    ensures dim != "" ==> TotalIndicadores(GetDistribucionPorSubdimension(db, dim)) == |DimensionFilter(db, Some(dim))|
  {
    var subs := Filter(OfDimension(dim), db.subdimensiones);
    DistributionCounts(db, dim, subs, SubdimensionNames(db.subdimensiones, dim), GetDistribucionPorSubdimension(db, dim));
  }

  lemma DistributionCounts(db: Db, dim: string, subs: seq<Subdimension>, names: seq<string>, r: seq<Distribucion>)
    requires subs == Filter(OfDimension(dim), db.subdimensiones)
    requires forall i, j :: 0 <= i < j < |subs| ==> subs[i].nombre != subs[j].nombre
    requires names == MapSeq(NameOf, subs)
    requires r == GetDistribucionPorSubdimension(db, dim)
    ensures TotalIndicadores(r) == |Filter(InSubdimensions(names), db.indicadores)|
  {
    forall i, j | 0 <= i < j < |names|
      ensures names[i] != names[j]
    {
      assert names[i] == subs[i].nombre && names[j] == subs[j].nombre;
    }
    forall i | 0 <= i < |r|
      ensures r[i].totalIndicadores == |Filter(InSubdimension(names[i]), db.indicadores)|
    {
      assert names[i] == subs[i].nombre;
    }
    CountsAddUp(names, db.indicadores, r);
  }

  /** Per-name counts of distinct names add up to the count of indicators under any of the names. */
  lemma {:induction false} CountsAddUp(names: seq<string>, inds: seq<Indicador>, ds: seq<Distribucion>)
    requires forall i, j :: 0 <= i < j < |names| ==> names[i] != names[j]
    requires |ds| == |names|
    requires forall i :: 0 <= i < |ds| ==> ds[i].totalIndicadores == |Filter(InSubdimension(names[i]), inds)|
    ensures TotalIndicadores(ds) == |Filter(InSubdimensions(names), inds)|
  {
    if names == [] {
      FilterKeepsNone(InSubdimensions(names), inds);
    } else {
      var rest := names[1..];
      forall i, j | 0 <= i < j < |rest|
        ensures rest[i] != rest[j]
      {
        assert rest[i] == names[i + 1] && rest[j] == names[j + 1];
      }
      forall i | 0 <= i < |ds[1..]|
        ensures ds[1..][i].totalIndicadores == |Filter(InSubdimension(rest[i]), inds)|
      {
        assert ds[1..][i] == ds[i + 1] && rest[i] == names[i + 1];
      }
      CountsAddUp(rest, inds, ds[1..]);
      forall x: Indicador
        ensures !(InSubdimension(names[0])(x) && InSubdimensions(rest)(x))
      {
        if x.nombreSubdimension in rest {
          var k :| 0 <= k < |rest| && rest[k] == x.nombreSubdimension;
          assert names[k + 1] == rest[k];
        }
      }
      forall x: Indicador
        ensures InSubdimensions(names)(x) == (InSubdimension(names[0])(x) || InSubdimensions(rest)(x))
      {
        assert names == [names[0]] + rest;
      }
      FilterDisjointUnion(InSubdimensions(names), InSubdimension(names[0]), InSubdimensions(rest), inds);
    }
  }

  /** Independently rounded shares need not add up to 100: three equal sub-dimensions give 99. */
  lemma SharesNeedNotSumTo100()
    ensures Porcentaje(1, 3) + Porcentaje(1, 3) + Porcentaje(1, 3) == 99
  {
    assert 100.0 * 1 as real / 3 as real == 100.0 / 3.0;
    assert Porcentaje(1, 3) == 33;
  }
}
