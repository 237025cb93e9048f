/**
 * Concrete cases of the scoring, identifier and history code, stated on small tables.
 */
module Scenarios {
  import opened Wrappers
  import opened Seqs
  import opened Numeric
  import opened Text
  import opened KpisData

  const CV: string := "Comunitat Valenciana"

  /** An indicator definition of sub-dimension `sub` with every optional field absent. */
  function Def(nombre: string, sub: string): Indicador {
    Indicador(nombre, sub, None, None, None, None, None)
  }

  /** Only a 2022 result exists: asking for 2023 yields the 2022 value, neither zero nor missing. */
  lemma FallbackToLatestPeriod(rows: seq<Resultado>)
    requires rows == [Resultado("A", CV, 2022, Some(55.0))]
    ensures TerritoryValue(rows, "A", CV, 2023) == Some(55.0)
  {
    assert HasRows(rows, "A", CV) by {
      assert rows[0].nombreIndicador == "A" && rows[0].pais == CV;
    }
    assert ResolveVariant(rows, "A", CV, 2023) == Some(rows[0]);
  }

  /** A result stored under the synonym "Valencia" is found for "Comunitat Valenciana". */
  lemma FallbackToSynonym(rows: seq<Resultado>)
    requires rows == [Resultado("A", "Valencia", 2024, Some(61.0))]
    ensures TerritoryValue(rows, "A", CV, 2024) == Some(61.0)
  {
    var vs := Variations(CV);
    assert vs[2] == "Valencia";
    assert !HasRows(rows, "A", vs[0]) by {
      assert |rows[0].pais| != |vs[0]|;
    }
    assert !HasRows(rows, "A", vs[1]) by {
      assert |rows[0].pais| != |vs[1]|;
    }
    assert HasRows(rows, "A", vs[2]) by {
      assert rows[0].nombreIndicador == "A" && rows[0].pais == vs[2];
    }
    assert ResolveVariant(rows, "A", vs[2], 2024) == Some(rows[0]);
    assert ResolveVariants(rows, "A", vs, 2024) == ResolveVariants(rows, "A", vs[1..], 2024);
    assert vs[1..][0] == vs[1] && vs[1..][1..][0] == vs[2];
    assert ResolveVariants(rows, "A", vs[1..], 2024) == ResolveVariants(rows, "A", vs[1..][1..], 2024);
    assert ResolveVariants(rows, "A", vs[1..][1..], 2024) == Some(rows[0]);
  }

  /** Indicator "B" has no result at all: it resolves to no value under every synonym. */
  lemma NoResultsNoValue(rows: seq<Resultado>)
    requires rows == [Resultado("A", CV, 2024, Some(80.0))]
    ensures TerritoryValue(rows, "B", CV, 2024).None?
  {
    var vs := Variations(CV);
    forall k | 0 <= k < |vs|
      ensures !HasRows(rows, "B", vs[k])
    {
      assert rows[0].nombreIndicador != "B";
    }
    ResolveVariantsFirstMatch(rows, "B", vs, 2024);
  }

  /**
   * A sub-dimension with indicators "A" (80 in 2024) and "B" (no results) scores 80 for the
   * territory, not 40: "B" is left out of the mean instead of counting as zero.
   */
  lemma MissingIndicatorIsExcluded(inds: seq<Indicador>, rows: seq<Resultado>)
    requires inds == [Def("A", "S"), Def("B", "S")]
    requires rows == [Resultado("A", CV, 2024, Some(80.0))]
    ensures ScoreFor(inds, rows, "S", CV, 2024).score == 80.0
    ensures ScoreFor(inds, rows, "S", CV, 2024).indicadores == 2
  {
    assert Filter(InSubdimension("S"), inds) == inds;
    var ta := TerritoryValue(rows, "A", CV, 2024);
    assert ta == Some(80.0) by {
      assert HasRows(rows, "A", CV) by {
        assert rows[0].nombreIndicador == "A" && rows[0].pais == CV;
      }
      assert ResolveVariant(rows, "A", CV, 2024) == Some(rows[0]);
    }
    NoResultsNoValue(rows);
    var valores := MapSeq(TerritoryValueOf(rows, CV, 2024), inds);
    assert valores == [Some(80.0), None];
    var none: seq<Option<real>> := [None];
    assert NonNull(none) == [];
    assert NonNull(valores) == [80.0];
    assert Sum([80.0]) == 80.0;
  }

  /** With no result under any synonym the territory scores 0 while the national reference need not. */
  lemma ReferencesAreIndependent(inds: seq<Indicador>, rows: seq<Resultado>)
    requires inds == [Def("A", "S")]
    requires rows == [Resultado("A", "España", 2024, Some(70.0))]
    ensures ScoreFor(inds, rows, "S", CV, 2024).score == 0.0
    ensures ScoreFor(inds, rows, "S", CV, 2024).espana == 70.0
  {
    assert Filter(InSubdimension("S"), inds) == inds;
    NoTerritoryValue(rows);
    SpainValueFound(rows);
    var none: seq<Option<real>> := [None];
    assert NonNull(none) == [];
    assert MapSeq(TerritoryValueOf(rows, CV, 2024), inds) == none;
    assert NonNull(MapSeq(SpainValueOf(rows, 2024), inds)) == [70.0];
    assert Sum([70.0]) == 70.0;
  }

  lemma NoTerritoryValue(rows: seq<Resultado>)
    requires rows == [Resultado("A", "España", 2024, Some(70.0))]
    ensures TerritoryValue(rows, "A", CV, 2024) == None
  {
    var vs := Variations(CV);
    forall k | 0 <= k < |vs|
      ensures !HasRows(rows, "A", vs[k])
    {
      assert |rows[0].pais| != |vs[k]|;
    }
  }

  lemma SpainValueFound(rows: seq<Resultado>)
    requires rows == [Resultado("A", "España", 2024, Some(70.0))]
    ensures SpainValue(rows, "A", 2024) == Some(70.0)
  {
    assert HasRows(rows, "A", "España") by {
      assert rows[0].nombreIndicador == "A" && rows[0].pais == "España";
    }
    assert ResolveVariant(rows, "A", "España", 2024) == Some(rows[0]);
  }

  /**
   * With results for 2024 and 2020 and a limit of one point, the history holds the 2020
   * point: the query sorts ascending before it cuts, so the oldest periods are kept.
   */
  lemma HistoryKeepsOldestPeriods(rows: seq<Resultado>)
    requires rows == [Resultado("A", CV, 2024, Some(2.0)), Resultado("A", CV, 2020, Some(1.0))]
    ensures GetDatosHistoricosIndicador(rows, "A", CV, 1) == [HistoryPoint(2020, 1.0)]
  {
    FilterKeepsAll(ForTerritory("A", CV), rows);
    OldestOfTwo(rows, GetDatosHistoricosIndicador(rows, "A", CV, 1));
  }

  lemma OldestOfTwo(rows: seq<Resultado>, r: seq<HistoryPoint>)
    requires rows == [Resultado("A", CV, 2024, Some(2.0)), Resultado("A", CV, 2020, Some(1.0))]
    requires |r| == 1 && FromRow(rows, "A", CV, r[0]) && OlderRowsIncluded(rows, "A", CV, r)
    ensures r == [HistoryPoint(2020, 1.0)]
  {
    var k :| 0 <= k < |rows| && rows[k].nombreIndicador == "A" && rows[k].pais == CV && ToHistoryPoint(rows[k]) == r[0];
    OlderRowIncluded(rows, "A", CV, r, 1, 0);
    assert k == 1;
    assert r == [r[0]];
  }

  /** "Educación" gets the identifier "educacion". */
  lemma SlugOfEducacion(nombre: string)
    requires nombre == "Educación"
    ensures Slug(nombre) == "educacion"
  {
    var lower := ToLower(nombre);
    LowerOfEducacion(nombre, lower);
    CollapseWithoutSpaces(lower);
    FoldOfEducacion(lower);
  }

  lemma LowerOfEducacion(nombre: string, lower: string)
    requires nombre == "Educación" && lower == ToLower(nombre)
    ensures lower == "educación"
  {
    assert lower[0] == 'e';
  }

  lemma FoldOfEducacion(lower: string)
    requires lower == "educación"
    ensures FoldVowels(lower) == "educacion"
  {
    assert FoldVowels(lower)[7] == 'o';
  }
}
