/**
 * The dimensions page (`frontend/src/pages/Dimensiones.tsx`): seven fixed cards, each given
 * the catalogue indicators of its dimension, and the set of expanded cards.
 */
module DimensionesPage {
  import opened Wrappers
  import opened Seqs
  import opened KpisData

  /** A card; its description and icon are display text and are not modelled. */
  datatype DimensionCard = DimensionCard(nombre: string, score: int, indicadores: seq<IndicadorConDatos>)

  /** `dimensionesData`: the seven names and hard-coded scores, each card without indicators. */
  function DimensionesData(): (cards: seq<DimensionCard>)
    ensures |cards| == 7
    ensures forall i :: 0 <= i < |cards| ==> cards[i].indicadores == [] && 0 <= cards[i].score <= 100
    ensures forall i, j :: 0 <= i < j < |cards| ==> cards[i].nombre != cards[j].nombre
  {
    var cards := [ DimensionCard("Transformación Digital Empresarial", 68, []),
      DimensionCard("Capital Humano", 72, []),
      DimensionCard("Infraestructura Digital", 75, []),
      DimensionCard("Ecosistema y Colaboración", 64, []),
      DimensionCard("Emprendimiento e Innovación", 58, []),
      DimensionCard("Servicios Públicos Digitales", 70, []),
      DimensionCard("Sostenibilidad Digital", 62, []) ];
    assert forall i, j :: 0 <= i < j < |cards| ==> |cards[i].nombre| != |cards[j].nombre|;
    cards
  }

  function InDimension(nombre: string): IndicadorConDatos -> bool {
    (ind: IndicadorConDatos) => ind.dimension == nombre
  }

  /** `indicadores?.filter(ind => ind.dimension === dim.nombre) || []`. */
  function IndicadoresDe(indicadores: Option<seq<IndicadorConDatos>>, nombre: string): (r: seq<IndicadorConDatos>)
    ensures indicadores.None? ==> r == []
    ensures forall k :: 0 <= k < |r| ==> r[k].dimension == nombre
    ensures indicadores.Some? ==> forall k ::
      (0 <= k < |indicadores.value| && indicadores.value[k].dimension == nombre) ==> indicadores.value[k] in r
    ensures indicadores.Some? ==> IsSubsequence(r, indicadores.value)
  {
    match indicadores
    case None => []
    case Some(inds) =>
      var r := Filter(InDimension(nombre), inds);
      assert forall k :: 0 <= k < |r| ==> InDimension(nombre)(r[k]);
      FilterIsSubsequence(InDimension(nombre), inds);
      r
  }

  function WithIndicadores(indicadores: Option<seq<IndicadorConDatos>>): DimensionCard -> DimensionCard {
    (card: DimensionCard) => card.(indicadores := IndicadoresDe(indicadores, card.nombre))
  }

  /** The grouping `dimensionesData.map(dim => ({ ...dim, indicadores: ... }))` over a list of cards. */
  function Agrupar(cards: seq<DimensionCard>, indicadores: Option<seq<IndicadorConDatos>>): (r: seq<DimensionCard>)
    ensures |r| == |cards|
    ensures forall i :: 0 <= i < |r| ==> r[i].nombre == cards[i].nombre && r[i].score == cards[i].score
    ensures forall i :: 0 <= i < |r| ==> r[i].indicadores == IndicadoresDe(indicadores, cards[i].nombre)
  {
    MapSeq(WithIndicadores(indicadores), cards)
  }

  /** `dimensionesConIndicadores`: each fixed card with the indicators of its dimension. */
  function DimensionesConIndicadores(indicadores: Option<seq<IndicadorConDatos>>): (r: seq<DimensionCard>)
    ensures |r| == 7
    ensures forall i :: 0 <= i < |r| ==>
      r[i].nombre == DimensionesData()[i].nombre && r[i].score == DimensionesData()[i].score
      && r[i].indicadores == IndicadoresDe(indicadores, DimensionesData()[i].nombre)
  {
    Agrupar(DimensionesData(), indicadores)
  }

  /** Each card holds exactly the indicators of its dimension, in catalogue order. */
  lemma GroupingIsExact(cards: seq<DimensionCard>, inds: seq<IndicadorConDatos>, i: nat)
    requires i < |cards|
    ensures var card := Agrupar(cards, Some(inds))[i];
      && IsSubsequence(card.indicadores, inds)
      && (forall k :: 0 <= k < |card.indicadores| ==> card.indicadores[k].dimension == card.nombre)
      && (forall k :: 0 <= k < |inds| && inds[k].dimension == card.nombre ==> inds[k] in card.indicadores)
  {
  }

  /** A card holds each indicator of its dimension as often as the catalogue does, and no other. */
  lemma GroupingMultiplicity(inds: seq<IndicadorConDatos>, nombre: string, x: IndicadorConDatos)
    ensures multiset(IndicadoresDe(Some(inds), nombre))[x] == if x.dimension == nombre then multiset(inds)[x] else 0
  {
    FilterMultiplicity(InDimension(nombre), inds, x);
  }

  /** Without data every card is empty. */
  lemma NoDataEmptyCards(cards: seq<DimensionCard>)
    ensures forall i :: 0 <= i < |Agrupar(cards, None)| ==> Agrupar(cards, None)[i].indicadores == []
  {
  }

  /** The cards, their order and their scores do not depend on the data. */
  lemma CardsIndependentOfData(cards: seq<DimensionCard>, a: Option<seq<IndicadorConDatos>>, b: Option<seq<IndicadorConDatos>>)
    ensures var ca, cb := Agrupar(cards, a), Agrupar(cards, b);
      |ca| == |cb| && forall i :: 0 <= i < |ca| ==> ca[i].nombre == cb[i].nombre && ca[i].score == cb[i].score
  {
  }

  /** The page always shows the seven cards, whatever the data. */
  lemma SevenCards(indicadores: Option<seq<IndicadorConDatos>>)
    ensures |DimensionesConIndicadores(indicadores)| == 7
  {
  }

  /** On cards with distinct names, an indicator is shown on at most one card. */
  lemma CardsAreDisjoint(cards: seq<DimensionCard>, inds: seq<IndicadorConDatos>)
    requires forall i, j :: 0 <= i < j < |cards| ==> cards[i].nombre != cards[j].nombre
    ensures var r := Agrupar(cards, Some(inds));
      forall i, j, x :: 0 <= i < j < |r| && x in r[i].indicadores ==> x !in r[j].indicadores
  {
    var r := Agrupar(cards, Some(inds));
    forall i, j, x | 0 <= i < j < |r| && x in r[i].indicadores
      ensures x !in r[j].indicadores
    {
      var k :| 0 <= k < |r[i].indicadores| && r[i].indicadores[k] == x;
      assert x.dimension == cards[i].nombre;
    }
  }

  /** The seven cards have distinct names, so each indicator appears on at most one of them. */
  lemma FixedCardsAreDisjoint(inds: seq<IndicadorConDatos>)
    ensures var r := DimensionesConIndicadores(Some(inds));
      forall i, j, x :: 0 <= i < j < |r| && x in r[i].indicadores ==> x !in r[j].indicadores
  {
    CardsAreDisjoint(DimensionesData(), inds);
  }

  /** The expanded set after toggling `nombre`. */
  function Toggled(expanded: set<string>, nombre: string): set<string> {
    if nombre in expanded then expanded - {nombre} else expanded + {nombre}
  }

  /** `toggleDimension`: copy the set, then delete the name if present, otherwise add it. */
  method ToggleDimension(expanded: set<string>, nombre: string) returns (newExpanded: set<string>)
    ensures nombre in newExpanded <==> nombre !in expanded
    ensures forall other :: other != nombre ==> (other in newExpanded <==> other in expanded)
    ensures newExpanded == Toggled(expanded, nombre)
  {
    newExpanded := expanded;
    if nombre in newExpanded {
      newExpanded := newExpanded - {nombre};
    } else {
      newExpanded := newExpanded + {nombre};
    }
  }

  /** Toggling the same card twice restores the expanded set. */
  lemma ToggleInvolution(expanded: set<string>, nombre: string)
    ensures Toggled(Toggled(expanded, nombre), nombre) == expanded
  {
  }

  /** Toggles of different cards commute. */
  lemma TogglesCommute(expanded: set<string>, a: string, b: string)
    ensures Toggled(Toggled(expanded, a), b) == Toggled(Toggled(expanded, b), a)
  {
  }
}
