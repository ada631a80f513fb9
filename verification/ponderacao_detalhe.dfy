/**
 * The public ponderation page: the status badge, the per-section counts,
 * the sections shown open, and which of the observation, tip and
 * "processing" panels each item shows.
 */
module PonderacaoDetalhe {
  import opened Wrappers
  import Js
  import opened Schema
  import opened Ponderations

  // ---------------------------------------------------------------------
  // Status badge

  /** The value a status is stored and sent as. */
  function StatusValue(s: PonderationStatus): string {
    match s
    case Bom => "bom"
    case Atencao => "atencao"
    case Critico => "critico"
  }

  /** `statusLabels[value] ?? value`: the label of a known value, the value itself otherwise. */
  function StatusLabel(value: string): (shown: string)
    ensures value == "bom" ==> shown == "Bom"
    ensures value == "atencao" ==> shown == "Atenção"
    ensures value == "critico" ==> shown == "Crítico"
    ensures value !in {"bom", "atencao", "critico"} ==> shown == value
  {
    if value == "bom" then "Bom"
    else if value == "atencao" then "Atenção"
    else if value == "critico" then "Crítico"
    else value
  }

  /** Every status the server sends has its own label, and none shows its raw value. */
  lemma StatusLabelsDistinct(s: PonderationStatus, t: PonderationStatus)
    ensures StatusLabel(StatusValue(s)) != StatusValue(s)
    ensures s != t ==> StatusLabel(StatusValue(s)) != StatusLabel(StatusValue(t))
  {
  }

  // ---------------------------------------------------------------------
  // Sections

  predicate IsSim(i: DetailItem) { i.answer }

  predicate IsNao(i: DetailItem) { !i.answer }

  /** The header of one section: how many items say "sim" and "não", and the "Tudo OK" badge. */
  datatype SectionHeader = SectionHeader(sectionId: string, simCount: nat, naoCount: nat, allSim: bool)

  function HeaderOf(s: DetailSection): (h: SectionHeader)
    ensures h.sectionId == s.sectionId
    ensures h.simCount == |Js.Positions(s.items, IsSim)| && h.naoCount == |Js.Positions(s.items, IsNao)|
    ensures h.simCount + h.naoCount == |s.items|
    ensures h.allSim <==> h.naoCount == 0
    ensures h.allSim <==> forall k :: 0 <= k < |s.items| ==> IsSim(s.items[k])
  {
    var sim, nao := |Js.Filter(s.items, IsSim)|, |Js.Filter(s.items, IsNao)|;
    SimNaoSplit(s.items);
    Js.FilterCount(s.items, IsSim);
    Js.FilterCount(s.items, IsNao);
    SectionHeader(s.sectionId, sim, nao, nao == 0)
  }

  /** Every item is counted once, as "sim" or as "não"; no "não" means every item is "sim". */
  lemma SimNaoSplit(items: seq<DetailItem>)
    ensures |Js.Filter(items, IsSim)| + |Js.Filter(items, IsNao)| == |items|
    ensures |Js.Filter(items, IsNao)| == 0 <==> forall k :: 0 <= k < |items| ==> IsSim(items[k])
  {
    Js.FilterSplit(items, IsSim, IsNao, (i: DetailItem) => true);
    Js.FilterAll(items, (i: DetailItem) => true);
    if |Js.Filter(items, IsNao)| == 0 {
      Js.FilterFull(items, IsSim);
    }
  }

  predicate HasNao(s: DetailSection) {
    exists k :: 0 <= k < |s.items| && IsNao(s.items[k])
  }

  /** The sections the accordion starts open: those with a "não" item, by id, in section order. */
  function DefaultOpen(sections: seq<DetailSection>): (ids: seq<string>)
    ensures |ids| <= |sections|
    ensures forall j :: 0 <= j < |ids| ==>
      exists k :: 0 <= k < |sections| && HasNao(sections[k]) && sections[k].sectionId == ids[j]
    ensures forall k :: 0 <= k < |sections| && HasNao(sections[k]) ==> sections[k].sectionId in ids
  {
    var open := Js.Filter(sections, HasNao);
    var ids := Js.Map(open, (s: DetailSection) => s.sectionId);
    assert forall j :: 0 <= j < |ids| ==> open[j] in sections && HasNao(open[j]);
    assert forall k :: 0 <= k < |sections| && HasNao(sections[k]) ==> exists j :: 0 <= j < |open| && open[j] == sections[k];
    ids
  }

  /** Section order is kept: the open sections of a concatenation are those of each part, in turn. */
  lemma DefaultOpenAppend(a: seq<DetailSection>, b: seq<DetailSection>)
    ensures DefaultOpen(a + b) == DefaultOpen(a) + DefaultOpen(b)
  {
    Js.FilterAppend(a, b, HasNao);
  }

  /** A section starts open exactly when its header shows no "Tudo OK" badge. */
  lemma OpenIffNotAllSim(s: DetailSection)
    ensures DefaultOpen([s]) == (if HeaderOf(s).allSim then [] else [s.sectionId])
  {
    var h := HeaderOf(s);
    if HasNao(s) {
      var k :| 0 <= k < |s.items| && IsNao(s.items[k]);
      assert !h.allSim;
      Js.FilterSingle([s], HasNao, 0);
    } else {
      assert h.allSim;
      Js.FilterNone([s], HasNao);
    }
  }

  // ---------------------------------------------------------------------
  // Items

  /** The panels one item shows under its question. */
  datatype ItemPanels = ItemPanels(
    observation: bool,
    tip: bool,
    fallbackBadge: bool,
    practicalExample: bool,
    processing: bool)

  /** A JavaScript string is truthy when present and non-empty. */
  predicate Truthy(s: Option<string>) { s.Some? && s.value != "" }

  function PanelsOf(i: DetailItem): (p: ItemPanels)
    ensures IsNao(i) ==> p.tip != p.processing
    ensures IsSim(i) ==> !p.observation && !p.tip && !p.processing
    ensures p.tip <==> IsNao(i) && i.aiTip.Some?
    ensures p.observation <==> IsNao(i) && Truthy(i.observation)
    ensures p.fallbackBadge <==> p.tip && i.aiTip.value.isFallback
    ensures p.practicalExample <==> p.tip && Truthy(i.aiTip.value.practicalExample)
  {
    var tip := !i.answer && i.aiTip.Some?;
    ItemPanels(
      !i.answer && Truthy(i.observation),
      tip,
      tip && i.aiTip.value.isFallback,
      tip && Truthy(i.aiTip.value.practicalExample),
      !i.answer && i.aiTip.None?)
  }
}
