/**
 * The evaluation checklist: nine sections of yes/no items, the item total
 * derived from them, and the identity facts every lookup relies on (section
 * ids are distinct, item ids are distinct across the whole catalog, and no id
 * contains the ':' used to build lookup keys).
 */
module ChecklistData {
  import opened Wrappers
  import Js

  datatype ChecklistItem = ChecklistItem(id: string, question: string)

  datatype ChecklistSection = ChecklistSection(id: string, title: string, items: seq<ChecklistItem>)

  /** The id and title of a section, without its items. */
  datatype SectionHead = SectionHead(id: string, title: string)

  const IntroducaoHead := SectionHead("introducao", "Introdução")
  const JustificativaHead := SectionHead("justificativa", "Justificativa")
  const ObjetivosHead := SectionHead("objetivos", "Objetivos")
  const FundamentacaoHead := SectionHead("fundamentacao", "Fundamentação Teórica")
  const MetodologiaHead := SectionHead("metodologia", "Metodologia")
  const CronogramaHead := SectionHead("cronograma", "Cronograma")
  const ReferenciasHead := SectionHead("referencias", "Referências")
  const CoerenciaHead := SectionHead("coerencia", "Coerência Global")
  const EscritaHead := SectionHead("escrita", "Escrita Acadêmica")

  /** The heads of the catalog's sections, in catalog order. */
  const SectionHeads: seq<SectionHead> := [
    IntroducaoHead, JustificativaHead, ObjetivosHead, FundamentacaoHead, MetodologiaHead,
    CronogramaHead, ReferenciasHead, CoerenciaHead, EscritaHead
  ]

  const Introducao := ChecklistSection(IntroducaoHead.id, IntroducaoHead.title, [
    ChecklistItem("intro-01", "O tema da pesquisa está claramente " + "delimitado?"),
    ChecklistItem("intro-02", "O problema de pesquisa está formulado " + "de forma clara e objetiva?"),
    ChecklistItem("intro-03", "A contextualização apresenta o cenário " + "geral do tema?"),
    ChecklistItem("intro-04", "Há indicação da relevância acadêmica " + "e/ou social do estudo?"),
    ChecklistItem("intro-05", "A estrutura do trabalho é apresentada " + "ao final da introdução?"),
    ChecklistItem("intro-06", "A linguagem utilizada é impessoal e " + "acadêmica (NBR 15287)?")
  ])

  const Justificativa := ChecklistSection(JustificativaHead.id, JustificativaHead.title, [
    ChecklistItem("just-01", "A justificativa apresenta argumentos " + "que sustentam a importância do tema?"),
    ChecklistItem("just-02", "Há menção à lacuna no conhecimento que " + "a pesquisa pretende preencher?"),
    ChecklistItem("just-03", "São apresentadas contribuições " + "esperadas (teórica, prática ou social)?"),
    ChecklistItem("just-04", "A justificativa está apoiada em dados " + "ou referências bibliográficas?"),
    ChecklistItem("just-05", "A viabilidade do estudo é brevemente " + "mencionada?"),
    ChecklistItem("just-06", "A justificativa diferencia o trabalho " + "de pesquisas anteriores similares?")
  ])

  const Objetivos := ChecklistSection(ObjetivosHead.id, ObjetivosHead.title, [
    ChecklistItem("obj-01", "O objetivo geral está formulado com " + "verbo no infinitivo?"),
    ChecklistItem("obj-02", "O objetivo geral é coerente com o " + "problema de pesquisa?"),
    ChecklistItem("obj-03", "Os objetivos específicos desdobram o " + "objetivo geral em etapas?"),
    ChecklistItem("obj-04", "Os objetivos específicos são " + "mensuráveis e alcançáveis?"),
    ChecklistItem("obj-05", "Há pelo menos 3 objetivos específicos " + "definidos?"),
    ChecklistItem("obj-06", "Os objetivos específicos seguem uma " + "sequência lógica de execução?")
  ])

  const Fundamentacao := ChecklistSection(FundamentacaoHead.id, FundamentacaoHead.title, [
    ChecklistItem("fund-01", "A fundamentação teórica aborda os " + "conceitos-chave do tema?"),
    ChecklistItem("fund-02", "As fontes utilizadas são confiáveis e " + "atualizadas (últimos 5 anos " + "preferencialmente)?"),
    ChecklistItem("fund-03", "Há diálogo entre os autores citados " + "(não apenas citações isoladas)?"),
    ChecklistItem("fund-04", "As citações diretas seguem a NBR 10520 " + "(autor, ano, página)?"),
    ChecklistItem("fund-05", "As citações indiretas seguem a NBR " + "10520 (autor, ano)?"),
    ChecklistItem("fund-06", "A fundamentação está organizada em " + "subseções temáticas coerentes?"),
    ChecklistItem("fund-07", "Há posicionamento crítico do autor em " + "relação à literatura revisada?")
  ])

  const Metodologia := ChecklistSection(MetodologiaHead.id, MetodologiaHead.title, [
    ChecklistItem("met-01", "O tipo de pesquisa está classificado " + "(exploratória, descritiva, explicativa)?"),
    ChecklistItem("met-02", "A abordagem está definida (qualitativa, " + "quantitativa ou mista)?"),
    ChecklistItem("met-03", "Os procedimentos de coleta de dados " + "estão descritos?"),
    ChecklistItem("met-04", "A população/amostra está definida e " + "justificada?"),
    ChecklistItem("met-05", "Os instrumentos de pesquisa estão " + "descritos (questionário, entrevista, " + "etc.)?"),
    ChecklistItem("met-06", "O procedimento de análise dos dados " + "está explicado?"),
    ChecklistItem("met-07", "Há menção a aspectos éticos da pesquisa " + "(quando aplicável)?")
  ])

  const Cronograma := ChecklistSection(CronogramaHead.id, CronogramaHead.title, [
    ChecklistItem("cron-01", "O cronograma está apresentado em " + "formato de tabela ou quadro?"),
    ChecklistItem("cron-02", "Todas as etapas do projeto estão " + "contempladas no cronograma?"),
    ChecklistItem("cron-03", "Os prazos são realistas e compatíveis " + "com a complexidade das atividades?"),
    ChecklistItem("cron-04", "Há previsão de tempo para revisão e " + "ajustes finais?"),
    ChecklistItem("cron-05", "O cronograma cobre todo o período " + "previsto para a pesquisa?")
  ])

  const Referencias := ChecklistSection(ReferenciasHead.id, ReferenciasHead.title, [
    ChecklistItem("ref-01", "As referências estão em ordem " + "alfabética pelo sobrenome do autor (NBR " + "6023)?"),
    ChecklistItem("ref-02", "Todas as citações do texto possuem " + "entrada correspondente nas referências?"),
    ChecklistItem("ref-03", "A formatação segue o padrão NBR " + "6023:2025 (autor, título, edição, " + "local, editora, ano)?"),
    ChecklistItem("ref-04", "As referências de meio eletrônico " + "incluem URL e data de acesso?"),
    ChecklistItem("ref-05", "Há número mínimo adequado de " + "referências para o tipo de trabalho?"),
    ChecklistItem("ref-06", "As referências incluem fontes primárias " + "(artigos, teses) e não apenas " + "secundárias?")
  ])

  const Coerencia := ChecklistSection(CoerenciaHead.id, CoerenciaHead.title, [
    ChecklistItem("coer-01", "Há coerência entre o problema, os " + "objetivos e a metodologia?"),
    ChecklistItem("coer-02", "O título do trabalho reflete " + "adequadamente o conteúdo proposto?"),
    ChecklistItem("coer-03", "A fundamentação teórica dá suporte aos " + "objetivos propostos?"),
    ChecklistItem("coer-04", "O cronograma contempla todas as etapas " + "mencionadas na metodologia?"),
    ChecklistItem("coer-05", "Há fluxo lógico e progressão entre as " + "seções do projeto?")
  ])

  const Escrita := ChecklistSection(EscritaHead.id, EscritaHead.title, [
    ChecklistItem("esc-01", "O texto está redigido em linguagem " + "formal e impessoal?"),
    ChecklistItem("esc-02", "A ortografia e gramática estão corretas?"),
    ChecklistItem("esc-03", "Os parágrafos possuem desenvolvimento " + "adequado (não são frases isoladas)?"),
    ChecklistItem("esc-04", "A formatação geral segue as normas ABNT " + "(margens, fonte, espaçamento)?"),
    ChecklistItem("esc-05", "Os títulos e subtítulos seguem a " + "hierarquia de numeração da ABNT?"),
    ChecklistItem("esc-06", "Há uso adequado de conectivos e " + "transições entre parágrafos e seções?")
  ])
  const ChecklistSections: seq<ChecklistSection> := [
    Introducao, Justificativa, Objetivos, Fundamentacao, Metodologia,
    Cronograma, Referencias, Coerencia, Escrita
  ]

  /** The fold `reduce((acc, s) => acc + s.items.length, 0)` over a list of sections. */
  function ItemTotal(ss: seq<ChecklistSection>): nat {
    if ss == [] then 0 else ItemTotal(ss[..|ss| - 1]) + |ss[|ss| - 1].items|
  }

  /**
   * `TOTAL_ITEMS`, written as its value so that members using the count do
   * not have to unfold the catalog; `CatalogShape` proves it is the fold of
   * the section sizes.
   */
  const TotalItems: nat := 54

  /** The catalog's shape: nine sections of 6, 6, 6, 7, 7, 5, 6, 5 and 6 items, 54 in all. */
  lemma CatalogShape()
    ensures |ChecklistSections| == 9
    ensures |ChecklistSections[0].items| == 6 && |ChecklistSections[1].items| == 6
    ensures |ChecklistSections[2].items| == 6 && |ChecklistSections[3].items| == 7
    ensures |ChecklistSections[4].items| == 7 && |ChecklistSections[5].items| == 5
    ensures |ChecklistSections[6].items| == 6 && |ChecklistSections[7].items| == 5
    ensures |ChecklistSections[8].items| == 6
    ensures TotalItems == ItemTotal(ChecklistSections) == 54
  {
    var ss := ChecklistSections;
    assert ss[..0] == [];
    assert ss[..1][..0] == ss[..0];
    assert ss[..2][..1] == ss[..1];
    assert ss[..3][..2] == ss[..2];
    assert ss[..4][..3] == ss[..3];
    assert ss[..5][..4] == ss[..4];
    assert ss[..6][..5] == ss[..5];
    assert ss[..7][..6] == ss[..6];
    assert ss[..8][..7] == ss[..7];
    assert ss[..9][..8] == ss[..8];
    assert ss[..9] == ss;
    assert ItemTotal(ss[..1]) == 6;
    assert ItemTotal(ss[..2]) == 12;
    assert ItemTotal(ss[..3]) == 18;
    assert ItemTotal(ss[..4]) == 25;
    assert ItemTotal(ss[..5]) == 32;
    assert ItemTotal(ss[..6]) == 37;
    assert ItemTotal(ss[..7]) == 43;
    assert ItemTotal(ss[..8]) == 48;
  }

  /**
   * The id facts of one section: its id has no ':', every item id starts
   * with the section's two-character tag and has no ':', and no two of its
   * item ids are equal.
   */
  ghost predicate SectionKeyed(sec: ChecklistSection, c0: char, c1: char) {
    && ':' !in sec.id
    && (forall i :: 0 <= i < |sec.items| ==>
          |sec.items[i].id| >= 2 && sec.items[i].id[0] == c0 && sec.items[i].id[1] == c1
          && ':' !in sec.items[i].id)
    && (forall i, j :: 0 <= i < j < |sec.items| ==> sec.items[i].id != sec.items[j].id)
  }

  lemma IntroducaoKeyed() ensures SectionKeyed(Introducao, 'i', 'n') {}
  lemma JustificativaKeyed() ensures SectionKeyed(Justificativa, 'j', 'u') {}
  lemma ObjetivosKeyed() ensures SectionKeyed(Objetivos, 'o', 'b') {}
  lemma FundamentacaoKeyed() ensures SectionKeyed(Fundamentacao, 'f', 'u') {}
  lemma MetodologiaKeyed() ensures SectionKeyed(Metodologia, 'm', 'e') {}
  lemma CronogramaKeyed() ensures SectionKeyed(Cronograma, 'c', 'r') {}
  lemma ReferenciasKeyed() ensures SectionKeyed(Referencias, 'r', 'e') {}
  lemma CoerenciaKeyed() ensures SectionKeyed(Coerencia, 'c', 'o') {}
  lemma EscritaKeyed() ensures SectionKeyed(Escrita, 'e', 's') {}

  /** The two-character tag every item id of section `k` starts with. */
  function Tag(k: nat): (char, char) {
    match k
    case 0 => ('i', 'n')
    case 1 => ('j', 'u')
    case 2 => ('o', 'b')
    case 3 => ('f', 'u')
    case 4 => ('m', 'e')
    case 5 => ('c', 'r')
    case 6 => ('r', 'e')
    case 7 => ('c', 'o')
    case _ => ('e', 's')
  }

  lemma SectionKeyedAt(k: nat)
    requires k < |ChecklistSections|
    ensures SectionKeyed(ChecklistSections[k], Tag(k).0, Tag(k).1)
  {
    if k == 0 { IntroducaoKeyed(); }
    else if k == 1 { JustificativaKeyed(); }
    else if k == 2 { ObjetivosKeyed(); }
    else if k == 3 { FundamentacaoKeyed(); }
    else if k == 4 { MetodologiaKeyed(); }
    else if k == 5 { CronogramaKeyed(); }
    else if k == 6 { ReferenciasKeyed(); }
    else if k == 7 { CoerenciaKeyed(); }
    else { EscritaKeyed(); }
  }

  ghost predicate SectionIdsDistinct() {
    forall a, b :: 0 <= a < b < |ChecklistSections| ==> ChecklistSections[a].id != ChecklistSections[b].id
  }

  /** No two positions (section k, item i) of `ss` carry the same item id. */
  ghost predicate ItemIdsDistinctIn(ss: seq<ChecklistSection>) {
    forall k, i, l, j ::
      0 <= k < |ss| && 0 <= i < |ss[k].items| && 0 <= l < |ss| && 0 <= j < |ss[l].items| &&
      (k != l || i != j)
      ==> ss[k].items[i].id != ss[l].items[j].id
  }

  /** No section id and no item id of `ss` contains ':'. */
  ghost predicate NoColonIn(ss: seq<ChecklistSection>) {
    forall k :: 0 <= k < |ss| ==>
      ':' !in ss[k].id && forall i :: 0 <= i < |ss[k].items| ==> ':' !in ss[k].items[i].id
  }

  /** Sections whose tags differ and whose own item ids differ have distinct item ids overall. */
  lemma {:induction false} TaggedSectionsDistinct(ss: seq<ChecklistSection>)
    requires |ss| <= 9
    requires forall k :: 0 <= k < |ss| ==> SectionKeyed(ss[k], Tag(k).0, Tag(k).1)
    ensures ItemIdsDistinctIn(ss) && NoColonIn(ss)
  {
    forall k, i, l, j |
      0 <= k < |ss| && 0 <= i < |ss[k].items| && 0 <= l < |ss| && 0 <= j < |ss[l].items| &&
      (k != l || i != j)
      ensures ss[k].items[i].id != ss[l].items[j].id
    {
      assert SectionKeyed(ss[k], Tag(k).0, Tag(k).1);
      assert SectionKeyed(ss[l], Tag(l).0, Tag(l).1);
      if k == l && j < i {
        assert ss[k].items[j].id != ss[k].items[i].id;
      }
    }
  }

  lemma SectionIdsAreDistinct()
    ensures SectionIdsDistinct()
  {
  }

  /** Item ids are distinct across the whole catalog, and no id has ':'. */
  lemma ItemIdsAreDistinct()
    ensures ItemIdsDistinctIn(ChecklistSections) && NoColonIn(ChecklistSections)
  {
    forall k | 0 <= k < |ChecklistSections|
      ensures SectionKeyed(ChecklistSections[k], Tag(k).0, Tag(k).1)
    {
      SectionKeyedAt(k);
    }
    TaggedSectionsDistinct(ChecklistSections);
  }

  /** `checklistSections.find((s) => s.id === sid)`. */
  function FindSection(sid: string): Option<ChecklistSection> {
    Js.Find(ChecklistSections, (s: ChecklistSection) => s.id == sid)
  }

  /** `section.items.find((it) => it.id === iid)`. */
  function FindItem(section: ChecklistSection, iid: string): Option<ChecklistItem> {
    Js.Find(section.items, (it: ChecklistItem) => it.id == iid)
  }

  /** `find(section)?.items.find(item)?.question`: the catalog question of a key, if any. */
  function FindQuestion(sid: string, iid: string): Option<string> {
    match FindSection(sid)
    case None => None
    case Some(section) =>
      match FindItem(section, iid)
      case None => None
      case Some(item) => Some(item.question)
  }

  /** The (section id, item id) pair names a catalog item. */
  ghost predicate IsCatalogKey(sid: string, iid: string) {
    exists k, i :: 0 <= k < |ChecklistSections| && 0 <= i < |ChecklistSections[k].items| &&
      ChecklistSections[k].id == sid && ChecklistSections[k].items[i].id == iid
  }

  /** Looking up the id of section k finds exactly that section. */
  lemma LookupFindsSection(k: nat)
    requires k < |ChecklistSections|
    ensures FindSection(ChecklistSections[k].id) == Some(ChecklistSections[k])
  {
    SectionIdsAreDistinct();
    var sid := ChecklistSections[k].id;
    forall l | 0 <= l < |ChecklistSections| && l != k ensures ChecklistSections[l].id != sid {
      if l < k { assert ChecklistSections[l].id != ChecklistSections[k].id; }
      else { assert ChecklistSections[k].id != ChecklistSections[l].id; }
    }
    Js.FindUnique(ChecklistSections, (s: ChecklistSection) => s.id == sid, k);
  }

  /** Looking up the ids of catalog position (k, i) finds exactly that section and that item. */
  lemma LookupFindsPosition(k: nat, i: nat)
    requires k < |ChecklistSections| && i < |ChecklistSections[k].items|
    ensures FindSection(ChecklistSections[k].id) == Some(ChecklistSections[k])
    ensures FindItem(ChecklistSections[k], ChecklistSections[k].items[i].id) == Some(ChecklistSections[k].items[i])
    ensures FindQuestion(ChecklistSections[k].id, ChecklistSections[k].items[i].id) == Some(ChecklistSections[k].items[i].question)
  {
    LookupFindsSection(k);
    ItemIdsAreDistinct();
    var items := ChecklistSections[k].items;
    var iid := items[i].id;
    forall j | 0 <= j < |items| && j != i ensures items[j].id != iid {
      assert ItemIdsDistinctIn(ChecklistSections);
    }
    Js.FindUnique(ChecklistSections[k].items, (it: ChecklistItem) => it.id == iid, i);
  }

  /** Every section's head carries that section's id and title. */
  lemma HeadsOfCatalog()
    ensures |SectionHeads| == |ChecklistSections|
    ensures forall k :: 0 <= k < |SectionHeads| ==>
      SectionHeads[k].id == ChecklistSections[k].id && SectionHeads[k].title == ChecklistSections[k].title
  {
  }

  /** No two section heads share an id. */
  lemma HeadIdsDistinct()
    ensures forall a, b :: 0 <= a < b < |SectionHeads| ==> SectionHeads[a].id != SectionHeads[b].id
  {
    HeadsOfCatalog();
    SectionIdsAreDistinct();
  }

  /**
   * `checklistSections.find((s) => s.id === sid)?.title`, looked up among
   * the section heads, which hold the same ids and titles.
   */
  function FindTitle(sid: string): Option<string> {
    TitleIn(SectionHeads, sid)
  }

  /** The scan `find` performs: the title of the first head with the id. */
  function TitleIn(heads: seq<SectionHead>, sid: string): Option<string> {
    if heads == [] then None
    else if heads[0].id == sid then Some(heads[0].title)
    else TitleIn(heads[1..], sid)
  }

  /** The scan finds nothing exactly when no head has the id. */
  lemma {:induction false} TitleInNone(heads: seq<SectionHead>, sid: string)
    ensures TitleIn(heads, sid).None? <==> forall k :: 0 <= k < |heads| ==> heads[k].id != sid
  {
    if heads != [] {
      TitleInNone(heads[1..], sid);
      assert forall k :: 1 <= k < |heads| ==> heads[k] == heads[1..][k - 1];
    }
  }

  /** When only head k has the id, the scan yields its title. */
  lemma {:induction false} TitleInUnique(heads: seq<SectionHead>, sid: string, k: nat)
    requires k < |heads| && heads[k].id == sid
    requires forall j :: 0 <= j < |heads| && j != k ==> heads[j].id != sid
    ensures TitleIn(heads, sid) == Some(heads[k].title)
  {
    if k > 0 {
      assert heads[0].id != sid;
      TitleInUnique(heads[1..], sid, k - 1);
    }
  }

  /** The title found is that of the section with the id, and nothing when there is none. */
  lemma FindTitleFacts(sid: string)
    ensures forall k :: 0 <= k < |ChecklistSections| && ChecklistSections[k].id == sid ==> FindTitle(sid) == Some(ChecklistSections[k].title)
    ensures FindTitle(sid).None? <==> forall k :: 0 <= k < |ChecklistSections| ==> ChecklistSections[k].id != sid
  {
    HeadsOfCatalog();
    SectionIdsAreDistinct();
    TitleInNone(SectionHeads, sid);
    forall k | 0 <= k < |ChecklistSections| && ChecklistSections[k].id == sid
      ensures FindTitle(sid) == Some(ChecklistSections[k].title)
    {
      forall l | 0 <= l < |SectionHeads| && l != k ensures SectionHeads[l].id != sid {
        if l < k { assert ChecklistSections[l].id != ChecklistSections[k].id; }
        else { assert ChecklistSections[k].id != ChecklistSections[l].id; }
      }
      TitleInUnique(SectionHeads, sid, k);
    }
  }

  /** `…?.title ?? sid`: the section's title, falling back to the id itself. */
  function TitleOrId(sid: string): string {
    FindTitle(sid).GetOr(sid)
  }

  /** A question is found exactly for the catalog's keys. */
  lemma FindQuestionIffCatalogKey(sid: string, iid: string)
    ensures FindQuestion(sid, iid).Some? <==> IsCatalogKey(sid, iid)
  {
    if IsCatalogKey(sid, iid) {
      var k, i :| 0 <= k < |ChecklistSections| && 0 <= i < |ChecklistSections[k].items| &&
        ChecklistSections[k].id == sid && ChecklistSections[k].items[i].id == iid;
      LookupFindsPosition(k, i);
    }
  }

  /** The identity of a checklist item: its section id and its item id. */
  datatype ItemKey = ItemKey(sectionId: string, itemId: string)

  /** The keys of one section's items, in order. */
  function SectionKeys(section: ChecklistSection): (r: seq<ItemKey>)
    ensures |r| == |section.items|
    ensures forall j :: 0 <= j < |r| ==> r[j] == ItemKey(section.id, section.items[j].id)
  {
    seq(|section.items|, j requires 0 <= j < |section.items| => ItemKey(section.id, section.items[j].id))
  }

  /** `flatMap` over sections: every item's key, section by section, in order. */
  function Flatten(ss: seq<ChecklistSection>): seq<ItemKey> {
    if ss == [] then [] else Flatten(ss[..|ss| - 1]) + SectionKeys(ss[|ss| - 1])
  }

  /** The keys of the whole catalog, in catalog order. */
  function CatalogKeys(): seq<ItemKey> {
    Flatten(ChecklistSections)
  }

  /** Position i of section k sits at offset `ItemTotal(ss[..k]) + i` of the flattened list. */
  lemma {:induction false} FlattenAt(ss: seq<ChecklistSection>, k: nat, i: nat)
    requires k < |ss| && i < |ss[k].items|
    ensures |Flatten(ss)| == ItemTotal(ss)
    ensures ItemTotal(ss[..k]) + i < |Flatten(ss)|
    ensures Flatten(ss)[ItemTotal(ss[..k]) + i] == ItemKey(ss[k].id, ss[k].items[i].id)
  {
    var init := ss[..|ss| - 1];
    FlattenLength(init);
    if k < |ss| - 1 {
      FlattenAt(init, k, i);
      assert init[..k] == ss[..k];
      assert ItemTotal(init) <= ItemTotal(ss);
    } else {
      assert ss[..k] == init;
    }
  }

  lemma {:induction false} FlattenLength(ss: seq<ChecklistSection>)
    ensures |Flatten(ss)| == ItemTotal(ss)
  {
    if ss != [] {
      FlattenLength(ss[..|ss| - 1]);
    }
  }

  /** A key is in the flattened list exactly when some position of `ss` carries it. */
  lemma {:induction false} FlattenMember(ss: seq<ChecklistSection>, key: ItemKey)
    ensures key in Flatten(ss) <==>
      exists k, i :: 0 <= k < |ss| && 0 <= i < |ss[k].items| && key == ItemKey(ss[k].id, ss[k].items[i].id)
  {
    if ss != [] {
      var init, last := ss[..|ss| - 1], ss[|ss| - 1];
      FlattenMember(init, key);
      if key in SectionKeys(last) {
        var j :| 0 <= j < |SectionKeys(last)| && SectionKeys(last)[j] == key;
        assert key == ItemKey(ss[|ss| - 1].id, ss[|ss| - 1].items[j].id);
      }
      if exists k, i :: 0 <= k < |ss| && 0 <= i < |ss[k].items| && key == ItemKey(ss[k].id, ss[k].items[i].id) {
        var k, i :| 0 <= k < |ss| && 0 <= i < |ss[k].items| && key == ItemKey(ss[k].id, ss[k].items[i].id);
        if k < |init| {
          assert init[k] == ss[k];
        } else {
          assert SectionKeys(last)[i] == key;
        }
      }
    }
  }

  /** Distinct item ids make the flattened keys distinct. */
  lemma {:induction false} FlattenDistinct(ss: seq<ChecklistSection>)
    requires ItemIdsDistinctIn(ss)
    ensures Js.Distinct(Flatten(ss))
  {
    if ss != [] {
      var init, last := ss[..|ss| - 1], ss[|ss| - 1];
      assert ItemIdsDistinctIn(init) by {
        forall k, i, l, j |
          0 <= k < |init| && 0 <= i < |init[k].items| && 0 <= l < |init| && 0 <= j < |init[l].items| &&
          (k != l || i != j)
          ensures init[k].items[i].id != init[l].items[j].id
        {
          assert init[k] == ss[k] && init[l] == ss[l];
        }
      }
      FlattenDistinct(init);
      var f, t := Flatten(init), SectionKeys(last);
      forall a, b | 0 <= a < b < |f + t| ensures (f + t)[a] != (f + t)[b] {
        if b >= |f| && a < |f| {
          FlattenMember(init, f[a]);
          var k, i :| 0 <= k < |init| && 0 <= i < |init[k].items| && f[a] == ItemKey(init[k].id, init[k].items[i].id);
          assert init[k] == ss[k];
          assert t[b - |f|].itemId == ss[|ss| - 1].items[b - |f|].id;
        } else if a >= |f| {
          assert t[a - |f|].itemId == ss[|ss| - 1].items[a - |f|].id;
          assert t[b - |f|].itemId == ss[|ss| - 1].items[b - |f|].id;
        }
      }
    }
  }

  /** The catalog has 54 distinct keys, and a key is one of them exactly when it names a catalog item. */
  lemma CatalogKeysFacts()
    ensures |CatalogKeys()| == TotalItems == 54
    ensures Js.Distinct(CatalogKeys())
    ensures |set key | key in CatalogKeys()| == 54
    ensures forall key :: key in CatalogKeys() <==> IsCatalogKey(key.sectionId, key.itemId)
  {
    CatalogShape();
    FlattenLength(ChecklistSections);
    ItemIdsAreDistinct();
    FlattenDistinct(ChecklistSections);
    Js.DistinctCard(CatalogKeys());
    forall key ensures key in CatalogKeys() <==> IsCatalogKey(key.sectionId, key.itemId) {
      FlattenMember(ChecklistSections, key);
    }
  }
}
