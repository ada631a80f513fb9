/**
 * Remediation tips for the failed items of a ponderation: the prompt sent to
 * the language model, the one tip row written per item (the generated tip,
 * or a fixed fallback when anything goes wrong), and the sequential run over
 * a ponderation's items. The model call and the parsing of its JSON reply
 * are an oracle passed in by the caller.
 */
module AiTips {
  import opened Wrappers
  import Js
  import opened ChecklistData
  import opened Schema

  // The fixed parts of the prompt, around the section title, the question
  // and the observation.
  const PromptHead := "Você é um orientador acadêmico " + "especialista em projetos de pesquisa e " + "normas ABNT (NBR 15287:2025, NBR " + "6023:2025, NBR 10520).\n\nUm aluno " + "recebeu feedback negativo no seguinte " + "item de avaliação do seu projeto de " + "pesquisa:\n\n**Seção:** "
  const PromptQuestion := "\n**Item avaliado:** "
  const PromptObservation := "\n**Observação do orientador:** "
  const PromptTail := "\n\nCom base nessas informações e nas " + "normas ABNT aplicáveis, forneça " + "orientação prática para o aluno " + "corrigir este ponto.\n\nResponda APENAS " + "em JSON válido, sem markdown, com a " + "seguinte estrutura:\n{\n  " + "\"diagnosis\": \"Explicação breve (1-2 " + "frases) do que está errado ou " + "ausente\",\n  \"howToFix\": " + "\"Instruções práticas e detalhadas de " + "como corrigir (2-4 frases)\",\n  " + "\"practicalExample\": \"Um exemplo " + "prático concreto de como deveria ficar " + "(pode ser um trecho de texto, formato " + "de citação, etc.)\"\n}"

  const FallbackDiagnosis := "Não foi possível gerar a dica " + "automaticamente."
  const FallbackHowToFix := "Consulte seu orientador para " + "orientações sobre este item."

  /**
   * What one model request comes to: a parsed tip (whose example may be
   * absent) or a failure of the call, of the JSON parse, or of storing the
   * parsed tip.
   */
  datatype Reply = Generated(diagnosis: string, howToFix: string, practicalExample: Option<string>) | Failed

  /** The model's reply to the k-th request of a run, given the prompt. */
  type Oracle = (nat, string) -> Reply

  /**
   * Text pieces and three fields interleaved: `head`, the first field,
   * `mid1`, the second field, `mid2`, the third field, `tail`, each found
   * verbatim at its offset.
   */
  function Interleave(head: string, x: string, mid1: string, y: string, mid2: string, z: string, tail: string): (r: string)
    ensures
      var a := |head|;
      var b := a + |x| + |mid1|;
      var c := b + |y| + |mid2|;
      && |r| == c + |z| + |tail|
      && r[..a] == head && r[a..a + |x|] == x && r[a + |x|..b] == mid1
      && r[b..b + |y|] == y && r[b + |y|..c] == mid2
      && r[c..c + |z|] == z && r[c + |z|..] == tail
  {
    var r := head + x + mid1 + y + mid2 + z + tail;
    assert r[..|head|] == head;
    r
  }

  /** `buildPrompt`: the fixed text with the section title, question and observation filled in. */
  function BuildPrompt(sectionTitle: string, question: string, observation: string): string {
    PromptHead + sectionTitle + PromptQuestion + question + PromptObservation + observation + PromptTail
  }

  /** The prompt holds the section title, question and observation verbatim, in that order. */
  lemma PromptHoldsFields(sectionTitle: string, question: string, observation: string)
    ensures
      var r := BuildPrompt(sectionTitle, question, observation);
      var a := |PromptHead|;
      var b := a + |sectionTitle| + |PromptQuestion|;
      var c := b + |question| + |PromptObservation|;
      && r[a..a + |sectionTitle|] == sectionTitle
      && r[b..b + |question|] == question
      && r[c..c + |observation|] == observation
  {
    assert BuildPrompt(sectionTitle, question, observation) ==
      Interleave(PromptHead, sectionTitle, PromptQuestion, question, PromptObservation, observation, PromptTail);
  }

  /**
   * The prompt for a stored item: the catalog title of its section (or the
   * section id), its question, and its observation ("" when absent).
   */
  function PromptFor(item: PonderationItem): string {
    BuildPrompt(TitleOrId(item.sectionId), item.question, item.observation.GetOr(""))
  }

  /** The tip row stored for `item` after `reply`, with row id `id`. */
  function TipFor(item: PonderationItem, reply: Reply, id: Id): AiTip {
    match reply
    case Generated(diagnosis, howToFix, example) => AiTip(id, item.id, diagnosis, howToFix, example, false)
    case Failed => AiTip(id, item.id, FallbackDiagnosis, FallbackHowToFix, None, true)
  }

  /** The stored items of ponderation `pid`, in table order. */
  function ItemsOf(rows: seq<PonderationItem>, pid: Id): seq<PonderationItem> {
    Js.Filter(rows, (r: PonderationItem) => r.ponderationId == pid)
  }

  /** The replies to a run's requests: the k-th is the reply to the k-th item's prompt. */
  function Replies(items: seq<PonderationItem>, ask: Oracle): (r: seq<Reply>)
    ensures |r| == |items|
    ensures forall k :: 0 <= k < |items| ==> r[k] == ask(k, PromptFor(items[k]))
  {
    seq(|items|, k requires 0 <= k < |items| => ask(k, PromptFor(items[k])))
  }

  /**
   * The tips a run writes for `items` given the replies: one per item, in
   * order, with consecutive ids from `firstId`.
   */
  function RunTips(items: seq<PonderationItem>, replies: seq<Reply>, firstId: Id): (r: seq<AiTip>)
    requires |replies| == |items|
    ensures |r| == |items|
    ensures forall k :: 0 <= k < |items| ==> r[k] == TipFor(items[k], replies[k], firstId + k)
  {
    seq(|items|, k requires 0 <= k < |items| => TipFor(items[k], replies[k], firstId + k))
  }

  /** How many tips are stored for item `itemId`. */
  function TipCount(tips: seq<AiTip>, itemId: Id): nat {
    |Js.Filter(tips, (t: AiTip) => t.ponderationItemId == itemId)|
  }

  /**
   * `generateTipForItem`: sends the item's prompt as the k-th request of the
   * run and stores exactly one tip for it, the parsed one when the reply is
   * a tip and the fallback otherwise.
   */
  method GenerateTipForItem(db: Store, item: PonderationItem, ask: Oracle, k: nat)
    requires db.Valid() && item.id in ItemIds(db.ponderationItems)
    modifies db
    ensures db.Valid()
    ensures db.aiTips == old(db.aiTips) + [TipFor(item, ask(k, PromptFor(item)), old(db.nextId))]
    ensures db.nextId == old(db.nextId) + 1
    ensures db.students == old(db.students) && db.evaluations == old(db.evaluations)
    ensures db.ponderations == old(db.ponderations) && db.ponderationItems == old(db.ponderationItems)
  {
    var tip := TipFor(item, ask(k, PromptFor(item)), db.nextId);
    AddTipConsistent(db.students, db.evaluations, db.ponderations, db.ponderationItems, db.aiTips, db.nextId, tip);
    db.aiTips := db.aiTips + [tip];
    db.nextId := db.nextId + 1;
  }

  /** Every item of ponderation `pid` is a stored row, so its id is a stored item id. */
  lemma ItemsOfAreStored(rows: seq<PonderationItem>, pid: Id)
    ensures forall k :: 0 <= k < |ItemsOf(rows, pid)| ==> ItemsOf(rows, pid)[k].id in ItemIds(rows)
  {
    var items := ItemsOf(rows, pid);
    forall k | 0 <= k < |items| ensures items[k].id in ItemIds(rows) {
      assert items[k] in rows;
    }
  }

  /**
   * The loop of a run: `generateTipForItem` for each of `items` in order,
   * the k-th as the k-th request, each writing the next tip.
   */
  method GenerateTipsInOrder(db: Store, items: seq<PonderationItem>, ask: Oracle)
    requires db.Valid()
    requires forall k :: 0 <= k < |items| ==> items[k].id in ItemIds(db.ponderationItems)
    modifies db
    ensures db.Valid()
    ensures db.aiTips == old(db.aiTips) + RunTips(items, Replies(items, ask), old(db.nextId))
    ensures db.nextId == old(db.nextId) + |items|
    ensures db.students == old(db.students) && db.evaluations == old(db.evaluations)
    ensures db.ponderations == old(db.ponderations) && db.ponderationItems == old(db.ponderationItems)
  {
    ghost var replies := Replies(items, ask);
    ghost var run := RunTips(items, replies, db.nextId);
    var i := 0;
    while i < |items|
      invariant 0 <= i <= |items|
      invariant db.Valid()
      invariant db.aiTips == old(db.aiTips) + run[..i]
      invariant db.nextId == old(db.nextId) + i
      invariant db.students == old(db.students) && db.evaluations == old(db.evaluations)
      invariant db.ponderations == old(db.ponderations) && db.ponderationItems == old(db.ponderationItems)
    {
      assert replies[i] == ask(i, PromptFor(items[i]));
      ghost var before := db.aiTips;
      GenerateTipForItem(db, items[i], ask, i);
      assert db.aiTips == before + [run[i]];
      assert run[..i + 1] == run[..i] + [run[i]];
      i := i + 1;
    }
    assert run[..|items|] == run;
  }

  /**
   * `generateAiTipsForPonderation`: one tip per stored item of the
   * ponderation, sequentially in table order; nothing when it has no items.
   * Tips already stored are not consulted.
   */
  method GenerateAiTipsForPonderation(db: Store, pid: Id, ask: Oracle)
    requires db.Valid()
    modifies db
    ensures db.Valid()
    ensures
      var items := ItemsOf(old(db.ponderationItems), pid);
      db.aiTips == old(db.aiTips) + RunTips(items, Replies(items, ask), old(db.nextId))
    ensures db.nextId == old(db.nextId) + |ItemsOf(old(db.ponderationItems), pid)|
    ensures db.students == old(db.students) && db.evaluations == old(db.evaluations)
    ensures db.ponderations == old(db.ponderations) && db.ponderationItems == old(db.ponderationItems)
  {
    var items := ItemsOf(db.ponderationItems, pid);
    if |items| == 0 {
      return;
    }
    ItemsOfAreStored(db.ponderationItems, pid);
    GenerateTipsInOrder(db, items, ask);
  }

  // ---------------------------------------------------------------------
  // What a run does to the tip table

  /**
   * A run over items with distinct ids adds exactly one tip for each of
   * them, whatever tips they already have, and none for any other item.
   */
  lemma RunAddsOnePerItem(tips: seq<AiTip>, items: seq<PonderationItem>, replies: seq<Reply>, firstId: Id)
    requires |replies| == |items|
    requires DistinctIds(items)
    ensures forall k :: 0 <= k < |items| ==>
      TipCount(tips + RunTips(items, replies, firstId), items[k].id) == TipCount(tips, items[k].id) + 1
    ensures forall id :: (forall k :: 0 <= k < |items| ==> items[k].id != id) ==>
      TipCount(tips + RunTips(items, replies, firstId), id) == TipCount(tips, id)
  {
    var run := RunTips(items, replies, firstId);
    forall k | 0 <= k < |items|
      ensures TipCount(tips + run, items[k].id) == TipCount(tips, items[k].id) + 1
    {
      var p := (t: AiTip) => t.ponderationItemId == items[k].id;
      Js.FilterAppend(tips, run, p);
      forall j | 0 <= j < |run| && j != k ensures !p(run[j]) {
        if j < k { assert items[j].id != items[k].id; } else { assert items[k].id != items[j].id; }
      }
      Js.FilterSingle(run, p, k);
    }
    forall id | (forall k :: 0 <= k < |items| ==> items[k].id != id)
      ensures TipCount(tips + run, id) == TipCount(tips, id)
    {
      var p := (t: AiTip) => t.ponderationItemId == id;
      Js.FilterAppend(tips, run, p);
      Js.FilterNone(run, p);
    }
  }

  /**
   * Running the generation over a consistent store adds one tip to every
   * item of the ponderation, including items that already had tips: the run
   * does not skip them.
   */
  lemma RunDoesNotSkipTippedItems(
    tips: seq<AiTip>, rows: seq<PonderationItem>, pid: Id, ask: Oracle, firstId: Id, k: nat)
    requires DistinctIds(rows)
    requires k < |ItemsOf(rows, pid)|
    ensures
      var items := ItemsOf(rows, pid);
      TipCount(tips + RunTips(items, Replies(items, ask), firstId), items[k].id) == TipCount(tips, items[k].id) + 1
  {
    var items := ItemsOf(rows, pid);
    FilterKeepsIdsDistinct(rows, (r: PonderationItem) => r.ponderationId == pid);
    RunAddsOnePerItem(tips, items, Replies(items, ask), firstId);
  }
}
