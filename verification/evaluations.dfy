/**
 * The evaluation handlers: create a draft, update a draft, and finalize.
 * Finalizing validates the stored answers, scores them, picks the status
 * tier, and writes the ponderation, one ponderation item per "no" answer,
 * the finalized evaluation status and the student's `in_review` status.
 */
module Evaluations {
  import opened Wrappers
  import Js
  import opened ChecklistData
  import opened Schema

  datatype EvaluationError =
    | StudentIdRequired
    | StudentNotFound
    | EvaluationNotFound
    | CannotEditFinalized
    | AlreadyFinalized
    | IncompleteAnswers(answered: nat)
    | MissingObservations(missingSections: seq<string>, sectionNames: seq<string>)

  /** What scoring a complete evaluation yields. */
  datatype Verdict = Verdict(positivos: nat, negativos: nat, scorePercent: int, statusGeneral: PonderationStatus)

  /** The body of a successful finalize response. */
  datatype FinalizeSummary = FinalizeSummary(
    ponderationId: Id,
    scorePercent: int,
    statusGeneral: PonderationStatus,
    positivos: nat,
    negativos: nat)

  predicate IsAnswered(i: EvaluationItem) { i.answer.Some? }

  predicate IsYes(i: EvaluationItem) { i.answer == Some(true) }

  predicate IsNo(i: EvaluationItem) { i.answer == Some(false) }

  /** A "no" answer whose observation is absent, empty or only whitespace. */
  predicate LacksObservation(i: EvaluationItem) {
    IsNo(i) && (i.observation.None? || Js.Trim(i.observation.value) == "")
  }

  function Answered(items: seq<EvaluationItem>): nat { |Js.Filter(items, IsAnswered)| }

  function Positivos(items: seq<EvaluationItem>): nat { |Js.Filter(items, IsYes)| }

  function Negativos(items: seq<EvaluationItem>): nat { |Js.Filter(items, IsNo)| }

  /** `Math.round((positivos / TOTAL_ITEMS) * 100)`. */
  function ScorePercent(positivos: int): int {
    Js.Percent(positivos, TotalItems)
  }

  /** The tier of a score: `bom` from 70, `atencao` from 40, `critico` below. */
  function Tier(score: int): PonderationStatus {
    if score >= 70 then Bom else if score >= 40 then Atencao else Critico
  }

  /** The section id of every entry lacking an observation, in payload order. */
  function OffendingSectionIds(items: seq<EvaluationItem>): seq<string> {
    Js.Map(Js.Filter(items, LacksObservation), (i: EvaluationItem) => i.sectionId)
  }

  /**
   * `ids` lists, without repetition, exactly the sections of the entries
   * lacking an observation, in the order each is first met in the payload,
   * and `names` gives each one's title (or id).
   */
  ghost predicate MissingReport(items: seq<EvaluationItem>, ids: seq<string>, names: seq<string>) {
    && Js.DedupOf(OffendingSectionIds(items), ids)
    && Js.Distinct(ids)
    && (forall j :: 0 <= j < |ids| ==>
          exists k :: 0 <= k < |items| && LacksObservation(items[k]) && items[k].sectionId == ids[j])
    && (forall k :: 0 <= k < |items| && LacksObservation(items[k]) ==> items[k].sectionId in ids)
    && |names| == |ids| && (forall j :: 0 <= j < |ids| ==> names[j] == TitleOrId(ids[j]))
  }

  /**
   * The finalize validation and scoring of a draft's entries: at least
   * TOTAL_ITEMS answered entries first, then an observation on every "no".
   */
  function Validate(items: seq<EvaluationItem>): (r: Result<Verdict, EvaluationError>)
    ensures r.Ok? <==>
      Answered(items) >= TotalItems && forall k :: 0 <= k < |items| ==> !LacksObservation(items[k])
    ensures Answered(items) < TotalItems ==> r == Err(IncompleteAnswers(Answered(items)))
    ensures r.Err? ==> r.error.IncompleteAnswers? || r.error.MissingObservations?
    ensures Answered(items) >= TotalItems && r.Err? ==> r.error.MissingObservations?
    ensures r.Err? && r.error.MissingObservations? ==>
      MissingReport(items, r.error.missingSections, r.error.sectionNames)
    ensures r.Ok? ==>
      && r.value.positivos == Positivos(items) && r.value.negativos == Negativos(items)
      && r.value.scorePercent == ScorePercent(r.value.positivos)
      && r.value.statusGeneral == Tier(r.value.scorePercent)
  {
    var answered := Answered(items);
    if answered < TotalItems then
      Err(IncompleteAnswers(answered))
    else
      var missing := Js.Filter(items, LacksObservation);
      if |missing| > 0 then
        var sectionIds := Js.Dedup(OffendingSectionIds(items));
        Err(MissingObservations(sectionIds, Js.Map(sectionIds, TitleOrId)))
      else
        var positivos, negativos := Positivos(items), Negativos(items);
        var score := ScorePercent(positivos);
        Ok(Verdict(positivos, negativos, score, Tier(score)))
  }


  /** `item?.question ?? i.itemId`: the catalog question of an entry, or its item id. */
  function QuestionOf(i: EvaluationItem): string {
    FindQuestion(i.sectionId, i.itemId).GetOr(i.itemId)
  }

  /**
   * The question is the catalog's question when the key names a catalog
   * item (the lookup has only one candidate), and the item id otherwise.
   */
  lemma QuestionOfCatalog(i: EvaluationItem)
    ensures forall k, j ::
      (0 <= k < |ChecklistSections| && 0 <= j < |ChecklistSections[k].items| &&
       ChecklistSections[k].id == i.sectionId && ChecklistSections[k].items[j].id == i.itemId) ==>
        QuestionOf(i) == ChecklistSections[k].items[j].question
    ensures !IsCatalogKey(i.sectionId, i.itemId) ==> QuestionOf(i) == i.itemId
  {
    FindQuestionIffCatalogKey(i.sectionId, i.itemId);
    forall k, j | 0 <= k < |ChecklistSections| && 0 <= j < |ChecklistSections[k].items| &&
      ChecklistSections[k].id == i.sectionId && ChecklistSections[k].items[j].id == i.itemId
    {
      LookupFindsPosition(k, j);
    }
  }

  /**
   * The ponderation item rows: one per "no" entry, with consecutive ids
   * from `firstId`, all under ponderation `pid` and answered "no".
   */
  function NoRows(items: seq<EvaluationItem>, pid: Id, firstId: Id): (r: seq<PonderationItem>)
    ensures |r| == Negativos(items)
    ensures forall k :: 0 <= k < |r| ==> r[k].id == firstId + k && r[k].ponderationId == pid && !r[k].answer
  {
    var nos := Js.Filter(items, IsNo);
    seq(|nos|, k requires 0 <= k < |nos| =>
      PonderationItem(firstId + k, pid, nos[k].sectionId, nos[k].itemId, QuestionOf(nos[k]), false, nos[k].observation))
  }

  /**
   * Row k is the k-th "no" entry of the payload, in payload order, with its
   * question from the catalog and its observation.
   */
  lemma NoRowsFollowPayload(items: seq<EvaluationItem>, pid: Id, firstId: Id, k: nat)
    requires k < |NoRows(items, pid, firstId)|
    ensures var e := Js.Filter(items, IsNo)[k];
      && IsNo(e) && e in items
      && NoRows(items, pid, firstId)[k] ==
           PonderationItem(firstId + k, pid, e.sectionId, e.itemId, QuestionOf(e), false, e.observation)
  {
  }

  // ---------------------------------------------------------------------
  // Score and tier

  /**
   * The exact quotient 100·p/54 is never halfway between two integers
   * (100·p is even, 54·r ± 27 is odd), so the integer rounding agrees with
   * `Math.round` on the floating-point quotient.
   */
  lemma ScoreNeverTies(p: int)
    ensures 54 * ScorePercent(p) - 27 < 100 * p < 54 * ScorePercent(p) + 27
  {
    var r := ScorePercent(p);
    assert 108 * r - 54 <= 200 * p;
  }

  /** Scores only grow with the number of "yes" answers. */
  lemma ScoreMonotone(p: int, q: int)
    requires p <= q
    ensures ScorePercent(p) <= ScorePercent(q)
  {
    Js.RoundMonotone(100 * p, 100 * q, TotalItems);
  }

  /** With at most TOTAL_ITEMS "yes" answers the score is a percentage. */
  lemma ScoreBounds(p: int)
    requires 0 <= p <= TotalItems
    ensures 0 <= ScorePercent(p) <= 100
    ensures ScorePercent(p) == 0 <==> p == 0
    ensures ScorePercent(p) == 100 <==> p == TotalItems
  {
    ScoreMonotone(0, p);
    ScoreMonotone(p, 54);
    if p > 0 { ScoreMonotone(1, p); }
    if p < 54 { ScoreMonotone(p, 53); }
  }

  /** The worked boundaries: 38, 37, 22, 21 and 40 "yes" answers out of 54. */
  lemma WorkedBoundaries()
    ensures ScorePercent(38) == 70 && Tier(ScorePercent(38)) == Bom
    ensures ScorePercent(37) == 69 && Tier(ScorePercent(37)) == Atencao
    ensures ScorePercent(22) == 41 && Tier(ScorePercent(22)) == Atencao
    ensures ScorePercent(21) == 39 && Tier(ScorePercent(21)) == Critico
    ensures ScorePercent(40) == 74 && Tier(ScorePercent(40)) == Bom
  {
  }

  /**
   * The tier in terms of the "yes" count alone: `bom` from 38 "yes"
   * answers, `atencao` from 22 to 37, `critico` up to 21.
   */
  lemma TierThresholds(p: int)
    ensures Tier(ScorePercent(p)) == Bom <==> p >= 38
    ensures Tier(ScorePercent(p)) == Atencao <==> 22 <= p <= 37
    ensures Tier(ScorePercent(p)) == Critico <==> p <= 21
  {
    WorkedBoundaries();
    if p >= 38 { ScoreMonotone(38, p); }
    else if p >= 22 { ScoreMonotone(22, p); ScoreMonotone(p, 37); }
    else { ScoreMonotone(p, 21); }
  }

  // ---------------------------------------------------------------------
  // What the validation does and does not guarantee

  /** The catalog key an entry answers. */
  function KeyOf(i: EvaluationItem): ItemKey {
    ItemKey(i.sectionId, i.itemId)
  }

  /** Every entry answers a catalog item, and no catalog item twice. */
  ghost predicate CatalogPayload(items: seq<EvaluationItem>) {
    && Js.Distinct(Js.Map(items, KeyOf))
    && forall k :: 0 <= k < |items| ==> IsCatalogKey(items[k].sectionId, items[k].itemId)
  }

  /** "Yes" and "no" entries together are exactly the answered entries. */
  lemma YesNoAnswered(items: seq<EvaluationItem>)
    ensures Positivos(items) + Negativos(items) == Answered(items)
  {
    forall k | 0 <= k < |items|
      ensures (IsAnswered(items[k]) <==> IsYes(items[k]) || IsNo(items[k])) && !(IsYes(items[k]) && IsNo(items[k]))
    {
      if items[k].answer.Some? {
        if items[k].answer.value { assert IsYes(items[k]); } else { assert IsNo(items[k]); }
      }
    }
    Js.FilterSplit(items, IsYes, IsNo, IsAnswered);
  }

  /**
   * A payload listing each catalog item at most once has at most
   * TOTAL_ITEMS entries, and one with exactly TOTAL_ITEMS entries lists
   * every catalog item.
   */
  lemma CatalogPayloadSize(items: seq<EvaluationItem>)
    requires CatalogPayload(items)
    ensures |items| <= TotalItems
    ensures |items| == TotalItems ==> forall key :: key in CatalogKeys() <==> key in Js.Map(items, KeyOf)
  {
    CatalogKeysFacts();
    var keys := Js.Map(items, KeyOf);
    forall k | 0 <= k < |keys| ensures keys[k] in CatalogKeys() {
      assert IsCatalogKey(items[k].sectionId, items[k].itemId);
    }
    Js.DistinctInto(keys, CatalogKeys());
  }

  /**
   * When the payload lists each catalog item at most once (as the
   * evaluation page builds it), passing validation means every catalog item
   * is answered exactly once: 54 entries, "yes" plus "no" is 54, and the
   * score is a percentage.
   */
  lemma CompletePayloadScore(items: seq<EvaluationItem>)
    requires CatalogPayload(items)
    requires Validate(items).Ok?
    ensures |items| == TotalItems == 54
    ensures forall k :: 0 <= k < |items| ==> IsAnswered(items[k])
    ensures forall key :: key in CatalogKeys() <==> key in Js.Map(items, KeyOf)
    ensures Validate(items).value.positivos + Validate(items).value.negativos == 54
    ensures 0 <= Validate(items).value.scorePercent <= 100
  {
    CatalogPayloadSize(items);
    assert |Js.Filter(items, IsAnswered)| == |items|;
    Js.FilterFull(items, IsAnswered);
    CatalogPayloadSize(items);
    YesNoAnswered(items);
    ScoreBounds(Positivos(items));
  }

  /**
   * The validation counts entries, not catalog items: 55 copies of one
   * "yes" entry pass it and score 102 (`bom`).
   */
  lemma DuplicatePayloadOverflow()
    ensures
      var items := seq(55, _ => EvaluationItem("introducao", "in1", Some(true), None));
      Validate(items) == Ok(Verdict(55, 0, 102, Bom))
  {
    var items := seq(55, _ => EvaluationItem("introducao", "in1", Some(true), None));
    Js.FilterAll(items, IsAnswered);
    Js.FilterAll(items, IsYes);
    Js.FilterNone(items, IsNo);
    Js.FilterNone(items, LacksObservation);
  }

  // ---------------------------------------------------------------------
  // The handlers

  /**
   * POST `/`: a draft for an existing student, holding the given entries
   * (none when the body has no list). Returns the new evaluation's id.
   */
  method CreateDraft(db: Store, studentId: Option<Id>, items: Option<seq<EvaluationItem>>)
    returns (r: Result<Id, EvaluationError>)
    requires db.Valid()
    modifies db
    ensures db.Valid()
    ensures studentId.None? ==> r == Err(StudentIdRequired)
    ensures studentId.Some? && studentId.value !in old(db.students) ==> r == Err(StudentNotFound)
    ensures r.Err? ==> unchanged(db)
    ensures studentId.Some? && studentId.value in old(db.students) ==>
      && r == Ok(old(db.nextId))
      && db.evaluations == old(db.evaluations)[r.value := Evaluation(studentId.value, Draft, items.GetOr([]))]
      && db.nextId == old(db.nextId) + 1
      && db.students == old(db.students) && db.ponderations == old(db.ponderations)
      && db.ponderationItems == old(db.ponderationItems) && db.aiTips == old(db.aiTips)
  {
    if studentId.None? {
      return Err(StudentIdRequired);
    }
    if studentId.value !in db.students {
      return Err(StudentNotFound);
    }
    var id := db.nextId;
    db.evaluations := db.evaluations[id := Evaluation(studentId.value, Draft, items.GetOr([]))];
    db.nextId := id + 1;
    r := Ok(id);
  }

  /**
   * PUT `/:id`: replaces a draft's entries wholesale (with none when the
   * body has no list); a finalized evaluation cannot be edited.
   */
  method UpdateDraft(db: Store, id: Id, items: Option<seq<EvaluationItem>>)
    returns (r: Result<Evaluation, EvaluationError>)
    requires db.Valid()
    modifies db
    ensures db.Valid()
    ensures id !in old(db.evaluations) ==> r == Err(EvaluationNotFound)
    ensures id in old(db.evaluations) && old(db.evaluations[id]).status == Finalized ==> r == Err(CannotEditFinalized)
    ensures r.Err? ==> unchanged(db)
    ensures id in old(db.evaluations) && old(db.evaluations[id]).status == Draft ==>
      && r == Ok(old(db.evaluations[id]).(data := items.GetOr([])))
      && db.evaluations == old(db.evaluations)[id := r.value]
      && db.students == old(db.students) && db.ponderations == old(db.ponderations)
      && db.ponderationItems == old(db.ponderationItems) && db.aiTips == old(db.aiTips)
      && db.nextId == old(db.nextId)
  {
    if id !in db.evaluations {
      return Err(EvaluationNotFound);
    }
    var existing := db.evaluations[id];
    if existing.status == Finalized {
      return Err(CannotEditFinalized);
    }
    var updated := existing.(data := items.GetOr([]));
    db.evaluations := db.evaluations[id := updated];
    r := Ok(updated);
  }

  /** The finalize writes keep the store consistent. */
  lemma FinalizeConsistent(
    students: map<Id, Student>, evaluations: map<Id, Evaluation>, ponderations: map<Id, Ponderation>,
    items: seq<PonderationItem>, tips: seq<AiTip>,
    pid: Id, id: Id, sid: Id, p: Ponderation, rows: seq<PonderationItem>)
    requires Consistent(students, evaluations, ponderations, items, tips, pid)
    requires id in evaluations && sid in students && p.studentId == sid
    requires forall k :: 0 <= k < |rows| ==> rows[k].id == pid + 1 + k && rows[k].ponderationId == pid
    ensures Consistent(
      students[sid := students[sid].(status := InReview)],
      evaluations[id := evaluations[id].(status := Finalized)],
      ponderations[pid := p], items + rows, tips, pid + 1 + |rows|)
  {
    ItemIdsGrow(items, rows);
  }

  /**
   * The finalize writes: the ponderation under the next id, the given item
   * rows after it, the evaluation finalized and its student in review.
   */
  method CommitFinalize(db: Store, id: Id, p: Ponderation, rows: seq<PonderationItem>) returns (pid: Id)
    requires db.Valid()
    requires id in db.evaluations && db.evaluations[id].studentId in db.students
    requires p.studentId == db.evaluations[id].studentId
    requires forall k :: 0 <= k < |rows| ==> rows[k].id == db.nextId + 1 + k && rows[k].ponderationId == db.nextId
    modifies db
    ensures db.Valid()
    ensures pid == old(db.nextId)
    ensures db.ponderations == old(db.ponderations)[pid := p]
    ensures db.ponderationItems == old(db.ponderationItems) + rows
    ensures db.evaluations == old(db.evaluations)[id := old(db.evaluations)[id].(status := Finalized)]
    ensures var sid := old(db.evaluations)[id].studentId;
      db.students == old(db.students)[sid := old(db.students)[sid].(status := InReview)]
    ensures db.aiTips == old(db.aiTips)
    ensures db.nextId == pid + 1 + |rows|
  {
    var ev := db.evaluations[id];
    pid := db.nextId;
    FinalizeConsistent(db.students, db.evaluations, db.ponderations, db.ponderationItems, db.aiTips,
      pid, id, ev.studentId, p, rows);
    db.ponderations := db.ponderations[pid := p];
    db.ponderationItems := db.ponderationItems + rows;
    db.nextId := pid + 1 + |rows|;
    db.evaluations := db.evaluations[id := ev.(status := Finalized)];
    db.students := db.students[ev.studentId := db.students[ev.studentId].(status := InReview)];
  }

  /**
   * POST `/:id/finalize`: checks, in order, that the evaluation exists, is
   * still a draft and passes `Validate`; then inserts the ponderation,
   * inserts one row per "no" entry, marks the evaluation finalized and puts
   * its student in review. Any failure writes nothing.
   */
  method Finalize(db: Store, id: Id) returns (r: Result<FinalizeSummary, EvaluationError>)
    requires db.Valid()
    modifies db
    ensures db.Valid()
    ensures r.Err? ==> unchanged(db)
    ensures id !in old(db.evaluations) ==> r == Err(EvaluationNotFound)
    ensures id in old(db.evaluations) && old(db.evaluations[id]).status == Finalized ==> r == Err(AlreadyFinalized)
    ensures id in old(db.evaluations) && old(db.evaluations[id]).status == Draft ==>
      var v := Validate(old(db.evaluations[id]).data);
      v.Err? ==> r == Err(v.error)
    ensures (id in old(db.evaluations) && old(db.evaluations[id]).status == Draft &&
             Validate(old(db.evaluations[id]).data).Ok?) ==> r.Ok?
    ensures r.Ok? ==>
      && id in old(db.evaluations) && old(db.evaluations[id]).status == Draft
      && var ev := old(db.evaluations[id]);
      && var v := Validate(ev.data);
      && var pid := old(db.nextId);
      && v.Ok?
      && r.value == FinalizeSummary(pid, v.value.scorePercent, v.value.statusGeneral, v.value.positivos, v.value.negativos)
      && db.ponderations == old(db.ponderations)[pid := Ponderation(ev.studentId, v.value.scorePercent, v.value.statusGeneral)]
      && db.ponderationItems == old(db.ponderationItems) + NoRows(ev.data, pid, pid + 1)
      && db.evaluations == old(db.evaluations)[id := ev.(status := Finalized)]
      && ev.studentId in old(db.students)
      && db.students == old(db.students)[ev.studentId := old(db.students)[ev.studentId].(status := InReview)]
      && db.aiTips == old(db.aiTips)
      && db.nextId == pid + 1 + v.value.negativos
  {
    if id !in db.evaluations {
      return Err(EvaluationNotFound);
    }
    var ev := db.evaluations[id];
    if ev.status == Finalized {
      return Err(AlreadyFinalized);
    }
    var verdict := Validate(ev.data);
    if verdict.Err? {
      return Err(verdict.error);
    }
    var v := verdict.value;
    var rows := NoRows(ev.data, db.nextId, db.nextId + 1);
    var pid := CommitFinalize(db, id, Ponderation(ev.studentId, v.scorePercent, v.statusGeneral), rows);
    r := Ok(FinalizeSummary(pid, v.scorePercent, v.statusGeneral, v.positivos, v.negativos));
  }
}
