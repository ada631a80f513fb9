/**
 * The evaluation page: the form's checklist rows, built from the catalog
 * and patched one item at a time; the progress figures shown while
 * answering; the checks run before finalizing; the section navigation; and
 * the form state the save and finalize handlers step through. The HTTP
 * requests are outcomes passed in by the caller.
 */
module Avaliacoes {
  import opened Wrappers
  import Js
  import opened ChecklistData
  import opened Schema
  import Evaluations

  /** One checklist row of the form: no answer yet (`None`), yes or no, and the observation text. */
  datatype ItemState = ItemState(sectionId: string, itemId: string, answer: Option<bool>, observation: string)

  function KeyOf(i: ItemState): ItemKey {
    ItemKey(i.sectionId, i.itemId)
  }

  function KeysOf(items: seq<ItemState>): seq<ItemKey> {
    Js.Map(items, KeyOf)
  }

  // ---------------------------------------------------------------------
  // Building and patching the rows

  /** `buildInitialItems`: one unanswered row with an empty observation per catalog item, in catalog order. */
  function BuildInitialItems(): (r: seq<ItemState>)
    ensures KeysOf(r) == CatalogKeys()
    ensures forall k :: 0 <= k < |r| ==> r[k].answer.None? && r[k].observation == ""
  {
    var r := Js.Map(CatalogKeys(), (key: ItemKey) => ItemState(key.sectionId, key.itemId, None, ""));
    assert KeysOf(r) == CatalogKeys() by {
      assert |KeysOf(r)| == |CatalogKeys()|;
      assert forall k :: 0 <= k < |r| ==> KeysOf(r)[k] == CatalogKeys()[k];
    }
    r
  }

  /** The initial rows number TOTAL_ITEMS, name catalog items only, and name each of them once. */
  lemma InitialItemsCoverCatalog()
    ensures |BuildInitialItems()| == TotalItems
    ensures Js.Distinct(KeysOf(BuildInitialItems()))
    ensures forall key :: key in KeysOf(BuildInitialItems()) <==> IsCatalogKey(key.sectionId, key.itemId)
  {
    CatalogKeysFacts();
  }

  /** A `Partial<EvaluationItemState>`: each field absent or given. */
  datatype ItemPatch = ItemPatch(
    sectionId: Option<string>,
    itemId: Option<string>,
    answer: Option<Option<bool>>,
    observation: Option<string>)

  /** `{ ...i, ...patch }`: the given fields replace the row's. */
  function Merge(i: ItemState, p: ItemPatch): ItemState {
    ItemState(p.sectionId.GetOr(i.sectionId), p.itemId.GetOr(i.itemId), p.answer.GetOr(i.answer),
      p.observation.GetOr(i.observation))
  }

  predicate Matches(i: ItemState, sid: string, iid: string) {
    i.sectionId == sid && i.itemId == iid
  }

  /**
   * `updateItem`: the patch merged into exactly the rows for
   * (`sid`, `iid`); every other row as it was; same length and order.
   */
  function UpdateItems(items: seq<ItemState>, sid: string, iid: string, patch: ItemPatch): (r: seq<ItemState>)
    ensures |r| == |items|
    ensures forall k :: 0 <= k < |items| && Matches(items[k], sid, iid) ==> r[k] == Merge(items[k], patch)
    ensures forall k :: 0 <= k < |items| && !Matches(items[k], sid, iid) ==> r[k] == items[k]
  {
    Js.Map(items, (i: ItemState) => if Matches(i, sid, iid) then Merge(i, patch) else i)
  }

  /** Applying the same patch twice is applying it once. */
  lemma UpdateIdempotent(items: seq<ItemState>, sid: string, iid: string, patch: ItemPatch)
    ensures UpdateItems(UpdateItems(items, sid, iid, patch), sid, iid, patch) == UpdateItems(items, sid, iid, patch)
  {
    var once := UpdateItems(items, sid, iid, patch);
    var twice := UpdateItems(once, sid, iid, patch);
    forall k | 0 <= k < |items| ensures twice[k] == once[k] {
      if Matches(items[k], sid, iid) && Matches(once[k], sid, iid) {
        assert Merge(Merge(items[k], patch), patch) == Merge(items[k], patch);
      }
    }
  }

  /** A patch that gives neither id keeps every row's key, so the rows still follow the catalog. */
  lemma UpdateKeepsKeys(items: seq<ItemState>, sid: string, iid: string, patch: ItemPatch)
    requires patch.sectionId.None? && patch.itemId.None?
    ensures KeysOf(UpdateItems(items, sid, iid, patch)) == KeysOf(items)
  {
    var r := UpdateItems(items, sid, iid, patch);
    assert forall k :: 0 <= k < |items| ==> KeysOf(r)[k] == KeysOf(items)[k];
  }

  /** With distinct keys, a patch reaches the one row for its key and no other. */
  lemma UpdateReachesOneRow(items: seq<ItemState>, j: nat, patch: ItemPatch)
    requires j < |items| && Js.Distinct(KeysOf(items))
    ensures var r := UpdateItems(items, items[j].sectionId, items[j].itemId, patch);
      r[j] == Merge(items[j], patch) && forall k :: 0 <= k < |items| && k != j ==> r[k] == items[k]
  {
    forall k | 0 <= k < |items| && k != j ensures !Matches(items[k], items[j].sectionId, items[j].itemId) {
      if k < j { assert KeysOf(items)[k] != KeysOf(items)[j]; }
      else { assert KeysOf(items)[j] != KeysOf(items)[k]; }
    }
  }

  // ---------------------------------------------------------------------
  // Progress

  predicate IsAnswered(i: ItemState) { i.answer.Some? }

  /** A "no" row whose observation trims to "". */
  predicate PendingObservation(i: ItemState) {
    i.answer == Some(false) && Js.Trim(i.observation) == ""
  }

  /** The progress of one section; `percent` is `None` where the page divides 0 by 0. */
  datatype SectionProgress = SectionProgress(id: string, answered: nat, total: nat, percent: Option<int>, pendingObservations: nat)

  datatype Progress = Progress(answered: nat, totalPercent: int, bySections: seq<SectionProgress>)

  function InSection(items: seq<ItemState>, sid: string): seq<ItemState> {
    Js.Filter(items, (i: ItemState) => i.sectionId == sid)
  }

  /**
   * One entry of `bySections`: the section's rows, how many are answered,
   * the rounded share answered, and the "no" rows still without observation.
   */
  function SectionProgressOf(items: seq<ItemState>, sid: string): (r: SectionProgress)
    ensures r.id == sid && r.total == |InSection(items, sid)|
    ensures r.answered == |Js.Positions(InSection(items, sid), IsAnswered)|
    ensures r.total - r.answered == |Js.Positions(InSection(items, sid), Unanswered)|
    ensures r.pendingObservations == |Js.Positions(InSection(items, sid), PendingObservation)|
    ensures r.pendingObservations <= r.answered <= r.total
    ensures r.answered == r.total <==> forall k :: 0 <= k < r.total ==> IsAnswered(InSection(items, sid)[k])
    ensures r.answered == 0 <==> forall k :: 0 <= k < r.total ==> Unanswered(InSection(items, sid)[k])
    ensures r.total == 0 ==> r.percent.None?
    ensures r.total > 0 ==> r.percent.Some? && 0 <= r.percent.value <= 100
    ensures r.total > 0 ==>
      2 * r.total * r.percent.value - r.total <= 200 * r.answered < 2 * r.total * r.percent.value + r.total
    ensures r.total > 0 && r.answered == 0 ==> r.percent == Some(0)
    ensures r.total > 0 && r.answered == r.total ==> r.percent == Some(100)
  {
    var rows := InSection(items, sid);
    var answered := |Js.Filter(rows, IsAnswered)|;
    var pending := |Js.Filter(rows, PendingObservation)|;
    RowCounts(rows);
    if |rows| == 0 then
      SectionProgress(sid, answered, 0, None, pending)
    else
      Js.PercentBounds(answered, |rows|);
      SectionProgress(sid, answered, |rows|, Some(Js.Percent(answered, |rows|)), pending)
  }

  /** The filters the progress counts are made of, counted by position. */
  lemma RowCounts(rows: seq<ItemState>)
    ensures |Js.Filter(rows, IsAnswered)| == |Js.Positions(rows, IsAnswered)|
    ensures |rows| - |Js.Filter(rows, IsAnswered)| == |Js.Positions(rows, Unanswered)|
    ensures |Js.Filter(rows, PendingObservation)| == |Js.Positions(rows, PendingObservation)|
    ensures |Js.Filter(rows, PendingObservation)| <= |Js.Filter(rows, IsAnswered)| <= |rows|
    ensures |Js.Filter(rows, IsAnswered)| == |rows| <==> forall k :: 0 <= k < |rows| ==> IsAnswered(rows[k])
    ensures |Js.Filter(rows, IsAnswered)| == 0 <==> forall k :: 0 <= k < |rows| ==> Unanswered(rows[k])
  {
    Js.FilterWeaker(rows, PendingObservation, IsAnswered);
    Js.FilterCount(rows, IsAnswered);
    Js.FilterCount(rows, Unanswered);
    Js.FilterCount(rows, PendingObservation);
    Js.FilterSplit(rows, IsAnswered, Unanswered, (i: ItemState) => true);
    Js.FilterAll(rows, (i: ItemState) => true);
    if |Js.Filter(rows, IsAnswered)| == |rows| {
      Js.FilterFull(rows, IsAnswered);
    }
    if forall k :: 0 <= k < |rows| ==> IsAnswered(rows[k]) {
      Js.FilterAll(rows, IsAnswered);
    }
    if forall k :: 0 <= k < |rows| ==> Unanswered(rows[k]) {
      Js.FilterNone(rows, IsAnswered);
    }
  }

  /**
   * `progress`: the answered rows, their share of TOTAL_ITEMS rounded to
   * the nearest percent, and one entry per section in catalog order.
   */
  function ProgressOf(items: seq<ItemState>): (r: Progress)
    ensures r.answered == |Js.Positions(items, IsAnswered)|
    ensures |items| - r.answered == |Js.Positions(items, Unanswered)|
    ensures 2 * TotalItems * r.totalPercent - TotalItems <= 200 * r.answered < 2 * TotalItems * r.totalPercent + TotalItems
    ensures |r.bySections| == |SectionHeads|
    ensures forall k :: 0 <= k < |SectionHeads| ==> r.bySections[k] == SectionProgressOf(items, SectionHeads[k].id)
  {
    var answered := |Js.Filter(items, IsAnswered)|;
    RowCounts(items);
    Progress(answered, Js.Percent(answered, TotalItems),
      Js.Map(SectionHeads, (h: SectionHead) => SectionProgressOf(items, h.id)))
  }

  /**
   * For rows that follow the catalog (as built and patched by the page),
   * the overall share is between 0 and 100, and 100 exactly when every row
   * is answered.
   */
  lemma ProgressBounds(items: seq<ItemState>)
    requires KeysOf(items) == CatalogKeys()
    ensures 0 <= ProgressOf(items).totalPercent <= 100
    ensures ProgressOf(items).totalPercent == 100 <==> forall k :: 0 <= k < |items| ==> IsAnswered(items[k])
  {
    CatalogKeysFacts();
    assert |items| == TotalItems;
    var answered := Js.Filter(items, IsAnswered);
    Evaluations.ScoreBounds(|answered|);
    if forall k :: 0 <= k < |items| ==> IsAnswered(items[k]) {
      Js.FilterAll(items, IsAnswered);
    }
    if |answered| == |items| {
      Js.FilterFull(items, IsAnswered);
    }
  }

  /** The progress entries are for the catalog's sections, in catalog order. */
  lemma ProgressFollowsCatalog(items: seq<ItemState>)
    ensures |ProgressOf(items).bySections| == |ChecklistSections|
    ensures forall k :: 0 <= k < |ChecklistSections| ==> ProgressOf(items).bySections[k].id == ChecklistSections[k].id
  {
    HeadsOfCatalog();
  }

  // ---------------------------------------------------------------------
  // The checks before finalizing

  datatype ClientCheck =
    | NoStudentSelected
    | UnansweredIn(sectionIds: seq<string>, titles: seq<Option<string>>)
    | PendingObservationsIn(sectionIds: seq<string>, titles: seq<Option<string>>)
    | ReadyToFinalize

  predicate Unanswered(i: ItemState) { i.answer.None? }

  /** `[...new Set(rows.map((i) => i.sectionId))]` over the rows satisfying `p`. */
  function SectionsOf(items: seq<ItemState>, p: ItemState -> bool): seq<string> {
    Js.Dedup(Js.Map(Js.Filter(items, p), (i: ItemState) => i.sectionId))
  }

  /**
   * `ids` lists, once each, exactly the sections of the rows satisfying
   * `p`, and `titles` gives each one's catalog title, if any.
   */
  ghost predicate Reports(items: seq<ItemState>, p: ItemState -> bool, ids: seq<string>, titles: seq<Option<string>>) {
    && Js.Distinct(ids)
    && (forall j :: 0 <= j < |ids| ==> exists k :: 0 <= k < |items| && p(items[k]) && items[k].sectionId == ids[j])
    && (forall k :: 0 <= k < |items| && p(items[k]) ==> items[k].sectionId in ids)
    && |titles| == |ids| && (forall j :: 0 <= j < |ids| ==> titles[j] == FindTitle(ids[j]))
  }

  /** The sections reported for `p` are exactly those of the rows satisfying `p`. */
  lemma SectionsOfReports(items: seq<ItemState>, p: ItemState -> bool)
    ensures var ids := SectionsOf(items, p); Reports(items, p, ids, Js.Map(ids, FindTitle))
  {
    var rows := Js.Filter(items, p);
    var sids := Js.Map(rows, (i: ItemState) => i.sectionId);
    var ids := SectionsOf(items, p);
    forall j | 0 <= j < |ids| ensures exists k :: 0 <= k < |items| && p(items[k]) && items[k].sectionId == ids[j] {
      var m :| 0 <= m < |sids| && sids[m] == ids[j];
      assert rows[m] in items;
    }
    forall k | 0 <= k < |items| && p(items[k]) ensures items[k].sectionId in ids {
      var m :| 0 <= m < |rows| && rows[m] == items[k];
      assert sids[m] == items[k].sectionId;
    }
  }

  /**
   * The checks of `handleFinalize`, in order: a student is selected, then
   * every row is answered, then every "no" row has an observation.
   */
  function ClientValidate(student: Option<Id>, items: seq<ItemState>): (r: ClientCheck)
    ensures r == NoStudentSelected <==> student.None?
    ensures r.UnansweredIn? <==> student.Some? && exists k :: 0 <= k < |items| && Unanswered(items[k])
    ensures r.PendingObservationsIn? <==>
      && student.Some?
      && (forall k :: 0 <= k < |items| ==> !Unanswered(items[k]))
      && (exists k :: 0 <= k < |items| && PendingObservation(items[k]))
    ensures r == ReadyToFinalize <==>
      student.Some? && forall k :: 0 <= k < |items| ==> !Unanswered(items[k]) && !PendingObservation(items[k])
    ensures r.UnansweredIn? ==> Reports(items, Unanswered, r.sectionIds, r.titles)
    ensures r.PendingObservationsIn? ==> Reports(items, PendingObservation, r.sectionIds, r.titles)
  {
    if student.None? then NoStudentSelected
    else if |Js.Filter(items, Unanswered)| > 0 then
      var ids := SectionsOf(items, Unanswered);
      SectionsOfReports(items, Unanswered);
      UnansweredIn(ids, Js.Map(ids, FindTitle))
    else if |Js.Filter(items, PendingObservation)| > 0 then
      var ids := SectionsOf(items, PendingObservation);
      SectionsOfReports(items, PendingObservation);
      PendingObservationsIn(ids, Js.Map(ids, FindTitle))
    else
      ReadyToFinalize
  }

  /** The entries the page sends as the evaluation's `items`: the observation always as a string. */
  function Payload(items: seq<ItemState>): (r: seq<EvaluationItem>)
    ensures |r| == |items|
    ensures forall k :: 0 <= k < |items| ==>
      r[k] == EvaluationItem(items[k].sectionId, items[k].itemId, items[k].answer, Some(items[k].observation))
  {
    Js.Map(items, (i: ItemState) => EvaluationItem(i.sectionId, i.itemId, i.answer, Some(i.observation)))
  }

  /**
   * Rows that pass the page's checks, at least TOTAL_ITEMS of them, also
   * pass the finalize handler's validation once sent.
   */
  lemma ClientReadyMeansServerAccepts(student: Option<Id>, items: seq<ItemState>)
    requires |items| >= TotalItems && ClientValidate(student, items) == ReadyToFinalize
    ensures Evaluations.Validate(Payload(items)).Ok?
  {
    var payload := Payload(items);
    Js.FilterAll(payload, Evaluations.IsAnswered);
    forall k | 0 <= k < |payload| ensures !Evaluations.LacksObservation(payload[k]) {
      assert !PendingObservation(items[k]);
    }
  }

  // ---------------------------------------------------------------------
  // Section navigation

  datatype Direction = Prev | Next

  /**
   * `navigateSection`: the open sections after moving from `currentId`
   * (position -1 when it is not a section id): only the target section
   * when the target is a section, the open sections unchanged otherwise.
   */
  function Navigate(open: seq<string>, currentId: string, direction: Direction): (r: seq<string>)
    ensures r == open || (|r| == 1 && exists k :: 0 <= k < |SectionHeads| && r[0] == SectionHeads[k].id)
  {
    var idx := Js.FindIndex(SectionHeads, (h: SectionHead) => h.id == currentId);
    var target := if direction == Next then idx + 1 else idx - 1;
    if target < 0 || target >= |SectionHeads| then open else [SectionHeads[target].id]
  }

  /**
   * From section k, next opens section k + 1 and previous section k - 1;
   * past either end nothing changes.
   */
  lemma NavigateFromSection(open: seq<string>, k: nat, direction: Direction)
    requires k < |SectionHeads|
    ensures var target := if direction == Next then k + 1 else k - 1;
      Navigate(open, SectionHeads[k].id, direction) ==
        if 0 <= target < |SectionHeads| then [SectionHeads[target].id] else open
  {
    HeadIdsDistinct();
  }

  /** From an id that names no section, next opens the first section and previous does nothing. */
  lemma NavigateFromUnknownId(open: seq<string>, currentId: string, direction: Direction)
    requires forall k :: 0 <= k < |SectionHeads| ==> SectionHeads[k].id != currentId
    ensures Navigate(open, currentId, direction) == if direction == Next then [SectionHeads[0].id] else open
  {
  }

  // ---------------------------------------------------------------------
  // The form state

  /** The page state the handlers update through their setters. */
  class EvaluationForm {
    var selectedStudentId: Option<Id>
    var items: seq<ItemState>
    var evaluationId: Option<Id>
    var openSections: seq<string>

    /** The rows follow the catalog: one per catalog item, in catalog order. */
    ghost predicate FollowsCatalog()
      reads this
    {
      KeysOf(items) == CatalogKeys()
    }

    /** The page as first shown: the catalog's rows, no saved evaluation, the first section open. */
    constructor(preselectedStudentId: Option<Id>)
      ensures selectedStudentId == preselectedStudentId && evaluationId.None?
      ensures items == BuildInitialItems() && openSections == [SectionHeads[0].id]
      ensures FollowsCatalog()
    {
      selectedStudentId := preselectedStudentId;
      items := BuildInitialItems();
      evaluationId := None;
      openSections := [SectionHeads[0].id];
    }

    /** `updateItem` through `setItems`. */
    method UpdateItem(sid: string, iid: string, patch: ItemPatch)
      modifies this
      ensures items == UpdateItems(old(items), sid, iid, patch)
      ensures selectedStudentId == old(selectedStudentId) && evaluationId == old(evaluationId)
      ensures openSections == old(openSections)
      ensures patch.sectionId.None? && patch.itemId.None? && old(FollowsCatalog()) ==> FollowsCatalog()
    {
      if patch.sectionId.None? && patch.itemId.None? {
        UpdateKeepsKeys(items, sid, iid, patch);
      }
      items := UpdateItems(items, sid, iid, patch);
    }

    /** `navigateSection` through `setOpenSections` (the scrolling is left out). */
    method NavigateSection(currentId: string, direction: Direction)
      modifies this
      ensures openSections == Navigate(old(openSections), currentId, direction)
      ensures selectedStudentId == old(selectedStudentId) && evaluationId == old(evaluationId)
      ensures items == old(items)
    {
      openSections := Navigate(openSections, currentId, direction);
    }

    /**
     * `handleSaveDraft`: without a student nothing happens; with one, a form
     * without a saved evaluation records the id the POST returns (`created`,
     * `None` when the request fails), and a saved one only sends a PUT.
     */
    method HandleSaveDraft(created: Option<Id>)
      modifies this
      ensures evaluationId ==
        if old(selectedStudentId).Some? && old(evaluationId).None? then created else old(evaluationId)
      ensures selectedStudentId == old(selectedStudentId) && items == old(items)
      ensures openSections == old(openSections)
    {
      if selectedStudentId.None? {
        return;
      }
      if evaluationId.None? && created.Some? {
        evaluationId := created;
      }
    }

    /**
     * `handleFinalize`: the page's checks first, which stop it with nothing
     * changed; then the draft is saved (`created` is what the POST returns
     * when there is no saved evaluation yet, `None` when it fails) and
     * finalized (`finalized` is whether that request succeeds). Success
     * resets the form to its first state; a failure keeps the rows.
     */
    method HandleFinalize(created: Option<Id>, finalized: bool) returns (check: ClientCheck)
      modifies this
      ensures check == ClientValidate(old(selectedStudentId), old(items))
      ensures check != ReadyToFinalize ==> unchanged(this)
      ensures check == ReadyToFinalize && old(evaluationId).None? && created.None? ==> unchanged(this)
      ensures check == ReadyToFinalize && (old(evaluationId).Some? || created.Some?) && !finalized ==>
        && evaluationId == (if old(evaluationId).Some? then old(evaluationId) else created)
        && selectedStudentId == old(selectedStudentId) && items == old(items) && openSections == old(openSections)
      ensures check == ReadyToFinalize && (old(evaluationId).Some? || created.Some?) && finalized ==>
        && items == BuildInitialItems() && evaluationId.None? && selectedStudentId.None?
        && openSections == [SectionHeads[0].id]
    {
      check := ClientValidate(selectedStudentId, items);
      if check != ReadyToFinalize {
        return;
      }
      if evaluationId.None? {
        if created.None? {
          return;
        }
        evaluationId := created;
      }
      if !finalized {
        return;
      }
      items := BuildInitialItems();
      evaluationId := None;
      selectedStudentId := None;
      openSections := [SectionHeads[0].id];
    }
  }
}
