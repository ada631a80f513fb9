/**
 * The ponderation handlers: the detail view, which rebuilds every catalog
 * item of a ponderation from its stored "no" rows (a catalog item without a
 * row was answered "yes") and attaches each row's tip, and the request that
 * regenerates tips.
 */
module Ponderations {
  import opened Wrappers
  import Js
  import opened ChecklistData
  import opened Schema
  import opened AiTips

  datatype PonderationError = PonderationNotFound

  /** The id a detail item carries: a stored row's id, or a synthetic one for "yes" items. */
  datatype DetailId = Stored(id: Id) | Synthetic(text: string)

  datatype DetailItem = DetailItem(
    id: DetailId,
    sectionId: string,
    itemId: string,
    question: string,
    answer: bool,
    observation: Option<string>,
    aiTip: Option<AiTip>)

  datatype DetailSection = DetailSection(sectionId: string, sectionTitle: string, items: seq<DetailItem>)

  datatype PonderationDetail = PonderationDetail(
    id: Id,
    studentName: string,
    studentCourse: string,
    studentProjectTopic: string,
    scorePercent: int,
    statusGeneral: PonderationStatus,
    sections: seq<DetailSection>)

  const UnknownStudent := "Aluno desconhecido"
  const RegenerationStarted := "Geração de dicas pendentes iniciada"

  // ---------------------------------------------------------------------
  // Keys

  /** The lookup key `${sectionId}:${itemId}`. */
  function Key(sid: string, iid: string): string {
    sid + ":" + iid
  }

  /**
   * A key built from colon-free ids is built from those ids only, whatever
   * the other pair holds.
   */
  lemma KeyInjective(s1: string, i1: string, s2: string, i2: string)
    requires ':' !in s1 && ':' !in i1
    requires Key(s1, i1) == Key(s2, i2)
    ensures s1 == s2 && i1 == i2
  {
    var key := Key(s1, i1);
    assert key[|s2|] == ':';
    assert s2 == key[..|s2|] == s1;
    assert i2 == key[|s2| + 1..] == i1;
  }

  /** `new Map(rows.map((i) => [key(i), i]))`: a later row with the same key replaces an earlier one. */
  function KeyMap(rows: seq<PonderationItem>): map<string, PonderationItem> {
    if rows == [] then map[]
    else
      var last := rows[|rows| - 1];
      KeyMap(rows[..|rows| - 1])[Key(last.sectionId, last.itemId) := last]
  }

  /** Row `r` is stored for the catalog item (sid, iid). */
  predicate RowFor(r: PonderationItem, sid: string, iid: string) {
    r.sectionId == sid && r.itemId == iid
  }

  /**
   * For colon-free ids, the key map holds the key exactly when some row is
   * for that item, and then holds the last such row.
   */
  lemma {:induction false} KeyMapLookup(rows: seq<PonderationItem>, sid: string, iid: string)
    requires ':' !in sid && ':' !in iid
    ensures Key(sid, iid) in KeyMap(rows) <==> exists n :: 0 <= n < |rows| && RowFor(rows[n], sid, iid)
    ensures Key(sid, iid) in KeyMap(rows) ==>
      exists n :: 0 <= n < |rows| && KeyMap(rows)[Key(sid, iid)] == rows[n] && RowFor(rows[n], sid, iid) &&
        forall j :: n < j < |rows| ==> !RowFor(rows[j], sid, iid)
  {
    if rows != [] {
      var init, last := rows[..|rows| - 1], rows[|rows| - 1];
      KeyMapLookup(init, sid, iid);
      var key := Key(sid, iid);
      if Key(last.sectionId, last.itemId) == key {
        KeyInjective(sid, iid, last.sectionId, last.itemId);
        assert KeyMap(rows)[key] == rows[|rows| - 1];
      } else {
        assert !RowFor(last, sid, iid);
        forall n | 0 <= n < |init| ensures rows[n] == init[n] { }
        if key in KeyMap(rows) {
          var n :| 0 <= n < |init| && KeyMap(init)[key] == init[n] && RowFor(init[n], sid, iid) &&
            forall j :: n < j < |init| ==> !RowFor(init[j], sid, iid);
          assert KeyMap(rows)[key] == rows[n];
        }
      }
    }
  }

  // ---------------------------------------------------------------------
  // Tips

  /** The first tip row stored for item `itemId`, if any (`const [tip] = ...`). */
  function FirstTip(tips: seq<AiTip>, itemId: Id): (r: Option<AiTip>)
    ensures r.None? <==> forall k :: 0 <= k < |tips| ==> tips[k].ponderationItemId != itemId
    ensures r.Some? ==>
      exists k :: 0 <= k < |tips| && tips[k] == r.value && r.value.ponderationItemId == itemId &&
        forall j :: 0 <= j < k ==> tips[j].ponderationItemId != itemId
  {
    var i := Js.FindIndex(tips, (t: AiTip) => t.ponderationItemId == itemId);
    if i < 0 then None else Some(tips[i])
  }

  /** `tipsByItemId`: each listed item's first tip, for the items that have one. */
  function TipsByItemId(tips: seq<AiTip>, items: seq<PonderationItem>): (m: map<Id, AiTip>)
    ensures forall id :: id in m <==> id in ItemIds(items) && FirstTip(tips, id).Some?
    ensures forall id :: id in m ==> m[id] == FirstTip(tips, id).value
  {
    map id | id in ItemIds(items) && FirstTip(tips, id).Some? :: FirstTip(tips, id).value
  }

  /** Taking one more item adds that item's first tip, if it has one, and changes nothing else. */
  lemma TipsByItemIdStep(tips: seq<AiTip>, items: seq<PonderationItem>, i: nat)
    requires i < |items|
    ensures var before, tip := TipsByItemId(tips, items[..i]), FirstTip(tips, items[i].id);
      TipsByItemId(tips, items[..i + 1]) == if tip.Some? then before[items[i].id := tip.value] else before
  {
    var before, after, tip := TipsByItemId(tips, items[..i]), TipsByItemId(tips, items[..i + 1]), FirstTip(tips, items[i].id);
    var expected := if tip.Some? then before[items[i].id := tip.value] else before;
    assert after.Keys == expected.Keys by {
      ItemIdsPrefixStep(items, i);
    }
    forall id | id in after ensures after[id] == expected[id] {
    }
  }

  /** The loop filling `tipsByItemId`, one item at a time. */
  method CollectTips(tips: seq<AiTip>, items: seq<PonderationItem>) returns (m: map<Id, AiTip>)
    ensures m == TipsByItemId(tips, items)
  {
    m := map[];
    var i := 0;
    while i < |items|
      invariant 0 <= i <= |items|
      invariant m == TipsByItemId(tips, items[..i])
    {
      var tip := FirstTip(tips, items[i].id);
      TipsByItemIdStep(tips, items, i);
      if tip.Some? {
        m := m[items[i].id := tip.value];
      }
      i := i + 1;
    }
    assert items[..|items|] == items;
  }

  // ---------------------------------------------------------------------
  // The merge with the catalog

  /** The synthetic id `sim-${sectionId}-${itemId}` of a "yes" item. */
  function SimId(sid: string, iid: string): string {
    "sim-" + sid + "-" + iid
  }

  /** One catalog item in the detail view, from the key map of stored rows. */
  function DetailItemOf(section: ChecklistSection, item: ChecklistItem,
                        naoItems: map<string, PonderationItem>, tips: map<Id, AiTip>): DetailItem
  {
    var key := Key(section.id, item.id);
    if key in naoItems then
      var nao := naoItems[key];
      DetailItem(Stored(nao.id), section.id, item.id, item.question, false, nao.observation,
        if nao.id in tips then Some(tips[nao.id]) else None)
    else
      DetailItem(Synthetic(SimId(section.id, item.id)), section.id, item.id, item.question, true, None, None)
  }

  /** The detail sections: every section of `ss`, in order, with every one of its items. */
  function DetailSections(ss: seq<ChecklistSection>, rows: seq<PonderationItem>, tips: map<Id, AiTip>): seq<DetailSection> {
    var naoItems := KeyMap(rows);
    Js.Map(ss, (section: ChecklistSection) =>
      DetailSection(section.id, section.title,
        Js.Map(section.items, (item: ChecklistItem) => DetailItemOf(section, item, naoItems, tips))))
  }

  /**
   * How detail item `d` of catalog item (section, item) relates to the
   * stored rows: the catalog's ids and question; "no" exactly when a row is
   * for the item, and then the last such row's id, observation and tip;
   * otherwise "yes" with the synthetic id and no observation or tip.
   */
  ghost predicate Merged(section: ChecklistSection, item: ChecklistItem, d: DetailItem,
                         rows: seq<PonderationItem>, tips: map<Id, AiTip>)
  {
    && d.sectionId == section.id && d.itemId == item.id && d.question == item.question
    && (!d.answer <==> exists n :: 0 <= n < |rows| && RowFor(rows[n], section.id, item.id))
    && (!d.answer ==>
          exists n :: 0 <= n < |rows| && RowFor(rows[n], section.id, item.id) &&
            (forall j :: n < j < |rows| ==> !RowFor(rows[j], section.id, item.id)) &&
            d.id == Stored(rows[n].id) && d.observation == rows[n].observation &&
            d.aiTip == (if rows[n].id in tips then Some(tips[rows[n].id]) else None))
    && (d.answer ==> d.id == Synthetic(SimId(section.id, item.id)) && d.observation.None? && d.aiTip.None?)
  }

  lemma DetailItemMerged(section: ChecklistSection, item: ChecklistItem, rows: seq<PonderationItem>, tips: map<Id, AiTip>)
    requires ':' !in section.id && ':' !in item.id
    ensures Merged(section, item, DetailItemOf(section, item, KeyMap(rows), tips), rows, tips)
  {
    KeyMapLookup(rows, section.id, item.id);
  }

  /**
   * For a catalog whose ids are colon-free, the detail lists every section
   * in order with exactly its items in order, each merged with the rows.
   */
  lemma DetailSectionsMerge(ss: seq<ChecklistSection>, rows: seq<PonderationItem>, tips: map<Id, AiTip>)
    requires NoColonIn(ss)
    ensures var r := DetailSections(ss, rows, tips);
      && |r| == |ss|
      && (forall k :: 0 <= k < |ss| ==>
            r[k].sectionId == ss[k].id && r[k].sectionTitle == ss[k].title && |r[k].items| == |ss[k].items|)
      && (forall k, j :: 0 <= k < |ss| && 0 <= j < |ss[k].items| ==> Merged(ss[k], ss[k].items[j], r[k].items[j], rows, tips))
  {
    forall k, j | 0 <= k < |ss| && 0 <= j < |ss[k].items|
      ensures Merged(ss[k], ss[k].items[j], DetailSections(ss, rows, tips)[k].items[j], rows, tips)
    {
      DetailItemMerged(ss[k], ss[k].items[j], rows, tips);
    }
  }

  /** The merge over the real catalog, whose ids are colon-free. */
  lemma CatalogDetailMerge(rows: seq<PonderationItem>, tips: map<Id, AiTip>)
    ensures var r := DetailSections(ChecklistSections, rows, tips);
      && |r| == |ChecklistSections|
      && (forall k :: 0 <= k < |r| ==> r[k].sectionId == ChecklistSections[k].id && |r[k].items| == |ChecklistSections[k].items|)
      && (forall k, j :: 0 <= k < |r| && 0 <= j < |r[k].items| ==>
            Merged(ChecklistSections[k], ChecklistSections[k].items[j], r[k].items[j], rows, tips))
  {
    ItemIdsAreDistinct();
    DetailSectionsMerge(ChecklistSections, rows, tips);
  }

  /** With the tips collected for the listed items, a row's tip in the detail is its first stored tip. */
  lemma DetailTipIsFirstTip(tips: seq<AiTip>, items: seq<PonderationItem>, id: Id)
    requires id in ItemIds(items)
    ensures var m := TipsByItemId(tips, items);
      (if id in m then Some(m[id]) else None) == FirstTip(tips, id)
  {
  }

  // ---------------------------------------------------------------------
  // The handlers

  /**
   * GET `/:id`: the ponderation with its student's name, course and topic
   * (with fallbacks when the student is gone) and the merged sections of
   * the catalog. Reads the store only.
   */
  method GetDetail(db: Store, pid: Id) returns (r: Result<PonderationDetail, PonderationError>)
    ensures pid !in db.ponderations <==> r == Err(PonderationNotFound)
    ensures r.Ok? ==>
      var p := db.ponderations[pid];
      var items := ItemsOf(db.ponderationItems, pid);
      var student := if p.studentId in db.students then Some(db.students[p.studentId]) else None;
      && r.value.id == pid && r.value.scorePercent == p.scorePercent && r.value.statusGeneral == p.statusGeneral
      && r.value.studentName == (if student.Some? then student.value.name else UnknownStudent)
      && r.value.studentCourse == (if student.Some? then student.value.course else "")
      && r.value.studentProjectTopic == (if student.Some? then student.value.projectTopic else "")
      && r.value.sections == DetailSections(ChecklistSections, items, TipsByItemId(db.aiTips, items))
  {
    if pid !in db.ponderations {
      return Err(PonderationNotFound);
    }
    var p := db.ponderations[pid];
    var name, course, topic := UnknownStudent, "", "";
    if p.studentId in db.students {
      var student := db.students[p.studentId];
      name, course, topic := student.name, student.course, student.projectTopic;
    }
    var items := ItemsOf(db.ponderationItems, pid);
    var tips := CollectTips(db.aiTips, items);
    var sections := DetailSections(ChecklistSections, items, tips);
    r := Ok(PonderationDetail(pid, name, course, topic, p.scorePercent, p.statusGeneral, sections));
  }

  /**
   * POST `/:id/regenerate-tips`: for an existing ponderation, runs the tip
   * generation over its items and acknowledges; the run is modelled as
   * completing before the acknowledgement.
   */
  method RegenerateTips(db: Store, pid: Id, ask: Oracle) returns (r: Result<string, PonderationError>)
    requires db.Valid()
    modifies db
    ensures db.Valid()
    ensures pid !in old(db.ponderations) ==> r == Err(PonderationNotFound) && unchanged(db)
    ensures pid in old(db.ponderations) ==>
      var items := ItemsOf(old(db.ponderationItems), pid);
      && r == Ok(RegenerationStarted)
      && db.aiTips == old(db.aiTips) + RunTips(items, Replies(items, ask), old(db.nextId))
      && db.nextId == old(db.nextId) + |items|
      && db.students == old(db.students) && db.evaluations == old(db.evaluations)
      && db.ponderations == old(db.ponderations) && db.ponderationItems == old(db.ponderationItems)
  {
    if pid !in db.ponderations {
      return Err(PonderationNotFound);
    }
    GenerateAiTipsForPonderation(db, pid, ask);
    r := Ok(RegenerationStarted);
  }
}
