/**
 * The persistent records and the database that holds them. The relational
 * tables become an in-memory store: keyed tables are maps, and the two
 * tables whose read order matters (ponderation items, AI tips) are
 * sequences in insertion order. Row ids come from a counter.
 */
module Schema {
  import opened Wrappers
  import Js

  type Id = nat

  datatype StudentStatus = Active | InReview | Approved | Inactive

  datatype EvaluationStatus = Draft | Finalized

  /** The general status tier of a ponderation. */
  datatype PonderationStatus = Bom | Atencao | Critico

  /** One checklist answer as stored in an evaluation's `data`. */
  datatype EvaluationItem = EvaluationItem(
    sectionId: string,
    itemId: string,
    answer: Option<bool>,
    observation: Option<string>)

  datatype Student = Student(
    name: string,
    email: string,
    course: string,
    projectTopic: string,
    period: string,
    phone: Option<string>,
    notes: Option<string>,
    status: StudentStatus)

  datatype Evaluation = Evaluation(studentId: Id, status: EvaluationStatus, data: seq<EvaluationItem>)

  datatype Ponderation = Ponderation(studentId: Id, scorePercent: int, statusGeneral: PonderationStatus)

  /** A failed ("no") checklist item snapshotted at finalize time. */
  datatype PonderationItem = PonderationItem(
    id: Id,
    ponderationId: Id,
    sectionId: string,
    itemId: string,
    question: string,
    answer: bool,
    observation: Option<string>)

  datatype AiTip = AiTip(
    id: Id,
    ponderationItemId: Id,
    diagnosis: string,
    howToFix: string,
    practicalExample: Option<string>,
    isFallback: bool)

  /** The ids of a list of ponderation item rows. */
  function ItemIds(items: seq<PonderationItem>): set<Id> {
    set k | 0 <= k < |items| :: items[k].id
  }

  /**
   * Every id is below the counter, row ids are unique, and every foreign
   * key names an existing row (the cascading foreign keys of the schema).
   */
  ghost predicate Consistent(
    students: map<Id, Student>,
    evaluations: map<Id, Evaluation>,
    ponderations: map<Id, Ponderation>,
    ponderationItems: seq<PonderationItem>,
    aiTips: seq<AiTip>,
    nextId: Id)
  {
    && (forall id :: id in students ==> id < nextId)
    && (forall id :: id in evaluations ==> id < nextId && evaluations[id].studentId in students)
    && (forall id :: id in ponderations ==> id < nextId && ponderations[id].studentId in students)
    && (forall k :: 0 <= k < |ponderationItems| ==>
          ponderationItems[k].id < nextId && ponderationItems[k].ponderationId in ponderations)
    && DistinctIds(ponderationItems)
    && (forall k :: 0 <= k < |aiTips| ==>
          aiTips[k].id < nextId && aiTips[k].ponderationItemId in ItemIds(ponderationItems))
  }

  /** A tip for a stored item, under the next id, keeps the tables consistent. */
  lemma AddTipConsistent(
    students: map<Id, Student>,
    evaluations: map<Id, Evaluation>,
    ponderations: map<Id, Ponderation>,
    ponderationItems: seq<PonderationItem>,
    aiTips: seq<AiTip>,
    nextId: Id,
    tip: AiTip)
    requires Consistent(students, evaluations, ponderations, ponderationItems, aiTips, nextId)
    requires tip.id == nextId && tip.ponderationItemId in ItemIds(ponderationItems)
    ensures Consistent(students, evaluations, ponderations, ponderationItems, aiTips + [tip], nextId + 1)
  {
  }

  /** No two rows share an id. */
  predicate DistinctIds(rows: seq<PonderationItem>) {
    forall a, b :: 0 <= a < b < |rows| ==> rows[a].id != rows[b].id
  }

  /** Keeping some of the rows keeps their ids unique. */
  lemma {:induction false} FilterKeepsIdsDistinct(rows: seq<PonderationItem>, p: PonderationItem -> bool)
    requires DistinctIds(rows)
    ensures DistinctIds(Js.Filter(rows, p))
  {
    if rows != [] {
      var init, last := rows[..|rows| - 1], rows[|rows| - 1];
      FilterKeepsIdsDistinct(init, p);
      var before := Js.Filter(init, p);
      forall a | 0 <= a < |before| ensures before[a].id != last.id {
        var j :| 0 <= j < |init| && init[j] == before[a];
        assert rows[j] == init[j];
      }
    }
  }

  /** The ids of a prefix one row longer are those of the prefix and that row's. */
  lemma ItemIdsPrefixStep(items: seq<PonderationItem>, i: nat)
    requires i < |items|
    ensures ItemIds(items[..i + 1]) == ItemIds(items[..i]) + {items[i].id}
  {
    assert items[..i + 1] == items[..i] + [items[i]];
  }

  /** Appending rows keeps every id already present. */
  lemma ItemIdsGrow(items: seq<PonderationItem>, more: seq<PonderationItem>)
    ensures ItemIds(items) <= ItemIds(items + more)
  {
    forall id | id in ItemIds(items) ensures id in ItemIds(items + more) {
      var k :| 0 <= k < |items| && items[k].id == id;
      assert (items + more)[k] == items[k];
    }
  }

  class Store {
    var students: map<Id, Student>
    var evaluations: map<Id, Evaluation>
    var ponderations: map<Id, Ponderation>
    var ponderationItems: seq<PonderationItem>
    var aiTips: seq<AiTip>
    var nextId: Id

    /** The store's tables are consistent (see `Consistent`). */
    ghost predicate Valid()
      reads this
    {
      Consistent(students, evaluations, ponderations, ponderationItems, aiTips, nextId)
    }

    constructor()
      ensures Valid()
      ensures students == map[] && evaluations == map[] && ponderations == map[]
      ensures ponderationItems == [] && aiTips == [] && nextId == 0
    {
      students := map[];
      evaluations := map[];
      ponderations := map[];
      ponderationItems := [];
      aiTips := [];
      nextId := 0;
    }
  }
}
