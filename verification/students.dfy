/**
 * The student handlers: the paginated list (its clamped page and limit,
 * offset and page count), creation with its required fields, the
 * field-wise partial update, and deletion with the cascade the schema's
 * foreign keys perform.
 */
module Students {
  import opened Wrappers
  import Js
  import opened Schema

  datatype StudentError =
    | MissingRequiredFields  // 400 "Campos obrigatórios: nome, email, curso, tema, período"
    | StudentNotFound        // 404 "Aluno não encontrado"

  // ---------------------------------------------------------------------
  // Pagination

  const DefaultPage := 1
  const DefaultLimit := 20
  const MaxLimit := 100

  /** `Math.max(1, page ?? 1)`: the requested page, at least 1. */
  function ClampPage(requested: Option<int>): (page: int)
    ensures page >= 1
    ensures requested.None? ==> page == DefaultPage
    ensures requested.Some? && requested.value >= 1 ==> page == requested.value
    ensures requested.Some? && requested.value < 1 ==> page == 1
  {
    var q := requested.GetOr(DefaultPage);
    if q < 1 then 1 else q
  }

  /** `Math.min(100, Math.max(1, limit ?? 20))`: the requested page size, within 1..100. */
  function ClampLimit(requested: Option<int>): (limit: int)
    ensures 1 <= limit <= MaxLimit
    ensures requested.None? ==> limit == DefaultLimit
    ensures requested.Some? && 1 <= requested.value <= MaxLimit ==> limit == requested.value
    ensures requested.Some? && requested.value < 1 ==> limit == 1
    ensures requested.Some? && requested.value > MaxLimit ==> limit == MaxLimit
  {
    var q := requested.GetOr(DefaultLimit);
    var atLeastOne := if q < 1 then 1 else q;
    if atLeastOne > MaxLimit then MaxLimit else atLeastOne
  }

  /** `(page - 1) * limit`: the rows before the page, whole pages of `limit` rows. */
  function Offset(page: int, limit: int): (offset: nat)
    requires page >= 1 && limit >= 1
    ensures offset % limit == 0 && offset / limit == page - 1
  {
    MultipleDivides(page - 1, limit);
    (page - 1) * limit
  }

  lemma MultipleDivides(n: nat, limit: int)
    requires limit >= 1
    ensures (n * limit) % limit == 0 && (n * limit) / limit == n
  {
    DivModUnique(n * limit, limit, n, 0);
  }

  /** Euclidean division has one quotient and one remainder. */
  lemma DivModUnique(a: int, d: int, q: int, r: int)
    requires d >= 1 && 0 <= r < d && a == q * d + r
    ensures a / d == q && a % d == r
  {
    var q0, r0 := a / d, a % d;
    assert (q - q0) * d == r0 - r by {
      assert a == q0 * d + r0;
      assert q * d - q0 * d == (q - q0) * d;
    }
    if q > q0 {
      assert (q - q0) * d >= d by { MultiplyMonotone(1, q - q0, d); }
    } else if q < q0 {
      assert (q0 - q) * d >= d by { MultiplyMonotone(1, q0 - q, d); }
    }
  }

  /** `Math.ceil(total / limit)`: the fewest pages of `limit` rows that hold `total` rows. */
  function TotalPages(total: nat, limit: int): (pages: nat)
    requires limit >= 1
    ensures pages * limit >= total
    ensures pages > 0 ==> (pages - 1) * limit < total
  {
    (total + limit - 1) / limit
  }

  /** The rows of the list in the window `offset`, `limit` (SQL `OFFSET` and `LIMIT`). */
  function PageRows<T>(rows: seq<T>, offset: nat, limit: int): (r: seq<T>)
    requires limit >= 1
    ensures |r| <= limit
    ensures offset >= |rows| ==> r == []
    ensures offset + limit <= |rows| ==> |r| == limit
    ensures offset < |rows| < offset + limit ==> |r| == |rows| - offset
    ensures forall k :: 0 <= k < |r| ==> offset + k < |rows| && r[k] == rows[offset + k]
  {
    if offset >= |rows| then []
    else if offset + limit <= |rows| then rows[offset..offset + limit]
    else rows[offset..]
  }

  datatype Pagination = Pagination(page: int, limit: int, total: nat, totalPages: nat)

  datatype StudentPage = StudentPage(data: seq<Student>, pagination: Pagination)

  /**
   * GET `/`: the page of the matching rows, in the database's order, with
   * the clamped page and limit and the page count. The search filter and
   * the ordering are the database's and `rows` is their result.
   */
  function ListStudents(rows: seq<Student>, pageQuery: Option<int>, limitQuery: Option<int>): (r: StudentPage)
    ensures r.pagination.page == ClampPage(pageQuery) && r.pagination.limit == ClampLimit(limitQuery)
    ensures r.pagination.page >= 1 && 1 <= r.pagination.limit <= MaxLimit
    ensures r.pagination.totalPages == TotalPages(|rows|, r.pagination.limit)
    ensures r.data == PageRows(rows, Offset(r.pagination.page, r.pagination.limit), r.pagination.limit)
    ensures r.pagination.total == |rows|
    ensures r.pagination.totalPages * r.pagination.limit >= |rows|
    ensures |r.data| <= r.pagination.limit
    ensures forall k :: 0 <= k < |r.data| ==>
      var n := Offset(r.pagination.page, r.pagination.limit) + k;
      n < |rows| && r.data[k] == rows[n]
  {
    var page, limit := ClampPage(pageQuery), ClampLimit(limitQuery);
    StudentPage(PageRows(rows, Offset(page, limit), limit), Pagination(page, limit, |rows|, TotalPages(|rows|, limit)))
  }

  /**
   * Every row is on exactly one page: row `n` is at position `n % limit`
   * of page `n / limit + 1`, and that page is within the page count.
   */
  lemma RowOnItsPage<T>(rows: seq<T>, limit: int, n: nat)
    requires limit >= 1 && n < |rows|
    ensures var page := n / limit + 1;
      && page <= TotalPages(|rows|, limit)
      && n % limit < |PageRows(rows, Offset(page, limit), limit)|
      && PageRows(rows, Offset(page, limit), limit)[n % limit] == rows[n]
  {
    var page := n / limit + 1;
    var offset := Offset(page, limit);
    assert offset == n - n % limit by {
      assert offset == (n / limit) * limit;
    }
    var pages := TotalPages(|rows|, limit);
    if page > pages {
      assert (page - 1) * limit >= pages * limit by {
        MultiplyMonotone(pages, page - 1, limit);
      }
      assert false;
    }
  }

  lemma MultiplyMonotone(a: nat, b: nat, m: nat)
    requires a <= b
    ensures a * m <= b * m
  {
    assert b * m - a * m == (b - a) * m;
  }

  /** A page past the last one is empty. */
  lemma PagePastTheEndIsEmpty(rows: seq<Student>, pageQuery: Option<int>, limitQuery: Option<int>)
    requires var r := ListStudents(rows, pageQuery, limitQuery); r.pagination.page > r.pagination.totalPages
    ensures ListStudents(rows, pageQuery, limitQuery).data == []
  {
    var r := ListStudents(rows, pageQuery, limitQuery);
    var page, limit, pages := r.pagination.page, r.pagination.limit, r.pagination.totalPages;
    MultiplyMonotone(pages, page - 1, limit);
  }

  // ---------------------------------------------------------------------
  // Create

  /** The body of POST `/`: any field may be absent. */
  datatype NewStudent = NewStudent(
    name: Option<string>,
    email: Option<string>,
    course: Option<string>,
    projectTopic: Option<string>,
    period: Option<string>,
    phone: Option<string>,
    notes: Option<string>)

  /** `!!field`: the field is present and not the empty string. */
  predicate Given(field: Option<string>) {
    field.Some? && field.value != ""
  }

  /**
   * The row a POST body creates: refused unless all five required fields
   * are given; phone and notes as sent, or null; the status `active`.
   */
  function NewRow(body: NewStudent): (r: Result<Student, StudentError>)
    ensures r.Ok? <==>
      Given(body.name) && Given(body.email) && Given(body.course) && Given(body.projectTopic) && Given(body.period)
    ensures r.Err? ==> r.error == MissingRequiredFields
    ensures r.Ok? ==>
      && Some(r.value.name) == body.name && Some(r.value.email) == body.email
      && Some(r.value.course) == body.course && Some(r.value.projectTopic) == body.projectTopic
      && Some(r.value.period) == body.period
      && r.value.phone == body.phone && r.value.notes == body.notes
      && r.value.status == Active
  {
    if !Given(body.name) || !Given(body.email) || !Given(body.course) || !Given(body.projectTopic) || !Given(body.period) then
      Err(MissingRequiredFields)
    else
      Ok(Student(body.name.value, body.email.value, body.course.value, body.projectTopic.value, body.period.value,
        body.phone, body.notes, Active))
  }

  /** POST `/`: inserts the new row under the next id, or writes nothing. */
  method CreateStudent(db: Store, body: NewStudent) returns (r: Result<Id, StudentError>)
    requires db.Valid()
    modifies db
    ensures db.Valid()
    ensures NewRow(body).Err? ==> r == Err(MissingRequiredFields) && unchanged(db)
    ensures NewRow(body).Ok? ==>
      && r == Ok(old(db.nextId))
      && db.students == old(db.students)[r.value := NewRow(body).value]
      && db.nextId == old(db.nextId) + 1
      && db.evaluations == old(db.evaluations) && db.ponderations == old(db.ponderations)
      && db.ponderationItems == old(db.ponderationItems) && db.aiTips == old(db.aiTips)
  {
    var row := NewRow(body);
    if row.Err? {
      return Err(row.error);
    }
    var id := db.nextId;
    db.students := db.students[id := row.value];
    db.nextId := id + 1;
    r := Ok(id);
  }

  // ---------------------------------------------------------------------
  // Partial update

  /**
   * The body of PUT `/:id`: each field absent (`None`) or sent. The two
   * nullable columns can also be sent as null (`Some(None)`).
   */
  datatype StudentPatch = StudentPatch(
    name: Option<string>,
    email: Option<string>,
    course: Option<string>,
    projectTopic: Option<string>,
    period: Option<string>,
    phone: Option<Option<string>>,
    notes: Option<Option<string>>,
    status: Option<StudentStatus>)

  const NoChange := StudentPatch(None, None, None, None, None, None, None, None)

  /** The set built from the conditional spreads, applied to row `s`: each sent field replaces the stored one. */
  function Patch(s: Student, p: StudentPatch): (r: Student)
    ensures p.name.Some? ==> r.name == p.name.value
    ensures p.name.None? ==> r.name == s.name
    ensures p.email.Some? ==> r.email == p.email.value
    ensures p.email.None? ==> r.email == s.email
    ensures p.course.Some? ==> r.course == p.course.value
    ensures p.course.None? ==> r.course == s.course
    ensures p.projectTopic.Some? ==> r.projectTopic == p.projectTopic.value
    ensures p.projectTopic.None? ==> r.projectTopic == s.projectTopic
    ensures p.period.Some? ==> r.period == p.period.value
    ensures p.period.None? ==> r.period == s.period
    ensures p.phone.Some? ==> r.phone == p.phone.value
    ensures p.phone.None? ==> r.phone == s.phone
    ensures p.notes.Some? ==> r.notes == p.notes.value
    ensures p.notes.None? ==> r.notes == s.notes
    ensures p.status.Some? ==> r.status == p.status.value
    ensures p.status.None? ==> r.status == s.status
  {
    Student(
      p.name.GetOr(s.name), p.email.GetOr(s.email), p.course.GetOr(s.course),
      p.projectTopic.GetOr(s.projectTopic), p.period.GetOr(s.period),
      p.phone.GetOr(s.phone), p.notes.GetOr(s.notes), p.status.GetOr(s.status))
  }

  /** Sending `q` after `p`: a field sent in `q` wins, otherwise `p`'s. */
  function Then(p: StudentPatch, q: StudentPatch): StudentPatch {
    StudentPatch(
      if q.name.Some? then q.name else p.name,
      if q.email.Some? then q.email else p.email,
      if q.course.Some? then q.course else p.course,
      if q.projectTopic.Some? then q.projectTopic else p.projectTopic,
      if q.period.Some? then q.period else p.period,
      if q.phone.Some? then q.phone else p.phone,
      if q.notes.Some? then q.notes else p.notes,
      if q.status.Some? then q.status else p.status)
  }

  /** A body with no fields changes nothing. */
  lemma NoChangeIsIdentity(s: Student)
    ensures Patch(s, NoChange) == s
  {
  }

  /** Sending the same body twice is the same as sending it once. */
  lemma PatchIdempotent(s: Student, p: StudentPatch)
    ensures Patch(Patch(s, p), p) == Patch(s, p)
  {
  }

  /** Two updates in a row are one update with the later body's fields winning. */
  lemma PatchesCompose(s: Student, p: StudentPatch, q: StudentPatch)
    ensures Patch(Patch(s, p), q) == Patch(s, Then(p, q))
  {
  }

  /** PUT `/:id`: the row with the sent fields replaced, or not-found and no write. */
  method UpdateStudent(db: Store, id: Id, patch: StudentPatch) returns (r: Result<Student, StudentError>)
    requires db.Valid()
    modifies db
    ensures db.Valid()
    ensures id !in old(db.students) ==> r == Err(StudentNotFound) && unchanged(db)
    ensures id in old(db.students) ==>
      && r == Ok(Patch(old(db.students)[id], patch))
      && db.students == old(db.students)[id := r.value]
      && db.evaluations == old(db.evaluations) && db.ponderations == old(db.ponderations)
      && db.ponderationItems == old(db.ponderationItems) && db.aiTips == old(db.aiTips)
      && db.nextId == old(db.nextId)
  {
    if id !in db.students {
      return Err(StudentNotFound);
    }
    var updated := Patch(db.students[id], patch);
    db.students := db.students[id := updated];
    r := Ok(updated);
  }

  // ---------------------------------------------------------------------
  // Delete with cascade

  /** The evaluations that do not belong to student `sid`. */
  function EvaluationsNotOf(evaluations: map<Id, Evaluation>, sid: Id): (r: map<Id, Evaluation>)
    ensures forall id :: id in r <==> id in evaluations && evaluations[id].studentId != sid
    ensures forall id :: id in r ==> r[id] == evaluations[id]
  {
    map id | id in evaluations && evaluations[id].studentId != sid :: evaluations[id]
  }

  /** The ponderations that do not belong to student `sid`. */
  function PonderationsNotOf(ponderations: map<Id, Ponderation>, sid: Id): (r: map<Id, Ponderation>)
    ensures forall id :: id in r <==> id in ponderations && ponderations[id].studentId != sid
    ensures forall id :: id in r ==> r[id] == ponderations[id]
  {
    map id | id in ponderations && ponderations[id].studentId != sid :: ponderations[id]
  }

  /** The item rows whose ponderation is still present, in order. */
  function ItemsUnder(items: seq<PonderationItem>, ponderations: map<Id, Ponderation>): seq<PonderationItem> {
    Js.Filter(items, (i: PonderationItem) => i.ponderationId in ponderations)
  }

  /** The tips whose item row is still present, in order. */
  function TipsUnder(tips: seq<AiTip>, items: seq<PonderationItem>): seq<AiTip> {
    Js.Filter(tips, (t: AiTip) => t.ponderationItemId in ItemIds(items))
  }

  /** Deleting a student and everything that hangs from it keeps the store consistent. */
  lemma DeleteConsistent(
    students: map<Id, Student>, evaluations: map<Id, Evaluation>, ponderations: map<Id, Ponderation>,
    items: seq<PonderationItem>, tips: seq<AiTip>, nextId: Id, sid: Id)
    requires Consistent(students, evaluations, ponderations, items, tips, nextId)
    ensures var ps := PonderationsNotOf(ponderations, sid);
      var kept := ItemsUnder(items, ps);
      Consistent(students - {sid}, EvaluationsNotOf(evaluations, sid), ps, kept, TipsUnder(tips, kept), nextId)
  {
    var ps := PonderationsNotOf(ponderations, sid);
    var kept := ItemsUnder(items, ps);
    FilterKeepsIdsDistinct(items, (i: PonderationItem) => i.ponderationId in ps);
    forall k | 0 <= k < |kept| ensures kept[k].id < nextId {
      assert kept[k] in items;
    }
  }

  /**
   * Once a student is deleted, no evaluation or ponderation of it is left,
   * no item row of a deleted ponderation, and no tip of a deleted item row;
   * every other row stays.
   */
  lemma CascadeRemovesExactlyTheStudentsRows(
    evaluations: map<Id, Evaluation>, ponderations: map<Id, Ponderation>,
    items: seq<PonderationItem>, tips: seq<AiTip>, sid: Id)
    ensures forall id :: id in EvaluationsNotOf(evaluations, sid) ==> EvaluationsNotOf(evaluations, sid)[id].studentId != sid
    ensures var ps := PonderationsNotOf(ponderations, sid);
      && (forall id :: id in ps ==> ps[id].studentId != sid)
      && (forall k :: 0 <= k < |items| ==>
            (items[k] in ItemsUnder(items, ps) <==> items[k].ponderationId in ps))
    ensures var kept := ItemsUnder(items, PonderationsNotOf(ponderations, sid));
      forall k :: 0 <= k < |tips| ==> (tips[k] in TipsUnder(tips, kept) <==> tips[k].ponderationItemId in ItemIds(kept))
  {
  }

  /** DELETE `/:id`: removes the student and, through the foreign keys, everything that hangs from it. */
  method DeleteStudent(db: Store, id: Id) returns (r: Result<(), StudentError>)
    requires db.Valid()
    modifies db
    ensures db.Valid()
    ensures id !in old(db.students) ==> r == Err(StudentNotFound) && unchanged(db)
    ensures id in old(db.students) ==>
      && r == Ok(())
      && db.students == old(db.students) - {id}
      && db.evaluations == EvaluationsNotOf(old(db.evaluations), id)
      && db.ponderations == PonderationsNotOf(old(db.ponderations), id)
      && db.ponderationItems == ItemsUnder(old(db.ponderationItems), db.ponderations)
      && db.aiTips == TipsUnder(old(db.aiTips), db.ponderationItems)
      && db.nextId == old(db.nextId)
  {
    if id !in db.students {
      return Err(StudentNotFound);
    }
    DeleteConsistent(db.students, db.evaluations, db.ponderations, db.ponderationItems, db.aiTips, db.nextId, id);
    db.students := db.students - {id};
    db.evaluations := EvaluationsNotOf(db.evaluations, id);
    db.ponderations := PonderationsNotOf(db.ponderations, id);
    db.ponderationItems := ItemsUnder(db.ponderationItems, db.ponderations);
    db.aiTips := TipsUnder(db.aiTips, db.ponderationItems);
    r := Ok(());
  }
}
