/** routes/semesters.js: semesters, each under a course, unique by (number, course). */
module SemesterRoutes {
  import opened Wrappers
  import opened Schema
  import Sorting
  import Decimal

  /** `.sort({ number: 1 })` */
  predicate ByNumber(a: Doc<Semester>, b: Doc<Semester>) {
    a.val.number <= b.val.number
  }

  lemma ByNumberIsTotalPreorder()
    ensures Sorting.TotalPreorder(ByNumber)
  {
  }

  /** GET /api/semesters: every semester once, ascending by number. */
  function List(db: Store): (r: seq<Doc<Semester>>)
    ensures Sorting.Sorted(r, ByNumber)
    ensures forall d :: d in r <==> d.id in db.semesters && db.semesters[d.id] == d.val
    ensures DistinctIds(r)
  {
    ByNumberIsTotalPreorder();
    Listing(db.semesters, db.clock, (s: Semester) => true, ByNumber)
  }

  /** GET /api/semesters/course/:courseId, also ascending by number. */
  function ListByCourse(db: Store, courseId: string): (r: Result<seq<Doc<Semester>>>)
    ensures r.Ok? <==> ParseId(courseId).Oid?
    ensures r.Err? ==> r.error == ServerError
    ensures r.Ok? ==> Sorting.Sorted(r.value, ByNumber) && DistinctIds(r.value)
    ensures r.Ok? ==> forall d :: d in r.value <==>
      d.id in db.semesters && db.semesters[d.id] == d.val && d.val.course == ParseId(courseId).id
  {
    match ParseId(courseId)
    case Malformed => Err(ServerError)
    case Oid(c) =>
      ByNumberIsTotalPreorder();
      Ok(Listing(db.semesters, db.clock, (x: Semester) => x.course == c, ByNumber))
  }

  /** GET /api/semesters/:id */
  function Get(db: Store, id: string): (r: Result<Doc<Semester>>)
    ensures r.Ok? <==> ParseId(id).Oid? && ParseId(id).id in db.semesters
    ensures r.Ok? ==> r.value.id == ParseId(id).id && r.value.val == db.semesters[r.value.id]
    ensures r.Err? ==> r.error == NotFound(SemesterKind)
  {
    match ParseId(id)
    case Malformed => Err(NotFound(SemesterKind))
    case Oid(k) => if k in db.semesters then Ok(Doc(k, db.semesters[k])) else Err(NotFound(SemesterKind))
  }

  /** The body checks shared by POST and PUT. */
  function Checks(name: string, number: string, course: string, year: string): (c: seq<(string, bool)>)
    ensures FailedChecks(c) == [] <==>
      name != "" && Decimal.ParseInt(number).Some? && course != "" && Decimal.ParseInt(year).Some?
  {
    var c := [("name", name != ""), ("number", Decimal.ParseInt(number).Some?),
              ("course", course != ""), ("year", Decimal.ParseInt(year).Some?)];
    assert c[0].1 && c[1].1 && c[2].1 && c[3].1 ==> forall i :: 0 <= i < |c| ==> c[i].1;
    c
  }

  /** Some semester other than `self` already has this (number, course) pair. */
  predicate Taken(m: map<Id, Semester>, number: int, course: Id, self: Option<Id>) {
    exists k :: k in m && Some(k) != self && m[k].number == number && m[k].course == course
  }

  /** POST /api/semesters */
  function Create(db: Store, name: string, number: string, course: string, year: string): (r: Reply<Doc<Semester>>)
    ensures r.result.Err? ==> r.db == db
    ensures FailedChecks(Checks(name, number, course, year)) != [] ==>
      r.result == Err(Invalid(FailedChecks(Checks(name, number, course, year))))
    ensures FailedChecks(Checks(name, number, course, year)) == [] ==>
      r.result == (if ParseId(course).Malformed? then Err(ServerError)
                   else if ParseId(course).id !in db.courses then Err(NotFound(CourseKind))
                   else if Taken(db.semesters, Decimal.ParseInt(number).value, ParseId(course).id, None) then Err(Conflict)
                   else r.result)
    ensures r.result.Ok? <==>
      && FailedChecks(Checks(name, number, course, year)) == []
      && ParseId(course).Oid? && ParseId(course).id in db.courses
      && !Taken(db.semesters, Decimal.ParseInt(number).value, ParseId(course).id, None)
    ensures r.result.Ok? ==>
      var d := r.result.value;
      && Decimal.ParseInt(number).Some? && Decimal.ParseInt(year).Some?
      && d.id !in db.semesters
      && d.val == Semester(name, Decimal.ParseInt(number).value, ParseId(course).id, Decimal.ParseInt(year).value, db.clock)
      && d.val.course in db.courses
      && r.db == db.(semesters := db.semesters[d.id := d.val], clock := r.db.clock)
      && r.db.clock > db.clock
  {
    var errors := FailedChecks(Checks(name, number, course, year));
    if errors != [] then Reply(db, Err(Invalid(errors)))
    else match ParseId(course)
      case Malformed => Reply(db, Err(ServerError))
      case Oid(c) =>
        var n := Decimal.ParseInt(number).value;
        if c !in db.courses then Reply(db, Err(NotFound(CourseKind)))
        else if Taken(db.semesters, n, c, None) then Reply(db, Err(Conflict))
        else
          var x := Semester(name, n, c, Decimal.ParseInt(year).value, db.clock);
          Reply(db.(semesters := db.semesters[db.clock := x], clock := db.clock + 1), Ok(Doc(db.clock, x)))
  }

  /** PUT /api/semesters/:id: target, then course, then uniqueness excluding the target. */
  function Update(db: Store, id: string, name: string, number: string, course: string, year: string): (r: Reply<Doc<Semester>>)
    ensures r.result.Err? ==> r.db == db
    ensures FailedChecks(Checks(name, number, course, year)) != [] ==>
      r.result == Err(Invalid(FailedChecks(Checks(name, number, course, year))))
    ensures FailedChecks(Checks(name, number, course, year)) == [] ==>
      r.result == (if !(ParseId(id).Oid? && ParseId(id).id in db.semesters) then Err(NotFound(SemesterKind))
                   else if ParseId(course).Malformed? then Err(NotFound(SemesterKind))
                   else if ParseId(course).id !in db.courses then Err(NotFound(CourseKind))
                   else if Taken(db.semesters, Decimal.ParseInt(number).value, ParseId(course).id, Some(ParseId(id).id)) then Err(Conflict)
                   else r.result)
    ensures r.result.Ok? <==>
      && FailedChecks(Checks(name, number, course, year)) == []
      && ParseId(id).Oid? && ParseId(id).id in db.semesters
      && ParseId(course).Oid? && ParseId(course).id in db.courses
      && !Taken(db.semesters, Decimal.ParseInt(number).value, ParseId(course).id, Some(ParseId(id).id))
    // success overwrites exactly name, number, course and year
    ensures r.result.Ok? ==>
      var k := ParseId(id).id;
      && Decimal.ParseInt(number).Some? && Decimal.ParseInt(year).Some?
      && ParseId(id).Oid? && k in db.semesters
      && r.result.value == Doc(k, db.semesters[k].(name := name, number := Decimal.ParseInt(number).value,
                                                  course := ParseId(course).id, year := Decimal.ParseInt(year).value))
      && r.result.value.val.course in db.courses
      && r.db == db.(semesters := db.semesters[k := r.result.value.val])
  {
    var errors := FailedChecks(Checks(name, number, course, year));
    if errors != [] then Reply(db, Err(Invalid(errors)))
    else match ParseId(id)
      case Malformed => Reply(db, Err(NotFound(SemesterKind)))
      case Oid(k) =>
        if k !in db.semesters then Reply(db, Err(NotFound(SemesterKind)))
        else match ParseId(course)
          case Malformed => Reply(db, Err(NotFound(SemesterKind)))
          case Oid(c) =>
            var n := Decimal.ParseInt(number).value;
            if c !in db.courses then Reply(db, Err(NotFound(CourseKind)))
            else if Taken(db.semesters, n, c, Some(k)) then Reply(db, Err(Conflict))
            else
              var x := db.semesters[k].(name := name, number := n, course := c,
                                        year := Decimal.ParseInt(year).value);
              Reply(db.(semesters := db.semesters[k := x]), Ok(Doc(k, x)))
  }

  /** DELETE /api/semesters/:id: removes the semester only; its subjects stay. */
  function Delete(db: Store, id: string): (r: Reply<string>)
    ensures r.result.Ok? <==> ParseId(id).Oid? && ParseId(id).id in db.semesters
    ensures r.result.Err? ==> r.db == db && r.result.error == NotFound(SemesterKind)
    ensures r.result.Ok? ==> r.db == db.(semesters := db.semesters - {ParseId(id).id})
  {
    match ParseId(id)
    case Malformed => Reply(db, Err(NotFound(SemesterKind)))
    case Oid(k) =>
      if k !in db.semesters then Reply(db, Err(NotFound(SemesterKind)))
      else Reply(db.(semesters := db.semesters - {k}), Ok("Semester removed"))
  }

  /** A created semester is then found by GET with the id it was given. */
  lemma CreateThenGet(db: Store, name: string, number: string, course: string, year: string)
    requires Create(db, name, number, course, year).result.Ok?
    ensures
      var r := Create(db, name, number, course, year);
      Get(r.db, IdString(r.result.value.id)) == Ok(r.result.value)
  {
    ParseIdString(Create(db, name, number, course, year).result.value.id);
  }

  /** A create keeps the (number, course) index. */
  lemma CreateKeepsValid(db: Store, name: string, number: string, course: string, year: string)
    requires Valid(db)
    ensures Valid(Create(db, name, number, course, year).db)
  {
    var r := Create(db, name, number, course, year);
    if r.result.Ok? {
      PutSemesterKeepsValid(db, r.result.value.id, r.result.value.val, r.db.clock);
    }
  }

  /** An update keeps the (number, course) index. */
  lemma UpdateKeepsValid(db: Store, id: string, name: string, number: string, course: string, year: string)
    requires Valid(db)
    ensures Valid(Update(db, id, name, number, course, year).db)
  {
    var r := Update(db, id, name, number, course, year);
    if r.result.Ok? {
      PutSemesterKeepsValid(db, r.result.value.id, r.result.value.val, r.db.clock);
    }
  }

  /** A delete keeps the catalog invariant. */
  lemma DeleteKeepsValid(db: Store, id: string)
    requires Valid(db)
    ensures Valid(Delete(db, id).db)
  {
  }
}
