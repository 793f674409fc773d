/** routes/courses.js: courses, each under a college, unique by (code, college). */
module CourseRoutes {
  import opened Wrappers
  import opened Schema
  import Sorting
  import Text
  import Decimal

  /** `.sort({ name: 1 })` */
  predicate ByName(a: Doc<Course>, b: Doc<Course>) {
    Text.StrLe(a.val.name, b.val.name)
  }

  lemma ByNameIsTotalPreorder()
    ensures Sorting.TotalPreorder(ByName)
  {
    Sorting.ByStringKey((d: Doc<Course>) => d.val.name, ByName);
  }

  /** GET /api/courses: every course once, ascending by name. */
  function List(db: Store): (r: seq<Doc<Course>>)
    ensures Sorting.Sorted(r, ByName)
    ensures forall d :: d in r <==> d.id in db.courses && db.courses[d.id] == d.val
    ensures DistinctIds(r)
  {
    ByNameIsTotalPreorder();
    Listing(db.courses, db.clock, (c: Course) => true, ByName)
  }

  /** GET /api/courses/college/:collegeId. The college's existence is not
      checked (an unknown id gives an empty list); an id that does not cast
      reaches the generic 500 handler. */
  function ListByCollege(db: Store, collegeId: string): (r: Result<seq<Doc<Course>>>)
    ensures r.Ok? <==> ParseId(collegeId).Oid?
    ensures r.Err? ==> r.error == ServerError
    ensures r.Ok? ==> Sorting.Sorted(r.value, ByName) && DistinctIds(r.value)
    ensures r.Ok? ==> forall d :: d in r.value <==>
      d.id in db.courses && db.courses[d.id] == d.val && d.val.college == ParseId(collegeId).id
  {
    match ParseId(collegeId)
    case Malformed => Err(ServerError)
    case Oid(c) =>
      ByNameIsTotalPreorder();
      Ok(Listing(db.courses, db.clock, (x: Course) => x.college == c, ByName))
  }

  /** GET /api/courses/:id */
  function Get(db: Store, id: string): (r: Result<Doc<Course>>)
    ensures r.Ok? <==> ParseId(id).Oid? && ParseId(id).id in db.courses
    ensures r.Ok? ==> r.value.id == ParseId(id).id && r.value.val == db.courses[r.value.id]
    ensures r.Err? ==> r.error == NotFound(CourseKind)
  {
    match ParseId(id)
    case Malformed => Err(NotFound(CourseKind))
    case Oid(k) => if k in db.courses then Ok(Doc(k, db.courses[k])) else Err(NotFound(CourseKind))
  }

  /** The body checks shared by POST and PUT. */
  function Checks(name: string, code: string, college: string, duration: string): (c: seq<(string, bool)>)
    ensures FailedChecks(c) == [] <==>
      name != "" && code != "" && college != "" && Decimal.ParseInt(duration).Some?
  {
    var c := [("name", name != ""), ("code", code != ""), ("college", college != ""),
              ("duration", Decimal.ParseInt(duration).Some?)];
    assert c[0].1 && c[1].1 && c[2].1 && c[3].1 ==> forall i :: 0 <= i < |c| ==> c[i].1;
    c
  }

  /** Some course other than `self` already has this (code, college) pair. */
  predicate Taken(m: map<Id, Course>, code: string, college: Id, self: Option<Id>) {
    exists k :: k in m && Some(k) != self && m[k].code == code && m[k].college == college
  }

  /** POST /api/courses */
  function Create(db: Store, name: string, code: string, college: string, duration: string): (r: Reply<Doc<Course>>)
    ensures r.result.Err? ==> r.db == db
    ensures FailedChecks(Checks(name, code, college, duration)) != [] ==>
      r.result == Err(Invalid(FailedChecks(Checks(name, code, college, duration))))
    // the parent is looked up before uniqueness is considered
    ensures FailedChecks(Checks(name, code, college, duration)) == [] ==>
      r.result == (if ParseId(college).Malformed? then Err(ServerError)
                   else if ParseId(college).id !in db.colleges then Err(NotFound(CollegeKind))
                   else if Taken(db.courses, code, ParseId(college).id, None) then Err(Conflict)
                   else r.result)
    ensures r.result.Ok? <==>
      && FailedChecks(Checks(name, code, college, duration)) == []
      && ParseId(college).Oid? && ParseId(college).id in db.colleges
      && !Taken(db.courses, code, ParseId(college).id, None)
    ensures r.result.Ok? ==>
      var d := r.result.value;
      && Decimal.ParseInt(duration).Some?
      && d.id !in db.courses
      && d.val == Course(name, code, ParseId(college).id, Decimal.ParseInt(duration).value, db.clock)
      && d.val.college in db.colleges
      && r.db == db.(courses := db.courses[d.id := d.val], clock := r.db.clock)
      && r.db.clock > db.clock
  {
    var errors := FailedChecks(Checks(name, code, college, duration));
    if errors != [] then Reply(db, Err(Invalid(errors)))
    else match ParseId(college)
      case Malformed => Reply(db, Err(ServerError))
      case Oid(c) =>
        if c !in db.colleges then Reply(db, Err(NotFound(CollegeKind)))
        else if Taken(db.courses, code, c, None) then Reply(db, Err(Conflict))
        else
          var x := Course(name, code, c, Decimal.ParseInt(duration).value, db.clock);
          Reply(db.(courses := db.courses[db.clock := x], clock := db.clock + 1), Ok(Doc(db.clock, x)))
  }

  /** PUT /api/courses/:id. Target first, then the college, then the
      uniqueness check that skips the target itself. An id that does not
      cast, in the URL or in the body, answers 'Course not found'. */
  function Update(db: Store, id: string, name: string, code: string, college: string, duration: string): (r: Reply<Doc<Course>>)
    ensures r.result.Err? ==> r.db == db
    ensures FailedChecks(Checks(name, code, college, duration)) != [] ==>
      r.result == Err(Invalid(FailedChecks(Checks(name, code, college, duration))))
    ensures FailedChecks(Checks(name, code, college, duration)) == [] ==>
      r.result == (if !(ParseId(id).Oid? && ParseId(id).id in db.courses) then Err(NotFound(CourseKind))
                   else if ParseId(college).Malformed? then Err(NotFound(CourseKind))
                   else if ParseId(college).id !in db.colleges then Err(NotFound(CollegeKind))
                   else if Taken(db.courses, code, ParseId(college).id, Some(ParseId(id).id)) then Err(Conflict)
                   else r.result)
    ensures r.result.Ok? <==>
      && FailedChecks(Checks(name, code, college, duration)) == []
      && ParseId(id).Oid? && ParseId(id).id in db.courses
      && ParseId(college).Oid? && ParseId(college).id in db.colleges
      && !Taken(db.courses, code, ParseId(college).id, Some(ParseId(id).id))
    // success overwrites exactly name, code, college and duration
    ensures r.result.Ok? ==>
      var k := ParseId(id).id;
      && Decimal.ParseInt(duration).Some?
      && ParseId(id).Oid? && k in db.courses
      && r.result.value == Doc(k, db.courses[k].(name := name, code := code, college := ParseId(college).id,
                                                duration := Decimal.ParseInt(duration).value))
      && r.result.value.val.college in db.colleges
      && r.db == db.(courses := db.courses[k := r.result.value.val])
  {
    var errors := FailedChecks(Checks(name, code, college, duration));
    if errors != [] then Reply(db, Err(Invalid(errors)))
    else match ParseId(id)
      case Malformed => Reply(db, Err(NotFound(CourseKind)))
      case Oid(k) =>
        if k !in db.courses then Reply(db, Err(NotFound(CourseKind)))
        else match ParseId(college)
          case Malformed => Reply(db, Err(NotFound(CourseKind)))
          case Oid(c) =>
            if c !in db.colleges then Reply(db, Err(NotFound(CollegeKind)))
            else if Taken(db.courses, code, c, Some(k)) then Reply(db, Err(Conflict))
            else
              var x := db.courses[k].(name := name, code := code, college := c,
                                      duration := Decimal.ParseInt(duration).value);
              Reply(db.(courses := db.courses[k := x]), Ok(Doc(k, x)))
  }

  /** DELETE /api/courses/:id: removes the course only; its semesters stay. */
  function Delete(db: Store, id: string): (r: Reply<string>)
    ensures r.result.Ok? <==> ParseId(id).Oid? && ParseId(id).id in db.courses
    ensures r.result.Err? ==> r.db == db && r.result.error == NotFound(CourseKind)
    ensures r.result.Ok? ==> r.db == db.(courses := db.courses - {ParseId(id).id})
  {
    match ParseId(id)
    case Malformed => Reply(db, Err(NotFound(CourseKind)))
    case Oid(k) =>
      if k !in db.courses then Reply(db, Err(NotFound(CourseKind)))
      else Reply(db.(courses := db.courses - {k}), Ok("Course removed"))
  }

  /** A second course with the same (code, college) is refused. */
  lemma SecondCreateConflicts(db: Store, name: string, name2: string, code: string, college: string, duration: string, duration2: string)
    requires Create(db, name, code, college, duration).result.Ok?
    requires Decimal.ParseInt(duration2).Some? && name2 != ""
    ensures Create(Create(db, name, code, college, duration).db, name2, code, college, duration2).result == Err(Conflict)
  {
    var r := Create(db, name, code, college, duration);
    assert r.db.courses[r.result.value.id].code == code;
  }

  /** A created course is then found by GET with the id it was given. */
  lemma CreateThenGet(db: Store, name: string, code: string, college: string, duration: string)
    requires Create(db, name, code, college, duration).result.Ok?
    ensures
      var r := Create(db, name, code, college, duration);
      Get(r.db, IdString(r.result.value.id)) == Ok(r.result.value)
  {
    ParseIdString(Create(db, name, code, college, duration).result.value.id);
  }

  /** A create keeps the (code, college) index. */
  lemma CreateKeepsValid(db: Store, name: string, code: string, college: string, duration: string)
    requires Valid(db)
    ensures Valid(Create(db, name, code, college, duration).db)
  {
    var r := Create(db, name, code, college, duration);
    if r.result.Ok? {
      PutCourseKeepsValid(db, r.result.value.id, r.result.value.val, r.db.clock);
    }
  }

  /** An update keeps the (code, college) index. */
  lemma UpdateKeepsValid(db: Store, id: string, name: string, code: string, college: string, duration: string)
    requires Valid(db)
    ensures Valid(Update(db, id, name, code, college, duration).db)
  {
    var r := Update(db, id, name, code, college, duration);
    if r.result.Ok? {
      PutCourseKeepsValid(db, r.result.value.id, r.result.value.val, r.db.clock);
    }
  }

  /** A delete keeps the catalog invariant. */
  lemma DeleteKeepsValid(db: Store, id: string)
    requires Valid(db)
    ensures Valid(Delete(db, id).db)
  {
  }
}
