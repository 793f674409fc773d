/** routes/subjects.js: subjects, each naming a semester and (separately) a
    course, unique by (code, semester). */
module SubjectRoutes {
  import opened Wrappers
  import opened Schema
  import Sorting
  import Text
  import Decimal

  /** `.sort({ name: 1 })` */
  predicate ByName(a: Doc<Subject>, b: Doc<Subject>) {
    Text.StrLe(a.val.name, b.val.name)
  }

  lemma ByNameIsTotalPreorder()
    ensures Sorting.TotalPreorder(ByName)
  {
    Sorting.ByStringKey((d: Doc<Subject>) => d.val.name, ByName);
  }

  /** GET /api/subjects: every subject once, ascending by name. */
  function List(db: Store): (r: seq<Doc<Subject>>)
    ensures Sorting.Sorted(r, ByName)
    ensures forall d :: d in r <==> d.id in db.subjects && db.subjects[d.id] == d.val
    ensures DistinctIds(r)
  {
    ByNameIsTotalPreorder();
    Listing(db.subjects, db.clock, (s: Subject) => true, ByName)
  }

  /** GET /api/subjects/semester/:semesterId */
  function ListBySemester(db: Store, semesterId: string): (r: Result<seq<Doc<Subject>>>)
    ensures r.Ok? <==> ParseId(semesterId).Oid?
    ensures r.Err? ==> r.error == ServerError
    ensures r.Ok? ==> Sorting.Sorted(r.value, ByName) && DistinctIds(r.value)
    ensures r.Ok? ==> forall d :: d in r.value <==>
      d.id in db.subjects && db.subjects[d.id] == d.val && d.val.semester == ParseId(semesterId).id
  {
    match ParseId(semesterId)
    case Malformed => Err(ServerError)
    case Oid(s) =>
      ByNameIsTotalPreorder();
      Ok(Listing(db.subjects, db.clock, (x: Subject) => x.semester == s, ByName))
  }

  /** GET /api/subjects/course/:courseId: matches the subject's own course
      field, not the course of its semester. */
  function ListByCourse(db: Store, courseId: string): (r: Result<seq<Doc<Subject>>>)
    ensures r.Ok? <==> ParseId(courseId).Oid?
    ensures r.Err? ==> r.error == ServerError
    ensures r.Ok? ==> Sorting.Sorted(r.value, ByName) && DistinctIds(r.value)
    ensures r.Ok? ==> forall d :: d in r.value <==>
      d.id in db.subjects && db.subjects[d.id] == d.val && d.val.course == ParseId(courseId).id
  {
    match ParseId(courseId)
    case Malformed => Err(ServerError)
    case Oid(c) =>
      ByNameIsTotalPreorder();
      Ok(Listing(db.subjects, db.clock, (x: Subject) => x.course == c, ByName))
  }

  /** GET /api/subjects/:id */
  function Get(db: Store, id: string): (r: Result<Doc<Subject>>)
    ensures r.Ok? <==> ParseId(id).Oid? && ParseId(id).id in db.subjects
    ensures r.Ok? ==> r.value.id == ParseId(id).id && r.value.val == db.subjects[r.value.id]
    ensures r.Err? ==> r.error == NotFound(SubjectKind)
  {
    match ParseId(id)
    case Malformed => Err(NotFound(SubjectKind))
    case Oid(k) => if k in db.subjects then Ok(Doc(k, db.subjects[k])) else Err(NotFound(SubjectKind))
  }

  /** The body checks shared by POST and PUT; `credits` is not checked. */
  function Checks(name: string, code: string, semester: string, course: string): (c: seq<(string, bool)>)
    ensures FailedChecks(c) == [] <==> name != "" && code != "" && semester != "" && course != ""
  {
    var c := [("name", name != ""), ("code", code != ""), ("semester", semester != ""), ("course", course != "")];
    assert c[0].1 && c[1].1 && c[2].1 && c[3].1 ==> forall i :: 0 <= i < |c| ==> c[i].1;
    c
  }

  /** Mongoose's cast of the optional `credits` Number: an empty value leaves
      it unset, a numeral sets it, any other text fails validation on save. */
  function CastCredits(credits: string): (r: Option<Option<int>>)
    ensures r == Some(None) <==> credits == ""
    ensures r.None? <==> credits != "" && Decimal.ParseInt(credits).None?
  {
    if credits == "" then Some(None)
    else match Decimal.ParseInt(credits)
      case Some(n) => Some(Some(n))
      case None => None
  }

  /** The numeral of any integer is stored as that integer. */
  lemma CastCreditsOfNumeral(n: int)
    ensures CastCredits(Decimal.IntToString(n)) == Some(Some(n))
  {
    Decimal.ParseIntToString(n);
  }

  /** Some subject other than `self` already has this (code, semester) pair. */
  predicate Taken(m: map<Id, Subject>, code: string, semester: Id, self: Option<Id>) {
    exists k :: k in m && Some(k) != self && m[k].code == code && m[k].semester == semester
  }

  /** POST /api/subjects: semester, then course, then uniqueness; the two
      parents are not compared with each other. */
  function Create(db: Store, name: string, code: string, semester: string, course: string, credits: string): (r: Reply<Doc<Subject>>)
    ensures r.result.Err? ==> r.db == db
    ensures FailedChecks(Checks(name, code, semester, course)) != [] ==>
      r.result == Err(Invalid(FailedChecks(Checks(name, code, semester, course))))
    ensures FailedChecks(Checks(name, code, semester, course)) == [] ==>
      r.result == (if ParseId(semester).Malformed? then Err(ServerError)
                   else if ParseId(semester).id !in db.semesters then Err(NotFound(SemesterKind))
                   else if ParseId(course).Malformed? then Err(ServerError)
                   else if ParseId(course).id !in db.courses then Err(NotFound(CourseKind))
                   else if Taken(db.subjects, code, ParseId(semester).id, None) then Err(Conflict)
                   else if CastCredits(credits).None? then Err(ServerError)
                   else r.result)
    ensures r.result.Ok? <==>
      && FailedChecks(Checks(name, code, semester, course)) == []
      && ParseId(semester).Oid? && ParseId(semester).id in db.semesters
      && ParseId(course).Oid? && ParseId(course).id in db.courses
      && !Taken(db.subjects, code, ParseId(semester).id, None)
      && CastCredits(credits).Some?
    ensures r.result.Ok? ==>
      var d := r.result.value;
      && CastCredits(credits).Some?
      && d.id !in db.subjects
      && d.val == Subject(name, code, ParseId(semester).id, ParseId(course).id, CastCredits(credits).value, db.clock)
      && d.val.semester in db.semesters && d.val.course in db.courses
      && r.db == db.(subjects := db.subjects[d.id := d.val], clock := r.db.clock)
      && r.db.clock > db.clock
  {
    var errors := FailedChecks(Checks(name, code, semester, course));
    if errors != [] then Reply(db, Err(Invalid(errors)))
    else match ParseId(semester)
      case Malformed => Reply(db, Err(ServerError))
      case Oid(s) =>
        if s !in db.semesters then Reply(db, Err(NotFound(SemesterKind)))
        else match ParseId(course)
          case Malformed => Reply(db, Err(ServerError))
          case Oid(c) =>
            if c !in db.courses then Reply(db, Err(NotFound(CourseKind)))
            else if Taken(db.subjects, code, s, None) then Reply(db, Err(Conflict))
            else match CastCredits(credits)
              case None => Reply(db, Err(ServerError))
              case Some(cr) =>
                var x := Subject(name, code, s, c, cr, db.clock);
                Reply(db.(subjects := db.subjects[db.clock := x], clock := db.clock + 1), Ok(Doc(db.clock, x)))
  }

  /** PUT /api/subjects/:id: target, semester, course, uniqueness excluding
      the target, in that order; an id that does not cast answers 'Subject not found'. */
  function Update(db: Store, id: string, name: string, code: string, semester: string, course: string, credits: string): (r: Reply<Doc<Subject>>)
    ensures r.result.Err? ==> r.db == db
    ensures FailedChecks(Checks(name, code, semester, course)) != [] ==>
      r.result == Err(Invalid(FailedChecks(Checks(name, code, semester, course))))
    ensures FailedChecks(Checks(name, code, semester, course)) == [] ==>
      r.result == (if !(ParseId(id).Oid? && ParseId(id).id in db.subjects) then Err(NotFound(SubjectKind))
                   else if ParseId(semester).Malformed? then Err(NotFound(SubjectKind))
                   else if ParseId(semester).id !in db.semesters then Err(NotFound(SemesterKind))
                   else if ParseId(course).Malformed? then Err(NotFound(SubjectKind))
                   else if ParseId(course).id !in db.courses then Err(NotFound(CourseKind))
                   else if Taken(db.subjects, code, ParseId(semester).id, Some(ParseId(id).id)) then Err(Conflict)
                   else if CastCredits(credits).None? then Err(ServerError)
                   else r.result)
    ensures r.result.Ok? <==>
      && FailedChecks(Checks(name, code, semester, course)) == []
      && ParseId(id).Oid? && ParseId(id).id in db.subjects
      && ParseId(semester).Oid? && ParseId(semester).id in db.semesters
      && ParseId(course).Oid? && ParseId(course).id in db.courses
      && !Taken(db.subjects, code, ParseId(semester).id, Some(ParseId(id).id))
      && CastCredits(credits).Some?
    // success overwrites exactly name, code, semester, course and credits
    ensures r.result.Ok? ==>
      var k := ParseId(id).id;
      && CastCredits(credits).Some?
      && ParseId(id).Oid? && k in db.subjects
      && r.result.value == Doc(k, db.subjects[k].(name := name, code := code, semester := ParseId(semester).id,
                                                 course := ParseId(course).id, credits := CastCredits(credits).value))
      && r.db == db.(subjects := db.subjects[k := r.result.value.val])
  {
    var errors := FailedChecks(Checks(name, code, semester, course));
    if errors != [] then Reply(db, Err(Invalid(errors)))
    else match ParseId(id)
      case Malformed => Reply(db, Err(NotFound(SubjectKind)))
      case Oid(k) =>
        if k !in db.subjects then Reply(db, Err(NotFound(SubjectKind)))
        else match ParseId(semester)
          case Malformed => Reply(db, Err(NotFound(SubjectKind)))
          case Oid(s) =>
            if s !in db.semesters then Reply(db, Err(NotFound(SemesterKind)))
            else match ParseId(course)
              case Malformed => Reply(db, Err(NotFound(SubjectKind)))
              case Oid(c) =>
                if c !in db.courses then Reply(db, Err(NotFound(CourseKind)))
                else if Taken(db.subjects, code, s, Some(k)) then Reply(db, Err(Conflict))
                else match CastCredits(credits)
                  case None => Reply(db, Err(ServerError))
                  case Some(cr) =>
                    var x := db.subjects[k].(name := name, code := code, semester := s, course := c, credits := cr);
                    Reply(db.(subjects := db.subjects[k := x]), Ok(Doc(k, x)))
  }

  /** DELETE /api/subjects/:id: removes the subject only. */
  function Delete(db: Store, id: string): (r: Reply<string>)
    ensures r.result.Ok? <==> ParseId(id).Oid? && ParseId(id).id in db.subjects
    ensures r.result.Err? ==> r.db == db && r.result.error == NotFound(SubjectKind)
    ensures r.result.Ok? ==> r.db == db.(subjects := db.subjects - {ParseId(id).id})
  {
    match ParseId(id)
    case Malformed => Reply(db, Err(NotFound(SubjectKind)))
    case Oid(k) =>
      if k !in db.subjects then Reply(db, Err(NotFound(SubjectKind)))
      else Reply(db.(subjects := db.subjects - {k}), Ok("Subject removed"))
  }

  /** The denormalised course is not checked against the semester's course:
      a subject can be filed under a semester of one course and a different course. */
  lemma CreateMixesCourses()
    ensures
      var db := Db(map[], map[1 := Course("CS", "CS1", 0, 4, 1), 2 := Course("EE", "EE1", 0, 4, 2)],
                   map[3 := Semester("Sem1", 1, 1, 1, 3)], map[], map[], {}, 4);
      var r := Create(db, "Algorithms", "ALG1", "3", "2", "4");
      && r.result.Ok?
      && r.result.value.val.course != db.semesters[r.result.value.val.semester].course
  {
    assert IdString(3) == "3" && IdString(2) == "2" && Decimal.IntToString(4) == "4";
    ParseIdString(3);
    ParseIdString(2);
    Decimal.ParseIntToString(4);
  }

  /** A created subject is then found by GET with the id it was given. */
  lemma CreateThenGet(db: Store, name: string, code: string, semester: string, course: string, credits: string)
    requires Create(db, name, code, semester, course, credits).result.Ok?
    ensures
      var r := Create(db, name, code, semester, course, credits);
      Get(r.db, IdString(r.result.value.id)) == Ok(r.result.value)
  {
    ParseIdString(Create(db, name, code, semester, course, credits).result.value.id);
  }

  /** A create keeps the (code, semester) index. */
  lemma CreateKeepsValid(db: Store, name: string, code: string, semester: string, course: string, credits: string)
    requires Valid(db)
    ensures Valid(Create(db, name, code, semester, course, credits).db)
  {
    var r := Create(db, name, code, semester, course, credits);
    if r.result.Ok? {
      PutSubjectKeepsValid(db, r.result.value.id, r.result.value.val, r.db.clock);
    }
  }

  /** An update keeps the (code, semester) index. */
  lemma UpdateKeepsValid(db: Store, id: string, name: string, code: string, semester: string, course: string, credits: string)
    requires Valid(db)
    ensures Valid(Update(db, id, name, code, semester, course, credits).db)
  {
    var r := Update(db, id, name, code, semester, course, credits);
    if r.result.Ok? {
      PutSubjectKeepsValid(db, r.result.value.id, r.result.value.val, r.db.clock);
    }
  }

  /** A delete keeps the catalog invariant. */
  lemma DeleteKeepsValid(db: Store, id: string)
    requires Valid(db)
    ensures Valid(Delete(db, id).db)
  {
  }
}
