/** routes/papers.js: the question papers, each filed under a college,
    course, semester and subject, with the uploaded PDF kept on disk. */
module PaperRoutes {
  import opened Wrappers
  import opened Schema
  import Sorting
  import Decimal
  import Upload

  // --------------------------------------------------------------- listing

  /** `.sort({ createdAt: -1 })`: newest first. */
  predicate Newest(a: Doc<Paper>, b: Doc<Paper>) {
    a.val.createdAt >= b.val.createdAt
  }

  lemma NewestIsTotalPreorder()
    ensures Sorting.TotalPreorder(Newest)
  {
  }

  /** GET /api/papers: every paper once, newest first. */
  function List(db: Store): (r: seq<Doc<Paper>>)
    ensures Sorting.Sorted(r, Newest)
    ensures forall d :: d in r <==> d.id in db.papers && db.papers[d.id] == d.val
    ensures DistinctIds(r)
  {
    NewestIsTotalPreorder();
    Listing(db.papers, db.clock, (p: Paper) => true, Newest)
  }

  /** The query string of GET /api/papers/filter; "" stands for an absent key. */
  datatype Query = Query(college: string, course: string, year: string, semester: string, subject: string)

  /** The Mongo filter built from the query: one condition per present key. */
  datatype Cond = Cond(college: Option<Id>, course: Option<Id>, year: Option<int>,
                       semester: Option<Id>, subject: Option<Id>)

  /** Casting one id condition: None when the value is not an id (the query fails). */
  function CastId(s: string): (r: Option<Option<Id>>)
    ensures r.Some? <==> s == "" || ParseId(s).Oid?
    ensures r.Some? && s != "" ==> r.value == Some(ParseId(s).id)
    ensures s == "" ==> r == Some(None)
  {
    if s == "" then Some(None)
    else match ParseId(s)
      case Malformed => None
      case Oid(k) => Some(Some(k))
  }

  function CastYear(s: string): (r: Option<Option<int>>)
    ensures r.Some? <==> s == "" || Decimal.ParseInt(s).Some?
    ensures r.Some? && s != "" ==> r.value == Decimal.ParseInt(s)
    ensures s == "" ==> r == Some(None)
  {
    if s == "" then Some(None)
    else match Decimal.ParseInt(s)
      case None => None
      case Some(n) => Some(Some(n))
  }

  /** Mongoose casts every condition before the query runs. */
  function CastQuery(q: Query): Option<Cond> {
    match (CastId(q.college), CastId(q.course), CastYear(q.year), CastId(q.semester), CastId(q.subject))
    case (Some(a), Some(b), Some(c), Some(d), Some(e)) => Some(Cond(a, b, c, d, e))
    case _ => None
  }

  predicate Fits<T(==)>(c: Option<T>, v: T) {
    c.None? || c.value == v
  }

  predicate Matches(p: Paper, c: Cond) {
    Fits(c.college, p.college) && Fits(c.course, p.course) && Fits(c.year, p.year)
    && Fits(c.semester, p.semester) && Fits(c.subject, p.subject)
  }

  /** Every non-empty key of the query casts. */
  predicate Castable(q: Query) {
    && (q.college == "" || ParseId(q.college).Oid?)
    && (q.course == "" || ParseId(q.course).Oid?)
    && (q.year == "" || Decimal.ParseInt(q.year).Some?)
    && (q.semester == "" || ParseId(q.semester).Oid?)
    && (q.subject == "" || ParseId(q.subject).Oid?)
  }

  /** The paper agrees with every non-empty key of a castable query. */
  predicate Selects(q: Query, p: Paper)
    requires Castable(q)
  {
    && (q.college == "" || p.college == ParseId(q.college).id)
    && (q.course == "" || p.course == ParseId(q.course).id)
    && (q.year == "" || p.year == Decimal.ParseInt(q.year).value)
    && (q.semester == "" || p.semester == ParseId(q.semester).id)
    && (q.subject == "" || p.subject == ParseId(q.subject).id)
  }

  /** The query casts exactly when each of its non-empty values does. */
  lemma CastQueryCastable(q: Query)
    ensures CastQuery(q).Some? <==> Castable(q)
  {
  }

  /** The cast filter selects the papers the query names. */
  lemma MatchesIffSelects(q: Query, c: Cond, p: Paper)
    requires CastQuery(q) == Some(c)
    ensures Castable(q)
    ensures Matches(p, c) <==> Selects(q, p)
  {
    CastQueryCastable(q);
  }

  /** GET /api/papers/filter: the papers agreeing with every key given,
      newest first; a value that does not cast answers 500. */
  function Filter(db: Store, q: Query): (r: Result<seq<Doc<Paper>>>)
    ensures r.Ok? <==> Castable(q)
    ensures r.Err? ==> r.error == ServerError
    ensures r.Ok? ==> Sorting.Sorted(r.value, Newest) && DistinctIds(r.value)
    ensures r.Ok? ==> forall d :: d in r.value <==>
      d.id in db.papers && db.papers[d.id] == d.val && Selects(q, d.val)
  {
    CastQueryCastable(q);
    match CastQuery(q)
    case None => Err(ServerError)
    case Some(c) =>
      forall p: Paper
        ensures Matches(p, c) <==> Selects(q, p)
      {
        MatchesIffSelects(q, c, p);
      }
      NewestIsTotalPreorder();
      Ok(Listing(db.papers, db.clock, (p: Paper) => Matches(p, c), Newest))
  }

  /** A query with no keys lists exactly what GET /api/papers lists. */
  lemma EmptyFilterIsList(db: Store)
    ensures Filter(db, Query("", "", "", "", "")) == Ok(List(db))
  {
    var c := Cond(None, None, None, None, None);
    assert CastQuery(Query("", "", "", "", "")) == Some(c);
    NewestIsTotalPreorder();
    ListingCongruent(db.papers, db.clock, (p: Paper) => Matches(p, c), (p: Paper) => true, Newest);
  }

  /** GET /api/papers/:id */
  function Get(db: Store, id: string): (r: Result<Doc<Paper>>)
    ensures r.Ok? <==> ParseId(id).Oid? && ParseId(id).id in db.papers
    ensures r.Ok? ==> r.value.id == ParseId(id).id && r.value.val == db.papers[r.value.id]
    ensures r.Err? ==> r.error == NotFound(PaperKind)
  {
    match ParseId(id)
    case Malformed => Err(NotFound(PaperKind))
    case Oid(k) => if k in db.papers then Ok(Doc(k, db.papers[k])) else Err(NotFound(PaperKind))
  }

  // ----------------------------------------------------------------- writes

  /** The text fields of a create or update body; "" stands for a missing or
      empty field, except `description`, which is stored whenever it is sent. */
  datatype Fields = Fields(title: string, description: Option<string>, college: string, course: string,
                           year: string, semester: string, subject: string)

  predicate AnyMissing(f: Fields) {
    f.title == "" || f.college == "" || f.course == "" || f.year == "" || f.semester == "" || f.subject == ""
  }

  /** The answer of one reference lookup of a create, if it fails. */
  function RefFault<T>(text: string, m: map<Id, T>, kind: Kind): Option<Error> {
    if ParseId(text).Malformed? then Some(ServerError)
    else if ParseId(text).id !in m then Some(NotFound(kind))
    else None
  }

  /** The first failing reference lookup of a create, in the handler's order. */
  function CreateFault(db: Db, f: Fields): (r: Option<Error>)
    ensures r.None? ==>
      && ParseId(f.college).Oid? && ParseId(f.college).id in db.colleges
      && ParseId(f.course).Oid? && ParseId(f.course).id in db.courses
      && ParseId(f.semester).Oid? && ParseId(f.semester).id in db.semesters
      && ParseId(f.subject).Oid? && ParseId(f.subject).id in db.subjects
  {
    if RefFault(f.college, db.colleges, CollegeKind).Some? then RefFault(f.college, db.colleges, CollegeKind)
    else if RefFault(f.course, db.courses, CourseKind).Some? then RefFault(f.course, db.courses, CourseKind)
    else if RefFault(f.semester, db.semesters, SemesterKind).Some? then RefFault(f.semester, db.semesters, SemesterKind)
    else RefFault(f.subject, db.subjects, SubjectKind)
  }

  /** The first check of a create's handler that fails: the required fields,
      then the four references in order, then the cast of the year. */
  function SaveFault(db: Db, f: Fields): (r: Option<Error>)
    ensures r.None? <==> !AnyMissing(f) && CreateFault(db, f).None? && Decimal.ParseInt(f.year).Some?
    ensures r == Some(MissingFields) <==> AnyMissing(f)
    ensures !AnyMissing(f) && CreateFault(db, f).Some? ==> r == CreateFault(db, f)
    ensures !AnyMissing(f) && CreateFault(db, f).None? && Decimal.ParseInt(f.year).None? ==> r == Some(ServerError)
  {
    if AnyMissing(f) then Some(MissingFields)
    else if CreateFault(db, f).Some? then CreateFault(db, f)
    else if Decimal.ParseInt(f.year).None? then Some(ServerError)
    else None
  }

  /** The handler body of POST /api/papers, once multer has stored the file
      `u` at `path`: the required fields, then the four references, then the
      save; on every failure the stored file is unlinked. */
  function Save(db: Store, admin: Id, f: Fields, u: Upload.File, path: string): (r: Reply<Doc<Paper>>)
    requires Upload.CheckFileType(u) && path != ""
    ensures r.result.Err? <==> SaveFault(db, f).Some?
    ensures r.result.Err? ==> r.db == db.(files := db.files - {path}) && r.result.error == SaveFault(db, f).value
    ensures r.result.Ok? ==>
      var d := r.result.value;
      && !AnyMissing(f) && CreateFault(db, f).None? && Decimal.ParseInt(f.year).Some?
      && d.id !in db.papers
      && d.val == Paper(f.title, f.description, ParseId(f.college).id, ParseId(f.course).id,
                        Decimal.ParseInt(f.year).value, ParseId(f.semester).id, ParseId(f.subject).id,
                        path, u.originalName, u.size, admin, 0, db.clock)
      && r.db == db.(papers := db.papers[d.id := d.val], files := db.files + {path}, clock := r.db.clock)
      && r.db.clock > db.clock
  {
    match SaveFault(db, f)
    case Some(e) =>
      WithFilesAllocated(db, db.files - {path});
      Reply(db.(files := db.files - {path}), Err(e))
    case None =>
      Upload.AcceptedNameIsNotEmpty(u);
      var p := Paper(f.title, f.description, ParseId(f.college).id, ParseId(f.course).id,
                     Decimal.ParseInt(f.year).value, ParseId(f.semester).id, ParseId(f.subject).id,
                     path, u.originalName, u.size, admin, 0, db.clock);
      PutNewPaperAllocated(db, p, db.files + {path});
      Reply(db.(papers := db.papers[db.clock := p], files := db.files + {path}, clock := db.clock + 1),
            Ok(Doc(db.clock, p)))
  }

  /** POST /api/papers with the file `u` attached, by an administrator
      `admin`, at time `now` (used in the stored file name). multer filters
      and stores the file first; the handler then checks the fields and the
      four references, removing the stored file on every failure. */
  function Create(db: Store, admin: Id, f: Fields, u: Upload.File, now: nat): (r: Reply<Doc<Paper>>)
    // refused by the file filter: nothing was written
    ensures !Upload.CheckFileType(u) ==> r == Reply(db, Err(UploadRejected(NotPdf)))
    ensures Upload.CheckFileType(u) && u.size > Upload.MaxFileSize ==> r.result == Err(UploadRejected(TooLarge))
    // any failure after the file was stored removes it again and nothing else
    ensures Upload.CheckFileType(u) && r.result.Err? ==> r.db == db.(files := db.files - {Upload.StoredPath(u, now)})
    // the handler's checks, in order
    ensures Upload.CheckFileType(u) && u.size <= Upload.MaxFileSize ==>
      && (r.result.Err? <==> SaveFault(db, f).Some?)
      && (r.result.Err? ==> r.result.error == SaveFault(db, f).value)
    ensures r.result.Ok? ==>
      var d := r.result.value;
      var path := Upload.StoredPath(u, now);
      && Upload.CheckFileType(u) && u.size <= Upload.MaxFileSize
      && !AnyMissing(f) && Decimal.ParseInt(f.year).Some? && CreateFault(db, f).None?
      && d.id !in db.papers
      && d.val == Paper(f.title, f.description, ParseId(f.college).id, ParseId(f.course).id,
                        Decimal.ParseInt(f.year).value, ParseId(f.semester).id, ParseId(f.subject).id,
                        path, u.originalName, u.size, admin, 0, db.clock)
      && r.db == db.(papers := db.papers[d.id := d.val], files := db.files + {path}, clock := r.db.clock)
      && r.db.clock > db.clock
  {
    var path := Upload.StoredPath(u, now);
    if !Upload.CheckFileType(u) then Reply(db, Err(UploadRejected(NotPdf)))
    else if u.size > Upload.MaxFileSize then
      WithFilesAllocated(db, db.files - {path});
      Reply(db.(files := db.files - {path}), Err(UploadRejected(TooLarge)))
    else Save(db, admin, f, u, path)
  }

  /** A create keeps the catalog invariant, whether it stores the paper or not. */
  lemma CreateKeepsValid(db: Store, admin: Id, f: Fields, u: Upload.File, now: nat)
    requires Valid(db)
    ensures Valid(Create(db, admin, f, u, now).db)
  {
    var r := Create(db, admin, f, u, now);
    if r.result.Ok? {
      Upload.AcceptedNameIsNotEmpty(u);
      PutPaperKeepsValid(db, r.result.value.id, r.result.value.val, r.db.files, r.db.clock);
    }
  }

  /** Only a missing field makes a create answer 'Please provide all required fields'. */
  lemma MissingFieldsOnlyWhenMissing(db: Store, admin: Id, f: Fields, u: Upload.File, now: nat)
    ensures Create(db, admin, f, u, now).result == Err(MissingFields) <==>
      Upload.CheckFileType(u) && u.size <= Upload.MaxFileSize && AnyMissing(f)
  {
  }

  /** POST /api/papers without a file: the field check refuses it and
      nothing is written. */
  function CreateWithoutFile(db: Store, f: Fields): (r: Reply<Doc<Paper>>)
    ensures r.db == db && r.result == Err(MissingFields)
  {
    Reply(db, Err(MissingFields))
  }

  /** A paper dated later than every other one heads the list. */
  lemma LatestListedFirst(db: Store, d: Doc<Paper>)
    requires d.id in db.papers && db.papers[d.id] == d.val
    requires forall k :: k in db.papers && k != d.id ==> db.papers[k].createdAt < d.val.createdAt
    ensures List(db) != [] && List(db)[0] == d
  {
    var l := List(db);
    assert d in l;
    var j :| 0 <= j < |l| && l[j] == d;
    assert Newest(l[0], l[j]);
    assert l[0] in l;
    assert l[0].id == d.id;
    assert j == 0;
  }

  /** A new paper is listed first: its `createdAt` is later than every stored one. */
  lemma CreateThenListFirst(db: Store, admin: Id, f: Fields, u: Upload.File, now: nat)
    requires Create(db, admin, f, u, now).result.Ok?
    ensures var r := Create(db, admin, f, u, now);
      List(r.db) != [] && List(r.db)[0] == r.result.value
  {
    var r := Create(db, admin, f, u, now);
    var d := r.result.value;
    forall k | k in r.db.papers && k != d.id
      ensures r.db.papers[k].createdAt < d.val.createdAt
    {
      assert k in db.papers;
    }
    LatestListedFirst(r.db, d);
  }

  /** The stored paper is what GET /api/papers/:id returns next. */
  lemma CreateThenGet(db: Store, admin: Id, f: Fields, u: Upload.File, now: nat)
    requires Create(db, admin, f, u, now).result.Ok?
    ensures var r := Create(db, admin, f, u, now);
      Get(r.db, IdString(r.result.value.id)) == Ok(r.result.value)
  {
    ParseIdString(Create(db, admin, f, u, now).result.value.id);
  }

  /** A refused upload leaves the store as it was, unless the file name it
      was given already named a stored file, which the clean-up then removes. */
  lemma FailedCreateKeepsStore(db: Store, admin: Id, f: Fields, u: Upload.File, now: nat)
    requires Create(db, admin, f, u, now).result.Err?
    ensures Upload.StoredPath(u, now) !in db.files ==> Create(db, admin, f, u, now).db == db
    ensures Upload.StoredPath(u, now) in db.files && Upload.CheckFileType(u) ==>
      Upload.StoredPath(u, now) !in Create(db, admin, f, u, now).db.files
  {
    if Upload.StoredPath(u, now) !in db.files {
      assert db.files - {Upload.StoredPath(u, now)} == db.files;
    }
  }

  /** The answer to one optional reference of an update: no change for "",
      'Paper not found' for an id that does not cast, and the missing
      document's kind for an id nobody has. */
  function PatchFault<T>(text: string, m: map<Id, T>, kind: Kind): Option<Error> {
    if text == "" then None
    else if ParseId(text).Malformed? then Some(NotFound(PaperKind))
    else if ParseId(text).id !in m then Some(NotFound(kind))
    else None
  }

  /** The first failing reference of an update, in the handler's order. */
  function UpdateFault(db: Db, f: Fields): Option<Error> {
    if PatchFault(f.college, db.colleges, CollegeKind).Some? then PatchFault(f.college, db.colleges, CollegeKind)
    else if PatchFault(f.course, db.courses, CourseKind).Some? then PatchFault(f.course, db.courses, CourseKind)
    else if PatchFault(f.semester, db.semesters, SemesterKind).Some? then PatchFault(f.semester, db.semesters, SemesterKind)
    else PatchFault(f.subject, db.subjects, SubjectKind)
  }

  /** One optional reference: the current value, or the checked new one. */
  function Patch<T>(text: string, m: map<Id, T>, kind: Kind, current: Id): (r: Result<Id>)
    ensures r.Err? <==> PatchFault(text, m, kind).Some?
    ensures r.Err? ==> r.error == PatchFault(text, m, kind).value
    ensures r.Ok? ==> r.value == (if text == "" then current else ParseId(text).id)
    ensures r.Ok? && text != "" ==> r.value in m
  {
    if text == "" then Ok(current)
    else match ParseId(text)
      case Malformed => Err(NotFound(PaperKind))
      case Oid(k) => if k in m then Ok(k) else Err(NotFound(kind))
  }

  /** The edited paper: each non-empty field replaces the stored one, each
      new reference checked in the handler's order, then the year parsed. */
  function Edit(db: Db, p: Paper, f: Fields): (r: Result<Paper>)
    ensures r.Ok? <==> UpdateFault(db, f).None? && (f.year == "" || Decimal.ParseInt(f.year).Some?)
    ensures r.Err? ==> r.error == (if UpdateFault(db, f).Some? then UpdateFault(db, f).value else ServerError)
    ensures r.Ok? ==>
      && r.value.title == (if f.title != "" then f.title else p.title)
      && r.value.description == (if f.description.Some? then f.description else p.description)
      && r.value.college == (if f.college != "" then ParseId(f.college).id else p.college)
      && r.value.course == (if f.course != "" then ParseId(f.course).id else p.course)
      && r.value.year == (if f.year != "" then Decimal.ParseInt(f.year).value else p.year)
      && r.value.semester == (if f.semester != "" then ParseId(f.semester).id else p.semester)
      && r.value.subject == (if f.subject != "" then ParseId(f.subject).id else p.subject)
      && r.value == p.(title := r.value.title, description := r.value.description, college := r.value.college,
                       course := r.value.course, year := r.value.year, semester := r.value.semester,
                       subject := r.value.subject)
  {
    var title := if f.title != "" then f.title else p.title;
    var description := if f.description.Some? then f.description else p.description;
    match Patch(f.college, db.colleges, CollegeKind, p.college)
    case Err(e) => Err(e)
    case Ok(college) =>
    match Patch(f.course, db.courses, CourseKind, p.course)
    case Err(e) => Err(e)
    case Ok(course) =>
    match Patch(f.semester, db.semesters, SemesterKind, p.semester)
    case Err(e) => Err(e)
    case Ok(semester) =>
    match Patch(f.subject, db.subjects, SubjectKind, p.subject)
    case Err(e) => Err(e)
    case Ok(subject) =>
    if f.year != "" && Decimal.ParseInt(f.year).None? then Err(ServerError)
    else
      var year := if f.year != "" then Decimal.ParseInt(f.year).value else p.year;
      Ok(p.(title := title, description := description, college := college, course := course,
            year := year, semester := semester, subject := subject))
  }

  /** PUT /api/papers/:id: only the uploader may edit; non-empty fields
      replace the stored ones, each new reference checked first. */
  function Update(db: Store, admin: Id, id: string, f: Fields): (r: Reply<Doc<Paper>>)
    ensures r.result.Err? ==> r.db == db
    ensures !(ParseId(id).Oid? && ParseId(id).id in db.papers) ==> r.result == Err(NotFound(PaperKind))
    ensures ParseId(id).Oid? && ParseId(id).id in db.papers && db.papers[ParseId(id).id].uploadedBy != admin ==>
      r.result == Err(Unauthorized)
    ensures ParseId(id).Oid? && ParseId(id).id in db.papers && db.papers[ParseId(id).id].uploadedBy == admin ==>
      r.result == (if UpdateFault(db, f).Some? then Err(UpdateFault(db, f).value)
                   else if f.year != "" && Decimal.ParseInt(f.year).None? then Err(ServerError)
                   else r.result)
    ensures r.result.Ok? <==>
      && ParseId(id).Oid? && ParseId(id).id in db.papers && db.papers[ParseId(id).id].uploadedBy == admin
      && UpdateFault(db, f).None? && (f.year == "" || Decimal.ParseInt(f.year).Some?)
    // success replaces the given fields and keeps the file, uploader, count and date
    ensures r.result.Ok? ==>
      var k := ParseId(id).id;
      var old_ := db.papers[k];
      var new_ := r.result.value.val;
      && ParseId(id).Oid? && k in db.papers && old_.uploadedBy == admin
      && r.result.value.id == k
      && new_.title == (if f.title != "" then f.title else old_.title)
      && new_.description == (if f.description.Some? then f.description else old_.description)
      && new_.college == (if f.college != "" then ParseId(f.college).id else old_.college)
      && new_.course == (if f.course != "" then ParseId(f.course).id else old_.course)
      && new_.year == (if f.year != "" then Decimal.ParseInt(f.year).value else old_.year)
      && new_.semester == (if f.semester != "" then ParseId(f.semester).id else old_.semester)
      && new_.subject == (if f.subject != "" then ParseId(f.subject).id else old_.subject)
      && new_ == old_.(title := new_.title, description := new_.description, college := new_.college,
                       course := new_.course, year := new_.year, semester := new_.semester,
                       subject := new_.subject)
      && r.db == db.(papers := db.papers[k := new_])
  {
    match ParseId(id)
    case Malformed => Reply(db, Err(NotFound(PaperKind)))
    case Oid(k) =>
      if k !in db.papers then Reply(db, Err(NotFound(PaperKind)))
      else
        var p := db.papers[k];
        if p.uploadedBy != admin then Reply(db, Err(Unauthorized))
        else match Edit(db, p, f)
          case Err(e) => Reply(db, Err(e))
          case Ok(q) =>
            PutOldPaperAllocated(db, k, q);
            Reply(db.(papers := db.papers[k := q]), Ok(Doc(k, q)))
  }

  /** DELETE /api/papers/:id: only the uploader may delete; the file goes too. */
  function Delete(db: Store, admin: Id, id: string): (r: Reply<string>)
    ensures r.result.Err? ==> r.db == db
    ensures !(ParseId(id).Oid? && ParseId(id).id in db.papers) ==> r.result == Err(NotFound(PaperKind))
    ensures ParseId(id).Oid? && ParseId(id).id in db.papers ==>
      (r.result.Ok? <==> db.papers[ParseId(id).id].uploadedBy == admin)
    ensures r.result.Err? && ParseId(id).Oid? && ParseId(id).id in db.papers ==> r.result == Err(Unauthorized)
    ensures r.result.Ok? ==>
      var k := ParseId(id).id;
      && r.result.value == "Paper removed"
      && r.db == db.(papers := db.papers - {k}, files := db.files - {db.papers[k].fileUrl})
      && |r.db.papers| == |db.papers| - 1
  {
    match ParseId(id)
    case Malformed => Reply(db, Err(NotFound(PaperKind)))
    case Oid(k) =>
      if k !in db.papers then Reply(db, Err(NotFound(PaperKind)))
      else if db.papers[k].uploadedBy != admin then Reply(db, Err(Unauthorized))
      else Reply(db.(papers := db.papers - {k}, files := db.files - {db.papers[k].fileUrl}), Ok("Paper removed"))
  }

  /** What `res.download` sends: the stored path and the name it is offered under. */
  datatype Attachment = Attachment(path: string, fileName: string)

  /** GET /api/papers/download/:id: the count goes up before the file is
      looked for, so a request for a vanished file is still counted. */
  function Download(db: Store, id: string): (r: Reply<Attachment>)
    ensures !(ParseId(id).Oid? && ParseId(id).id in db.papers) ==> r == Reply(db, Err(NotFound(PaperKind)))
    ensures ParseId(id).Oid? && ParseId(id).id in db.papers ==>
      var k := ParseId(id).id;
      var p := db.papers[k];
      && r.db == db.(papers := db.papers[k := p.(downloadCount := p.downloadCount + 1)])
      && (r.result.Ok? <==> p.fileUrl in db.files)
      && (r.result.Ok? ==> r.result.value == Attachment(p.fileUrl, p.fileName))
      && (r.result.Err? ==> r.result.error == NotFound(FileKind))
  {
    match ParseId(id)
    case Malformed => Reply(db, Err(NotFound(PaperKind)))
    case Oid(k) =>
      if k !in db.papers then Reply(db, Err(NotFound(PaperKind)))
      else
        var p := db.papers[k];
        var counted := db.(papers := db.papers[k := p.(downloadCount := p.downloadCount + 1)]);
        if p.fileUrl !in db.files then Reply(counted, Err(NotFound(FileKind)))
        else Reply(counted, Ok(Attachment(p.fileUrl, p.fileName)))
  }

  /** After a delete the paper is gone. */
  lemma DeleteThenGet(db: Store, admin: Id, id: string)
    requires Delete(db, admin, id).result.Ok?
    ensures Get(Delete(db, admin, id).db, id) == Err(NotFound(PaperKind))
  {
  }

  /** A download is counted even when the file has vanished from disk. */
  lemma DownloadCountsMissingFile(db: Store, id: string)
    requires ParseId(id).Oid? && ParseId(id).id in db.papers
    requires db.papers[ParseId(id).id].fileUrl !in db.files
    ensures Download(db, id).result == Err(NotFound(FileKind))
    ensures Download(db, id).db.papers[ParseId(id).id].downloadCount == db.papers[ParseId(id).id].downloadCount + 1
  {
  }

  /** An edit keeps the catalog invariant: the stored title is replaced
      only by a non-empty one, and the file fields are never touched. */
  lemma UpdateKeepsValid(db: Store, admin: Id, id: string, f: Fields)
    requires Valid(db)
    ensures Valid(Update(db, admin, id, f).db)
  {
    var r := Update(db, admin, id, f);
    if r.result.Ok? {
      PutPaperKeepsValid(db, r.result.value.id, r.result.value.val, db.files, db.clock);
    }
  }

  /** A delete keeps the catalog invariant. */
  lemma DeleteKeepsValid(db: Store, admin: Id, id: string)
    requires Valid(db)
    ensures Valid(Delete(db, admin, id).db)
  {
  }

  /** Counting a download keeps the catalog invariant. */
  lemma DownloadKeepsValid(db: Store, id: string)
    requires Valid(db)
    ensures Valid(Download(db, id).db)
  {
    if ParseId(id).Oid? && ParseId(id).id in db.papers {
      var k := ParseId(id).id;
      var p := db.papers[k];
      PutPaperKeepsValid(db, k, p.(downloadCount := p.downloadCount + 1), db.files, db.clock);
    }
  }
}
