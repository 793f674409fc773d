/** The document store behind the REST API: one collection per Mongoose
    model (models/College.js, Course.js, Semester.js, Subject.js, Paper.js),
    the upload directory, and the errors a route handler can answer with. */
module Schema {
  import opened Wrappers
  import Decimal
  import Seqs
  import Sorting

  /** A document identifier. ObjectIds are opaque to the handlers; the model
      hands them out from the store's clock and writes them in decimal. */
  type Id = nat

  /** An identifier as it arrives in a URL or a request body: either text
      that casts to an ObjectId, or text the cast rejects (a CastError whose
      `kind` is 'ObjectId'). */
  datatype IdText = Malformed | Oid(id: Id)

  function IdString(id: Id): string {
    Decimal.NatToString(id)
  }

  function ParseId(s: string): (r: IdText)
    // the cast succeeds exactly on a non-empty run of digits
    ensures r.Oid? <==> s != "" && Decimal.AllDigits(s)
  {
    match Decimal.ParseNat(s)
    case Some(n) => Oid(n)
    case None => Malformed
  }

  /** The text the client holds for an `_id` casts back to that id. */
  lemma ParseIdString(id: Id)
    ensures ParseId(IdString(id)) == Oid(id)
  {
    Decimal.ParseNatToString(id);
  }

  // ---------------------------------------------------------------- records

  /** models/College.js; `location` is the one optional field. */
  datatype College = College(name: string, code: string, location: Option<string>, createdAt: nat) {
    /** Mongoose's `required` rejects an empty string. */
    predicate WellFormed() { name != "" && code != "" }
  }

  /** models/Course.js; `duration` is in years. */
  datatype Course = Course(name: string, code: string, college: Id, duration: int, createdAt: nat) {
    predicate WellFormed() { name != "" && code != "" }
  }

  /** models/Semester.js */
  datatype Semester = Semester(name: string, number: int, course: Id, year: int, createdAt: nat) {
    predicate WellFormed() { name != "" }
  }

  /** models/Subject.js; `course` duplicates the semester's course, `credits` is optional. */
  datatype Subject = Subject(name: string, code: string, semester: Id, course: Id, credits: Option<int>, createdAt: nat) {
    predicate WellFormed() { name != "" && code != "" }
  }

  /** models/Paper.js. The schema has no exam-type field, so none is stored. */
  datatype Paper = Paper(
    title: string,
    description: Option<string>,
    college: Id,
    course: Id,
    year: int,
    semester: Id,
    subject: Id,
    fileUrl: string,
    fileName: string,
    fileSize: nat,
    uploadedBy: Id,
    downloadCount: nat,
    createdAt: nat)
  {
    predicate WellFormed() { title != "" && fileUrl != "" && fileName != "" }
  }

  /** A document as the API returns it: its `_id` and its fields. */
  datatype Doc<T> = Doc(id: Id, val: T)

  // ------------------------------------------------------------------ store

  /** The five collections, the set of paths present in the upload
      directory, and the clock from which ids and `createdAt` stamps are
      drawn (`Date.now` and ObjectId generation, made monotonic). */
  datatype Db = Db(
    colleges: map<Id, College>,
    courses: map<Id, Course>,
    semesters: map<Id, Semester>,
    subjects: map<Id, Subject>,
    papers: map<Id, Paper>,
    files: set<string>,
    clock: nat)

  /** Every id and every paper's `createdAt` was drawn before the clock's current value. */
  predicate Allocated(db: Db) {
    && (forall k :: k in db.colleges ==> k < db.clock)
    && (forall k :: k in db.courses ==> k < db.clock)
    && (forall k :: k in db.semesters ==> k < db.clock)
    && (forall k :: k in db.subjects ==> k < db.clock)
    && (forall k :: k in db.papers ==> k < db.clock && db.papers[k].createdAt < db.clock)
  }

  type Store = db: Db | Allocated(db) witness Db(map[], map[], map[], map[], map[], {}, 0)

  /** The unique index on College.name and the one on College.code. */
  predicate CollegesUnique(m: map<Id, College>) {
    forall a, b :: a in m && b in m && a != b ==> m[a].name != m[b].name && m[a].code != m[b].code
  }

  /** The compound unique index { code: 1, college: 1 } of models/Course.js. */
  predicate CoursesUnique(m: map<Id, Course>) {
    forall a, b :: a in m && b in m && a != b ==> m[a].code != m[b].code || m[a].college != m[b].college
  }

  /** The compound unique index { number: 1, course: 1 } of models/Semester.js. */
  predicate SemestersUnique(m: map<Id, Semester>) {
    forall a, b :: a in m && b in m && a != b ==> m[a].number != m[b].number || m[a].course != m[b].course
  }

  /** The compound unique index { code: 1, semester: 1 } of models/Subject.js. */
  predicate SubjectsUnique(m: map<Id, Subject>) {
    forall a, b :: a in m && b in m && a != b ==> m[a].code != m[b].code || m[a].semester != m[b].semester
  }

  predicate AllWellFormed(db: Db) {
    && (forall k :: k in db.colleges ==> db.colleges[k].WellFormed())
    && (forall k :: k in db.courses ==> db.courses[k].WellFormed())
    && (forall k :: k in db.semesters ==> db.semesters[k].WellFormed())
    && (forall k :: k in db.subjects ==> db.subjects[k].WellFormed())
    && (forall k :: k in db.papers ==> db.papers[k].WellFormed())
  }

  /** The catalog invariant: every unique index holds and every document
      has its required fields. Referential integrity is NOT part of it:
      deleting a parent leaves its children in place. */
  predicate Valid(db: Db) {
    && CollegesUnique(db.colleges)
    && CoursesUnique(db.courses)
    && SemestersUnique(db.semesters)
    && SubjectsUnique(db.subjects)
    && AllWellFormed(db)
  }

  /** The upload directory is not part of the invariant on ids and dates. */
  lemma WithFilesAllocated(db: Store, files: set<string>)
    ensures Allocated(db.(files := files))
  {
  }

  /** A paper created now, stored under the next id, keeps every id and
      every date below the advanced clock. */
  lemma PutNewPaperAllocated(db: Store, p: Paper, files: set<string>)
    requires p.createdAt == db.clock
    ensures Allocated(db.(papers := db.papers[db.clock := p], files := files, clock := db.clock + 1))
  {
  }

  /** Storing a well-formed college, new or in place of the one under `k`,
      whose name and code no other college has, keeps the invariant. */
  lemma PutCollegeKeepsValid(db: Db, k: Id, c: College, clock: nat)
    requires Valid(db) && c.WellFormed()
    requires forall j :: j in db.colleges && j != k ==> db.colleges[j].name != c.name && db.colleges[j].code != c.code
    ensures Valid(db.(colleges := db.colleges[k := c], clock := clock))
  {
  }

  /** The same for a course whose (code, college) pair is free. */
  lemma PutCourseKeepsValid(db: Db, k: Id, c: Course, clock: nat)
    requires Valid(db) && c.WellFormed()
    requires forall j :: j in db.courses && j != k ==> db.courses[j].code != c.code || db.courses[j].college != c.college
    ensures Valid(db.(courses := db.courses[k := c], clock := clock))
  {
  }

  /** The same for a semester whose (number, course) pair is free. */
  lemma PutSemesterKeepsValid(db: Db, k: Id, s: Semester, clock: nat)
    requires Valid(db) && s.WellFormed()
    requires forall j :: j in db.semesters && j != k ==> db.semesters[j].number != s.number || db.semesters[j].course != s.course
    ensures Valid(db.(semesters := db.semesters[k := s], clock := clock))
  {
  }

  /** The same for a subject whose (code, semester) pair is free. */
  lemma PutSubjectKeepsValid(db: Db, k: Id, s: Subject, clock: nat)
    requires Valid(db) && s.WellFormed()
    requires forall j :: j in db.subjects && j != k ==> db.subjects[j].code != s.code || db.subjects[j].semester != s.semester
    ensures Valid(db.(subjects := db.subjects[k := s], clock := clock))
  {
  }

  /** Rewriting a stored paper without touching its date keeps every id and
      every date below the clock. */
  lemma PutOldPaperAllocated(db: Store, k: Id, p: Paper)
    requires k in db.papers && p.createdAt == db.papers[k].createdAt
    ensures Allocated(db.(papers := db.papers[k := p]))
  {
  }

  /** Papers have no unique index: storing a well-formed one, under any key,
      and changing the upload directory or the clock keeps the invariant. */
  lemma PutPaperKeepsValid(db: Db, k: Id, p: Paper, files: set<string>, clock: nat)
    requires Valid(db) && p.WellFormed()
    ensures Valid(db.(papers := db.papers[k := p], files := files, clock := clock))
  {
  }

  // ----------------------------------------------------------------- errors

  datatype Kind = CollegeKind | CourseKind | SemesterKind | SubjectKind | PaperKind | FileKind

  datatype UploadFault = NotPdf | TooLarge

  /** The answers a handler gives instead of a document. */
  datatype Error =
    | Invalid(fields: seq<string>)   // 400 { errors: [...] } from express-validator
    | MissingFields                  // 400 'Please provide all required fields'
    | Conflict                       // 400 '... already exists'
    | NotFound(kind: Kind)           // 404 '<Kind> not found'
    | Unauthorized                   // 401 'Not authorized to ... this paper'
    | UploadRejected(fault: UploadFault) // multer refused the file before the handler ran
    | ServerError                    // 500 'Server Error'

  function Status(e: Error): nat {
    match e
    case Invalid(_) => 400
    case MissingFields => 400
    case Conflict => 400
    case NotFound(_) => 404
    case Unauthorized => 401
    case UploadRejected(_) => 500
    case ServerError => 500
  }

  datatype Result<T> = Ok(value: T) | Err(error: Error)

  /** A handler's effect: the store after the request, and the answer. */
  datatype Reply<T> = Reply(db: Store, result: Result<T>)

  /** express-validator: the names of the checks that failed, in declaration order. */
  function FailedChecks(checks: seq<(string, bool)>): (r: seq<string>)
    ensures r == [] <==> forall i :: 0 <= i < |checks| ==> checks[i].1
    ensures |r| <= |checks|
  {
    if checks == [] then []
    else (if checks[0].1 then [] else [checks[0].0]) + FailedChecks(checks[1..])
  }

  // --------------------------------------------------------------- listings

  predicate DistinctIds<T>(r: seq<Doc<T>>) {
    forall i, j :: 0 <= i < j < |r| ==> r[i].id != r[j].id
  }

  /** Ids strictly increase along `r`. */
  predicate IdsIncrease<T>(r: seq<Doc<T>>) {
    forall i, j :: 0 <= i < j < |r| ==> r[i].id < r[j].id
  }

  /** The documents of a collection with id below `n`, in id order. */
  function Docs<T(!new)>(m: map<Id, T>, n: nat): (r: seq<Doc<T>>)
    ensures forall d :: d in r <==> d.id < n && d.id in m && m[d.id] == d.val
    ensures IdsIncrease(r)
  {
    if n == 0 then []
    else Docs(m, n - 1) + (if n - 1 in m then [Doc(n - 1, m[n - 1])] else [])
  }

  /** A sequence without repeated ids holds each document once. */
  lemma {:induction false} CountAtMostOne<T>(s: seq<Doc<T>>, x: Doc<T>)
    requires DistinctIds(s)
    ensures multiset(s)[x] <= 1
  {
    if s != [] {
      assert s == [s[0]] + s[1..];
      assert DistinctIds(s[1..]) by {
        forall i, j | 0 <= i < j < |s[1..]|
          ensures s[1..][i].id != s[1..][j].id
        {
          assert s[1..][i] == s[i + 1] && s[1..][j] == s[j + 1];
        }
      }
      CountAtMostOne(s[1..], x);
      if s[0] == x {
        forall j | 0 <= j < |s[1..]|
          ensures s[1..][j] != x
        {
          assert s[1..][j] == s[j + 1];
        }
        assert x !in s[1..];
        assert multiset(s[1..])[x] == 0;
      }
    }
  }

  /** Reordering a sequence without repeated ids repeats none. */
  lemma PermutationKeepsIdsDistinct<T>(r: seq<Doc<T>>, s: seq<Doc<T>>)
    requires multiset(r) == multiset(s)
    requires DistinctIds(s)
    ensures DistinctIds(r)
  {
    forall i, j | 0 <= i < j < |r|
      ensures r[i].id != r[j].id
    {
      if r[i].id == r[j].id {
        assert r[i] in multiset(s) && r[j] in multiset(s);
        var p :| 0 <= p < |s| && s[p] == r[i];
        var q :| 0 <= q < |s| && s[q] == r[j];
        assert p == q;
        var x := r[i];
        assert r == r[..j] + r[j..];
        assert x in r[..j] && x in r[j..];
        assert multiset(r)[x] == multiset(r[..j])[x] + multiset(r[j..])[x];
        CountAtMostOne(s, x);
        assert false;
      }
    }
  }

  /** `Model.find(query).sort(order)`: every document of the collection that
      satisfies `keep`, each once, arranged by `le`. */
  function Listing<T(==,!new)>(m: map<Id, T>, clock: nat, keep: T -> bool, le: (Doc<T>, Doc<T>) -> bool): (r: seq<Doc<T>>)
    requires forall k :: k in m ==> k < clock
    requires Sorting.TotalPreorder(le)
    ensures Sorting.Sorted(r, le)
    ensures forall d :: d in r <==> d.id in m && m[d.id] == d.val && keep(d.val)
    ensures DistinctIds(r)
  {
    var all := Docs(m, clock);
    var kept := Seqs.Filter(all, (d: Doc<T>) => keep(d.val));
    FilteredIdsIncrease(all, (d: Doc<T>) => keep(d.val));
    var r := Sorting.SortBy(kept, le);
    Sorting.SameMembers(r, kept);
    PermutationKeepsIdsDistinct(r, kept);
    r
  }

  /** Filtering an id-increasing sequence leaves it id-increasing. */
  lemma {:induction false} FilteredIdsIncrease<T(!new)>(s: seq<Doc<T>>, p: Doc<T> -> bool)
    requires IdsIncrease(s)
    ensures IdsIncrease(Seqs.Filter(s, p))
  {
    if s != [] {
      FilteredIdsIncrease(s[1..], p);
      var rest := Seqs.Filter(s[1..], p);
      if p(s[0]) {
        forall k | 0 <= k < |rest|
          ensures s[0].id < rest[k].id
        {
          assert rest[k] in s[1..];
        }
        PrependIncreases(s[0], rest);
        assert Seqs.Filter(s, p) == [s[0]] + rest;
      }
    }
  }

  /** A document below every id of an id-increasing sequence can go in front. */
  lemma PrependIncreases<T>(x: Doc<T>, rest: seq<Doc<T>>)
    requires IdsIncrease(rest)
    requires forall k :: 0 <= k < |rest| ==> x.id < rest[k].id
    ensures IdsIncrease([x] + rest)
  {
  }

  /** Two queries that accept the same documents list them identically. */
  lemma ListingCongruent<T(!new)>(m: map<Id, T>, clock: nat, keep: T -> bool, keep': T -> bool,
                                  le: (Doc<T>, Doc<T>) -> bool)
    requires forall k :: k in m ==> k < clock
    requires Sorting.TotalPreorder(le)
    requires forall k :: k in m ==> keep(m[k]) == keep'(m[k])
    ensures Listing(m, clock, keep, le) == Listing(m, clock, keep', le)
  {
    var all := Docs(m, clock);
    forall i | 0 <= i < |all|
      ensures keep(all[i].val) == keep'(all[i].val)
    {
      assert all[i] in all;
    }
    Seqs.FilterCongruent(all, (d: Doc<T>) => keep(d.val), (d: Doc<T>) => keep'(d.val));
  }
}
