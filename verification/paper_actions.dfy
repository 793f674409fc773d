/** `getFilteredPapers` of client/src/actions/paperActions.js: which query
    keys it sends, and which actions it dispatches for the server's answer. */
module PaperActions {
  import opened Schema
  import opened Actions
  import PaperRoutes
  import Slices
  import Reducers

  /** The filters object the caller passes; keys other than these five are never read. */
  datatype Filters = Filters(college: string, course: string, year: string, semester: string, subject: string,
                             examType: string)

  /** The keys the server's filter endpoint reads. */
  datatype Key = CollegeKey | CourseKey | YearKey | SemesterKey | SubjectKey

  function KeyName(k: Key): string {
    match k
    case CollegeKey => "college"
    case CourseKey => "course"
    case YearKey => "year"
    case SemesterKey => "semester"
    case SubjectKey => "subject"
  }

  /** The position at which a key is appended. */
  function Rank(k: Key): nat {
    match k
    case CollegeKey => 0
    case CourseKey => 1
    case YearKey => 2
    case SemesterKey => 3
    case SubjectKey => 4
  }

  /** The filter a key carries. */
  function Value(f: Filters, k: Key): string {
    match k
    case CollegeKey => f.college
    case CourseKey => f.course
    case YearKey => f.year
    case SemesterKey => f.semester
    case SubjectKey => f.subject
  }

  function Param(k: Key, value: string): seq<(Key, string)> {
    if value != "" then [(k, value)] else []
  }

  /** The keys appear in strictly increasing rank. */
  predicate Ranked(xs: seq<(Key, string)>) {
    forall i, j :: 0 <= i < j < |xs| ==> Rank(xs[i].0) < Rank(xs[j].0)
  }

  /** Every key in `xs` ranks above `k`. */
  predicate Above(k: Key, xs: seq<(Key, string)>) {
    forall i :: 0 <= i < |xs| ==> Rank(k) < Rank(xs[i].0)
  }

  /** Every pair carries its key's filter, which is truthy. */
  predicate Carries(f: Filters, xs: seq<(Key, string)>) {
    forall i :: 0 <= i < |xs| ==> xs[i].1 == Value(f, xs[i].0) && xs[i].1 != ""
  }

  /** The `URLSearchParams` built from the filters: one pair per truthy
      filter, in the fixed order college, course, year, semester, subject. */
  function QueryPairs(f: Filters): (r: seq<(Key, string)>)
    ensures Carries(f, r)
    ensures Ranked(r)
  {
    var t4 := Param(SubjectKey, Value(f, SubjectKey));
    Prepend(f, SubjectKey, []);
    var t3 := Param(SemesterKey, Value(f, SemesterKey)) + t4;
    Prepend(f, SemesterKey, t4);
    var t2 := Param(YearKey, Value(f, YearKey)) + t3;
    Prepend(f, YearKey, t3);
    var t1 := Param(CourseKey, Value(f, CourseKey)) + t2;
    Prepend(f, CourseKey, t2);
    Prepend(f, CollegeKey, t1);
    Param(CollegeKey, Value(f, CollegeKey)) + t1
  }

  /** Every truthy filter is sent, under its own key. */
  lemma QueryPairsCarryFilters(f: Filters)
    ensures forall k :: (k, Value(f, k)) in QueryPairs(f) <==> Value(f, k) != ""
  {
  }

  /** `examType` is never among the keys sent. */
  lemma QueryPairsDropExamType(f: Filters)
    ensures forall i :: 0 <= i < |QueryPairs(f)| ==> KeyName(QueryPairs(f)[i].0) != "examType"
  {
  }

  /** Putting a key in front of higher-ranked pairs keeps them in rank order,
      and every key ranked below it is below the whole result. */
  lemma Prepend(f: Filters, k: Key, rest: seq<(Key, string)>)
    requires Above(k, rest) && Ranked(rest) && Carries(f, rest)
    ensures Ranked(Param(k, Value(f, k)) + rest) && Carries(f, Param(k, Value(f, k)) + rest)
    ensures forall k' :: Rank(k') < Rank(k) ==> Above(k', Param(k, Value(f, k)) + rest)
  {
  }

  /** Express's `req.query[key]`: the value sent under the key, or absent (""). */
  function Lookup(pairs: seq<(Key, string)>, k: Key): (v: string)
    ensures v != "" ==> (k, v) in pairs
  {
    if pairs == [] then ""
    else if pairs[0].0 == k then pairs[0].1
    else Lookup(pairs[1..], k)
  }

  lemma LookupPair(pairs: seq<(Key, string)>, k: Key, v: string)
    requires (k, v) in pairs
    requires forall i, j :: 0 <= i < j < |pairs| ==> Rank(pairs[i].0) < Rank(pairs[j].0)
    ensures Lookup(pairs, k) == v
  {
    if pairs[0].0 != k {
      LookupPair(pairs[1..], k, v);
    }
  }

  lemma LookupMissing(pairs: seq<(Key, string)>, k: Key)
    requires forall i :: 0 <= i < |pairs| ==> pairs[i].0 != k
    ensures Lookup(pairs, k) == ""
  {
  }

  /** What the filter endpoint reads from the query string. */
  function Received(pairs: seq<(Key, string)>): PaperRoutes.Query {
    PaperRoutes.Query(Lookup(pairs, CollegeKey), Lookup(pairs, CourseKey), Lookup(pairs, YearKey),
                      Lookup(pairs, SemesterKey), Lookup(pairs, SubjectKey))
  }

  lemma ReadBack(pairs: seq<(Key, string)>, k: Key, v: string)
    requires forall i, j :: 0 <= i < j < |pairs| ==> Rank(pairs[i].0) < Rank(pairs[j].0)
    requires forall i :: 0 <= i < |pairs| ==> pairs[i].1 != ""
    requires forall i :: 0 <= i < |pairs| && pairs[i].0 == k ==> pairs[i].1 == v
    requires (k, v) in pairs <==> v != ""
    ensures Lookup(pairs, k) == v
  {
    if v != "" {
      LookupPair(pairs, k, v);
    } else {
      LookupMissing(pairs, k);
    }
  }

  /** The server reads back exactly the five filters the client was given;
      `examType` is dropped on the way. */
  lemma ServerReceivesFilters(f: Filters)
    ensures Received(QueryPairs(f)) == PaperRoutes.Query(f.college, f.course, f.year, f.semester, f.subject)
  {
    var r := QueryPairs(f);
    QueryPairsCarryFilters(f);
    forall k: Key
      ensures Lookup(r, k) == Value(f, k)
    {
      assert (k, Value(f, k)) in r <==> Value(f, k) != "";
      ReadBack(r, k, Value(f, k));
    }
    assert Lookup(r, CollegeKey) == f.college;
    assert Lookup(r, CourseKey) == f.course;
    assert Lookup(r, YearKey) == f.year;
    assert Lookup(r, SemesterKey) == f.semester;
    assert Lookup(r, SubjectKey) == f.subject;
  }

  function StatusText(status: nat): string {
    match status
    case 400 => "Bad Request"
    case 401 => "Unauthorized"
    case 404 => "Not Found"
    case _ => "Internal Server Error"
  }

  /** The action dispatched for the server's answer: the list, or the error
      with the response's status. */
  function Answer(res: Result<seq<Doc<Paper>>>): (a: Action)
    ensures a.GetFilteredPapers? <==> res.Ok?
    ensures a.GetFilteredPapers? ==> a.papers == res.value
    ensures a.PaperError? <==> res.Err?
    ensures res == Err(ServerError) ==> a == PaperError(HttpError("Internal Server Error", 500))
  {
    match res
    case Ok(papers) => Actions.GetFilteredPapers(papers)
    case Err(e) => PaperError(HttpError(StatusText(Status(e)), Status(e)))
  }

  /** The dispatches of `getFilteredPapers` against a store `db`: SET_LOADING,
      then the list or the error. */
  function FilterDispatches(db: Store, f: Filters): (r: seq<Action>)
    ensures |r| == 2 && r[0] == SetLoading
    ensures var res := PaperRoutes.Filter(db, PaperRoutes.Query(f.college, f.course, f.year, f.semester, f.subject));
      && (r[1].GetFilteredPapers? || r[1].PaperError?)
      && (r[1].GetFilteredPapers? <==> res.Ok?)
      && (r[1].GetFilteredPapers? ==> r[1].papers == res.value)
      && (r[1].PaperError? ==> r[1].err == HttpError("Internal Server Error", 500))
  {
    var q := Received(QueryPairs(f));
    ServerReceivesFilters(f);
    [SetLoading, Answer(PaperRoutes.Filter(db, q))]
  }

  function Run(root: Reducers.Root, actions: seq<Action>): Reducers.Root
    decreases |actions|
  {
    if actions == [] then root else Run(Reducers.RootReducer(root, actions[0]), actions[1..])
  }

  /** Two dispatches are two reducer steps. */
  lemma RunPair(root: Reducers.Root, acts: seq<Action>)
    requires |acts| == 2
    ensures Run(root, acts) == Reducers.RootReducer(Reducers.RootReducer(root, acts[0]), acts[1])
  {
    var r1 := Reducers.RootReducer(root, acts[0]);
    var r2 := Reducers.RootReducer(r1, acts[1]);
    assert Run(root, acts) == Run(r1, acts[1..]);
    assert Run(r1, acts[1..]) == Run(r2, acts[1..][1..]);
    assert acts[1..][1..] == [];
  }

  /** After the request settles the paper slice holds the server's answer and
      is no longer loading, while every other slice is left loading, because
      SET_LOADING raised them all and nothing lowers them. */
  lemma FilteredPapersSettle(root: Reducers.Root, db: Store, f: Filters)
    ensures var q := PaperRoutes.Query(f.college, f.course, f.year, f.semester, f.subject);
      var r := Run(root, FilterDispatches(db, f));
      && !r.paper.loading
      && (PaperRoutes.Filter(db, q).Ok? ==> r.paper.items == PaperRoutes.Filter(db, q).value)
      && (PaperRoutes.Filter(db, q).Err? ==> r.paper.items == root.paper.items && r.paper.error.Some?)
      && r.college.loading && r.course.loading && r.semester.loading && r.subject.loading
      && r.college.items == root.college.items && r.course.items == root.course.items
  {
    var acts := FilterDispatches(db, f);
    RunPair(root, acts);
    var r1 := Reducers.RootReducer(root, SetLoading);
    Reducers.SetLoadingReachesEverySlice(root);
    Reducers.PaperActionOnly(r1, acts[1]);
  }
}