/** client/src/components/papers/BrowsePapers.js: the public browsing page.
    It loads every paper and filters them in the browser by a title search
    and five select boxes, whose course → semester → subject cascade is
    kept by two effects. */
module BrowsePapers {
  import opened Schema
  import Seqs
  import Text
  import Decimal
  import Choices
  import PaperRoutes

  /** The five select boxes; "" is the "All …" option. */
  datatype BrowseFilters = BrowseFilters(course: string, semester: string, subject: string, year: string, examType: string)

  const NoFilters := BrowseFilters("", "", "", "", "")

  /** One paper passes the search and the filters. Papers carry no exam
      type, so `paper.examType === filters.examType` never holds. */
  predicate Shows(p: Paper, search: string, f: BrowseFilters) {
    && Text.Contains(Text.Lower(p.title), Text.Lower(search))
    && (f.course == "" || IdString(p.course) == f.course)
    && (f.semester == "" || IdString(p.semester) == f.semester)
    && (f.subject == "" || IdString(p.subject) == f.subject)
    && (f.year == "" || Decimal.IntToString(p.year) == f.year)
    && f.examType == ""
  }

  /** `filteredPapers`: the loaded papers that pass, in the order loaded. */
  function FilteredPapers(papers: seq<Doc<Paper>>, search: string, f: BrowseFilters): (r: seq<Doc<Paper>>)
    ensures forall d :: d in r <==> d in papers && Shows(d.val, search, f)
    ensures Seqs.IsSubsequence(r, papers)
    ensures forall d :: multiset(r)[d] == if Shows(d.val, search, f) then multiset(papers)[d] else 0
  {
    Seqs.Filter(papers, (d: Doc<Paper>) => Shows(d.val, search, f))
  }

  /** With no search and no filter every loaded paper is shown, in order. */
  lemma EmptyFiltersShowAll(papers: seq<Doc<Paper>>)
    ensures FilteredPapers(papers, "", NoFilters) == papers
  {
    forall i | 0 <= i < |papers|
      ensures Shows(papers[i].val, "", NoFilters)
    {
      Text.ContainsEmpty(Text.Lower(papers[i].val.title));
    }
    Seqs.FilterKeepsAll(papers, (d: Doc<Paper>) => Shows(d.val, "", NoFilters));
  }

  /** Choosing any exam type empties the list. */
  lemma ExamTypeEmptiesList(papers: seq<Doc<Paper>>, search: string, f: BrowseFilters)
    requires f.examType != ""
    ensures FilteredPapers(papers, search, f) == []
  {
    Seqs.FilterDropsAll(papers, (d: Doc<Paper>) => Shows(d.val, search, f));
  }

  /** A select value is "" or the text of an id. */
  ghost predicate IdOption(s: string) {
    s == "" || exists k: Id :: IdString(k) == s
  }

  /** A year value is "" or the numeral of a year. */
  ghost predicate YearOption(s: string) {
    s == "" || exists n: int :: Decimal.IntToString(n) == s
  }

  /** With an empty search, the browser's filtering selects exactly the papers
      that GET /api/papers/filter would return for the same choices. */
  lemma BrowseAgreesWithServer(p: Paper, f: BrowseFilters)
    requires IdOption(f.course) && IdOption(f.semester) && IdOption(f.subject) && YearOption(f.year)
    requires f.examType == ""
    ensures var q := PaperRoutes.Query("", f.course, f.year, f.semester, f.subject);
      PaperRoutes.Castable(q) && (Shows(p, "", f) <==> PaperRoutes.Selects(q, p))
  {
    Text.ContainsEmpty(Text.Lower(p.title));
    if f.course != "" { IdTextAgrees(p.course, f.course); }
    if f.semester != "" { IdTextAgrees(p.semester, f.semester); }
    if f.subject != "" { IdTextAgrees(p.subject, f.subject); }
    if f.year != "" {
      var n :| Decimal.IntToString(n) == f.year;
      Decimal.ParseIntToString(n);
      Decimal.ParseIntToString(p.year);
    }
  }

  /** Comparing id texts is comparing the ids they cast to. */
  lemma IdTextAgrees(k: Id, s: string)
    requires s != "" && IdOption(s)
    ensures ParseId(s).Oid?
    ensures IdString(k) == s <==> k == ParseId(s).id
  {
    var j :| IdString(j) == s;
    ParseIdString(j);
    ParseIdString(k);
  }

  // ---------------------------------------------------- the select cascade

  /** The page's state once its effects have run: the search text, the
      filters and the option lists of the two dependent selects. */
  datatype Browse = Browse(search: string, filters: BrowseFilters,
                           semesterOptions: seq<Doc<Semester>>, subjectOptions: seq<Doc<Subject>>)

  /** The dependent option lists are those of the chosen course and semester,
      and a subject is only chosen under a chosen semester. */
  predicate Coherent(st: Browse, semesters: seq<Doc<Semester>>, subjects: seq<Doc<Subject>>) {
    && st.semesterOptions == Choices.SemestersOf(semesters, st.filters.course)
    && st.subjectOptions == Choices.SubjectsOf(subjects, st.filters.semester)
    && (st.filters.course == "" ==> st.filters.semester == "")
    && (st.filters.semester == "" ==> st.filters.subject == "")
  }

  datatype Select = CourseSelect | SemesterSelect | SubjectSelect | YearSelect | ExamTypeSelect

  /** The page after the semesters and subjects have (re)loaded: both effects
      run, clearing the semester and subject choices. */
  function Loaded(st: Browse, semesters: seq<Doc<Semester>>, subjects: seq<Doc<Subject>>): (r: Browse)
    ensures Coherent(r, semesters, subjects)
    ensures r.filters == st.filters.(semester := "", subject := "") && r.search == st.search
  {
    Browse(st.search, st.filters.(semester := "", subject := ""),
           Choices.SemestersOf(semesters, st.filters.course), [])
  }

  /** `handleFilterChange` followed by the effects it triggers: a new course
      clears semester and subject, a new semester clears the subject. */
  function ChangeFilter(st: Browse, sel: Select, value: string,
                        semesters: seq<Doc<Semester>>, subjects: seq<Doc<Subject>>): (r: Browse)
    requires Coherent(st, semesters, subjects)
    requires sel == SemesterSelect ==> st.filters.course != ""
    requires sel == SubjectSelect ==> st.filters.semester != ""
    ensures Coherent(r, semesters, subjects)
    ensures r.search == st.search
    ensures sel == CourseSelect ==> r.filters == st.filters.(course := value, semester := "", subject := "")
    ensures sel == SemesterSelect ==> r.filters == st.filters.(semester := value, subject := "")
    ensures sel == SubjectSelect ==> r.filters == st.filters.(subject := value)
    ensures sel == YearSelect ==> r.filters == st.filters.(year := value)
    ensures sel == ExamTypeSelect ==> r.filters == st.filters.(examType := value)
  {
    var f := st.filters;
    match sel
    case CourseSelect =>
      Browse(st.search, f.(course := value, semester := "", subject := ""), Choices.SemestersOf(semesters, value), [])
    case SemesterSelect =>
      if value == "" then Browse(st.search, f.(semester := "", subject := ""), st.semesterOptions, [])
      else Browse(st.search, f.(semester := value, subject := ""), st.semesterOptions, Choices.SubjectsOf(subjects, value))
    case SubjectSelect => st.(filters := f.(subject := value))
    case YearSelect => st.(filters := f.(year := value))
    case ExamTypeSelect => st.(filters := f.(examType := value))
  }

  /** `resetFilters`: every filter and the search back to empty. */
  function Reset(st: Browse, semesters: seq<Doc<Semester>>, subjects: seq<Doc<Subject>>): (r: Browse)
    ensures Coherent(r, semesters, subjects)
    ensures r.search == "" && r.filters == NoFilters
    ensures r.semesterOptions == [] && r.subjectOptions == []
  {
    Browse("", NoFilters, [], [])
  }

  /** After a reset the page lists every loaded paper. */
  lemma ResetShowsAll(st: Browse, semesters: seq<Doc<Semester>>, subjects: seq<Doc<Subject>>, papers: seq<Doc<Paper>>)
    ensures var r := Reset(st, semesters, subjects);
      FilteredPapers(papers, r.search, r.filters) == papers
  {
    EmptyFiltersShowAll(papers);
  }

  /** The semester choices offered all belong to the chosen course, and the
      subject choices to the chosen semester. */
  lemma OptionsBelongToChoice(st: Browse, semesters: seq<Doc<Semester>>, subjects: seq<Doc<Subject>>)
    requires Coherent(st, semesters, subjects)
    ensures forall d :: d in st.semesterOptions ==> d in semesters && IdString(d.val.course) == st.filters.course
    ensures forall d :: d in st.subjectOptions ==> d in subjects && IdString(d.val.semester) == st.filters.semester
  {
  }
}
