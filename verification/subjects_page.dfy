/** client/src/components/subjects/Subjects.js: the subject list is filtered
    by a term matched against name and code and by a course select and a
    semester select; choosing a course resets the semester select and
    offers that course's semesters. */
module SubjectsPage {
  import opened Schema
  import Seqs
  import Pages
  import Choices

  /** The term is mentioned by name or code, and each select is "All …" or
      names the subject's course or semester. */
  predicate ShowsSubject(s: Subject, term: string, courseFilter: string, semesterFilter: string) {
    && (Pages.Mentions(s.name, term) || Pages.Mentions(s.code, term))
    && (courseFilter == "" || IdString(s.course) == courseFilter)
    && (semesterFilter == "" || IdString(s.semester) == semesterFilter)
  }

  function ShownBy(term: string, courseFilter: string, semesterFilter: string): Doc<Subject> -> bool {
    (d: Doc<Subject>) => ShowsSubject(d.val, term, courseFilter, semesterFilter)
  }

  /** `filteredSubjects`. */
  function FilteredSubjects(subjects: seq<Doc<Subject>>, term: string, courseFilter: string, semesterFilter: string)
    : (r: seq<Doc<Subject>>)
    ensures forall d :: d in r <==> d in subjects && ShowsSubject(d.val, term, courseFilter, semesterFilter)
    ensures Seqs.IsSubsequence(r, subjects)
    ensures forall d :: multiset(r)[d] == if ShowsSubject(d.val, term, courseFilter, semesterFilter) then multiset(subjects)[d] else 0
  {
    Seqs.Filter(subjects, ShownBy(term, courseFilter, semesterFilter))
  }

  /** With no term and nothing selected, every subject is listed in order. */
  lemma EmptyFiltersShowAll(subjects: seq<Doc<Subject>>)
    ensures FilteredSubjects(subjects, "", "", "") == subjects
  {
    forall i | 0 <= i < |subjects|
      ensures ShownBy("", "", "")(subjects[i])
    {
      Pages.EmptyTermMentioned(subjects[i].val.name);
    }
    Seqs.FilterKeepsAll(subjects, ShownBy("", "", ""));
  }

  /** The two selects and the semester options, once the effect has run. */
  datatype Selects = Selects(courseFilter: string, semesterFilter: string, semesterOptions: seq<Doc<Semester>>)

  /** The semester options are those of the chosen course, and a semester is
      chosen only under a chosen course. */
  predicate Coherent(st: Selects, semesters: seq<Doc<Semester>>) {
    && st.semesterOptions == Choices.SemestersOf(semesters, st.courseFilter)
    && (st.courseFilter == "" ==> st.semesterFilter == "")
  }

  /** `setCourseFilter` and the effect it triggers: the semester select is
      emptied and offers the new course's semesters. */
  function ChangeCourse(st: Selects, course: string, semesters: seq<Doc<Semester>>): (r: Selects)
    ensures Coherent(r, semesters)
    ensures r.courseFilter == course && r.semesterFilter == ""
    ensures forall d :: d in r.semesterOptions <==> course != "" && d in semesters && IdString(d.val.course) == course
  {
    Selects(course, "", Choices.SemestersOf(semesters, course))
  }

  /** `setSemesterFilter`; the select is disabled while no course is chosen. */
  function ChangeSemester(st: Selects, semester: string, semesters: seq<Doc<Semester>>): (r: Selects)
    requires Coherent(st, semesters) && st.courseFilter != ""
    ensures Coherent(r, semesters)
    ensures r == st.(semesterFilter := semester)
  {
    st.(semesterFilter := semester)
  }

  /** The initial selects: nothing chosen, no semester offered. */
  function Initial(semesters: seq<Doc<Semester>>): (r: Selects)
    ensures Coherent(r, semesters) && r.semesterOptions == []
  {
    Selects("", "", [])
  }
}
