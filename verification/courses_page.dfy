/** client/src/components/courses/Courses.js: the course list is filtered by
    a term matched against name and code, and by a college select. */
module CoursesPage {
  import opened Schema
  import Seqs
  import Pages
  import Decimal

  /** The term is mentioned by name or code, and the college select is
      "All Colleges" or names the course's college. */
  predicate ShowsCourse(c: Course, term: string, collegeFilter: string) {
    && (Pages.Mentions(c.name, term) || Pages.Mentions(c.code, term))
    && (collegeFilter == "" || IdString(c.college) == collegeFilter)
  }

  function ShownBy(term: string, collegeFilter: string): Doc<Course> -> bool {
    (d: Doc<Course>) => ShowsCourse(d.val, term, collegeFilter)
  }

  /** `filteredCourses`. */
  function FilteredCourses(courses: seq<Doc<Course>>, term: string, collegeFilter: string): (r: seq<Doc<Course>>)
    ensures forall d :: d in r <==> d in courses && ShowsCourse(d.val, term, collegeFilter)
    ensures Seqs.IsSubsequence(r, courses)
    ensures forall d :: multiset(r)[d] == if ShowsCourse(d.val, term, collegeFilter) then multiset(courses)[d] else 0
  {
    Seqs.Filter(courses, ShownBy(term, collegeFilter))
  }

  /** With no term and no college chosen, every course is listed in order. */
  lemma EmptyFiltersShowAll(courses: seq<Doc<Course>>)
    ensures FilteredCourses(courses, "", "") == courses
  {
    forall i | 0 <= i < |courses|
      ensures ShownBy("", "")(courses[i])
    {
      Pages.EmptyTermMentioned(courses[i].val.name);
    }
    Seqs.FilterKeepsAll(courses, ShownBy("", ""));
  }

  /** Choosing a college keeps, of the courses the term alone lists, exactly
      those of that college. */
  lemma CollegeFilterNarrows(courses: seq<Doc<Course>>, term: string, college: Id)
    ensures forall d :: d in FilteredCourses(courses, term, IdString(college)) <==>
      d in FilteredCourses(courses, term, "") && d.val.college == college
  {
    forall d | d in courses && IdString(d.val.college) == IdString(college)
      ensures d.val.college == college
    {
      Decimal.NatToStringInjective(d.val.college, college);
    }
  }
}
