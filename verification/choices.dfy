/** The option lists behind the cascading select boxes of the paper form,
    the browse page and the subjects page: a course's semesters, a
    semester's subjects, and the last twenty years. */
module Choices {
  import opened Schema
  import Seqs

  /** `semesters.filter(s => s.course._id === course)`, or nothing while no course is chosen. */
  function SemestersOf(semesters: seq<Doc<Semester>>, course: string): (r: seq<Doc<Semester>>)
    ensures course == "" ==> r == []
    ensures course != "" ==> forall d :: d in r <==> d in semesters && IdString(d.val.course) == course
    ensures Seqs.IsSubsequence(r, semesters)
    ensures course != "" ==> forall d :: multiset(r)[d] == if IdString(d.val.course) == course then multiset(semesters)[d] else 0
  {
    if course == "" then [] else Seqs.Filter(semesters, (s: Doc<Semester>) => IdString(s.val.course) == course)
  }

  /** `subjects.filter(s => s.semester._id === semester)`, or nothing while no semester is chosen. */
  function SubjectsOf(subjects: seq<Doc<Subject>>, semester: string): (r: seq<Doc<Subject>>)
    ensures semester == "" ==> r == []
    ensures semester != "" ==> forall d :: d in r <==> d in subjects && IdString(d.val.semester) == semester
    ensures Seqs.IsSubsequence(r, subjects)
    ensures semester != "" ==> forall d :: multiset(r)[d] == if IdString(d.val.semester) == semester then multiset(subjects)[d] else 0
  {
    if semester == "" then [] else Seqs.Filter(subjects, (s: Doc<Subject>) => IdString(s.val.semester) == semester)
  }

  /** The year options: twenty consecutive years counting down from the current one. */
  method YearOptions(currentYear: int) returns (years: seq<int>)
    ensures |years| == 20
    ensures forall i :: 0 <= i < 20 ==> years[i] == currentYear - i
  {
    years := [];
    var i := 0;
    while i < 20
      invariant 0 <= i <= 20
      invariant |years| == i
      invariant forall j :: 0 <= j < i ==> years[j] == currentYear - j
    {
      years := years + [currentYear - i];
      i := i + 1;
    }
  }

  /** The options run strictly downwards, newest first, and include the current year. */
  lemma YearOptionsDescend(years: seq<int>, currentYear: int)
    requires |years| == 20 && forall i :: 0 <= i < 20 ==> years[i] == currentYear - i
    ensures forall i, j :: 0 <= i < j < |years| ==> years[i] > years[j]
    ensures years[0] == currentYear && years[19] == currentYear - 19
    ensures forall y :: y in years <==> currentYear - 19 <= y <= currentYear
  {
    forall y | currentYear - 19 <= y <= currentYear
      ensures y in years
    {
      assert years[currentYear - y] == y;
    }
  }
}
