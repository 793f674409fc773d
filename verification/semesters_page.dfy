/** client/src/components/semesters/Semesters.js: the semester list is
    filtered by a term matched against the name (ignoring case) or the
    number's numeral (as typed), and by a course select. */
module SemestersPage {
  import opened Schema
  import Seqs
  import Text
  import Decimal
  import Pages

  /** The term is in the name, or the raw term is in the number's numeral;
      and the course select is "All Courses" or names the semester's course. */
  predicate ShowsSemester(s: Semester, term: string, courseFilter: string) {
    && (Pages.Mentions(s.name, term) || Text.Contains(Decimal.IntToString(s.number), term))
    && (courseFilter == "" || IdString(s.course) == courseFilter)
  }

  function ShownBy(term: string, courseFilter: string): Doc<Semester> -> bool {
    (d: Doc<Semester>) => ShowsSemester(d.val, term, courseFilter)
  }

  /** `filteredSemesters`. */
  function FilteredSemesters(semesters: seq<Doc<Semester>>, term: string, courseFilter: string): (r: seq<Doc<Semester>>)
    ensures forall d :: d in r <==> d in semesters && ShowsSemester(d.val, term, courseFilter)
    ensures Seqs.IsSubsequence(r, semesters)
    ensures forall d :: multiset(r)[d] == if ShowsSemester(d.val, term, courseFilter) then multiset(semesters)[d] else 0
  {
    Seqs.Filter(semesters, ShownBy(term, courseFilter))
  }

  /** With no term and no course chosen, every semester is listed in order. */
  lemma EmptyFiltersShowAll(semesters: seq<Doc<Semester>>)
    ensures FilteredSemesters(semesters, "", "") == semesters
  {
    forall i | 0 <= i < |semesters|
      ensures ShownBy("", "")(semesters[i])
    {
      Pages.EmptyTermMentioned(semesters[i].val.name);
    }
    Seqs.FilterKeepsAll(semesters, ShownBy("", ""));
  }

  /** A numeral is made of digits and at most a leading minus sign. */
  predicate NumeralChar(c: char) {
    Decimal.IsDigit(c) || c == '-'
  }

  lemma IntToStringChars(n: int, i: int)
    requires 0 <= i < |Decimal.IntToString(n)|
    ensures NumeralChar(Decimal.IntToString(n)[i])
  {
    if n < 0 && i > 0 {
      assert Decimal.IntToString(n)[i] == Decimal.NatToString(-n)[i - 1];
    }
  }

  /** A term that holds anything but digits and '-' (a letter, a space) is
      matched against the name only. */
  lemma WordTermMatchesNameOnly(s: Semester, term: string, courseFilter: string, k: int)
    requires 0 <= k < |term| && !NumeralChar(term[k])
    ensures ShowsSemester(s, term, courseFilter) <==>
      Pages.Mentions(s.name, term) && (courseFilter == "" || IdString(s.course) == courseFilter)
  {
    var numeral := Decimal.IntToString(s.number);
    if Text.Contains(numeral, term) {
      Text.ContainedChar(numeral, term, k);
      var j :| 0 <= j < |numeral| && numeral[j] == term[k];
      IntToStringChars(s.number, j);
    }
  }

  /** Typing a semester's number lists it whatever its name. */
  lemma NumberTermShowsSemester(s: Semester, courseFilter: string)
    ensures ShowsSemester(s, Decimal.IntToString(s.number), courseFilter) <==>
      (courseFilter == "" || IdString(s.course) == courseFilter)
  {
    Text.ContainsSelf(Decimal.IntToString(s.number));
  }
}
