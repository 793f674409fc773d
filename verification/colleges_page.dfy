/** client/src/components/colleges/Colleges.js: the college list is filtered
    by one term matched against name, code and location. */
module CollegesPage {
  import opened Wrappers
  import opened Schema
  import Seqs
  import Pages
  import Text

  /** A college matches when its name, code or location mentions the term;
      a college without a location can match only by name or code. */
  predicate ShowsCollege(c: College, term: string) {
    || Pages.Mentions(c.name, term)
    || Pages.Mentions(c.code, term)
    || (c.location.Some? && Pages.Mentions(c.location.value, term))
  }

  function ShownBy(term: string): Doc<College> -> bool {
    (d: Doc<College>) => ShowsCollege(d.val, term)
  }

  /** `filteredColleges`, with an absent location treated as not matching. */
  function FilteredColleges(colleges: seq<Doc<College>>, term: string): (r: seq<Doc<College>>)
    ensures forall d :: d in r <==> d in colleges && ShowsCollege(d.val, term)
    ensures Seqs.IsSubsequence(r, colleges)
    ensures forall d :: multiset(r)[d] == if ShowsCollege(d.val, term) then multiset(colleges)[d] else 0
  {
    Seqs.Filter(colleges, ShownBy(term))
  }

  /** An empty term lists every college in order. */
  lemma EmptyTermShowsAll(colleges: seq<Doc<College>>)
    ensures FilteredColleges(colleges, "") == colleges
  {
    forall i | 0 <= i < |colleges|
      ensures ShownBy("")(colleges[i])
    {
      Pages.EmptyTermMentioned(colleges[i].val.name);
    }
    Seqs.FilterKeepsAll(colleges, ShownBy(""));
  }

  /** The predicate as written: `||` stops at the first match, and otherwise
      `college.location.toLowerCase()` is evaluated, which throws a TypeError
      (None) when the college has no location. */
  function ShowsCollegeAsWritten(c: College, term: string): (r: Option<bool>)
    ensures r.None? <==> !Pages.Mentions(c.name, term) && !Pages.Mentions(c.code, term) && c.location.None?
    ensures r.Some? ==> r.value == ShowsCollege(c, term)
  {
    if Pages.Mentions(c.name, term) || Pages.Mentions(c.code, term) then Some(true)
    else match c.location
      case None => None
      case Some(loc) => Some(Pages.Mentions(loc, term))
  }

  /** `colleges.filter(...)` as written: the first throwing element aborts the
      whole filter, and with it the page's render. */
  function FilteredCollegesAsWritten(colleges: seq<Doc<College>>, term: string): (r: Option<seq<Doc<College>>>)
    ensures r.None? <==> exists i :: 0 <= i < |colleges| && ShowsCollegeAsWritten(colleges[i].val, term).None?
    ensures r.Some? ==> r.value == FilteredColleges(colleges, term)
  {
    if colleges == [] then Some([])
    else match ShowsCollegeAsWritten(colleges[0].val, term)
      case None => None
      case Some(b) =>
        match FilteredCollegesAsWritten(colleges[1..], term)
        case None =>
          ghost var i :| 0 <= i < |colleges[1..]| && ShowsCollegeAsWritten(colleges[1..][i].val, term).None?;
          assert colleges[i + 1] == colleges[1..][i];
          None
        case Some(rest) =>
          assert forall i :: 1 <= i < |colleges| ==> colleges[i] == colleges[1..][i - 1];
          Some(if b then [colleges[0]] + rest else rest)
  }

  /** One college without a location that the term does not otherwise match
      is enough to break the whole page. */
  lemma AsWrittenFailsOnUnlocated(colleges: seq<Doc<College>>, term: string, i: nat)
    requires i < |colleges| && colleges[i].val.location.None?
    requires !Pages.Mentions(colleges[i].val.name, term) && !Pages.Mentions(colleges[i].val.code, term)
    ensures FilteredCollegesAsWritten(colleges, term).None?
  {
  }

  /** Such an input exists: a search for "z" with one college `A`/`B` that has no location. */
  lemma AsWrittenFailsWithoutLocation()
    ensures FilteredCollegesAsWritten([Doc(0, College("A", "B", None, 0))], "z").None?
  {
    var c := College("A", "B", None, 0);
    assert Text.Lower("A") == "a" && Text.Lower("B") == "b" && Text.Lower("z") == "z";
    assert !Text.Contains("a", "z") && !Text.Contains("b", "z");
    AsWrittenFailsOnUnlocated([Doc(0, c)], "z", 0);
  }

  /** As long as every college has a location, the page as written shows
      exactly the corrected filter's list. */
  lemma {:induction false} AsWrittenAgreesWhenLocated(colleges: seq<Doc<College>>, term: string)
    requires forall i :: 0 <= i < |colleges| ==> colleges[i].val.location.Some?
    ensures FilteredCollegesAsWritten(colleges, term) == Some(FilteredColleges(colleges, term))
  {
    if colleges != [] {
      AsWrittenAgreesWhenLocated(colleges[1..], term);
    }
  }
}
