/** What the four management pages (Colleges, Courses, Semesters, Subjects)
    share: the add/edit panel toggle and the case-insensitive search. */
module Pages {
  import opened Wrappers
  import opened Schema
  import Text

  /** The document being edited, if any, and whether the form is open. */
  datatype PageState<T> = PageState(current: Option<Doc<T>>, formVisible: bool)

  /** `toggleForm`: open or close the form, dropping any document being edited. */
  function ToggleForm<T>(st: PageState<T>): (r: PageState<T>)
    ensures r.formVisible != st.formVisible
    ensures r.current.None?
  {
    PageState(None, !st.formVisible)
  }

  /** Toggling twice restores the panel and forgets the edited document. */
  lemma ToggleTwice<T>(st: PageState<T>)
    ensures ToggleForm(ToggleForm(st)) == st.(current := None)
  {
  }

  /** `field.toLowerCase().includes(term.toLowerCase())`. */
  predicate Mentions(field: string, term: string) {
    Text.Contains(Text.Lower(field), Text.Lower(term))
  }

  /** The empty search term is mentioned by every field. */
  lemma EmptyTermMentioned(field: string)
    ensures Mentions(field, "")
  {
    Text.ContainsEmpty(Text.Lower(field));
  }

  /** A search ignores letter case in the term. */
  lemma MentionsIgnoresCase(field: string, term: string)
    ensures Mentions(field, term) <==> Mentions(field, Text.Lower(term))
  {
    Text.LowerIdempotent(term);
  }
}
