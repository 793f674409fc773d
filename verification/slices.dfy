/** The shape shared by the five catalog reducers of client/src/reducers:
    a list, a current item, a loading flag and the last error, and the
    eight things an action can do to them. */
module Slices {
  import opened Wrappers
  import opened Schema
  import opened Actions
  import Seqs

  datatype Slice<T> = Slice(items: seq<Doc<T>>, current: Option<Doc<T>>, loading: bool, error: Option<HttpError>)

  /** `{ <list>: [], <item>: null, loading: true, error: {} }` */
  function Initial<T>(): (s: Slice<T>)
    ensures s.items == [] && s.current.None? && s.loading && s.error.None?
  {
    Slice([], None, true, None)
  }

  datatype Op<T> =
    | Load(docs: seq<Doc<T>>)
    | Pick(doc: Doc<T>)
    | Prepend(doc: Doc<T>)
    | Replace(doc: Doc<T>)
    | Remove(id: Id)
    | Fail(err: HttpError)
    | ClearCurrent
    | StartLoading
    | Ignore

  // The effect of each operation, as a relation between the slice before (s) and after (r).

  ghost predicate Loaded<T>(s: Slice<T>, r: Slice<T>, docs: seq<Doc<T>>) {
    r.items == docs && !r.loading && r.current == s.current && r.error == s.error
  }

  ghost predicate Picked<T>(s: Slice<T>, r: Slice<T>, d: Doc<T>) {
    r.current == Some(d) && !r.loading && r.items == s.items && r.error == s.error
  }

  ghost predicate Prepended<T>(s: Slice<T>, r: Slice<T>, d: Doc<T>) {
    && |r.items| == |s.items| + 1 && r.items[0] == d && r.items[1..] == s.items
    && !r.loading && r.current == s.current && r.error == s.error
  }

  /** Every item with the payload's id is the payload; every other item, its
      position and the length stay. */
  ghost predicate Replaced<T>(s: Slice<T>, r: Slice<T>, d: Doc<T>) {
    && |r.items| == |s.items|
    && (forall i :: 0 <= i < |s.items| ==> r.items[i] == (if s.items[i].id == d.id then d else s.items[i]))
    && !r.loading && r.current == s.current && r.error == s.error
  }

  /** The items without the id, in their order, each other item as often as before. */
  ghost predicate Removed<T(!new)>(s: Slice<T>, r: Slice<T>, id: Id) {
    && (forall d :: d in r.items <==> d in s.items && d.id != id)
    && Seqs.IsSubsequence(r.items, s.items)
    && (forall d :: multiset(r.items)[d] == if d.id != id then multiset(s.items)[d] else 0)
    && !r.loading && r.current == s.current && r.error == s.error
  }

  ghost predicate Failed<T>(s: Slice<T>, r: Slice<T>, e: HttpError) {
    r.error == Some(e) && !r.loading && r.items == s.items && r.current == s.current
  }

  ghost predicate Cleared<T>(s: Slice<T>, r: Slice<T>) {
    r.current.None? && !r.loading && r.items == s.items && r.error == s.error
  }

  ghost predicate LoadingStarted<T>(s: Slice<T>, r: Slice<T>) {
    r.loading && r.items == s.items && r.current == s.current && r.error == s.error
  }

  /** `items.map(x => x._id === d._id ? d : x)` */
  function ReplaceById<T>(xs: seq<Doc<T>>, d: Doc<T>): (r: seq<Doc<T>>)
    ensures |r| == |xs|
    ensures forall i :: 0 <= i < |xs| ==> r[i] == (if xs[i].id == d.id then d else xs[i])
  {
    if xs == [] then []
    else [if xs[0].id == d.id then d else xs[0]] + ReplaceById(xs[1..], d)
  }

  /** `items.filter(x => x._id !== id)` */
  function RemoveById<T(==,!new)>(xs: seq<Doc<T>>, id: Id): (r: seq<Doc<T>>)
    ensures forall d :: d in r <==> d in xs && d.id != id
    ensures Seqs.IsSubsequence(r, xs)
    ensures forall d :: multiset(r)[d] == if d.id != id then multiset(xs)[d] else 0
  {
    Seqs.Filter(xs, (x: Doc<T>) => x.id != id)
  }

  function Apply<T(==,!new)>(s: Slice<T>, op: Op<T>): (r: Slice<T>)
    ensures op.Load? ==> Loaded(s, r, op.docs)
    ensures op.Pick? ==> Picked(s, r, op.doc)
    ensures op.Prepend? ==> Prepended(s, r, op.doc)
    ensures op.Replace? ==> Replaced(s, r, op.doc)
    ensures op.Remove? ==> Removed(s, r, op.id)
    ensures op.Fail? ==> Failed(s, r, op.err)
    ensures op.ClearCurrent? ==> Cleared(s, r)
    ensures op.StartLoading? ==> LoadingStarted(s, r)
    ensures op.Ignore? ==> r == s
  {
    match op
    case Load(docs) => s.(items := docs, loading := false)
    case Pick(d) => s.(current := Some(d), loading := false)
    case Prepend(d) => s.(items := [d] + s.items, loading := false)
    case Replace(d) => s.(items := ReplaceById(s.items, d), loading := false)
    case Remove(id) => s.(items := RemoveById(s.items, id), loading := false)
    case Fail(e) => s.(error := Some(e), loading := false)
    case ClearCurrent => s.(current := None, loading := false)
    case StartLoading => s.(loading := true)
    case Ignore => s
  }

  /** A replace keeps the sequence of ids, so it never adds, drops or moves an item. */
  lemma ReplaceKeepsIds<T(!new)>(s: Slice<T>, d: Doc<T>)
    ensures var r := Apply(s, Replace(d));
      forall i :: 0 <= i < |s.items| ==> r.items[i].id == s.items[i].id
  {
  }

  /** Replacing twice with the same payload is replacing once. */
  lemma ReplaceIdempotent<T(!new)>(s: Slice<T>, d: Doc<T>)
    ensures Apply(Apply(s, Replace(d)), Replace(d)) == Apply(s, Replace(d))
  {
    var once := Apply(s, Replace(d));
    var twice := Apply(once, Replace(d));
    assert twice.items == once.items;
  }

  /** Removing an id nobody has changes no item. */
  lemma RemoveAbsentKeepsItems<T(!new)>(s: Slice<T>, id: Id)
    requires forall i :: 0 <= i < |s.items| ==> s.items[i].id != id
    ensures Apply(s, Remove(id)).items == s.items
  {
    Seqs.FilterKeepsAll(s.items, (x: Doc<T>) => x.id != id);
  }

  /** Adding an item and then deleting its id is the same as deleting the id. */
  lemma RemoveAfterPrepend<T(!new)>(s: Slice<T>, d: Doc<T>)
    ensures Apply(Apply(s, Prepend(d)), Remove(d.id)).items == Apply(s, Remove(d.id)).items
  {
    var added := Apply(s, Prepend(d));
    assert added.items == [d] + s.items;
    assert added.items[1..] == s.items;
  }
}
