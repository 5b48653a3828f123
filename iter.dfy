/** The iterator searches the model relies on: `Iterator::position` and
    `Iterator::find` over a slice, both "the first element satisfying a
    predicate". */
module Iter {
  import opened Wrappers

  /** Index of the first element of `s` that satisfies `p`, or `None` when no
      element does. */
  function FirstIndex<T>(s: seq<T>, p: T -> bool): (r: Option<nat>)
    ensures r.Some? ==> r.value < |s| && p(s[r.value])
    ensures r.Some? ==> forall j :: 0 <= j < r.value ==> !p(s[j])
    ensures r.None? <==> forall j :: 0 <= j < |s| ==> !p(s[j])
  {
    if s == [] then None
    else if p(s[0]) then Some(0)
    else match FirstIndex(s[1..], p)
      case None => None
      case Some(i) => Some(i + 1)
  }
}
