/** The optional value used wherever the source answers `None`, and the all-or-nothing map over a list. */
module Wrappers {

  datatype Option<+T> = None | Some(value: T)

  /**
   * Applies `f` to every element, in order; `None` as soon as one element gives
   * `None`, never a partial list.
   */
  function AllSome<A, B>(f: A -> Option<B>, xs: seq<A>): (r: Option<seq<B>>)
    ensures r.None? ==> exists i :: 0 <= i < |xs| && f(xs[i]).None?
    ensures r.Some? ==> |r.value| == |xs| && forall i :: 0 <= i < |xs| ==> f(xs[i]) == Some(r.value[i])
  {
    if xs == [] then Some([])
    else
      var first := f(xs[0]);
      var rest := AllSome(f, xs[1..]);
      assert forall i :: 1 <= i < |xs| ==> xs[i] == xs[1..][i - 1];
      if first.None? || rest.None? then None
      else Some([first.value] + rest.value)
  }

}
