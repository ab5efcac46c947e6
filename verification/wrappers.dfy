/** The optional value used wherever the C# code has a nullable reference
    or a lookup that may find nothing. */
module Wrappers {

  datatype Option<+T> = None | Some(value: T)

  /** Index of the first element of `xs` satisfying `p`, the shape of LINQ's
      `FirstOrDefault(predicate)`. */
  function FirstIndex<T>(xs: seq<T>, p: T -> bool): (r: Option<nat>)
    ensures r.Some? ==> r.value < |xs| && p(xs[r.value])
    ensures r.Some? ==> forall j | 0 <= j < r.value :: !p(xs[j])
    ensures r.None? <==> forall j | 0 <= j < |xs| :: !p(xs[j])
  {
    if |xs| == 0 then None
    else if p(xs[0]) then Some(0)
    else match FirstIndex(xs[1..], p)
      case None => None
      case Some(j) => Some(j + 1)
  }
}
