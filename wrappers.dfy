/** Optional values: the model's stand-in for a JavaScript array read that may be `undefined`. */
module Wrappers {

  datatype Option<+T> = None | Some(value: T)

  /** `xs[i]` in JavaScript: the element when `i` is an index of `xs`, `undefined` otherwise. */
  function At<T>(xs: seq<T>, i: int): (r: Option<T>)
    ensures r.Some? <==> 0 <= i < |xs|
    ensures r.Some? ==> r.value == xs[i]
  {
    if 0 <= i < |xs| then Some(xs[i]) else None
  }
}
