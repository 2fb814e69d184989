/** The bounds-checked subscript `collection[safe: index]` the controllers and chat messages use. */
module SafeIndex {
  import opened Wrappers

  /** The element at `i` when `i` is one of the indices of `s`, nil otherwise; never a trap. */
  function At<T>(s: seq<T>, i: int): (r: Option<T>)
    ensures r.Some? <==> 0 <= i < |s|
    ensures r.Some? ==> r.value == s[i]
  {
    if 0 <= i < |s| then Some(s[i]) else None
  }
}
