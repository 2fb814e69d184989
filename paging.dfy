/**
 * The paging pieces every list and grid screen repeats: the test that
 * the focused item is among the last five, the list after a page
 * arrives (replaced, or appended to), and the loop that lists the
 * item indices an append inserted.
 */
module Paging {
  import opened Wrappers

  /** `item >= count - 1 - 4 && item <= count - 1`: the focused item is one of the last five. */
  predicate NearEnd(item: int, count: int) {
    count - 1 - 4 <= item <= count - 1
  }

  /**
   * The list after a page arrives: the page itself when not appending or
   * when there was no list yet, otherwise the old list followed by it.
   */
  function Merged<T>(current: Option<seq<T>>, page: seq<T>, append: bool): (r: seq<T>)
    ensures |r| == (if append && current.Some? then |current.value| else 0) + |page|
  {
    if !append || current.None? then page else current.value + page
  }

  /** Appending keeps the old list as a prefix and puts the page after it, in order. */
  lemma MergedKeepsPrefix<T>(current: seq<T>, page: seq<T>)
    ensures Merged(Some(current), page, true)[..|current|] == current
    ensures Merged(Some(current), page, true)[|current|..] == page
  {
  }

  /**
   * The index-path loop run after an append: every index from the old
   * count up to, not including, the new count, in increasing order.
   */
  method AppendedIndices(count: int, total: int) returns (indexPaths: seq<int>)
    ensures |indexPaths| == if count < total then total - count else 0
    ensures forall k :: 0 <= k < |indexPaths| ==> indexPaths[k] == count + k
  {
    indexPaths := [];
    var index := count;
    while index < total
      invariant count <= total ==> count <= index <= total
      invariant count > total ==> index == count
      invariant |indexPaths| == index - count
      invariant forall k :: 0 <= k < |indexPaths| ==> indexPaths[k] == count + k
    {
      indexPaths := indexPaths + [index];
      index := index + 1;
    }
  }
}
