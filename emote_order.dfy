/**
 * The ordering half of `ChatMessage.parseTwitchEmotes`: a selection
 * loop that, once per extracted emote, scans the list for the first
 * emote with the smallest start above the last start taken, and stops
 * early when there is none.  Emotes that share a start with an earlier
 * one are never taken.
 */
module EmoteOrder {
  import opened Wrappers
  import opened Emotes

  /**
   * The `smallest` the inner loop leaves after scanning `emotes`: the
   * first emote with the least start above `addedSize`, or nil.
   */
  function Smallest(emotes: seq<Emote>, addedSize: int): Option<Emote>
  {
    if emotes == [] then None
    else
      var smallest := Smallest(emotes[..|emotes| - 1], addedSize);
      var emote := emotes[|emotes| - 1];
      if (smallest.None? || emote.start < smallest.value.start) && emote.start > addedSize then Some(emote)
      else smallest
  }

  /** What `rounds` more passes of the outer loop append, starting above `addedSize`. */
  function OrderFrom(emotes: seq<Emote>, addedSize: int, rounds: nat): seq<Emote>
    decreases rounds
  {
    if rounds == 0 then []
    else
      match Smallest(emotes, addedSize)
      case None => []
      case Some(m) => [m] + OrderFrom(emotes, m.start, rounds - 1)
  }

  /** The list `parseTwitchEmotes` returns for the extracted `emotes`. */
  function Ordered(emotes: seq<Emote>): seq<Emote>
  {
    OrderFrom(emotes, -1, |emotes|)
  }

  /** The selection loop of `parseTwitchEmotes`, with its early return. */
  method OrderEmotes(emotes: seq<Emote>) returns (ordered: seq<Emote>)
    ensures ordered == Ordered(emotes)
  {
    ordered := [];
    var addedSize := -1;
    var smallest: Option<Emote> := None;
    var n := 0;
    while n < |emotes|
      invariant n <= |emotes|
      invariant smallest.None?
      invariant ordered + OrderFrom(emotes, addedSize, |emotes| - n) == Ordered(emotes)
    {
      var i := 0;
      while i < |emotes|
        invariant i <= |emotes|
        invariant smallest == Smallest(emotes[..i], addedSize)
      {
        assert emotes[..i + 1][..i] == emotes[..i];
        var emote := emotes[i];
        if (smallest.None? || emote.start < smallest.value.start) && emote.start > addedSize {
          smallest := Some(emote);
        }
        i := i + 1;
      }
      assert emotes[..i] == emotes;
      if smallest.Some? {
        ordered := ordered + [smallest.value];
        addedSize := smallest.value.start;
        smallest := None;
      } else {
        assert ordered + [] == ordered;
        return ordered;
      }
      n := n + 1;
    }
    assert ordered + [] == ordered;
  }

  // ---------------------------------------------------------------------
  // What the inner scan finds

  /** The distinct starts above `addedSize`. */
  function StartsAbove(emotes: seq<Emote>, addedSize: int): set<int>
  {
    set k | 0 <= k < |emotes| && emotes[k].start > addedSize :: emotes[k].start
  }

  /** `emotes[i]` is the first emote in the list with its start. */
  predicate FirstWithStart(emotes: seq<Emote>, i: int) {
    0 <= i < |emotes| && forall k :: 0 <= k < i ==> emotes[k].start != emotes[i].start
  }

  /** The scan finds nothing exactly when no start lies above `addedSize`. */
  lemma {:induction false} SmallestNone(emotes: seq<Emote>, addedSize: int)
    ensures Smallest(emotes, addedSize).None? <==> forall k :: 0 <= k < |emotes| ==> emotes[k].start <= addedSize
  {
    if emotes != [] {
      var init := emotes[..|emotes| - 1];
      SmallestNone(init, addedSize);
      assert forall k :: 0 <= k < |init| ==> init[k] == emotes[k];
    }
  }

  /** A found emote has a start above `addedSize`, and no start above `addedSize` is smaller. */
  lemma {:induction false} SmallestIsLeast(emotes: seq<Emote>, addedSize: int)
    requires Smallest(emotes, addedSize).Some?
    ensures var m := Smallest(emotes, addedSize).value;
      && m.start > addedSize
      && forall k :: 0 <= k < |emotes| && emotes[k].start > addedSize ==> m.start <= emotes[k].start
  {
    var init := emotes[..|emotes| - 1];
    assert forall k :: 0 <= k < |init| ==> init[k] == emotes[k];
    if Smallest(init, addedSize).Some? {
      SmallestIsLeast(init, addedSize);
    } else {
      SmallestNone(init, addedSize);
    }
  }

  /** A found emote is the first in the list with its start. */
  lemma {:induction false} SmallestIsFirst(emotes: seq<Emote>, addedSize: int)
    requires Smallest(emotes, addedSize).Some?
    ensures exists i :: FirstWithStart(emotes, i) && emotes[i] == Smallest(emotes, addedSize).value
  {
    var init := emotes[..|emotes| - 1];
    var last := emotes[|emotes| - 1];
    var s := Smallest(init, addedSize);
    assert forall k :: 0 <= k < |init| ==> init[k] == emotes[k];
    if s.Some? && !(last.start < s.value.start && last.start > addedSize) {
      SmallestIsFirst(init, addedSize);
      var i :| FirstWithStart(init, i) && init[i] == s.value;
      assert FirstWithStart(emotes, i);
    } else if s.Some? {
      SmallestIsLeast(init, addedSize);
      assert FirstWithStart(emotes, |emotes| - 1);
    } else {
      SmallestNone(init, addedSize);
      assert FirstWithStart(emotes, |emotes| - 1);
    }
  }

  /** No start above `addedSize` means no distinct start above it. */
  lemma StartsAboveEmpty(emotes: seq<Emote>, addedSize: int)
    ensures StartsAbove(emotes, addedSize) == {} <==> forall k :: 0 <= k < |emotes| ==> emotes[k].start <= addedSize
  {
    if exists k :: 0 <= k < |emotes| && emotes[k].start > addedSize {
      var k :| 0 <= k < |emotes| && emotes[k].start > addedSize;
      assert emotes[k].start in StartsAbove(emotes, addedSize);
    }
  }

  /** Taking the least start removes exactly that start from the ones still above. */
  lemma StartsAboveStep(emotes: seq<Emote>, addedSize: int)
    requires Smallest(emotes, addedSize).Some?
    ensures var m := Smallest(emotes, addedSize).value;
      && m.start in StartsAbove(emotes, addedSize)
      && StartsAbove(emotes, m.start) == StartsAbove(emotes, addedSize) - {m.start}
  {
    SmallestIsLeast(emotes, addedSize);
    SmallestIsFirst(emotes, addedSize);
    var m := Smallest(emotes, addedSize).value;
    var i :| FirstWithStart(emotes, i) && emotes[i] == m;
    assert m.start in StartsAbove(emotes, addedSize);
  }

  /** There are no more distinct starts than emotes. */
  lemma {:induction false} StartsAboveBound(emotes: seq<Emote>, addedSize: int)
    ensures |StartsAbove(emotes, addedSize)| <= |emotes|
  {
    if emotes != [] {
      var init := emotes[..|emotes| - 1];
      var last := emotes[|emotes| - 1];
      StartsAboveBound(init, addedSize);
      assert StartsAbove(emotes, addedSize) <= StartsAbove(init, addedSize) + {last.start} by {
        forall x | x in StartsAbove(emotes, addedSize)
          ensures x in StartsAbove(init, addedSize) + {last.start}
        {
          var k :| 0 <= k < |emotes| && emotes[k].start > addedSize && emotes[k].start == x;
          if k < |init| {
            assert init[k] == emotes[k];
          }
        }
      }
      SubsetCard(StartsAbove(emotes, addedSize), StartsAbove(init, addedSize) + {last.start});
    }
  }

  lemma SubsetCard(a: set<int>, b: set<int>)
    requires a <= b
    ensures |a| <= |b|
  {
    assert b == a + (b - a);
  }

  // ---------------------------------------------------------------------
  // What the outer loop produces

  predicate Increasing(r: seq<Emote>) {
    forall j, k :: 0 <= j < k < |r| ==> r[j].start < r[k].start
  }

  /** Each pass takes a larger start than the last: the result is strictly increasing by start. */
  lemma {:induction false} OrderFromIncreasing(emotes: seq<Emote>, addedSize: int, rounds: nat)
    ensures forall k :: 0 <= k < |OrderFrom(emotes, addedSize, rounds)| ==> OrderFrom(emotes, addedSize, rounds)[k].start > addedSize
    ensures Increasing(OrderFrom(emotes, addedSize, rounds))
    decreases rounds
  {
    if rounds > 0 && Smallest(emotes, addedSize).Some? {
      SmallestIsLeast(emotes, addedSize);
      var m := Smallest(emotes, addedSize).value;
      OrderFromIncreasing(emotes, m.start, rounds - 1);
      var r := OrderFrom(emotes, addedSize, rounds);
      var rest := OrderFrom(emotes, m.start, rounds - 1);
      assert r == [m] + rest;
      forall j, k | 0 <= j < k < |r|
        ensures r[j].start < r[k].start
      {
        if j > 0 {
          assert r[j] == rest[j - 1] && r[k] == rest[k - 1];
        }
      }
    }
  }

  /** Every emote taken is, in the input, the first one with its start. */
  lemma {:induction false} OrderFromFirsts(emotes: seq<Emote>, addedSize: int, rounds: nat)
    ensures var r := OrderFrom(emotes, addedSize, rounds);
      forall k :: 0 <= k < |r| ==> exists i :: FirstWithStart(emotes, i) && emotes[i] == r[k]
    decreases rounds
  {
    if rounds > 0 && Smallest(emotes, addedSize).Some? {
      SmallestIsFirst(emotes, addedSize);
      var m := Smallest(emotes, addedSize).value;
      OrderFromFirsts(emotes, m.start, rounds - 1);
      var r := OrderFrom(emotes, addedSize, rounds);
      assert r == [m] + OrderFrom(emotes, m.start, rounds - 1);
      forall k | 0 <= k < |r|
        ensures exists i :: FirstWithStart(emotes, i) && emotes[i] == r[k]
      {
        if k > 0 {
          assert r[k] == OrderFrom(emotes, m.start, rounds - 1)[k - 1];
        }
      }
    }
  }

  /**
   * With at least as many passes as there are distinct starts above
   * `addedSize`, every such start is taken once, and the result has one
   * emote per distinct start.
   */
  lemma {:induction false} OrderFromComplete(emotes: seq<Emote>, addedSize: int, rounds: nat)
    requires |StartsAbove(emotes, addedSize)| <= rounds
    ensures var r := OrderFrom(emotes, addedSize, rounds);
      && |r| == |StartsAbove(emotes, addedSize)|
      && forall x :: x in StartsAbove(emotes, addedSize) ==> exists k :: 0 <= k < |r| && r[k].start == x
    decreases rounds
  {
    SmallestNone(emotes, addedSize);
    StartsAboveEmpty(emotes, addedSize);
    if Smallest(emotes, addedSize).Some? {
      var m := Smallest(emotes, addedSize).value;
      StartsAboveStep(emotes, addedSize);
      OrderFromComplete(emotes, m.start, rounds - 1);
      var r := OrderFrom(emotes, addedSize, rounds);
      var rest := OrderFrom(emotes, m.start, rounds - 1);
      assert r == [m] + rest;
      forall x | x in StartsAbove(emotes, addedSize)
        ensures exists k :: 0 <= k < |r| && r[k].start == x
      {
        if x == m.start {
          assert r[0].start == x;
        } else {
          assert x in StartsAbove(emotes, m.start);
          var k :| 0 <= k < |rest| && rest[k].start == x;
          assert r[k + 1].start == x;
        }
      }
    }
  }

  /**
   * The ordered list is strictly increasing by start; each of its emotes
   * is the first extracted emote with that start; and every start that
   * is not negative appears, so it has exactly one emote per distinct
   * start.  Later emotes with a start already taken are dropped.
   */
  lemma OrderedSpec(emotes: seq<Emote>)
    ensures var r := Ordered(emotes);
      && Increasing(r)
      && (forall k :: 0 <= k < |r| ==> r[k].start >= 0)
      && (forall k :: 0 <= k < |r| ==> exists i :: FirstWithStart(emotes, i) && emotes[i] == r[k])
      && (forall i :: 0 <= i < |emotes| && emotes[i].start >= 0 ==> exists k :: 0 <= k < |r| && r[k].start == emotes[i].start)
      && |r| == |StartsAbove(emotes, -1)|
  {
    OrderFromIncreasing(emotes, -1, |emotes|);
    OrderFromFirsts(emotes, -1, |emotes|);
    StartsAboveBound(emotes, -1);
    OrderFromComplete(emotes, -1, |emotes|);
    forall i | 0 <= i < |emotes| && emotes[i].start >= 0
      ensures emotes[i].start in StartsAbove(emotes, -1)
    {
    }
  }
}
