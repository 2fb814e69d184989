/**
 * `ListViewSelection`: one row of a choice list, the label shown and the
 * code it stands for (nil for a row without one), and the list searches
 * the choice screens run over arrays of them.
 */
module ListViewSelections {
  import opened Wrappers

  datatype ListViewSelection = ListViewSelection(name: string, data: Option<string>)

  /**
   * `index(where: { $0.data == data })`: the first entry whose data equals
   * `data`.  The comparison is between optionals, so nil matches nil.
   */
  function IndexOfData(list: seq<ListViewSelection>, data: Option<string>): (r: Option<nat>)
    ensures r.None? <==> forall k :: 0 <= k < |list| ==> list[k].data != data
    ensures r.Some? ==> r.value < |list| && list[r.value].data == data
    ensures r.Some? ==> forall k :: 0 <= k < r.value ==> list[k].data != data
  {
    if list == [] then None
    else if list[0].data == data then Some(0)
    else
      match IndexOfData(list[1..], data)
      case None => None
      case Some(i) => Some(i + 1)
  }

  /** Some entry of `list` has the code `code`. */
  predicate HasCode(list: seq<ListViewSelection>, code: string) {
    exists k :: 0 <= k < |list| && list[k].data == Some(code)
  }

  /** `remove(at: i)`. */
  function RemoveAt<T>(s: seq<T>, i: nat): (r: seq<T>)
    requires i < |s|
    ensures |r| == |s| - 1
    ensures forall k :: 0 <= k < i ==> r[k] == s[k]
    ensures forall k :: i <= k < |r| ==> r[k] == s[k + 1]
  {
    s[..i] + s[i + 1..]
  }

  /** No two entries share a code; entries without a code are not compared. */
  predicate UniqueCodes(list: seq<ListViewSelection>) {
    forall i, j :: 0 <= i < j < |list| && list[i].data.Some? ==> list[i].data != list[j].data
  }

  /** Removing an entry keeps the codes distinct. */
  lemma RemoveAtUnique(list: seq<ListViewSelection>, i: nat)
    requires i < |list| && UniqueCodes(list)
    ensures UniqueCodes(RemoveAt(list, i))
  {
    var r := RemoveAt(list, i);
    forall a, b | 0 <= a < b < |r| && r[a].data.Some?
      ensures r[a].data != r[b].data
    {
      var a' := if a < i then a else a + 1;
      var b' := if b < i then b else b + 1;
      assert r[a] == list[a'] && r[b] == list[b'];
    }
  }

  /** Removing an entry keeps every other entry: what is left was there before. */
  lemma RemoveAtSubset(list: seq<ListViewSelection>, i: nat)
    requires i < |list|
    ensures forall x :: x in RemoveAt(list, i) ==> x in list
  {
    var r := RemoveAt(list, i);
    forall x | x in r
      ensures x in list
    {
      var a :| 0 <= a < |r| && r[a] == x;
      assert x == list[if a < i then a else a + 1];
    }
  }
}
