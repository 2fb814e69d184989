/**
 * `MultipleChoiceListViewController`: a list of choices where selecting
 * and deselecting rows edits the array `enabledSelections` in place.
 * With `firstExclusive` the first choice (such as "All") excludes the
 * others; with `singleSelection` the screen closes once a choice is added,
 * and closing hands `enabledSelections` to the callback.
 */
module MultipleChoiceLists {
  import opened Wrappers
  import opened SafeIndex
  import opened ListViewSelections

  /** The callbacks the settings screen installs. */
  datatype SelectionCallback = SaveQualitySelection | SaveLanguageSelection

  // ---------------------------------------------------------------------
  // The list rules, on values

  /** `enabledSelections` after the `firstExclusive` step of `didSelectRowAt`. */
  function Cleared(selections: seq<ListViewSelection>, enabled: seq<ListViewSelection>, row: int, firstExclusive: bool): seq<ListViewSelection>
  {
    if !firstExclusive then enabled
    else if row == 0 then []
    else if |selections| == 0 then enabled
    else
      match IndexOfData(enabled, selections[0].data)
      case None => enabled
      case Some(i) => RemoveAt(enabled, i)
  }

  /** What `didSelectRowAt` appends: the row's choice, when it has a code no enabled entry has yet. */
  function NewSelection(selections: seq<ListViewSelection>, enabled: seq<ListViewSelection>, row: int): (r: Option<ListViewSelection>)
    ensures r.Some? <==> 0 <= row < |selections| && selections[row].data.Some? && !HasCode(enabled, selections[row].data.value)
    ensures r.Some? ==> r.value == selections[row]
  {
    match At(selections, row)
    case None => None
    case Some(s) => if s.data.Some? && IndexOfData(enabled, s.data).None? then Some(s) else None
  }

  /** `enabledSelections` after `didSelectRowAt`. */
  function AfterSelect(selections: seq<ListViewSelection>, enabled: seq<ListViewSelection>, row: int, firstExclusive: bool): seq<ListViewSelection>
  {
    var cleared := Cleared(selections, enabled, row, firstExclusive);
    match NewSelection(selections, cleared, row)
    case None => cleared
    case Some(s) => cleared + [s]
  }

  /** `enabledSelections` after `didDeselectRowAt`. */
  function AfterDeselect(selections: seq<ListViewSelection>, enabled: seq<ListViewSelection>, row: int): seq<ListViewSelection>
  {
    match At(selections, row)
    case None => enabled
    case Some(s) =>
      if s.data.None? then enabled
      else
        match IndexOfData(enabled, s.data)
        case None => enabled
        case Some(i) => RemoveAt(enabled, i)
  }

  // ---------------------------------------------------------------------
  // The controller

  class MultipleChoiceList {
    var selections: seq<ListViewSelection>
    var enabledSelections: seq<ListViewSelection>
    var singleSelection: bool
    var firstExclusive: bool
    var selectionCallback: Option<SelectionCallback>

    constructor ()
      ensures selections == [] && enabledSelections == []
      ensures !singleSelection && !firstExclusive && selectionCallback.None?
    {
      selections := [];
      enabledSelections := [];
      singleSelection := false;
      firstExclusive := false;
      selectionCallback := None;
    }

    /** `cellForRowAt`: a row is drawn selected exactly when some enabled entry has its code. */
    function IsShownSelected(row: int): (shown: bool)
      reads this
      ensures shown <==> 0 <= row < |selections| && selections[row].data.Some? && HasCode(enabledSelections, selections[row].data.value)
    {
      match At(selections, row)
      case None => false
      case Some(s) => s.data.Some? && IndexOfData(enabledSelections, s.data).Some?
    }

    /** `didSelectRowAt`; `dismissed` tells whether it then called `dismiss`. */
    method DidSelect(row: int) returns (dismissed: bool)
      modifies this
      ensures selections == old(selections) && singleSelection == old(singleSelection)
      ensures firstExclusive == old(firstExclusive) && selectionCallback == old(selectionCallback)
      ensures enabledSelections == AfterSelect(selections, old(enabledSelections), row, firstExclusive)
      ensures dismissed <==> singleSelection && NewSelection(selections, Cleared(selections, old(enabledSelections), row, firstExclusive), row).Some?
    {
      if firstExclusive {
        if row == 0 {
          enabledSelections := [];
        } else {
          var first := At(selections, 0);
          if first.Some? {
            var index := IndexOfData(enabledSelections, first.value.data);
            if index.Some? {
              enabledSelections := RemoveAt(enabledSelections, index.value);
            }
          }
        }
      }
      dismissed := false;
      var selection := At(selections, row);
      if selection.Some? && selection.value.data.Some? {
        if IndexOfData(enabledSelections, selection.value.data).None? {
          enabledSelections := enabledSelections + [selection.value];
          if singleSelection {
            dismissed := true;
          }
        }
      }
    }

    /** `didDeselectRowAt`. */
    method DidDeselect(row: int)
      modifies this
      ensures selections == old(selections) && singleSelection == old(singleSelection)
      ensures firstExclusive == old(firstExclusive) && selectionCallback == old(selectionCallback)
      ensures enabledSelections == AfterDeselect(selections, old(enabledSelections), row)
    {
      var selection := At(selections, row);
      if selection.Some? && selection.value.data.Some? {
        var index := IndexOfData(enabledSelections, selection.value.data);
        if index.Some? {
          enabledSelections := RemoveAt(enabledSelections, index.value);
        }
      }
    }

    /** `dismiss`: the callback, when one is set, receives the current `enabledSelections`. */
    method Dismiss() returns (handed: Option<(SelectionCallback, seq<ListViewSelection>)>)
      ensures handed.Some? <==> selectionCallback.Some?
      ensures handed.Some? ==> handed.value.0 == selectionCallback.value && handed.value.1 == enabledSelections
    {
      handed := None;
      if selectionCallback.Some? {
        handed := Some((selectionCallback.value, enabledSelections));
      }
    }
  }

  // ---------------------------------------------------------------------
  // Properties

  /** Selecting never introduces a second entry with the same code. */
  lemma SelectKeepsCodesUnique(selections: seq<ListViewSelection>, enabled: seq<ListViewSelection>, row: int, firstExclusive: bool)
    requires UniqueCodes(enabled)
    ensures UniqueCodes(AfterSelect(selections, enabled, row, firstExclusive))
  {
    var cleared := Cleared(selections, enabled, row, firstExclusive);
    if firstExclusive && row != 0 && |selections| > 0 && IndexOfData(enabled, selections[0].data).Some? {
      RemoveAtUnique(enabled, IndexOfData(enabled, selections[0].data).value);
    }
    assert UniqueCodes(cleared);
    var n := NewSelection(selections, cleared, row);
    if n.Some? {
      var r := cleared + [n.value];
      forall i, j | 0 <= i < j < |r| && r[i].data.Some?
        ensures r[i].data != r[j].data
      {
        if j == |cleared| {
          assert r[i] == cleared[i];
        } else {
          assert r[i] == cleared[i] && r[j] == cleared[j];
        }
      }
    }
  }

  /** Deselecting keeps the codes distinct. */
  lemma DeselectKeepsCodesUnique(selections: seq<ListViewSelection>, enabled: seq<ListViewSelection>, row: int)
    requires UniqueCodes(enabled)
    ensures UniqueCodes(AfterDeselect(selections, enabled, row))
  {
    if 0 <= row < |selections| && selections[row].data.Some? && IndexOfData(enabled, selections[row].data).Some? {
      RemoveAtUnique(enabled, IndexOfData(enabled, selections[row].data).value);
    }
  }

  /**
   * A row outside the list adds nothing: every entry afterwards was
   * enabled before, and without `firstExclusive` nothing changes.
   */
  lemma SelectOutOfRange(selections: seq<ListViewSelection>, enabled: seq<ListViewSelection>, row: int, firstExclusive: bool)
    requires row < 0 || row >= |selections|
    ensures var r := AfterSelect(selections, enabled, row, firstExclusive);
      && |r| <= |enabled|
      && (forall x :: x in r ==> x in enabled)
      && (!firstExclusive ==> r == enabled)
  {
    if firstExclusive && row != 0 && |selections| > 0 && IndexOfData(enabled, selections[0].data).Some? {
      RemoveAtSubset(enabled, IndexOfData(enabled, selections[0].data).value);
    }
  }

  /** With `firstExclusive`, selecting row 0 leaves only the first choice (or nothing when it has no code). */
  lemma ExclusiveFirstRow(selections: seq<ListViewSelection>, enabled: seq<ListViewSelection>)
    ensures AfterSelect(selections, enabled, 0, true)
      == if |selections| > 0 && selections[0].data.Some? then [selections[0]] else []
  {
    if |selections| > 0 && selections[0].data.Some? {
      assert !HasCode([], selections[0].data.value);
    }
  }

  /**
   * With `firstExclusive`, selecting another row whose code differs from
   * the first choice's turns the first choice off.
   */
  lemma ExclusiveOtherRow(selections: seq<ListViewSelection>, enabled: seq<ListViewSelection>, row: int)
    requires UniqueCodes(enabled)
    requires row != 0 && |selections| > 0 && selections[0].data.Some?
    requires 0 <= row < |selections| ==> selections[row].data != selections[0].data
    ensures !HasCode(AfterSelect(selections, enabled, row, true), selections[0].data.value)
  {
    var code := selections[0].data.value;
    var cleared := Cleared(selections, enabled, row, true);
    match IndexOfData(enabled, selections[0].data)
    case None =>
    case Some(i) =>
      assert !HasCode(cleared, code) by {
        forall k | 0 <= k < |cleared|
          ensures cleared[k].data != Some(code)
        {
          if k < i {
            assert cleared[k] == enabled[k];
          } else {
            assert cleared[k] == enabled[k + 1];
          }
        }
      }
  }

  /** After selecting a row that has a code, the row is drawn selected. */
  lemma SelectShowsRow(selections: seq<ListViewSelection>, enabled: seq<ListViewSelection>, row: int, firstExclusive: bool)
    requires 0 <= row < |selections| && selections[row].data.Some?
    ensures HasCode(AfterSelect(selections, enabled, row, firstExclusive), selections[row].data.value)
  {
    var cleared := Cleared(selections, enabled, row, firstExclusive);
    var r := AfterSelect(selections, enabled, row, firstExclusive);
    if NewSelection(selections, cleared, row).Some? {
      assert r[|cleared|] == selections[row];
    }
  }

  /** With distinct codes, deselecting a row with a code leaves no entry with that code. */
  lemma DeselectHidesRow(selections: seq<ListViewSelection>, enabled: seq<ListViewSelection>, row: int)
    requires UniqueCodes(enabled)
    requires 0 <= row < |selections| && selections[row].data.Some?
    ensures !HasCode(AfterDeselect(selections, enabled, row), selections[row].data.value)
  {
    var code := selections[row].data.value;
    var r := AfterDeselect(selections, enabled, row);
    match IndexOfData(enabled, Some(code))
    case None =>
    case Some(i) =>
      forall k | 0 <= k < |r|
        ensures r[k].data != Some(code)
      {
        if k < i {
          assert r[k] == enabled[k];
        } else {
          assert r[k] == enabled[k + 1];
        }
      }
  }

  /**
   * Deselecting undoes selecting: without `firstExclusive`, a row whose
   * code was not enabled, selected and then deselected, leaves the list
   * as it was.
   */
  lemma SelectThenDeselect(selections: seq<ListViewSelection>, enabled: seq<ListViewSelection>, row: int)
    requires 0 <= row < |selections| && selections[row].data.Some?
    requires !HasCode(enabled, selections[row].data.value)
    ensures AfterDeselect(selections, AfterSelect(selections, enabled, row, false), row) == enabled
  {
    var added := enabled + [selections[row]];
    assert added[|enabled|] == selections[row];
    assert IndexOfData(added, selections[row].data) == Some(|enabled|);
    assert added[..|enabled|] == enabled;
  }

  /**
   * Deselecting removes only the first entry with the row's code; when
   * the row is out of range, has no code, or no entry matches, nothing
   * changes.
   */
  lemma DeselectRemovesFirst(selections: seq<ListViewSelection>, enabled: seq<ListViewSelection>, row: int)
    ensures var r := AfterDeselect(selections, enabled, row);
      if 0 <= row < |selections| && selections[row].data.Some? && HasCode(enabled, selections[row].data.value)
      then exists i :: && 0 <= i < |enabled| && enabled[i].data == selections[row].data
                       && (forall k :: 0 <= k < i ==> enabled[k].data != selections[row].data)
                       && r == enabled[..i] + enabled[i + 1..]
      else r == enabled
  {
    if 0 <= row < |selections| && selections[row].data.Some? && HasCode(enabled, selections[row].data.value) {
      var i := IndexOfData(enabled, selections[row].data).value;
      assert AfterDeselect(selections, enabled, row) == enabled[..i] + enabled[i + 1..];
    }
  }
}
