// The child views of a radio list as PreferenceRadioGroup sees them: the root
// view may be missing, each child either holds a RadioButton under R.id.radio
// or not, and each RadioButton carries a checked flag.

module RadioViews {
  /** PreferenceRadioGroup.CHECKED_NULL: no entry selected. */
  const CHECKED_NULL: int := -1

  /** An index getChildAt can answer: the sentinel, or an existing child. */
  predicate IsViewIndex(k: int, count: nat)
  {
    k == CHECKED_NULL || 0 <= k < count
  }

  /**
   * setCheckedStateForView(k, b): nothing without a root view; otherwise
   * only child k's flag changes, and only if that child is a RadioButton.
   */
  function SetViewState(hasRoot: bool, isButton: seq<bool>, views: seq<bool>, k: int, b: bool): (r: seq<bool>)
    requires |views| == |isButton|
    requires hasRoot ==> 0 <= k < |views|
    ensures |r| == |views|
    ensures !hasRoot ==> r == views
    ensures hasRoot && isButton[k] ==> r[k] == b
    ensures forall j :: 0 <= j < |views| && (j != k || !hasRoot || !isButton[k]) ==> r[j] == views[j]
  {
    if hasRoot && isButton[k] then views[k := b] else views
  }

  /**
   * The view side of check(next) once it goes ahead: the previous
   * selection's view is unchecked, then the new one's is checked.
   */
  function Repaint(hasRoot: bool, isButton: seq<bool>, views: seq<bool>, prev: int, next: int): (r: seq<bool>)
    requires |views| == |isButton|
    requires hasRoot ==> IsViewIndex(prev, |views|) && IsViewIndex(next, |views|)
    ensures |r| == |views|
  {
    var cleared := if prev != CHECKED_NULL then SetViewState(hasRoot, isButton, views, prev, false) else views;
    if next != CHECKED_NULL then SetViewState(hasRoot, isButton, cleared, next, true) else cleared
  }

  /** Of the RadioButtons, at most that of index sel is checked (none when sel is CHECKED_NULL). */
  predicate Exclusive(isButton: seq<bool>, views: seq<bool>, sel: int)
    requires |views| == |isButton|
  {
    forall j :: 0 <= j < |views| && isButton[j] && views[j] ==> j == sel
  }

  /**
   * A repaint keeps the radio property: if only the previous selection's
   * view was checked, afterwards only the new selection's view is, and it is
   * checked whenever it is a RadioButton.
   */
  lemma RepaintExclusive(isButton: seq<bool>, views: seq<bool>, prev: int, next: int)
    requires |views| == |isButton|
    requires IsViewIndex(prev, |views|) && IsViewIndex(next, |views|)
    requires Exclusive(isButton, views, prev)
    ensures Exclusive(isButton, Repaint(true, isButton, views, prev, next), next)
    ensures next != CHECKED_NULL && isButton[next] ==> Repaint(true, isButton, views, prev, next)[next]
  {
    var r := Repaint(true, isButton, views, prev, next);
    var cleared := if prev != CHECKED_NULL then SetViewState(true, isButton, views, prev, false) else views;
    assert Exclusive(isButton, cleared, CHECKED_NULL) by {
      forall j | 0 <= j < |cleared| && isButton[j]
        ensures !cleared[j]
      {
        if j != prev {
          assert cleared[j] == views[j];
        }
      }
    }
    forall j | 0 <= j < |r| && isButton[j] && j != next
      ensures !r[j]
    {
      assert r[j] == cleared[j];
    }
  }

  /** Without a root view a repaint changes nothing. */
  lemma RepaintWithoutRoot(isButton: seq<bool>, views: seq<bool>, prev: int, next: int)
    requires |views| == |isButton|
    ensures Repaint(false, isButton, views, prev, next) == views
  {
  }
}
