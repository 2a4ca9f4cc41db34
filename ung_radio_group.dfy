// com.ungseong.preference.PreferenceRadioGroup: the selected entry of a radio
// list, kept in step with the checked flags of its child views.

module UngPreferenceRadioGroup {
  import opened RadioViews
  import opened UngPreference

  class PreferenceRadioGroup {
    const preference: Preference
    /** mRadioRootView != null */
    const hasRoot: bool
    /** Per child view: whether its R.id.radio view is a RadioButton. */
    const isButton: seq<bool>
    /** The checked flags of the child views' RadioButtons. */
    var views: seq<bool>
    var checkedIndex: int

    ghost predicate Valid()
      reads this
    {
      |views| == |isButton|
    }

    constructor(preference: Preference, hasRoot: bool, isButton: seq<bool>, views: seq<bool>)
      requires |views| == |isButton|
      ensures Valid()
      ensures this.preference == preference && this.hasRoot == hasRoot
      ensures this.isButton == isButton && this.views == views
      ensures checkedIndex == CHECKED_NULL
    {
      this.preference := preference;
      this.hasRoot := hasRoot;
      this.isButton := isButton;
      this.views := views;
      checkedIndex := CHECKED_NULL;
    }

    /** The views check(next) touches exist, whenever it touches any. */
    predicate CanCheck(next: int)
      reads this
    {
      hasRoot && (next == CHECKED_NULL || next != checkedIndex) ==>
        IsViewIndex(checkedIndex, |views|) && IsViewIndex(next, |views|)
    }

    /**
     * check(int): re-selecting the current entry is refused; anything else,
     * CHECKED_NULL included, repaints the views and moves the selection.
     */
    method Check(next: int) returns (changed: bool)
      requires Valid() && CanCheck(next)
      modifies this`views, this`checkedIndex
      ensures Valid()
      ensures changed <==> !(next != CHECKED_NULL && next == old(checkedIndex))
      ensures changed ==> checkedIndex == next
      ensures changed ==> views == Repaint(hasRoot, isButton, old(views), old(checkedIndex), next)
      ensures !changed ==> checkedIndex == old(checkedIndex) && views == old(views)
      ensures hasRoot && Exclusive(isButton, old(views), old(checkedIndex)) ==> Exclusive(isButton, views, checkedIndex)
    {
      if hasRoot && (next == CHECKED_NULL || next != checkedIndex) && Exclusive(isButton, views, checkedIndex) {
        RepaintExclusive(isButton, views, checkedIndex, next);
      }
      if next != CHECKED_NULL && next == checkedIndex {
        return false;
      }
      if checkedIndex != CHECKED_NULL {
        SetCheckedStateForView(checkedIndex, false);
      }
      if next != CHECKED_NULL {
        SetCheckedStateForView(next, true);
      }
      checkedIndex := next;
      return true;
    }

    /** check(RadioInfo): the same as checking the entry's index. */
    method CheckInfo(info: RadioInfo) returns (changed: bool)
      requires Valid() && CanCheck(info.index)
      modifies this`views, this`checkedIndex
      ensures Valid()
      ensures changed <==> !(info.index != CHECKED_NULL && info.index == old(checkedIndex))
      ensures changed ==> checkedIndex == info.index
      ensures changed ==> views == Repaint(hasRoot, isButton, old(views), old(checkedIndex), info.index)
      ensures !changed ==> checkedIndex == old(checkedIndex) && views == old(views)
      ensures hasRoot && Exclusive(isButton, old(views), old(checkedIndex)) ==> Exclusive(isButton, views, checkedIndex)
    {
      changed := Check(info.index);
    }

    /** setIndexOnly: records a selection without touching any view. */
    method SetIndexOnly(next: int)
      modifies this`checkedIndex
      ensures checkedIndex == if next != CHECKED_NULL then next else old(checkedIndex)
    {
      if next != CHECKED_NULL {
        checkedIndex := next;
      }
    }

    method SetCheckedStateForView(k: int, b: bool)
      requires Valid() && (hasRoot ==> 0 <= k < |views|)
      modifies this`views
      ensures Valid()
      ensures views == SetViewState(hasRoot, isButton, old(views), k, b)
    {
      if !hasRoot {
        return;
      }
      if isButton[k] {
        views := views[k := b];
      }
    }
  }
}
