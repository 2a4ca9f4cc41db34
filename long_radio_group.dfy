// com.longseong.preference.PreferenceRadioGroup (the older version): the
// selected entry of a radio list, kept in step with the checked flags of its
// child views; selecting an entry also copies the title shown by its view
// into the preference's content value.

module LongPreferenceRadioGroup {
  import opened JavaBase
  import opened RadioViews
  import opened LongPreference

  /**
   * How check(int) ends: refused (false), done (true), or with the
   * NullPointerException setChecked throws when there is no child view to
   * read a title from (no root view, or the index CHECKED_NULL).
   */
  datatype CheckResult = Refused | Done | Failed

  class PreferenceRadioGroup {
    const preference: Preference
    /** mRadioRootView != null */
    const hasRoot: bool
    /** Per child view: whether its R.id.radio view is a RadioButton. */
    const isButton: seq<bool>
    /** Per child view: the text of its R.id.list_item_title view. */
    const titles: seq<string>
    /** The checked flags of the child views' RadioButtons. */
    var views: seq<bool>
    var checkedIndex: int

    ghost predicate Valid()
      reads this
    {
      |views| == |isButton| == |titles|
    }

    constructor(preference: Preference, hasRoot: bool, isButton: seq<bool>, titles: seq<string>, views: seq<bool>)
      requires |views| == |isButton| == |titles|
      ensures Valid()
      ensures this.preference == preference && this.hasRoot == hasRoot
      ensures this.isButton == isButton && this.titles == titles && this.views == views
      ensures checkedIndex == CHECKED_NULL
    {
      this.preference := preference;
      this.hasRoot := hasRoot;
      this.isButton := isButton;
      this.titles := titles;
      this.views := views;
      checkedIndex := CHECKED_NULL;
    }

    /** The views check(next) touches exist, whenever it touches any. */
    predicate CanCheck(next: int)
      reads this
    {
      hasRoot && (next == CHECKED_NULL || next != checkedIndex) ==>
        IsViewIndex(checkedIndex, |views|) && IsViewIndex(next, |views|)
    }

    /**
     * check(int): re-selecting the current entry is refused; anything else
     * repaints the views and moves the selection, and then takes the
     * selected view's title as the content value, which fails when there is
     * no such view.
     */
    method Check(next: int) returns (r: CheckResult)
      requires Valid() && CanCheck(next)
      modifies this`views, this`checkedIndex, preference`contentValue
      ensures Valid()
      ensures r == Refused <==> next != CHECKED_NULL && next == old(checkedIndex)
      ensures r == Done <==> r != Refused && hasRoot && next != CHECKED_NULL
      ensures r == Refused ==> checkedIndex == old(checkedIndex) && views == old(views)
      ensures r != Refused ==> checkedIndex == next
      ensures r != Refused ==> views == Repaint(hasRoot, isButton, old(views), old(checkedIndex), next)
      ensures r == Done ==> preference.contentValue == Some(titles[next])
      ensures r != Done ==> preference.contentValue == old(preference.contentValue)
      ensures hasRoot && Exclusive(isButton, old(views), old(checkedIndex)) ==> Exclusive(isButton, views, checkedIndex)
    {
      if hasRoot && (next == CHECKED_NULL || next != checkedIndex) && Exclusive(isButton, views, checkedIndex) {
        RepaintExclusive(isButton, views, checkedIndex, next);
      }
      if next != CHECKED_NULL && next == checkedIndex {
        return Refused;
      }
      if checkedIndex != CHECKED_NULL {
        SetCheckedStateForView(checkedIndex, false);
      }
      if next != CHECKED_NULL {
        SetCheckedStateForView(next, true);
      }
      r := SetChecked(next);
    }

    /** setChecked: records the index, then copies the child's title into the preference. */
    method SetChecked(next: int) returns (r: CheckResult)
      requires Valid() && (hasRoot && next != CHECKED_NULL ==> 0 <= next < |titles|)
      modifies this`checkedIndex, preference`contentValue
      ensures checkedIndex == next
      ensures r == (if hasRoot && next != CHECKED_NULL then Done else Failed)
      ensures r == Done ==> preference.contentValue == Some(titles[next])
      ensures r != Done ==> preference.contentValue == old(preference.contentValue)
    {
      checkedIndex := next;
      if !hasRoot || next == CHECKED_NULL {
        return Failed;
      }
      preference.SetContentValue(Some(titles[next]));
      r := Done;
    }

    /** setIndexOnly: records a selection without touching any view. */
    method SetIndexOnly(next: int)
      modifies this`checkedIndex
      ensures checkedIndex == if next != CHECKED_NULL then next else old(checkedIndex)
    {
      if next != CHECKED_NULL {
        checkedIndex := next;
      }
    }

    method SetCheckedStateForView(k: int, b: bool)
      requires Valid() && (hasRoot ==> 0 <= k < |views|)
      modifies this`views
      ensures Valid()
      ensures views == SetViewState(hasRoot, isButton, old(views), k, b)
    {
      if !hasRoot {
        return;
      }
      if isButton[k] {
        views := views[k := b];
      }
    }
  }
}
