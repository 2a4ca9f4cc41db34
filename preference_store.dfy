// SharedPreferences as both PreferenceManager versions use it: one string
// key per stored value, formed from the preference's access name and a
// suffix, holding a boolean or a string.

module PreferenceStore {
  const SWITCH_VALUE: string := "_switchValue"
  const CONTENT_VALUE: string := "_contentValue"
  const CONTENT_VALUE_RAW: string := "_contentValueRaw"

  // SaveOptimizer flags
  const FLAG_SAVE_ALL: int := -1
  const FLAG_SAVE_SWITCH_VALUE: int := 1
  const FLAG_SAVE_CONTENT_VALUE: int := 2
  const FLAG_SAVE_CONTENT_VALUE_RAW: int := 4

  datatype StoreValue = BoolValue(flag: bool) | StringValue(text: string)

  type Store = map<string, StoreValue>

  function SwitchKey(accessName: string): string { accessName + SWITCH_VALUE }
  function ContentKey(accessName: string): string { accessName + CONTENT_VALUE }
  function RawKey(accessName: string): string { accessName + CONTENT_VALUE_RAW }

  /** The three keys of any two preferences never collide across kinds. */
  lemma KeysDistinct(a: string, b: string)
    ensures SwitchKey(a) != ContentKey(b)
    ensures SwitchKey(a) != RawKey(b)
    ensures ContentKey(a) != RawKey(b)
    ensures SwitchKey(a) == SwitchKey(b) ==> a == b
    ensures ContentKey(a) == ContentKey(b) ==> a == b
    ensures RawKey(a) == RawKey(b) ==> a == b
  {
    var sa, ca, ra := SwitchKey(a), ContentKey(a), RawKey(a);
    var sb, cb, rb := SwitchKey(b), ContentKey(b), RawKey(b);
    assert sa[|sa| - 6] == 'h' && sb[|sb| - 6] == 'h';
    assert ca[|ca| - 6] == 't' && cb[|cb| - 6] == 't';
    assert rb[|rb| - 1] == 'w' && ra[|ra| - 1] == 'w';
    assert sa[|sa| - 1] == 'e' && ca[|ca| - 1] == 'e';
    if sa == sb {
      assert a == sa[..|a|] && b == sb[..|b|];
    }
    if ca == cb {
      assert a == ca[..|a|] && b == cb[..|b|];
    }
    if ra == rb {
      assert a == ra[..|a|] && b == rb[..|b|];
    }
  }

  /** getBoolean / getString would throw ClassCastException on the other kind. */
  predicate HoldsBoolean(store: Store, key: string) { key !in store || store[key].BoolValue? }
  predicate HoldsString(store: Store, key: string) { key !in store || store[key].StringValue? }

  /** The three keys of this preference hold values of the kind they are read as. */
  predicate Loadable(store: Store, accessName: string)
  {
    HoldsBoolean(store, SwitchKey(accessName)) &&
    HoldsString(store, ContentKey(accessName)) &&
    HoldsString(store, RawKey(accessName))
  }

  function GetBoolean(store: Store, key: string, defaultValue: bool): bool
    requires HoldsBoolean(store, key)
  {
    if key in store then store[key].flag else defaultValue
  }

  function GetString(store: Store, key: string, defaultValue: string): string
    requires HoldsString(store, key)
  {
    if key in store then store[key].text else defaultValue
  }
}
