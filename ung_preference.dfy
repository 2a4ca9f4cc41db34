// com.ungseong.preference.Preference: a node of the preference tree, its
// optional capabilities (switch, text input, radio choice, seek bar, intent),
// the Builder that collects its attributes in a Bundle, and the parser of a
// radio-choice XML resource.

module UngPreference {
  import opened JavaBase
  import opened PreferenceXml

  /** ResourcesCompat.ID_NULL */
  const ID_NULL: int := 0
  /** EditorInfo.TYPE_CLASS_TEXT */
  const TYPE_CLASS_TEXT: int := 1

  // ---------------------------------------------------------------------
  // Preference.Type

  datatype Type = ExplainType | TextType | RadioType | SeekBarType | IntentType
  {
    function GetValue(): (v: int)
      ensures 0 <= v <= 4
    {
      match this
      case ExplainType => 0
      case TextType => 1
      case RadioType => 2
      case SeekBarType => 3
      case IntentType => 4
    }

    /** Only seek-bar and intent preferences cannot carry a switch. */
    predicate SwitchAvailable()
    {
      !(this == SeekBarType || this == IntentType)
    }
  }

  /** Type.valueOf: the type with that number; any other number is EXPLAIN. */
  function ValueOf(value: int): (t: Type)
    ensures 0 <= value <= 4 ==> t.GetValue() == value
    ensures !(0 <= value <= 4) ==> t == ExplainType
  {
    if value == 1 then TextType
    else if value == 2 then RadioType
    else if value == 3 then SeekBarType
    else if value == 4 then IntentType
    else ExplainType
  }

  /** A type survives the trip through its number. */
  lemma ValueOfGetValue(t: Type)
    ensures ValueOf(t.GetValue()) == t
  {
  }

  // ---------------------------------------------------------------------
  // Radio XML resources

  /** One entry of a radio list: its position, key, title and description. */
  datatype RadioInfo = RadioInfo(index: int, key: string, title: string, description: string)

  type RadioMap = LinkedMap<string, RadioInfo>

  /**
   * Parser events of a radio XML resource. An "entry" start tag carries its
   * key, title and description attributes (None when absent); Skip is any
   * other event; Broken is the parser raising XmlPullParserException or
   * IOException.
   */
  datatype RadioEvent =
    | Entry(key: Option<string>, title: Option<string>, description: Option<string>)
    | Skip
    | Broken

  /** A radio XML resource id together with its parsed-event content. */
  datatype RadioResource = RadioResource(resId: int, document: seq<RadioEvent>)

  /** The state of Radio.parseXmlMap's loop: the map, the next index, or failure. */
  datatype RadioParse = RadioParse(map_: RadioMap, nextIndex: nat) | RadioFailed

  /** Does this event make parseXmlMap throw? */
  predicate RadioEventFails(e: RadioEvent)
  {
    e.Broken? || (e.Entry? && e.key == Some("") && e.title.Some?)
  }

  /** Does this event put an entry into the map? */
  predicate RadioEventAccepted(e: RadioEvent)
  {
    e.Entry? && e.key.Some? && e.key.value != "" && e.title.Some?
  }

  function DescriptionOrEmpty(d: Option<string>): string
  {
    if d.Some? then d.value else ""
  }

  function RadioStep(st: RadioParse, e: RadioEvent): RadioParse
  {
    if st.RadioFailed? then st
    else if RadioEventFails(e) then RadioFailed
    else if RadioEventAccepted(e) then
      var info := RadioInfo(st.nextIndex, e.key.value, e.title.value, DescriptionOrEmpty(e.description));
      RadioParse(st.map_.Put(e.key.value, info), st.nextIndex + 1)
    else st
  }

  function RadioRun(events: seq<RadioEvent>): RadioParse
  {
    if events == [] then RadioParse(EmptyLinkedMap(), 0)
    else RadioStep(RadioRun(events[..|events| - 1]), events[|events| - 1])
  }

  /** What Radio.parseXmlMap returns; None when it throws. */
  function RadioMapOf(events: seq<RadioEvent>): Option<RadioMap>
  {
    var st := RadioRun(events);
    if st.RadioFailed? then None else Some(st.map_)
  }

  /** The number of entries accepted among the events. */
  function AcceptedCount(events: seq<RadioEvent>): nat
  {
    if events == [] then 0
    else AcceptedCount(events[..|events| - 1]) + (if RadioEventAccepted(events[|events| - 1]) then 1 else 0)
  }

  /**
   * Radio.parseXmlMap: walks the resource's events; every "entry" with both
   * a key and a title is put under its key with the running index; an entry
   * with an empty key, or a parser error, throws.
   */
  method ParseXmlMap(document: seq<RadioEvent>) returns (r: Option<RadioMap>)
    ensures r == RadioMapOf(document)
  {
    var map_: RadioMap := EmptyLinkedMap();
    var radioInfoIndex: nat := 0;
    var i := 0;
    while i < |document|
      invariant 0 <= i <= |document|
      invariant RadioRun(document[..i]) == RadioParse(map_, radioInfoIndex)
    {
      assert document[..i + 1][..i] == document[..i];
      var e := document[i];
      if e.Broken? {
        RadioFailedStays(document, i + 1);
        assert document[..|document|] == document;
        return None;
      }
      if e.Entry? && e.key.Some? && e.title.Some? {
        if e.key.value == "" {
          RadioFailedStays(document, i + 1);
          assert document[..|document|] == document;
          return None;
        }
        var info := RadioInfo(radioInfoIndex, e.key.value, e.title.value, DescriptionOrEmpty(e.description));
        map_ := map_.Put(e.key.value, info);
        radioInfoIndex := radioInfoIndex + 1;
      }
      i := i + 1;
    }
    assert document[..i] == document;
    return Some(map_);
  }

  /** Once parsing has failed, later events do not revive it. */
  lemma {:induction false} RadioFailedStays(events: seq<RadioEvent>, n: nat)
    requires n <= |events| && RadioRun(events[..n]).RadioFailed?
    ensures RadioRun(events).RadioFailed?
    decreases |events| - n
  {
    if n < |events| {
      assert events[..n + 1][..n] == events[..n];
      RadioFailedStays(events, n + 1);
    } else {
      assert events[..n] == events;
    }
  }

  /** The map is a well-formed LinkedHashMap whose next index counts the puts. */
  lemma {:induction false} RadioRunShape(events: seq<RadioEvent>)
    ensures RadioRun(events).RadioParse? ==>
      RadioRun(events).map_.Valid() && RadioRun(events).nextIndex == AcceptedCount(events)
    decreases |events|
  {
    if events != [] {
      RadioRunShape(events[..|events| - 1]);
    }
  }

  /** parseXmlMap throws exactly when some event is a parser error or an empty key. */
  lemma {:induction false} RadioMapFailure(events: seq<RadioEvent>)
    ensures RadioMapOf(events).None? <==> exists i :: 0 <= i < |events| && RadioEventFails(events[i])
    decreases |events|
  {
    if events != [] {
      var init := events[..|events| - 1];
      RadioMapFailure(init);
      if exists i :: 0 <= i < |init| && RadioEventFails(init[i]) {
        var i :| 0 <= i < |init| && RadioEventFails(init[i]);
        assert RadioEventFails(events[i]);
      }
      if exists i :: 0 <= i < |events| && RadioEventFails(events[i]) {
        var i :| 0 <= i < |events| && RadioEventFails(events[i]);
        if i < |init| {
          assert RadioEventFails(init[i]);
        }
      }
    }
  }

  /** Event i is the last accepted entry with key k. */
  ghost predicate IsLastEntry(events: seq<RadioEvent>, i: int, k: string)
  {
    0 <= i < |events| && RadioEventAccepted(events[i]) && events[i].key.value == k &&
    forall j :: i < j < |events| && RadioEventAccepted(events[j]) ==> events[j].key.value != k
  }

  /**
   * Entry i's RadioInfo: its key, title and description (null read as ""),
   * numbered by how many entries were accepted before it.
   */
  ghost predicate InfoFrom(info: RadioInfo, events: seq<RadioEvent>, i: int)
    requires 0 <= i < |events| && RadioEventAccepted(events[i])
  {
    var e := events[i];
    info.index == AcceptedCount(events[..i]) &&
    info.key == e.key.value && info.title == e.title.value && info.description == DescriptionOrEmpty(e.description)
  }

  /** Without a failure, every accepted entry's key is in the map. */
  lemma {:induction false} RadioMapCovers(events: seq<RadioEvent>)
    requires RadioRun(events).RadioParse?
    ensures forall i :: 0 <= i < |events| && RadioEventAccepted(events[i]) ==>
      events[i].key.value in RadioRun(events).map_.entries
    decreases |events|
  {
    if events != [] {
      RadioMapCovers(events[..|events| - 1]);
    }
  }

  /** An entry last with its key stays last when the next event does not put that key. */
  lemma LastEntryKept(events: seq<RadioEvent>, i: int, k: string)
    requires |events| > 0 && IsLastEntry(events[..|events| - 1], i, k)
    requires !(RadioEventAccepted(events[|events| - 1]) && events[|events| - 1].key.value == k)
    ensures IsLastEntry(events, i, k)
  {
  }

  /**
   * Without a failure, each key holds the last entry with that key: its
   * title, its description and the index that entry was numbered with.
   */
  lemma {:induction false} RadioMapLastWins(events: seq<RadioEvent>)
    requires RadioRun(events).RadioParse?
    ensures forall k :: k in RadioRun(events).map_.entries ==>
      exists i :: IsLastEntry(events, i, k) && InfoFrom(RadioRun(events).map_.entries[k], events, i)
    decreases |events|
  {
    if events != [] {
      var n := |events| - 1;
      var init := events[..n];
      var e := events[n];
      RadioMapLastWins(init);
      RadioRunShape(init);
      var m0 := RadioRun(init).map_;
      var m := RadioRun(events).map_;
      forall k | k in m.entries
        ensures exists i :: IsLastEntry(events, i, k) && InfoFrom(m.entries[k], events, i)
      {
        if RadioEventAccepted(e) && e.key.value == k {
          assert m.entries[k].index == AcceptedCount(init);
          assert IsLastEntry(events, n, k) && InfoFrom(m.entries[k], events, n);
        } else {
          assert k in m0.entries && m.entries[k] == m0.entries[k];
          var i :| IsLastEntry(init, i, k) && InfoFrom(m0.entries[k], init, i);
          LastEntryKept(events, i, k);
          assert init[i] == events[i] && init[..i] == events[..i];
          assert InfoFrom(m.entries[k], events, i);
        }
      }
    }
  }

  // ---------------------------------------------------------------------
  // Preference.Builder's Bundle. A key the builder never put reads as 0,
  // false or, for the radio resource, ID_NULL.

  datatype Bundle = Bundle(
    id: int,
    accessName: string,
    typeValue: int,
    iconRes: int,
    title: string,
    defaultValue: string,
    description: string,
    detailedDescription: string,
    enabled: bool,
    inputType: int,
    switchUsage: bool,
    switchDefaultValue: bool,
    radioResource: RadioResource,
    seekBarMax: int,
    seekBarMin: int,
    seekBarReplaceIcon: bool,
    seekBarMuteUsage: bool)

  /** The Builder constructor's bundle. */
  function DefaultBundle(): (b: Bundle)
    ensures b.id == ID_NULL && b.accessName == "" && ValueOf(b.typeValue) == ExplainType
    ensures b.iconRes == ID_NULL && b.enabled && b.inputType == TYPE_CLASS_TEXT
    ensures b.title == "" && b.defaultValue == "" && b.description == "" && b.detailedDescription == ""
    ensures !b.switchUsage && !b.switchDefaultValue && b.radioResource.resId == ID_NULL
    ensures b.seekBarMax == 0 && b.seekBarMin == 0 && !b.seekBarReplaceIcon && !b.seekBarMuteUsage
  {
    Bundle(ID_NULL, "", ExplainType.GetValue(), ID_NULL, "", "", "", "", true, TYPE_CLASS_TEXT,
           false, false, RadioResource(ID_NULL, []), 0, 0, false, false)
  }

  /**
   * The seek-bar default of a SEEK_BAR preference: the given text parsed as
   * an int, or, for an empty text, the Java int midpoint (max + min) / 2.
   * None: Integer.parseInt throws NumberFormatException.
   */
  function SeekBarDefault(defaultValue: string, max: int, min: int): (r: Option<int>)
    ensures defaultValue != "" ==> r == ParseInt(defaultValue)
    ensures defaultValue == "" && min <= max && IsInt32(max + min) ==> r.Some? && min <= r.value <= max
  {
    if defaultValue == "" then Some(DivTrunc(Wrap32(max + min), 2)) else ParseInt(defaultValue)
  }

  /** Creating a preference from this bundle does not throw. */
  predicate Creatable(b: Bundle)
  {
    ValueOf(b.typeValue) == SeekBarType ==> SeekBarDefault(b.defaultValue, b.seekBarMax, b.seekBarMin).Some?
  }

  // ---------------------------------------------------------------------
  // Capabilities

  /** Preference.Switch */
  class Switch {
    const enabled: bool
    const defaultChecked: bool
    var checked: bool

    constructor(enabled: bool, defaultChecked: bool)
      ensures this.enabled == enabled && this.defaultChecked == defaultChecked && !checked
    {
      this.enabled := enabled;
      this.defaultChecked := defaultChecked;
      checked := false;
    }

    predicate IsValid()
    {
      enabled
    }

    method SetChecked(checked: bool)
      modifies this
      ensures this.checked == checked
    {
      this.checked := checked;
    }

    method Toggle()
      modifies this
      ensures checked == !old(checked)
    {
      checked := !checked;
    }
  }

  datatype Dialog = Dialog(token: nat)

  /** Preference.Input: a disabled input never records its input type. */
  class Input {
    const enabled: bool
    var dialog: Option<Dialog>
    var inputType: int

    constructor(enabled: bool, inputType: int)
      ensures this.enabled == enabled && dialog.None?
      ensures this.inputType == if enabled then inputType else 0
    {
      this.enabled := enabled;
      dialog := None;
      this.inputType := if enabled then inputType else 0;
    }

    predicate IsValid()
      reads this
    {
      enabled && dialog.Some?
    }

    method SetDialog(dialog: Option<Dialog>)
      modifies this
      ensures this.dialog == dialog && inputType == old(inputType)
    {
      this.dialog := dialog;
    }

    method SetInputType(inputType: int)
      modifies this
      ensures this.inputType == inputType && dialog == old(dialog)
    {
      this.inputType := inputType;
    }
  }

  /** Preference.Radio: a disabled radio drops the map it is given. */
  class Radio {
    const enabled: bool
    var radioMap: Option<RadioMap>

    constructor(enabled: bool, radioMap: Option<RadioMap>)
      ensures this.enabled == enabled
      ensures this.radioMap == if enabled then radioMap else None
    {
      this.enabled := enabled;
      this.radioMap := if enabled then radioMap else None;
    }

    /** The held map, if any, is a well-formed LinkedHashMap. */
    ghost predicate Valid()
      reads this
    {
      radioMap.Some? ==> radioMap.value.Valid()
    }

    predicate IsValid()
      reads this
    {
      enabled && radioMap.Some? && radioMap.value.Size() > 0
    }

    method SetRadioMap(radioMap: Option<RadioMap>)
      requires radioMap.Some? ==> radioMap.value.Valid()
      modifies this
      ensures this.radioMap == radioMap && Valid()
    {
      this.radioMap := radioMap;
    }
  }

  /** The observable state of a SeekBar. */
  datatype SeekState = SeekState(
    enabled: bool,
    defaultValue: int,
    progressRaw: int,
    progress: int,
    maxValue: int,
    minValue: int,
    muteUsage: bool,
    muted: bool)
  {
    predicate IsValid()
    {
      enabled && maxValue > minValue
    }

    /** setProgress: the raw value is kept, the progress is clamped. */
    function WithProgress(v: int): SeekState
    {
      this.(progressRaw := v, progress := Clamp(v, minValue, maxValue))
    }

    function WithProgressRaw(v: int): SeekState
    {
      this.(progressRaw := v)
    }

    /** resetToDefault */
    function Reset(): SeekState
    {
      WithProgress(defaultValue).WithProgressRaw(defaultValue)
    }

    /** getProgressValue: a muted seek bar reports its minimum. */
    function ProgressValue(): int
    {
      if muted then minValue else progress
    }
  }

  /** A valid seek bar reports a value within [min, max] after any setProgress. */
  lemma ProgressValueInRange(s: SeekState, v: int)
    requires s.IsValid()
    ensures s.minValue <= s.WithProgress(v).ProgressValue() <= s.maxValue
    ensures !s.muted && s.minValue <= v <= s.maxValue ==> s.WithProgress(v).ProgressValue() == v
  {
  }

  /** resetToDefault leaves raw value and progress at the default, whatever they were. */
  lemma ResetForgetsProgress(s: SeekState, v: int)
    ensures s.WithProgress(v).Reset() == s.Reset()
    ensures s.Reset().progressRaw == s.defaultValue
    ensures s.minValue <= s.defaultValue <= s.maxValue ==> s.Reset().progress == s.defaultValue
  {
  }

  /** Preference.SeekBar */
  class SeekBar {
    const enabled: bool
    var defaultValue: int
    var progressRaw: int
    var progress: int
    var maxValue: int
    var minValue: int
    const muteUsage: bool
    var muted: bool
    const iconUsing: bool
    var replaceIcon: bool

    function State(): SeekState
      reads this
    {
      SeekState(enabled, defaultValue, progressRaw, progress, maxValue, minValue, muteUsage, muted)
    }

    /**
     * A disabled seek bar keeps every field at zero or false. An enabled one
     * takes the default from SeekBarDefault, which throws on an unparsable
     * non-empty text: callers must not pass one.
     */
    constructor(iconRes: int, enabled: bool, defaultValue: string, max: int, min: int,
                replaceIcon: bool, muteUsage: bool)
      requires enabled ==> SeekBarDefault(defaultValue, max, min).Some?
      ensures this.enabled == enabled && progressRaw == 0 && progress == 0 && !muted && !iconUsing
      ensures enabled ==> (this.defaultValue == SeekBarDefault(defaultValue, max, min).value &&
        maxValue == max && minValue == min && this.muteUsage == muteUsage && this.replaceIcon == replaceIcon)
      ensures !enabled ==> (this.defaultValue == 0 && maxValue == 0 && minValue == 0 &&
        !this.muteUsage && !this.replaceIcon)
    {
      this.enabled := enabled;
      progressRaw := 0;
      progress := 0;
      muted := false;
      iconUsing := false;
      if enabled {
        this.defaultValue := SeekBarDefault(defaultValue, max, min).value;
        maxValue := max;
        minValue := min;
        this.muteUsage := muteUsage;
        this.replaceIcon := replaceIcon;
      } else {
        this.defaultValue := 0;
        maxValue := 0;
        minValue := 0;
        this.muteUsage := false;
        this.replaceIcon := false;
      }
    }

    predicate IsValid()
      reads this
    {
      State().IsValid()
    }

    method SetProgress(value: int)
      modifies this
      ensures State() == old(State()).WithProgress(value) && replaceIcon == old(replaceIcon)
    {
      SetProgressRaw(value);
      var v := value;
      if v > maxValue {
        v := maxValue;
      } else if v < minValue {
        v := minValue;
      }
      progress := v;
    }

    method SetProgressRaw(value: int)
      modifies this
      ensures State() == old(State()).WithProgressRaw(value) && replaceIcon == old(replaceIcon)
    {
      progressRaw := value;
    }

    method ResetToDefault()
      modifies this
      ensures State() == old(State()).Reset() && replaceIcon == old(replaceIcon)
    {
      SetProgress(defaultValue);
      SetProgressRaw(defaultValue);
    }

    function ProgressValue(): int
      reads this
    {
      State().ProgressValue()
    }

    method SetDefaultValue(v: int)
      modifies this
      ensures State() == old(State()).(defaultValue := v) && replaceIcon == old(replaceIcon)
    {
      defaultValue := v;
    }

    method SetMaxValue(v: int)
      modifies this
      ensures State() == old(State()).(maxValue := v) && replaceIcon == old(replaceIcon)
    {
      maxValue := v;
    }

    method SetMinValue(v: int)
      modifies this
      ensures State() == old(State()).(minValue := v) && replaceIcon == old(replaceIcon)
    {
      minValue := v;
    }

    /** isIconHolderUsing: the icon holder is shown when an icon is used or replaced. */
    predicate IsIconHolderUsing()
      reads this
    {
      iconUsing || replaceIcon
    }

    method SetReplaceIcon(replaceIcon: bool)
      modifies this
      ensures State() == old(State()) && this.replaceIcon == replaceIcon
    {
      this.replaceIcon := replaceIcon;
    }

    method SetMute(muted: bool)
      modifies this
      ensures State() == old(State()).(muted := muted) && replaceIcon == old(replaceIcon)
    {
      this.muted := muted;
    }

    method ToggleMute()
      modifies this
      ensures State() == old(State()).(muted := !old(muted)) && replaceIcon == old(replaceIcon)
    {
      muted := !muted;
    }
  }

  /** Preference.Intent, without its launcher. */
  class Intent {
    const enabled: bool
    const iconUsing: bool

    constructor(enabled: bool, iconRes: int)
      ensures this.enabled == enabled && iconUsing == (enabled && iconRes != ID_NULL)
    {
      this.enabled := enabled;
      iconUsing := enabled && iconRes != ID_NULL;
    }
  }

  // ---------------------------------------------------------------------
  // Preference

  /**
   * What new Preference(bundle) and initPreference leave in a fresh node:
   * the bundle's fields, no content value yet, and each capability as its
   * type and the bundle's flags decide.
   */
  ghost predicate BuiltFrom(p: Preference, bundle: Bundle)
    reads p, p.sw, p.input, p.radio, p.seekBar, p.intent
  {
    p.id == bundle.id && p.accessName == bundle.accessName && p.kind == ValueOf(bundle.typeValue) &&
    p.iconRes == bundle.iconRes && p.title == bundle.title && p.description == bundle.description &&
    p.detailedDescription == bundle.detailedDescription && p.enabled == bundle.enabled &&
    p.defaultValue == bundle.defaultValue && p.contentValue.None? && p.contentValueRaw.None? &&
    CapabilitiesFrom(p.sw, p.input, p.radio, p.seekBar, p.intent, bundle)
  }

  /** Each capability as the bundle's type and flags decide. */
  ghost predicate CapabilitiesFrom(sw: Switch, input: Input, radio: Radio, seekBar: SeekBar, intent: Intent,
                                   bundle: Bundle)
    reads sw, input, radio, seekBar, intent
  {
    var kind := ValueOf(bundle.typeValue);
    sw.enabled == (bundle.switchUsage && kind.SwitchAvailable()) &&
    sw.defaultChecked == bundle.switchDefaultValue && !sw.checked &&
    input.enabled == (kind == TextType) && input.dialog.None? &&
    input.inputType == (if kind == TextType then bundle.inputType else 0) &&
    radio.enabled == (bundle.radioResource.resId != ID_NULL && RadioMapOf(bundle.radioResource.document).Some?) &&
    radio.radioMap == (if radio.enabled then RadioMapOf(bundle.radioResource.document) else None) &&
    seekBar.enabled == (kind == SeekBarType) &&
    (seekBar.enabled ==>
      SeekBarDefault(bundle.defaultValue, bundle.seekBarMax, bundle.seekBarMin).Some? &&
      seekBar.State() == SeekState(true,
        SeekBarDefault(bundle.defaultValue, bundle.seekBarMax, bundle.seekBarMin).value, 0, 0,
        bundle.seekBarMax, bundle.seekBarMin, bundle.seekBarMuteUsage, false) &&
      seekBar.replaceIcon == bundle.seekBarReplaceIcon) &&
    intent.enabled == (kind == IntentType) &&
    intent.iconUsing == (kind == IntentType && bundle.iconRes != ID_NULL)
  }


  class Preference {
    const id: int
    const accessName: string
    const kind: Type
    const iconRes: int
    var title: string
    var description: string
    var detailedDescription: string
    var enabled: bool
    const defaultValue: string
    var contentValue: Option<string>
    var contentValueRaw: Option<string>
    const isGroup: bool

    const sw: Switch
    const input: Input
    const radio: Radio
    const seekBar: SeekBar
    const intent: Intent
    const subPreferences: seq<Preference>

    /** The end tag it was built from, its builder's bundle and its children's shapes. */
    ghost const decl: Tree<Bundle>

    /**
     * new Preference(bundle) (or new PreferenceGroup(bundle)) followed by
     * Builder.initPreference. A group's bundle already carries EXPLAIN.
     */
    constructor(bundle: Bundle, subPreferences: seq<Preference>, isGroup: bool, ghost declared: Bundle)
      requires Creatable(bundle)
      ensures this.isGroup == isGroup && this.subPreferences == subPreferences
      ensures decl == Tree(if isGroup then GroupElement else ItemElement, declared, Decls(subPreferences))
      ensures fresh(sw) && fresh(input) && fresh(radio) && fresh(seekBar) && fresh(intent)
      ensures BuiltFrom(this, bundle) && radio.Valid()
    {
      var kind := ValueOf(bundle.typeValue);
      id := bundle.id;
      accessName := bundle.accessName;
      this.kind := kind;
      iconRes := bundle.iconRes;
      title := bundle.title;
      description := bundle.description;
      detailedDescription := bundle.detailedDescription;
      enabled := bundle.enabled;
      defaultValue := bundle.defaultValue;
      contentValue := None;
      contentValueRaw := None;
      this.isGroup := isGroup;
      this.subPreferences := subPreferences;
      decl := Tree(if isGroup then GroupElement else ItemElement, declared, Decls(subPreferences));
      var sw', input', radio', seekBar', intent' := InitCapabilities(bundle);
      sw, input, radio, seekBar, intent := sw', input', radio', seekBar', intent';
    }

    /** getContentValue: an unset content value reads as the default value. */
    function ContentValue(): string
      reads this
    {
      if contentValue.Some? then contentValue.value else defaultValue
    }

    function ContentValueRaw(): string
      reads this
    {
      if contentValueRaw.Some? then contentValueRaw.value else defaultValue
    }

    /** setContentValue: a null argument stores the default value. */
    method SetContentValue(v: Option<string>)
      modifies this`contentValue
      ensures contentValue == Some(if v.Some? then v.value else defaultValue)
    {
      contentValue := Some(if v.Some? then v.value else defaultValue);
    }

    /** setContentValueRaw: a null argument stores the default value. */
    method SetContentValueRaw(v: Option<string>)
      modifies this`contentValueRaw
      ensures contentValueRaw == Some(if v.Some? then v.value else defaultValue)
    {
      contentValueRaw := Some(if v.Some? then v.value else defaultValue);
    }

    method SetTitle(title: string)
      modifies this`title
      ensures this.title == title
    {
      this.title := title;
    }

    /** setContent replaces the description. */
    method SetContent(content: string)
      modifies this`description
      ensures description == content
    {
      description := content;
    }

    method SetDetailedContent(content: string)
      modifies this`detailedDescription
      ensures detailedDescription == content
    {
      detailedDescription := content;
    }

    method SetEnabled(enabled: bool)
      modifies this`enabled
      ensures this.enabled == enabled
    {
      this.enabled := enabled;
    }

    /** setSubPreferencesEnabled: only the direct children change. */
    method SetSubPreferencesEnabled(enabled: bool)
      modifies subPreferences`enabled
      ensures forall i :: 0 <= i < |subPreferences| ==> subPreferences[i].enabled == enabled
      ensures forall i :: 0 <= i < |subPreferences| ==>
        subPreferences[i].title == old(subPreferences[i].title) &&
        subPreferences[i].contentValue == old(subPreferences[i].contentValue) &&
        subPreferences[i].contentValueRaw == old(subPreferences[i].contentValueRaw)
    {
      var k := 0;
      while k < |subPreferences|
        invariant 0 <= k <= |subPreferences|
        invariant forall i :: 0 <= i < k ==> subPreferences[i].enabled == enabled
        invariant forall i :: 0 <= i < |subPreferences| ==>
          subPreferences[i].title == old(subPreferences[i].title) &&
          subPreferences[i].contentValue == old(subPreferences[i].contentValue) &&
          subPreferences[i].contentValueRaw == old(subPreferences[i].contentValueRaw)
      {
        subPreferences[k].SetEnabled(enabled);
        k := k + 1;
      }
    }
  }

  /** Builder.initPreference's capability objects, all following the bundle. */
  method InitCapabilities(bundle: Bundle) returns (sw: Switch, input: Input, radio: Radio, seekBar: SeekBar, intent: Intent)
    requires Creatable(bundle)
    ensures fresh(sw) && fresh(input) && fresh(radio) && fresh(seekBar) && fresh(intent)
    ensures radio.Valid() && CapabilitiesFrom(sw, input, radio, seekBar, intent, bundle)
  {
    var kind := ValueOf(bundle.typeValue);
    sw := new Switch(bundle.switchUsage && kind.SwitchAvailable(), bundle.switchDefaultValue);
    input := new Input(kind == TextType, bundle.inputType);
    radio := InitRadio(bundle.radioResource);
    seekBar := new SeekBar(bundle.iconRes, kind == SeekBarType, bundle.defaultValue,
                           bundle.seekBarMax, bundle.seekBarMin,
                           bundle.seekBarReplaceIcon, bundle.seekBarMuteUsage);
    intent := new Intent(kind == IntentType, bundle.iconRes);
  }

  /**
   * Preference.initRadio: a radio resource other than ID_NULL is parsed; the
   * radio is enabled with the map when parsing succeeds, disabled otherwise.
   */
  method InitRadio(resource: RadioResource) returns (radio: Radio)
    ensures fresh(radio) && radio.Valid()
    ensures radio.enabled == (resource.resId != ID_NULL && RadioMapOf(resource.document).Some?)
    ensures radio.radioMap == if radio.enabled then RadioMapOf(resource.document) else None
  {
    var enabled := false;
    var radioMap: Option<RadioMap> := None;
    if resource.resId != ID_NULL {
      var parsed := ParseXmlMap(resource.document);
      RadioRunShape(resource.document);
      if parsed.Some? {
        radioMap := parsed;
        enabled := true;
      }
    }
    radio := new Radio(enabled, radioMap);
  }

  /** The declared shapes of a list of preferences. */
  ghost function Decls(ps: seq<Preference>): (ds: seq<Tree<Bundle>>)
    ensures |ds| == |ps| && forall i :: 0 <= i < |ps| ==> ds[i] == ps[i].decl
  {
    seq(|ps|, i requires 0 <= i < |ps| => ps[i].decl)
  }

  // ---------------------------------------------------------------------
  // Preference.Builder

  class Builder {
    var bundle: Bundle
    var subPreferences: seq<Preference>

    constructor()
      ensures bundle == DefaultBundle() && subPreferences == []
    {
      bundle := DefaultBundle();
      subPreferences := [];
    }

    method SetId(id: int)
      modifies this
      ensures bundle == old(bundle).(id := id) && subPreferences == old(subPreferences)
    {
      bundle := bundle.(id := id);
    }

    method SetAccessName(accessName: string)
      modifies this
      ensures bundle == old(bundle).(accessName := accessName) && subPreferences == old(subPreferences)
    {
      bundle := bundle.(accessName := accessName);
    }

    method SetType(t: Type)
      modifies this
      ensures bundle == old(bundle).(typeValue := t.GetValue()) && subPreferences == old(subPreferences)
      ensures ValueOf(bundle.typeValue) == t
    {
      bundle := bundle.(typeValue := t.GetValue());
    }

    method SetIconRes(iconRes: int)
      modifies this
      ensures bundle == old(bundle).(iconRes := iconRes) && subPreferences == old(subPreferences)
    {
      bundle := bundle.(iconRes := iconRes);
    }

    method SetTitle(title: string)
      modifies this
      ensures bundle == old(bundle).(title := title) && subPreferences == old(subPreferences)
    {
      bundle := bundle.(title := title);
    }

    method SetDefaultValue(defaultValue: string)
      modifies this
      ensures bundle == old(bundle).(defaultValue := defaultValue) && subPreferences == old(subPreferences)
    {
      bundle := bundle.(defaultValue := defaultValue);
    }

    method SetDescription(description: string)
      modifies this
      ensures bundle == old(bundle).(description := description) && subPreferences == old(subPreferences)
    {
      bundle := bundle.(description := description);
    }

    method SetDetailedDescription(detailedDescription: string)
      modifies this
      ensures bundle == old(bundle).(detailedDescription := detailedDescription)
      ensures subPreferences == old(subPreferences)
    {
      bundle := bundle.(detailedDescription := detailedDescription);
    }

    method SetEnabled(enabled: bool)
      modifies this
      ensures bundle == old(bundle).(enabled := enabled) && subPreferences == old(subPreferences)
    {
      bundle := bundle.(enabled := enabled);
    }

    method SetInputType(inputType: int)
      modifies this
      ensures bundle == old(bundle).(inputType := inputType) && subPreferences == old(subPreferences)
    {
      bundle := bundle.(inputType := inputType);
    }

    method AddSubPreference(p: Preference)
      modifies this
      ensures bundle == old(bundle) && subPreferences == old(subPreferences) + [p]
    {
      subPreferences := subPreferences + [p];
    }

    method SetSwitchDefaultValue(v: bool)
      modifies this
      ensures bundle == old(bundle).(switchDefaultValue := v) && subPreferences == old(subPreferences)
    {
      bundle := bundle.(switchDefaultValue := v);
    }

    method SetSwitch(switchUsage: bool)
      modifies this
      ensures bundle == old(bundle).(switchUsage := switchUsage) && subPreferences == old(subPreferences)
    {
      bundle := bundle.(switchUsage := switchUsage);
    }

    method SetRadio(resource: RadioResource)
      modifies this
      ensures bundle == old(bundle).(radioResource := resource) && subPreferences == old(subPreferences)
    {
      bundle := bundle.(radioResource := resource);
    }

    method SetSeekBar(max: int, min: int, replaceIcon: bool, muteUsage: bool)
      modifies this
      ensures bundle == old(bundle).(seekBarMax := max, seekBarMin := min,
        seekBarReplaceIcon := replaceIcon, seekBarMuteUsage := muteUsage)
      ensures subPreferences == old(subPreferences)
    {
      bundle := bundle.(seekBarMax := max, seekBarMin := min,
                        seekBarReplaceIcon := replaceIcon, seekBarMuteUsage := muteUsage);
    }

    /** create(): throws NumberFormatException unless Creatable(bundle). */
    method Create() returns (p: Preference)
      requires Creatable(bundle)
      ensures fresh(p) && !p.isGroup && BuiltFrom(p, bundle)
      ensures p.subPreferences == subPreferences
      ensures p.decl == Tree(ItemElement, bundle, Decls(subPreferences))
    {
      p := new Preference(bundle, subPreferences, false, bundle);
    }

    /** createGroup(): the bundle's type is overwritten with EXPLAIN first. */
    method CreateGroup() returns (p: Preference)
      modifies this
      ensures bundle == old(bundle).(typeValue := ExplainType.GetValue())
      ensures subPreferences == old(subPreferences)
      ensures fresh(p) && p.isGroup && BuiltFrom(p, bundle) && p.kind == ExplainType
      ensures !p.seekBar.enabled && !p.intent.enabled && !p.input.enabled
      ensures p.subPreferences == subPreferences
      ensures p.decl == Tree(GroupElement, old(bundle), Decls(subPreferences))
    {
      ghost var declared := bundle;
      bundle := bundle.(typeValue := ExplainType.GetValue());
      p := new Preference(bundle, subPreferences, true, declared);
    }
  }
}
