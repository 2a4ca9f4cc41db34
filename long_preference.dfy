// com.longseong.preference.Preference (the older version): a node of the
// preference tree, its optional capabilities (switch, text input, radio
// choice, seek bar, intent, click event), the Builder that collects its
// settings field by field, and the parser of a radio-choice XML resource.
// com.longseong.preference.PreferenceGroup is the same node with a fixed
// type and enabled flag.

module LongPreference {
  import opened JavaBase
  import opened PreferenceXml

  /** ResourcesCompat.ID_NULL */
  const ID_NULL: int := 0
  /** EditorInfo.TYPE_CLASS_TEXT */
  const TYPE_CLASS_TEXT: int := 1

  // ---------------------------------------------------------------------
  // Preference.Type

  datatype Type = ExplainType | TextType | RadioType | SeekBarType | IntentType | EventType
  {
    function GetValue(): (v: int)
      ensures 0 <= v <= 5
    {
      match this
      case ExplainType => 0
      case TextType => 1
      case RadioType => 2
      case SeekBarType => 3
      case IntentType => 4
      case EventType => 5
    }

    /** Seek-bar, intent and event preferences cannot carry a switch. */
    predicate SwitchAvailable()
    {
      !(this == SeekBarType || this == IntentType || this == EventType)
    }
  }

  /** Type.valueOf: the type with that number; any other number is EXPLAIN. */
  function ValueOf(value: int): (t: Type)
    ensures 0 <= value <= 5 ==> t.GetValue() == value
    ensures !(0 <= value <= 5) ==> t == ExplainType
  {
    if value == 0 then ExplainType
    else if value == 1 then TextType
    else if value == 2 then RadioType
    else if value == 3 then SeekBarType
    else if value == 4 then IntentType
    else if value == 5 then EventType
    else ExplainType
  }

  /** A type survives the trip through its number, and numbers name distinct types. */
  lemma ValueOfGetValue(t: Type, u: Type)
    ensures ValueOf(t.GetValue()) == t
    ensures t.GetValue() == u.GetValue() ==> t == u
  {
  }

  // ---------------------------------------------------------------------
  // Radio XML resources

  /** One entry of a radio list: its title and description. */
  datatype RadioInfo = RadioInfo(title: string, description: string)

  type RadioMap = LinkedMap<string, RadioInfo>

  /**
   * Parser events of a radio XML resource. An "entry" start tag carries its
   * key, title and description attributes (None when absent); Skip is any
   * other event; Broken is the parser raising XmlPullParserException or
   * IOException; Faulted is a NullPointerException while reading.
   */
  datatype RadioEvent =
    | Entry(key: Option<string>, title: Option<string>, description: Option<string>)
    | Skip
    | Broken
    | Faulted

  /** A radio XML resource id together with its parsed-event content. */
  datatype RadioResource = RadioResource(resId: int, document: seq<RadioEvent>)

  /**
   * The state of Radio.parseXmlMap: the map built so far and whether a
   * parser error stopped the loop, or the NullPointerException outcome.
   */
  datatype RadioParse = RadioParse(map_: RadioMap, stopped: bool) | RadioFaulted

  /** Does this event put an entry into the map? */
  predicate RadioEventAccepted(e: RadioEvent)
  {
    e.Entry? && e.key.Some? && e.title.Some?
  }

  /** RadioInfo's constructor reads a null description as "". */
  function DescriptionOrEmpty(d: Option<string>): string
  {
    if d.Some? then d.value else ""
  }

  function RadioStep(st: RadioParse, e: RadioEvent): RadioParse
  {
    if st.RadioFaulted? || st.stopped then st
    else if e.Broken? then st.(stopped := true)
    else if e.Faulted? then RadioFaulted
    else if RadioEventAccepted(e) then
      st.(map_ := st.map_.Put(e.key.value, RadioInfo(e.title.value, DescriptionOrEmpty(e.description))))
    else st
  }

  function RadioRun(events: seq<RadioEvent>): RadioParse
  {
    if events == [] then RadioParse(EmptyLinkedMap(), false)
    else RadioStep(RadioRun(events[..|events| - 1]), events[|events| - 1])
  }

  /** What Radio.parseXmlMap returns; None for the null it returns after a NullPointerException. */
  function RadioMapOf(events: seq<RadioEvent>): Option<RadioMap>
  {
    var st := RadioRun(events);
    if st.RadioFaulted? then None else Some(st.map_)
  }

  /**
   * Radio.parseXmlMap: every "entry" with both a key and a title is put
   * under its key; a parser error ends the loop and the map so far is
   * returned; a NullPointerException returns null.
   */
  method ParseXmlMap(document: seq<RadioEvent>) returns (r: Option<RadioMap>)
    ensures r == RadioMapOf(document)
  {
    var map_: RadioMap := EmptyLinkedMap();
    var i := 0;
    while i < |document|
      invariant 0 <= i <= |document|
      invariant RadioRun(document[..i]) == RadioParse(map_, false)
    {
      assert document[..i + 1][..i] == document[..i];
      var e := document[i];
      if e.Broken? || e.Faulted? {
        RadioEndedStays(document, i + 1);
        assert document[..|document|] == document;
        return if e.Broken? then Some(map_) else None;
      }
      if e.Entry? && e.key.Some? && e.title.Some? {
        map_ := map_.Put(e.key.value, RadioInfo(e.title.value, DescriptionOrEmpty(e.description)));
      }
      i := i + 1;
    }
    assert document[..i] == document;
    return Some(map_);
  }

  /** The parse has ended: stopped by a parser error or faulted. */
  predicate RadioEnded(st: RadioParse)
  {
    st.RadioFaulted? || st.stopped
  }

  /** Once the parse has ended, later events change nothing. */
  lemma {:induction false} RadioEndedStays(events: seq<RadioEvent>, n: nat)
    requires n <= |events| && RadioEnded(RadioRun(events[..n]))
    ensures RadioRun(events) == RadioRun(events[..n])
    decreases |events| - n
  {
    if n < |events| {
      assert events[..n + 1][..n] == events[..n];
      RadioEndedStays(events, n + 1);
    } else {
      assert events[..n] == events;
    }
  }

  /** No parser error and no NullPointerException among the events. */
  predicate Clean(events: seq<RadioEvent>)
  {
    forall i :: 0 <= i < |events| ==> !events[i].Broken? && !events[i].Faulted?
  }

  /** Without errors the parse runs to the end. */
  lemma {:induction false} CleanRuns(events: seq<RadioEvent>)
    requires Clean(events)
    ensures RadioRun(events).RadioParse? && !RadioRun(events).stopped
    decreases |events|
  {
    if events != [] {
      CleanRuns(events[..|events| - 1]);
    }
  }

  /**
   * The first error decides the outcome: a parser error at i returns the
   * map built from the events before it; a NullPointerException returns null.
   */
  lemma FirstErrorDecides(events: seq<RadioEvent>, i: nat)
    requires i < |events| && (events[i].Broken? || events[i].Faulted?) && Clean(events[..i])
    ensures events[i].Broken? ==> RadioMapOf(events) == RadioMapOf(events[..i])
    ensures events[i].Faulted? ==> RadioMapOf(events).None?
  {
    CleanRuns(events[..i]);
    assert events[..i + 1][..i] == events[..i];
    RadioEndedStays(events, i + 1);
  }

  /** The map is a well-formed LinkedHashMap. */
  lemma {:induction false} RadioRunShape(events: seq<RadioEvent>)
    ensures RadioRun(events).RadioParse? ==> RadioRun(events).map_.Valid()
    decreases |events|
  {
    if events != [] {
      RadioRunShape(events[..|events| - 1]);
    }
  }

  /** Event i is the last accepted entry with key k. */
  ghost predicate IsLastEntry(events: seq<RadioEvent>, i: int, k: string)
  {
    0 <= i < |events| && RadioEventAccepted(events[i]) && events[i].key.value == k &&
    forall j :: i < j < |events| && RadioEventAccepted(events[j]) ==> events[j].key.value != k
  }

  /** The entry carries this event's title and description (null read as ""). */
  predicate InfoFrom(info: RadioInfo, e: RadioEvent)
    requires RadioEventAccepted(e)
  {
    info.title == e.title.value && info.description == DescriptionOrEmpty(e.description)
  }

  lemma LastEntryKept(events: seq<RadioEvent>, i: int, k: string)
    requires |events| > 0 && IsLastEntry(events[..|events| - 1], i, k)
    requires !(RadioEventAccepted(events[|events| - 1]) && events[|events| - 1].key.value == k)
    ensures IsLastEntry(events, i, k)
  {
  }

  /** Without errors, the map's keys are exactly the keys of the accepted entries. */
  lemma {:induction false} RadioMapKeys(events: seq<RadioEvent>)
    requires Clean(events)
    ensures RadioRun(events).RadioParse?
    ensures forall k :: k in RadioRun(events).map_.entries <==>
      exists i :: 0 <= i < |events| && RadioEventAccepted(events[i]) && events[i].key.value == k
    decreases |events|
  {
    CleanRuns(events);
    if events != [] {
      var n := |events| - 1;
      var init := events[..n];
      var e := events[n];
      CleanPrefix(events, n);
      RadioMapKeys(init);
      RadioKeysStep(events);
      var m0 := RadioRun(init).map_;
      var m := RadioRun(events).map_;
      forall k
        ensures k in m.entries <==>
          exists i :: 0 <= i < |events| && RadioEventAccepted(events[i]) && events[i].key.value == k
      {
        if RadioEventAccepted(e) && e.key.value == k {
          assert k in m.entries;
          assert RadioEventAccepted(events[n]) && events[n].key.value == k;
        } else {
          assert k in m.entries <==> k in m0.entries;
          if k in m0.entries {
            var i :| 0 <= i < |init| && RadioEventAccepted(init[i]) && init[i].key.value == k;
            assert events[i] == init[i];
          }
          if exists i :: 0 <= i < |events| && RadioEventAccepted(events[i]) && events[i].key.value == k {
            var i :| 0 <= i < |events| && RadioEventAccepted(events[i]) && events[i].key.value == k;
            assert i != n;
            assert init[i] == events[i];
          }
        }
      }
    }
  }

  /** One clean event adds at most its own key to the map. */
  lemma RadioKeysStep(events: seq<RadioEvent>)
    requires Clean(events) && events != []
    ensures var n := |events| - 1;
      RadioRun(events).RadioParse? && RadioRun(events[..n]).RadioParse? &&
      RadioRun(events).map_.entries.Keys ==
        RadioRun(events[..n]).map_.entries.Keys +
        (if RadioEventAccepted(events[n]) then {events[n].key.value} else {})
  {
    var n := |events| - 1;
    CleanPrefix(events, n);
    CleanRuns(events[..n]);
    CleanRuns(events);
  }

  lemma CleanPrefix(events: seq<RadioEvent>, n: nat)
    requires Clean(events) && n <= |events|
    ensures Clean(events[..n])
  {
    forall i | 0 <= i < n ensures !events[..n][i].Broken? && !events[..n][i].Faulted? {
      assert events[..n][i] == events[i];
    }
  }

  /**
   * Without errors, each key holds the title and description of the last
   * entry with that key: a repeated key overwrites.
   */
  lemma {:induction false} RadioMapLastWins(events: seq<RadioEvent>)
    requires Clean(events)
    ensures RadioRun(events).RadioParse?
    ensures forall k :: k in RadioRun(events).map_.entries ==>
      exists i :: IsLastEntry(events, i, k) && InfoFrom(RadioRun(events).map_.entries[k], events[i])
    decreases |events|
  {
    CleanRuns(events);
    if events != [] {
      var n := |events| - 1;
      var init := events[..n];
      var e := events[n];
      CleanPrefix(events, n);
      CleanRuns(init);
      RadioMapLastWins(init);
      var m0 := RadioRun(init).map_;
      var m := RadioRun(events).map_;
      forall k | k in m.entries
        ensures exists i :: IsLastEntry(events, i, k) && InfoFrom(m.entries[k], events[i])
      {
        if RadioEventAccepted(e) && e.key.value == k {
          assert IsLastEntry(events, n, k) && InfoFrom(m.entries[k], events[n]);
        } else {
          assert k in m0.entries && m.entries[k] == m0.entries[k];
          var i :| IsLastEntry(init, i, k) && InfoFrom(m0.entries[k], init[i]);
          LastEntryKept(events, i, k);
          assert init[i] == events[i];
        }
      }
    }
  }

  // ---------------------------------------------------------------------
  // Capabilities

  /** Preference.Switch */
  class Switch {
    const enabled: bool
    var checked: bool

    constructor(enabled: bool)
      ensures this.enabled == enabled && !checked
    {
      this.enabled := enabled;
      checked := false;
    }

    predicate IsValid()
    {
      enabled
    }

    method SetChecked(checked: bool)
      modifies this
      ensures this.checked == checked
    {
      this.checked := checked;
    }

    method Toggle()
      modifies this
      ensures checked == !old(checked)
    {
      checked := !checked;
    }
  }

  /** Preference.Text: usable once enabled and given its dialog. */
  class Text {
    const enabled: bool
    var hasDialog: bool
    var inputType: int

    constructor(enabled: bool)
      ensures this.enabled == enabled && !hasDialog && inputType == 0
    {
      this.enabled := enabled;
      hasDialog := false;
      inputType := 0;
    }

    predicate IsValid()
      reads this
    {
      enabled && hasDialog
    }

    method SetDialog(hasDialog: bool)
      modifies this`hasDialog
      ensures this.hasDialog == hasDialog
    {
      this.hasDialog := hasDialog;
    }

    method SetInputType(inputType: int)
      modifies this`inputType
      ensures this.inputType == inputType
    {
      this.inputType := inputType;
    }
  }

  /** Preference.Radio: the resource is parsed whenever it is not ID_NULL. */
  class Radio {
    const enabled: bool
    var radioMap: Option<RadioMap>

    constructor(enabled: bool, resource: RadioResource)
      ensures this.enabled == enabled && Valid()
      ensures radioMap == if resource.resId != ID_NULL then RadioMapOf(resource.document) else None
    {
      this.enabled := enabled;
      var m: Option<RadioMap> := None;
      if resource.resId != ID_NULL {
        m := ParseXmlMap(resource.document);
        RadioRunShape(resource.document);
      }
      radioMap := m;
    }

    /** A stored map is a well-formed LinkedHashMap. */
    ghost predicate Valid()
      reads this
    {
      radioMap.Some? ==> radioMap.value.Valid()
    }

    predicate IsValid()
      reads this
    {
      enabled && radioMap.Some? && radioMap.value.Size() > 0
    }

    method SetRadioMap(radioMap: Option<RadioMap>)
      modifies this`radioMap
      ensures this.radioMap == radioMap
    {
      this.radioMap := radioMap;
    }
  }

  /** The observable state of a SeekBar. */
  datatype SeekState = SeekState(
    enabled: bool,
    defaultValue: int,
    progressRaw: int,
    progress: int,
    maxValue: int,
    minValue: int,
    muteUsing: bool,
    muted: bool)
  {
    predicate IsValid()
    {
      enabled && maxValue > minValue
    }

    /** isMutable: muting is offered only with mute in use and a minimum of 0. */
    predicate IsMutable()
    {
      muteUsing && minValue == 0
    }

    /** setProgress: the raw value is kept, the progress is clamped. */
    function WithProgress(v: int): SeekState
    {
      this.(progressRaw := v, progress := Clamp(v, minValue, maxValue))
    }

    function WithProgressRaw(v: int): SeekState
    {
      this.(progressRaw := v)
    }

    /** resetProgressToDefault */
    function Reset(): SeekState
    {
      WithProgress(defaultValue)
    }

    /** getProgressValue: a muted seek bar reports its minimum. */
    function ProgressValue(): int
    {
      if muted then minValue else progress
    }
  }

  /**
   * setProgress keeps the raw value and clamps the progress into a valid
   * bar's range; an in-range value is kept as is.
   */
  lemma ProgressClamped(s: SeekState, v: int)
    requires s.IsValid()
    ensures s.WithProgress(v).progressRaw == v
    ensures s.minValue <= s.WithProgress(v).progress <= s.maxValue
    ensures s.minValue <= s.WithProgress(v).ProgressValue() <= s.maxValue
    ensures s.minValue <= v <= s.maxValue ==> s.WithProgress(v).progress == v
  {
  }

  /** resetProgressToDefault forgets any earlier progress. */
  lemma ResetForgetsProgress(s: SeekState, v: int)
    ensures s.WithProgress(v).Reset() == s.Reset()
    ensures s.Reset().progressRaw == s.defaultValue
  {
  }

  /** A mutable bar reports 0 while muted. */
  lemma MutedMutableReportsZero(s: SeekState)
    requires s.IsMutable() && s.muted
    ensures s.ProgressValue() == 0
  {
  }

  /** Preference.SeekBar */
  class SeekBar {
    const enabled: bool
    var defaultValue: int
    var progressRaw: int
    var progress: int
    var maxValue: int
    var minValue: int
    const muteUsing: bool
    var muted: bool
    const iconUsing: bool
    var replaceIcon: bool

    function State(): SeekState
      reads this
    {
      SeekState(enabled, defaultValue, progressRaw, progress, maxValue, minValue, muteUsing, muted)
    }

    /**
     * The seven-argument constructor. The icon flag only ever receives false,
     * so it stays false whatever the icon resource.
     */
    constructor(iconRes: int, enabled: bool, defaultValue: int, max: int, min: int,
                replaceIcon: bool, muteUsing: bool)
      ensures State() == SeekState(enabled, defaultValue, 0, 0, max, min, muteUsing, false)
      ensures this.replaceIcon == replaceIcon && !iconUsing
    {
      this.enabled := enabled;
      this.defaultValue := defaultValue;
      maxValue := max;
      minValue := min;
      this.muteUsing := muteUsing;
      this.replaceIcon := replaceIcon;
      progressRaw := 0;
      progress := 0;
      muted := false;
      iconUsing := false;
    }

    predicate IsValid()
      reads this
    {
      State().IsValid()
    }

    predicate IsMutable()
      reads this
    {
      State().IsMutable()
    }

    method SetProgress(value: int)
      modifies this
      ensures State() == old(State()).WithProgress(value) && replaceIcon == old(replaceIcon)
    {
      SetProgressRaw(value);
      var v := value;
      if v > maxValue {
        v := maxValue;
      } else if v < minValue {
        v := minValue;
      }
      progress := v;
    }

    method SetProgressRaw(value: int)
      modifies this
      ensures State() == old(State()).WithProgressRaw(value) && replaceIcon == old(replaceIcon)
    {
      progressRaw := value;
    }

    method ResetProgressToDefault()
      modifies this
      ensures State() == old(State()).Reset() && replaceIcon == old(replaceIcon)
    {
      SetProgress(defaultValue);
    }

    function ProgressValue(): int
      reads this
    {
      State().ProgressValue()
    }

    method SetDefaultValue(v: int)
      modifies this
      ensures State() == old(State()).(defaultValue := v) && replaceIcon == old(replaceIcon)
    {
      defaultValue := v;
    }

    method SetMaxValue(v: int)
      modifies this
      ensures State() == old(State()).(maxValue := v) && replaceIcon == old(replaceIcon)
    {
      maxValue := v;
    }

    method SetMinValue(v: int)
      modifies this
      ensures State() == old(State()).(minValue := v) && replaceIcon == old(replaceIcon)
    {
      minValue := v;
    }

    /** isIconHolderUsing: the icon holder is shown when an icon is used or replaced. */
    predicate IsIconHolderUsing()
      reads this
    {
      iconUsing || replaceIcon
    }

    method SetReplaceIcon(replaceIcon: bool)
      modifies this
      ensures State() == old(State()) && this.replaceIcon == replaceIcon
    {
      this.replaceIcon := replaceIcon;
    }

    method SetMute(muted: bool)
      modifies this
      ensures State() == old(State()).(muted := muted) && replaceIcon == old(replaceIcon)
    {
      this.muted := muted;
    }

    method ToggleMute()
      modifies this
      ensures State() == old(State()).(muted := !old(muted)) && replaceIcon == old(replaceIcon)
    {
      muted := !muted;
    }
  }

  /** Preference.Intent, without its launcher and default intent. */
  class Intent {
    const enabled: bool
    const iconUsing: bool

    constructor(enabled: bool, iconRes: int)
      ensures this.enabled == enabled && iconUsing == (iconRes != ID_NULL)
    {
      this.enabled := enabled;
      iconUsing := iconRes != ID_NULL;
    }

    predicate IsValid()
    {
      enabled
    }
  }

  /**
   * Preference.Event: whether a handler and a runnable are set; the runnable
   * runs on the UI thread exactly when a handler was given with it.
   */
  class Event {
    const enabled: bool
    var hasHandler: bool
    var hasRunnable: bool
    var runOnUiThread: bool

    constructor(enabled: bool)
      ensures this.enabled == enabled && !hasHandler && !hasRunnable && !runOnUiThread
    {
      this.enabled := enabled;
      hasHandler := false;
      hasRunnable := false;
      runOnUiThread := false;
    }

    predicate IsValid()
      reads this
    {
      enabled && hasRunnable
    }

    /** setRunnable(handler, runnable) */
    method SetRunnable(hasHandler: bool, hasRunnable: bool)
      modifies this
      ensures this.hasHandler == hasHandler && this.hasRunnable == hasRunnable
      ensures runOnUiThread == hasHandler
    {
      this.hasHandler := hasHandler;
      this.hasRunnable := hasRunnable;
      runOnUiThread := hasHandler;
    }

    /** setRunnable(runnable): no handler, so the runnable gets its own thread. */
    method SetRunnableOnly(hasRunnable: bool)
      modifies this
      ensures this.hasRunnable == hasRunnable && !hasHandler && !runOnUiThread
    {
      SetRunnable(false, hasRunnable);
    }
  }

  // ---------------------------------------------------------------------
  // The Builder's settings and the node's constructor arguments

  /** The fields of a Builder, read together. */
  datatype Settings = Settings(
    id: int,
    accessName: string,
    kind: Type,
    iconRes: int,
    title: string,
    description: string,
    detailedDescription: string,
    enabled: bool,
    switchUsage: bool,
    inputType: int,
    radioEnabled: bool,
    radioResource: RadioResource,
    seekBarEnabled: bool,
    seekBarDefaultValue: int,
    seekBarMax: int,
    seekBarMin: int,
    seekBarReplaceIcon: bool,
    intentUsage: bool,
    eventUsage: bool)

  /** The Builder constructor's settings; fields it leaves alone are 0 or false. */
  function DefaultSettings(): (s: Settings)
    ensures s.id == ID_NULL && s.accessName == "" && s.kind == ExplainType && s.iconRes == ID_NULL
    ensures s.title == "" && s.description == "" && s.detailedDescription == "" && s.enabled
    ensures s.inputType == TYPE_CLASS_TEXT && !s.switchUsage
    ensures !s.radioEnabled && s.radioResource.resId == ID_NULL && !s.seekBarEnabled
  {
    Settings(ID_NULL, "", ExplainType, ID_NULL, "", "", "", true, false, TYPE_CLASS_TEXT,
             false, RadioResource(ID_NULL, []), false, 0, 0, 0, false, false, false)
  }

  /** The arguments of Preference's constructor. */
  datatype NodeArgs = NodeArgs(
    id: int,
    accessName: string,
    kind: Type,
    iconRes: int,
    title: string,
    description: string,
    detailedDescription: string,
    enabled: bool)

  /** What Builder.create passes: the builder's own fields. */
  function ItemArgs(s: Settings): NodeArgs
  {
    NodeArgs(s.id, s.accessName, s.kind, s.iconRes, s.title, s.description, s.detailedDescription, s.enabled)
  }

  /**
   * PreferenceGroup's constructor: id, access name, texts and icon pass
   * through, the type is always EXPLAIN and the group always enabled.
   */
  function GroupArgs(s: Settings): (a: NodeArgs)
    ensures a.kind == ExplainType && a.enabled
    ensures a.id == s.id && a.accessName == s.accessName && a.iconRes == s.iconRes
    ensures a.title == s.title && a.description == s.description
    ensures a.detailedDescription == s.detailedDescription
  {
    NodeArgs(s.id, s.accessName, ExplainType, s.iconRes, s.title, s.description, s.detailedDescription, true)
  }

  // ---------------------------------------------------------------------
  // Preference

  /**
   * What new Preference(...) or new PreferenceGroup(...) with
   * initPreference leaves in a fresh node built from the settings s: the
   * constructor's arguments, an empty content value, and each capability
   * as the builder's settings decide.
   */
  ghost predicate BuiltFrom(p: Preference, s: Settings, isGroup: bool)
    reads p, p.sw, p.text, p.radio, p.seekBar, p.intent, p.event
  {
    var a := if isGroup then GroupArgs(s) else ItemArgs(s);
    p.id == a.id && p.accessName == a.accessName && p.kind == a.kind && p.iconRes == a.iconRes &&
    p.title == a.title && p.description == a.description &&
    p.detailedDescription == a.detailedDescription && p.enabled == a.enabled &&
    p.contentValue == Some("") && p.contentValueRaw.None? &&
    p.sw.enabled == (s.kind.SwitchAvailable() && s.switchUsage) && !p.sw.checked &&
    p.text.enabled == (a.kind == TextType) && !p.text.hasDialog && p.text.inputType == s.inputType &&
    p.radio.enabled == s.radioEnabled &&
    p.radio.radioMap == (if s.radioResource.resId != ID_NULL then RadioMapOf(s.radioResource.document) else None) &&
    p.seekBar.State() == SeekState(s.seekBarEnabled, s.seekBarDefaultValue, 0, 0,
                                   s.seekBarMax, s.seekBarMin, true, false) &&
    p.seekBar.replaceIcon == s.seekBarReplaceIcon && !p.seekBar.iconUsing &&
    p.intent.enabled == (s.kind == IntentType) && p.intent.iconUsing == (s.iconRes != ID_NULL) &&
    p.event.enabled == (s.kind == EventType) && !p.event.hasRunnable && !p.event.runOnUiThread
  }

  class Preference {
    const id: int
    const accessName: string
    const kind: Type
    const iconRes: int
    var title: string
    var description: string
    var detailedDescription: string
    var enabled: bool
    var contentValue: Option<string>
    var contentValueRaw: Option<string>
    const isGroup: bool

    const sw: Switch
    const text: Text
    const radio: Radio
    const seekBar: SeekBar
    const intent: Intent
    const event: Event
    const subPreferences: seq<Preference>

    /** The end tag it was built from, its builder's settings and its children's shapes. */
    ghost const decl: Tree<Settings>

    /**
     * new Preference(...) (or new PreferenceGroup(...)) with initData,
     * followed by Builder.initPreference. The switch, seek bar, intent and
     * event follow the builder's type; the text input follows the node's own
     * type, which for a group is EXPLAIN.
     */
    constructor(s: Settings, subPreferences: seq<Preference>, isGroup: bool)
      ensures var a := if isGroup then GroupArgs(s) else ItemArgs(s);
        id == a.id && accessName == a.accessName && kind == a.kind && iconRes == a.iconRes &&
        title == a.title && description == a.description &&
        detailedDescription == a.detailedDescription && enabled == a.enabled
      ensures contentValue == Some("") && contentValueRaw.None?
      ensures this.isGroup == isGroup && this.subPreferences == subPreferences
      ensures decl == Tree(if isGroup then GroupElement else ItemElement, s, Decls(subPreferences))
      ensures fresh(sw) && fresh(text) && fresh(radio) && fresh(seekBar) && fresh(intent) && fresh(event)
      ensures radio.Valid() && BuiltFrom(this, s, isGroup)
    {
      var a := if isGroup then GroupArgs(s) else ItemArgs(s);
      var sw', text', radio', seekBar', intent', event' := InitCapabilities(s, a.kind);
      id := a.id;
      accessName := a.accessName;
      kind := a.kind;
      iconRes := a.iconRes;
      title := a.title;
      description := a.description;
      detailedDescription := a.detailedDescription;
      enabled := a.enabled;
      contentValue := Some("");
      contentValueRaw := None;
      this.isGroup := isGroup;
      this.subPreferences := subPreferences;
      decl := Tree(if isGroup then GroupElement else ItemElement, s, Decls(subPreferences));
      sw, text, radio, seekBar, intent, event := sw', text', radio', seekBar', intent', event';
    }

    /** setContentValue: null is stored as null. */
    method SetContentValue(v: Option<string>)
      modifies this`contentValue
      ensures contentValue == v
    {
      contentValue := v;
    }

    method SetContentValueRaw(v: Option<string>)
      modifies this`contentValueRaw
      ensures contentValueRaw == v
    {
      contentValueRaw := v;
    }

    method SetTitle(title: string)
      modifies this`title
      ensures this.title == title
    {
      this.title := title;
    }

    /** setContent: the description. */
    method SetContent(content: string)
      modifies this`description
      ensures description == content
    {
      description := content;
    }

    method SetDetailedContent(content: string)
      modifies this`detailedDescription
      ensures detailedDescription == content
    {
      detailedDescription := content;
    }

    method SetEnabled(enabled: bool)
      modifies this`enabled
      ensures this.enabled == enabled
    {
      this.enabled := enabled;
    }

    /** setSubPreferencesEnabled: only the direct children change, and only their enabled flag. */
    method SetSubPreferencesEnabled(enabled: bool)
      modifies subPreferences`enabled
      ensures forall i :: 0 <= i < |subPreferences| ==> subPreferences[i].enabled == enabled
      ensures forall i :: 0 <= i < |subPreferences| ==>
        subPreferences[i].title == old(subPreferences[i].title) &&
        subPreferences[i].contentValue == old(subPreferences[i].contentValue) &&
        subPreferences[i].contentValueRaw == old(subPreferences[i].contentValueRaw)
    {
      var k := 0;
      while k < |subPreferences|
        invariant 0 <= k <= |subPreferences|
        invariant forall i :: 0 <= i < k ==> subPreferences[i].enabled == enabled
        invariant forall i :: 0 <= i < |subPreferences| ==>
          subPreferences[i].title == old(subPreferences[i].title) &&
          subPreferences[i].contentValue == old(subPreferences[i].contentValue) &&
          subPreferences[i].contentValueRaw == old(subPreferences[i].contentValueRaw)
      {
        subPreferences[k].SetEnabled(enabled);
        k := k + 1;
      }
    }
  }

  /**
   * Builder.initPreference's capability objects. kind is the node's own
   * type, which only the text input consults; the rest follow the builder.
   */
  method InitCapabilities(s: Settings, kind: Type)
      returns (sw: Switch, text: Text, radio: Radio, seekBar: SeekBar, intent: Intent, event: Event)
    ensures fresh(sw) && fresh(text) && fresh(radio) && fresh(seekBar) && fresh(intent) && fresh(event)
    ensures sw.enabled == (s.kind.SwitchAvailable() && s.switchUsage) && !sw.checked
    ensures text.enabled == (kind == TextType) && !text.hasDialog && text.inputType == s.inputType
    ensures radio.enabled == s.radioEnabled && radio.Valid()
    ensures radio.radioMap == if s.radioResource.resId != ID_NULL then RadioMapOf(s.radioResource.document) else None
    ensures seekBar.State() == SeekState(s.seekBarEnabled, s.seekBarDefaultValue, 0, 0,
                                         s.seekBarMax, s.seekBarMin, true, false)
    ensures seekBar.replaceIcon == s.seekBarReplaceIcon && !seekBar.iconUsing
    ensures intent.enabled == (s.kind == IntentType) && intent.iconUsing == (s.iconRes != ID_NULL)
    ensures event.enabled == (s.kind == EventType) && !event.hasRunnable && !event.runOnUiThread
  {
    sw := new Switch(s.kind.SwitchAvailable() && s.switchUsage);
    text := new Text(kind == TextType);
    text.SetInputType(s.inputType);
    radio := new Radio(s.radioEnabled, s.radioResource);
    seekBar := new SeekBar(s.iconRes, s.seekBarEnabled, s.seekBarDefaultValue, s.seekBarMax, s.seekBarMin,
                           s.seekBarReplaceIcon, true);
    intent := new Intent(s.kind == IntentType, s.iconRes);
    event := new Event(s.kind == EventType);
  }

  /** The declared shapes of a list of preferences. */
  ghost function Decls(ps: seq<Preference>): (ds: seq<Tree<Settings>>)
    ensures |ds| == |ps| && forall i :: 0 <= i < |ps| ==> ds[i] == ps[i].decl
  {
    seq(|ps|, i requires 0 <= i < |ps| => ps[i].decl)
  }

  // ---------------------------------------------------------------------
  // Preference.Builder

  class Builder {
    var id: int
    var accessName: string
    var kind: Type
    var iconRes: int
    var title: string
    var description: string
    var detailedDescription: string
    var enabled: bool
    var subPreferences: seq<Preference>
    var switchUsage: bool
    var inputType: int
    var radioEnabled: bool
    var radioResource: RadioResource
    var seekBarEnabled: bool
    var seekBarDefaultValue: int
    var seekBarMax: int
    var seekBarMin: int
    var seekBarReplaceIcon: bool
    var intentUsage: bool
    var eventUsage: bool

    function Snapshot(): Settings
      reads this
    {
      Settings(id, accessName, kind, iconRes, title, description, detailedDescription, enabled,
               switchUsage, inputType, radioEnabled, radioResource, seekBarEnabled, seekBarDefaultValue,
               seekBarMax, seekBarMin, seekBarReplaceIcon, intentUsage, eventUsage)
    }

    constructor()
      ensures Snapshot() == DefaultSettings() && subPreferences == []
    {
      id := ID_NULL;
      accessName := "";
      kind := ExplainType;
      iconRes := ID_NULL;
      title := "";
      description := "";
      detailedDescription := "";
      enabled := true;
      subPreferences := [];
      switchUsage := false;
      inputType := TYPE_CLASS_TEXT;
      radioEnabled := false;
      radioResource := RadioResource(ID_NULL, []);
      seekBarEnabled := false;
      seekBarDefaultValue := 0;
      seekBarMax := 0;
      seekBarMin := 0;
      seekBarReplaceIcon := false;
      intentUsage := false;
      eventUsage := false;
    }

    method SetId(id: int)
      modifies this`id
      ensures Snapshot() == old(Snapshot()).(id := id)
    {
      this.id := id;
    }

    method SetAccessName(accessName: string)
      modifies this`accessName
      ensures Snapshot() == old(Snapshot()).(accessName := accessName)
    {
      this.accessName := accessName;
    }

    method SetType(t: Type)
      modifies this`kind
      ensures Snapshot() == old(Snapshot()).(kind := t)
    {
      kind := t;
    }

    method SetIconRes(iconRes: int)
      modifies this`iconRes
      ensures Snapshot() == old(Snapshot()).(iconRes := iconRes)
    {
      this.iconRes := iconRes;
    }

    method SetTitle(title: string)
      modifies this`title
      ensures Snapshot() == old(Snapshot()).(title := title)
    {
      this.title := title;
    }

    method SetDescription(description: string)
      modifies this`description
      ensures Snapshot() == old(Snapshot()).(description := description)
    {
      this.description := description;
    }

    method SetDetailedDescription(detailedDescription: string)
      modifies this`detailedDescription
      ensures Snapshot() == old(Snapshot()).(detailedDescription := detailedDescription)
    {
      this.detailedDescription := detailedDescription;
    }

    method SetEnabled(enabled: bool)
      modifies this`enabled
      ensures Snapshot() == old(Snapshot()).(enabled := enabled)
    {
      this.enabled := enabled;
    }

    method SetInputType(inputType: int)
      modifies this`inputType
      ensures Snapshot() == old(Snapshot()).(inputType := inputType)
    {
      this.inputType := inputType;
    }

    method AddSubPreference(p: Preference)
      modifies this`subPreferences
      ensures subPreferences == old(subPreferences) + [p]
    {
      subPreferences := subPreferences + [p];
    }

    method SetSwitch(switchUsage: bool)
      modifies this`switchUsage
      ensures Snapshot() == old(Snapshot()).(switchUsage := switchUsage)
    {
      this.switchUsage := switchUsage;
    }

    /** setRadio: the radio is enabled exactly when a resource is given. */
    method SetRadio(resource: RadioResource)
      modifies this`radioEnabled, this`radioResource
      ensures Snapshot() == old(Snapshot()).(radioEnabled := resource.resId != ID_NULL, radioResource := resource)
    {
      if resource.resId != ID_NULL {
        radioEnabled := true;
      } else {
        radioEnabled := false;
      }
      radioResource := resource;
    }

    method SetEvent(eventUsage: bool)
      modifies this`eventUsage
      ensures Snapshot() == old(Snapshot()).(eventUsage := eventUsage)
    {
      this.eventUsage := eventUsage;
    }

    /** setSeekBar: the seek bar is enabled exactly when the type is already SEEK_BAR. */
    method SetSeekBar(defaultValue: int, max: int, min: int, replaceIcon: bool)
      modifies this`seekBarEnabled, this`seekBarDefaultValue, this`seekBarMax, this`seekBarMin,
               this`seekBarReplaceIcon
      ensures seekBarEnabled == (kind == SeekBarType) && seekBarDefaultValue == defaultValue
      ensures seekBarMax == max && seekBarMin == min && seekBarReplaceIcon == replaceIcon
    {
      seekBarEnabled, seekBarDefaultValue, seekBarMax, seekBarMin, seekBarReplaceIcon :=
        kind == SeekBarType, defaultValue, max, min, replaceIcon;
    }

    /** setIntent: intent use follows the type at the time of the call. */
    method SetIntent()
      modifies this`intentUsage
      ensures Snapshot() == old(Snapshot()).(intentUsage := old(kind) == IntentType)
    {
      intentUsage := kind == IntentType;
    }

    method Create() returns (p: Preference)
      ensures fresh(p) && !p.isGroup && BuiltFrom(p, Snapshot(), false)
      ensures p.id == id && p.kind == kind && p.enabled == enabled
      ensures p.subPreferences == subPreferences
      ensures p.decl == Tree(ItemElement, Snapshot(), Decls(subPreferences))
    {
      p := new Preference(Snapshot(), subPreferences, false);
    }

    method CreateGroup() returns (p: Preference)
      ensures fresh(p) && p.isGroup && BuiltFrom(p, Snapshot(), true)
      ensures p.id == id && p.kind == ExplainType && p.enabled && !p.text.enabled
      ensures p.subPreferences == subPreferences
      ensures p.decl == Tree(GroupElement, Snapshot(), Decls(subPreferences))
    {
      p := new Preference(Snapshot(), subPreferences, true);
    }
  }
}
