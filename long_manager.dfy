// com.longseong.preference.PreferenceManager (the older version): builds the
// preference tree from the preference XML document, and keeps each
// preference's switch state and content values in SharedPreferences,
// invalidating stored values that do not fit the radio list or seek bar.

module LongPreferenceManager {
  import opened JavaBase
  import opened PreferenceXml
  import opened LongPreference
  import opened PreferenceStore

  // ---------------------------------------------------------------------
  // Reading one start tag's attributes

  /**
   * One attribute of an "item" or "group" start tag, in document order.
   * String, boolean and integer values are already resolved: the literal
   * text, or the referenced resource's value. IdAttr, IconAttr, TypeAttr and
   * RadioMapAttr carry the attribute's resource id (ID_NULL for a literal).
   */
  datatype Attribute =
    | IdAttr(resId: int)
    | AccessNameAttr(text: string)
    | TypeAttr(resId: int, number: int)
    | IconAttr(resId: int)
    | TitleAttr(text: string)
    | DescriptionAttr(text: string)
    | DetailedDescriptionAttr(text: string)
    | EnabledAttr(flag: bool)
    | SwitchUsageAttr(flag: bool)
    | InputTypeAttr(number: int)
    | RadioMapAttr(resource: RadioResource)
    | MaxProgressAttr(number: int)
    | MinProgressAttr(number: int)
    | DefaultProgressAttr(number: int)
    | ReplaceIconAttr(flag: bool)
    | UnknownAttr

  /** The builder's settings and the seek-bar locals of the start-tag handler. */
  datatype StartTagState = StartTagState(
    settings: Settings, defaultProgress: int, maxProgress: int, minProgress: int, replaceIcon: bool)

  function ReadAttribute(s: StartTagState, a: Attribute): StartTagState
  {
    match a
    case IdAttr(resId) => s.(settings := s.settings.(id := resId))
    case AccessNameAttr(text) => s.(settings := s.settings.(accessName := text))
    case TypeAttr(resId, number) =>
      // a type given as a resource reference is ignored; INTENT also marks intent use
      if resId != ID_NULL then s
      else if ValueOf(number) == IntentType then s.(settings := s.settings.(kind := IntentType, intentUsage := true))
      else s.(settings := s.settings.(kind := ValueOf(number)))
    case IconAttr(resId) =>
      // only a resource reference sets the icon
      if resId != ID_NULL then s.(settings := s.settings.(iconRes := resId)) else s
    case TitleAttr(text) => s.(settings := s.settings.(title := text))
    case DescriptionAttr(text) => s.(settings := s.settings.(description := text))
    case DetailedDescriptionAttr(text) => s.(settings := s.settings.(detailedDescription := text))
    case EnabledAttr(flag) => s.(settings := s.settings.(enabled := flag))
    case SwitchUsageAttr(flag) => s.(settings := s.settings.(switchUsage := flag))
    case InputTypeAttr(number) => s.(settings := s.settings.(inputType := number))
    case RadioMapAttr(resource) =>
      s.(settings := s.settings.(radioEnabled := resource.resId != ID_NULL, radioResource := resource))
    case MaxProgressAttr(number) => s.(maxProgress := number)
    case MinProgressAttr(number) => s.(minProgress := number)
    case DefaultProgressAttr(number) => s.(defaultProgress := number)
    case ReplaceIconAttr(flag) => s.(replaceIcon := flag)
    case UnknownAttr => s
  }

  function ReadAttributes(attrs: seq<Attribute>): StartTagState
  {
    if attrs == [] then StartTagState(DefaultSettings(), 50, 100, 0, true)
    else ReadAttribute(ReadAttributes(attrs[..|attrs| - 1]), attrs[|attrs| - 1])
  }

  /**
   * The settings of the builder a start tag produces: after every attribute
   * is read, setSeekBar takes the seek-bar locals and the final type, and
   * setIntent the final type.
   */
  function SettingsOf(attrs: seq<Attribute>): Settings
  {
    var s := ReadAttributes(attrs);
    s.settings.(seekBarEnabled := s.settings.kind == SeekBarType,
                seekBarDefaultValue := s.defaultProgress, seekBarMax := s.maxProgress,
                seekBarMin := s.minProgress, seekBarReplaceIcon := s.replaceIcon,
                intentUsage := s.settings.kind == IntentType)
  }

  /**
   * A start tag without attributes yields the builder defaults and the
   * seek-bar defaults 50 within [0, 100] with the icon replaced.
   */
  lemma SettingsOfNoAttributes()
    ensures SettingsOf([]) == DefaultSettings().(seekBarDefaultValue := 50, seekBarMax := 100,
                                                 seekBarMin := 0, seekBarReplaceIcon := true)
  {
  }

  /** The seek-bar locals of the start-tag handler. */
  datatype SeekLocal = DefaultLocal | MaxLocal | MinLocal | ReplaceIconLocal

  predicate Sets(a: Attribute, l: SeekLocal)
  {
    match l
    case DefaultLocal => a.DefaultProgressAttr?
    case MaxLocal => a.MaxProgressAttr?
    case MinLocal => a.MinProgressAttr?
    case ReplaceIconLocal => a.ReplaceIconAttr?
  }

  /** No attribute at index from or later sets the local l. */
  predicate UnsetFrom(attrs: seq<Attribute>, from: int, l: SeekLocal)
  {
    forall i :: 0 <= i < |attrs| && from <= i ==> !Sets(attrs[i], l)
  }

  /** One attribute changes a seek-bar local only when it is that local's attribute. */
  lemma SeekLocalStep(s: StartTagState, a: Attribute)
    ensures ReadAttribute(s, a).defaultProgress == if a.DefaultProgressAttr? then a.number else s.defaultProgress
    ensures ReadAttribute(s, a).maxProgress == if a.MaxProgressAttr? then a.number else s.maxProgress
    ensures ReadAttribute(s, a).minProgress == if a.MinProgressAttr? then a.number else s.minProgress
    ensures ReadAttribute(s, a).replaceIcon == if a.ReplaceIconAttr? then a.flag else s.replaceIcon
  {
  }

  /**
   * Whatever the other attributes, a seek-bar local that no attribute sets
   * keeps its default: 50 within [0, 100], icon replaced.
   */
  lemma {:induction false} SeekBarDefaultsKept(attrs: seq<Attribute>)
    ensures UnsetFrom(attrs, 0, DefaultLocal) ==> SettingsOf(attrs).seekBarDefaultValue == 50
    ensures UnsetFrom(attrs, 0, MaxLocal) ==> SettingsOf(attrs).seekBarMax == 100
    ensures UnsetFrom(attrs, 0, MinLocal) ==> SettingsOf(attrs).seekBarMin == 0
    ensures UnsetFrom(attrs, 0, ReplaceIconLocal) ==> SettingsOf(attrs).seekBarReplaceIcon
  {
    if attrs != [] {
      var init, last := attrs[..|attrs| - 1], attrs[|attrs| - 1];
      assert ReadAttributes(attrs) == ReadAttribute(ReadAttributes(init), last);
      SeekLocalStep(ReadAttributes(init), last);
      SeekBarDefaultsKept(init);
      if UnsetFrom(attrs, 0, DefaultLocal) {
        assert !Sets(last, DefaultLocal) && UnsetFrom(init, 0, DefaultLocal);
      }
      if UnsetFrom(attrs, 0, MaxLocal) {
        assert !Sets(last, MaxLocal) && UnsetFrom(init, 0, MaxLocal);
      }
      if UnsetFrom(attrs, 0, MinLocal) {
        assert !Sets(last, MinLocal) && UnsetFrom(init, 0, MinLocal);
      }
      if UnsetFrom(attrs, 0, ReplaceIconLocal) {
        assert !Sets(last, ReplaceIconLocal) && UnsetFrom(init, 0, ReplaceIconLocal);
      }
    }
  }

  /** A seek-bar local that some attribute sets takes the value of the last such attribute. */
  lemma {:induction false} SeekBarLastWins(attrs: seq<Attribute>)
    ensures forall j :: 0 <= j < |attrs| && attrs[j].DefaultProgressAttr? && UnsetFrom(attrs, j + 1, DefaultLocal) ==>
      SettingsOf(attrs).seekBarDefaultValue == attrs[j].number
    ensures forall j :: 0 <= j < |attrs| && attrs[j].MaxProgressAttr? && UnsetFrom(attrs, j + 1, MaxLocal) ==>
      SettingsOf(attrs).seekBarMax == attrs[j].number
    ensures forall j :: 0 <= j < |attrs| && attrs[j].MinProgressAttr? && UnsetFrom(attrs, j + 1, MinLocal) ==>
      SettingsOf(attrs).seekBarMin == attrs[j].number
    ensures forall j :: 0 <= j < |attrs| && attrs[j].ReplaceIconAttr? && UnsetFrom(attrs, j + 1, ReplaceIconLocal) ==>
      SettingsOf(attrs).seekBarReplaceIcon == attrs[j].flag
  {
    if attrs != [] {
      var init, last := attrs[..|attrs| - 1], attrs[|attrs| - 1];
      var s0, s1 := ReadAttributes(init), ReadAttributes(attrs);
      assert s1 == ReadAttribute(s0, last);
      SeekLocalStep(s0, last);
      SeekBarLastWins(init);
      assert SettingsOf(attrs).seekBarDefaultValue == s1.defaultProgress && SettingsOf(init).seekBarDefaultValue == s0.defaultProgress;
      forall j | 0 <= j < |init| && attrs[j].DefaultProgressAttr? && UnsetFrom(attrs, j + 1, DefaultLocal)
        ensures SettingsOf(attrs).seekBarDefaultValue == attrs[j].number
      {
        assert !Sets(last, DefaultLocal) && init[j] == attrs[j] && UnsetFrom(init, j + 1, DefaultLocal);
      }
      assert SettingsOf(attrs).seekBarMax == s1.maxProgress && SettingsOf(init).seekBarMax == s0.maxProgress;
      forall j | 0 <= j < |init| && attrs[j].MaxProgressAttr? && UnsetFrom(attrs, j + 1, MaxLocal)
        ensures SettingsOf(attrs).seekBarMax == attrs[j].number
      {
        assert !Sets(last, MaxLocal) && init[j] == attrs[j] && UnsetFrom(init, j + 1, MaxLocal);
      }
      assert SettingsOf(attrs).seekBarMin == s1.minProgress && SettingsOf(init).seekBarMin == s0.minProgress;
      forall j | 0 <= j < |init| && attrs[j].MinProgressAttr? && UnsetFrom(attrs, j + 1, MinLocal)
        ensures SettingsOf(attrs).seekBarMin == attrs[j].number
      {
        assert !Sets(last, MinLocal) && init[j] == attrs[j] && UnsetFrom(init, j + 1, MinLocal);
      }
      assert SettingsOf(attrs).seekBarReplaceIcon == s1.replaceIcon && SettingsOf(init).seekBarReplaceIcon == s0.replaceIcon;
      forall j | 0 <= j < |init| && attrs[j].ReplaceIconAttr? && UnsetFrom(attrs, j + 1, ReplaceIconLocal)
        ensures SettingsOf(attrs).seekBarReplaceIcon == attrs[j].flag
      {
        assert !Sets(last, ReplaceIconLocal) && init[j] == attrs[j] && UnsetFrom(init, j + 1, ReplaceIconLocal);
      }
    }
  }


  /**
   * The seek bar and intent follow the final type whatever the attribute
   * order, and the radio is enabled exactly when a radio resource other than
   * ID_NULL was given last.
   */
  lemma SettingsOfConsistent(attrs: seq<Attribute>)
    ensures SettingsOf(attrs).seekBarEnabled <==> SettingsOf(attrs).kind == SeekBarType
    ensures SettingsOf(attrs).intentUsage <==> SettingsOf(attrs).kind == IntentType
    ensures SettingsOf(attrs).radioEnabled <==> SettingsOf(attrs).radioResource.resId != ID_NULL
  {
    ReadAttributesRadio(attrs);
  }

  /** Reading the attributes keeps radioEnabled in step with the radio resource. */
  lemma {:induction false} ReadAttributesRadio(attrs: seq<Attribute>)
    ensures var s := ReadAttributes(attrs).settings; s.radioEnabled <==> s.radioResource.resId != ID_NULL
    decreases |attrs|
  {
    if attrs != [] {
      ReadAttributesRadio(attrs[..|attrs| - 1]);
      ReadAttributeRadio(ReadAttributes(attrs[..|attrs| - 1]), attrs[|attrs| - 1]);
    }
  }

  lemma ReadAttributeRadio(s: StartTagState, a: Attribute)
    requires s.settings.radioEnabled <==> s.settings.radioResource.resId != ID_NULL
    ensures var s' := ReadAttribute(s, a).settings; s'.radioEnabled <==> s'.radioResource.resId != ID_NULL
  {
    if IsTextAttribute(a) {
      TextAttributeKeepsRadio(s, a);
    } else if IsLocalAttribute(a) {
      LocalAttributeKeepsRadio(s, a);
    } else if a.TypeAttr? {
      TypeAttributeKeepsRadio(s, a);
    } else if !a.RadioMapAttr? {
      OptionAttributeKeepsRadio(s, a);
    }
  }

  /** The attributes the start-tag handler keeps in its seek-bar locals, and unknown ones. */
  predicate IsLocalAttribute(a: Attribute)
  {
    a.MaxProgressAttr? || a.MinProgressAttr? || a.DefaultProgressAttr? || a.ReplaceIconAttr? || a.UnknownAttr?
  }

  lemma TextAttributeKeepsRadio(s: StartTagState, a: Attribute)
    requires IsTextAttribute(a)
    ensures ReadAttribute(s, a).settings.radioEnabled == s.settings.radioEnabled
    ensures ReadAttribute(s, a).settings.radioResource == s.settings.radioResource
  {
    var r := ReadAttribute(s, a).settings;
    match a {
    case IdAttr(resId) => assert r == s.settings.(id := resId);
    case AccessNameAttr(text) => assert r == s.settings.(accessName := text);
    case TitleAttr(text) => assert r == s.settings.(title := text);
    case DescriptionAttr(text) => assert r == s.settings.(description := text);
    case DetailedDescriptionAttr(text) => assert r == s.settings.(detailedDescription := text);
    }
  }

  lemma LocalAttributeKeepsRadio(s: StartTagState, a: Attribute)
    requires IsLocalAttribute(a)
    ensures ReadAttribute(s, a).settings == s.settings
  {
  }

  lemma TypeAttributeKeepsRadio(s: StartTagState, a: Attribute)
    requires a.TypeAttr?
    ensures ReadAttribute(s, a).settings.radioEnabled == s.settings.radioEnabled
    ensures ReadAttribute(s, a).settings.radioResource == s.settings.radioResource
  {
    var t := ValueOf(a.number);
    var r := ReadAttribute(s, a).settings;
    if a.resId != ID_NULL {
      assert r == s.settings;
    } else if t == IntentType {
      assert r == s.settings.(kind := IntentType, intentUsage := true);
    } else {
      assert r == s.settings.(kind := t);
    }
  }

  lemma OptionAttributeKeepsRadio(s: StartTagState, a: Attribute)
    requires a.IconAttr? || a.EnabledAttr? || a.SwitchUsageAttr? || a.InputTypeAttr?
    ensures ReadAttribute(s, a).settings.radioEnabled == s.settings.radioEnabled
    ensures ReadAttribute(s, a).settings.radioResource == s.settings.radioResource
  {
    var r := ReadAttribute(s, a).settings;
    match a {
    case IconAttr(resId) => assert r == if resId != ID_NULL then s.settings.(iconRes := resId) else s.settings;
    case EnabledAttr(flag) => assert r == s.settings.(enabled := flag);
    case SwitchUsageAttr(flag) => assert r == s.settings.(switchUsage := flag);
    case InputTypeAttr(number) => assert r == s.settings.(inputType := number);
    }
  }

  /** One pass of the attribute switch: a builder setter or a seek-bar local. */
  method ReadAttributeInto(b: Builder, s: StartTagState, a: Attribute) returns (s': StartTagState)
    requires s.settings == b.Snapshot()
    modifies b
    ensures s' == ReadAttribute(s, a) && b.Snapshot() == s'.settings && b.subPreferences == old(b.subPreferences)
  {
    s' := ReadAttribute(s, a);
    if IsTextAttribute(a) {
      SetTextAttribute(b, s, a);
    } else if !IsLocalAttribute(a) {
      SetOptionAttribute(b, s, a);
    }
  }

  predicate IsTextAttribute(a: Attribute)
  {
    a.IdAttr? || a.AccessNameAttr? || a.TitleAttr? || a.DescriptionAttr? || a.DetailedDescriptionAttr?
  }

  /** The id and the texts of a preference go straight to the builder. */
  method SetTextAttribute(b: Builder, ghost s: StartTagState, a: Attribute)
    requires s.settings == b.Snapshot() && IsTextAttribute(a)
    modifies b
    ensures b.Snapshot() == ReadAttribute(s, a).settings && b.subPreferences == old(b.subPreferences)
  {
    match a {
    case IdAttr(resId) => b.SetId(resId);
    case AccessNameAttr(text) => b.SetAccessName(text);
    case TitleAttr(text) => b.SetTitle(text);
    case DescriptionAttr(text) => b.SetDescription(text);
    case DetailedDescriptionAttr(text) => b.SetDetailedDescription(text);
    }
  }

  /** The type, icon, flags, input type and radio resource also go to the builder. */
  method SetOptionAttribute(b: Builder, ghost s: StartTagState, a: Attribute)
    requires s.settings == b.Snapshot() && !IsTextAttribute(a) && !IsLocalAttribute(a)
    modifies b
    ensures b.Snapshot() == ReadAttribute(s, a).settings && b.subPreferences == old(b.subPreferences)
  {
    match a {
    case TypeAttr(resId, number) =>
      if resId == ID_NULL {
        var t := ValueOf(number);
        b.SetType(t);
        if t == IntentType {
          b.SetIntent();
        }
      }
    case IconAttr(resId) =>
      if resId != ID_NULL {
        b.SetIconRes(resId);
      }
    case EnabledAttr(flag) => b.SetEnabled(flag);
    case SwitchUsageAttr(flag) => b.SetSwitch(flag);
    case InputTypeAttr(number) => b.SetInputType(number);
    case RadioMapAttr(resource) => b.SetRadio(resource);
    }
  }

  /** The start-tag handler: a new builder fed every attribute in order, then setSeekBar and setIntent. */
  method ReadStartTag(attrs: seq<Attribute>) returns (b: Builder)
    ensures fresh(b) && b.Snapshot() == SettingsOf(attrs) && b.subPreferences == []
  {
    b := new Builder();
    var s := ReadAttributesInto(b, attrs);
    FinishStartTag(b, attrs, s);
  }

  /** The attribute loop of the start-tag handler. */
  method ReadAttributesInto(b: Builder, attrs: seq<Attribute>) returns (s: StartTagState)
    requires b.Snapshot() == DefaultSettings() && b.subPreferences == []
    modifies b
    ensures s == ReadAttributes(attrs) && b.Snapshot() == s.settings && b.subPreferences == []
  {
    s := StartTagState(b.Snapshot(), 50, 100, 0, true);
    var i := 0;
    while i < |attrs|
      invariant 0 <= i <= |attrs|
      invariant ReadAttributes(attrs[..i]) == s && s.settings == b.Snapshot()
      invariant b.subPreferences == []
    {
      assert attrs[..i + 1][..i] == attrs[..i];
      s := ReadAttributeInto(b, s, attrs[i]);
      i := i + 1;
    }
    assert attrs[..i] == attrs;
  }

  /** setSeekBar with the locals, then setIntent, once the attributes are read. */
  method FinishStartTag(b: Builder, ghost attrs: seq<Attribute>, s: StartTagState)
    requires s == ReadAttributes(attrs) && b.Snapshot() == s.settings
    modifies b
    ensures b.Snapshot() == SettingsOf(attrs) && b.subPreferences == old(b.subPreferences)
  {
    b.SetSeekBar(s.defaultProgress, s.maxProgress, s.minProgress, s.replaceIcon);
    b.SetIntent();
  }

  // ---------------------------------------------------------------------
  // The document, lifted to settings

  function LiftEvent(e: PreferenceXml.Event<seq<Attribute>>): PreferenceXml.Event<Settings>
  {
    match e
    case StartTag(el, attrs) => StartTag(el, SettingsOf(attrs))
    case EndTag(el) => EndTag(el)
    case OtherEvent => OtherEvent
    case Malformed => Malformed
  }

  function Lift(events: seq<PreferenceXml.Event<seq<Attribute>>>): (r: seq<PreferenceXml.Event<Settings>>)
    ensures |r| == |events| && forall i :: 0 <= i < |events| ==> r[i] == LiftEvent(events[i])
  {
    seq(|events|, i requires 0 <= i < |events| => LiftEvent(events[i]))
  }

  /** What the builder loop should produce for this document. */
  ghost function Plan(events: seq<PreferenceXml.Event<seq<Attribute>>>): BuildState<Settings>
  {
    Build(Lift(events))
  }

  function SettingsId(s: Settings): int
  {
    s.id
  }

  /** An open builder agrees with its frame in the plan. */
  ghost predicate Holds(b: Builder, f: Frame<Settings>)
    reads b
  {
    b.Snapshot() == f.attrs && Decls(b.subPreferences) == f.children
  }

  /** The object id map agrees with the plan's id index. */
  ghost predicate MapMirrors(m: LinkedMap<int, Preference>, idx: LinkedMap<int, Tree<Settings>>)
  {
    m.order == idx.order &&
    (forall k :: k in m.entries <==> k in idx.entries) &&
    forall k :: k in m.entries ==> m.entries[k].decl == idx.entries[k]
  }

  /** Every preference is filed under its own id. */
  ghost predicate KeysMatch(m: LinkedMap<int, Preference>)
  {
    forall k :: k in m.entries ==> m.entries[k].id == k
  }

  /** The top-level list and id map agree with a plan's roots and creations. */
  ghost predicate Mirrors(list: seq<Preference>, m: LinkedMap<int, Preference>,
                          roots: seq<Tree<Settings>>, finished: seq<Tree<Settings>>)
  {
    m.Valid() && KeysMatch(m) && Decls(list) == roots && MapMirrors(m, IdIndex(finished, SettingsId))
  }

  // ---------------------------------------------------------------------
  // Saving

  /** savePreferenceSwitchValue's write: the switch state, only for a valid switch. */
  function SaveSwitchTo(store: Store, q: Preference): Store
    reads q, q.sw
  {
    if q.sw.IsValid() then store[SwitchKey(q.accessName) := BoolValue(q.sw.checked)] else store
  }

  /** savePreferenceContentValue's write: the content value, unless it is null. */
  function SaveContentTo(store: Store, q: Preference): Store
    reads q
  {
    if q.contentValue.Some? then store[ContentKey(q.accessName) := StringValue(q.contentValue.value)] else store
  }

  /**
   * savePreferenceContentValueRaw's write, guarded by the content value: a
   * null raw value passed to putString removes the key.
   */
  function SaveRawTo(store: Store, q: Preference): Store
    reads q
  {
    if q.contentValue.None? then store
    else if q.contentValueRaw.Some? then store[RawKey(q.accessName) := StringValue(q.contentValueRaw.value)]
    else store - {RawKey(q.accessName)}
  }

  /** savePreference's writes: each value only when present (the switch only when valid). */
  function SaveAllTo(store: Store, q: Preference): Store
    reads q, q.sw
  {
    var s1 := SaveSwitchTo(store, q);
    var s2 := SaveContentTo(s1, q);
    if q.contentValueRaw.Some? then s2[RawKey(q.accessName) := StringValue(q.contentValueRaw.value)] else s2
  }

  /**
   * Saving then loading: whatever savePreference writes for a preference
   * reads back unchanged, an absent value keeps what was stored, and no key
   * of another kind or another preference changes.
   */
  lemma SaveAllRoundTrip(store: Store, q: Preference)
    requires Loadable(store, q.accessName)
    ensures var saved := SaveAllTo(store, q);
      Loadable(saved, q.accessName) &&
      GetString(saved, ContentKey(q.accessName), "") ==
        (if q.contentValue.Some? then q.contentValue.value else GetString(store, ContentKey(q.accessName), "")) &&
      GetString(saved, RawKey(q.accessName), "") ==
        (if q.contentValueRaw.Some? then q.contentValueRaw.value else GetString(store, RawKey(q.accessName), "")) &&
      GetBoolean(saved, SwitchKey(q.accessName), false) ==
        (if q.sw.IsValid() then q.sw.checked else GetBoolean(store, SwitchKey(q.accessName), false)) &&
      forall k :: k in saved && k != SwitchKey(q.accessName) && k != ContentKey(q.accessName) && k != RawKey(q.accessName) ==>
        k in store && saved[k] == store[k]
  {
    KeysDistinct(q.accessName, q.accessName);
  }

  /** The raw write reads back as written, or as the default "" once a null raw value removed it. */
  lemma SaveRawRoundTrip(store: Store, q: Preference)
    requires Loadable(store, q.accessName) && q.contentValue.Some?
    ensures var saved := SaveRawTo(store, q);
      Loadable(saved, q.accessName) &&
      GetString(saved, RawKey(q.accessName), "") ==
        (if q.contentValueRaw.Some? then q.contentValueRaw.value else "") &&
      forall k :: k != RawKey(q.accessName) ==> (k in saved <==> k in store) && (k in saved ==> saved[k] == store[k])
  {
    KeysDistinct(q.accessName, q.accessName);
  }

  // ---------------------------------------------------------------------
  // Invalidating loaded values

  /** Does some radio entry carry this title? */
  predicate HasTitle(infos: seq<RadioInfo>, title: string)
  {
    exists i :: 0 <= i < |infos| && infos[i].title == title
  }

  /** The content value after the radio and seek-bar checks, and the seek bar after them. */
  datatype Checked = Checked(content: string, seek: SeekState)

  /**
   * loadPreferenceContentValueInvalidateWrongData. radio is the preference's
   * map when its Radio is valid. A stored title of the list is returned at
   * once; otherwise a valid radio replaces the text by its first title, and
   * a valid seek bar then takes the text as its progress (the default when
   * it does not parse) and is muted when the value it reports is 0.
   */
  function ContentCheck(radio: Option<RadioMap>, seek: SeekState, content: string): Checked
    requires radio.Some? ==> radio.value.Valid() && radio.value.Size() > 0
  {
    if radio.Some? && content != "" && HasTitle(radio.value.Values(), content) then Checked(content, seek)
    else
      var c := if radio.Some? then radio.value.Values()[0].title else content;
      if seek.IsValid() then
        var progress := ParseInt(c);
        var s1 := if progress.Some? then seek.WithProgress(progress.value) else seek.Reset();
        Checked(c, if s1.ProgressValue() == 0 then s1.(muted := true) else s1)
      else Checked(c, seek)
  }

  /** loadPreferenceContentValueRawInvalidateWrongData: a parseable raw text of a valid seek bar sets its raw value. */
  function RawCheck(seek: SeekState, raw: string): SeekState
  {
    if seek.IsValid() && ParseInt(raw).Some? then seek.WithProgressRaw(ParseInt(raw).value) else seek
  }

  /** Searching the map's values by title finds something exactly when some entry has that title. */
  lemma TitleInValues(m: RadioMap, title: string)
    requires m.Valid()
    ensures HasTitle(m.Values(), title) <==> exists k :: k in m.entries && m.entries[k].title == title
  {
    var infos := m.Values();
    if exists k :: k in m.entries && m.entries[k].title == title {
      var k :| k in m.entries && m.entries[k].title == title;
      var i :| 0 <= i < |m.order| && m.order[i] == k;
      assert infos[i].title == title;
    }
    if HasTitle(infos, title) {
      var i :| 0 <= i < |infos| && infos[i].title == title;
      assert m.order[i] in m.entries;
    }
  }

  /**
   * Radio preference: a non-empty stored text naming an entry's title is
   * kept, anything else becomes the first declared entry's title. A kept
   * text leaves the seek bar alone.
   */
  lemma CheckRadio(m: RadioMap, seek: SeekState, content: string)
    requires m.Valid() && m.Size() > 0
    ensures var c := ContentCheck(Some(m), seek, content);
      var kept := content != "" && exists k :: k in m.entries && m.entries[k].title == content;
      c.content == (if kept then content else m.entries[m.order[0]].title) &&
      (kept ==> c.seek == seek)
  {
    TitleInValues(m, content);
  }

  /**
   * Seek-bar preference without a valid radio: a parseable text sets the
   * progress to the clamped value, anything else resets to the default;
   * the bar ends up muted when it was, or when the value it reports is 0.
   * The text itself is returned unchanged.
   */
  lemma CheckSeekBar(seek: SeekState, content: string)
    requires seek.IsValid()
    ensures var c := ContentCheck(None, seek, content);
      c.content == content &&
      (ParseInt(content).Some? ==> c.seek.progress == Clamp(ParseInt(content).value, seek.minValue, seek.maxValue) &&
                                   c.seek.progressRaw == ParseInt(content).value) &&
      (ParseInt(content).None? ==> c.seek.progress == Clamp(seek.defaultValue, seek.minValue, seek.maxValue) &&
                                   c.seek.progressRaw == seek.defaultValue) &&
      (c.seek.muted <==> seek.muted || (if seek.muted then seek.minValue else c.seek.progress) == 0) &&
      c.seek.(progress := seek.progress, progressRaw := seek.progressRaw, muted := seek.muted) == seek
  {
  }

  /** A preference with neither a valid radio nor a valid seek bar keeps its text and bar. */
  lemma CheckNothing(seek: SeekState, content: string)
    requires !seek.IsValid()
    ensures ContentCheck(None, seek, content) == Checked(content, seek)
  {
  }

  /**
   * The raw text never changes; a valid seek bar takes it as its raw value
   * when it parses, and nothing else about the bar changes.
   */
  lemma CheckRaw(seek: SeekState, raw: string)
    ensures RawCheck(seek, raw).(progressRaw := seek.progressRaw) == seek
    ensures seek.IsValid() && ParseInt(raw).Some? ==> RawCheck(seek, raw).progressRaw == ParseInt(raw).value
    ensures !seek.IsValid() || ParseInt(raw).None? ==> RawCheck(seek, raw) == seek
  {
  }

  /**
   * A checked radio text is a fixed point when the first title is not
   * empty: checking the text again keeps it.
   */
  lemma RadioCheckStable(m: RadioMap, seek: SeekState, content: string)
    requires m.Valid() && m.Size() > 0 && m.entries[m.order[0]].title != ""
    ensures var c := ContentCheck(Some(m), seek, content);
      ContentCheck(Some(m), c.seek, c.content).content == c.content
  {
    var infos := m.Values();
    var c := ContentCheck(Some(m), seek, content);
    assert infos[0].title == m.entries[m.order[0]].title;
    assert HasTitle(infos, c.content);
  }

  // ---------------------------------------------------------------------
  // The manager

  /** SaveOptimizer.optimize: picks the preference actually saved for a request. */
  type SaveOptimizer = (Preference, int) -> Preference

  /** The optimizer installed when none is given: saves the preference itself. */
  const IdentityOptimizer: SaveOptimizer := (p: Preference, flag: int) => p

  /** The radio map the checks see: only a valid Radio's map. */
  function ValidRadioMap(r: Radio): (m: Option<RadioMap>)
    reads r
    requires r.Valid()
    ensures m.Some? ==> m.value.Valid() && m.value.Size() > 0
    ensures m.Some? <==> r.IsValid()
  {
    if r.IsValid() then r.radioMap else None
  }

  class PreferenceManager {
    var preferenceList: seq<Preference>
    var preferenceMap: LinkedMap<int, Preference>
    var store: Store
    var saveOptimizer: SaveOptimizer

    ghost predicate Valid()
      reads this
    {
      preferenceMap.Valid() && KeysMatch(preferenceMap)
    }

    /** The fields the constructor sets before parsing; a null optimizer is the identity. */
    constructor(store: Store, optimizer: Option<SaveOptimizer>)
      ensures preferenceList == [] && preferenceMap == EmptyLinkedMap() && this.store == store
      ensures saveOptimizer == if optimizer.Some? then optimizer.value else IdentityOptimizer
      ensures Valid()
    {
      preferenceList := [];
      preferenceMap := EmptyLinkedMap();
      this.store := store;
      var o: SaveOptimizer := if optimizer.Some? then optimizer.value else IdentityOptimizer;
      saveOptimizer := o;
    }

    method SetSaveOptimizer(optimizer: Option<SaveOptimizer>)
      modifies this`saveOptimizer
      ensures saveOptimizer == if optimizer.Some? then optimizer.value else IdentityOptimizer
    {
      var o: SaveOptimizer := if optimizer.Some? then optimizer.value else IdentityOptimizer;
      saveOptimizer := o;
    }

    /** getPreferenceById: the preference filed under the id, if any. */
    function GetPreferenceById(id: int): (r: Option<Preference>)
      reads this
      requires Valid()
      ensures r.Some? <==> id in preferenceMap.entries
      ensures r.Some? ==> r.value.id == id
    {
      if id in preferenceMap.entries then Some(preferenceMap.entries[id]) else None
    }

    // -------------------------------------------------------------------
    // Saving and loading

    /** savePreference: the preference the optimizer picks is written. */
    method SavePreference(p: Preference)
      modifies this`store
      ensures store == SaveAllTo(old(store), saveOptimizer(p, FLAG_SAVE_ALL))
    {
      var q := saveOptimizer(p, FLAG_SAVE_ALL);
      var s := store;
      if q.sw.IsValid() {
        s := s[SwitchKey(q.accessName) := BoolValue(q.sw.checked)];
      }
      if q.contentValue.Some? {
        s := s[ContentKey(q.accessName) := StringValue(q.contentValue.value)];
      }
      if q.contentValueRaw.Some? {
        s := s[RawKey(q.accessName) := StringValue(q.contentValueRaw.value)];
      }
      store := s;
    }

    method SavePreferenceSwitchValue(p: Preference)
      modifies this`store
      ensures store == SaveSwitchTo(old(store), saveOptimizer(p, FLAG_SAVE_SWITCH_VALUE))
    {
      var q := saveOptimizer(p, FLAG_SAVE_SWITCH_VALUE);
      if q.sw.IsValid() {
        store := store[SwitchKey(q.accessName) := BoolValue(q.sw.checked)];
      }
    }

    method SavePreferenceContentValue(p: Preference)
      modifies this`store
      ensures store == SaveContentTo(old(store), saveOptimizer(p, FLAG_SAVE_CONTENT_VALUE))
    {
      var q := saveOptimizer(p, FLAG_SAVE_CONTENT_VALUE);
      if q.contentValue.Some? {
        store := store[ContentKey(q.accessName) := StringValue(q.contentValue.value)];
      }
    }

    method SavePreferenceContentValueRaw(p: Preference)
      modifies this`store
      ensures store == SaveRawTo(old(store), saveOptimizer(p, FLAG_SAVE_CONTENT_VALUE_RAW))
    {
      var q := saveOptimizer(p, FLAG_SAVE_CONTENT_VALUE_RAW);
      if q.contentValue.Some? {
        if q.contentValueRaw.Some? {
          store := store[RawKey(q.accessName) := StringValue(q.contentValueRaw.value)];
        } else {
          store := store - {RawKey(q.accessName)};
        }
      }
    }

    /** loadPreferenceSwitchValue: the stored switch state, else false. */
    function LoadPreferenceSwitchValue(accessName: string): (r: bool)
      reads this
      requires HoldsBoolean(store, SwitchKey(accessName))
      ensures r == (SwitchKey(accessName) in store && store[SwitchKey(accessName)].flag)
    {
      GetBoolean(store, SwitchKey(accessName), false)
    }

    /** loadPreferenceContentValue: the stored content, else "". */
    function LoadPreferenceContentValue(accessName: string): (r: string)
      reads this
      requires HoldsString(store, ContentKey(accessName))
      ensures ContentKey(accessName) in store ==> r == store[ContentKey(accessName)].text
      ensures ContentKey(accessName) !in store ==> r == ""
    {
      GetString(store, ContentKey(accessName), "")
    }

    /** loadPreferenceContentValueRaw: the stored raw value, else "". */
    function LoadPreferenceContentValueRaw(accessName: string): (r: string)
      reads this
      requires HoldsString(store, RawKey(accessName))
      ensures RawKey(accessName) in store ==> r == store[RawKey(accessName)].text
      ensures RawKey(accessName) !in store ==> r == ""
    {
      GetString(store, RawKey(accessName), "")
    }

    /**
     * loadPreferenceSwitchValueInvalidateWrongData: a valid switch takes the
     * stored state; the stored state is returned either way.
     */
    method LoadSwitchInvalidateWrongData(p: Preference) returns (checked: bool)
      requires HoldsBoolean(store, SwitchKey(p.accessName))
      modifies p.sw
      ensures checked == LoadPreferenceSwitchValue(p.accessName)
      ensures p.sw.checked == if p.sw.IsValid() then checked else old(p.sw.checked)
    {
      checked := LoadPreferenceSwitchValue(p.accessName);
      if p.sw.IsValid() {
        p.sw.SetChecked(checked);
      }
    }

    /** loadPreferenceContentValueInvalidateWrongData, as ContentCheck describes. */
    method LoadContentInvalidateWrongData(p: Preference) returns (content: string)
      requires HoldsString(store, ContentKey(p.accessName)) && p.radio.Valid()
      modifies p.seekBar
      ensures Checked(content, p.seekBar.State()) ==
        ContentCheck(ValidRadioMap(p.radio), old(p.seekBar.State()), LoadPreferenceContentValue(p.accessName))
      ensures p.seekBar.replaceIcon == old(p.seekBar.replaceIcon)
    {
      content := LoadPreferenceContentValue(p.accessName);
      if p.radio.IsValid() {
        var infos := p.radio.radioMap.value.Values();
        if content != "" {
          var i := 0;
          while i < |infos|
            invariant 0 <= i <= |infos|
            invariant forall j :: 0 <= j < i ==> infos[j].title != content
          {
            if content == infos[i].title {
              return content;
            }
            i := i + 1;
          }
        }
        content := infos[0].title;
      }
      if p.seekBar.IsValid() {
        var progress := ParseInt(content);
        if progress.Some? {
          p.seekBar.SetProgress(progress.value);
        } else {
          p.seekBar.ResetProgressToDefault();
        }
        if p.seekBar.ProgressValue() == 0 {
          p.seekBar.SetMute(true);
        }
      }
    }

    /** loadPreferenceContentValueRawInvalidateWrongData, as RawCheck describes. */
    method LoadRawInvalidateWrongData(p: Preference) returns (raw: string)
      requires HoldsString(store, RawKey(p.accessName))
      modifies p.seekBar
      ensures raw == LoadPreferenceContentValueRaw(p.accessName)
      ensures p.seekBar.State() == RawCheck(old(p.seekBar.State()), raw)
      ensures p.seekBar.replaceIcon == old(p.seekBar.replaceIcon)
    {
      raw := LoadPreferenceContentValueRaw(p.accessName);
      if p.seekBar.IsValid() {
        var progressRaw := ParseInt(raw);
        if progressRaw.Some? {
          p.seekBar.SetProgressRaw(progressRaw.value);
        }
      }
    }

    /**
     * loadPreference: the switch takes the stored state (false when absent)
     * even when it is not valid; content and raw values go through the
     * checks; then each value is saved again when its key is absent, the
     * switch and content also when they changed, and the raw value also when
     * it is EQUAL to what was stored, as the code is written, which makes the
     * raw value saved on every load.
     */
    method LoadPreference(p: Preference)
      requires Loadable(store, p.accessName) && p.radio.Valid()
      modifies this`store, p`contentValue, p`contentValueRaw, p.sw, p.seekBar
      ensures var a := p.accessName;
        var c := ContentCheck(ValidRadioMap(p.radio), old(p.seekBar.State()), GetString(old(store), ContentKey(a), ""));
        var raw := GetString(old(store), RawKey(a), "");
        p.sw.checked == GetBoolean(old(store), SwitchKey(a), false) &&
        p.contentValue == Some(c.content) && p.contentValueRaw == Some(raw) &&
        p.seekBar.State() == RawCheck(c.seek, raw)
      ensures var a := p.accessName;
        var s1 := if SwitchKey(a) !in old(store) then SaveSwitchTo(old(store), saveOptimizer(p, FLAG_SAVE_SWITCH_VALUE))
                  else old(store);
        var s2 := if ContentKey(a) !in s1 || GetString(old(store), ContentKey(a), "") != p.contentValue.value
                  then SaveContentTo(s1, saveOptimizer(p, FLAG_SAVE_CONTENT_VALUE)) else s1;
        store == SaveRawTo(s2, saveOptimizer(p, FLAG_SAVE_CONTENT_VALUE_RAW))
      ensures p.seekBar.replaceIcon == old(p.seekBar.replaceIcon)
    {
      var switchValue := LoadPreferenceSwitchValue(p.accessName);
      var contentValue := LoadPreferenceContentValue(p.accessName);
      var contentValueRaw := LoadPreferenceContentValueRaw(p.accessName);

      var checked := LoadSwitchInvalidateWrongData(p);
      p.sw.SetChecked(checked);
      var content := LoadContentInvalidateWrongData(p);
      p.SetContentValue(Some(content));
      var raw := LoadRawInvalidateWrongData(p);
      p.SetContentValueRaw(Some(raw));

      Resave(p, switchValue, contentValue, contentValueRaw);
    }

    /**
     * The re-save step of loadPreference, with its conditions as written:
     * each contains() sees the writes made before it.
     */
    method Resave(p: Preference, switchValue: bool, contentValue: string, contentValueRaw: string)
      requires p.contentValue.Some? && p.contentValueRaw.Some?
      modifies this`store
      ensures var a := p.accessName;
        var s1 := if SwitchKey(a) !in old(store) || switchValue != p.sw.checked
                  then SaveSwitchTo(old(store), saveOptimizer(p, FLAG_SAVE_SWITCH_VALUE)) else old(store);
        var s2 := if ContentKey(a) !in s1 || contentValue != p.contentValue.value
                  then SaveContentTo(s1, saveOptimizer(p, FLAG_SAVE_CONTENT_VALUE)) else s1;
        store == if RawKey(a) !in s2 || contentValueRaw == p.contentValueRaw.value
                 then SaveRawTo(s2, saveOptimizer(p, FLAG_SAVE_CONTENT_VALUE_RAW)) else s2
    {
      ghost var s0 := store;
      ghost var a, checked := p.accessName, p.sw.checked;
      ghost var content, raw := p.contentValue.value, p.contentValueRaw.value;
      ghost var q1 := saveOptimizer(p, FLAG_SAVE_SWITCH_VALUE);
      ghost var q2 := saveOptimizer(p, FLAG_SAVE_CONTENT_VALUE);
      ghost var q3 := saveOptimizer(p, FLAG_SAVE_CONTENT_VALUE_RAW);
      if SwitchKey(p.accessName) !in store || switchValue != p.sw.checked {
        SavePreferenceSwitchValue(p);
      }
      ghost var s1 := store;
      assert s1 == if SwitchKey(a) !in s0 || switchValue != checked then SaveSwitchTo(s0, q1) else s0;
      if ContentKey(p.accessName) !in store || contentValue != p.contentValue.value {
        SavePreferenceContentValue(p);
      }
      ghost var s2 := store;
      assert s2 == if ContentKey(a) !in s1 || contentValue != content then SaveContentTo(s1, q2) else s1;
      if RawKey(p.accessName) !in store || contentValueRaw == p.contentValueRaw.value {
        SavePreferenceContentValueRaw(p);
      }
      assert store == if RawKey(a) !in s2 || contentValueRaw == raw then SaveRawTo(s2, q3) else s2;
    }

    /**
     * parseXmlPreference: the top-level list and the id map hold exactly the
     * preferences the plan builds, in its order; a parser error (Malformed)
     * ends the build and keeps what was built before it.
     */
    method ParseXmlPreference(events: seq<PreferenceXml.Event<seq<Attribute>>>)
      requires preferenceList == [] && preferenceMap == EmptyLinkedMap()
      modifies this`preferenceList, this`preferenceMap
      ensures Valid()
      ensures Mirrors(preferenceList, preferenceMap, Plan(events).roots, Plan(events).finished)
    {
      var lifted := Lift(events);
      ghost var spec: BuildState<Settings> := Initial();
      var list: seq<Preference> := [];
      var m: LinkedMap<int, Preference> := EmptyLinkedMap();
      var cursor: Builder? := null;
      var stack: seq<Builder> := [];
      var i := 0;
      assert lifted[..0] == [];
      while i < |events|
        invariant 0 <= i <= |events|
        invariant spec == Run(Initial(), lifted[..i])
        invariant Tracks(spec, cursor, stack)
        invariant Mirrors(list, m, spec.roots, spec.finished)
        invariant fresh(Builders(cursor, stack))
      {
        var stop;
        list, m, cursor, stack, stop := Advance(lifted, i, events[i], list, m, cursor, stack, spec);
        if stop {
          break;
        }
        spec := Run(Initial(), lifted[..i + 1]);
        i := i + 1;
      }
      if i == |events| {
        assert lifted[..i] == lifted;
      }
      preferenceList, preferenceMap := list, m;
    }
  }

  /** One turn of the parse loop. stop: a parser error ended the build, which keeps what it has. */
  method Advance(lifted: seq<PreferenceXml.Event<Settings>>, i: nat, e: PreferenceXml.Event<seq<Attribute>>,
                 list: seq<Preference>, m: LinkedMap<int, Preference>,
                 cursor: Builder?, stack: seq<Builder>, ghost spec: BuildState<Settings>)
      returns (list': seq<Preference>, m': LinkedMap<int, Preference>,
               cursor': Builder?, stack': seq<Builder>, stop: bool)
    requires i < |lifted| && lifted[i] == LiftEvent(e) && spec == Run(Initial(), lifted[..i])
    requires Tracks(spec, cursor, stack) && Mirrors(list, m, spec.roots, spec.finished)
    modifies Builders(cursor, stack)
    ensures m'.Valid() && KeysMatch(m')
    ensures forall b :: b in Builders(cursor', stack') ==> b in Builders(cursor, stack) || fresh(b)
    ensures stop ==> Mirrors(list', m', Build(lifted).roots, Build(lifted).finished)
    ensures !stop ==> (var s := Run(Initial(), lifted[..i + 1]);
      Tracks(s, cursor', stack') && Mirrors(list', m', s.roots, s.finished))
  {
    RunSnoc(lifted, i);
    if e.Malformed? {
      MalformedEnds(lifted, i, spec);
      return list, m, cursor, stack, true;
    }
    list', m', cursor', stack' := Feed(e, list, m, cursor, stack, spec);
    stop := false;
  }

  /** One pass of the parse loop for an event other than a parser error. */
  method Feed(e: PreferenceXml.Event<seq<Attribute>>, list: seq<Preference>, m: LinkedMap<int, Preference>,
              cursor: Builder?, stack: seq<Builder>, ghost spec: BuildState<Settings>)
      returns (list': seq<Preference>, m': LinkedMap<int, Preference>, cursor': Builder?, stack': seq<Builder>)
    requires !e.Malformed? && Tracks(spec, cursor, stack) && Mirrors(list, m, spec.roots, spec.finished)
    modifies Builders(cursor, stack)
    ensures m'.Valid() && KeysMatch(m')
    ensures forall b :: b in Builders(cursor', stack') ==> b in Builders(cursor, stack) || fresh(b)
    ensures var s := Step(spec, LiftEvent(e));
      Tracks(s, cursor', stack') && Mirrors(list', m', s.roots, s.finished)
  {
    list', m', cursor', stack' := list, m, cursor, stack;
    match e {
    case OtherEvent =>
    case StartTag(el, attrs) =>
      if IsPreferenceElement(el) {
        cursor', stack' := OpenBuilder(attrs, cursor, stack, spec, el);
        BuildersPush(cursor', cursor, stack);
      }
    case EndTag(el) =>
      // an end tag with no open builder is skipped
      if IsPreferenceElement(el) && cursor != null {
        list', m', cursor', stack' := CloseBuilder(el, list, m, cursor, stack, spec);
        BuildersPop(cursor, stack);
      }
    }
  }

  /** A preference start tag: the open builder is pushed and a new one opened. */
  method OpenBuilder(attrs: seq<Attribute>, cursor: Builder?, stack: seq<Builder>,
                     ghost spec: BuildState<Settings>, ghost el: Element)
      returns (cursor': Builder, stack': seq<Builder>)
    requires IsPreferenceElement(el) && Tracks(spec, cursor, stack)
    ensures fresh(cursor') && stack' == if cursor == null then stack else [cursor] + stack
    ensures Tracks(Step(spec, StartTag(el, SettingsOf(attrs))), cursor', stack')
    ensures Step(spec, StartTag(el, SettingsOf(attrs))).roots == spec.roots
    ensures Step(spec, StartTag(el, SettingsOf(attrs))).finished == spec.finished
  {
    stack' := stack;
    if cursor != null {
      stack' := [cursor] + stack;
    }
    cursor' := ReadStartTag(attrs);
  }

  /**
   * A preference end tag with a builder open: create the item or group,
   * hand it to the enclosing builder (or the top-level list), and file it
   * under its id.
   */
  method CloseBuilder(el: Element, list: seq<Preference>, m: LinkedMap<int, Preference>,
                      cursor: Builder, stack: seq<Builder>, ghost spec: BuildState<Settings>)
      returns (list': seq<Preference>, m': LinkedMap<int, Preference>, cursor': Builder?, stack': seq<Builder>)
    requires IsPreferenceElement(el) && Tracks(spec, cursor, stack)
    requires Mirrors(list, m, spec.roots, spec.finished)
    modifies if |stack| > 0 then {stack[0]} else {}
    ensures cursor' == (if |stack| == 0 then null else stack[0])
    ensures stack' == (if |stack| == 0 then [] else stack[1..])
    ensures var s := Step(spec, EndTag(el));
      Tracks(s, cursor', stack') && Mirrors(list', m', s.roots, s.finished)
  {
    var p := CreateFrom(el, cursor);
    CloseMirrors(list, m, spec, el, p);
    m' := m.Put(p.id, p);
    if |stack| == 0 {
      list' := list + [p];
      cursor' := null;
      stack' := [];
      CloseAtTop(spec, el);
    } else {
      list' := list;
      cursor', stack' := HandToParent(el, p, stack, spec);
    }
  }

  /** Closing the outermost open preference leaves no builder open. */
  lemma CloseAtTop(spec: BuildState<Settings>, el: Element)
    requires IsPreferenceElement(el) && !spec.halted && spec.cursor.Some? && |spec.pending| == 0
    ensures Tracks(Step(spec, EndTag(el)), null, [])
  {
    assert Step(spec, EndTag(el)).cursor.None?;
  }

  /** addSubPreference on the builder below: it becomes the cursor again. */
  method HandToParent(el: Element, p: Preference, stack: seq<Builder>, ghost spec: BuildState<Settings>)
      returns (cursor': Builder, stack': seq<Builder>)
    requires IsPreferenceElement(el) && |stack| > 0 && !spec.halted && spec.cursor.Some?
    requires |stack| == |spec.pending| && forall k :: 0 <= k < |stack| ==> Holds(stack[k], spec.pending[k])
    requires forall k, l :: 0 <= k < l < |stack| ==> stack[k] != stack[l]
    requires p.decl == Tree(el, spec.cursor.value.attrs, spec.cursor.value.children)
    modifies stack[0]
    ensures cursor' == stack[0] && stack' == stack[1..]
    ensures Tracks(Step(spec, EndTag(el)), cursor', stack')
  {
    ghost var s := Step(spec, EndTag(el));
    ghost var parent := spec.pending[0];
    assert s.cursor == Some(parent.(children := parent.children + [p.decl])) && s.pending == spec.pending[1..];
    DeclsAppend(stack[0].subPreferences, p);
    stack[0].AddSubPreference(p);
    cursor' := stack[0];
    stack' := stack[1..];
    assert Holds(cursor', s.cursor.value);
    forall k | 0 <= k < |stack'|
      ensures Holds(stack'[k], s.pending[k])
    {
      assert stack'[k] == stack[k + 1] && s.pending[k] == spec.pending[k + 1];
    }
  }

  /** The created preference joins the top-level list (at top level) and the id map. */
  lemma CloseMirrors(list: seq<Preference>, m: LinkedMap<int, Preference>, spec: BuildState<Settings>,
                     el: Element, p: Preference)
    requires IsPreferenceElement(el) && !spec.halted && spec.cursor.Some?
    requires Mirrors(list, m, spec.roots, spec.finished)
    requires p.decl == Tree(el, spec.cursor.value.attrs, spec.cursor.value.children)
    requires p.id == spec.cursor.value.attrs.id
    ensures var s := Step(spec, EndTag(el));
      Mirrors(if |spec.pending| == 0 then list + [p] else list, m.Put(p.id, p), s.roots, s.finished)
  {
    var node := p.decl;
    var s := Step(spec, EndTag(el));
    assert s.finished == spec.finished + [node];
    MirrorsPut(m, spec.finished, p, node);
    if |spec.pending| == 0 {
      DeclsAppend(list, p);
      assert s.roots == spec.roots + [node];
    } else {
      assert s.roots == spec.roots;
    }
  }

  /** create() for an item, createGroup() for a group; both keep the builder's id. */
  method CreateFrom(el: Element, b: Builder) returns (p: Preference)
    requires IsPreferenceElement(el)
    ensures fresh(p) && p.id == b.Snapshot().id
    ensures p.decl == Tree(el, b.Snapshot(), Decls(b.subPreferences))
  {
    if el == ItemElement {
      p := b.Create();
    } else {
      p := b.CreateGroup();
    }
  }

  lemma DeclsAppend(ps: seq<Preference>, p: Preference)
    ensures Decls(ps + [p]) == Decls(ps) + [p.decl]
  {
  }

  /** Filing the new preference under its id keeps the map in step with the plan. */
  lemma MirrorsPut(m: LinkedMap<int, Preference>, finished: seq<Tree<Settings>>, p: Preference, node: Tree<Settings>)
    requires m.Valid() && KeysMatch(m) && MapMirrors(m, IdIndex(finished, SettingsId))
    requires p.decl == node && p.id == node.attrs.id
    ensures m.Put(p.id, p).Valid() && KeysMatch(m.Put(p.id, p))
    ensures MapMirrors(m.Put(p.id, p), IdIndex(finished + [node], SettingsId))
  {
    IdIndexSnoc(finished, SettingsId, node);
    KeysMatchPut(m, p);
    MapMirrorsPut(m, IdIndex(finished, SettingsId), p, node);
  }

  lemma KeysMatchPut(m: LinkedMap<int, Preference>, p: Preference)
    requires KeysMatch(m)
    ensures KeysMatch(m.Put(p.id, p))
  {
  }

  lemma MapMirrorsPut(m: LinkedMap<int, Preference>, idx: LinkedMap<int, Tree<Settings>>, p: Preference, node: Tree<Settings>)
    requires m.Valid() && idx.Valid() && MapMirrors(m, idx) && p.decl == node
    ensures MapMirrors(m.Put(p.id, p), idx.Put(p.id, node))
  {
    var m' := m.Put(p.id, p);
    var idx' := idx.Put(p.id, node);
    assert p.id in m.entries <==> p.id in idx.entries;
    forall k
      ensures k in m'.entries <==> k in idx'.entries
    {
      assert k in m'.entries <==> k == p.id || k in m.entries;
      assert k in idx'.entries <==> k == p.id || k in idx.entries;
    }
    forall k | k in m'.entries
      ensures m'.entries[k].decl == idx'.entries[k]
    {
      if k != p.id {
        assert m'.entries[k] == m.entries[k] && idx'.entries[k] == idx.entries[k];
      }
    }
  }

  /** The open builders: the cursor and the builder queue. */
  ghost function Builders(cursor: Builder?, stack: seq<Builder>): set<Builder>
  {
    (if cursor == null then {} else {cursor}) + set k | 0 <= k < |stack| :: stack[k]
  }

  lemma BuildersPush(b: Builder, cursor: Builder?, stack: seq<Builder>)
    ensures Builders(b, if cursor == null then stack else [cursor] + stack) == {b} + Builders(cursor, stack)
  {
    if cursor != null {
      var stack' := [cursor] + stack;
      forall x | x in Builders(cursor, stack) ensures x in Builders(b, stack') {
        if x == cursor {
          assert stack'[0] == x;
        } else {
          var k :| 0 <= k < |stack| && stack[k] == x;
          assert stack'[k + 1] == x;
        }
      }
    }
  }

  lemma BuildersPop(cursor: Builder?, stack: seq<Builder>)
    ensures Builders(if |stack| == 0 then null else stack[0], if |stack| == 0 then [] else stack[1..])
      <= Builders(cursor, stack)
  {
    if |stack| > 0 {
      forall x | x in Builders(stack[0], stack[1..]) ensures x in Builders(cursor, stack) {
        if x != stack[0] {
          var k :| 0 <= k < |stack[1..]| && stack[1..][k] == x;
          assert stack[k + 1] == x;
        }
      }
    }
  }

  /** The open builders agree with the plan's cursor and pending frames. */
  ghost predicate Tracks(spec: BuildState<Settings>, cursor: Builder?, stack: seq<Builder>)
    reads Builders(cursor, stack)
  {
    !spec.halted && Consistent(spec) &&
    ((cursor == null) <==> spec.cursor.None?) &&
    (cursor != null ==> Holds(cursor, spec.cursor.value)) &&
    |stack| == |spec.pending| &&
    (forall k :: 0 <= k < |stack| ==> Holds(stack[k], spec.pending[k])) &&
    (forall k :: 0 <= k < |stack| ==> stack[k] != cursor) &&
    (forall k, l :: 0 <= k < l < |stack| ==> stack[k] != stack[l])
  }
}
