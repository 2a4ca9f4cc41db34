// com.ungseong.preference.PreferenceManager: builds the preference tree from
// the preference XML document, and keeps each preference's switch state and
// content values in SharedPreferences, repairing stored values that do not
// fit the preference's radio list or seek bar.

module UngPreferenceManager {
  import opened JavaBase
  import opened PreferenceXml
  import opened UngPreference
  import opened PreferenceStore

  // ---------------------------------------------------------------------
  // Reading one start tag's attributes

  /**
   * One attribute of an "item" or "group" start tag, in document order.
   * String, boolean and integer values are already resolved: the literal
   * text, or the referenced resource's value. IdAttr, IconAttr, TypeAttr and
   * RadioMapAttr carry the attribute's resource id (ID_NULL for a literal).
   */
  datatype Attribute =
    | IdAttr(resId: int)
    | AccessNameAttr(text: string)
    | TypeAttr(resId: int, number: int)
    | IconAttr(resId: int)
    | TitleAttr(text: string)
    | DefaultValueAttr(text: string)
    | DescriptionAttr(text: string)
    | DetailedDescriptionAttr(text: string)
    | EnabledAttr(flag: bool)
    | SwitchUsageAttr(flag: bool)
    | SwitchDefaultValueAttr(flag: bool)
    | InputTypeAttr(number: int)
    | RadioMapAttr(resource: RadioResource)
    | MaxValueAttr(number: int)
    | MinValueAttr(number: int)
    | ReplaceIconAttr(flag: bool)
    | MuteUsageAttr(flag: bool)
    | UnknownAttr

  /** The builder's bundle and the seek-bar locals of the start-tag handler. */
  datatype StartTagState = StartTagState(
    bundle: Bundle, maxProgress: int, minProgress: int, replaceIcon: bool, muteUsage: bool)

  function ReadAttribute(s: StartTagState, a: Attribute): StartTagState
  {
    match a
    case IdAttr(resId) => s.(bundle := s.bundle.(id := resId))
    case AccessNameAttr(text) => s.(bundle := s.bundle.(accessName := text))
    case TypeAttr(resId, number) =>
      // a type given as a resource reference is ignored
      if resId == ID_NULL then s.(bundle := s.bundle.(typeValue := ValueOf(number).GetValue())) else s
    case IconAttr(resId) =>
      // only a resource reference sets the icon
      if resId != ID_NULL then s.(bundle := s.bundle.(iconRes := resId)) else s
    case TitleAttr(text) => s.(bundle := s.bundle.(title := text))
    case DefaultValueAttr(text) => s.(bundle := s.bundle.(defaultValue := text))
    case DescriptionAttr(text) => s.(bundle := s.bundle.(description := text))
    case DetailedDescriptionAttr(text) => s.(bundle := s.bundle.(detailedDescription := text))
    case EnabledAttr(flag) => s.(bundle := s.bundle.(enabled := flag))
    case SwitchUsageAttr(flag) => s.(bundle := s.bundle.(switchUsage := flag))
    case SwitchDefaultValueAttr(flag) => s.(bundle := s.bundle.(switchDefaultValue := flag))
    case InputTypeAttr(number) => s.(bundle := s.bundle.(inputType := number))
    case RadioMapAttr(resource) => s.(bundle := s.bundle.(radioResource := resource))
    case MaxValueAttr(number) => s.(maxProgress := number)
    case MinValueAttr(number) => s.(minProgress := number)
    case ReplaceIconAttr(flag) => s.(replaceIcon := flag)
    case MuteUsageAttr(flag) => s.(muteUsage := flag)
    case UnknownAttr => s
  }

  function ReadAttributes(attrs: seq<Attribute>): StartTagState
  {
    if attrs == [] then StartTagState(DefaultBundle(), 100, 0, true, false)
    else ReadAttribute(ReadAttributes(attrs[..|attrs| - 1]), attrs[|attrs| - 1])
  }

  /** The bundle of the builder a start tag with these attributes produces. */
  function BundleOf(attrs: seq<Attribute>): Bundle
  {
    var s := ReadAttributes(attrs);
    s.bundle.(seekBarMax := s.maxProgress, seekBarMin := s.minProgress,
              seekBarReplaceIcon := s.replaceIcon, seekBarMuteUsage := s.muteUsage)
  }

  /**
   * A start tag without attributes yields the builder defaults and the
   * seek-bar defaults max 100, min 0, replaced icon, no mute.
   */
  lemma BundleOfNoAttributes()
    ensures BundleOf([]) == DefaultBundle().(seekBarMax := 100, seekBarMin := 0,
                                            seekBarReplaceIcon := true, seekBarMuteUsage := false)
  {
  }

  /** The seek-bar locals of the start-tag handler. */
  datatype SeekLocal = MaxLocal | MinLocal | ReplaceIconLocal | MuteUsageLocal

  predicate Sets(a: Attribute, l: SeekLocal)
  {
    match l
    case MaxLocal => a.MaxValueAttr?
    case MinLocal => a.MinValueAttr?
    case ReplaceIconLocal => a.ReplaceIconAttr?
    case MuteUsageLocal => a.MuteUsageAttr?
  }

  /** No attribute at index from or later sets the local l. */
  predicate UnsetFrom(attrs: seq<Attribute>, from: int, l: SeekLocal)
  {
    forall i :: 0 <= i < |attrs| && from <= i ==> !Sets(attrs[i], l)
  }

  /** One attribute changes a seek-bar local only when it is that local's attribute. */
  lemma SeekLocalStep(s: StartTagState, a: Attribute)
    ensures ReadAttribute(s, a).maxProgress == if a.MaxValueAttr? then a.number else s.maxProgress
    ensures ReadAttribute(s, a).minProgress == if a.MinValueAttr? then a.number else s.minProgress
    ensures ReadAttribute(s, a).replaceIcon == if a.ReplaceIconAttr? then a.flag else s.replaceIcon
    ensures ReadAttribute(s, a).muteUsage == if a.MuteUsageAttr? then a.flag else s.muteUsage
  {
  }

  /**
   * Whatever the other attributes, a seek-bar local that no attribute sets
   * keeps its default: max 100, min 0, icon replaced, no mute.
   */
  lemma {:induction false} SeekBarDefaultsKept(attrs: seq<Attribute>)
    ensures UnsetFrom(attrs, 0, MaxLocal) ==> BundleOf(attrs).seekBarMax == 100
    ensures UnsetFrom(attrs, 0, MinLocal) ==> BundleOf(attrs).seekBarMin == 0
    ensures UnsetFrom(attrs, 0, ReplaceIconLocal) ==> BundleOf(attrs).seekBarReplaceIcon
    ensures UnsetFrom(attrs, 0, MuteUsageLocal) ==> !BundleOf(attrs).seekBarMuteUsage
  {
    if attrs != [] {
      var init, last := attrs[..|attrs| - 1], attrs[|attrs| - 1];
      assert ReadAttributes(attrs) == ReadAttribute(ReadAttributes(init), last);
      SeekLocalStep(ReadAttributes(init), last);
      SeekBarDefaultsKept(init);
      if UnsetFrom(attrs, 0, MaxLocal) {
        assert !Sets(last, MaxLocal) && UnsetFrom(init, 0, MaxLocal);
      }
      if UnsetFrom(attrs, 0, MinLocal) {
        assert !Sets(last, MinLocal) && UnsetFrom(init, 0, MinLocal);
      }
      if UnsetFrom(attrs, 0, ReplaceIconLocal) {
        assert !Sets(last, ReplaceIconLocal) && UnsetFrom(init, 0, ReplaceIconLocal);
      }
      if UnsetFrom(attrs, 0, MuteUsageLocal) {
        assert !Sets(last, MuteUsageLocal) && UnsetFrom(init, 0, MuteUsageLocal);
      }
    }
  }

  /** A seek-bar local that some attribute sets takes the value of the last such attribute. */
  lemma {:induction false} SeekBarLastWins(attrs: seq<Attribute>)
    ensures forall j :: 0 <= j < |attrs| && attrs[j].MaxValueAttr? && UnsetFrom(attrs, j + 1, MaxLocal) ==>
      BundleOf(attrs).seekBarMax == attrs[j].number
    ensures forall j :: 0 <= j < |attrs| && attrs[j].MinValueAttr? && UnsetFrom(attrs, j + 1, MinLocal) ==>
      BundleOf(attrs).seekBarMin == attrs[j].number
    ensures forall j :: 0 <= j < |attrs| && attrs[j].ReplaceIconAttr? && UnsetFrom(attrs, j + 1, ReplaceIconLocal) ==>
      BundleOf(attrs).seekBarReplaceIcon == attrs[j].flag
    ensures forall j :: 0 <= j < |attrs| && attrs[j].MuteUsageAttr? && UnsetFrom(attrs, j + 1, MuteUsageLocal) ==>
      BundleOf(attrs).seekBarMuteUsage == attrs[j].flag
  {
    if attrs != [] {
      var init, last := attrs[..|attrs| - 1], attrs[|attrs| - 1];
      var s0, s1 := ReadAttributes(init), ReadAttributes(attrs);
      assert s1 == ReadAttribute(s0, last);
      SeekLocalStep(s0, last);
      SeekBarLastWins(init);
      assert BundleOf(attrs).seekBarMax == s1.maxProgress && BundleOf(init).seekBarMax == s0.maxProgress;
      forall j | 0 <= j < |init| && attrs[j].MaxValueAttr? && UnsetFrom(attrs, j + 1, MaxLocal)
        ensures BundleOf(attrs).seekBarMax == attrs[j].number
      {
        assert !Sets(last, MaxLocal) && init[j] == attrs[j] && UnsetFrom(init, j + 1, MaxLocal);
      }
      assert BundleOf(attrs).seekBarMin == s1.minProgress && BundleOf(init).seekBarMin == s0.minProgress;
      forall j | 0 <= j < |init| && attrs[j].MinValueAttr? && UnsetFrom(attrs, j + 1, MinLocal)
        ensures BundleOf(attrs).seekBarMin == attrs[j].number
      {
        assert !Sets(last, MinLocal) && init[j] == attrs[j] && UnsetFrom(init, j + 1, MinLocal);
      }
      assert BundleOf(attrs).seekBarReplaceIcon == s1.replaceIcon && BundleOf(init).seekBarReplaceIcon == s0.replaceIcon;
      forall j | 0 <= j < |init| && attrs[j].ReplaceIconAttr? && UnsetFrom(attrs, j + 1, ReplaceIconLocal)
        ensures BundleOf(attrs).seekBarReplaceIcon == attrs[j].flag
      {
        assert !Sets(last, ReplaceIconLocal) && init[j] == attrs[j] && UnsetFrom(init, j + 1, ReplaceIconLocal);
      }
      assert BundleOf(attrs).seekBarMuteUsage == s1.muteUsage && BundleOf(init).seekBarMuteUsage == s0.muteUsage;
      forall j | 0 <= j < |init| && attrs[j].MuteUsageAttr? && UnsetFrom(attrs, j + 1, MuteUsageLocal)
        ensures BundleOf(attrs).seekBarMuteUsage == attrs[j].flag
      {
        assert !Sets(last, MuteUsageLocal) && init[j] == attrs[j] && UnsetFrom(init, j + 1, MuteUsageLocal);
      }
    }
  }


  /** One pass of the attribute switch: a builder setter or a seek-bar local. */
  method ReadAttributeInto(b: Builder, s: StartTagState, a: Attribute) returns (s': StartTagState)
    requires s.bundle == b.bundle
    modifies b
    ensures s' == ReadAttribute(s, a) && b.bundle == s'.bundle && b.subPreferences == old(b.subPreferences)
  {
    s' := ReadAttribute(s, a);
    if IsTextAttribute(a) {
      SetTextAttribute(b, s, a);
    } else if !(a.MaxValueAttr? || a.MinValueAttr? || a.ReplaceIconAttr? || a.MuteUsageAttr? || a.UnknownAttr?) {
      SetOptionAttribute(b, s, a);
    }
  }

  predicate IsTextAttribute(a: Attribute)
  {
    a.IdAttr? || a.AccessNameAttr? || a.TitleAttr? || a.DefaultValueAttr? ||
    a.DescriptionAttr? || a.DetailedDescriptionAttr?
  }

  /** The id and the texts of a preference go straight to the builder. */
  method SetTextAttribute(b: Builder, ghost s: StartTagState, a: Attribute)
    requires s.bundle == b.bundle && IsTextAttribute(a)
    modifies b
    ensures b.bundle == ReadAttribute(s, a).bundle && b.subPreferences == old(b.subPreferences)
  {
    match a {
    case IdAttr(resId) => b.SetId(resId);
    case AccessNameAttr(text) => b.SetAccessName(text);
    case TitleAttr(text) => b.SetTitle(text);
    case DefaultValueAttr(text) => b.SetDefaultValue(text);
    case DescriptionAttr(text) => b.SetDescription(text);
    case DetailedDescriptionAttr(text) => b.SetDetailedDescription(text);
    }
  }

  /** The type, icon, flags, input type and radio resource also go to the builder. */
  method SetOptionAttribute(b: Builder, ghost s: StartTagState, a: Attribute)
    requires s.bundle == b.bundle && !IsTextAttribute(a)
    requires !(a.MaxValueAttr? || a.MinValueAttr? || a.ReplaceIconAttr? || a.MuteUsageAttr? || a.UnknownAttr?)
    modifies b
    ensures b.bundle == ReadAttribute(s, a).bundle && b.subPreferences == old(b.subPreferences)
  {
    match a {
    case TypeAttr(resId, number) =>
      if resId == ID_NULL {
        b.SetType(ValueOf(number));
      }
    case IconAttr(resId) =>
      if resId != ID_NULL {
        b.SetIconRes(resId);
      }
    case EnabledAttr(flag) => b.SetEnabled(flag);
    case SwitchUsageAttr(flag) => b.SetSwitch(flag);
    case SwitchDefaultValueAttr(flag) => b.SetSwitchDefaultValue(flag);
    case InputTypeAttr(number) => b.SetInputType(number);
    case RadioMapAttr(resource) => b.SetRadio(resource);
    }
  }

  /** The start-tag handler: a new builder fed every attribute in order. */
  method ReadStartTag(attrs: seq<Attribute>) returns (b: Builder)
    ensures fresh(b) && b.bundle == BundleOf(attrs) && b.subPreferences == []
  {
    b := new Builder();
    var s := StartTagState(b.bundle, 100, 0, true, false);
    var i := 0;
    while i < |attrs|
      invariant 0 <= i <= |attrs|
      invariant ReadAttributes(attrs[..i]) == s && s.bundle == b.bundle
      invariant b.subPreferences == []
    {
      assert attrs[..i + 1][..i] == attrs[..i];
      s := ReadAttributeInto(b, s, attrs[i]);
      i := i + 1;
    }
    assert attrs[..i] == attrs;
    b.SetSeekBar(s.maxProgress, s.minProgress, s.replaceIcon, s.muteUsage);
  }

  // ---------------------------------------------------------------------
  // The document, lifted to bundles

  function LiftEvent(e: Event<seq<Attribute>>): Event<Bundle>
  {
    match e
    case StartTag(el, attrs) => StartTag(el, BundleOf(attrs))
    case EndTag(el) => EndTag(el)
    case OtherEvent => OtherEvent
    case Malformed => Malformed
  }

  function Lift(events: seq<Event<seq<Attribute>>>): (r: seq<Event<Bundle>>)
    ensures |r| == |events| && forall i :: 0 <= i < |events| ==> r[i] == LiftEvent(events[i])
  {
    seq(|events|, i requires 0 <= i < |events| => LiftEvent(events[i]))
  }

  /** What the builder loop should produce for this document. */
  ghost function Plan(events: seq<Event<seq<Attribute>>>): BuildState<Bundle>
  {
    Build(Lift(events))
  }

  function BundleId(b: Bundle): int
  {
    b.id
  }

  /** Closing this builder with create() throws NumberFormatException. */
  ghost predicate CrashesOn(t: Tree<Bundle>)
  {
    t.element == ItemElement && !Creatable(t.attrs)
  }

  /** No item among these creations makes create() throw. */
  ghost predicate NoCrash(finished: seq<Tree<Bundle>>)
  {
    forall t :: t in finished ==> !CrashesOn(t)
  }

  /** An open builder agrees with its frame in the plan. */
  ghost predicate Holds(b: Builder, f: Frame<Bundle>)
    reads b
  {
    b.bundle == f.attrs && Decls(b.subPreferences) == f.children
  }

  /** The object id map agrees with the plan's id index. */
  ghost predicate MapMirrors(m: LinkedMap<int, Preference>, idx: LinkedMap<int, Tree<Bundle>>)
  {
    m.order == idx.order &&
    (forall k :: k in m.entries <==> k in idx.entries) &&
    forall k :: k in m.entries ==> m.entries[k].decl == idx.entries[k]
  }

  /** Every preference is filed under its own id. */
  ghost predicate KeysMatch(m: LinkedMap<int, Preference>)
  {
    forall k :: k in m.entries ==> m.entries[k].id == k
  }

  // ---------------------------------------------------------------------
  // SharedPreferences

  /** The switch value is written only for a preference whose switch is valid. */
  function PutSwitch(store: Store, accessName: string, switchValid: bool, checked: bool): Store
  {
    if switchValid then store[SwitchKey(accessName) := BoolValue(checked)] else store
  }

  function PutContent(store: Store, accessName: string, content: string): Store
  {
    store[ContentKey(accessName) := StringValue(content)]
  }

  function PutRaw(store: Store, accessName: string, raw: string): Store
  {
    store[RawKey(accessName) := StringValue(raw)]
  }

  /**
   * What savePreference writes reads back unchanged, a switch that is not
   * valid keeps whatever was stored, and no other key changes.
   */
  lemma SaveLoadRoundTrip(store: Store, accessName: string, switchValid: bool, checked: bool,
                          content: string, raw: string, defaultChecked: bool, defaultValue: string)
    requires Loadable(store, accessName)
    ensures var saved := PutRaw(PutContent(PutSwitch(store, accessName, switchValid, checked), accessName, content), accessName, raw);
      Loadable(saved, accessName) &&
      GetString(saved, ContentKey(accessName), defaultValue) == content &&
      GetString(saved, RawKey(accessName), defaultValue) == raw &&
      GetBoolean(saved, SwitchKey(accessName), defaultChecked) ==
        (if switchValid then checked else GetBoolean(store, SwitchKey(accessName), defaultChecked)) &&
      forall k :: k in saved && k != SwitchKey(accessName) && k != ContentKey(accessName) && k != RawKey(accessName) ==>
        k in store && saved[k] == store[k]
  {
    KeysDistinct(accessName, accessName);
  }

  // ---------------------------------------------------------------------
  // Repairing loaded values

  /**
   * What setPreferenceContentValuesCorrectWrongData does: the content and raw
   * values it sets (None: left as they were), the seek bar afterwards, and
   * whether it reports that the stored values had to be corrected.
   */
  datatype Correction = Correction(content: Option<string>, raw: Option<string>, seek: SeekState, changed: bool)

  /** The first radio entry, in map order, whose key is the given text. */
  function FindByKey(infos: seq<RadioInfo>, key: string): (r: Option<RadioInfo>)
    ensures r.Some? ==> (exists i :: 0 <= i < |infos| && infos[i] == r.value && infos[i].key == key &&
                                    (forall j :: 0 <= j < i ==> infos[j].key != key))
    ensures r.None? ==> forall i :: 0 <= i < |infos| ==> infos[i].key != key
  {
    if infos == [] then None
    else if infos[0].key == key then Some(infos[0])
    else
      var r := FindByKey(infos[1..], key);
      assert r.Some? ==> (exists i :: 0 <= i < |infos| && infos[i] == r.value && infos[i].key == key &&
                                      (forall j :: 0 <= j < i ==> infos[j].key != key)) by {
        if r.Some? {
          var i :| 0 <= i < |infos[1..]| && infos[1..][i] == r.value && infos[1..][i].key == key &&
            forall j :: 0 <= j < i ==> infos[1..][j].key != key;
          assert infos[i + 1] == r.value;
          assert forall j :: 0 <= j < i + 1 ==> infos[j].key != key by {
            forall j | 0 <= j < i + 1 ensures infos[j].key != key {
              if j > 0 {
                assert infos[j] == infos[1..][j - 1];
              }
            }
          }
        }
      }
      r
  }

  /** The seek-bar branch: parse both stored texts, reset on a parse failure, rewrite both. */
  function SeekCorrection(seek: SeekState, content: string, raw: string): Correction
  {
    var progress := ParseInt(content);
    var progressRaw := ParseInt(raw);
    var s1 :=
      if progress.None? then seek.Reset()
      else if progressRaw.None? then seek.WithProgress(progress.value).Reset()
      else seek.WithProgress(progress.value).WithProgressRaw(progressRaw.value);
    var s2 := if s1.ProgressValue() == s1.minValue && s1.muteUsage then s1.(muted := true) else s1;
    Correction(Some(ToDecimal(s1.ProgressValue())), Some(ToDecimal(s1.progressRaw)), s2,
               progress.None? || progressRaw.None?)
  }

  /** radio is the preference's map when its Radio is valid, None otherwise. */
  function CorrectWrongData(radio: Option<RadioMap>, seek: SeekState, content: string, raw: string): Correction
    requires radio.Some? ==> radio.value.Valid() && radio.value.Size() > 0
  {
    if radio.Some? then
      var infos := radio.value.Values();
      var found := if raw != "" then FindByKey(infos, raw) else None;
      if found.Some? then Correction(Some(found.value.title), None, seek, false)
      else Correction(Some(infos[0].title), Some(infos[0].key), seek, true)
    else if seek.IsValid() then SeekCorrection(seek, content, raw)
    else Correction(None, None, seek, false)
  }

  /** Searching the map's values by key finds something exactly when some entry has that key. */
  lemma FindInValues(m: RadioMap, raw: string)
    requires m.Valid()
    ensures FindByKey(m.Values(), raw).Some? <==> exists k :: k in m.entries && m.entries[k].key == raw
  {
    var infos := m.Values();
    if exists k :: k in m.entries && m.entries[k].key == raw {
      var k :| k in m.entries && m.entries[k].key == raw;
      var i :| 0 <= i < |m.order| && m.order[i] == k;
      assert infos[i].key == raw;
    }
    if FindByKey(infos, raw).Some? {
      var i :| 0 <= i < |infos| && infos[i].key == raw;
      assert m.order[i] in m.entries;
    }
  }

  /** Entry i, in map order, is the first whose key is the given text. */
  ghost predicate FirstWithKey(m: RadioMap, i: int, key: string)
  {
    0 <= i < |m.order| && m.order[i] in m.entries && m.entries[m.order[i]].key == key &&
    forall j :: 0 <= j < i && m.order[j] in m.entries ==> m.entries[m.order[j]].key != key
  }

  /** What the search of the map's values finds is the first entry with that key. */
  lemma FoundFirst(m: RadioMap, key: string)
    requires m.Valid() && FindByKey(m.Values(), key).Some?
    ensures exists i :: FirstWithKey(m, i, key) && FindByKey(m.Values(), key).value == m.entries[m.order[i]]
  {
    var infos := m.Values();
    var i :| 0 <= i < |infos| && infos[i] == FindByKey(infos, key).value && infos[i].key == key &&
      (forall j :: 0 <= j < i ==> infos[j].key != key);
    forall j | 0 <= j < i && m.order[j] in m.entries
      ensures m.entries[m.order[j]].key != key
    {
      assert infos[j] == m.entries[m.order[j]];
    }
    assert infos[i] == m.entries[m.order[i]];
  }

  /**
   * Radio preference: a stored raw value naming an entry keeps it and shows
   * that entry's title; anything else (empty or unknown) falls back to the
   * first entry and reports a correction. The seek bar is never touched.
   */
  lemma CorrectRadio(m: RadioMap, seek: SeekState, content: string, raw: string)
    requires m.Valid() && m.Size() > 0
    ensures var c := CorrectWrongData(Some(m), seek, content, raw);
      c.seek == seek &&
      (!c.changed <==> raw != "" && exists k :: k in m.entries && m.entries[k].key == raw) &&
      (!c.changed ==>
        c.raw.None? && exists i :: FirstWithKey(m, i, raw) && c.content == Some(m.entries[m.order[i]].title)) &&
      (c.changed ==> c.raw == Some(m.entries[m.order[0]].key) && c.content == Some(m.entries[m.order[0]].title))
  {
    FindInValues(m, raw);
    var c := CorrectWrongData(Some(m), seek, content, raw);
    if !c.changed {
      FoundFirst(m, raw);
    }
  }

  /**
   * Seek-bar preference: both texts parse as ints exactly when nothing is
   * reported corrected; then the progress is the clamped content value and
   * the raw value the raw text, otherwise both come from the default. The
   * written content is the reported value, which lies within [min, max].
   */
  lemma CorrectSeekBar(seek: SeekState, content: string, raw: string)
    requires seek.IsValid()
    ensures var c := CorrectWrongData(None, seek, content, raw);
      (c.changed <==> ParseInt(content).None? || ParseInt(raw).None?) &&
      (!c.changed ==> c.seek.progress == Clamp(ParseInt(content).value, seek.minValue, seek.maxValue) &&
                      c.seek.progressRaw == ParseInt(raw).value) &&
      (c.changed ==> c.seek.progress == Clamp(seek.defaultValue, seek.minValue, seek.maxValue) &&
                     c.seek.progressRaw == seek.defaultValue) &&
      c.raw == Some(ToDecimal(c.seek.progressRaw)) &&
      c.content.Some? && (exists v :: c.content == Some(ToDecimal(v)) && seek.minValue <= v <= seek.maxValue) &&
      c.seek.maxValue == seek.maxValue && c.seek.minValue == seek.minValue && c.seek.defaultValue == seek.defaultValue
  {
    var c := CorrectWrongData(None, seek, content, raw);
    var progress := ParseInt(content);
    var progressRaw := ParseInt(raw);
    var s1 :=
      if progress.None? then seek.Reset()
      else if progressRaw.None? then seek.WithProgress(progress.value).Reset()
      else seek.WithProgress(progress.value).WithProgressRaw(progressRaw.value);
    assert c.content == Some(ToDecimal(s1.ProgressValue()));
  }

  /**
   * Mute rule: after the seek-bar branch the bar is muted exactly when it
   * was muted before, or mute is in use and the value reported is the minimum.
   */
  lemma CorrectSeekBarMute(seek: SeekState, content: string, raw: string)
    requires seek.IsValid()
    ensures var c := CorrectWrongData(None, seek, content, raw);
      (c.seek.muted <==>
        seek.muted || (seek.muteUsage && c.content == Some(ToDecimal(seek.minValue))))
  {
    var progress := ParseInt(content);
    var progressRaw := ParseInt(raw);
    var s1 :=
      if progress.None? then seek.Reset()
      else if progressRaw.None? then seek.WithProgress(progress.value).Reset()
      else seek.WithProgress(progress.value).WithProgressRaw(progressRaw.value);
    if ToDecimal(s1.ProgressValue()) == ToDecimal(seek.minValue) {
      ToDecimalInjective(s1.ProgressValue(), seek.minValue);
    }
  }

  /** A preference with neither a valid radio nor a valid seek bar is left alone. */
  lemma CorrectNothing(seek: SeekState, content: string, raw: string)
    requires !seek.IsValid()
    ensures CorrectWrongData(None, seek, content, raw) == Correction(None, None, seek, false)
  {
  }

  /** The seek-bar settings fit Java ints. */
  predicate SeekInt32(s: SeekState)
  {
    IsInt32(s.defaultValue) && IsInt32(s.maxValue) && IsInt32(s.minValue)
  }

  /**
   * A repaired seek bar is a fixed point: correcting again from the texts
   * just written reports no correction and writes the same texts.
   */
  lemma SeekCorrectionStable(seek: SeekState, content: string, raw: string)
    requires seek.IsValid() && SeekInt32(seek)
    ensures var c := CorrectWrongData(None, seek, content, raw);
      var c2 := CorrectWrongData(None, c.seek, c.content.value, c.raw.value);
      !c2.changed && c2.content == c.content && c2.raw == c.raw
  {
    var c := CorrectWrongData(None, seek, content, raw);
    var progress := ParseInt(content);
    var progressRaw := ParseInt(raw);
    var s1 :=
      if progress.None? then seek.Reset()
      else if progressRaw.None? then seek.WithProgress(progress.value).Reset()
      else seek.WithProgress(progress.value).WithProgressRaw(progressRaw.value);
    assert IsInt32(s1.progressRaw);
    assert seek.minValue <= s1.ProgressValue() <= seek.maxValue;
    ParseIntToDecimal(s1.progressRaw);
    ParseIntToDecimal(s1.ProgressValue());
    assert c.seek.IsValid();
  }

  /**
   * A repaired radio preference is a fixed point when its first entry has a
   * non-empty key: loading again the raw value now stored (the written one,
   * or the unchanged stored one) reports no correction and shows the same title.
   */
  lemma RadioCorrectionStable(m: RadioMap, seek: SeekState, content: string, raw: string)
    requires m.Valid() && m.Size() > 0 && m.entries[m.order[0]].key != ""
    ensures var c := CorrectWrongData(Some(m), seek, content, raw);
      var stored := if c.raw.Some? then c.raw.value else raw;
      var c2 := CorrectWrongData(Some(m), c.seek, c.content.value, stored);
      !c2.changed && c2.content == c.content && c2.raw.None?
  {
    var infos := m.Values();
    var c := CorrectWrongData(Some(m), seek, content, raw);
    if c.changed {
      assert FindByKey(infos, infos[0].key) == Some(infos[0]);
    }
  }

  // ---------------------------------------------------------------------
  // The manager

  /** SaveOptimizer.optimize: picks the preference actually saved for a request. */
  type SaveOptimizer = (Preference, int) -> Preference

  /** The optimizer installed when none is given: saves the preference itself. */
  const IdentityOptimizer: SaveOptimizer := (p: Preference, flag: int) => p

  /** The radio map the repair step sees: only a valid Radio's map. */
  function ValidRadioMap(r: Radio): (m: Option<RadioMap>)
    reads r
    requires r.Valid()
    ensures m.Some? ==> m.value.Valid() && m.value.Size() > 0
    ensures m.Some? <==> r.IsValid()
  {
    if r.IsValid() then r.radioMap else None
  }

  class PreferenceManager {
    var preferenceList: seq<Preference>
    var preferenceMap: LinkedMap<int, Preference>
    var store: Store
    var saveOptimizer: SaveOptimizer

    ghost predicate Valid()
      reads this
    {
      preferenceMap.Valid() && KeysMatch(preferenceMap)
    }

    /** The fields the constructor sets before parsing; a null optimizer is the identity. */
    constructor(store: Store, optimizer: Option<SaveOptimizer>)
      ensures preferenceList == [] && preferenceMap == EmptyLinkedMap() && this.store == store
      ensures saveOptimizer == if optimizer.Some? then optimizer.value else IdentityOptimizer
      ensures Valid()
    {
      preferenceList := [];
      preferenceMap := EmptyLinkedMap();
      this.store := store;
      var o: SaveOptimizer := if optimizer.Some? then optimizer.value else IdentityOptimizer;
      saveOptimizer := o;
    }

    method SetSaveOptimizer(optimizer: Option<SaveOptimizer>)
      modifies this`saveOptimizer
      ensures saveOptimizer == if optimizer.Some? then optimizer.value else IdentityOptimizer
    {
      var o: SaveOptimizer := if optimizer.Some? then optimizer.value else IdentityOptimizer;
      saveOptimizer := o;
    }

    /** getPreferenceById: the preference filed under the id, if any. */
    function GetPreferenceById(id: int): (r: Option<Preference>)
      reads this
      requires Valid()
      ensures r.Some? <==> id in preferenceMap.entries
      ensures r.Some? ==> r.value.id == id
    {
      if id in preferenceMap.entries then Some(preferenceMap.entries[id]) else None
    }

    // -------------------------------------------------------------------
    // Saving and loading

    /**
     * savePreference: the preference the optimizer picks is written: its
     * switch state when its switch is valid, its content and raw values
     * always. With the default optimizer, each value reads back as written.
     */
    method SavePreference(p: Preference)
      modifies this`store
      ensures var q := saveOptimizer(p, FLAG_SAVE_ALL);
        store == PutRaw(PutContent(PutSwitch(old(store), q.accessName, q.sw.IsValid(), q.sw.checked),
                                   q.accessName, q.ContentValue()), q.accessName, q.ContentValueRaw())
      ensures saveOptimizer == IdentityOptimizer ==>
        HoldsString(store, ContentKey(p.accessName)) && HoldsString(store, RawKey(p.accessName)) &&
        LoadPreferenceContentValue(p) == p.ContentValue() &&
        LoadPreferenceContentValueRaw(p) == p.ContentValueRaw() &&
        (p.sw.IsValid() ==> HoldsBoolean(store, SwitchKey(p.accessName)) &&
                            LoadPreferenceSwitchValue(p) == p.sw.checked)
    {
      var q := saveOptimizer(p, FLAG_SAVE_ALL);
      var s := store;
      if q.sw.IsValid() {
        s := s[SwitchKey(q.accessName) := BoolValue(q.sw.checked)];
      }
      s := s[ContentKey(q.accessName) := StringValue(q.ContentValue())];
      s := s[RawKey(q.accessName) := StringValue(q.ContentValueRaw())];
      store := s;
      KeysDistinct(q.accessName, q.accessName);
    }

    /** savePreferenceSwitchValue: only the switch key, only for a valid switch. */
    method SavePreferenceSwitchValue(p: Preference)
      modifies this`store
      ensures var q := saveOptimizer(p, FLAG_SAVE_SWITCH_VALUE);
        store == PutSwitch(old(store), q.accessName, q.sw.IsValid(), q.sw.checked)
      ensures saveOptimizer == IdentityOptimizer && p.sw.IsValid() ==>
        HoldsBoolean(store, SwitchKey(p.accessName)) && LoadPreferenceSwitchValue(p) == p.sw.checked
    {
      var q := saveOptimizer(p, FLAG_SAVE_SWITCH_VALUE);
      if q.sw.IsValid() {
        store := store[SwitchKey(q.accessName) := BoolValue(q.sw.checked)];
      }
    }

    /** savePreferenceContentValue: only the content key. */
    method SavePreferenceContentValue(p: Preference)
      modifies this`store
      ensures var q := saveOptimizer(p, FLAG_SAVE_CONTENT_VALUE);
        store == PutContent(old(store), q.accessName, q.ContentValue())
      ensures saveOptimizer == IdentityOptimizer ==>
        HoldsString(store, ContentKey(p.accessName)) && LoadPreferenceContentValue(p) == p.ContentValue()
    {
      var q := saveOptimizer(p, FLAG_SAVE_CONTENT_VALUE);
      store := store[ContentKey(q.accessName) := StringValue(q.ContentValue())];
    }

    /** savePreferenceContentValueRaw: only the raw key. */
    method SavePreferenceContentValueRaw(p: Preference)
      modifies this`store
      ensures var q := saveOptimizer(p, FLAG_SAVE_CONTENT_VALUE_RAW);
        store == PutRaw(old(store), q.accessName, q.ContentValueRaw())
      ensures saveOptimizer == IdentityOptimizer ==>
        HoldsString(store, RawKey(p.accessName)) && LoadPreferenceContentValueRaw(p) == p.ContentValueRaw()
    {
      var q := saveOptimizer(p, FLAG_SAVE_CONTENT_VALUE_RAW);
      store := store[RawKey(q.accessName) := StringValue(q.ContentValueRaw())];
    }

    /** loadPreferenceSwitchValue: the stored switch state, else the switch default. */
    function LoadPreferenceSwitchValue(p: Preference): (r: bool)
      reads this
      requires HoldsBoolean(store, SwitchKey(p.accessName))
      ensures SwitchKey(p.accessName) in store ==> r == store[SwitchKey(p.accessName)].flag
      ensures SwitchKey(p.accessName) !in store ==> r == p.sw.defaultChecked
    {
      GetBoolean(store, SwitchKey(p.accessName), p.sw.defaultChecked)
    }

    /** loadPreferenceContentValue: the stored content, else the preference default. */
    function LoadPreferenceContentValue(p: Preference): (r: string)
      reads this
      requires HoldsString(store, ContentKey(p.accessName))
      ensures ContentKey(p.accessName) in store ==> r == store[ContentKey(p.accessName)].text
      ensures ContentKey(p.accessName) !in store ==> r == p.defaultValue
    {
      GetString(store, ContentKey(p.accessName), p.defaultValue)
    }

    /** loadPreferenceContentValueRaw: the stored raw value, else the preference default. */
    function LoadPreferenceContentValueRaw(p: Preference): (r: string)
      reads this
      requires HoldsString(store, RawKey(p.accessName))
      ensures RawKey(p.accessName) in store ==> r == store[RawKey(p.accessName)].text
      ensures RawKey(p.accessName) !in store ==> r == p.defaultValue
    {
      GetString(store, RawKey(p.accessName), p.defaultValue)
    }

    /**
     * loadPreference: the switch takes the stored state; content and raw
     * values are repaired as CorrectWrongData says; when a correction was
     * needed, the repaired content and raw values are saved back.
     */
    method LoadPreference(p: Preference)
      requires Loadable(store, p.accessName) && p.radio.Valid()
      modifies this`store, p`contentValue, p`contentValueRaw, p.sw, p.seekBar
      ensures var c := CorrectWrongData(ValidRadioMap(p.radio), old(p.seekBar.State()),
                                        GetString(old(store), ContentKey(p.accessName), p.defaultValue),
                                        GetString(old(store), RawKey(p.accessName), p.defaultValue));
        p.sw.checked == GetBoolean(old(store), SwitchKey(p.accessName), p.sw.defaultChecked) &&
        p.seekBar.State() == c.seek &&
        p.contentValue == (if c.content.Some? then c.content else old(p.contentValue)) &&
        p.contentValueRaw == (if c.raw.Some? then c.raw else old(p.contentValueRaw)) &&
        (!c.changed ==> store == old(store)) &&
        (c.changed ==>
          var q1 := saveOptimizer(p, FLAG_SAVE_CONTENT_VALUE);
          var q2 := saveOptimizer(p, FLAG_SAVE_CONTENT_VALUE_RAW);
          store == PutRaw(PutContent(old(store), q1.accessName, q1.ContentValue()), q2.accessName, q2.ContentValueRaw()))
      ensures p.title == old(p.title) && p.enabled == old(p.enabled)
      ensures p.seekBar.replaceIcon == old(p.seekBar.replaceIcon)
    {
      var content := LoadPreferenceContentValue(p);
      var raw := LoadPreferenceContentValueRaw(p);
      p.sw.SetChecked(LoadPreferenceSwitchValue(p));
      var changed := SetPreferenceContentValuesCorrectWrongData(p, content, raw);
      if changed {
        ghost var before := store;
        SavePreferenceContentValue(p);
        ghost var q1 := saveOptimizer(p, FLAG_SAVE_CONTENT_VALUE);
        assert store == PutContent(before, q1.accessName, q1.ContentValue());
        SavePreferenceContentValueRaw(p);
        assert store == PutRaw(PutContent(before, q1.accessName, q1.ContentValue()),
          saveOptimizer(p, FLAG_SAVE_CONTENT_VALUE_RAW).accessName, saveOptimizer(p, FLAG_SAVE_CONTENT_VALUE_RAW).ContentValueRaw());
        assert before == old(store);
      }
    }

    /**
     * setPreferenceContentValuesCorrectWrongData on the loaded content and
     * raw values: the outcome CorrectWrongData describes.
     */
    method SetPreferenceContentValuesCorrectWrongData(p: Preference, content: string, raw: string)
        returns (changed: bool)
      requires p.radio.Valid()
      modifies p`contentValue, p`contentValueRaw, p.seekBar
      ensures var c := CorrectWrongData(ValidRadioMap(p.radio), old(p.seekBar.State()), content, raw);
        changed == c.changed && p.seekBar.State() == c.seek &&
        p.contentValue == (if c.content.Some? then c.content else old(p.contentValue)) &&
        p.contentValueRaw == (if c.raw.Some? then c.raw else old(p.contentValueRaw))
      ensures p.title == old(p.title) && p.enabled == old(p.enabled)
      ensures p.seekBar.replaceIcon == old(p.seekBar.replaceIcon)
    {
      if p.radio.IsValid() {
        changed := CorrectRadioInPlace(p, raw);
      } else if p.seekBar.IsValid() {
        changed := CorrectSeekBarInPlace(p, content, raw);
      } else {
        changed := false;
      }
    }

    /**
     * parseXmlPreference. crashed: a NumberFormatException from a seek-bar
     * default escapes. Otherwise the top-level list and the id map hold
     * exactly the preferences the plan builds, in its order; a parser error
     * (Malformed) ends the build and keeps what was built before it.
     */
    method ParseXmlPreference(events: seq<Event<seq<Attribute>>>) returns (crashed: bool)
      requires preferenceList == [] && preferenceMap == EmptyLinkedMap()
      modifies this`preferenceList, this`preferenceMap
      ensures Valid()
      ensures crashed <==> !NoCrash(Plan(events).finished)
      ensures !crashed ==> Mirrors(preferenceList, preferenceMap, Plan(events).roots, Plan(events).finished)
    {
      var lifted := Lift(events);
      ghost var spec: BuildState<Bundle> := Initial();
      var list: seq<Preference> := [];
      var m: LinkedMap<int, Preference> := EmptyLinkedMap();
      var cursor: Builder? := null;
      var stack: seq<Builder> := [];
      var i := 0;
      crashed := false;
      assert lifted[..0] == [];
      while i < |events|
        invariant 0 <= i <= |events|
        invariant spec == Run(Initial(), lifted[..i])
        invariant Tracks(spec, cursor, stack)
        invariant Mirrors(list, m, spec.roots, spec.finished) && NoCrash(spec.finished)
        invariant fresh(Builders(cursor, stack)) && !crashed
      {
        var stop;
        list, m, cursor, stack, stop, crashed := Advance(lifted, i, events[i], list, m, cursor, stack, spec);
        if stop {
          break;
        }
        spec := Run(Initial(), lifted[..i + 1]);
        i := i + 1;
      }
      if i == |events| {
        assert lifted[..i] == lifted;
      }
      preferenceList, preferenceMap := list, m;
    }
  }

  /**
   * One turn of the parse loop. stop: the build is over, because of a
   * parser error (the plan keeps what was built so far) or because create()
   * threw (crashed).
   */
  method Advance(lifted: seq<Event<Bundle>>, i: nat, e: Event<seq<Attribute>>,
                 list: seq<Preference>, m: LinkedMap<int, Preference>,
                 cursor: Builder?, stack: seq<Builder>, ghost spec: BuildState<Bundle>)
      returns (list': seq<Preference>, m': LinkedMap<int, Preference>,
               cursor': Builder?, stack': seq<Builder>, stop: bool, crashed: bool)
    requires i < |lifted| && lifted[i] == LiftEvent(e) && spec == Run(Initial(), lifted[..i])
    requires Tracks(spec, cursor, stack)
    requires Mirrors(list, m, spec.roots, spec.finished) && NoCrash(spec.finished)
    modifies Builders(cursor, stack)
    ensures m'.Valid() && KeysMatch(m') && (crashed ==> stop)
    ensures forall b :: b in Builders(cursor', stack') ==> b in Builders(cursor, stack) || fresh(b)
    ensures stop && crashed ==> !NoCrash(Build(lifted).finished)
    ensures stop && !crashed ==>
      NoCrash(Build(lifted).finished) && Mirrors(list', m', Build(lifted).roots, Build(lifted).finished)
    ensures !stop ==> (var s := Run(Initial(), lifted[..i + 1]);
      Tracks(s, cursor', stack') && Mirrors(list', m', s.roots, s.finished) && NoCrash(s.finished))
  {
    RunSnoc(lifted, i);
    if e.Malformed? {
      MalformedEnds(lifted, i, spec);
      return list, m, cursor, stack, true, false;
    }
    list', m', cursor', stack', crashed := Feed(e, list, m, cursor, stack, spec);
    stop := crashed;
    if crashed {
      CrashRecorded(lifted, i + 1, Step(spec, lifted[i]));
    }
  }

  /**
   * The radio branch of setPreferenceContentValuesCorrectWrongData: keep a
   * raw value naming an entry and show its title, else fall back to the
   * first entry.
   */
  method CorrectRadioInPlace(p: Preference, raw: string) returns (changed: bool)
    requires p.radio.Valid() && p.radio.IsValid()
    modifies p`contentValue, p`contentValueRaw
    ensures var m := p.radio.radioMap.value;
      var infos := m.Values();
      var found := if raw != "" then FindByKey(infos, raw) else None;
      changed == found.None? &&
      p.contentValue == Some(if found.Some? then found.value.title else infos[0].title) &&
      p.contentValueRaw == (if found.Some? then old(p.contentValueRaw) else Some(infos[0].key))
    ensures p.title == old(p.title) && p.enabled == old(p.enabled)
  {
    var infos := p.radio.radioMap.value.Values();
    if raw != "" {
      var i := 0;
      while i < |infos|
        invariant 0 <= i <= |infos|
        invariant FindByKey(infos, raw) == FindByKey(infos[i..], raw)
      {
        if infos[i].key == raw {
          p.SetContentValue(Some(infos[i].title));
          return false;
        }
        assert infos[i..][1..] == infos[i + 1..];
        i := i + 1;
      }
    }
    var first := infos[0];
    p.SetContentValueRaw(Some(first.key));
    p.SetContentValue(Some(first.title));
    return true;
  }

  /**
   * The seek-bar branch: parse both texts, reset the bar on a failure,
   * write both values back and mute at the minimum.
   */
  method CorrectSeekBarInPlace(p: Preference, content: string, raw: string) returns (changed: bool)
    requires p.seekBar.IsValid()
    modifies p`contentValue, p`contentValueRaw, p.seekBar
    ensures var c := SeekCorrection(old(p.seekBar.State()), content, raw);
      changed == c.changed && p.seekBar.State() == c.seek &&
      p.contentValue == c.content && p.contentValueRaw == c.raw
    ensures p.title == old(p.title) && p.enabled == old(p.enabled)
    ensures p.seekBar.replaceIcon == old(p.seekBar.replaceIcon)
  {
    var correctionEmergence := false;
    var progress := ParseInt(content);
    if progress.Some? {
      p.seekBar.SetProgress(progress.value);
      var progressRaw := ParseInt(raw);
      if progressRaw.Some? {
        p.seekBar.SetProgressRaw(progressRaw.value);
      } else {
        p.seekBar.ResetToDefault();
        correctionEmergence := true;
      }
    } else {
      p.seekBar.ResetToDefault();
      correctionEmergence := true;
    }
    p.SetContentValueRaw(Some(ToDecimal(p.seekBar.progressRaw)));
    p.SetContentValue(Some(ToDecimal(p.seekBar.ProgressValue())));
    if p.seekBar.ProgressValue() == p.seekBar.minValue && p.seekBar.muteUsage {
      p.seekBar.SetMute(true);
    }
    return correctionEmergence;
  }

  /** The top-level list and id map agree with a plan's roots and creations. */
  ghost predicate Mirrors(list: seq<Preference>, m: LinkedMap<int, Preference>,
                          roots: seq<Tree<Bundle>>, finished: seq<Tree<Bundle>>)
  {
    m.Valid() && KeysMatch(m) && Decls(list) == roots && MapMirrors(m, IdIndex(finished, BundleId))
  }

  /**
   * One pass of the parse loop for an event other than a parser error.
   * crashed: create() threw while closing an item; the plan records that
   * item as its last creation.
   */
  method Feed(e: Event<seq<Attribute>>, list: seq<Preference>, m: LinkedMap<int, Preference>,
              cursor: Builder?, stack: seq<Builder>, ghost spec: BuildState<Bundle>)
      returns (list': seq<Preference>, m': LinkedMap<int, Preference>,
               cursor': Builder?, stack': seq<Builder>, crashed: bool)
    requires !e.Malformed? && Tracks(spec, cursor, stack)
    requires Mirrors(list, m, spec.roots, spec.finished) && NoCrash(spec.finished)
    modifies Builders(cursor, stack)
    ensures m'.Valid() && KeysMatch(m')
    ensures forall b :: b in Builders(cursor', stack') ==> b in Builders(cursor, stack) || fresh(b)
    ensures crashed ==> (var s := Step(spec, LiftEvent(e));
      Consistent(s) && |s.finished| > 0 && CrashesOn(s.finished[|s.finished| - 1]))
    ensures !crashed ==> (var s := Step(spec, LiftEvent(e));
      Tracks(s, cursor', stack') && Mirrors(list', m', s.roots, s.finished) && NoCrash(s.finished))
  {
    list', m', cursor', stack', crashed := list, m, cursor, stack, false;
    match e {
    case OtherEvent =>
    case StartTag(el, attrs) =>
      if IsPreferenceElement(el) {
        cursor', stack' := OpenBuilder(attrs, cursor, stack, spec, el);
        BuildersPush(cursor', cursor, stack);
      }
    case EndTag(el) =>
      if IsPreferenceElement(el) && cursor != null {
        if el == ItemElement && !Creatable(cursor.bundle) {
          crashed := true;
          ghost var node := Tree(el, cursor.bundle, Decls(cursor.subPreferences));
          assert Step(spec, LiftEvent(e)).finished == spec.finished + [node];
          return;
        }
        list', m', cursor', stack' := CloseBuilder(el, list, m, cursor, stack, spec);
        BuildersPop(cursor, stack);
      }
    }
  }

  /** A preference start tag: the open builder is pushed and a new one opened. */
  method OpenBuilder(attrs: seq<Attribute>, cursor: Builder?, stack: seq<Builder>,
                     ghost spec: BuildState<Bundle>, ghost el: Element)
      returns (cursor': Builder, stack': seq<Builder>)
    requires IsPreferenceElement(el) && Tracks(spec, cursor, stack)
    ensures fresh(cursor') && stack' == if cursor == null then stack else [cursor] + stack
    ensures Tracks(Step(spec, StartTag(el, BundleOf(attrs))), cursor', stack')
    ensures Step(spec, StartTag(el, BundleOf(attrs))).roots == spec.roots
    ensures Step(spec, StartTag(el, BundleOf(attrs))).finished == spec.finished
  {
    stack' := stack;
    if cursor != null {
      stack' := [cursor] + stack;
    }
    cursor' := ReadStartTag(attrs);
  }

  /**
   * A preference end tag with a builder open: create the item or group,
   * hand it to the enclosing builder (or the top-level list), and file it
   * under its id.
   */
  method CloseBuilder(el: Element, list: seq<Preference>, m: LinkedMap<int, Preference>,
                      cursor: Builder, stack: seq<Builder>, ghost spec: BuildState<Bundle>)
      returns (list': seq<Preference>, m': LinkedMap<int, Preference>, cursor': Builder?, stack': seq<Builder>)
    requires IsPreferenceElement(el) && Tracks(spec, cursor, stack)
    requires Mirrors(list, m, spec.roots, spec.finished) && NoCrash(spec.finished)
    requires el == ItemElement ==> Creatable(cursor.bundle)
    modifies cursor, if |stack| > 0 then {stack[0]} else {}
    ensures cursor' == (if |stack| == 0 then null else stack[0])
    ensures stack' == (if |stack| == 0 then [] else stack[1..])
    ensures var s := Step(spec, EndTag(el));
      Tracks(s, cursor', stack') && Mirrors(list', m', s.roots, s.finished) && NoCrash(s.finished)
  {
    var p := CreateFrom(el, cursor);
    CloseMirrors(list, m, spec, el, p);
    m' := m.Put(p.id, p);
    if |stack| == 0 {
      list' := list + [p];
      cursor' := null;
      stack' := [];
      assert Step(spec, EndTag(el)).cursor.None?;
    } else {
      list' := list;
      cursor', stack' := HandToParent(el, p, stack, spec);
    }
  }

  /** addSubPreference on the builder below: it becomes the cursor again. */
  method HandToParent(el: Element, p: Preference, stack: seq<Builder>, ghost spec: BuildState<Bundle>)
      returns (cursor': Builder, stack': seq<Builder>)
    requires IsPreferenceElement(el) && |stack| > 0 && !spec.halted && spec.cursor.Some?
    requires |stack| == |spec.pending| && forall k :: 0 <= k < |stack| ==> Holds(stack[k], spec.pending[k])
    requires forall k, l :: 0 <= k < l < |stack| ==> stack[k] != stack[l]
    requires p.decl == Tree(el, spec.cursor.value.attrs, spec.cursor.value.children)
    modifies stack[0]
    ensures cursor' == stack[0] && stack' == stack[1..]
    ensures Tracks(Step(spec, EndTag(el)), cursor', stack')
  {
    ghost var s := Step(spec, EndTag(el));
    ghost var parent := spec.pending[0];
    assert s.cursor == Some(parent.(children := parent.children + [p.decl])) && s.pending == spec.pending[1..];
    DeclsAppend(stack[0].subPreferences, p);
    stack[0].AddSubPreference(p);
    cursor' := stack[0];
    stack' := stack[1..];
    assert Holds(cursor', s.cursor.value);
    forall k | 0 <= k < |stack'|
      ensures Holds(stack'[k], s.pending[k])
    {
      assert stack'[k] == stack[k + 1] && s.pending[k] == spec.pending[k + 1];
    }
  }

  /** The created preference joins the top-level list (at top level) and the id map. */
  lemma CloseMirrors(list: seq<Preference>, m: LinkedMap<int, Preference>, spec: BuildState<Bundle>,
                     el: Element, p: Preference)
    requires IsPreferenceElement(el) && !spec.halted && spec.cursor.Some?
    requires Mirrors(list, m, spec.roots, spec.finished) && NoCrash(spec.finished)
    requires p.decl == Tree(el, spec.cursor.value.attrs, spec.cursor.value.children)
    requires p.id == spec.cursor.value.attrs.id
    requires el == ItemElement ==> Creatable(spec.cursor.value.attrs)
    ensures var s := Step(spec, EndTag(el));
      Mirrors(if |spec.pending| == 0 then list + [p] else list, m.Put(p.id, p), s.roots, s.finished) &&
      NoCrash(s.finished)
  {
    var node := p.decl;
    var s := Step(spec, EndTag(el));
    assert s.finished == spec.finished + [node];
    NoCrashAppend(spec.finished, node);
    MirrorsPut(m, spec.finished, p, node);
    if |spec.pending| == 0 {
      DeclsAppend(list, p);
      assert s.roots == spec.roots + [node];
    } else {
      assert s.roots == spec.roots;
    }
  }

  lemma NoCrashAppend(finished: seq<Tree<Bundle>>, node: Tree<Bundle>)
    requires NoCrash(finished) && !CrashesOn(node)
    ensures NoCrash(finished + [node])
  {
  }

  /** create() for an item, createGroup() for a group. */
  method CreateFrom(el: Element, b: Builder) returns (p: Preference)
    requires IsPreferenceElement(el) && (el == ItemElement ==> Creatable(b.bundle))
    modifies b
    ensures fresh(p) && p.id == old(b.bundle).id
    ensures p.decl == Tree(el, old(b.bundle), Decls(old(b.subPreferences)))
  {
    if el == ItemElement {
      p := b.Create();
    } else {
      p := b.CreateGroup();
    }
  }

  lemma DeclsAppend(ps: seq<Preference>, p: Preference)
    ensures Decls(ps + [p]) == Decls(ps) + [p.decl]
  {
  }

  /** Filing the new preference under its id keeps the map in step with the plan. */
  lemma MirrorsPut(m: LinkedMap<int, Preference>, finished: seq<Tree<Bundle>>, p: Preference, node: Tree<Bundle>)
    requires m.Valid() && KeysMatch(m) && MapMirrors(m, IdIndex(finished, BundleId))
    requires p.decl == node && p.id == node.attrs.id
    ensures m.Put(p.id, p).Valid() && KeysMatch(m.Put(p.id, p))
    ensures MapMirrors(m.Put(p.id, p), IdIndex(finished + [node], BundleId))
  {
    IdIndexSnoc(finished, BundleId, node);
    KeysMatchPut(m, p);
    MapMirrorsPut(m, IdIndex(finished, BundleId), p, node);
  }

  lemma KeysMatchPut(m: LinkedMap<int, Preference>, p: Preference)
    requires KeysMatch(m)
    ensures KeysMatch(m.Put(p.id, p))
  {
  }

  lemma MapMirrorsPut(m: LinkedMap<int, Preference>, idx: LinkedMap<int, Tree<Bundle>>, p: Preference, node: Tree<Bundle>)
    requires m.Valid() && idx.Valid() && MapMirrors(m, idx) && p.decl == node
    ensures MapMirrors(m.Put(p.id, p), idx.Put(p.id, node))
  {
    var m' := m.Put(p.id, p);
    var idx' := idx.Put(p.id, node);
    assert p.id in m.entries <==> p.id in idx.entries;
    forall k
      ensures k in m'.entries <==> k in idx'.entries
    {
      assert k in m'.entries <==> k == p.id || k in m.entries;
      assert k in idx'.entries <==> k == p.id || k in idx.entries;
    }
    forall k | k in m'.entries
      ensures m'.entries[k].decl == idx'.entries[k]
    {
      if k != p.id {
        assert m'.entries[k] == m.entries[k] && idx'.entries[k] == idx.entries[k];
      }
    }
  }

  /** The open builders: the cursor and the builder queue. */
  ghost function Builders(cursor: Builder?, stack: seq<Builder>): set<Builder>
  {
    (if cursor == null then {} else {cursor}) + set k | 0 <= k < |stack| :: stack[k]
  }

  lemma BuildersPush(b: Builder, cursor: Builder?, stack: seq<Builder>)
    ensures Builders(b, if cursor == null then stack else [cursor] + stack) == {b} + Builders(cursor, stack)
  {
    if cursor != null {
      var stack' := [cursor] + stack;
      forall x | x in Builders(cursor, stack) ensures x in Builders(b, stack') {
        if x == cursor {
          assert stack'[0] == x;
        } else {
          var k :| 0 <= k < |stack| && stack[k] == x;
          assert stack'[k + 1] == x;
        }
      }
    }
  }

  lemma BuildersPop(cursor: Builder?, stack: seq<Builder>)
    ensures Builders(if |stack| == 0 then null else stack[0], if |stack| == 0 then [] else stack[1..])
      <= Builders(cursor, stack)
  {
    if |stack| > 0 {
      forall x | x in Builders(stack[0], stack[1..]) ensures x in Builders(cursor, stack) {
        if x != stack[0] {
          var k :| 0 <= k < |stack[1..]| && stack[1..][k] == x;
          assert stack[k + 1] == x;
        }
      }
    }
  }

  /** The open builders agree with the plan's cursor and pending frames. */
  ghost predicate Tracks(spec: BuildState<Bundle>, cursor: Builder?, stack: seq<Builder>)
    reads Builders(cursor, stack)
  {
    !spec.halted && Consistent(spec) &&
    ((cursor == null) <==> spec.cursor.None?) &&
    (cursor != null ==> Holds(cursor, spec.cursor.value)) &&
    |stack| == |spec.pending| &&
    (forall k :: 0 <= k < |stack| ==> Holds(stack[k], spec.pending[k])) &&
    (forall k :: 0 <= k < |stack| ==> stack[k] != cursor) &&
    (forall k, l :: 0 <= k < l < |stack| ==> stack[k] != stack[l])
  }

  /** A builder closed before the end of the document stays among the plan's creations. */
  lemma CrashRecorded(lifted: seq<Event<Bundle>>, n: nat, s: BuildState<Bundle>)
    requires n <= |lifted| && s == Run(Initial(), lifted[..n]) && Consistent(s)
    requires |s.finished| > 0 && CrashesOn(s.finished[|s.finished| - 1])
    ensures !NoCrash(Build(lifted).finished)
  {
    RunAppend(Initial(), lifted[..n], lifted[n..]);
    assert lifted[..n] + lifted[n..] == lifted;
    RunMonotone(s, lifted[n..]);
    assert s.finished[|s.finished| - 1] in Build(lifted).finished;
  }
}
