# UngSeongLibraries preferences and log center, in Dafny

This project models the core of two Android libraries of UngSeongLibraries
and proves properties of the model.

- **Preference.** Settings screens are declared in an XML resource of
  `item` and `group` tags. `PreferenceManager` reads the resource through a
  stack of `Preference.Builder`s into a tree of `Preference` objects and an
  id map. It saves each preference's switch state, content value and raw
  content value to SharedPreferences under `<accessName>_switchValue`,
  `_contentValue` and `_contentValueRaw`. On load it reads them back and
  repairs stored data that does not fit the preference: a radio value that
  names no entry, or a seek-bar value that is not an int.
  `PreferenceRadioGroup` keeps the radio buttons of a list exclusive.
  Both versions are modelled:
  - the newer package `com.ungseong.preference`: modules `UngPreference`,
    `UngPreferenceManager` and `UngPreferenceRadioGroup`;
  - the older package `com.longseong.preference`: modules `LongPreference`,
    `LongPreferenceManager` and `LongPreferenceRadioGroup`.
- **LogCenter** (module `LogCenter`). Each posted log goes into its own file
  `time.log`, `time_1.log`, … in a log folder. The folder is pruned to 99
  files, keeping the greatest names, once it holds 100. `getLogSet` reads
  the files back in name order.
- **Utils** (module `LogUtils`). This is the date-pattern builder
  `formatFlags`, the pattern table behind `dateFormatSelector`, and
  `formatPhoneNumber`.

Shared modules:
- `JavaBase`: Java `int`/`long` ranges, `Integer.parseInt`,
  `Long.parseLong`, `toString`, `/` rounding toward zero, a `LinkedHashMap`
  with its insertion order, and the `String.compareTo` order.
- `PreferenceXml`: the builder loop of `parseXmlPreference`, written once
  for any attribute type, as a fold over parser events. Its round-trip
  lemma says that the loop rebuilds exactly the tree a well-nested document
  describes.
- `PreferenceStore`: the SharedPreferences keys and typed reads.
- `RadioViews`: the radio-button repaint that both radio groups share.

State that the Java code updates in place is modelled as Dafny classes:
preferences and their Switch, Input/Text, Radio, SeekBar, Intent and Event
parts, builders, the manager, the radio groups and the log center. Their
methods carry `modifies` clauses and state the new state. Everything that
only computes a value is a function, and the properties are lemmas about
those functions.

The Android surroundings are parameters:
- a resource is its sequence of parser events;
- SharedPreferences is a `map` from key to a boolean or string value;
- the log folder is a map from file name to content;
- the clock readings (`time`, `stamp`), `is24HourFormat` and "a context
  was given" are arguments.

Behaviour of the code worth knowing:
- The older `loadPreference` saves the raw value again when it EQUALS the
  value just loaded (`PreferenceManager.java` line 440 of the older package
  tests `equals`, not `!equals`). So the raw value is written on every load.
- The older seek-bar check mutes at a reported value of 0, not at the
  minimum.
- An older radio title that matches is returned before the seek-bar check
  runs.
- The older `PreferenceRadioGroup.check` with `CHECKED_NULL`, or without a
  root view, ends in a `NullPointerException` inside `setChecked`. This is
  the `Failed` outcome.
- The older `SeekBar`'s icon flag is never set to true. The seven-argument
  constructor assigns false in one branch, and the field otherwise keeps its
  initial false.
- In the newer library, a non-empty seek-bar default that is not an int
  makes `create()` throw `NumberFormatException` out of the manager. This is
  the `crashed` result of `ParseXmlPreference`. It is not replaced by the
  midpoint, which is only used for an empty default.

## Model

Source paths are relative to the repository root.

| member | source | states |
|---|---|---|
| JavaBase.Wrap32 | Preference/src/main/java/com/ungseong/preference/Preference.java:543 | the result is a Java int congruent to the argument modulo 2^32, and equals it when it already fits |
| JavaBase.DivTrunc | Preference/src/main/java/com/ungseong/preference/Preference.java:543 | Java `/` by a positive divisor: the remainder has the sign of the dividend and is smaller than the divisor |
| JavaBase.Clamp | Preference/src/main/java/com/ungseong/preference/Preference.java:570-578 | the result is the value, min or max; it lies in [min, max] when min <= max, and equals the value when the value is in range |
| JavaBase.ToDecimal | Preference/src/main/java/com/ungseong/preference/PreferenceManager.java:519-520 | `n + ""` is never empty and starts with '-' exactly for negative n |
| JavaBase.DigitsRoundTrip | Preference/src/main/java/com/ungseong/preference/PreferenceManager.java:512-520 | reading back the digits printed for a natural number gives the number |
| JavaBase.ParseDecimal | Preference/src/main/java/com/ungseong/preference/PreferenceManager.java:512-518 | a parsed value lies within the given bounds; the empty string never parses |
| JavaBase.ParseInt | Preference/src/main/java/com/ungseong/preference/PreferenceManager.java:512-518 | `Integer.parseInt` yields a Java int or throws (None) |
| JavaBase.ParseLong | LogCenter/src/main/java/com/longseong/logcenter/LogCenter.java:118 | `Long.parseLong` yields a Java long or throws (None) |
| JavaBase.ParseToDecimal | Preference/src/main/java/com/ungseong/preference/PreferenceManager.java:512-520 | parsing what toString printed gives the number back, for any number within the bounds |
| JavaBase.ParseIntToDecimal | Preference/src/main/java/com/ungseong/preference/PreferenceManager.java:512-520 | `Integer.parseInt(n + "")` == n for every Java int |
| JavaBase.ParseLongToDecimal | LogCenter/src/main/java/com/longseong/logcenter/LogCenter.java:118 | `Long.parseLong` reads back every Java long that line 77 printed |
| JavaBase.ToDecimalInjective | LogCenter/src/main/java/com/longseong/logcenter/LogCenter.java:68-72 | distinct numbers print differently |
| JavaBase.ToDecimalChars | LogCenter/src/main/java/com/longseong/logcenter/LogCenter.java:68-72 | a printed number holds only digits and a leading '-' |
| JavaBase.LinkedMap.Values | Preference/src/main/java/com/ungseong/preference/PreferenceManager.java:493-499 | the entry set's values are listed in insertion order |
| JavaBase.LinkedMap.Put | Preference/src/main/java/com/ungseong/preference/Preference.java:456 | `put` replaces the value; a new key goes to the end of the order, an existing key keeps its place; well-formedness is kept |
| JavaBase.EmptyLinkedMap | Preference/src/main/java/com/ungseong/preference/Preference.java:421 | a new map is well formed and empty |
| JavaBase.StrLessIrreflexive | LogCenter/src/main/java/com/longseong/logcenter/LogCenter.java:51 | the `compareTo` order used by `Arrays.sort` is irreflexive |
| JavaBase.StrLessTransitive | LogCenter/src/main/java/com/longseong/logcenter/LogCenter.java:51 | the order is transitive |
| JavaBase.StrLessTotal | LogCenter/src/main/java/com/longseong/logcenter/LogCenter.java:51 | any two distinct names are ordered one way or the other |
| JavaBase.StrLessAsymmetric | LogCenter/src/main/java/com/longseong/logcenter/LogCenter.java:51 | the order is asymmetric |
| PreferenceXml.Step | Preference/src/main/java/com/ungseong/preference/PreferenceManager.java:212-401 | one parser event keeps "cursor null only with an empty builder queue", and the top-level list and the created preferences only grow |
| PreferenceXml.RunAppend | Preference/src/main/java/com/ungseong/preference/PreferenceManager.java:212 | feeding two runs of events is feeding them one after the other |
| PreferenceXml.RunMonotone | Preference/src/main/java/com/ungseong/preference/PreferenceManager.java:212-401 | over any event stream the queue invariant holds and the list and creations only grow |
| PreferenceXml.HaltedStays | Preference/src/main/java/com/ungseong/preference/PreferenceManager.java:157-163 | once the parser has raised, the rest of the document changes nothing: the constructor keeps what was built |
| PreferenceXml.AttachForestShape | Preference/src/main/java/com/ungseong/preference/PreferenceManager.java:378-399 | attaching finished preferences leaves the builder queue and cursor presence alone |
| PreferenceXml.RunBracket | Preference/src/main/java/com/ungseong/preference/PreferenceManager.java:230-399 | a start tag, a body and an end tag are fed in that order |
| PreferenceXml.CloseTree | Preference/src/main/java/com/ungseong/preference/PreferenceManager.java:378-399 | closing a builder whose children are attached yields the attached preference |
| PreferenceXml.TreeRun | Preference/src/main/java/com/ungseong/preference/PreferenceManager.java:230-399 | the events of one well-nested preference open, fill and close exactly one builder |
| PreferenceXml.ForestRun | Preference/src/main/java/com/ungseong/preference/PreferenceManager.java:212-401 | sibling preferences are attached one after another |
| PreferenceXml.ForestChildren | Preference/src/main/java/com/ungseong/preference/PreferenceManager.java:393-396 | inside an open builder, siblings become its sub-preferences in document order |
| PreferenceXml.ForestRoots | Preference/src/main/java/com/ungseong/preference/PreferenceManager.java:389-392 | at top level, siblings become the preference list in document order |
| PreferenceXml.BuildRoundTrip | Preference/src/main/java/com/ungseong/preference/PreferenceManager.java:205-402 | round trip: parsing the events of a well-nested forest gives back exactly that forest, with preferences created children first |
| PreferenceXml.IdIndex | Preference/src/main/java/com/ungseong/preference/PreferenceManager.java:398 | the id map built by successive puts is a well-formed LinkedHashMap |
| PreferenceXml.IdIndexSnoc | Preference/src/main/java/com/ungseong/preference/PreferenceManager.java:398 | one more created preference is put under its id |
| PreferenceXml.IdIndexCovers | Preference/src/main/java/com/ungseong/preference/PreferenceManager.java:398 | every created preference's id is a key of the map |
| PreferenceXml.IdIndexLastWins | Preference/src/main/java/com/ungseong/preference/PreferenceManager.java:398 | each id maps to the last created preference with that id: a repeated id overwrites |
| PreferenceStore.KeysDistinct | Preference/src/main/java/com/longseong/preference/PreferenceManager.java:61-63 | the switch, content and raw keys never collide across kinds, and within a kind distinct access names give distinct keys |
| RadioViews.SetViewState | Preference/src/main/java/com/ungseong/preference/PreferenceRadioGroup.java:53-60 | without a root view nothing changes; otherwise only child k changes, and only when it is a RadioButton |
| RadioViews.Repaint | Preference/src/main/java/com/ungseong/preference/PreferenceRadioGroup.java:25-41 | unchecking the previous view and checking the new one keeps the number of views |
| RadioViews.RepaintExclusive | Preference/src/main/java/com/ungseong/preference/PreferenceRadioGroup.java:25-41 | if at most the previous selection was checked, afterwards at most the new selection is, and it is checked when it is a RadioButton |
| RadioViews.RepaintWithoutRoot | Preference/src/main/java/com/ungseong/preference/PreferenceRadioGroup.java:53-54 | without a root view a repaint changes nothing |
| UngPreference.Type.GetValue | Preference/src/main/java/com/ungseong/preference/Preference.java:289-291 | every type's number is in 0..4 |
| UngPreference.ValueOf | Preference/src/main/java/com/ungseong/preference/Preference.java:267-281 | numbers 0..4 give the type with that number; any other number gives EXPLAIN |
| UngPreference.ValueOfGetValue | Preference/src/main/java/com/ungseong/preference/Preference.java:267-291 | every type survives the trip through its number |
| UngPreference.ParseXmlMap | Preference/src/main/java/com/ungseong/preference/Preference.java:420-467 | the parsing loop returns exactly the map the event fold describes |
| UngPreference.RadioFailedStays | Preference/src/main/java/com/ungseong/preference/Preference.java:431-467 | once parsing has thrown, no later event revives it |
| UngPreference.RadioRunShape | Preference/src/main/java/com/ungseong/preference/Preference.java:428-463 | the map is a well-formed LinkedHashMap and the running index counts the accepted entries |
| UngPreference.RadioMapFailure | Preference/src/main/java/com/ungseong/preference/Preference.java:436-466 | parsing fails exactly when some event is a parser error or an entry with an empty key |
| UngPreference.RadioMapCovers | Preference/src/main/java/com/ungseong/preference/Preference.java:456 | without a failure, every accepted entry's key is in the map |
| UngPreference.LastEntryKept | Preference/src/main/java/com/ungseong/preference/Preference.java:456 | an entry stays the last one with its key when the next event does not put that key |
| UngPreference.RadioMapLastWins | Preference/src/main/java/com/ungseong/preference/Preference.java:430-457 | each key holds the key, title and description of the last entry with that key (a null description reads as ""), and as its index the number of entries accepted before that last one; a repeated key keeps its first position in the map but takes the later index |
| UngPreference.DefaultBundle | Preference/src/main/java/com/ungseong/preference/Preference.java:803-819 | the Builder constructor's defaults: no id, EXPLAIN, enabled, text input, empty texts, no switch and a false switch default, no radio, a seek bar over [0, 0] with neither icon replacement nor mute |
| UngPreference.SeekBarDefault | Preference/src/main/java/com/ungseong/preference/Preference.java:543-549 | a non-empty default is `Integer.parseInt`'s result; an empty one is the midpoint, which lies within [min, max] when max + min fits an int |
| UngPreference.Switch.SetChecked | Preference/src/main/java/com/ungseong/preference/Preference.java:343-345 | the switch holds the given state |
| UngPreference.Switch.Toggle | Preference/src/main/java/com/ungseong/preference/Preference.java:347-349 | the switch state flips |
| UngPreference.Switch.constructor | Preference/src/main/java/com/ungseong/preference/Preference.java:330-337 | a new switch is unchecked and keeps its enabled flag and default |
| UngPreference.Input.constructor | Preference/src/main/java/com/ungseong/preference/Preference.java:366-370 | a disabled input never records its input type |
| UngPreference.Input.SetDialog | Preference/src/main/java/com/ungseong/preference/Preference.java:377-379 | only the dialog changes |
| UngPreference.Input.SetInputType | Preference/src/main/java/com/ungseong/preference/Preference.java:385-387 | only the input type changes |
| UngPreference.Radio.SetRadioMap | Preference/src/main/java/com/ungseong/preference/Preference.java:416-418 | the radio holds the given map |
| UngPreference.Radio.constructor | Preference/src/main/java/com/ungseong/preference/Preference.java:401-405 | a disabled radio never records its map |
| UngPreference.ProgressValueInRange | Preference/src/main/java/com/ungseong/preference/Preference.java:570-586 | after setProgress a valid bar reports a value within [min, max], the value itself when in range and not muted |
| UngPreference.ResetForgetsProgress | Preference/src/main/java/com/ungseong/preference/Preference.java:565-568 | resetToDefault forgets any earlier progress, and sets raw value and progress to the default |
| UngPreference.SeekBar.constructor | Preference/src/main/java/com/ungseong/preference/Preference.java:539-554 | a disabled bar keeps everything at zero; an enabled one takes the parsed default, its bounds and flags |
| UngPreference.SeekBar.SetProgress | Preference/src/main/java/com/ungseong/preference/Preference.java:570-578 | the raw value is kept and the progress clamped; nothing else changes |
| UngPreference.SeekBar.SetProgressRaw | Preference/src/main/java/com/ungseong/preference/Preference.java:588-590 | only the raw value changes |
| UngPreference.SeekBar.ResetToDefault | Preference/src/main/java/com/ungseong/preference/Preference.java:565-568 | the bar's state is the reset state |
| UngPreference.SeekBar.SetDefaultValue | Preference/src/main/java/com/ungseong/preference/Preference.java:600-602 | only the default changes |
| UngPreference.SeekBar.SetMaxValue | Preference/src/main/java/com/ungseong/preference/Preference.java:608-610 | only the maximum changes |
| UngPreference.SeekBar.SetMinValue | Preference/src/main/java/com/ungseong/preference/Preference.java:616-618 | only the minimum changes |
| UngPreference.SeekBar.SetReplaceIcon | Preference/src/main/java/com/ungseong/preference/Preference.java:628-630 | only the icon replacement flag changes |
| UngPreference.SeekBar.SetMute | Preference/src/main/java/com/ungseong/preference/Preference.java:640-642 | only the mute flag changes |
| UngPreference.SeekBar.ToggleMute | Preference/src/main/java/com/ungseong/preference/Preference.java:644-646 | the mute flag flips; nothing else changes |
| UngPreference.Intent.constructor | Preference/src/main/java/com/ungseong/preference/Preference.java:692-701 | the icon is used exactly when the intent is enabled with an icon |
| UngPreference.Preference.constructor | Preference/src/main/java/com/ungseong/preference/Preference.java:74-136 | BuiltFrom: the preference takes the bundle's fields with no content value yet; the switch is enabled only for a type that allows one; input, seek bar and intent follow the type; the radio holds the parsed map exactly when parsing succeeds |
| UngPreference.Preference.SetContentValue | Preference/src/main/java/com/ungseong/preference/Preference.java:185-190 | null stores the default value; nothing else changes |
| UngPreference.Preference.SetContentValueRaw | Preference/src/main/java/com/ungseong/preference/Preference.java:199-204 | null stores the default value; nothing else changes |
| UngPreference.Preference.SetTitle | Preference/src/main/java/com/ungseong/preference/Preference.java:158-160 | only the title changes |
| UngPreference.Preference.SetContent | Preference/src/main/java/com/ungseong/preference/Preference.java:166-168 | only the description changes |
| UngPreference.Preference.SetDetailedContent | Preference/src/main/java/com/ungseong/preference/Preference.java:174-176 | only the detailed description changes |
| UngPreference.Preference.SetEnabled | Preference/src/main/java/com/ungseong/preference/Preference.java:210-212 | only the enabled flag changes |
| UngPreference.Preference.SetSubPreferencesEnabled | Preference/src/main/java/com/ungseong/preference/Preference.java:242-246 | every direct child takes the flag, and only the children's enabled flags change |
| UngPreference.InitCapabilities | Preference/src/main/java/com/ungseong/preference/Preference.java:95-136 | CapabilitiesFrom: the switch is enabled only for a type that allows one; input, seek bar and intent follow the type; a seek bar starts at the parsed default with the bundle's bounds and flags; the radio holds the parsed map exactly when parsing succeeds |
| UngPreference.InitRadio | Preference/src/main/java/com/ungseong/preference/Preference.java:109-121 | a resource other than ID_NULL is parsed; the radio is enabled with the map exactly when parsing succeeds |
| UngPreference.Builder.constructor | Preference/src/main/java/com/ungseong/preference/Preference.java:803-819 | a new builder holds the default bundle and no children |
| UngPreference.Builder.SetId | Preference/src/main/java/com/ungseong/preference/Preference.java:821-824 | only the id changes |
| UngPreference.Builder.SetAccessName | Preference/src/main/java/com/ungseong/preference/Preference.java:826-836 | only the access name changes |
| UngPreference.Builder.SetType | Preference/src/main/java/com/ungseong/preference/Preference.java:838-841 | the stored number reads back as the type |
| UngPreference.Builder.SetIconRes | Preference/src/main/java/com/ungseong/preference/Preference.java:843-846 | only the icon changes |
| UngPreference.Builder.SetTitle | Preference/src/main/java/com/ungseong/preference/Preference.java:848-851 | only the title changes |
| UngPreference.Builder.SetDefaultValue | Preference/src/main/java/com/ungseong/preference/Preference.java:853-856 | only the default value changes |
| UngPreference.Builder.SetDescription | Preference/src/main/java/com/ungseong/preference/Preference.java:858-861 | only the description changes |
| UngPreference.Builder.SetDetailedDescription | Preference/src/main/java/com/ungseong/preference/Preference.java:863-866 | only the detailed description changes |
| UngPreference.Builder.SetEnabled | Preference/src/main/java/com/ungseong/preference/Preference.java:868-871 | only the enabled flag changes |
| UngPreference.Builder.SetInputType | Preference/src/main/java/com/ungseong/preference/Preference.java:873-876 | only the input type changes |
| UngPreference.Builder.AddSubPreference | Preference/src/main/java/com/ungseong/preference/Preference.java:878-881 | the child is appended |
| UngPreference.Builder.SetSwitchDefaultValue | Preference/src/main/java/com/ungseong/preference/Preference.java:883-886 | only the switch default changes |
| UngPreference.Builder.SetSwitch | Preference/src/main/java/com/ungseong/preference/Preference.java:888-891 | only the switch flag changes |
| UngPreference.Builder.SetRadio | Preference/src/main/java/com/ungseong/preference/Preference.java:893-896 | only the radio resource changes |
| UngPreference.Builder.SetSeekBar | Preference/src/main/java/com/ungseong/preference/Preference.java:898-904 | only the seek-bar settings change |
| UngPreference.Builder.Create | Preference/src/main/java/com/ungseong/preference/Preference.java:907-912 | a fresh item whose every field and capability is what the constructor makes of the builder's bundle (BuiltFrom), with the builder's children |
| UngPreference.Builder.CreateGroup | Preference/src/main/java/com/ungseong/preference/Preference.java:915-921 | the bundle's type is first set to EXPLAIN, then the group is built from that bundle (BuiltFrom), so it has no seek bar, intent or input |
| UngPreferenceManager.BundleOfNoAttributes | Preference/src/main/java/com/ungseong/preference/PreferenceManager.java:234-376 | a start tag without attributes gives the builder defaults with a seek bar over [0, 100], icon replaced, no mute |
| UngPreferenceManager.SeekBarDefaultsKept | Preference/src/main/java/com/ungseong/preference/PreferenceManager.java:237-376 | for any attribute list, a seek-bar setting no attribute sets keeps its default: max 100, min 0, icon replaced, no mute |
| UngPreferenceManager.SeekBarLastWins | Preference/src/main/java/com/ungseong/preference/PreferenceManager.java:237-376 | for any attribute list, a seek-bar setting that attributes set takes the value of the last of them |
| UngPreferenceManager.ReadAttributeInto | Preference/src/main/java/com/ungseong/preference/PreferenceManager.java:247-373 | one pass of the attribute switch does to the builder what the attribute fold says |
| UngPreferenceManager.SetTextAttribute | Preference/src/main/java/com/ungseong/preference/PreferenceManager.java:251-308 | id and text attributes go to the builder as the fold says |
| UngPreferenceManager.SetOptionAttribute | Preference/src/main/java/com/ungseong/preference/PreferenceManager.java:263-340 | type, icon, flags, input type and radio resource go to the builder as the fold says |
| UngPreferenceManager.ReadStartTag | Preference/src/main/java/com/ungseong/preference/PreferenceManager.java:230-376 | the start tag's builder holds exactly the bundle the attributes describe |
| UngPreferenceManager.Lift | Preference/src/main/java/com/ungseong/preference/PreferenceManager.java:212-401 | each event is turned into its builder-level event, position by position |
| UngPreferenceManager.SaveLoadRoundTrip | Preference/src/main/java/com/ungseong/preference/PreferenceManager.java:412-464 | what savePreference writes reads back unchanged; an invalid switch keeps what was stored; no other key changes |
| UngPreferenceManager.FindByKey | Preference/src/main/java/com/ungseong/preference/PreferenceManager.java:492-499 | finds the first entry in map order with the key, or reports that none has it |
| UngPreferenceManager.FindInValues | Preference/src/main/java/com/ungseong/preference/PreferenceManager.java:492-499 | the search finds something exactly when some entry of the map has the key |
| UngPreferenceManager.FoundFirst | Preference/src/main/java/com/ungseong/preference/PreferenceManager.java:492-499 | what the search finds is the first entry in map order with that key |
| UngPreferenceManager.CorrectRadio | Preference/src/main/java/com/ungseong/preference/PreferenceManager.java:490-506 | a raw value naming an entry is kept and its title shown, with no correction; anything else falls back to the first entry and reports a correction |
| UngPreferenceManager.CorrectSeekBar | Preference/src/main/java/com/ungseong/preference/PreferenceManager.java:508-525 | a correction is reported exactly when a text does not parse; the progress is the clamped content (or the default), and the written content lies within [min, max] |
| UngPreferenceManager.CorrectSeekBarMute | Preference/src/main/java/com/ungseong/preference/PreferenceManager.java:522-524 | afterwards the bar is muted exactly when it was, or when mute is used and the reported value is the minimum |
| UngPreferenceManager.CorrectNothing | Preference/src/main/java/com/ungseong/preference/PreferenceManager.java:528-529 | a preference with no valid radio or seek bar is left alone |
| UngPreferenceManager.SeekCorrectionStable | Preference/src/main/java/com/ungseong/preference/PreferenceManager.java:508-525 | repairing is idempotent: correcting again from the texts just written reports nothing and writes the same texts |
| UngPreferenceManager.RadioCorrectionStable | Preference/src/main/java/com/ungseong/preference/PreferenceManager.java:490-506 | repairing a radio is idempotent when the first entry's key is not empty |
| UngPreferenceManager.ValidRadioMap | Preference/src/main/java/com/ungseong/preference/PreferenceManager.java:490 | a map is seen exactly when the radio is valid, and it is non-empty and well formed |
| UngPreferenceManager.PreferenceManager.constructor | Preference/src/main/java/com/ungseong/preference/PreferenceManager.java:152-166 | empty list and map, the given store, and a null optimizer replaced by the identity |
| UngPreferenceManager.PreferenceManager.SetSaveOptimizer | Preference/src/main/java/com/ungseong/preference/PreferenceManager.java:134-140 | null installs the identity optimizer |
| UngPreferenceManager.PreferenceManager.GetPreferenceById | Preference/src/main/java/com/ungseong/preference/PreferenceManager.java:168-170 | found exactly when the id is a key, and then it is the preference with that id |
| UngPreferenceManager.PreferenceManager.SavePreference | Preference/src/main/java/com/ungseong/preference/PreferenceManager.java:412-428 | the optimizer's pick is written (its switch only when valid); with the identity optimizer each value loads back as written |
| UngPreferenceManager.PreferenceManager.SavePreferenceSwitchValue | Preference/src/main/java/com/ungseong/preference/PreferenceManager.java:430-440 | only the switch key is written, only for a valid switch, and it loads back |
| UngPreferenceManager.PreferenceManager.SavePreferenceContentValue | Preference/src/main/java/com/ungseong/preference/PreferenceManager.java:442-452 | only the content key is written, and it loads back |
| UngPreferenceManager.PreferenceManager.SavePreferenceContentValueRaw | Preference/src/main/java/com/ungseong/preference/PreferenceManager.java:454-464 | only the raw key is written, and it loads back |
| UngPreferenceManager.PreferenceManager.LoadPreferenceSwitchValue | Preference/src/main/java/com/ungseong/preference/PreferenceManager.java:532-538 | the stored state, else the switch default |
| UngPreferenceManager.PreferenceManager.LoadPreferenceContentValue | Preference/src/main/java/com/ungseong/preference/PreferenceManager.java:540-546 | the stored content, else the default value |
| UngPreferenceManager.PreferenceManager.LoadPreferenceContentValueRaw | Preference/src/main/java/com/ungseong/preference/PreferenceManager.java:548-554 | the stored raw value, else the default value |
| UngPreferenceManager.PreferenceManager.LoadPreference | Preference/src/main/java/com/ungseong/preference/PreferenceManager.java:474-486 | the switch takes the stored state; the values are repaired as the correction says; the store changes only when a correction was reported, and then gets the repaired values; of the preference only the content and raw values change, and the seek bar keeps its icon flag |
| UngPreferenceManager.PreferenceManager.SetPreferenceContentValuesCorrectWrongData | Preference/src/main/java/com/ungseong/preference/PreferenceManager.java:488-530 | the preference and seek bar end as the correction function says, and the result reports whether a correction was needed; of the preference only the content and raw values change, and the seek bar keeps its icon flag |
| UngPreferenceManager.PreferenceManager.ParseXmlPreference | Preference/src/main/java/com/ungseong/preference/PreferenceManager.java:205-402 | crashes exactly when some created bundle's seek-bar default does not parse; otherwise the list and id map are exactly the plan's roots and id index |
| UngPreferenceManager.Advance | Preference/src/main/java/com/ungseong/preference/PreferenceManager.java:212-401 | one loop turn keeps the builders and the list and map in step with the event fold, or ends the build as the fold does |
| UngPreferenceManager.CorrectRadioInPlace | Preference/src/main/java/com/ungseong/preference/PreferenceManager.java:490-506 | the first entry with the raw key is shown, else the first entry is written; a correction is reported exactly when none matched; only the content and raw values change |
| UngPreferenceManager.CorrectSeekBarInPlace | Preference/src/main/java/com/ungseong/preference/PreferenceManager.java:508-525 | the bar and the preference end as the seek-bar correction says; of the preference only the content and raw values change, and the bar keeps its icon flag |
| UngPreferenceManager.Feed | Preference/src/main/java/com/ungseong/preference/PreferenceManager.java:212-401 | one event other than a parser error moves the builders, list and map as the fold's step does, or reports the crash |
| UngPreferenceManager.OpenBuilder | Preference/src/main/java/com/ungseong/preference/PreferenceManager.java:241-244 | the open builder is pushed and a fresh one opened |
| UngPreferenceManager.CloseBuilder | Preference/src/main/java/com/ungseong/preference/PreferenceManager.java:378-399 | the item or group is created, handed to its parent or the top-level list, and put into the id map |
| UngPreferenceManager.HandToParent | Preference/src/main/java/com/ungseong/preference/PreferenceManager.java:393-396 | the parent builder gets the child and becomes the cursor again |
| UngPreferenceManager.CloseMirrors | Preference/src/main/java/com/ungseong/preference/PreferenceManager.java:389-398 | the created preference joins the top-level list (at top level) and the id map, as the fold says |
| UngPreferenceManager.CreateFrom | Preference/src/main/java/com/ungseong/preference/PreferenceManager.java:383-387 | create() for an item and createGroup() for a group, keeping the builder's id |
| PreferenceXml.MalformedEnds | Preference/src/main/java/com/ungseong/preference/PreferenceManager.java:157-163 | after a parser error the rest of the document is ignored |
| UngPreferenceManager.CrashRecorded | Preference/src/main/java/com/ungseong/preference/PreferenceManager.java:383-387 | a create() that throws leaves the build crashed whatever follows |
| UngPreferenceManager.NoCrashAppend | Preference/src/main/java/com/ungseong/preference/PreferenceManager.java:383-387 | a created preference whose default parses does not make the build crash |
| UngPreferenceRadioGroup.PreferenceRadioGroup.constructor | Preference/src/main/java/com/ungseong/preference/PreferenceRadioGroup.java:16-19 | no entry is selected at first |
| UngPreferenceRadioGroup.PreferenceRadioGroup.Check | Preference/src/main/java/com/ungseong/preference/PreferenceRadioGroup.java:25-41 | re-selecting the current entry is refused; anything else repaints and moves the selection; at most the selected button stays checked |
| UngPreferenceRadioGroup.PreferenceRadioGroup.CheckInfo | Preference/src/main/java/com/ungseong/preference/PreferenceRadioGroup.java:21-23 | checking an entry is checking its index |
| UngPreferenceRadioGroup.PreferenceRadioGroup.SetIndexOnly | Preference/src/main/java/com/ungseong/preference/PreferenceRadioGroup.java:47-51 | the index is recorded unless it is CHECKED_NULL; no view changes |
| UngPreferenceRadioGroup.PreferenceRadioGroup.SetCheckedStateForView | Preference/src/main/java/com/ungseong/preference/PreferenceRadioGroup.java:53-60 | the views change as the shared view update says |
| LongPreference.Type.GetValue | Preference/src/main/java/com/longseong/preference/Preference.java:264-266 | every type's number is in 0..5 |
| LongPreference.ValueOf | Preference/src/main/java/com/longseong/preference/Preference.java:240-256 | numbers 0..5 give the type with that number; any other number gives EXPLAIN |
| LongPreference.ValueOfGetValue | Preference/src/main/java/com/longseong/preference/Preference.java:240-266 | every type survives the trip through its number, and numbers name distinct types |
| LongPreference.ParseXmlMap | Preference/src/main/java/com/longseong/preference/Preference.java:388-436 | the parsing loop returns exactly the map the event fold describes |
| LongPreference.RadioEndedStays | Preference/src/main/java/com/longseong/preference/Preference.java:428-433 | once the parse has ended, later events change nothing |
| LongPreference.CleanRuns | Preference/src/main/java/com/longseong/preference/Preference.java:399-426 | without errors the parse runs to the end |
| LongPreference.FirstErrorDecides | Preference/src/main/java/com/longseong/preference/Preference.java:428-433 | a parser error returns the map built before it; a NullPointerException returns null |
| LongPreference.RadioRunShape | Preference/src/main/java/com/longseong/preference/Preference.java:421 | the map is a well-formed LinkedHashMap |
| LongPreference.LastEntryKept | Preference/src/main/java/com/longseong/preference/Preference.java:421 | an entry stays the last one with its key when the next event does not put that key |
| LongPreference.RadioMapKeys | Preference/src/main/java/com/longseong/preference/Preference.java:399-426 | without errors the map's keys are exactly the keys of the accepted entries |
| LongPreference.CleanPrefix | Preference/src/main/java/com/longseong/preference/Preference.java:399-426 | a prefix of an error-free document is error free |
| LongPreference.RadioMapLastWins | Preference/src/main/java/com/longseong/preference/Preference.java:421 | each key holds the title and description of the last entry with that key |
| LongPreference.Switch.constructor | Preference/src/main/java/com/longseong/preference/Preference.java:308-310 | a new switch is unchecked |
| LongPreference.Switch.SetChecked | Preference/src/main/java/com/longseong/preference/Preference.java:316-318 | the switch holds the given state |
| LongPreference.Switch.Toggle | Preference/src/main/java/com/longseong/preference/Preference.java:320-322 | the switch state flips |
| LongPreference.Text.constructor | Preference/src/main/java/com/longseong/preference/Preference.java:335-337 | no dialog and no input type at first |
| LongPreference.Text.SetDialog | Preference/src/main/java/com/longseong/preference/Preference.java:344-346 | only the dialog changes |
| LongPreference.Text.SetInputType | Preference/src/main/java/com/longseong/preference/Preference.java:352-354 | only the input type changes |
| LongPreference.Radio.constructor | Preference/src/main/java/com/longseong/preference/Preference.java:368-373 | the resource is parsed whenever it is not ID_NULL, whether or not the radio is enabled |
| LongPreference.Radio.SetRadioMap | Preference/src/main/java/com/longseong/preference/Preference.java:384-386 | the radio holds the given map |
| LongPreference.ProgressClamped | Preference/src/main/java/com/longseong/preference/Preference.java:531-547 | setProgress keeps the raw value and clamps the progress into [min, max], keeping an in-range value |
| LongPreference.ResetForgetsProgress | Preference/src/main/java/com/longseong/preference/Preference.java:527-529 | resetProgressToDefault forgets any earlier progress |
| LongPreference.MutedMutableReportsZero | Preference/src/main/java/com/longseong/preference/Preference.java:541-547 | a mutable bar reports 0 while muted |
| LongPreference.SeekBar.constructor | Preference/src/main/java/com/longseong/preference/Preference.java:502-516 | the bar takes the given settings, unmuted, and its icon flag stays false |
| LongPreference.SeekBar.SetProgress | Preference/src/main/java/com/longseong/preference/Preference.java:531-539 | the raw value is kept and the progress clamped; nothing else changes |
| LongPreference.SeekBar.SetProgressRaw | Preference/src/main/java/com/longseong/preference/Preference.java:549-551 | only the raw value changes |
| LongPreference.SeekBar.ResetProgressToDefault | Preference/src/main/java/com/longseong/preference/Preference.java:527-529 | the bar's state is the reset state |
| LongPreference.SeekBar.SetDefaultValue | Preference/src/main/java/com/longseong/preference/Preference.java:561-563 | only the default changes |
| LongPreference.SeekBar.SetMaxValue | Preference/src/main/java/com/longseong/preference/Preference.java:569-571 | only the maximum changes |
| LongPreference.SeekBar.SetMinValue | Preference/src/main/java/com/longseong/preference/Preference.java:577-579 | only the minimum changes |
| LongPreference.SeekBar.SetReplaceIcon | Preference/src/main/java/com/longseong/preference/Preference.java:589-591 | only the icon replacement flag changes |
| LongPreference.SeekBar.SetMute | Preference/src/main/java/com/longseong/preference/Preference.java:601-603 | only the mute flag changes |
| LongPreference.SeekBar.ToggleMute | Preference/src/main/java/com/longseong/preference/Preference.java:605-607 | the mute flag flips; nothing else changes |
| LongPreference.Intent.constructor | Preference/src/main/java/com/longseong/preference/Preference.java:636-644 | the icon is used exactly when an icon is given |
| LongPreference.Event.constructor | Preference/src/main/java/com/longseong/preference/Preference.java:695-697 | no handler and no runnable at first |
| LongPreference.Event.SetRunnable | Preference/src/main/java/com/longseong/preference/Preference.java:708-713 | the runnable runs on the UI thread exactly when a handler is given |
| LongPreference.Event.SetRunnableOnly | Preference/src/main/java/com/longseong/preference/Preference.java:704-706 | without a handler the runnable gets its own thread |
| LongPreference.DefaultSettings | Preference/src/main/java/com/longseong/preference/Preference.java:786-800 | the Builder constructor's defaults: no id, EXPLAIN, enabled, text input, empty texts, no switch, radio or seek bar |
| LongPreference.GroupArgs | Preference/src/main/java/com/longseong/preference/PreferenceGroup.java:8-10 | a group passes id, access name, texts and icon through, with type EXPLAIN and enabled |
| LongPreference.Preference.constructor | Preference/src/main/java/com/longseong/preference/Preference.java:75-120 | BuiltFrom: the node's fields come from the builder (or the group rule); content starts as ""; the capabilities follow the builder's type and flags |
| LongPreference.Preference.SetContentValue | Preference/src/main/java/com/longseong/preference/Preference.java:166-168 | the content value is the argument, null included |
| LongPreference.Preference.SetContentValueRaw | Preference/src/main/java/com/longseong/preference/Preference.java:174-176 | the raw value is the argument, null included |
| LongPreference.Preference.SetTitle | Preference/src/main/java/com/longseong/preference/Preference.java:142-144 | only the title changes |
| LongPreference.Preference.SetContent | Preference/src/main/java/com/longseong/preference/Preference.java:150-152 | only the description changes |
| LongPreference.Preference.SetDetailedContent | Preference/src/main/java/com/longseong/preference/Preference.java:158-160 | only the detailed description changes |
| LongPreference.Preference.SetEnabled | Preference/src/main/java/com/longseong/preference/Preference.java:182-184 | only the enabled flag changes |
| LongPreference.Preference.SetSubPreferencesEnabled | Preference/src/main/java/com/longseong/preference/Preference.java:214-218 | every direct child takes the flag, and only the children's enabled flags change |
| LongPreference.InitCapabilities | Preference/src/main/java/com/longseong/preference/Preference.java:903-917 | switch only for a type that allows one; text input by the node's own type; radio parsed when a resource is given; seek bar, intent and event by the builder's type |
| LongPreference.Builder.constructor | Preference/src/main/java/com/longseong/preference/Preference.java:786-800 | a new builder holds the default settings and no children |
| LongPreference.Builder.SetId | Preference/src/main/java/com/longseong/preference/Preference.java:802-805 | only the id changes |
| LongPreference.Builder.SetAccessName | Preference/src/main/java/com/longseong/preference/Preference.java:807-809 | only the access name changes |
| LongPreference.Builder.SetType | Preference/src/main/java/com/longseong/preference/Preference.java:811-814 | only the type changes |
| LongPreference.Builder.SetIconRes | Preference/src/main/java/com/longseong/preference/Preference.java:816-819 | only the icon changes |
| LongPreference.Builder.SetTitle | Preference/src/main/java/com/longseong/preference/Preference.java:821-824 | only the title changes |
| LongPreference.Builder.SetDescription | Preference/src/main/java/com/longseong/preference/Preference.java:826-829 | only the description changes |
| LongPreference.Builder.SetDetailedDescription | Preference/src/main/java/com/longseong/preference/Preference.java:831-834 | only the detailed description changes |
| LongPreference.Builder.SetEnabled | Preference/src/main/java/com/longseong/preference/Preference.java:836-839 | only the enabled flag changes |
| LongPreference.Builder.SetInputType | Preference/src/main/java/com/longseong/preference/Preference.java:841-844 | only the input type changes |
| LongPreference.Builder.AddSubPreference | Preference/src/main/java/com/longseong/preference/Preference.java:846-849 | the child is appended |
| LongPreference.Builder.SetSwitch | Preference/src/main/java/com/longseong/preference/Preference.java:851-854 | only the switch flag changes |
| LongPreference.Builder.SetRadio | Preference/src/main/java/com/longseong/preference/Preference.java:856-864 | the radio is enabled exactly when the resource is not ID_NULL |
| LongPreference.Builder.SetEvent | Preference/src/main/java/com/longseong/preference/Preference.java:866-869 | only the event flag changes |
| LongPreference.Builder.SetSeekBar | Preference/src/main/java/com/longseong/preference/Preference.java:871-880 | the seek bar is enabled exactly when the type already is SEEK_BAR |
| LongPreference.Builder.SetIntent | Preference/src/main/java/com/longseong/preference/Preference.java:882-885 | intent use follows the type at the time of the call |
| LongPreference.Builder.Create | Preference/src/main/java/com/longseong/preference/Preference.java:888-893 | a fresh item whose every field and capability is what the constructor makes of the builder's settings (BuiltFrom), with the builder's children |
| LongPreference.Builder.CreateGroup | Preference/src/main/java/com/longseong/preference/Preference.java:896-901 | a fresh group built from the builder's settings by the group rule (BuiltFrom): EXPLAIN, enabled, no text input, the builder's id and children |
| LongPreferenceManager.SettingsOfNoAttributes | Preference/src/main/java/com/longseong/preference/PreferenceManager.java:191-322 | a start tag without attributes gives the builder defaults with seek bar 50 within [0, 100], icon replaced |
| LongPreferenceManager.SeekBarDefaultsKept | Preference/src/main/java/com/longseong/preference/PreferenceManager.java:195-321 | for any attribute list, a seek-bar setting no attribute sets keeps its default: 50 within [0, 100], icon replaced |
| LongPreferenceManager.SeekBarLastWins | Preference/src/main/java/com/longseong/preference/PreferenceManager.java:195-321 | for any attribute list, a seek-bar setting that attributes set takes the value of the last of them |
| LongPreferenceManager.SettingsOfConsistent | Preference/src/main/java/com/longseong/preference/PreferenceManager.java:205-322 | whatever the attribute order, seek bar and intent follow the final type, and the radio is enabled exactly when a resource was given last |
| LongPreferenceManager.ReadAttributesRadio | Preference/src/main/java/com/longseong/preference/PreferenceManager.java:205-319 | reading attributes keeps radio enabled in step with the radio resource |
| LongPreferenceManager.ReadAttributeRadio | Preference/src/main/java/com/longseong/preference/PreferenceManager.java:208-318 | one attribute keeps radio enabled in step with the radio resource |
| LongPreferenceManager.TextAttributeKeepsRadio | Preference/src/main/java/com/longseong/preference/PreferenceManager.java:208-318 | id and text attributes leave the radio alone |
| LongPreferenceManager.LocalAttributeKeepsRadio | Preference/src/main/java/com/longseong/preference/PreferenceManager.java:208-318 | the seek-bar locals and unknown attributes leave the builder alone |
| LongPreferenceManager.TypeAttributeKeepsRadio | Preference/src/main/java/com/longseong/preference/PreferenceManager.java:208-318 | the type attribute leaves the radio alone |
| LongPreferenceManager.OptionAttributeKeepsRadio | Preference/src/main/java/com/longseong/preference/PreferenceManager.java:208-318 | icon, enabled, switch and input-type attributes leave the radio alone |
| LongPreferenceManager.ReadAttributeInto | Preference/src/main/java/com/longseong/preference/PreferenceManager.java:208-318 | one pass of the attribute switch does to the builder what the attribute fold says |
| LongPreferenceManager.SetTextAttribute | Preference/src/main/java/com/longseong/preference/PreferenceManager.java:208-318 | id and text attributes go to the builder as the fold says |
| LongPreferenceManager.SetOptionAttribute | Preference/src/main/java/com/longseong/preference/PreferenceManager.java:208-318 | type, icon, flags, input type and radio resource go to the builder as the fold says |
| LongPreferenceManager.ReadStartTag | Preference/src/main/java/com/longseong/preference/PreferenceManager.java:191-322 | the start tag's builder holds exactly the settings the attributes describe |
| LongPreferenceManager.ReadAttributesInto | Preference/src/main/java/com/longseong/preference/PreferenceManager.java:205-319 | the attribute loop leaves the builder as the fold says |
| LongPreferenceManager.FinishStartTag | Preference/src/main/java/com/longseong/preference/PreferenceManager.java:321-322 | setSeekBar and setIntent finish the settings |
| LongPreferenceManager.Lift | Preference/src/main/java/com/longseong/preference/PreferenceManager.java:171-347 | each event is turned into its builder-level event, position by position |
| LongPreferenceManager.SaveAllRoundTrip | Preference/src/main/java/com/longseong/preference/PreferenceManager.java:358-410 | whatever savePreference writes reads back unchanged, an absent value keeps what was stored, and no other key changes |
| LongPreferenceManager.SaveRawRoundTrip | Preference/src/main/java/com/longseong/preference/PreferenceManager.java:400-410 | the raw value reads back as written, or as "" once a null raw value removed the key |
| LongPreferenceManager.TitleInValues | Preference/src/main/java/com/longseong/preference/PreferenceManager.java:462-466 | the title search succeeds exactly when some entry has that title |
| LongPreferenceManager.CheckRadio | Preference/src/main/java/com/longseong/preference/PreferenceManager.java:455-470 | a non-empty text naming an entry's title is kept, and the seek bar left alone; anything else becomes the first title |
| LongPreferenceManager.CheckSeekBar | Preference/src/main/java/com/longseong/preference/PreferenceManager.java:471-484 | a parsing text sets the clamped progress, anything else resets; muted when it was or when the reported value is 0; the text is unchanged |
| LongPreferenceManager.CheckNothing | Preference/src/main/java/com/longseong/preference/PreferenceManager.java:455-484 | with no valid radio or seek bar the text and bar stay |
| LongPreferenceManager.CheckRaw | Preference/src/main/java/com/longseong/preference/PreferenceManager.java:486-499 | the raw text never changes; a valid bar takes it as raw value when it parses; nothing else about the bar changes |
| LongPreferenceManager.RadioCheckStable | Preference/src/main/java/com/longseong/preference/PreferenceManager.java:455-470 | the check is idempotent when the first title is not empty |
| LongPreferenceManager.ValidRadioMap | Preference/src/main/java/com/longseong/preference/PreferenceManager.java:459 | a map is seen exactly when the radio is valid, and it is non-empty and well formed |
| LongPreferenceManager.PreferenceManager.constructor | Preference/src/main/java/com/longseong/preference/PreferenceManager.java:127-141 | empty list and map, the given store, and a null optimizer replaced by the identity |
| LongPreferenceManager.PreferenceManager.SetSaveOptimizer | Preference/src/main/java/com/longseong/preference/PreferenceManager.java:109-115 | null installs the identity optimizer |
| LongPreferenceManager.PreferenceManager.GetPreferenceById | Preference/src/main/java/com/longseong/preference/PreferenceManager.java:143-145 | found exactly when the id is a key, and then it is the preference with that id |
| LongPreferenceManager.PreferenceManager.SavePreference | Preference/src/main/java/com/longseong/preference/PreferenceManager.java:358-374 | the optimizer's pick is written, each value only when present, the switch only when valid |
| LongPreferenceManager.PreferenceManager.SavePreferenceSwitchValue | Preference/src/main/java/com/longseong/preference/PreferenceManager.java:376-386 | only the switch key, only for a valid switch |
| LongPreferenceManager.PreferenceManager.SavePreferenceContentValue | Preference/src/main/java/com/longseong/preference/PreferenceManager.java:388-398 | only the content key, unless the value is null |
| LongPreferenceManager.PreferenceManager.SavePreferenceContentValueRaw | Preference/src/main/java/com/longseong/preference/PreferenceManager.java:400-410 | only the raw key, guarded by the content value; a null raw value removes it |
| LongPreferenceManager.PreferenceManager.LoadPreferenceSwitchValue | Preference/src/main/java/com/longseong/preference/PreferenceManager.java:501-507 | the stored state, false when absent |
| LongPreferenceManager.PreferenceManager.LoadPreferenceContentValue | Preference/src/main/java/com/longseong/preference/PreferenceManager.java:509-515 | the stored content, "" when absent |
| LongPreferenceManager.PreferenceManager.LoadPreferenceContentValueRaw | Preference/src/main/java/com/longseong/preference/PreferenceManager.java:517-523 | the stored raw value, "" when absent |
| LongPreferenceManager.PreferenceManager.LoadSwitchInvalidateWrongData | Preference/src/main/java/com/longseong/preference/PreferenceManager.java:445-453 | the stored state is returned, and taken by the switch only when it is valid |
| LongPreferenceManager.PreferenceManager.LoadContentInvalidateWrongData | Preference/src/main/java/com/longseong/preference/PreferenceManager.java:455-484 | the text and seek bar end as the content check says; the bar keeps its icon flag |
| LongPreferenceManager.PreferenceManager.LoadRawInvalidateWrongData | Preference/src/main/java/com/longseong/preference/PreferenceManager.java:486-499 | the stored raw text is returned and the seek bar ends as the raw check says; the bar keeps its icon flag |
| LongPreferenceManager.PreferenceManager.LoadPreference | Preference/src/main/java/com/longseong/preference/PreferenceManager.java:420-443 | the switch takes the stored state even when invalid; values go through the checks; then the store gets the re-save writes as written, which always rewrite the raw value; the seek bar keeps its icon flag |
| LongPreferenceManager.PreferenceManager.Resave | Preference/src/main/java/com/longseong/preference/PreferenceManager.java:434-442 | each contains() sees the writes before it; the raw value is saved when absent or equal to what was stored |
| LongPreferenceManager.PreferenceManager.ParseXmlPreference | Preference/src/main/java/com/longseong/preference/PreferenceManager.java:164-348 | the list and id map are exactly the plan's roots and id index; a parser error keeps what was built before it |
| LongPreferenceManager.Advance | Preference/src/main/java/com/longseong/preference/PreferenceManager.java:171-347 | one loop turn keeps the builders, list and map in step with the event fold, or ends the build as the fold does |
| LongPreferenceManager.Feed | Preference/src/main/java/com/longseong/preference/PreferenceManager.java:171-347 | one event other than a parser error moves the builders, list and map as the fold's step does |
| LongPreferenceManager.OpenBuilder | Preference/src/main/java/com/longseong/preference/PreferenceManager.java:191-204 | the open builder is pushed and a fresh one opened |
| LongPreferenceManager.CloseBuilder | Preference/src/main/java/com/longseong/preference/PreferenceManager.java:324-345 | the item or group is created, handed to its parent or the top-level list, and put into the id map |
| LongPreferenceManager.HandToParent | Preference/src/main/java/com/longseong/preference/PreferenceManager.java:339-343 | the parent builder gets the child and becomes the cursor again |
| LongPreferenceManager.CloseMirrors | Preference/src/main/java/com/longseong/preference/PreferenceManager.java:335-344 | the created preference joins the top-level list (at top level) and the id map, as the fold says |
| LongPreferenceManager.CreateFrom | Preference/src/main/java/com/longseong/preference/PreferenceManager.java:329-333 | create() for an item and createGroup() for a group, keeping the builder's id |
| LongPreferenceRadioGroup.PreferenceRadioGroup.constructor | Preference/src/main/java/com/longseong/preference/PreferenceRadioGroup.java:17-20 | no entry is selected at first |
| LongPreferenceRadioGroup.PreferenceRadioGroup.Check | Preference/src/main/java/com/longseong/preference/PreferenceRadioGroup.java:22-38 | re-selection is refused; otherwise views repaint, the selection moves, and the selected title becomes the content value, or a NullPointerException without a view; at most the selected button stays checked |
| LongPreferenceRadioGroup.PreferenceRadioGroup.SetChecked | Preference/src/main/java/com/longseong/preference/PreferenceRadioGroup.java:40-45 | the index is recorded and the child's title copied, failing when there is no child view |
| LongPreferenceRadioGroup.PreferenceRadioGroup.SetIndexOnly | Preference/src/main/java/com/longseong/preference/PreferenceRadioGroup.java:47-51 | the index is recorded unless it is CHECKED_NULL |
| LongPreferenceRadioGroup.PreferenceRadioGroup.SetCheckedStateForView | Preference/src/main/java/com/longseong/preference/PreferenceRadioGroup.java:53-60 | the views change as the shared view update says |
| LogCenter.SortedNames | LogCenter/src/main/java/com/longseong/logcenter/LogCenter.java:51 | `listFiles` then `Arrays.sort`: a sorted listing of exactly the folder's names |
| LogCenter.LeastExists | LogCenter/src/main/java/com/longseong/logcenter/LogCenter.java:51 | a non-empty folder has a least name |
| LogCenter.LeastUnique | LogCenter/src/main/java/com/longseong/logcenter/LogCenter.java:51 | the least name of a folder is unique, so the sorted listing starts with it |
| LogCenter.SortedCons | LogCenter/src/main/java/com/longseong/logcenter/LogCenter.java:51 | the least name before a sorted listing of the rest is sorted |
| LogCenter.RemovedCount | LogCenter/src/main/java/com/longseong/logcenter/LogCenter.java:51-54 | nothing is deleted below 100 files; otherwise 99 remain |
| LogCenter.Retained | LogCenter/src/main/java/com/longseong/logcenter/LogCenter.java:39-55 | the kept files are unchanged, there are min(n, 99 when n >= 100) of them, and every deleted name sorts before every kept one |
| LogCenter.RetainedFacts | LogCenter/src/main/java/com/longseong/logcenter/LogCenter.java:51-54 | deleting the first names of the sorted listing leaves the count and order Retained promises |
| LogCenter.RetainedCount | LogCenter/src/main/java/com/longseong/logcenter/LogCenter.java:51-54 | deleting the first c names of a sorted listing leaves c files fewer |
| LogCenter.RetainedOrder | LogCenter/src/main/java/com/longseong/logcenter/LogCenter.java:51-54 | every deleted name sorts before every kept one |
| LogCenter.NameSuffixInjective | LogCenter/src/main/java/com/longseong/logcenter/LogCenter.java:68-72 | distinct probe indices give distinct suffixes |
| LogCenter.LogNameInjective | LogCenter/src/main/java/com/longseong/logcenter/LogCenter.java:66-75 | distinct probe indices give distinct file names |
| LogCenter.NamesCount | LogCenter/src/main/java/com/longseong/logcenter/LogCenter.java:66-75 | the first n candidate names are n different names |
| LogCenter.TakenBound | LogCenter/src/main/java/com/longseong/logcenter/LogCenter.java:66-75 | a folder holding the first n names has at least n files, so probing ends |
| LogCenter.FirstFreeUnique | LogCenter/src/main/java/com/longseong/logcenter/LogCenter.java:66-75 | probing settles on one index only |
| LogCenter.LineEnd | LogCenter/src/main/java/com/longseong/logcenter/LogCenter.java:118-125 | readLine stops at the first '\n' or '\r', else at the end |
| LogCenter.NewlineAt | LogCenter/src/main/java/com/longseong/logcenter/LogCenter.java:77-81 | a token of StringTokenizer(log, "\n") ends at the first '\n' |
| LogCenter.Tokens | LogCenter/src/main/java/com/longseong/logcenter/LogCenter.java:77-81 | the tokens are non-empty, hold no '\n', and are made of the log's characters |
| LogCenter.LineEndAt | LogCenter/src/main/java/com/longseong/logcenter/LogCenter.java:118-125 | a line without breaks followed by "\n" ends where it should |
| LogCenter.ReadLinesCons | LogCenter/src/main/java/com/longseong/logcenter/LogCenter.java:118-125 | reading such a line gives it back, then the rest |
| LogCenter.ReadJoinLines | LogCenter/src/main/java/com/longseong/logcenter/LogCenter.java:118-125 | lines written one per "\n" read back as themselves |
| LogCenter.RemoveAllAbsent | LogCenter/src/main/java/com/longseong/logcenter/LogCenter.java:118 | `replace` changes nothing when the pattern's first character is absent |
| LogCenter.HeaderRoundTrip | LogCenter/src/main/java/com/longseong/logcenter/LogCenter.java:118 | the header line parses back to the stamp it was written with |
| LogCenter.WriteReadRoundTrip | LogCenter/src/main/java/com/longseong/logcenter/LogCenter.java:103-136 | reading back a written file gives its stamp and its non-empty lines, joined and trimmed |
| LogCenter.LinesWithoutBreaks | LogCenter/src/main/java/com/longseong/logcenter/LogCenter.java:77-81 | with no '\r' in the log, no written line holds a line break |
| LogCenter.JoinTokens | LogCenter/src/main/java/com/longseong/logcenter/LogCenter.java:77-81 | a log without empty lines or a newline at either end is its tokens joined by "\n" |
| LogCenter.CleanLogRoundTrip | LogCenter/src/main/java/com/longseong/logcenter/LogCenter.java:57-136 | round trip: a clean log is read back exactly as posted, with its stamp |
| LogCenter.ReadAll | LogCenter/src/main/java/com/longseong/logcenter/LogCenter.java:113-133 | each file is read on its own, position by position |
| LogCenter.ContentsOf | LogCenter/src/main/java/com/longseong/logcenter/LogCenter.java:113-116 | the contents of the named files in the given order |
| LogCenter.ScanPrefix | LogCenter/src/main/java/com/longseong/logcenter/LogCenter.java:113-133 | the result keeps a prefix of the files; the k-th log is the k-th file's; a stopped scan stops at an empty file |
| LogCenter.ScanFails | LogCenter/src/main/java/com/longseong/logcenter/LogCenter.java:118-130 | the scan fails exactly when a bad header comes before any empty file |
| LogCenter.ScanSnoc | LogCenter/src/main/java/com/longseong/logcenter/LogCenter.java:113-133 | the scan over one more file is one more step |
| LogCenter.StoppedStays | LogCenter/src/main/java/com/longseong/logcenter/LogCenter.java:127-131 | once the scan has stopped or failed, later files do not matter |
| LogCenter.LogCenter.constructor | LogCenter/src/main/java/com/longseong/logcenter/LogCenter.java:28-30 | the folder as given, no listener, nothing posted |
| LogCenter.LogCenter.InitLogDirectory | LogCenter/src/main/java/com/ungseong/logcenter/util/Utils.java:63-69 | afterwards the folder exists |
| LogCenter.LogCenter.MaintenanceLogFiles | LogCenter/src/main/java/com/longseong/logcenter/LogCenter.java:39-55 | the folder is created on the first call; the files become the retained ones |
| LogCenter.LogCenter.DeleteOldest | LogCenter/src/main/java/com/longseong/logcenter/LogCenter.java:51-54 | the first names of the listing are deleted, as many as the count says |
| LogCenter.LogCenter.ProbeName | LogCenter/src/main/java/com/longseong/logcenter/LogCenter.java:66-75 | the first index whose name is free |
| LogCenter.LogCenter.WriteLogFile | LogCenter/src/main/java/com/longseong/logcenter/LogCenter.java:77-81 | the header line, then each token on its own line |
| LogCenter.LogCenter.PostLog | LogCenter/src/main/java/com/longseong/logcenter/LogCenter.java:57-97 | prune; then, with the folder, write the log under the first free name and notify the listener of the last index; without it only the pruning |
| LogCenter.LogCenter.WriteLog | LogCenter/src/main/java/com/longseong/logcenter/LogCenter.java:66-93 | write and notify when the folder exists, nothing otherwise |
| LogCenter.LogCenter.AddLogFile | LogCenter/src/main/java/com/longseong/logcenter/LogCenter.java:66-81 | the log is written under the first free name and no other file changes |
| LogCenter.LogCenter.NotifyListener | LogCenter/src/main/java/com/longseong/logcenter/LogCenter.java:91-93 | a registered listener hears the index of the last file |
| LogCenter.LogCenter.GetLogSet | LogCenter/src/main/java/com/longseong/logcenter/LogCenter.java:103-136 | the files in name order are read until an empty file; a bad header throws (None) |
| LogCenter.LogCenter.ReadLogFiles | LogCenter/src/main/java/com/longseong/logcenter/LogCenter.java:113-133 | the reading loop gives the scan's result |
| LogCenter.LogCenter.ClearLogcat | LogCenter/src/main/java/com/longseong/logcenter/LogCenter.java:139-149 | every file is deleted |
| LogCenter.LogCenter.RegisterLogAddedListener | LogCenter/src/main/java/com/longseong/logcenter/LogCenter.java:151-153 | the new listener replaces the old one |
| LogUtils.DropTrailingEmpty | LogCenter/src/main/java/com/ungseong/logcenter/util/Utils.java:84 | `split` drops only empty pieces at the end |
| LogUtils.SplitJoin | LogCenter/src/main/java/com/ungseong/logcenter/util/Utils.java:84 | splitting an entry on its double-bar separator gives both halves back |
| LogUtils.FragmentFacts | LogCenter/src/main/java/com/ungseong/logcenter/util/Utils.java:26-35 | the two alternatives of the entries for bits 0, 1 and 3 |
| LogUtils.FormatFlags | LogCenter/src/main/java/com/ungseong/logcenter/util/Utils.java:75-95 | the loop builds the pattern the fold describes: each set bit's fragment in front, so higher bits come first |
| LogUtils.BitShift | LogCenter/src/main/java/com/ungseong/logcenter/util/Utils.java:82 | adding a multiple of 2^j leaves the lower bits alone |
| LogUtils.SameLowBits | LogCenter/src/main/java/com/ungseong/logcenter/util/Utils.java:81-93 | the pattern depends only on the low eight bits |
| LogUtils.FormatIgnoresHighBits | LogCenter/src/main/java/com/ungseong/logcenter/util/Utils.java:81-93 | bits above the eighth do not change the pattern |
| LogUtils.FragmentChoice | LogCenter/src/main/java/com/ungseong/logcenter/util/Utils.java:83-91 | a fragment differs from its table entry exactly for decimal seconds on bits 0-1 or 24-hour on bit 3, and is then the part after the double-bar separator |
| LogUtils.BitOfPow2 | LogCenter/src/main/java/com/ungseong/logcenter/util/Utils.java:17-24 | flag constant 2^i has bit j set exactly when j = i |
| LogUtils.BitOfZero | LogCenter/src/main/java/com/ungseong/logcenter/util/Utils.java:82 | no bit of 0 is set |
| LogUtils.SingleFlag | LogCenter/src/main/java/com/ungseong/logcenter/util/Utils.java:75-95 | one flag alone gives its own entry, except FLAG_HOUR in 24-hour mode, which gives " HH시" |
| LogUtils.ClearBits | LogCenter/src/main/java/com/ungseong/logcenter/util/Utils.java:81-93 | clear bits add nothing to the pattern |
| LogUtils.DecimalSeconds | LogCenter/src/main/java/com/ungseong/logcenter/util/Utils.java:77-85 | FLAG_SECOND with FLAG_MILLIS gives seconds with their decimal part |
| LogUtils.DateFormatSelector | LogCenter/src/main/java/com/ungseong/logcenter/util/Utils.java:113-121 | a pattern exactly for an id inside the table, taken from that row; outside it the array access throws (None) |
| LogUtils.SelectorColumn | LogCenter/src/main/java/com/ungseong/logcenter/util/Utils.java:113-121 | the 24-hour pattern exactly with a context in 24-hour mode (or for a row whose columns agree), the 12-hour one otherwise |
| LogUtils.TableColumns | LogCenter/src/main/java/com/ungseong/logcenter/util/Utils.java:37-45 | the two columns agree exactly for the rows without a time of day |
| LogUtils.FormatPhoneNumber | LogCenter/src/main/java/com/ungseong/logcenter/util/Utils.java:123-134 | the result is longer than the input by the number of hyphens inserted |
| LogUtils.PhoneShape | LogCenter/src/main/java/com/ungseong/logcenter/util/Utils.java:123-134 | where the hyphens go for each length, and that every other character keeps its order |
| LogUtils.RemoveHyphensConcat | LogCenter/src/main/java/com/ungseong/logcenter/util/Utils.java:128-132 | dropping hyphens distributes over concatenation |
| LogUtils.RemoveHyphensNone | LogCenter/src/main/java/com/ungseong/logcenter/util/Utils.java:123-126 | a string without hyphens is unchanged |
| LogUtils.PhoneRoundTrip | LogCenter/src/main/java/com/ungseong/logcenter/util/Utils.java:123-134 | round trip: dropping the hyphens of the formatted number gives the input back when it had none |

## Left out

- View and UI glue is not modelled: adapters, view holders, dialogs, the activities and `PreferenceViewCreatedListener`. The radio group keeps only the checked flags and titles of its child views.
- Reading XML, SharedPreferences and files is replaced by values: event sequences, a map, and a map from file name to content. `IOException`s from the log files other than a missing folder are not modelled.
- `loadAllPreference` and `saveAllPreferences` are not modelled. They only loop over every preference, calling the one-preference operations that are modelled.
- The optimizer's manager argument, and the `PreferenceSet` tag that names the SharedPreferences file, are left out. The store is given to the constructor.
- `Intent` launching, `Event.startEvent` and the dialog objects are left out. Only the flags these classes keep are modelled.
- `Now`, `getLogFolder`, `enhancedFormatDate` and `formatDate` are left out: they need Calendar and SimpleDateFormat. `is24HourFormat` and the clock readings are parameters.
- `stackTraceToString` and `postLog(Context, Exception)` are left out: they print a stack trace. The listener is modelled by identity, and its calls are recorded as a log of notifications.
- A log-folder path that names a plain file, not a directory, is left out.
- The newer `PreferenceGroup.java` is not part of this model. Its group is modelled through `createGroup`, which sets the type to EXPLAIN before building.
- `Integer.parseInt` and `Long.parseLong` are modelled on ASCII digits only. Unicode digits are not accepted.
- `static` singletons and thread handling are left out: the runnable thread of `Event`, and `runOnUiThread`.
- LogCenter.LogCenter.PostLog: the clock is read twice, so `time` (the file name) and `stamp` (the header) are separate parameters.
- UngPreferenceManager.PreferenceManager.ParseXmlPreference and LongPreferenceManager.PreferenceManager.ParseXmlPreference: each created node is tied to its declared bundle or settings (`decl`), but the fields `Builder.Create` gives it (BuiltFrom) are not carried through the parse loop to the finished map.
- CanCheck (both `PreferenceRadioGroup` versions): `check` with an index that has no child view throws a `NullPointerException`. The model requires the index to name a view instead of modelling that crash.
- SetChecked (older `PreferenceRadioGroup`): an index with no child, when a root view exists, throws a `NullPointerException`. The model requires the index to be in range; the missing root view and `CHECKED_NULL` are modelled as `Failed`.
- Loadable (with HoldsBoolean and HoldsString): a stored value of the wrong kind makes `getBoolean` or `getString` throw `ClassCastException`. The load operations require every key to hold the kind it is read as, instead of modelling that crash.
- LogUtils.FormatPhoneNumber: strings are sequences of Unicode scalar values, not UTF-16 code units. For a number holding a character outside the Basic Multilingual Plane, Java's `length()` and `substring` count and cut differently (possibly inside a surrogate pair), and the model does not follow that.
- UngPreference.Builder.Create, UngPreference.Builder.CreateGroup, LongPreference.Builder.Create and LongPreference.Builder.CreateGroup: the new preference shares the builder's `LinkedList` of sub-preferences, so a child added to the builder after `create()` also shows up in the preference. The model copies the sequence by value, so that aliasing is not captured.
