/** Button records: one physical key's configuration as read from a keyset
    file, and the Button built from it (icon paths, dataref states and their
    range, defaults). */
module Buttons {
  import opened Common

  /** Directory holding the icon assets. */
  const AssetsDir: string := "icons"

  /** Every icon path starts with the assets directory and a separator. */
  const AssetsPrefix: string := AssetsDir + "/"

  const PngSuffix: string := ".png"

  /** A path inside the assets directory naming a PNG file, with at least
      the empty stem in between. */
  predicate IsIconPath(p: string)
  {
    |p| >= |AssetsPrefix| + |PngSuffix|
    && p[..|AssetsPrefix|] == AssetsPrefix
    && p[|p| - |PngSuffix|..] == PngSuffix
  }

  /** The part of an icon path between the assets prefix and the suffix. */
  function Stem(p: string): string
    requires IsIconPath(p)
  {
    p[|AssetsPrefix|..|p| - |PngSuffix|]
  }

  /** Path of a single (stateless) icon: `icons/<icon>.png`. */
  function StaticPng(icon: string): string
  {
    AssetsPrefix + icon + PngSuffix
  }

  /** Path of the icon shown for one dataref state:
      `icons/<icon>.<state>.png`, where `state` is the text of the state. */
  function DatarefPng(icon: string, state: string): string
  {
    AssetsPrefix + icon + "." + state + PngSuffix
  }

  /** A static icon path lies in the assets directory, ends in `.png`, and
      its stem gives back the icon name. */
  lemma {:induction false} StaticPngShape(icon: string)
    ensures IsIconPath(StaticPng(icon)) && Stem(StaticPng(icon)) == icon
  {
    var p := StaticPng(icon);
    assert p[..|AssetsPrefix|] == AssetsPrefix;
    assert p[|p| - |PngSuffix|..] == PngSuffix;
    assert p[|AssetsPrefix|..|p| - |PngSuffix|] == icon;
  }

  /** Distinct icons get distinct static paths. */
  lemma StaticPngInjective(a: string, b: string)
    ensures StaticPng(a) == StaticPng(b) <==> a == b
  {
    StaticPngShape(a);
    StaticPngShape(b);
  }

  /** A state icon path lies in the assets directory, ends in `.png`, and
      its stem is the icon name, a dot and the state's text. */
  lemma {:induction false} DatarefPngShape(icon: string, state: string)
    ensures IsIconPath(DatarefPng(icon, state)) && Stem(DatarefPng(icon, state)) == icon + "." + state
  {
    var p := DatarefPng(icon, state);
    assert p[..|AssetsPrefix|] == AssetsPrefix;
    assert p[|p| - |PngSuffix|..] == PngSuffix;
    assert p[|AssetsPrefix|..|p| - |PngSuffix|] == icon + "." + state;
  }

  /** The commands bound to a key, copied verbatim from its record. */
  datatype Commands = Commands(
    command: Option<string>,
    commands: Option<seq<string>>,
    commandRelease: Option<string>,
    commandsRelease: Option<seq<string>>,
    commandOn: Option<string>,
    commandOff: Option<string>,
    commandsOn: Option<seq<string>>,
    commandsOff: Option<seq<string>>)

  /** One entry of a keyset file's `actions` list; an absent key is None. */
  datatype KeyRecord = KeyRecord(
    index: int,
    name: string,
    icon: string,
    keyType: Option<string>,
    dataref: Option<string>,
    datarefMultiplier: Option<real>,
    datarefStates: Option<seq<real>>,
    datarefDefault: Option<real>,
    fileNames: Option<seq<string>>,
    autoSwitch: Option<bool>,
    commands: Commands)

  /** A configured key.  `datarefMin`/`datarefMax` are None where the
      original object has no such attribute at all. */
  datatype Button = Button(
    index: int,
    name: string,
    icon: string,
    cmdType: Option<string>,
    dataref: Option<string>,
    datarefMultiplier: real,
    switchDirection: int,
    datarefStates: Option<seq<real>>,
    datarefMin: Option<real>,
    datarefMax: Option<real>,
    autoSwitch: bool,
    commands: Commands,
    current: Option<real>,
    fileNames: seq<string>)

  /** Taking the minimum of an empty list of states raises, so explicit
      states must be non-empty. */
  predicate HasUsableStates(rec: KeyRecord)
  {
    rec.datarefStates.Some? ==> |rec.datarefStates.value| > 0
  }

  /** `lo` and `hi` are states of `s`, and every state lies between them. */
  predicate StatesBounded(s: seq<real>, lo: real, hi: real)
  {
    lo in s && hi in s && forall x :: x in s ==> lo <= x <= hi
  }

  /** What every constructed Button satisfies: a dataref implies states,
      and the range exists exactly when states do and brackets them. */
  predicate WellFormed(b: Button)
  {
    (b.dataref.Some? ==> b.datarefStates.Some?)
    && (b.datarefStates.Some? <==> b.datarefMin.Some?)
    && (b.datarefStates.Some? <==> b.datarefMax.Some?)
    && (b.datarefStates.Some? ==>
          StatesBounded(b.datarefStates.value, b.datarefMin.value, b.datarefMax.value))
  }

  /** Every file name of the Button is an icon path. */
  predicate IconPaths(b: Button)
  {
    forall f :: f in b.fileNames ==> IsIconPath(f)
  }

  /** Python's `min` over the states. */
  function SeqMin(s: seq<real>): (m: real)
    requires |s| > 0
    ensures m in s
    ensures forall x :: x in s ==> m <= x
  {
    if |s| == 1 then s[0]
    else
      var m := SeqMin(s[1..]);
      assert s == [s[0]] + s[1..];
      if m < s[0] then m else s[0]
  }

  /** Python's `max` over the states. */
  function SeqMax(s: seq<real>): (m: real)
    requires |s| > 0
    ensures m in s
    ensures forall x :: x in s ==> x <= m
  {
    if |s| == 1 then s[0]
    else
      var m := SeqMax(s[1..]);
      assert s == [s[0]] + s[1..];
      if m > s[0] then m else s[0]
  }

  /** Explicit file names, each mapped to its icon path, in order. */
  function StaticNames(names: seq<string>): (paths: seq<string>)
    ensures |paths| == |names|
    ensures forall i :: 0 <= i < |names| ==> paths[i] == StaticPng(names[i])
  {
    if |names| == 0 then [] else [StaticPng(names[0])] + StaticNames(names[1..])
  }

  /** One icon path per dataref state, in state order. */
  function StateNames(icon: string, states: seq<real>, fmt: real -> string): (paths: seq<string>)
    ensures |paths| == |states|
    ensures forall i :: 0 <= i < |states| ==> paths[i] == DatarefPng(icon, fmt(states[i]))
  {
    if |states| == 0 then []
    else [DatarefPng(icon, fmt(states[0]))] + StateNames(icon, states[1..], fmt)
  }

  /** The states a record ends up with: its own, else [0.0, 1.0] when it
      names a dataref, else none. */
  function StatesOf(rec: KeyRecord): Option<seq<real>>
  {
    if rec.datarefStates.Some? then rec.datarefStates
    else if rec.dataref.Some? then Some([0.0, 1.0])
    else None
  }

  /** The icon paths of a record, by the first rule that applies: its
      explicit file names, else one per state, else its icon alone. */
  function FileNamesOf(rec: KeyRecord, fmt: real -> string): seq<string>
  {
    if rec.fileNames.Some? then StaticNames(rec.fileNames.value)
    else if StatesOf(rec).Some? then StateNames(rec.icon, StatesOf(rec).value, fmt)
    else [StaticPng(rec.icon)]
  }

  /** The Button the constructor builds from a record; `fmt` is the text
      form of a state used in state icon names. */
  function ButtonOf(rec: KeyRecord, fmt: real -> string): (b: Button)
    requires HasUsableStates(rec)
    ensures b.index == rec.index
  {
    var states := StatesOf(rec);
    Button(
      rec.index, rec.name, rec.icon, rec.keyType, rec.dataref,
      if rec.datarefMultiplier.None? then 1.0 else rec.datarefMultiplier.value,
      1,
      states,
      if states.Some? then Some(SeqMin(states.value)) else None,
      if states.Some? then Some(SeqMax(states.value)) else None,
      rec.autoSwitch.None? || rec.autoSwitch.value,
      rec.commands,
      rec.datarefDefault,
      FileNamesOf(rec, fmt))
  }

  /** A constructed Button is well formed. */
  lemma ButtonOfWellFormed(rec: KeyRecord, fmt: real -> string)
    requires HasUsableStates(rec)
    ensures WellFormed(ButtonOf(rec, fmt))
  {
  }

  /** The record's own fields are copied and the missing ones defaulted. */
  lemma ButtonOfFields(rec: KeyRecord, fmt: real -> string)
    requires HasUsableStates(rec)
    ensures var b := ButtonOf(rec, fmt);
      && b.index == rec.index && b.name == rec.name && b.icon == rec.icon
      && b.cmdType == rec.keyType && b.dataref == rec.dataref && b.commands == rec.commands
      && (rec.datarefMultiplier.None? ==> b.datarefMultiplier == 1.0)
      && (rec.datarefMultiplier.Some? ==> b.datarefMultiplier == rec.datarefMultiplier.value)
      && (b.autoSwitch <==> (rec.autoSwitch.None? || rec.autoSwitch.value))
      && b.switchDirection == 1
      && b.current == rec.datarefDefault
  {
  }

  /** Explicit states are kept with their least and greatest element as the
      range; a dataref without states gets the two states 0.0 and 1.0; a
      key without a dataref has no states and no range. */
  lemma ButtonOfStates(rec: KeyRecord, fmt: real -> string)
    requires HasUsableStates(rec)
    ensures var b := ButtonOf(rec, fmt);
      && (rec.datarefStates.Some? ==>
            b.datarefStates == rec.datarefStates
            && b.datarefMin.Some? && b.datarefMax.Some?
            && StatesBounded(rec.datarefStates.value, b.datarefMin.value, b.datarefMax.value))
      && (rec.datarefStates.None? && rec.dataref.Some? ==>
            b.datarefStates == Some([0.0, 1.0]) && b.datarefMin == Some(0.0) && b.datarefMax == Some(1.0))
      && (rec.datarefStates.None? && rec.dataref.None? ==>
            b.datarefStates.None? && b.datarefMin.None? && b.datarefMax.None?)
  {
  }

  /** The icon file names: each explicit name as a static icon path; else
      one state icon path per state, in state order; else the icon's own
      path. */
  lemma ButtonOfFileNames(rec: KeyRecord, fmt: real -> string)
    requires HasUsableStates(rec)
    ensures var b := ButtonOf(rec, fmt);
      && (rec.fileNames.Some? ==>
            |b.fileNames| == |rec.fileNames.value|
            && forall i :: 0 <= i < |b.fileNames| ==> b.fileNames[i] == StaticPng(rec.fileNames.value[i]))
      && (rec.fileNames.None? && b.datarefStates.Some? ==>
            |b.fileNames| == |b.datarefStates.value|
            && forall i :: 0 <= i < |b.fileNames| ==>
                 b.fileNames[i] == DatarefPng(rec.icon, fmt(b.datarefStates.value[i])))
      && (rec.fileNames.None? && b.datarefStates.None? ==> b.fileNames == [StaticPng(rec.icon)])
  {
  }

  /** Every file name a Button gets is an icon path. */
  lemma ButtonOfIconPaths(rec: KeyRecord, fmt: real -> string)
    requires HasUsableStates(rec)
    ensures IconPaths(ButtonOf(rec, fmt))
  {
    var names := ButtonOf(rec, fmt).fileNames;
    ButtonOfFileNames(rec, fmt);
    forall f | f in names
      ensures IsIconPath(f)
    {
      var i :| 0 <= i < |names| && names[i] == f;
      if rec.fileNames.Some? {
        StaticPngShape(rec.fileNames.value[i]);
      } else if StatesOf(rec).Some? {
        DatarefPngShape(rec.icon, fmt(StatesOf(rec).value[i]));
      } else {
        StaticPngShape(rec.icon);
      }
    }
  }

  /** The file-name array filled from explicit names, slot by slot. */
  method FillStaticNames(given: seq<string>) returns (names: array<string>)
    ensures fresh(names)
    ensures names[..] == StaticNames(given)
  {
    names := new string[|given|];
    for i := 0 to |given|
      invariant forall k :: 0 <= k < i ==> names[k] == StaticPng(given[k])
    {
      names[i] := StaticPng(given[i]);
    }
    assert names[..] == StaticNames(given);
  }

  /** The file-name array filled with one state icon per state. */
  method FillStateNames(icon: string, states: seq<real>, fmt: real -> string) returns (names: array<string>)
    ensures fresh(names)
    ensures names[..] == StateNames(icon, states, fmt)
  {
    names := new string[|states|];
    for i := 0 to |states|
      invariant forall k :: 0 <= k < i ==> names[k] == DatarefPng(icon, fmt(states[k]))
    {
      names[i] := DatarefPng(icon, fmt(states[i]));
    }
    assert names[..] == StateNames(icon, states, fmt);
  }

  /** The constructor as the source runs it: defaults first, then the
      file-name array filled slot by slot. */
  method NewButton(rec: KeyRecord, fmt: real -> string) returns (b: Button)
    requires HasUsableStates(rec)
    ensures b == ButtonOf(rec, fmt)
  {
    var multiplier := 1.0;
    if rec.datarefMultiplier.Some? {
      multiplier := rec.datarefMultiplier.value;
    }
    var switchDirection := 1;
    var states: Option<seq<real>> := None;
    var lo: Option<real> := None;
    var hi: Option<real> := None;
    if rec.datarefStates.None? {
      if rec.dataref.Some? {
        states, lo, hi := Some([0.0, 1.0]), Some(0.0), Some(1.0);
      }
    } else {
      states := rec.datarefStates;
      lo, hi := Some(SeqMin(states.value)), Some(SeqMax(states.value));
    }
    var autoSwitch := true;
    if rec.autoSwitch.Some? {
      autoSwitch := rec.autoSwitch.value;
    }
    var current := rec.datarefDefault;

    var names: array<string>;
    if rec.fileNames.Some? {
      names := FillStaticNames(rec.fileNames.value);
    } else if states.Some? {
      names := FillStateNames(rec.icon, states.value, fmt);
    } else {
      names := new string[1];
      names[0] := StaticPng(rec.icon);
    }
    b := Button(
      rec.index, rec.name, rec.icon, rec.keyType, rec.dataref,
      multiplier, switchDirection, states, lo, hi, autoSwitch,
      rec.commands, current, names[..]);
  }
}
