/** Preset loading: one keyset file into a fixed-length array of buttons
    indexed by key position, and the whole tree of keysets reachable from
    the root keyset through "dir" buttons. */
module Presets {
  import opened Common
  import opened Buttons

  /** Name and file of the root keyset. */
  const ActionCfgName: string := "actions"
  const ActionCfg: string := "actions.yaml"

  const YamlSuffix: string := ".yaml"

  /** The parsed keyset files: file name to the records of its `actions`
      list.  A name that is not a key is a file that does not exist. */
  type Configs = map<string, seq<KeyRecord>>

  /** A button slot per key; an unconfigured key is None. */
  type Preset = seq<Option<Button>>

  datatype LoadError = MissingFile(file: string)

  /** What loading one keyset file yields. */
  datatype Loaded = Loaded(preset: Preset, otherKeysets: seq<string>)

  /** The file a keyset is read from.  Dropping the suffix gives the name
      back, so distinct keysets are read from distinct files. */
  function YamlFile(name: string): string
  {
    name + YamlSuffix
  }

  lemma YamlFileInjective(a: string, b: string)
    requires YamlFile(a) == YamlFile(b)
    ensures a == b
  {
    assert |a| == |b|;
    assert a == YamlFile(a)[..|a|];
  }

  /** The root file is the root keyset's own file. */
  lemma RootFile()
    ensures YamlFile(ActionCfgName) == ActionCfg
  {
  }

  /** A record the loader can place: its slot exists and its explicit
      states, if any, are non-empty. */
  predicate ValidRecord(rec: KeyRecord, count: nat)
  {
    0 <= rec.index < count && HasUsableStates(rec)
  }

  predicate ValidRecords(records: seq<KeyRecord>, count: nat)
  {
    forall i :: 0 <= i < |records| ==> ValidRecord(records[i], count)
  }

  /** Names of the "dir" records among the first `n`, in record order. */
  function DirNames(records: seq<KeyRecord>, n: nat): (names: seq<string>)
    requires n <= |records|
    ensures |names| <= n
  {
    if n == 0 then []
    else
      var prefix := DirNames(records, n - 1);
      if records[n - 1].keyType == Some("dir") then prefix + [records[n - 1].name] else prefix
  }

  /** The "dir" names are exactly the names of the records of type "dir". */
  lemma {:induction false} DirNamesMembers(records: seq<KeyRecord>, n: nat)
    requires n <= |records|
    ensures forall name :: name in DirNames(records, n) <==>
              exists i :: 0 <= i < n && records[i].keyType == Some("dir") && records[i].name == name
  {
    if n > 0 {
      DirNamesMembers(records, n - 1);
    }
  }

  /** `count` unconfigured slots. */
  function EmptySlots(count: nat): (p: Preset)
    ensures |p| == count
    ensures forall k :: 0 <= k < count ==> p[k].None?
  {
    if count == 0 then [] else EmptySlots(count - 1) + [None]
  }

  /** Every button names a slot of the deck. */
  predicate Placeable(buttons: seq<Button>, count: nat)
  {
    forall i :: 0 <= i < |buttons| ==> 0 <= buttons[i].index < count
  }

  /** The slots after writing the first `n` buttons, in order, each at its
      own index, on top of `count` empty slots. */
  function Place(buttons: seq<Button>, n: nat, count: nat): (p: Preset)
    requires Placeable(buttons, count) && n <= |buttons|
    ensures |p| == count
    ensures forall k :: 0 <= k < count && p[k].Some? ==> p[k].value.index == k
  {
    if n == 0 then EmptySlots(count)
    else Place(buttons, n - 1, count)[buttons[n - 1].index := Some(buttons[n - 1])]
  }

  /** The Button of every record, in record order. */
  function ButtonsOf(records: seq<KeyRecord>, fmt: real -> string): (buttons: seq<Button>)
    requires forall i :: 0 <= i < |records| ==> HasUsableStates(records[i])
    ensures |buttons| == |records|
    ensures forall i :: 0 <= i < |records| ==> buttons[i] == ButtonOf(records[i], fmt)
  {
    seq(|records|, i requires 0 <= i < |records| => ButtonOf(records[i], fmt))
  }

  /** The slots after placing every record's Button. */
  function Placed(records: seq<KeyRecord>, count: nat, fmt: real -> string): (p: Preset)
    requires ValidRecords(records, count)
  {
    ButtonsPlaceable(records, count, fmt);
    Place(ButtonsOf(records, fmt), |records|, count)
  }

  lemma ButtonsPlaceable(records: seq<KeyRecord>, count: nat, fmt: real -> string)
    requires ValidRecords(records, count)
    ensures Placeable(ButtonsOf(records, fmt), count)
  {
    var buttons := ButtonsOf(records, fmt);
    forall i | 0 <= i < |buttons|
      ensures 0 <= buttons[i].index < count
    {
      assert ValidRecord(records[i], count);
    }
  }

  /** No later button among the first `n` names the same slot as button `i`. */
  predicate LastAt(buttons: seq<Button>, n: nat, i: int)
    requires 0 <= i < n <= |buttons|
  {
    forall j :: i < j < n ==> buttons[j].index != buttons[i].index
  }

  lemma {:induction false} PlaceEmpty(buttons: seq<Button>, n: nat, count: nat, k: int)
    requires Placeable(buttons, count) && n <= |buttons|
    requires 0 <= k < count
    ensures Place(buttons, n, count)[k].Some? <==> exists i :: 0 <= i < n && buttons[i].index == k
  {
    if n > 0 {
      PlaceEmpty(buttons, n - 1, count, k);
    }
  }

  lemma {:induction false} PlaceLast(buttons: seq<Button>, n: nat, count: nat, i: int)
    requires Placeable(buttons, count) && n <= |buttons|
    requires 0 <= i < n && LastAt(buttons, n, i)
    ensures Place(buttons, n, count)[buttons[i].index] == Some(buttons[i])
  {
    if i < n - 1 {
      PlaceLast(buttons, n - 1, count, i);
    }
  }

  /** A slot is filled exactly when some record names it. */
  lemma PlacedEmpty(records: seq<KeyRecord>, count: nat, fmt: real -> string, k: int)
    requires ValidRecords(records, count)
    requires 0 <= k < count
    ensures Placed(records, count, fmt)[k].Some? <==> exists i :: 0 <= i < |records| && records[i].index == k
  {
    var buttons := ButtonsOf(records, fmt);
    PlaceEmpty(buttons, |buttons|, count, k);
    assert forall i :: 0 <= i < |records| ==> buttons[i].index == records[i].index;
  }

  /** A record's button ends up in its slot unless a later record names the
      same slot: the last write wins. */
  lemma PlacedLast(records: seq<KeyRecord>, count: nat, fmt: real -> string, i: int)
    requires ValidRecords(records, count)
    requires 0 <= i < |records|
    requires forall j :: i < j < |records| ==> records[j].index != records[i].index
    ensures Placed(records, count, fmt)[records[i].index] == Some(ButtonOf(records[i], fmt))
  {
    var buttons := ButtonsOf(records, fmt);
    assert forall j :: 0 <= j < |records| ==> buttons[j].index == records[j].index;
    PlaceLast(buttons, |buttons|, count, i);
  }

  lemma {:induction false} PlaceFrom(buttons: seq<Button>, n: nat, count: nat, k: int)
    requires Placeable(buttons, count) && n <= |buttons|
    requires 0 <= k < count && Place(buttons, n, count)[k].Some?
    ensures exists i :: 0 <= i < n && Place(buttons, n, count)[k] == Some(buttons[i])
  {
    if buttons[n - 1].index != k {
      PlaceFrom(buttons, n - 1, count, k);
    }
  }

  /** Every file name of every placed Button is an icon path. */
  lemma PlacedIconPaths(records: seq<KeyRecord>, count: nat, fmt: real -> string, k: int)
    requires ValidRecords(records, count)
    requires 0 <= k < count && Placed(records, count, fmt)[k].Some?
    ensures IconPaths(Placed(records, count, fmt)[k].value)
  {
    var buttons := ButtonsOf(records, fmt);
    PlaceFrom(buttons, |buttons|, count, k);
    var i :| 0 <= i < |buttons| && Placed(records, count, fmt)[k] == Some(buttons[i]);
    assert ValidRecord(records[i], count);
    ButtonOfIconPaths(records[i], fmt);
  }

  /** The loop of the loader over one file's records: each record's Button
      is written to the slot of its index, and the names of the "dir"
      records are collected. */
  method PlaceRecords(keys: seq<KeyRecord>, count: nat, fmt: real -> string)
    returns (slots: Preset, otherKeysets: seq<string>)
    requires ValidRecords(keys, count)
    ensures slots == Placed(keys, count, fmt)
    ensures otherKeysets == DirNames(keys, |keys|)
  {
    var preset := new Option<Button>[count](_ => None);
    otherKeysets := [];
    ghost var buttons := ButtonsOf(keys, fmt);
    ButtonsPlaceable(keys, count, fmt);
    for i := 0 to |keys|
      invariant preset[..] == Place(buttons, i, count)
      invariant otherKeysets == DirNames(keys, i)
    {
      var key := keys[i];
      var button := NewButton(key, fmt);
      assert button == buttons[i];
      ghost var before := preset[..];
      preset[key.index] := Some(button);
      assert preset[..] == before[key.index := Some(button)];
      if key.keyType == Some("dir") {
        otherKeysets := otherKeysets + [key.name];
      }
    }
    slots := preset[..];
  }

  /** Loads one keyset file: every record's Button in the slot of its
      index, and the names of the "dir" records; a file that does not
      exist is an error. */
  method LoadPreset(configs: Configs, file: string, count: nat, fmt: real -> string)
    returns (res: Result<Loaded, LoadError>)
    requires file in configs ==> ValidRecords(configs[file], count)
    ensures res.Err? <==> file !in configs
    ensures res.Err? ==> res.error == MissingFile(file)
    ensures res.Ok? ==> res.value.preset == Placed(configs[file], count, fmt)
    ensures res.Ok? ==> res.value.otherKeysets == DirNames(configs[file], |configs[file]|)
  {
    if file !in configs {
      return Err(MissingFile(file));
    }
    var preset, otherKeysets := PlaceRecords(configs[file], count, fmt);
    return Ok(Loaded(preset, otherKeysets));
  }

  // ---------------------------------------------------------------------
  // The keyset tree

  /** The keysets a keyset refers to: its "dir" buttons, or none when its
      file does not exist. */
  function Children(configs: Configs, name: string): seq<string>
  {
    if YamlFile(name) in configs then DirNames(configs[YamlFile(name)], |configs[YamlFile(name)]|) else []
  }

  /** A chain of references starting at the root keyset. */
  ghost predicate IsPath(configs: Configs, p: seq<string>)
  {
    |p| > 0 && p[0] == ActionCfgName
    && forall i :: 0 <= i < |p| - 1 ==> Refers(configs, p, i)
  }

  /** The `i`-th keyset of `p` refers to the next one. */
  ghost predicate Refers(configs: Configs, p: seq<string>, i: int)
    requires 0 <= i < |p| - 1
  {
    p[i + 1] in Children(configs, p[i])
  }

  ghost predicate Reachable(configs: Configs, name: string)
  {
    exists p {:trigger IsPath(configs, p)} :: IsPath(configs, p) && p[|p| - 1] == name
  }

  /** Every record of every reachable keyset's file can be placed. */
  ghost predicate ReachableRecordsValid(configs: Configs, count: nat)
  {
    forall n {:trigger Reachable(configs, n)} :: Reachable(configs, n) && YamlFile(n) in configs ==>
      ValidRecords(configs[YamlFile(n)], count)
  }

  /** Every keyset name that occurs in the files, and the root. */
  ghost function Universe(configs: Configs): set<string>
  {
    {ActionCfgName} + set f, r | f in configs && r in configs[f] :: r.name
  }

  /** A witness path for every name in `paths`. */
  ghost predicate PathsValid(configs: Configs, paths: map<string, seq<string>>)
  {
    forall x :: x in paths ==> IsPath(configs, paths[x]) && paths[x][|paths[x]| - 1] == x
  }

  lemma Witnessed(configs: Configs, paths: map<string, seq<string>>, n: string)
    requires PathsValid(configs, paths) && n in paths
    ensures Reachable(configs, n)
  {
    assert IsPath(configs, paths[n]);
  }

  /** `paths` with a path for each child of `name` that has none yet. */
  ghost function ExtendPaths(paths: map<string, seq<string>>, name: string, children: seq<string>): map<string, seq<string>>
    requires name in paths
  {
    paths + map n | n in children && n !in paths :: paths[name] + [n]
  }

  lemma ExtendPathsValid(configs: Configs, paths: map<string, seq<string>>, name: string)
    requires PathsValid(configs, paths) && name in paths
    ensures PathsValid(configs, ExtendPaths(paths, name, Children(configs, name)))
    ensures forall n :: n in Children(configs, name) ==> n in ExtendPaths(paths, name, Children(configs, name))
    ensures paths.Keys <= ExtendPaths(paths, name, Children(configs, name)).Keys
  {
    var children := Children(configs, name);
    var p := paths[name];
    forall n | n in children && n !in paths
      ensures IsPath(configs, p + [n])
    {
      var q := p + [n];
      forall i | 0 <= i < |q| - 1
        ensures Refers(configs, q, i)
      {
        if i < |p| - 1 {
          assert Refers(configs, p, i);
        }
      }
    }
  }

  /** The children of a keyset occur in the files. */
  lemma ChildrenInUniverse(configs: Configs, name: string)
    ensures forall n :: n in Children(configs, name) ==> n in Universe(configs)
  {
    forall n | n in Children(configs, name)
      ensures n in Universe(configs)
    {
      var f := YamlFile(name);
      DirNamesMembers(configs[f], |configs[f]|);
      var i :| 0 <= i < |configs[f]| && configs[f][i].keyType == Some("dir") && configs[f][i].name == n;
      assert configs[f][i] in configs[f];
    }
  }

  /** A set that holds the root and every keyset referred to by one of its
      members holds every reachable keyset. */
  lemma {:induction false} ClosedContainsReachable(configs: Configs, names: set<string>)
    requires ActionCfgName in names
    requires forall k, n :: k in names && n in Children(configs, k) ==> n in names
    ensures forall n :: Reachable(configs, n) ==> n in names
  {
    forall n | Reachable(configs, n)
      ensures n in names
    {
      var p :| IsPath(configs, p) && p[|p| - 1] == n;
      PathInside(configs, names, p, |p| - 1);
    }
  }

  lemma {:induction false} PathInside(configs: Configs, names: set<string>, p: seq<string>, i: nat)
    requires ActionCfgName in names
    requires forall k, n :: k in names && n in Children(configs, k) ==> n in names
    requires IsPath(configs, p) && i < |p|
    ensures p[i] in names
  {
    if i > 0 {
      PathInside(configs, names, p, i - 1);
      assert Refers(configs, p, i - 1);
    }
  }

  /** Every loaded or pending keyset has a witness path and occurs in the
      files, and the root is loaded. */
  ghost predicate Tracked(configs: Configs, universe: set<string>, loaded: set<string>,
                          keysets: seq<string>, paths: map<string, seq<string>>)
  {
    && ActionCfgName in loaded
    && PathsValid(configs, paths)
    && loaded <= paths.Keys
    && (forall x {:trigger x in keysets} :: x in keysets ==> x in paths)
    && loaded <= universe
    && (forall x {:trigger x in keysets} :: x in keysets ==> x in universe)
  }

  /** Every loaded keyset holds the placement of its own file. */
  ghost predicate FilesLoaded(configs: Configs, count: nat, fmt: real -> string, presets: map<string, Preset>)
  {
    forall k {:trigger presets[k]} :: k in presets ==>
      && YamlFile(k) in configs && ValidRecords(configs[YamlFile(k)], count)
      && presets[k] == Placed(configs[YamlFile(k)], count, fmt)
  }

  /** Every child of a loaded keyset is loaded or pending. */
  ghost predicate Closed(configs: Configs, loaded: set<string>, keysets: seq<string>)
  {
    forall k, n {:trigger n in Children(configs, k)} ::
      k in loaded && n in Children(configs, k) ==> n in loaded || n in keysets
  }

  /** `order` lists the loaded keysets once each. */
  ghost predicate Ordered(loaded: set<string>, order: seq<string>)
  {
    (forall n :: n in loaded <==> n in order) && Distinct(order)
  }

  /** What holds of the loader's state between two steps. */
  ghost predicate LoaderState(configs: Configs, count: nat, fmt: real -> string, universe: set<string>,
                              presets: map<string, Preset>, keysets: seq<string>,
                              paths: map<string, seq<string>>, order: seq<string>)
  {
    && Tracked(configs, universe, presets.Keys, keysets, paths)
    && FilesLoaded(configs, count, fmt, presets)
    && Closed(configs, presets.Keys, keysets)
    && Ordered(presets.Keys, order)
  }

  /** Loading `keySet` tracks its children through paths that extend its
      own. */
  lemma LoadTracked(configs: Configs, universe: set<string>, loaded: set<string>,
                    keysets: seq<string>, paths: map<string, seq<string>>, keySet: string)
    requires universe == Universe(configs)
    requires Tracked(configs, universe, loaded, keysets, paths)
    requires keySet in paths && keySet in universe
    ensures Tracked(configs, universe, loaded + {keySet}, Unique(keysets + Children(configs, keySet)),
                    ExtendPaths(paths, keySet, Children(configs, keySet)))
    ensures paths.Keys <= ExtendPaths(paths, keySet, Children(configs, keySet)).Keys
  {
    ExtendPathsValid(configs, paths, keySet);
    ChildrenInUniverse(configs, keySet);
  }

  /** Loading `keySet` records the placement of its file. */
  lemma LoadFiles(configs: Configs, count: nat, fmt: real -> string, presets: map<string, Preset>, keySet: string)
    requires FilesLoaded(configs, count, fmt, presets)
    requires YamlFile(keySet) in configs && ValidRecords(configs[YamlFile(keySet)], count)
    ensures FilesLoaded(configs, count, fmt, presets[keySet := Placed(configs[YamlFile(keySet)], count, fmt)])
  {
  }

  /** Loading `keySet` puts its children among the pending keysets. */
  lemma LoadClosed(configs: Configs, loaded: set<string>, keysets: seq<string>, keySet: string)
    requires Closed(configs, loaded, keysets)
    ensures Closed(configs, loaded + {keySet}, Unique(keysets + Children(configs, keySet)))
  {
  }

  lemma LoadOrdered(loaded: set<string>, order: seq<string>, keySet: string)
    requires Ordered(loaded, order) && keySet !in loaded
    ensures Ordered(loaded + {keySet}, order + [keySet])
  {
  }

  /** A loaded keyset leaves the pending ones without breaking closure. */
  lemma DropClosed(configs: Configs, loaded: set<string>, keysets: seq<string>, keySet: string)
    requires Closed(configs, loaded, keysets) && keySet in loaded
    ensures Closed(configs, loaded, Without(keysets, keySet))
  {
  }

  /** Loading a pending keyset that is not loaded yet keeps the loader's
      state: its placement joins the loaded ones, its children join the
      pending ones and each of them gets a witness path. */
  lemma LoadStep(configs: Configs, count: nat, fmt: real -> string, universe: set<string>,
                 presets: map<string, Preset>, keysets: seq<string>,
                 paths: map<string, seq<string>>, order: seq<string>, keySet: string)
    requires ReachableRecordsValid(configs, count)
    requires universe == Universe(configs)
    requires LoaderState(configs, count, fmt, universe, presets, keysets, paths, order)
    requires keySet in paths && keySet in universe && keySet !in presets && YamlFile(keySet) in configs
    ensures ValidRecords(configs[YamlFile(keySet)], count)
    ensures LoaderState(configs, count, fmt, universe,
                        presets[keySet := Placed(configs[YamlFile(keySet)], count, fmt)],
                        Unique(keysets + Children(configs, keySet)),
                        ExtendPaths(paths, keySet, Children(configs, keySet)),
                        order + [keySet])
    ensures paths.Keys <= ExtendPaths(paths, keySet, Children(configs, keySet)).Keys
  {
    Witnessed(configs, paths, keySet);
    var presets' := presets[keySet := Placed(configs[YamlFile(keySet)], count, fmt)];
    assert presets'.Keys == presets.Keys + {keySet};
    LoadTracked(configs, universe, presets.Keys, keysets, paths, keySet);
    LoadFiles(configs, count, fmt, presets, keySet);
    LoadClosed(configs, presets.Keys, keysets, keySet);
    LoadOrdered(presets.Keys, order, keySet);
  }

  /** One pass of the inner loop over pending keyset `keySet`: if it is not
      loaded yet, its file is loaded and its "dir" names join the pending
      ones; either way it leaves the pending list.  A missing file is
      reported as an error for a reachable keyset. */
  method VisitKeyset(configs: Configs, count: nat, fmt: real -> string, ghost universe: set<string>,
                     presets: map<string, Preset>, keysets: seq<string>,
                     ghost paths: map<string, seq<string>>, ghost order: seq<string>, keySet: string)
    returns (err: Option<LoadError>, presets': map<string, Preset>, keysets': seq<string>,
             ghost paths': map<string, seq<string>>, ghost order': seq<string>)
    requires ReachableRecordsValid(configs, count)
    requires universe == Universe(configs)
    requires LoaderState(configs, count, fmt, universe, presets, keysets, paths, order)
    requires keySet in paths && keySet in universe
    ensures err.Some? ==>
              Reachable(configs, keySet) && YamlFile(keySet) !in configs
              && err.value == MissingFile(YamlFile(keySet))
    ensures err.None? ==> LoaderState(configs, count, fmt, universe, presets', keysets', paths', order')
    ensures err.None? ==> keySet in presets' && keySet !in keysets' && presets.Keys <= presets'.Keys
    ensures err.None? ==> paths.Keys <= paths'.Keys
    ensures err.None? && keySet in presets ==>
              presets' == presets && forall x {:trigger x in keysets'} :: x in keysets' ==> x in keysets
  {
    presets', keysets', paths', order' := presets, keysets, paths, order;
    if keySet !in presets {
      Witnessed(configs, paths, keySet);
      var loaded := LoadPreset(configs, YamlFile(keySet), count, fmt);
      if loaded.Err? {
        return Some(loaded.error), presets', keysets', paths', order';
      }
      LoadStep(configs, count, fmt, universe, presets, keysets, paths, order, keySet);
      paths' := ExtendPaths(paths, keySet, Children(configs, keySet));
      presets' := presets[keySet := loaded.value.preset];
      keysets' := Unique(keysets + loaded.value.otherKeysets);
      order' := order + [keySet];
    }
    DropClosed(configs, presets'.Keys, keysets', keySet);
    keysets' := Without(keysets', keySet);
    err := None;
  }

  lemma VisitedGrows(snapshot: seq<string>, i: int, visited: set<string>)
    requires 0 <= i < |snapshot|
    requires forall j :: 0 <= j < i ==> snapshot[j] in visited
    ensures forall j :: 0 <= j < i + 1 ==> snapshot[j] in visited + {snapshot[i]}
  {
  }

  /** One round of the outer loop: a pass over the pending keysets as they
      were when the round began.  Either a new keyset gets loaded or
      nothing is left pending. */
  method LoadRound(configs: Configs, count: nat, fmt: real -> string, ghost universe: set<string>,
                   presets: map<string, Preset>, keysets: seq<string>,
                   ghost paths: map<string, seq<string>>, ghost order: seq<string>)
    returns (err: Option<LoadError>, presets': map<string, Preset>, keysets': seq<string>,
             ghost paths': map<string, seq<string>>, ghost order': seq<string>)
    requires ReachableRecordsValid(configs, count)
    requires universe == Universe(configs)
    requires LoaderState(configs, count, fmt, universe, presets, keysets, paths, order)
    ensures err.Some? ==>
              exists n :: Reachable(configs, n) && YamlFile(n) !in configs && err.value == MissingFile(YamlFile(n))
    ensures err.None? ==> LoaderState(configs, count, fmt, universe, presets', keysets', paths', order')
    ensures err.None? ==>
              presets.Keys < presets'.Keys
              || (presets' == presets && forall x {:trigger x in keysets'} :: x !in keysets')
  {
    presets', keysets', paths', order' := presets, keysets, paths, order;
    var snapshot := keysets;
    ghost var progressed := false;
    ghost var visited: set<string> := {};
    for i := 0 to |snapshot|
      invariant LoaderState(configs, count, fmt, universe, presets', keysets', paths', order')
      invariant forall x {:trigger x in snapshot} :: x in snapshot ==> x in paths' && x in universe
      invariant progressed ==> presets.Keys < presets'.Keys
      invariant !progressed ==> presets' == presets
      invariant !progressed ==> forall x {:trigger x in keysets'} :: x in keysets' ==> x in snapshot
      invariant forall j :: 0 <= j < i ==> snapshot[j] in visited
      invariant !progressed ==> forall x {:trigger x in keysets'} :: x in keysets' ==> x !in visited
    {
      var keySet := snapshot[i];
      assert keySet in snapshot;
      var wasLoaded := keySet in presets';
      err, presets', keysets', paths', order' :=
        VisitKeyset(configs, count, fmt, universe, presets', keysets', paths', order', keySet);
      if err.Some? {
        return;
      }
      if !wasLoaded {
        progressed := true;
      }
      VisitedGrows(snapshot, i, visited);
      visited := visited + {keySet};
    }
    err := None;
  }

  ghost function Elements(s: seq<string>): set<string>
  {
    set x | x in s
  }

  /** Once nothing is pending, the loaded keysets are exactly the reachable
      ones, each read from its own file. */
  lemma LoadComplete(configs: Configs, count: nat, fmt: real -> string, universe: set<string>,
                     presets: map<string, Preset>, pending: seq<string>,
                     paths: map<string, seq<string>>, order: seq<string>)
    requires LoaderState(configs, count, fmt, universe, presets, pending, paths, order)
    requires forall x {:trigger x in pending} :: x !in pending
    ensures forall n :: n in presets <==> Reachable(configs, n)
    ensures forall i, j :: 0 <= i < j < |order| ==> YamlFile(order[i]) != YamlFile(order[j])
  {
    assert forall k, n :: k in presets && n in Children(configs, k) ==> n in presets;
    ClosedContainsReachable(configs, presets.Keys);
    forall n | n in presets
      ensures Reachable(configs, n)
    {
      Witnessed(configs, paths, n);
    }
    forall i, j | 0 <= i < j < |order|
      ensures YamlFile(order[i]) != YamlFile(order[j])
    {
      if YamlFile(order[i]) == YamlFile(order[j]) {
        YamlFileInjective(order[i], order[j]);
      }
    }
  }

  /** Loads the root keyset and then, round after round, every keyset named
      by a "dir" button of a loaded one, until nothing is pending.  The
      ghost `order` lists the keysets in the order their files are read. */
  method LoadAllPresets(configs: Configs, count: nat, fmt: real -> string)
    returns (res: Result<map<string, Preset>, LoadError>, ghost order: seq<string>)
    requires ReachableRecordsValid(configs, count)
    ensures res.Ok? <==> forall n :: Reachable(configs, n) ==> YamlFile(n) in configs
    ensures res.Err? ==>
              exists n :: Reachable(configs, n) && YamlFile(n) !in configs && res.error == MissingFile(YamlFile(n))
    ensures res.Ok? ==> ActionCfgName in res.value
    ensures res.Ok? ==> forall n :: n in res.value <==> Reachable(configs, n)
    ensures res.Ok? ==> forall n :: n in res.value ==>
              YamlFile(n) in configs && res.value[n] == Placed(configs[YamlFile(n)], count, fmt)
    ensures res.Ok? ==> forall n :: n in res.value <==> n in order
    ensures res.Ok? ==> forall i, j :: 0 <= i < j < |order| ==> YamlFile(order[i]) != YamlFile(order[j])
  {
    order := [];
    ghost var paths := map[ActionCfgName := [ActionCfgName]];
    assert IsPath(configs, [ActionCfgName]);
    Witnessed(configs, paths, ActionCfgName);
    RootFile();
    var root := LoadPreset(configs, ActionCfg, count, fmt);
    if root.Err? {
      return Err(root.error), order;
    }
    ExtendPathsValid(configs, paths, ActionCfgName);
    ChildrenInUniverse(configs, ActionCfgName);
    paths := ExtendPaths(paths, ActionCfgName, Children(configs, ActionCfgName));
    var presets := map[ActionCfgName := root.value.preset];
    var keysets := root.value.otherKeysets;
    order := [ActionCfgName];
    ghost var universe := Universe(configs);

    while |keysets| > 0
      invariant LoaderState(configs, count, fmt, universe, presets, keysets, paths, order)
      decreases universe - presets.Keys, Elements(keysets)
    {
      assert keysets[0] in Elements(keysets);
      var err;
      err, presets, keysets, paths, order := LoadRound(configs, count, fmt, universe, presets, keysets, paths, order);
      if err.Some? {
        return Err(err.value), order;
      }
    }
    LoadComplete(configs, count, fmt, universe, presets, keysets, paths, order);
    res := Ok(presets);
  }
}
