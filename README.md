# StreamDeck preset preprocessing, modelled in Dafny

This project models the bookkeeping layer of the X-Plane StreamDeck tool
(`preprocessing.py`). That layer:

- turns the key records of a keyset file into `Button` values, filling in
  defaults, dataref states, their range and the icon file names;
- places the buttons of one keyset in a fixed-length slot array, indexed by
  key position, and collects the names of its `"dir"` keys;
- starting from the root keyset `actions`, loads every keyset reachable
  through `"dir"` keys, each one exactly once;
- builds the dataref table: the dataref-bound keys of every keyset, in slot
  order;
- builds the image tables: one rendered image per distinct icon file, plus
  the blank-key image `none.png`.

Inputs the original reads from outside are parameters of the model:

- the parsed YAML files are `Configs`, a map from file name to the records
  of its `actions` list, where an absent name is a file that does not exist;
- `str(state)` is `fmt: real -> string`;
- `render_key_image` (with its deck and font) is `render: string -> Img`.

Modules, one file each:

- `common.dfy` (`Common`): `Option`, `Result`, and the two worklist
  operations. `Unique` is first-occurrence deduplication. `Without` removes
  every occurrence of one element.
- `buttons.dfy` (`Buttons`): the icon path helpers, `KeyRecord`, `Button`,
  the function `ButtonOf` that specifies the constructor, and the method
  `NewButton` that fills the file-name array as the constructor does.
- `presets.dfy` (`Presets`): `load_preset` and `load_all_presets`. A ghost
  map of witness paths proves that everything loaded is reachable. A
  closure argument proves that everything reachable is loaded.
- `datarefs.dfy` (`Datarefs`): `load_datarefs`.
- `images.dfy` (`Images`): `load_images_datarefs` and
  `load_images_datarefs_all`.

## Model

| member | source | states |
|---|---|---|
| Buttons.StaticPngShape | preprocessing.py:24-25 | `icons/<icon>.png` starts with `icons/`, ends with `.png`, and its stem is the icon name |
| Buttons.StaticPngInjective | preprocessing.py:24-25 | two static icon paths are equal exactly when the icon names are equal |
| Buttons.DatarefPngShape | preprocessing.py:28-29 | `icons/<icon>.<state>.png` starts with `icons/`, ends with `.png`, and its stem is icon, dot, state text |
| Buttons.SeqMin | preprocessing.py:59 | the minimum of non-empty states is one of the states and at most every state |
| Buttons.SeqMax | preprocessing.py:60 | the maximum of non-empty states is one of the states and at least every state |
| Buttons.StaticNames | preprocessing.py:80-83 | one path per explicit file name, same length, entry `i` is the static path of name `i` |
| Buttons.StateNames | preprocessing.py:84-87 | one path per state, same length, entry `i` is the state path of state `i` |
| Buttons.FillStaticNames | preprocessing.py:81-83 | the array filled slot by slot holds exactly `StaticNames` of the given names |
| Buttons.FillStateNames | preprocessing.py:85-87 | the array filled slot by slot holds exactly `StateNames` of the states |
| Buttons.NewButton | preprocessing.py:32-90 | the constructor's field assignments and file-name loops build exactly `ButtonOf(rec, fmt)` |
| Buttons.ButtonOfFields | preprocessing.py:37-78 | index, name, icon, type, dataref and commands are copied; multiplier defaults to 1.0; auto-switch is true when absent, else the given value; switch direction starts at 1; current is the dataref default |
| Buttons.ButtonOfStates | preprocessing.py:48-60 | explicit states are kept with their minimum and maximum; a dataref without states gets `[0.0, 1.0]` with range 0.0 to 1.0; otherwise no states and no range |
| Buttons.ButtonOfWellFormed | preprocessing.py:48-60 | a dataref implies states, and the range exists exactly when states do and brackets them |
| Buttons.ButtonOfFileNames | preprocessing.py:80-90 | file names follow the three rules in priority order: explicit names, else one per state in state order, else the icon alone |
| Buttons.ButtonOfIconPaths | preprocessing.py:80-90 | every file name of a constructed Button is an icon path |
| Presets.YamlFileInjective | preprocessing.py:140-141 | distinct keyset names are read from distinct files |
| Presets.RootFile | preprocessing.py:15-16 | the root keyset `actions` is read from `actions.yaml` |
| Presets.DirNamesMembers | preprocessing.py:134-135 | the collected names are exactly the names of the records of type `"dir"` |
| Presets.EmptySlots | preprocessing.py:107 | the new slot array has one empty slot per deck key |
| Presets.PlacedEmpty | preprocessing.py:107-114 | a slot is filled exactly when some record names it as its index |
| Presets.PlacedLast | preprocessing.py:110-114 | a record's Button ends up in its slot unless a later record names the same slot |
| Presets.PlacedIconPaths | preprocessing.py:110-133 | every file name of every placed Button is an icon path |
| Presets.PlaceRecords | preprocessing.py:107-135 | the loop over the records writes each Button to its slot and collects the `"dir"` names in record order |
| Presets.LoadPreset | preprocessing.py:97-137 | a missing file is an error naming it; otherwise the slots are the placement of the file's records and the `"dir"` names are returned |
| Presets.ClosedContainsReachable | preprocessing.py:150-157 | a set holding the root and every child of its members holds every reachable keyset |
| Presets.LoadStep | preprocessing.py:152-155 | loading a new pending keyset keeps the loader state: its placement is recorded, its children become pending with witness paths, and it is listed once |
| Presets.VisitKeyset | preprocessing.py:151-157 | one inner step loads the keyset if it is new, then removes it from the pending list; a missing file is an error for a reachable keyset |
| Presets.LoadRound | preprocessing.py:151-157 | a pass over the pending snapshot either loads a new keyset or leaves nothing pending |
| Presets.LoadComplete | preprocessing.py:150-159 | when nothing is pending, the loaded keysets are exactly the reachable ones, read from distinct files |
| Presets.LoadAllPresets | preprocessing.py:144-159 | terminates; fails exactly when a reachable keyset's file is missing; otherwise holds `actions` and exactly the reachable keysets, each the placement of its own file, each loaded once |
| Common.Unique | preprocessing.py:155 | the merged worklist holds the same elements without repetitions |
| Common.UniqueSnoc | preprocessing.py:225-227 | meeting one more element appends it only if it is new |
| Common.Without | preprocessing.py:157 | the processed keyset is removed from the worklist and nothing else is |
| Datarefs.BoundEntriesMembers | preprocessing.py:172-188 | an entry is listed exactly when it describes a non-empty slot whose Button has a non-empty dataref |
| Datarefs.BoundEntriesLength | preprocessing.py:172-188 | there are never more entries than slots, and as many exactly when every slot is bound |
| Datarefs.BoundEntriesInSlotOrder | preprocessing.py:172-188 | for a keyset built by the loader, entry indices are in the deck and strictly increasing |
| Datarefs.BoundEntriesHaveRange | preprocessing.py:176-187 | every entry of a constructed Button has states, a minimum and a maximum that bracket them |
| Datarefs.PlacedIsSlotIndexed | preprocessing.py:110-114 | every Button placed by the loader sits in the slot of its own index and is well formed |
| Datarefs.CollectDatarefs | preprocessing.py:171-188 | the scan of one keyset, skipping empty slots, yields exactly its bound entries in slot order |
| Datarefs.LoadDatarefs | preprocessing.py:168-191 | one entry list per keyset name, each exactly that keyset's bound entries |
| Images.FilesOfMembers | preprocessing.py:220-224 | a file name is met exactly when some non-empty slot's Button lists it |
| Images.RenderAdd | preprocessing.py:225-227 | a file name not yet in the table is rendered, added, and logged once |
| Images.RenderSkip | preprocessing.py:225 | a file name already in the table changes nothing |
| Images.RenderNew | preprocessing.py:224-227 | the scan over one Button's file names extends the table to the names met so far |
| Images.LoadImagesDatarefs | preprocessing.py:218-229 | the table holds exactly the file names of the keyset, each the rendering of itself, and each distinct name is rendered once, in first-occurrence order |
| Images.LoadImagesDatarefsAll | preprocessing.py:232-238 | the keys are `none.png` and every file name of every keyset; each file maps to its rendering; `none.png` maps to the rendering of `icons/none.png` unless a keyset lists `none.png` itself |
| Images.NoneImageNotListed | preprocessing.py:233 | a keyset whose file names are all icon paths never lists `none.png` |
| Images.PlacedAllIconPaths | preprocessing.py:110-133 | a keyset built by the loader has only icon paths as file names |
| Images.NoneImageKept | preprocessing.py:233-236 | when all keysets have only icon paths, `none.png` is not overwritten |
| Images.LoadedKeepNoneImage | preprocessing.py:233-236 | for the keysets the loader returns, the blank-key image stays the rendering of `icons/none.png` |

## Left out

- YAML parsing, `open`, `glob` and `count_presets` (preprocessing.py:93-104) are file I/O. The parsed files are the input map `Configs`, and a file that cannot be opened is the error `MissingFile`.
- The malformed-YAML branch (preprocessing.py:101-102) prints a message and then fails on an unbound variable. It is not modelled.
- `render_key_image` (preprocessing.py:201-215) does pixel work in external imaging libraries. It is the uninterpreted parameter `render`.
- Floating point: states and multipliers are reals, `float(...)` is the identity, and the text of a state is the parameter `fmt`.
- Common.Unique: `np.unique` also sorts the worklist. Only deduplication is modelled, so the order in which pending keysets are visited differs. The result does not depend on that order.
- The icon paths are `"icons/" + name`. The `os.path.join` behaviour for absolute names is not modelled.
- Presets.LoadPreset: requires every record's index to lie in the deck. Negative indices wrapping around and the IndexError for larger ones are not modelled.
- Buttons.ButtonOf: requires explicit states to be non-empty. For an empty list, `min` raises ValueError, and that is not modelled.
- Presets.LoadAllPresets: requires the above only of the records of reachable keysets' files, which are the only ones read.
- Records are assumed to carry a name, an icon and an integer index. YAML values of other types, and `None` for these fields, are not modelled.
- Buttons are values. The main loop that later updates `current` and `switch_direction` is not part of this model, and neither is the aliasing of the `file_names` array between a Button and its dataref entry.
- The tables are maps, so the insertion order of Python dicts is not modelled.
- Which of several missing files is reported first is not modelled. The error names some reachable keyset whose file is missing.
