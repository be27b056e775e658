/** The key images: every icon file named by a loaded keyset is rendered
    once and kept under its file name.  Rendering itself (opening the file,
    scaling it to the key, converting it to the deck's format) is the
    parameter `render`. */
module Images {
  import opened Common
  import opened Buttons
  import opened Presets

  /** The name under which the image for a blank key is kept. */
  const NoneImage: string := "none.png"

  /** The file names of the keys of one keyset, in slot order, repetitions
      included. */
  function FilesOf(preset: Preset): seq<string>
  {
    if |preset| == 0 then []
    else
      var last := |preset| - 1;
      FilesOf(preset[..last]) + if preset[last].Some? then preset[last].value.fileNames else []
  }

  /** A file name is listed exactly when some key of the keyset names it. */
  lemma {:induction false} FilesOfMembers(preset: Preset)
    ensures forall f :: f in FilesOf(preset) <==>
              exists i :: 0 <= i < |preset| && preset[i].Some? && f in preset[i].value.fileNames
  {
    if |preset| > 0 {
      var last := |preset| - 1;
      var prefix := preset[..last];
      FilesOfMembers(prefix);
      forall f | f in FilesOf(preset)
        ensures exists i :: 0 <= i < |preset| && preset[i].Some? && f in preset[i].value.fileNames
      {
        if f in FilesOf(prefix) {
          var i :| 0 <= i < |prefix| && prefix[i].Some? && f in prefix[i].value.fileNames;
          assert preset[i] == prefix[i];
        }
      }
      forall f, i | 0 <= i < |preset| && preset[i].Some? && f in preset[i].value.fileNames
        ensures f in FilesOf(preset)
      {
        if i < last {
          assert prefix[i] == preset[i];
        }
      }
    }
  }

  /** Every key's file names are icon paths. */
  predicate AllIconPaths(preset: Preset)
  {
    forall k :: 0 <= k < |preset| && preset[k].Some? ==> IconPaths(preset[k].value)
  }

  /** The blank-key image is kept under a name that is not an icon path, so
      no keyset built by the constructor can overwrite it. */
  lemma NoneImageNotListed(preset: Preset)
    requires AllIconPaths(preset)
    ensures NoneImage !in FilesOf(preset)
  {
    FilesOfMembers(preset);
    assert !IsIconPath(NoneImage);
  }

  /** A keyset the loader built has only icon paths as file names. */
  lemma PlacedAllIconPaths(records: seq<KeyRecord>, count: nat, fmt: real -> string)
    requires ValidRecords(records, count)
    ensures AllIconPaths(Placed(records, count, fmt))
  {
    forall k | 0 <= k < count && Placed(records, count, fmt)[k].Some?
      ensures IconPaths(Placed(records, count, fmt)[k].value)
    {
      PlacedIconPaths(records, count, fmt, k);
    }
  }

  /** The elements of a sequence as a set. */
  ghost function Names(s: seq<string>): set<string>
  {
    set f | f in s
  }

  /** `images` holds the rendering of exactly the names in `met`, and
      `rendered` lists those names in the order they were first met. */
  ghost predicate Table<Img>(images: map<string, Img>, rendered: seq<string>, met: seq<string>, render: string -> Img)
  {
    && images.Keys == Names(met)
    && (forall f :: f in images ==> images[f] == render(f))
    && rendered == Unique(met)
  }

  /** Meeting a new name: it is rendered, added, and listed last. */
  lemma RenderAdd<Img>(images: map<string, Img>, rendered: seq<string>, met: seq<string>,
                       name: string, render: string -> Img)
    requires Table(images, rendered, met, render) && name !in images
    ensures Table(images[name := render(name)], rendered + [name], met + [name], render)
  {
    assert name !in met;
    UniqueSnoc(met, name);
    NamesSnoc(met, name);
    assert images[name := render(name)].Keys == images.Keys + {name};
  }

  /** Meeting a known name changes nothing. */
  lemma RenderSkip<Img>(images: map<string, Img>, rendered: seq<string>, met: seq<string>,
                        name: string, render: string -> Img)
    requires Table(images, rendered, met, render) && name in images
    ensures Table(images, rendered, met + [name], render)
  {
    assert name in met;
    UniqueSnoc(met, name);
    NamesSnoc(met, name);
  }

  lemma NamesSnoc(s: seq<string>, x: string)
    ensures Names(s + [x]) == Names(s) + {x}
  {
    forall f
      ensures f in s + [x] <==> f in s || f == x
    {
    }
  }

  /** The scan over one key's file names: a name not yet in the table is
      rendered and added, a known one is skipped.  Given a table holding
      the names `seen` so far, the result holds `seen + names`. */
  method RenderNew<Img>(images: map<string, Img>, ghost rendered: seq<string>, ghost seen: seq<string>,
                        names: seq<string>, render: string -> Img)
    returns (images': map<string, Img>, ghost rendered': seq<string>)
    requires Table(images, rendered, seen, render)
    ensures Table(images', rendered', seen + names, render)
  {
    images', rendered' := images, rendered;
    ghost var met := seen;
    for j := 0 to |names|
      invariant met == seen + names[..j]
      invariant Table(images', rendered', met, render)
    {
      var name := names[j];
      assert names[..j + 1] == names[..j] + [name];
      if name !in images' {
        RenderAdd(images', rendered', met, name, render);
        images' := images'[name := render(name)];
        rendered' := rendered' + [name];
      } else {
        RenderSkip(images', rendered', met, name, render);
      }
      met := met + [name];
    }
    assert names[..|names|] == names;
  }

  /** The images of one keyset: every file name of every key, rendered the
      first time it is met.  `rendered` lists the renderings in the order
      they happen: each distinct file name exactly once. */
  method LoadImagesDatarefs<Img>(preset: Preset, render: string -> Img)
    returns (images: map<string, Img>, ghost rendered: seq<string>)
    ensures images.Keys == Names(FilesOf(preset))
    ensures forall f :: f in images ==> images[f] == render(f)
    ensures rendered == Unique(FilesOf(preset))
  {
    images := map[];
    rendered := [];
    for i := 0 to |preset|
      invariant Table(images, rendered, FilesOf(preset[..i]), render)
    {
      assert preset[..i + 1][..i] == preset[..i];
      if preset[i].None? {
        assert FilesOf(preset[..i + 1]) == FilesOf(preset[..i]);
        continue;
      }
      assert FilesOf(preset[..i + 1]) == FilesOf(preset[..i]) + preset[i].value.fileNames;
      images, rendered := RenderNew(images, rendered, FilesOf(preset[..i]), preset[i].value.fileNames, render);
    }
    assert preset[..|preset|] == preset;
  }

  /** Some keyset among `names` lists the file `f`. */
  ghost predicate Listed(presets: map<string, Preset>, names: set<string>, f: string)
  {
    exists n :: n in names && n in presets && f in FilesOf(presets[n])
  }

  /** The images of all keysets, merged into one table that starts with the
      blank-key image (rendered from the static icon `none`).  A later
      keyset's entry replaces an earlier one with the same name. */
  method LoadImagesDatarefsAll<Img>(presets: map<string, Preset>, render: string -> Img)
    returns (all: map<string, Img>)
    ensures forall f :: f in all <==> f == NoneImage || Listed(presets, presets.Keys, f)
    ensures forall f :: f in all && f != NoneImage ==> all[f] == render(f)
    ensures all[NoneImage] ==
              if Listed(presets, presets.Keys, NoneImage) then render(NoneImage) else render(StaticPng("none"))
  {
    all := map[NoneImage := render(StaticPng("none"))];
    var rest := presets.Keys;
    while rest != {}
      invariant rest <= presets.Keys
      invariant forall f :: f in all <==> f == NoneImage || Listed(presets, presets.Keys - rest, f)
      invariant forall f :: f in all && f != NoneImage ==> all[f] == render(f)
      invariant all[NoneImage] ==
                  if Listed(presets, presets.Keys - rest, NoneImage) then render(NoneImage) else render(StaticPng("none"))
      decreases rest
    {
      var name :| name in rest;
      var images, _ := LoadImagesDatarefs(presets[name], render);
      ghost var done := presets.Keys - rest;
      forall f
        ensures Listed(presets, done + {name}, f) <==> Listed(presets, done, f) || f in images
      {
        if f in images {
          assert f in Names(FilesOf(presets[name]));
        }
      }
      all := all + images;
      rest := rest - {name};
      assert presets.Keys - rest == done + {name};
    }
  }

  /** When every keyset was built by the constructor, the blank-key image is
      the one rendered from the static icon `none`. */
  lemma NoneImageKept(presets: map<string, Preset>)
    requires forall n :: n in presets ==> AllIconPaths(presets[n])
    ensures !Listed(presets, presets.Keys, NoneImage)
  {
    if Listed(presets, presets.Keys, NoneImage) {
      var n :| n in presets.Keys && n in presets && NoneImage in FilesOf(presets[n]);
      NoneImageNotListed(presets[n]);
    }
  }

  /** For the keysets the loader returns, the blank-key image is the one
      rendered from the static icon `none`. */
  lemma LoadedKeepNoneImage(configs: Configs, count: nat, fmt: real -> string, presets: map<string, Preset>)
    requires forall n :: n in presets ==>
               YamlFile(n) in configs && ValidRecords(configs[YamlFile(n)], count)
               && presets[n] == Placed(configs[YamlFile(n)], count, fmt)
    ensures !Listed(presets, presets.Keys, NoneImage)
  {
    forall n | n in presets
      ensures AllIconPaths(presets[n])
    {
      PlacedAllIconPaths(configs[YamlFile(n)], count, fmt);
    }
    NoneImageKept(presets);
  }
}
