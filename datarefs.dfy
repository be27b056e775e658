/** The X-Plane dataref table: for every loaded keyset, the keys that are
    bound to a dataref, each described by the fields the simulator link
    needs. */
module Datarefs {
  import opened Common
  import opened Buttons
  import opened Presets

  /** The description of one dataref-bound key.  The states and their range
      are copied as the Button holds them. */
  datatype DatarefEntry = DatarefEntry(
    name: string,
    index: int,
    icon: string,
    dataref: string,
    multiplier: real,
    states: Option<seq<real>>,
    fileNames: seq<string>,
    current: Option<real>,
    min: Option<real>,
    max: Option<real>)

  /** A key is bound when its dataref is present and not empty (the truth
      value of the dataref text). */
  predicate IsBound(b: Button)
  {
    b.dataref.Some? && b.dataref.value != ""
  }

  function EntryOf(b: Button): DatarefEntry
    requires IsBound(b)
  {
    DatarefEntry(b.name, b.index, b.icon, b.dataref.value, b.datarefMultiplier,
                 b.datarefStates, b.fileNames, b.current, b.datarefMin, b.datarefMax)
  }

  /** The slot holds a bound key. */
  predicate BoundAt(preset: Preset, i: int)
    requires 0 <= i < |preset|
  {
    preset[i].Some? && IsBound(preset[i].value)
  }

  /** The entries of one keyset: its bound keys, in slot order. */
  function BoundEntries(preset: Preset): seq<DatarefEntry>
  {
    if |preset| == 0 then []
    else
      var last := |preset| - 1;
      BoundEntries(preset[..last]) + if BoundAt(preset, last) then [EntryOf(preset[last].value)] else []
  }

  /** Every key occupies the slot of its own index (what the loader builds). */
  predicate SlotIndexed(preset: Preset)
  {
    forall k :: 0 <= k < |preset| && preset[k].Some? ==> preset[k].value.index == k
  }

  predicate AllWellFormed(preset: Preset)
  {
    forall k :: 0 <= k < |preset| && preset[k].Some? ==> WellFormed(preset[k].value)
  }

  /** An entry is listed exactly when it describes a bound key of the keyset. */
  lemma {:induction false} BoundEntriesMembers(preset: Preset)
    ensures forall e :: e in BoundEntries(preset) <==>
              exists i :: 0 <= i < |preset| && BoundAt(preset, i) && e == EntryOf(preset[i].value)
  {
    if |preset| > 0 {
      var last := |preset| - 1;
      var prefix := preset[..last];
      BoundEntriesMembers(prefix);
      forall e | e in BoundEntries(preset)
        ensures exists i :: 0 <= i < |preset| && BoundAt(preset, i) && e == EntryOf(preset[i].value)
      {
        if e in BoundEntries(prefix) {
          var i :| 0 <= i < |prefix| && BoundAt(prefix, i) && e == EntryOf(prefix[i].value);
          assert preset[i] == prefix[i];
        }
      }
      forall e, i | 0 <= i < |preset| && BoundAt(preset, i) && e == EntryOf(preset[i].value)
        ensures e in BoundEntries(preset)
      {
        if i < last {
          assert prefix[i] == preset[i];
          assert BoundAt(prefix, i);
        }
      }
    }
  }

  /** There is one entry per bound slot: never more entries than slots. */
  lemma {:induction false} BoundEntriesLength(preset: Preset)
    ensures |BoundEntries(preset)| <= |preset|
    ensures |BoundEntries(preset)| == |preset| <==> forall i :: 0 <= i < |preset| ==> BoundAt(preset, i)
  {
    if |preset| > 0 {
      var last := |preset| - 1;
      var prefix := preset[..last];
      BoundEntriesLength(prefix);
      if forall i :: 0 <= i < |preset| ==> BoundAt(preset, i) {
        forall i | 0 <= i < |prefix|
          ensures BoundAt(prefix, i)
        {
          assert prefix[i] == preset[i];
          assert BoundAt(preset, i);
        }
      } else if BoundAt(preset, last) {
        var j :| 0 <= j < |preset| && !BoundAt(preset, j);
        assert prefix[j] == preset[j];
        assert !BoundAt(prefix, j);
      }
    }
  }

  /** In a keyset built by the loader the entries come in strictly
      increasing key order, each with an index inside the deck. */
  lemma {:induction false} BoundEntriesInSlotOrder(preset: Preset)
    requires SlotIndexed(preset)
    ensures forall a :: 0 <= a < |BoundEntries(preset)| ==> 0 <= BoundEntries(preset)[a].index < |preset|
    ensures forall a, b :: 0 <= a < b < |BoundEntries(preset)| ==>
              BoundEntries(preset)[a].index < BoundEntries(preset)[b].index
  {
    if |preset| > 0 {
      var last := |preset| - 1;
      var prefix := preset[..last];
      assert SlotIndexed(prefix) by {
        forall k | 0 <= k < |prefix| && prefix[k].Some?
          ensures prefix[k].value.index == k
        {
          assert prefix[k] == preset[k];
        }
      }
      BoundEntriesInSlotOrder(prefix);
    }
  }

  /** The entry of a key built by the constructor has states and a range
      that brackets them. */
  lemma BoundEntriesHaveRange(preset: Preset, e: DatarefEntry)
    requires AllWellFormed(preset)
    requires e in BoundEntries(preset)
    ensures e.states.Some? && e.min.Some? && e.max.Some?
    ensures StatesBounded(e.states.value, e.min.value, e.max.value)
  {
    BoundEntriesMembers(preset);
    var i :| 0 <= i < |preset| && BoundAt(preset, i) && e == EntryOf(preset[i].value);
    assert WellFormed(preset[i].value);
  }

  /** The scan of one keyset: empty slots are skipped, bound keys appended. */
  method CollectDatarefs(preset: Preset) returns (entries: seq<DatarefEntry>)
    ensures entries == BoundEntries(preset)
  {
    entries := [];
    for i := 0 to |preset|
      invariant entries == BoundEntries(preset[..i])
    {
      assert preset[..i + 1][..i] == preset[..i];
      if preset[i].None? {
        continue;
      }
      var button := preset[i].value;
      if IsBound(button) {
        entries := entries + [EntryOf(button)];
      }
    }
    assert preset[..|preset|] == preset;
  }

  /** The table for all keysets: one list of entries per keyset name. */
  method LoadDatarefs(presets: map<string, Preset>) returns (all: map<string, seq<DatarefEntry>>)
    ensures all.Keys == presets.Keys
    ensures forall name :: name in presets ==> all[name] == BoundEntries(presets[name])
  {
    all := map[];
    var rest := presets.Keys;
    while rest != {}
      invariant rest <= presets.Keys
      invariant all.Keys == presets.Keys - rest
      invariant forall name :: name in all ==> all[name] == BoundEntries(presets[name])
      decreases rest
    {
      var name :| name in rest;
      var entries := CollectDatarefs(presets[name]);
      all := all[name := entries];
      rest := rest - {name};
    }
  }

  /** A keyset the loader built satisfies what the lemmas above ask for. */
  lemma PlacedIsSlotIndexed(records: seq<KeyRecord>, count: nat, fmt: real -> string)
    requires ValidRecords(records, count)
    ensures SlotIndexed(Placed(records, count, fmt)) && AllWellFormed(Placed(records, count, fmt))
  {
    var buttons := ButtonsOf(records, fmt);
    forall k | 0 <= k < count && Placed(records, count, fmt)[k].Some?
      ensures WellFormed(Placed(records, count, fmt)[k].value)
    {
      PlaceFrom(buttons, |buttons|, count, k);
      var i :| 0 <= i < |buttons| && Placed(records, count, fmt)[k] == Some(buttons[i]);
      assert ValidRecord(records[i], count);
      ButtonOfWellFormed(records[i], fmt);
    }
  }
}
