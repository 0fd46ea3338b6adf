/**
 * What the assembled document looks like: unique well names in plate order,
 * and which records can be placed.
 */
module AssemblyFacts {
  import opened Wrappers
  import opened Text
  import opened Seqs
  import opened Panel
  import opened Plate
  import opened Ids
  import opened Items
  import opened Assembly

  // ---------------------------------------------------------------- well names

  /** Adding a well whose name is taken changes the distinct names no more than naming it again. */
  lemma WithWellNames(wells: seq<WellItem>, w: WellItem, rest: seq<string>)
    ensures Dedup(NamesOf(WithWell(wells, w)) + rest) == Dedup(NamesOf(wells) + [w.wellName] + rest)
  {
    var a := NamesOf(wells);
    var x := w.wellName;
    if HasWell(wells, x) {
      assert x in a;
      DedupConcat(a + [x], rest);
      DedupSnoc(a, x);
      DedupConcat(a, rest);
    } else {
      assert NamesOf(wells + [w]) == a + [x];
    }
  }

  /** The blank-well loop leaves the distinct names of the old wells followed by the blank wells. */
  lemma {:induction false} AddBlankWellsNames(wells: seq<WellItem>, channels: seq<Channel>, names: seq<string>,
                                             exposures: map<string, Table>, id: string)
    requires NoDup(NamesOf(wells))
    requires AddBlankWells(wells, channels, names, exposures, id).Ok?
    ensures NamesOf(AddBlankWells(wells, channels, names, exposures, id).value) == Dedup(NamesOf(wells) + names)
    decreases |names|
  {
    if names == [] {
      assert NamesOf(wells) + names == NamesOf(wells);
      DedupOfNoDup(NamesOf(wells));
    } else {
      var w := BlankWell(names[0], id, MergeExposures(channels, exposures[names[0]]));
      var u := WithWell(wells, w);
      var rest := AddBlankWells(u, channels, names[1..], exposures, id);
      assert AddBlankWells(wells, channels, names, exposures, id) == rest;
      AddBlankWellsNames(u, channels, names[1..], exposures, id);
      NamesStep(wells, w, names[1..], rest.value);
      assert [names[0]] + names[1..] == names;
    }
  }

  /** Naming a well and then the rest yields the same distinct names whether or not the well was added. */
  lemma NamesStep(wells: seq<WellItem>, w: WellItem, rest: seq<string>, result: seq<WellItem>)
    requires NamesOf(result) == Dedup(NamesOf(WithWell(wells, w)) + rest)
    ensures NamesOf(result) == Dedup(NamesOf(wells) + ([w.wellName] + rest))
  {
    WithWellNames(wells, w, rest);
    assert NamesOf(wells) + [w.wellName] + rest == NamesOf(wells) + ([w.wellName] + rest);
  }

  /** The cycle-well loop leaves the distinct names of the old wells followed by the cycle wells. */
  lemma {:induction false} AddDefaultWellsNames(wells: seq<WellItem>, channels: seq<Channel>, names: seq<string>)
    requires NoDup(NamesOf(wells))
    ensures NamesOf(AddDefaultWells(wells, channels, names)) == Dedup(NamesOf(wells) + names)
    decreases |names|
  {
    if names == [] {
      assert NamesOf(wells) + names == NamesOf(wells);
      DedupOfNoDup(NamesOf(wells));
    } else {
      var w := DefaultWell(names[0], ChannelTable(channels));
      var u := WithWell(wells, w);
      var rest := AddDefaultWells(u, channels, names[1..]);
      assert AddDefaultWells(wells, channels, names) == rest;
      AddDefaultWellsNames(u, channels, names[1..]);
      NamesStep(wells, w, names[1..], rest);
      assert [names[0]] + names[1..] == names;
    }
  }

  /** Placing records renames nothing. */
  lemma {:induction false} ApplyRecordsNames(wells: seq<WellItem>, records: seq<MarkerRecord>, ids: seq<string>,
                                            wellMap: CycleWellMap)
    requires |ids| == |records|
    requires ApplyRecords(wells, records, ids, wellMap).Ok?
    ensures NamesOf(ApplyRecords(wells, records, ids, wellMap).value) == NamesOf(wells)
    decreases |records|
  {
    if records != [] {
      var w := Lookup(wellMap, records[0].cycle).value;
      var next := UpdatedWells(wells, w, records[0].channel, RecordItem(records[0], ids[0])).value;
      ApplyRecordsNames(next, records[1..], ids[1..], wellMap);
    }
  }

  /** A slot that no record targets keeps its item through the record loop. */
  lemma {:induction false} ApplyRecordsFrame(wells: seq<WellItem>, records: seq<MarkerRecord>, ids: seq<string>,
                                             wellMap: CycleWellMap, name: string, channel: string)
    requires |ids| == |records|
    requires ApplyRecords(wells, records, ids, wellMap).Ok?
    requires forall m :: 0 <= m < |records| ==>
      Lookup(wellMap, records[m].cycle) != Some(name) || records[m].channel != channel
    ensures Slot(ApplyRecords(wells, records, ids, wellMap).value, name, channel) == Slot(wells, name, channel)
    decreases |records|
  {
    if records != [] {
      var w := Lookup(wellMap, records[0].cycle).value;
      var item := RecordItem(records[0], ids[0]);
      var next := UpdatedWells(wells, w, records[0].channel, item).value;
      UpdatedWellsFrame(wells, w, records[0].channel, item, name, channel);
      ApplyRecordsFrame(next, records[1..], ids[1..], wellMap, name, channel);
    }
  }

  /**
   * After the record loop, record k's item sits in its cycle's well on its
   * channel, unless a later record of the same well and channel replaced it.
   */
  lemma {:induction false} ApplyRecordsPlaces(wells: seq<WellItem>, records: seq<MarkerRecord>, ids: seq<string>,
                                              wellMap: CycleWellMap, k: nat)
    requires |ids| == |records|
    requires ApplyRecords(wells, records, ids, wellMap).Ok?
    requires k < |records|
    requires forall m :: k < m < |records| ==>
      Lookup(wellMap, records[m].cycle) != Lookup(wellMap, records[k].cycle) || records[m].channel != records[k].channel
    ensures Lookup(wellMap, records[k].cycle).Some?
    ensures Slot(ApplyRecords(wells, records, ids, wellMap).value,
                 Lookup(wellMap, records[k].cycle).value, records[k].channel) == Some(RecordItem(records[k], ids[k]))
    decreases k
  {
    var w := Lookup(wellMap, records[0].cycle).value;
    var item := RecordItem(records[0], ids[0]);
    var next := UpdatedWells(wells, w, records[0].channel, item).value;
    if k == 0 {
      UpdatedWellsReadBack(wells, w, records[0].channel, item);
      forall m | 0 <= m < |records[1..]|
        ensures Lookup(wellMap, records[1..][m].cycle) != Some(w) || records[1..][m].channel != records[0].channel
      {
        assert records[1..][m] == records[m + 1];
      }
      ApplyRecordsFrame(next, records[1..], ids[1..], wellMap, w, records[0].channel);
    } else {
      assert records[1..][k - 1] == records[k] && ids[1..][k - 1] == ids[k];
      forall m | k - 1 < m < |records[1..]|
        ensures Lookup(wellMap, records[1..][m].cycle) != Lookup(wellMap, records[1..][k - 1].cycle)
             || records[1..][m].channel != records[1..][k - 1].channel
      {
        assert records[1..][m] == records[m + 1];
      }
      ApplyRecordsPlaces(next, records[1..], ids[1..], wellMap, k - 1);
    }
  }

  /**
   * A finished document lists each well once, in the order of first
   * appearance in `blank_wells[:1] + cycle wells + blank_wells[1:]`.
   */
  lemma AssembleNames(channels: seq<Channel>, blankWells: seq<string>, exposures: map<string, Table>,
                      blankId: string, wellMap: CycleWellMap, records: seq<MarkerRecord>, recordIds: seq<string>)
    requires |recordIds| == |records|
    requires AssembleWells([], channels, blankWells, exposures, blankId, wellMap, records, recordIds).Ok?
    ensures NamesOf(AssembleWells([], channels, blankWells, exposures, blankId, wellMap, records, recordIds).value)
      == Dedup(WellOrder(blankWells, Values(wellMap)))
  {
    var cycleWells := Values(wellMap);
    var order := WellOrder(blankWells, cycleWells);
    assert NamesOf([]) == [] && [] + blankWells == blankWells;
    AddBlankWellsNames([], channels, blankWells, exposures, blankId);
    var w1 := AddBlankWells([], channels, blankWells, exposures, blankId).value;
    AddDefaultWellsNames(w1, channels, cycleWells);
    DedupConcat(blankWells, cycleWells);
    var w2 := AddDefaultWells(w1, channels, cycleWells);
    ApplyRecordsNames(w2, records, recordIds, wellMap);
    var w3 := ApplyRecords(w2, records, recordIds, wellMap).value;
    assert NamesOf(w3) == Dedup(blankWells + cycleWells);
    forall i | 0 <= i < |w3| ensures w3[i].wellName in order {
      assert NamesOf(w3)[i] in NamesOf(w3);
    }
    var sorted := SortSpec(w3, order);
    SortSpecNames(w3, order);
    SortSpecStrict(w3, order);
    DedupFirstIndexOrder(order);
    var names := NamesOf(sorted);
    forall i, j | 0 <= i < j < |names|
      ensures FirstIndexOf(order, names[i]).value < FirstIndexOf(order, names[j]).value
    {
      assert names[i] == sorted[i].wellName && names[j] == sorted[j].wellName;
    }
    FirstIndexOrderedEqual(names, Dedup(order), order);
  }

  /** C1 is grid position 24 (row C, column 1). */
  lemma C1Index()
    ensures WellIndex(FusionStartWell) == Some(24)
  {
    GridAt(2, 0);
    assert NatToString(1) == "1";
    assert Grid()[24] == "C1";
    WellIndexOfGrid(24);
  }

  /** Row H is not on the 7-row grid, so neither blank well is a cycle well. */
  lemma BlankWellsOffGrid()
    ensures "H3" !in Grid() && "H4" !in Grid()
  {
    OnGridIff("H3");
    OnGridIff("H4");
    assert RowOf('H') == None;
  }

  /** From C1, the cycles take consecutive grid wells, each once. */
  lemma FusionCycleWells(records: seq<MarkerRecord>)
    requires WellNames(records, FusionStartWell).Ok?
    ensures 24 + |Cycles(records)| <= WellCount
    ensures Values(WellNames(records, FusionStartWell).value) == Grid()[24..24 + |Cycles(records)|]
  {
    C1Index();
    WellNamesSpec(records, FusionStartWell);
  }

  /** H3, a run of consecutive grid wells, H4: no name twice. */
  lemma FusionOrderNoDup(lo: nat, hi: nat)
    requires lo <= hi <= WellCount
    ensures NoDup(["H3"] + Grid()[lo..hi] + ["H4"])
  {
    BlankWellsOffGrid();
    GridNoDup();
    NoDupSlice(Grid(), lo, hi);
    var run := Grid()[lo..hi];
    var order := ["H3"] + run + ["H4"];
    forall i, j | 0 <= i < j < |order| ensures order[i] != order[j] {
      if 0 < i && j < |order| - 1 {
        assert order[i] == run[i - 1] && order[j] == run[j - 1];
      } else if i == 0 && j < |order| - 1 {
        assert order[j] == run[j - 1] == Grid()[lo + j - 1];
      } else if 0 < i {
        assert order[i] == run[i - 1] == Grid()[lo + i - 1];
      }
    }
  }

  /** A finished fusion.py document holds the wells assembled from its parsed records and mapped cycles. */
  lemma FusionSpecParts(sheet: Sheet, stream: seq<string>)
    requires FusionSpec(sheet, stream).Ok?
    ensures ParsePanel(sheet, Atto550, Cy5).Ok?
    ensures var records := ParsePanel(sheet, Atto550, Cy5).value;
      && WellNames(records, FusionStartWell).Ok?
      && AppendDraws(|records|, stream).Ok?
      && var ids := AssignAsWritten(AppendDraws(|records|, stream).value, |records|);
         var wells := AssembleWells([], DefaultChannels, FusionBlankWells, FusionExposures, ids.blankId,
                                    WellNames(records, FusionStartWell).value, records, ids.recordIds);
         wells.Ok? && FusionSpec(sheet, stream).value.wells == wells.value
  {
  }

  /**
   * The fusion.py script's document lists H3, then the wells from C1 onward
   * in cycle order, then H4.
   */
  lemma FusionWellOrder(sheet: Sheet, stream: seq<string>)
    requires FusionSpec(sheet, stream).Ok?
    ensures ParsePanel(sheet, Atto550, Cy5).Ok?
    ensures var k := |Cycles(ParsePanel(sheet, Atto550, Cy5).value)|;
      24 + k <= WellCount &&
      NamesOf(FusionSpec(sheet, stream).value.wells) == ["H3"] + Grid()[24..24 + k] + ["H4"]
  {
    FusionSpecParts(sheet, stream);
    var records := ParsePanel(sheet, Atto550, Cy5).value;
    var wellMap := WellNames(records, FusionStartWell).value;
    var ids := AssignAsWritten(AppendDraws(|records|, stream).value, |records|);
    AssembleNames(DefaultChannels, FusionBlankWells, FusionExposures, ids.blankId, wellMap, records, ids.recordIds);
    FusionCycleWells(records);
    var cycleWells := Values(wellMap);
    var order := ["H3"] + cycleWells + ["H4"];
    assert order == WellOrder(FusionBlankWells, cycleWells);
    FusionOrderNoDup(24, 24 + |Cycles(records)|);
    DedupOfNoDup(order);
  }

  /** The ids fusion.py hands out for `recordCount` records are distinct draws. */
  predicate FirstDrawsDistinct(recordCount: nat, stream: seq<string>) {
    var drawn := AppendDraws(recordCount, stream);
    drawn.Ok? ==> NoDup(drawn.value[..recordCount + 1])
  }

  /**
   * The raw-draw script and the corrected one produce the same document
   * whenever the ids they hand out, blank id and record ids, are all
   * distinct draws; they can differ only after a repeated draw.
   */
  lemma FusionCorrectionAgrees(sheet: Sheet, stream: seq<string>)
    requires ParsePanel(sheet, Atto550, Cy5).Ok?
    requires FirstDrawsDistinct(|ParsePanel(sheet, Atto550, Cy5).value|, stream)
    ensures FusionSpec(sheet, stream) == FusionSpecCorrected(sheet, stream)
  {
    var records := ParsePanel(sheet, Atto550, Cy5).value;
    var n := |records|;
    var wellMap := WellNamesChecked(Some(records), FusionStartWell);
    var drawn := AppendDraws(n, stream);
    if wellMap.Ok? && drawn.Ok? {
      assert NoDup(drawn.value[..n + 1]);
      AssignCorrectedAgrees(drawn.value, n);
      assert FusionSpec(sheet, stream) == FusionDocument(records, wellMap.value, AssignAsWritten(drawn.value, n));
      assert FusionSpecCorrected(sheet, stream) == FusionDocument(records, wellMap.value, AssignCorrected(drawn.value, n));
    }
  }

  // ---------------------------------------------------------------- channel slots

  /** Every item of every well sits on a channel from `known`. */
  predicate SlotsIn(wells: seq<WellItem>, known: set<string>) {
    forall i, m :: 0 <= i < |wells| && 0 <= m < |wells[i].items| ==> wells[i].items[m].channel in known
  }

  /** The channel names of a channel table. */
  predicate NamesIn(channels: seq<Channel>, known: set<string>) {
    forall k :: 0 <= k < |channels| ==> channels[k].name in known
  }

  /** The keys of every override table. */
  predicate OverridesIn(exposures: map<string, Table>, known: set<string>) {
    forall n, k :: n in exposures && 0 <= k < |exposures[n]| ==> exposures[n][k].0 in known
  }

  /** Every key of a merged exposure table is a channel name or an override key. */
  lemma MergedKeysIn(channels: seq<Channel>, overrides: Table, known: set<string>)
    requires NamesIn(channels, known)
    requires forall k :: 0 <= k < |overrides| ==> overrides[k].0 in known
    ensures forall m :: 0 <= m < |MergeExposures(channels, overrides)| ==> MergeExposures(channels, overrides)[m].0 in known
  {
    var t := MergeExposures(channels, overrides);
    var names := seq(|channels|, i requires 0 <= i < |channels| => channels[i].name);
    MergeExposuresSpec(channels, overrides, "");
    assert Items.Keys(t) == Dedup(names + Items.Keys(overrides));
    forall m | 0 <= m < |t| ensures t[m].0 in known {
      assert Items.Keys(t)[m] == t[m].0;
      assert t[m].0 in names + Items.Keys(overrides);
      if t[m].0 in names {
        var k :| 0 <= k < |names| && names[k] == t[m].0;
        assert channels[k].name == t[m].0;
      } else {
        var k :| 0 <= k < |overrides| && Items.Keys(overrides)[k] == t[m].0;
        assert overrides[k].0 == t[m].0;
      }
    }
  }

  /** A blank well has slots only for the channels and its override keys. */
  lemma BlankWellSlots(name: string, id: string, channels: seq<Channel>, overrides: Table, known: set<string>)
    requires NamesIn(channels, known)
    requires forall k :: 0 <= k < |overrides| ==> overrides[k].0 in known
    ensures SlotsIn([BlankWell(name, id, MergeExposures(channels, overrides))], known)
  {
    MergedKeysIn(channels, overrides, known);
  }

  /** A cycle well has slots only for the channels. */
  lemma DefaultWellSlots(name: string, channels: seq<Channel>, known: set<string>)
    requires NamesIn(channels, known)
    ensures SlotsIn([DefaultWell(name, ChannelTable(channels))], known)
  {
    MergedKeysIn(channels, [], known);
    assert MergeExposures(channels, []) == ChannelTable(channels);
  }

  /** Adding a well keeps every slot known when the new well's are. */
  lemma WithWellSlots(wells: seq<WellItem>, w: WellItem, known: set<string>)
    requires SlotsIn(wells, known) && SlotsIn([w], known)
    ensures SlotsIn(WithWell(wells, w), known)
  {
    var r := WithWell(wells, w);
    forall i, m | 0 <= i < |r| && 0 <= m < |r[i].items| ensures r[i].items[m].channel in known {
      if i == |wells| {
        assert r[i] == [w][0];
      }
    }
  }

  /** The blank-well loop adds only slots for the channels and the override keys. */
  lemma {:induction false} AddBlankWellsSlots(wells: seq<WellItem>, channels: seq<Channel>, names: seq<string>,
                                             exposures: map<string, Table>, id: string, known: set<string>)
    requires SlotsIn(wells, known) && NamesIn(channels, known) && OverridesIn(exposures, known)
    requires AddBlankWells(wells, channels, names, exposures, id).Ok?
    ensures SlotsIn(AddBlankWells(wells, channels, names, exposures, id).value, known)
    decreases |names|
  {
    if names != [] {
      var w := BlankWell(names[0], id, MergeExposures(channels, exposures[names[0]]));
      BlankWellSlots(names[0], id, channels, exposures[names[0]], known);
      WithWellSlots(wells, w, known);
      AddBlankWellsSlots(WithWell(wells, w), channels, names[1..], exposures, id, known);
    }
  }

  /** The cycle-well loop adds only slots for the channels. */
  lemma {:induction false} AddDefaultWellsSlots(wells: seq<WellItem>, channels: seq<Channel>, names: seq<string>,
                                               known: set<string>)
    requires SlotsIn(wells, known) && NamesIn(channels, known)
    ensures SlotsIn(AddDefaultWells(wells, channels, names), known)
    decreases |names|
  {
    if names != [] {
      var w := DefaultWell(names[0], ChannelTable(channels));
      DefaultWellSlots(names[0], channels, known);
      WithWellSlots(wells, w, known);
      AddDefaultWellsSlots(WithWell(wells, w), channels, names[1..], known);
    }
  }

  /** An update only succeeds on an existing slot, and it keeps the slot's channel. */
  lemma UpdatedWellsSlots(wells: seq<WellItem>, name: string, channel: string, item: MarkerItem, known: set<string>)
    requires SlotsIn(wells, known) && item.channel == channel
    requires UpdatedWells(wells, name, channel, item).Ok?
    ensures channel in known
    ensures SlotsIn(UpdatedWells(wells, name, channel, item).value, known)
  {
    var i := FirstIndexOf(NamesOf(wells), name).value;
    var j := FirstIndexOf(ChannelsOf(wells[i].items), channel).value;
    assert ChannelsOf(wells[i].items)[j] == wells[i].items[j].channel;
  }

  /** Placing records succeeds only when every record's channel has a slot. */
  lemma {:induction false} ApplyRecordsSlots(wells: seq<WellItem>, records: seq<MarkerRecord>, ids: seq<string>,
                                            wellMap: CycleWellMap, known: set<string>)
    requires |ids| == |records| && SlotsIn(wells, known)
    requires ApplyRecords(wells, records, ids, wellMap).Ok?
    ensures forall k :: 0 <= k < |records| ==> records[k].channel in known
    decreases |records|
  {
    if records != [] {
      var w := Lookup(wellMap, records[0].cycle).value;
      var item := RecordItem(records[0], ids[0]);
      UpdatedWellsSlots(wells, w, records[0].channel, item, known);
      var next := UpdatedWells(wells, w, records[0].channel, item).value;
      ApplyRecordsSlots(next, records[1..], ids[1..], wellMap, known);
      forall k | 0 < k < |records| ensures records[k].channel in known {
        assert records[k] == records[1..][k - 1];
      }
    }
  }

  /** Assembly succeeds only when every record's channel has a slot in a blank or cycle well. */
  lemma AssembleSlots(channels: seq<Channel>, blankWells: seq<string>, exposures: map<string, Table>,
                      blankId: string, wellMap: CycleWellMap, records: seq<MarkerRecord>, recordIds: seq<string>,
                      known: set<string>)
    requires |recordIds| == |records| && NamesIn(channels, known) && OverridesIn(exposures, known)
    requires AssembleWells([], channels, blankWells, exposures, blankId, wellMap, records, recordIds).Ok?
    ensures forall k :: 0 <= k < |records| ==> records[k].channel in known
  {
    AddBlankWellsSlots([], channels, blankWells, exposures, blankId, known);
    var w1 := AddBlankWells([], channels, blankWells, exposures, blankId).value;
    AddDefaultWellsSlots(w1, channels, Values(wellMap), known);
    var w2 := AddDefaultWells(w1, channels, Values(wellMap));
    ApplyRecordsSlots(w2, records, recordIds, wellMap, known);
  }

  /** Every key of any override table in the configuration. */
  function OverrideChannels(exposures: map<string, Table>): set<string> {
    set n, c | n in exposures && c in Items.Keys(exposures[n]) :: c
  }

  /** The channel table built from a list of names holds only those names. */
  lemma ChannelsKnown(names: seq<string>, defaults: map<string, int>, known: set<string>)
    requires ChannelsFrom(names, defaults).Ok?
    requires (set c | c in names) <= known
    ensures NamesIn(ChannelsFrom(names, defaults).value, known)
  {
    forall k | 0 <= k < |names| ensures names[k] in known {
      assert names[k] in (set c | c in names);
    }
  }

  /** Every override key is among the override channels. */
  lemma OverridesKnown(exposures: map<string, Table>, known: set<string>)
    requires OverrideChannels(exposures) <= known
    ensures OverridesIn(exposures, known)
  {
    forall n, k | n in exposures && 0 <= k < |exposures[n]| ensures exposures[n][k].0 in known {
      var c := exposures[n][k].0;
      assert Items.Keys(exposures[n])[k] == c;
      assert n in exposures && c in Items.Keys(exposures[n]);
    }
  }

  /** A finished document comes from parsed records, a cycle map, ids, a channel table and assembled wells. */
  lemma GenerateSpecParts(config: Config, sheet: Sheet, stream: seq<string>)
    requires GenerateSpec(config, sheet, stream).Ok?
    ensures ParsePanel(sheet, config.channel1, config.channel2).Ok?
    ensures var records := ParsePanel(sheet, config.channel1, config.channel2).value;
      && WellNames(records, config.startWell).Ok?
      && FirstDistinctIds(|records|, stream).Ok?
      && ChannelsFrom(FixedChannelNames, config.defaultExposures).Ok?
      && var ids := FirstDistinctIds(|records|, stream).value;
         AssembleWells([], ChannelsFrom(FixedChannelNames, config.defaultExposures).value, config.blankWells,
                       config.blankExposures, ids.blankId, WellNames(records, config.startWell).value,
                       records, ids.recordIds).Ok?
  {
  }

  /**
   * The channel table is fixed to DAPI, ATTO550, CY5 and AF750, so a document
   * is produced only when every retained record's channel is one of those or
   * an override key of a blank well: other `channel_1`/`channel_2` values fail
   * in `update_well`.
   */
  lemma RecordChannelsKnown(config: Config, sheet: Sheet, stream: seq<string>)
    requires GenerateSpec(config, sheet, stream).Ok?
    ensures ParsePanel(sheet, config.channel1, config.channel2).Ok?
    ensures var records := ParsePanel(sheet, config.channel1, config.channel2).value;
      forall k :: 0 <= k < |records| ==>
        records[k].channel in FixedChannelNames || records[k].channel in OverrideChannels(config.blankExposures)
  {
    GenerateSpecParts(config, sheet, stream);
    var records := ParsePanel(sheet, config.channel1, config.channel2).value;
    var wellMap := WellNames(records, config.startWell).value;
    var ids := FirstDistinctIds(|records|, stream).value;
    var channels := ChannelsFrom(FixedChannelNames, config.defaultExposures).value;
    var known := (set c | c in FixedChannelNames) + OverrideChannels(config.blankExposures);
    ChannelsKnown(FixedChannelNames, config.defaultExposures, known);
    OverridesKnown(config.blankExposures, known);
    AssembleSlots(channels, config.blankWells, config.blankExposures, ids.blankId, wellMap, records, ids.recordIds, known);
  }
}
