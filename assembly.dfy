/**
 * The document assembly of `generate_fusion_xpd` and of the fusion.py script:
 * build the channel table, add the blank wells and then the cycle wells,
 * place one item per retained record, and sort the wells into plate order.
 * Reading the spreadsheet and writing the document are left to the caller.
 */
module Assembly {
  import opened Wrappers
  import opened Text
  import opened Seqs
  import opened Panel
  import opened Plate
  import opened Ids
  import opened Items
  import opened Xpd

  /** The `InputParameter` fields the generator uses (paths excluded). */
  datatype Config = Config(
    projectName: string,
    startWell: string,
    channel1: string,
    channel2: string,
    blankWells: seq<string>,
    blankExposures: map<string, Table>,
    defaultExposures: map<string, int>)

  /** The written document: the parts of `BaseInfo` the pipeline fills in. */
  datatype Document = Document(name: string, channels: seq<Channel>, wells: seq<WellItem>)

  /** The channel names the generator builds its table from, in table order. */
  const FixedChannelNames: seq<string> := [Dapi, Atto550, Cy5, Af750]

  /**
   * `[{"name": c, "defaultExposure": defaults[c]} for c in names]`: a KeyError
   * for the first name without a default.
   */
  function ChannelsFrom(names: seq<string>, defaults: map<string, int>): (r: Result<seq<Channel>>)
    ensures r.Ok? <==> forall k :: 0 <= k < |names| ==> names[k] in defaults
    ensures r.Ok? ==> |r.value| == |names|
    ensures r.Ok? ==> forall k :: 0 <= k < |names| ==> r.value[k] == Channel(names[k], defaults[names[k]])
    ensures r.Err? ==> exists k :: 0 <= k < |names| && names[k] !in defaults && r.error == KeyError(names[k])
  {
    if names == [] then Ok([])
    else if names[0] !in defaults then Err(KeyError(names[0]))
    else match ChannelsFrom(names[1..], defaults)
      case Err(e) => Err(e)
      case Ok(rest) =>
        assert forall k :: 0 < k < |names| ==> names[k] == names[1..][k - 1];
        Ok([Channel(names[0], defaults[names[0]])] + rest)
  }

  // ---------------------------------------------------------------- the steps, as functions

  /** The blank-well loop: a KeyError for a blank well without exposures, else one `add_well_blank` each. */
  function AddBlankWells(wells: seq<WellItem>, channels: seq<Channel>, names: seq<string>,
                         exposures: map<string, Table>, id: string): Result<seq<WellItem>>
    decreases |names|
  {
    if names == [] then Ok(wells)
    else if names[0] !in exposures then Err(KeyError(names[0]))
    else
      var w := BlankWell(names[0], id, MergeExposures(channels, exposures[names[0]]));
      AddBlankWells(WithWell(wells, w), channels, names[1..], exposures, id)
  }

  /** The cycle-well loop: one `add_well_default` per mapped well, in cycle order. */
  function AddDefaultWells(wells: seq<WellItem>, channels: seq<Channel>, names: seq<string>): seq<WellItem>
    decreases |names|
  {
    if names == [] then wells
    else AddDefaultWells(WithWell(wells, DefaultWell(names[0], ChannelTable(channels))), channels, names[1..])
  }

  /** The record loop: each record's item goes into its cycle's well, on its channel. */
  function ApplyRecords(wells: seq<WellItem>, records: seq<MarkerRecord>, ids: seq<string>,
                        wellMap: CycleWellMap): Result<seq<WellItem>>
    requires |ids| == |records|
    decreases |records|
  {
    if records == [] then Ok(wells)
    else match Lookup(wellMap, records[0].cycle)
      case None => Err(KeyError(IntToString(records[0].cycle)))
      case Some(w) =>
        match UpdatedWells(wells, w, records[0].channel, RecordItem(records[0], ids[0]))
        case Err(e) => Err(e)
        case Ok(next) => ApplyRecords(next, records[1..], ids[1..], wellMap)
  }

  /** `blank_wells[:1] + cycle wells + blank_wells[1:]`. */
  function WellOrder(blankWells: seq<string>, cycleWells: seq<string>): (r: seq<string>)
    ensures forall x :: x in r <==> x in blankWells || x in cycleWells
  {
    if blankWells == [] then cycleWells
    else
      assert forall x :: x in blankWells <==> x == blankWells[0] || x in blankWells[1..];
      [blankWells[0]] + cycleWells + blankWells[1..]
  }

  /** Everything after the channel table: wells added, filled and sorted. */
  function AssembleWells(wells: seq<WellItem>, channels: seq<Channel>, blankWells: seq<string>,
                         exposures: map<string, Table>, blankId: string, wellMap: CycleWellMap,
                         records: seq<MarkerRecord>, recordIds: seq<string>): Result<seq<WellItem>>
    requires |recordIds| == |records|
  {
    var withBlanks :- AddBlankWells(wells, channels, blankWells, exposures, blankId);
    var withCycles := AddDefaultWells(withBlanks, channels, Values(wellMap));
    var filled :- ApplyRecords(withCycles, records, recordIds, wellMap);
    SortByOrder(filled, WellOrder(blankWells, Values(wellMap)))
  }

  /** `generate_fusion_xpd` from parsed parameters, a spreadsheet and the id stream. */
  function GenerateSpec(config: Config, sheet: Sheet, stream: seq<string>): Result<Document> {
    var records :- ParsePanel(sheet, config.channel1, config.channel2);
    var wellMap :- WellNames(records, config.startWell);
    var ids :- FirstDistinctIds(|records|, stream);
    var channels :- ChannelsFrom(FixedChannelNames, config.defaultExposures);
    var wells :- AssembleWells([], channels, config.blankWells, config.blankExposures, ids.blankId,
                               wellMap, records, ids.recordIds);
    Ok(Document(config.projectName, channels, wells))
  }

  // ---------------------------------------------------------------- the steps, in place

  /** The blank-well loop on a `BaseInfo`. */
  method AddBlanks(base: BaseInfo, blankWells: seq<string>, exposures: map<string, Table>, blankId: string)
    returns (r: Result<()>)
    modifies base
    ensures base.channels == old(base.channels)
    ensures r.Ok? <==> AddBlankWells(old(base.wells), base.channels, blankWells, exposures, blankId).Ok?
    ensures r.Ok? ==> base.wells == AddBlankWells(old(base.wells), base.channels, blankWells, exposures, blankId).value
    ensures r.Err? ==> r.error == AddBlankWells(old(base.wells), base.channels, blankWells, exposures, blankId).error
  {
    var i := 0;
    while i < |blankWells|
      invariant 0 <= i <= |blankWells| && base.channels == old(base.channels)
      invariant AddBlankWells(base.wells, base.channels, blankWells[i..], exposures, blankId) ==
        AddBlankWells(old(base.wells), base.channels, blankWells, exposures, blankId)
    {
      assert blankWells[i..][1..] == blankWells[i + 1..];
      if blankWells[i] !in exposures {
        return Err(KeyError(blankWells[i]));
      }
      base.AddWellBlank(blankWells[i], blankId, exposures[blankWells[i]]);
      i := i + 1;
    }
    assert blankWells[i..] == [];
    r := Ok(());
  }

  /** The cycle-well loop on a `BaseInfo`. */
  method AddCycleWells(base: BaseInfo, cycleWells: seq<string>)
    modifies base
    ensures base.channels == old(base.channels)
    ensures base.wells == AddDefaultWells(old(base.wells), base.channels, cycleWells)
  {
    var i := 0;
    while i < |cycleWells|
      invariant 0 <= i <= |cycleWells| && base.channels == old(base.channels)
      invariant AddDefaultWells(base.wells, base.channels, cycleWells[i..]) ==
        AddDefaultWells(old(base.wells), base.channels, cycleWells)
    {
      assert cycleWells[i..][1..] == cycleWells[i + 1..];
      base.AddWellDefault(cycleWells[i]);
      i := i + 1;
    }
    assert cycleWells[i..] == [];
  }

  /** The record loop on a `BaseInfo`. */
  method PlaceRecords(base: BaseInfo, wellMap: CycleWellMap, records: seq<MarkerRecord>, recordIds: seq<string>)
    returns (r: Result<()>)
    requires |recordIds| == |records|
    modifies base
    ensures base.channels == old(base.channels)
    ensures r.Ok? <==> ApplyRecords(old(base.wells), records, recordIds, wellMap).Ok?
    ensures r.Ok? ==> base.wells == ApplyRecords(old(base.wells), records, recordIds, wellMap).value
    ensures r.Err? ==> r.error == ApplyRecords(old(base.wells), records, recordIds, wellMap).error
  {
    var i := 0;
    while i < |records|
      invariant 0 <= i <= |records| && base.channels == old(base.channels)
      invariant ApplyRecords(base.wells, records[i..], recordIds[i..], wellMap) ==
        ApplyRecords(old(base.wells), records, recordIds, wellMap)
    {
      assert records[i..][1..] == records[i + 1..] && recordIds[i..][1..] == recordIds[i + 1..];
      var record := records[i];
      var well := Lookup(wellMap, record.cycle);
      if well.None? {
        return Err(KeyError(IntToString(record.cycle)));
      }
      var updated := base.UpdateWell(well.value, record.channel, RecordItem(record, recordIds[i]));
      if updated.Err? {
        return Err(updated.error);
      }
      i := i + 1;
    }
    assert records[i..] == [] && recordIds[i..] == [];
    r := Ok(());
  }

  /**
   * The body shared by both drivers, on a `BaseInfo`: blank wells, cycle wells,
   * one update per record, then the sort that replaces the well list.
   */
  method Assemble(base: BaseInfo, blankWells: seq<string>, exposures: map<string, Table>, blankId: string,
                  wellMap: CycleWellMap, records: seq<MarkerRecord>, recordIds: seq<string>)
    returns (r: Result<()>)
    requires |recordIds| == |records|
    modifies base
    ensures base.channels == old(base.channels)
    ensures r.Ok? <==>
      AssembleWells(old(base.wells), base.channels, blankWells, exposures, blankId, wellMap, records, recordIds).Ok?
    ensures r.Ok? ==>
      base.wells == AssembleWells(old(base.wells), base.channels, blankWells, exposures, blankId, wellMap, records, recordIds).value
    ensures r.Err? ==>
      r.error == AssembleWells(old(base.wells), base.channels, blankWells, exposures, blankId, wellMap, records, recordIds).error
  {
    var blanks := AddBlanks(base, blankWells, exposures, blankId);
    if blanks.Err? {
      return Err(blanks.error);
    }
    AddCycleWells(base, Values(wellMap));
    var placed := PlaceRecords(base, wellMap, records, recordIds);
    if placed.Err? {
      return Err(placed.error);
    }
    var sorted := SortByOrder(base.wells, WellOrder(blankWells, Values(wellMap)));
    if sorted.Err? {
      return Err(sorted.error);
    }
    base.wells := sorted.value;
    r := Ok(());
  }

  /**
   * `generate_fusion_xpd` without the file handling: parse the panel, map
   * cycles to wells, draw the ids, build the channel table and assemble.
   */
  method Generate(config: Config, sheet: Sheet, stream: seq<string>) returns (r: Result<Document>)
    ensures r == GenerateSpec(config, sheet, stream)
  {
    var records :- ParsePanel(sheet, config.channel1, config.channel2);
    var wellMap :- WellNames(records, config.startWell);
    var ids :- MarkerIdsDedup(|records|, stream);
    var channels :- ChannelsFrom(FixedChannelNames, config.defaultExposures);
    var base := new BaseInfo(config.projectName, channels);
    var assembled := Assemble(base, config.blankWells, config.blankExposures, ids.blankId,
                              wellMap, records, ids.recordIds);
    if assembled.Err? {
      return Err(assembled.error);
    }
    r := Ok(Document(base.name, base.channels, base.wells));
  }

  // ---------------------------------------------------------------- the fusion.py script

  const FusionProject: string := "titration-rerun-150ms-C1"
  const FusionStartWell: string := "C1"
  const FusionBlankWells: seq<string> := ["H3", "H4"]
  const FusionExposures: map<string, Table> :=
    map["H3" := [(Atto550, 150), (Cy5, 150)], "H4" := [(Atto550, 150), (Cy5, 150)]]

  /** The ids drawn by fusion.py's append loop. */
  function AppendDraws(recordCount: nat, stream: seq<string>): (r: Result<seq<string>>)
    ensures r.Ok? ==> |Dedup(r.value)| > recordCount
    ensures r.Ok? ==> |r.value| > recordCount
  {
    DrawAppendSpec(recordCount, stream);
    match StopAfter(stream, recordCount + 1, 0)
    case None => Err(IdsExhausted)
    case Some(j) => Ok(stream[..j])
  }

  /**
   * The fusion.py script: start well C1, blank wells H3 and H4 with ATTO550
   * and CY5 overrides, the default channel table, and the raw draws as ids:
   * the first draw for the blanks and the next `|records|` draws for the
   * records, whether or not the loop had dropped a repeat among them.
   */
  function FusionSpec(sheet: Sheet, stream: seq<string>): Result<Document> {
    var records :- ParsePanel(sheet, Atto550, Cy5);
    var wellMap :- WellNamesChecked(Some(records), FusionStartWell);
    var drawn :- AppendDraws(|records|, stream);
    FusionDocument(records, wellMap, AssignAsWritten(drawn, |records|))
  }

  /** The document fusion.py assembles from its records, cycle wells and ids. */
  function FusionDocument(records: seq<MarkerRecord>, wellMap: CycleWellMap, ids: IdAssignment): Result<Document>
    requires |ids.recordIds| == |records|
  {
    var wells :- AssembleWells([], DefaultChannels, FusionBlankWells, FusionExposures, ids.blankId,
                               wellMap, records, ids.recordIds);
    Ok(Document(FusionProject, DefaultChannels, wells))
  }

  method FusionScript(sheet: Sheet, stream: seq<string>) returns (r: Result<Document>)
    ensures r == FusionSpec(sheet, stream)
  {
    var records :- ParsePanel(sheet, Atto550, Cy5);
    var wellMap :- WellNamesChecked(Some(records), FusionStartWell);
    var drawn :- DrawAppend(|records|, stream);
    DrawAppendSpec(|records|, stream);
    assert drawn == AppendDraws(|records|, stream).value;
    var ids := AssignAsWritten(drawn, |records|);
    assert FusionSpec(sheet, stream) == FusionDocument(records, wellMap, ids);
    r := FusionAssemble(records, wellMap, ids);
  }

  /** Builds the fusion.py document in a fresh `BaseInfo`. */
  method FusionAssemble(records: seq<MarkerRecord>, wellMap: CycleWellMap, ids: IdAssignment) returns (r: Result<Document>)
    requires |ids.recordIds| == |records|
    ensures r == FusionDocument(records, wellMap, ids)
  {
    var base := new BaseInfo(FusionProject, DefaultChannels);
    var assembled := Assemble(base, FusionBlankWells, FusionExposures, ids.blankId,
                              wellMap, records, ids.recordIds);
    if assembled.Err? {
      return Err(assembled.error);
    }
    r := Ok(Document(base.name, base.channels, base.wells));
  }

  /**
   * The script as evidently intended: the ids are the first distinct draws
   * (blank id first), so no two records and no blank share an id.
   */
  function FusionSpecCorrected(sheet: Sheet, stream: seq<string>): Result<Document> {
    var records :- ParsePanel(sheet, Atto550, Cy5);
    var wellMap :- WellNamesChecked(Some(records), FusionStartWell);
    var drawn :- AppendDraws(|records|, stream);
    FusionDocument(records, wellMap, AssignCorrected(drawn, |records|))
  }
}
