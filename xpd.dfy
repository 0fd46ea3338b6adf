/**
 * `BaseInfo`, the experiment document under construction: its well list is
 * extended and updated in place by the assembly steps.
 */
module Xpd {
  import opened Wrappers
  import opened Seqs
  import opened Items

  class BaseInfo {
    const name: string
    var channels: seq<Channel>
    var wells: seq<WellItem>

    /** Well names are unique. */
    predicate Valid()
      reads this
    {
      NoDup(NamesOf(wells))
    }

    constructor (name: string, channels: seq<Channel>)
      ensures this.name == name && this.channels == channels && wells == []
      ensures Valid()
    {
      this.name := name;
      this.channels := channels;
      wells := [];
    }

    /** `_well_exists`: some well carries this name. */
    function WellExists(wellName: string): (b: bool)
      reads this
      ensures b <==> exists i :: 0 <= i < |wells| && wells[i].wellName == wellName
    {
      HasWell(wells, wellName)
    }

    /**
     * `add_well_blank`: unless the name is taken, append a well whose items
     * follow the channel defaults updated by `blankExposure`, all carrying `id`.
     */
    method AddWellBlank(wellName: string, id: string, blankExposure: Table)
      modifies this
      ensures channels == old(channels)
      ensures wells == WithWell(old(wells), BlankWell(wellName, id, MergeExposures(channels, blankExposure)))
      ensures old(Valid()) ==> Valid()
    {
      if WellExists(wellName) {
        return;
      }
      var exposures := MergeExposures(channels, blankExposure);
      wells := wells + [BlankWell(wellName, id, exposures)];
    }

    /** `add_well_default`: unless the name is taken, append a well of channel defaults. */
    method AddWellDefault(wellName: string)
      modifies this
      ensures channels == old(channels)
      ensures wells == WithWell(old(wells), DefaultWell(wellName, ChannelTable(channels)))
      ensures old(Valid()) ==> Valid()
    {
      if WellExists(wellName) {
        return;
      }
      var exposures := ChannelTable(channels);
      wells := wells + [DefaultWell(wellName, exposures)];
    }

    /**
     * `update_well`: find the first well with the name, then its first item
     * with the channel, and replace that item. A missing well or channel is
     * an error and changes nothing.
     */
    method UpdateWell(wellName: string, channel: string, item: MarkerItem) returns (r: Result<()>)
      modifies this
      ensures channels == old(channels)
      ensures r.Ok? <==> UpdatedWells(old(wells), wellName, channel, item).Ok?
      ensures r.Ok? ==> wells == UpdatedWells(old(wells), wellName, channel, item).value
      ensures r.Err? ==> r.error == UpdatedWells(old(wells), wellName, channel, item).error && wells == old(wells)
      ensures old(Valid()) ==> Valid()
    {
      var i := 0;
      while i < |wells| && wells[i].wellName != wellName
        invariant 0 <= i <= |wells|
        invariant forall k :: 0 <= k < i ==> wells[k].wellName != wellName
      {
        i := i + 1;
      }
      if i == |wells| {
        return Err(WellNotFound(wellName));
      }
      FirstIndexUnique(NamesOf(wells), wellName, i);
      var items := wells[i].items;
      var j := 0;
      while j < |items| && items[j].channel != channel
        invariant 0 <= j <= |items|
        invariant forall k :: 0 <= k < j ==> items[k].channel != channel
      {
        j := j + 1;
      }
      if j == |items| {
        assert channel !in ChannelsOf(items);
        return Err(ChannelNotFound(channel, wellName));
      }
      FirstIndexUnique(ChannelsOf(items), channel, j);
      wells := wells[i := wells[i].(items := items[j := item])];
      r := Ok(());
    }
  }
}
