/**
 * The experiment document's items and wells (`MarkerItem`, `WellItem`), the
 * ordered channel -> exposure tables the well builders use, and the pure
 * meaning of the well-list operations that `BaseInfo` performs in place.
 */
module Items {
  import opened Wrappers
  import opened Seqs
  import opened Panel

  const ZeroId: string := "00000000-0000-0000-0000-000000000000"
  const MarkerType: string := "Marker"
  const NoMarker: string := "--"
  const NoValue: string := "None"
  const Inventoried: string := "Inventoried"

  const Dapi: string := "DAPI"
  const Atto550: string := "ATTO550"
  const Cy5: string := "CY5"
  const Af750: string := "AF750"

  /** One slot of a well; `exposure` is None where pydantic leaves the default. */
  datatype MarkerItem = MarkerItem(
    id: string,
    inventoryItemType: string,
    markerName: string,
    barcode: string,
    reporter: string,
    clone: string,
    channel: string,
    dye: string,
    exposure: Option<int>,
    panel: string)

  datatype WellItem = WellItem(wellName: string, items: seq<MarkerItem>)

  /** An entry of `BaseInfo.channels`. */
  datatype Channel = Channel(name: string, defaultExposure: int)

  /** The `channels` default of `BaseInfo`. */
  const DefaultChannels: seq<Channel> :=
    [Channel(Dapi, 10), Channel(Atto550, 150), Channel(Cy5, 150), Channel(Af750, 1)]

  // ---------------------------------------------------------------- ordered tables

  /** An insertion-ordered dictionary from channel name to exposure. */
  type Table = seq<(string, int)>

  function Keys(t: Table): seq<string> {
    seq(|t|, i requires 0 <= i < |t| => t[i].0)
  }

  /** `d[k]`, reading the first entry with key k. */
  function Get(t: Table, k: string): (r: Option<int>)
    ensures r.Some? <==> k in Keys(t)
  {
    match FirstIndexOf(Keys(t), k)
    case None => None
    case Some(i) => Some(t[i].1)
  }

  /** `d[k] = v`: overwrite in place if k is present, otherwise append at the end. */
  function Put(t: Table, k: string, v: int): Table {
    match FirstIndexOf(Keys(t), k)
    case None => t + [(k, v)]
    case Some(i) => t[i := (k, v)]
  }

  /** Assigning each pair in turn, as `OrderedDict.update` and a dict comprehension do. */
  function PutAll(t: Table, ps: Table): Table
    decreases |ps|
  {
    if ps == [] then t
    else Put(PutAll(t, ps[..|ps| - 1]), ps[|ps| - 1].0, ps[|ps| - 1].1)
  }

  /** The value the last pair with key k assigns. */
  function LastValue(ps: Table, k: string): (r: Option<int>)
    ensures r.Some? <==> k in Keys(ps)
    decreases |ps|
  {
    if ps == [] then None
    else
      assert Keys(ps) == Keys(ps[..|ps| - 1]) + [ps[|ps| - 1].0];
      if ps[|ps| - 1].0 == k then Some(ps[|ps| - 1].1)
      else LastValue(ps[..|ps| - 1], k)
  }

  /**
   * Assigning a key overwrites its value and leaves every other key's value
   * alone; the key order grows by k at the end if k is new and is otherwise
   * unchanged.
   */
  lemma PutSpec(t: Table, k: string, v: int)
    ensures Get(Put(t, k, v), k) == Some(v)
    ensures forall k' :: k' != k ==> Get(Put(t, k, v), k') == Get(t, k')
    ensures Keys(Put(t, k, v)) == if k in Keys(t) then Keys(t) else Keys(t) + [k]
  {
    var u := Put(t, k, v);
    match FirstIndexOf(Keys(t), k)
    case None =>
      assert Keys(u) == Keys(t) + [k];
      forall k' | k' != k ensures Get(u, k') == Get(t, k') {
        FirstIndexSnoc(Keys(t), k, k');
      }
      FirstIndexSnoc(Keys(t), k, k);
    case Some(i) =>
      assert Keys(u) == Keys(t);
  }

  /**
   * After a sequence of assignments to a table without repeated keys, the
   * keys are the old keys followed by the new ones in order of first assignment.
   */
  lemma {:induction false} PutAllKeys(t: Table, ps: Table)
    requires NoDup(Keys(t))
    ensures Keys(PutAll(t, ps)) == Dedup(Keys(t) + Keys(ps))
    decreases |ps|
  {
    if ps == [] {
      assert Keys(t) + Keys(ps) == Keys(t);
      DedupOfNoDup(Keys(t));
    } else {
      var ps', p := ps[..|ps| - 1], ps[|ps| - 1];
      var u := PutAll(t, ps');
      PutAllKeys(t, ps');
      PutSpec(u, p.0, p.1);
      KeysSnoc(ps);
      var before := Keys(t) + Keys(ps');
      assert Keys(t) + Keys(ps) == before + [p.0];
      DedupSnoc(before, p.0);
    }
  }

  /**
   * After a sequence of assignments, each key holds its last assigned value,
   * or its old one if it was never assigned.
   */
  lemma {:induction false} PutAllGet(t: Table, ps: Table, k: string)
    ensures Get(PutAll(t, ps), k) == if k in Keys(ps) then LastValue(ps, k) else Get(t, k)
    decreases |ps|
  {
    if ps != [] {
      var ps', p := ps[..|ps| - 1], ps[|ps| - 1];
      var u := PutAll(t, ps');
      PutAllGet(t, ps', k);
      PutSpec(u, p.0, p.1);
      KeysSnoc(ps);
    }
  }

  lemma KeysSnoc(ps: Table)
    requires ps != []
    ensures Keys(ps) == Keys(ps[..|ps| - 1]) + [ps[|ps| - 1].0]
  {
  }

  /** `OrderedDict({c["name"]: c["defaultExposure"] for c in channels})`. */
  function ChannelTable(channels: seq<Channel>): Table {
    PutAll([], seq(|channels|, i requires 0 <= i < |channels| => (channels[i].name, channels[i].defaultExposure)))
  }

  /** The channel defaults updated by a well's overrides (`exposure_dict.update(blank_exposure)`). */
  function MergeExposures(channels: seq<Channel>, overrides: Table): Table {
    PutAll(ChannelTable(channels), overrides)
  }

  /**
   * A merged table lists every channel once, in channel order, then the
   * override keys that are not channels; each key holds its override if one
   * is given and its channel default otherwise.
   */
  lemma MergeExposuresSpec(channels: seq<Channel>, overrides: Table, k: string)
    ensures var t := MergeExposures(channels, overrides);
      var names := seq(|channels|, i requires 0 <= i < |channels| => channels[i].name);
      && Keys(t) == Dedup(names + Keys(overrides))
      && NoDup(Keys(t))
      && (k in Keys(overrides) ==> Get(t, k) == LastValue(overrides, k))
      && (k !in Keys(overrides) ==> Get(t, k) == Get(ChannelTable(channels), k))
  {
    var pairs := seq(|channels|, i requires 0 <= i < |channels| => (channels[i].name, channels[i].defaultExposure));
    var names := seq(|channels|, i requires 0 <= i < |channels| => channels[i].name);
    assert Keys(pairs) == names;
    assert Keys([]) + names == names;
    PutAllKeys([], pairs);
    DedupConcat(names, Keys(overrides));
    PutAllKeys(ChannelTable(channels), overrides);
    PutAllGet(ChannelTable(channels), overrides, k);
  }

  /** Assigning a new key appends it. */
  lemma PutNew(t: Table, k: string, v: int)
    requires k !in Keys(t)
    ensures Put(t, k, v) == t + [(k, v)]
  {
  }

  /** Assigning the key of entry i, with no repeated keys, overwrites entry i. */
  lemma PutPresent(t: Table, i: nat, v: int)
    requires NoDup(Keys(t)) && i < |t|
    ensures Put(t, t[i].0, v) == t[i := (t[i].0, v)]
  {
    FirstIndexNoDup(Keys(t), i);
  }

  /** The default channel table, in the channels' order. */
  lemma DefaultChannelTable()
    ensures ChannelTable(DefaultChannels) == [(Dapi, 10), (Atto550, 150), (Cy5, 150), (Af750, 1)]
  {
    var pairs := seq(|DefaultChannels|, i requires 0 <= i < |DefaultChannels| =>
      (DefaultChannels[i].name, DefaultChannels[i].defaultExposure));
    assert pairs == [(Dapi, 10), (Atto550, 150), (Cy5, 150), (Af750, 1)];
    var t1: Table := [(Dapi, 10)];
    var t2 := t1 + [(Atto550, 150)];
    var t3 := t2 + [(Cy5, 150)];
    assert PutAll([], pairs[..1]) == t1 by {
      assert pairs[..1][..0] == [];
      PutNew([], Dapi, 10);
    }
    assert PutAll([], pairs[..2]) == t2 by {
      assert pairs[..2][..1] == pairs[..1];
      assert Keys(t1) == [Dapi];
      PutNew(t1, Atto550, 150);
    }
    assert PutAll([], pairs[..3]) == t3 by {
      assert pairs[..3][..2] == pairs[..2];
      assert Keys(t2) == [Dapi, Atto550];
      PutNew(t2, Cy5, 150);
    }
    assert pairs[..4] == pairs && pairs[..3] == pairs[..4][..3];
    assert Keys(t3) == [Dapi, Atto550, Cy5];
    PutNew(t3, Af750, 1);
  }

  /**
   * The fusion.py blank wells: overrides for ATTO550 and CY5 of 150 over the
   * default channels give DAPI 10, ATTO550 150, CY5 150, AF750 1, in that order.
   */
  lemma DefaultMergeScenario()
    ensures MergeExposures(DefaultChannels, [(Atto550, 150), (Cy5, 150)]) ==
      [(Dapi, 10), (Atto550, 150), (Cy5, 150), (Af750, 1)]
  {
    var t: Table := [(Dapi, 10), (Atto550, 150), (Cy5, 150), (Af750, 1)];
    var ps: Table := [(Atto550, 150), (Cy5, 150)];
    DefaultChannelTable();
    assert Keys(t) == [Dapi, Atto550, Cy5, Af750];
    assert ps[..1] == [(Atto550, 150)] && ps[..1][..0] == [];
    PutPresent(t, 1, 150);
    assert PutAll(t, ps[..1]) == t;
    PutPresent(t, 2, 150);
  }

  /** An override for a key that is no channel adds a fifth item at the end. */
  lemma ExtraOverrideScenario()
    ensures MergeExposures(DefaultChannels, [("FITC", 20)]) ==
      [(Dapi, 10), (Atto550, 150), (Cy5, 150), (Af750, 1), ("FITC", 20)]
  {
    var t: Table := [(Dapi, 10), (Atto550, 150), (Cy5, 150), (Af750, 1)];
    var ps: Table := [("FITC", 20)];
    DefaultChannelTable();
    assert ps[..0] == [];
    assert Keys(t) == [Dapi, Atto550, Cy5, Af750];
    PutNew(t, "FITC", 20);
  }

  // ---------------------------------------------------------------- well builders

  /** The item a blank well holds for one table entry. */
  function BlankItem(id: string, channel: string, exposure: int): MarkerItem {
    MarkerItem(id, MarkerType, if channel == Dapi then Dapi else NoMarker,
      NoValue, NoValue, NoValue, channel, channel, Some(exposure), NoValue)
  }

  /** The item a cycle well holds for one table entry before any marker is placed. */
  function DefaultItem(channel: string, exposure: int): MarkerItem {
    MarkerItem(ZeroId, MarkerType, if channel == Dapi then Dapi else NoMarker,
      NoValue, NoValue, NoValue, channel, channel, Some(exposure),
      if channel == Dapi then Inventoried else NoValue)
  }

  /**
   * A blank well: one item per table entry, in table order, all carrying the
   * blank id, with the entry's channel as channel and dye and its exposure.
   */
  function BlankWell(name: string, id: string, table: Table): (w: WellItem)
    ensures w.wellName == name && |w.items| == |table|
    ensures forall i :: 0 <= i < |table| ==>
      && w.items[i].id == id
      && w.items[i].channel == table[i].0 == w.items[i].dye
      && w.items[i].exposure == Some(table[i].1)
      && (w.items[i].markerName == Dapi <==> table[i].0 == Dapi)
      && w.items[i].panel == NoValue
  {
    WellItem(name, seq(|table|, i requires 0 <= i < |table| => BlankItem(id, table[i].0, table[i].1)))
  }

  /**
   * A cycle well before the markers are placed: one item per table entry, in
   * table order, with the all-zero id, and "Inventoried" as panel exactly on DAPI.
   */
  function DefaultWell(name: string, table: Table): (w: WellItem)
    ensures w.wellName == name && |w.items| == |table|
    ensures forall i :: 0 <= i < |table| ==>
      && w.items[i].id == ZeroId
      && w.items[i].channel == table[i].0 == w.items[i].dye
      && w.items[i].exposure == Some(table[i].1)
      && (w.items[i].panel == Inventoried <==> table[i].0 == Dapi)
      && (w.items[i].markerName == Dapi <==> table[i].0 == Dapi)
  {
    WellItem(name, seq(|table|, i requires 0 <= i < |table| => DefaultItem(table[i].0, table[i].1)))
  }

  /** The item a retained record places in its cycle's well. */
  function RecordItem(r: MarkerRecord, id: string): (item: MarkerItem)
    ensures item.channel == r.channel == item.dye && item.id == id && item.markerName == r.markerName
    ensures item.barcode == r.cid && item.reporter == r.oligo && item.clone == r.clone
    ensures item.exposure == Some(r.msec)
  {
    MarkerItem(id, MarkerType, r.markerName, r.cid, r.oligo, r.clone, r.channel, r.channel, Some(r.msec), NoValue)
  }

  // ---------------------------------------------------------------- well lists

  function NamesOf(wells: seq<WellItem>): seq<string> {
    seq(|wells|, i requires 0 <= i < |wells| => wells[i].wellName)
  }

  function ChannelsOf(items: seq<MarkerItem>): seq<string> {
    seq(|items|, i requires 0 <= i < |items| => items[i].channel)
  }

  /** `_well_exists`. */
  function HasWell(wells: seq<WellItem>, name: string): (b: bool)
    ensures b <==> exists i :: 0 <= i < |wells| && wells[i].wellName == name
  {
    assert forall i :: 0 <= i < |wells| ==> NamesOf(wells)[i] == wells[i].wellName;
    name in NamesOf(wells)
  }

  /** Appending a well unless one of that name exists (`add_well_blank`, `add_well_default`). */
  function WithWell(wells: seq<WellItem>, w: WellItem): (r: seq<WellItem>)
    ensures HasWell(wells, w.wellName) ==> r == wells
    ensures !HasWell(wells, w.wellName) ==> r == wells + [w]
    ensures NoDup(NamesOf(wells)) ==> NoDup(NamesOf(r))
  {
    if HasWell(wells, w.wellName) then wells
    else
      assert NamesOf(wells + [w]) == NamesOf(wells) + [w.wellName];
      wells + [w]
  }

  /**
   * `update_well`: replace the first item with the given channel in the first
   * well with the given name. A missing well or channel is an error.
   */
  function UpdatedWells(wells: seq<WellItem>, name: string, channel: string, item: MarkerItem): (r: Result<seq<WellItem>>)
    ensures r.Err? <==>
      (!HasWell(wells, name) || channel !in ChannelsOf(wells[FirstIndexOf(NamesOf(wells), name).value].items))
    ensures !HasWell(wells, name) ==> r == Err(WellNotFound(name))
    ensures r.Ok? ==>
      var i := FirstIndexOf(NamesOf(wells), name).value;
      var j := FirstIndexOf(ChannelsOf(wells[i].items), channel).value;
      && |r.value| == |wells|
      && NamesOf(r.value) == NamesOf(wells)
      && (forall k :: 0 <= k < |wells| && k != i ==> r.value[k] == wells[k])
      && |r.value[i].items| == |wells[i].items|
      && r.value[i].items[j] == item
      && (forall m :: 0 <= m < |wells[i].items| && m != j ==> r.value[i].items[m] == wells[i].items[m])
  {
    match FirstIndexOf(NamesOf(wells), name)
    case None => Err(WellNotFound(name))
    case Some(i) =>
      match FirstIndexOf(ChannelsOf(wells[i].items), channel)
      case None => Err(ChannelNotFound(channel, name))
      case Some(j) =>
        var u := wells[i].(items := wells[i].items[j := item]);
        assert NamesOf(wells[i := u]) == NamesOf(wells);
        Ok(wells[i := u])
  }

  /**
   * The item `update_well` would replace: the first item on the channel in
   * the first well with the name, if both exist.
   */
  function Slot(wells: seq<WellItem>, name: string, channel: string): Option<MarkerItem> {
    match FirstIndexOf(NamesOf(wells), name)
    case None => None
    case Some(i) =>
      match FirstIndexOf(ChannelsOf(wells[i].items), channel)
      case None => None
      case Some(j) => Some(wells[i].items[j])
  }

  /** An item on its own channel, once written, is what the slot then holds. */
  lemma UpdatedWellsReadBack(wells: seq<WellItem>, name: string, channel: string, item: MarkerItem)
    requires UpdatedWells(wells, name, channel, item).Ok?
    requires item.channel == channel
    ensures Slot(UpdatedWells(wells, name, channel, item).value, name, channel) == Some(item)
  {
    var r := UpdatedWells(wells, name, channel, item).value;
    var i := FirstIndexOf(NamesOf(wells), name).value;
    var j := FirstIndexOf(ChannelsOf(wells[i].items), channel).value;
    assert ChannelsOf(r[i].items) == ChannelsOf(wells[i].items);
  }

  /** Writing one slot leaves every other (name, channel) slot as it was. */
  lemma UpdatedWellsFrame(wells: seq<WellItem>, name: string, channel: string, item: MarkerItem,
                          name': string, channel': string)
    requires UpdatedWells(wells, name, channel, item).Ok?
    requires item.channel == channel
    requires name' != name || channel' != channel
    ensures Slot(UpdatedWells(wells, name, channel, item).value, name', channel') == Slot(wells, name', channel')
  {
    var r := UpdatedWells(wells, name, channel, item).value;
    var i := FirstIndexOf(NamesOf(wells), name).value;
    var j := FirstIndexOf(ChannelsOf(wells[i].items), channel).value;
    assert ChannelsOf(r[i].items) == ChannelsOf(wells[i].items);
    match FirstIndexOf(NamesOf(wells), name')
    case None =>
    case Some(i') =>
      if i' == i {
        assert name' == name;
        match FirstIndexOf(ChannelsOf(wells[i].items), channel')
        case None =>
        case Some(j') =>
          assert j' != j;
      }
  }

  // ---------------------------------------------------------------- final sort

  /** The first well, in list order, whose name the order list lacks (where `list.index` raises). */
  function FirstUnordered(wells: seq<WellItem>, order: seq<string>): (r: Option<nat>)
    ensures r.None? <==> forall i :: 0 <= i < |wells| ==> wells[i].wellName in order
    ensures r.Some? ==> r.value < |wells| && wells[r.value].wellName !in order
    ensures r.Some? ==> forall i :: 0 <= i < r.value ==> wells[i].wellName in order
  {
    if wells == [] then None
    else if wells[0].wellName !in order then Some(0)
    else match FirstUnordered(wells[1..], order)
      case None => None
      case Some(i) => Some(i + 1)
  }

  predicate AllOrdered(wells: seq<WellItem>, order: seq<string>) {
    forall i :: 0 <= i < |wells| ==> wells[i].wellName in order
  }

  /** The sort key: `order.index(name)`. */
  function Rank(order: seq<string>, name: string): nat
    requires name in order
  {
    FirstIndexOf(order, name).value
  }

  predicate SortedByRank(wells: seq<WellItem>, order: seq<string>)
    requires AllOrdered(wells, order)
  {
    forall i, j :: 0 <= i < j < |wells| ==> Rank(order, wells[i].wellName) <= Rank(order, wells[j].wellName)
  }

  /** The wells whose key is `rank`, in list order. */
  function WithRank(wells: seq<WellItem>, order: seq<string>, rank: nat): seq<WellItem>
    requires AllOrdered(wells, order)
  {
    if wells == [] then []
    else if Rank(order, wells[0].wellName) == rank then [wells[0]] + WithRank(wells[1..], order, rank)
    else WithRank(wells[1..], order, rank)
  }

  /** Insert w before the first well whose key is not smaller than its own. */
  function InsertByRank(w: WellItem, wells: seq<WellItem>, order: seq<string>): (r: seq<WellItem>)
    requires w.wellName in order && AllOrdered(wells, order)
    ensures AllOrdered(r, order)
    ensures multiset(r) == multiset(wells) + multiset{w}
    ensures |r| == |wells| + 1
    ensures forall x :: x in r <==> x == w || x in wells
  {
    if wells == [] || Rank(order, w.wellName) <= Rank(order, wells[0].wellName) then [w] + wells
    else
      assert wells == [wells[0]] + wells[1..];
      [wells[0]] + InsertByRank(w, wells[1..], order)
  }

  /** A stable sort by key (insertion sort, the earlier well inserted in front). */
  function SortSpec(wells: seq<WellItem>, order: seq<string>): (r: seq<WellItem>)
    requires AllOrdered(wells, order)
    ensures AllOrdered(r, order)
    ensures multiset(r) == multiset(wells)
    ensures forall x :: x in r <==> x in wells
  {
    if wells == [] then []
    else
      assert wells == [wells[0]] + wells[1..];
      InsertByRank(wells[0], SortSpec(wells[1..], order), order)
  }

  /**
   * `sorted(wells, key=lambda w: order.index(w.wellName))`: an error naming the
   * first well the order list lacks, otherwise the stable sort by that key.
   */
  function SortByOrder(wells: seq<WellItem>, order: seq<string>): (r: Result<seq<WellItem>>)
    ensures r.Err? <==> !AllOrdered(wells, order)
    ensures r.Ok? ==> r.value == SortSpec(wells, order)
  {
    match FirstUnordered(wells, order)
    case Some(i) => Err(NotInWellOrder(wells[i].wellName))
    case None => Ok(SortSpec(wells, order))
  }

  /** Inserting into a sorted list keeps it sorted. */
  lemma {:induction false} InsertByRankSorted(w: WellItem, wells: seq<WellItem>, order: seq<string>)
    requires w.wellName in order && AllOrdered(wells, order)
    requires SortedByRank(wells, order)
    ensures SortedByRank(InsertByRank(w, wells, order), order)
    decreases |wells|
  {
    if wells == [] || Rank(order, w.wellName) <= Rank(order, wells[0].wellName) {
      SortedCons(w, wells, order);
    } else {
      var rest := InsertByRank(w, wells[1..], order);
      InsertByRankSorted(w, wells[1..], order);
      InsertByRankAbove(w, wells[1..], order, Rank(order, wells[0].wellName) - 1);
      SortedCons(wells[0], rest, order);
    }
  }

  /** A well no later in the order than any well of a sorted list can go in front. */
  lemma SortedCons(x: WellItem, wells: seq<WellItem>, order: seq<string>)
    requires x.wellName in order && AllOrdered(wells, order) && SortedByRank(wells, order)
    requires wells != [] ==> Rank(order, x.wellName) <= Rank(order, wells[0].wellName)
    ensures AllOrdered([x] + wells, order) && SortedByRank([x] + wells, order)
  {
    var r := [x] + wells;
    forall i, j | 0 <= i < j < |r| ensures Rank(order, r[i].wellName) <= Rank(order, r[j].wellName) {
      assert r[j] == wells[j - 1];
      if 0 < i {
        assert r[i] == wells[i - 1];
      } else if 1 < j {
        assert Rank(order, wells[0].wellName) <= Rank(order, wells[j - 1].wellName);
      }
    }
  }

  /** Insertion keeps every key above a bound that w and all the wells are above. */
  lemma InsertByRankAbove(w: WellItem, wells: seq<WellItem>, order: seq<string>, lo: int)
    requires w.wellName in order && AllOrdered(wells, order)
    requires lo < Rank(order, w.wellName)
    requires forall i :: 0 <= i < |wells| ==> lo < Rank(order, wells[i].wellName)
    ensures forall j :: 0 <= j < |InsertByRank(w, wells, order)| ==>
      lo < Rank(order, InsertByRank(w, wells, order)[j].wellName)
  {
    var r := InsertByRank(w, wells, order);
    forall j | 0 <= j < |r| ensures lo < Rank(order, r[j].wellName) {
      assert r[j] in r;
      if r[j] != w {
        var m :| 0 <= m < |wells| && wells[m] == r[j];
      }
    }
  }

  /** Inserting w puts it in front of the wells sharing its key and moves no other key's wells. */
  lemma {:induction false} InsertByRankStable(w: WellItem, wells: seq<WellItem>, order: seq<string>, v: nat)
    requires w.wellName in order && AllOrdered(wells, order)
    ensures WithRank(InsertByRank(w, wells, order), order, v) ==
      if v == Rank(order, w.wellName) then [w] + WithRank(wells, order, v) else WithRank(wells, order, v)
    decreases |wells|
  {
    var r := InsertByRank(w, wells, order);
    if wells == [] || Rank(order, w.wellName) <= Rank(order, wells[0].wellName) {
      assert r[0] == w && r[1..] == wells;
    } else {
      InsertByRankStable(w, wells[1..], order, v);
      assert r[0] == wells[0] && r[1..] == InsertByRank(w, wells[1..], order);
    }
  }

  /**
   * The final sort returns a permutation of the wells, ordered by key, and
   * keeps wells with equal keys in their original order.
   */
  lemma {:induction false} SortSpecSorted(wells: seq<WellItem>, order: seq<string>)
    requires AllOrdered(wells, order)
    ensures multiset(SortSpec(wells, order)) == multiset(wells)
    ensures SortedByRank(SortSpec(wells, order), order)
    ensures forall v :: WithRank(SortSpec(wells, order), order, v) == WithRank(wells, order, v)
    decreases |wells|
  {
    if wells != [] {
      SortSpecSorted(wells[1..], order);
      InsertByRankSorted(wells[0], SortSpec(wells[1..], order), order);
      forall v ensures WithRank(SortSpec(wells, order), order, v) == WithRank(wells, order, v) {
        InsertByRankStable(wells[0], SortSpec(wells[1..], order), order, v);
      }
    }
  }

  predicate StrictlyRanked(wells: seq<WellItem>, order: seq<string>)
    requires AllOrdered(wells, order)
  {
    forall i, j :: 0 <= i < j < |wells| ==> Rank(order, wells[i].wellName) < Rank(order, wells[j].wellName)
  }

  /** Inserting a well of a new name into a strictly ranked list keeps it strictly ranked. */
  lemma {:induction false} InsertByRankStrict(w: WellItem, wells: seq<WellItem>, order: seq<string>)
    requires w.wellName in order && AllOrdered(wells, order)
    requires StrictlyRanked(wells, order)
    requires forall i :: 0 <= i < |wells| ==> wells[i].wellName != w.wellName
    ensures StrictlyRanked(InsertByRank(w, wells, order), order)
    decreases |wells|
  {
    var rw := Rank(order, w.wellName);
    if wells == [] || rw <= Rank(order, wells[0].wellName) {
      if wells != [] {
        assert order[rw] == w.wellName;
        assert rw != Rank(order, wells[0].wellName);
      }
      StrictCons(w, wells, order);
    } else {
      var rest := InsertByRank(w, wells[1..], order);
      InsertByRankStrict(w, wells[1..], order);
      InsertByRankAbove(w, wells[1..], order, Rank(order, wells[0].wellName));
      StrictCons(wells[0], rest, order);
    }
  }

  /** A well strictly earlier in the order than the head of a strictly ranked list can go in front. */
  lemma StrictCons(x: WellItem, wells: seq<WellItem>, order: seq<string>)
    requires x.wellName in order && AllOrdered(wells, order) && StrictlyRanked(wells, order)
    requires wells != [] ==> Rank(order, x.wellName) < Rank(order, wells[0].wellName)
    ensures AllOrdered([x] + wells, order) && StrictlyRanked([x] + wells, order)
  {
    var r := [x] + wells;
    forall i, j | 0 <= i < j < |r| ensures Rank(order, r[i].wellName) < Rank(order, r[j].wellName) {
      assert r[j] == wells[j - 1];
      if 0 < i {
        assert r[i] == wells[i - 1];
      } else if 1 < j {
        assert Rank(order, wells[0].wellName) < Rank(order, wells[j - 1].wellName);
      }
    }
  }

  /** Every well of `a` is a well of `b`, so every name of `a` is a name of `b`. */
  lemma NamesOfSubset(a: seq<WellItem>, b: seq<WellItem>)
    requires forall w :: w in a ==> w in b
    ensures forall x :: x in NamesOf(a) ==> x in NamesOf(b)
  {
    forall x | x in NamesOf(a) ensures x in NamesOf(b) {
      var i :| 0 <= i < |a| && NamesOf(a)[i] == x;
      assert a[i] in a;
      var m :| 0 <= m < |b| && b[m] == a[i];
      assert NamesOf(b)[m] == x;
    }
  }

  /** Sorting keeps the set of well names. */
  lemma SortSpecNames(wells: seq<WellItem>, order: seq<string>)
    requires AllOrdered(wells, order)
    ensures forall x :: x in NamesOf(SortSpec(wells, order)) <==> x in NamesOf(wells)
  {
    var r := SortSpec(wells, order);
    NamesOfSubset(r, wells);
    NamesOfSubset(wells, r);
  }

  /** Sorting wells of distinct names orders them strictly by key. */
  lemma {:induction false} SortSpecStrict(wells: seq<WellItem>, order: seq<string>)
    requires AllOrdered(wells, order)
    requires NoDup(NamesOf(wells))
    ensures StrictlyRanked(SortSpec(wells, order), order)
    decreases |wells|
  {
    if wells != [] {
      var rest := SortSpec(wells[1..], order);
      assert NamesOf(wells[1..]) == NamesOf(wells)[1..];
      SortSpecStrict(wells[1..], order);
      forall i | 0 <= i < |rest| ensures rest[i].wellName != wells[0].wellName {
        assert rest[i] in rest;
        var m :| 0 <= m < |wells[1..]| && wells[1..][m] == rest[i];
        assert NamesOf(wells)[m + 1] == rest[i].wellName && NamesOf(wells)[0] == wells[0].wellName;
      }
      InsertByRankStrict(wells[0], rest, order);
    }
  }
}
