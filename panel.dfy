/**
 * The panel parser (`MarkerPanel.parse_codex_panel`, after the sheet has been
 * read): the two-channel spreadsheet layout becomes one list of marker records,
 * channel-1 records first, with every "blank" marker dropped.
 */
module Panel {
  import opened Wrappers
  import opened Text
  import opened Seqs

  /** One spreadsheet cell as read: missing (NaN), a whole number, or text. */
  datatype Cell = Empty | Whole(n: int) | Words(s: string)

  /** The sheet as read: the header row and the data rows. */
  datatype Sheet = Sheet(headers: seq<string>, rows: seq<seq<Cell>>)

  datatype MarkerRecord = MarkerRecord(
    cycle: int,
    channel: string,
    markerName: string,
    oligo: string,
    cid: string,
    clone: string,
    msec: int)

  /** Channel 1 occupies sheet columns 0..8; channel 2 column 0 and columns 10..17. */
  const Channel1Columns: seq<nat> := [0, 1, 2, 3, 4, 5, 6, 7, 8]
  const Channel2Columns: seq<nat> := [0, 10, 11, 12, 13, 14, 15, 16, 17]
  const MinColumns: nat := 18

  /** The columns looked up by name; the marker column is found by position. */
  const MarkerName: string := "marker_name"
  const FieldNames: seq<string> := ["cycle", "oligo", "cid", "clone", "msec"]

  /** A row shorter than the header reads as missing cells, as read_excel pads it. */
  function CellAt(row: seq<Cell>, col: nat): Cell {
    if col < |row| then row[col] else Empty
  }

  /** A cell after `fillna("None")` and `astype(str)`. */
  function AsText(c: Cell): string {
    match c
    case Empty => "None"
    case Whole(n) => IntToString(n)
    case Words(s) => s
  }

  /** A cell after `fillna("None")` and `astype(int)`: only whole numbers convert. */
  function AsInt(c: Cell, column: string): (r: Result<int>)
    ensures r.Ok? <==> c.Whole?
  {
    match c
    case Whole(n) => Ok(n)
    case _ => Err(NotAnInteger(column))
  }

  /**
   * The labels of one channel block after the marker column (block position 1)
   * is renamed to "marker_name"; `rename` relabels every column carrying that name.
   */
  function BlockLabels(hs: seq<string>, block: seq<nat>): (labels: seq<string>)
    requires |block| > 1 && forall k :: 0 <= k < |block| ==> block[k] < |hs|
    ensures |labels| == |block| && labels[1] == MarkerName
  {
    seq(|block|, k requires 0 <= k < |block| =>
      if hs[block[k]] == hs[block[1]] then MarkerName else hs[block[k]])
  }

  /** Where each canonical column of one block sits in the sheet, if it is there. */
  datatype BlockLayout = BlockLayout(
    channel: string,
    marker: nat,
    cycle: Option<nat>,
    oligo: Option<nat>,
    cid: Option<nat>,
    clone: Option<nat>,
    msec: Option<nat>)

  function Locate(labels: seq<string>, block: seq<nat>, name: string): (r: Option<nat>)
    requires |labels| == |block|
    ensures r.Some? <==> name in labels
    ensures r.Some? ==> r.value in block
  {
    match FirstIndexOf(labels, name)
    case None => None
    case Some(k) => Some(block[k])
  }

  function Layout(hs: seq<string>, block: seq<nat>, channel: string): BlockLayout
    requires |block| > 1 && forall k :: 0 <= k < |block| ==> block[k] < |hs|
  {
    var labels := BlockLabels(hs, block);
    BlockLayout(
      channel,
      Locate(labels, block, MarkerName).value,
      Locate(labels, block, "cycle"),
      Locate(labels, block, "oligo"),
      Locate(labels, block, "cid"),
      Locate(labels, block, "clone"),
      Locate(labels, block, "msec"))
  }

  /**
   * Selecting the canonical columns after `pd.concat` fails for the first
   * column that neither block has; a column only one block has reads as
   * missing in the other block's rows.
   */
  function MissingField(l1: BlockLayout, l2: BlockLayout): (r: Option<string>)
    ensures r.Some? ==> r.value in FieldNames
    ensures r.None? <==>
      && (l1.cycle.Some? || l2.cycle.Some?) && (l1.oligo.Some? || l2.oligo.Some?)
      && (l1.cid.Some? || l2.cid.Some?) && (l1.clone.Some? || l2.clone.Some?)
      && (l1.msec.Some? || l2.msec.Some?)
  {
    if l1.cycle.None? && l2.cycle.None? then Some("cycle")
    else if l1.oligo.None? && l2.oligo.None? then Some("oligo")
    else if l1.cid.None? && l2.cid.None? then Some("cid")
    else if l1.clone.None? && l2.clone.None? then Some("clone")
    else if l1.msec.None? && l2.msec.None? then Some("msec")
    else None
  }

  function CellOf(row: seq<Cell>, col: Option<nat>): Cell {
    match col
    case None => Empty
    case Some(c) => CellAt(row, c)
  }

  /** One row of one block as a record, or the failed integer conversion. */
  function RecordOf(row: seq<Cell>, l: BlockLayout): (r: Result<MarkerRecord>)
    ensures r.Ok? <==> CellOf(row, l.cycle).Whole? && CellOf(row, l.msec).Whole?
    ensures r.Ok? ==> r.value.channel == l.channel && r.value.markerName == AsText(CellAt(row, l.marker))
  {
    var cycle :- AsInt(CellOf(row, l.cycle), "cycle");
    var msec :- AsInt(CellOf(row, l.msec), "msec");
    Ok(MarkerRecord(
      cycle, l.channel, AsText(CellAt(row, l.marker)),
      AsText(CellOf(row, l.oligo)), AsText(CellOf(row, l.cid)), AsText(CellOf(row, l.clone)),
      msec))
  }

  /** Every row of one block, in row order; fails if any row fails. */
  function RecordsOf(rows: seq<seq<Cell>>, l: BlockLayout): (r: Result<seq<MarkerRecord>>)
    ensures r.Ok? <==> forall i :: 0 <= i < |rows| ==> RecordOf(rows[i], l).Ok?
    ensures r.Ok? ==> |r.value| == |rows|
    ensures r.Ok? ==> forall i :: 0 <= i < |rows| ==> r.value[i] == RecordOf(rows[i], l).value
    ensures r.Ok? ==> OnChannel(r.value, l.channel)
  {
    if rows == [] then Ok([])
    else
      var first :- RecordOf(rows[0], l);
      var rest :- RecordsOf(rows[1..], l);
      Ok([first] + rest)
  }

  predicate OnChannel(rs: seq<MarkerRecord>, channel: string) {
    forall i :: 0 <= i < |rs| ==> rs[i].channel == channel
  }

  /** The records whose marker name does not contain "blank" in any case, in order. */
  function DropBlank(rs: seq<MarkerRecord>): (r: seq<MarkerRecord>)
    ensures |r| <= |rs|
    ensures forall i :: 0 <= i < |r| ==> !ContainsBlank(r[i].markerName)
    ensures forall x {:trigger x in r} :: x in r <==> x in rs && !ContainsBlank(x.markerName)
  {
    if rs == [] then []
    else
      var rest := DropBlank(rs[1..]);
      assert forall x :: x in rs <==> x == rs[0] || x in rs[1..];
      if ContainsBlank(rs[0].markerName) then rest else [rs[0]] + rest
  }

  /** Filtering commutes with concatenation, so relative order is kept. */
  lemma {:induction false} DropBlankConcat(a: seq<MarkerRecord>, b: seq<MarkerRecord>)
    ensures DropBlank(a + b) == DropBlank(a) + DropBlank(b)
    decreases |a|
  {
    if a != [] {
      assert (a + b)[1..] == a[1..] + b;
      DropBlankConcat(a[1..], b);
    } else {
      assert a + b == b;
    }
  }

  lemma {:induction false} DropBlankOnChannel(rs: seq<MarkerRecord>, channel: string)
    requires OnChannel(rs, channel)
    ensures OnChannel(DropBlank(rs), channel)
    decreases |rs|
  {
    if rs != [] {
      DropBlankOnChannel(rs[1..], channel);
    }
  }

  /** A record list with no blank marker passes the filter unchanged. */
  lemma {:induction false} DropBlankKeepsClean(rs: seq<MarkerRecord>)
    requires forall i :: 0 <= i < |rs| ==> !ContainsBlank(rs[i].markerName)
    ensures DropBlank(rs) == rs
    decreases |rs|
  {
    if rs != [] {
      DropBlankKeepsClean(rs[1..]);
    }
  }

  /** The cleaned headers of the sheet. */
  function NormalisedHeaders(headers: seq<string>): (hs: seq<string>)
    ensures |hs| == |headers|
    ensures forall i :: 0 <= i < |hs| ==> hs[i] == NormaliseHeader(headers[i])
  {
    seq(|headers|, i requires 0 <= i < |headers| => NormaliseHeader(headers[i]))
  }

  /** A header as the column lookups expect it: lower case, no surrounding whitespace. */
  predicate CleanHeader(h: string) {
    && (forall k :: 0 <= k < |h| ==> !IsUpper(h[k]))
    && (|h| > 0 ==> !IsSpace(h[0]) && !IsSpace(h[|h| - 1]))
  }

  /** Every cleaned header is clean and no longer than the raw one it came from. */
  lemma NormalisedHeadersClean(headers: seq<string>)
    ensures forall i :: 0 <= i < |headers| ==>
      CleanHeader(NormalisedHeaders(headers)[i]) && |NormalisedHeaders(headers)[i]| <= |headers[i]|
  {
    forall i | 0 <= i < |headers|
      ensures CleanHeader(NormalisedHeaders(headers)[i]) && |NormalisedHeaders(headers)[i]| <= |headers[i]|
    {
      NormaliseHeaderSpec(headers[i]);
    }
  }

  lemma BlocksInRange(n: nat)
    requires n >= MinColumns
    ensures forall k :: 0 <= k < |Channel1Columns| ==> Channel1Columns[k] < n
    ensures forall k :: 0 <= k < |Channel2Columns| ==> Channel2Columns[k] < n
  {
  }

  function Layouts(sheet: Sheet, channel1: string, channel2: string): (BlockLayout, BlockLayout)
    requires |sheet.headers| >= MinColumns
  {
    var hs := NormalisedHeaders(sheet.headers);
    BlocksInRange(|hs|);
    (Layout(hs, Channel1Columns, channel1), Layout(hs, Channel2Columns, channel2))
  }

  /** Both blocks' records concatenated and filtered, once the layouts are known. */
  function ParseRows(rows: seq<seq<Cell>>, l1: BlockLayout, l2: BlockLayout): Result<seq<MarkerRecord>> {
    match MissingField(l1, l2)
    case Some(name) => Err(MissingColumn(name))
    case None =>
      var recs1 :- RecordsOf(rows, l1);
      var recs2 :- RecordsOf(rows, l2);
      Ok(DropBlank(recs1 + recs2))
  }

  /** `parse_codex_panel` from the read sheet onwards. */
  function ParsePanel(sheet: Sheet, channel1: string, channel2: string): Result<seq<MarkerRecord>> {
    if |sheet.headers| < MinColumns then Err(TooFewColumns(|sheet.headers|))
    else
      var ls := Layouts(sheet, channel1, channel2);
      ParseRows(sheet.rows, ls.0, ls.1)
  }

  /**
   * When the rows parse: no retained marker name contains "blank" in any
   * case, the first k records are channel 1 and the rest channel 2, each part
   * holding at most one record per row.
   */
  lemma ParseRowsOrder(rows: seq<seq<Cell>>, l1: BlockLayout, l2: BlockLayout) returns (k: nat)
    requires ParseRows(rows, l1, l2).Ok?
    ensures var rs := ParseRows(rows, l1, l2).value;
      && k <= |rs| && k <= |rows| && |rs| - k <= |rows|
      && (forall i :: 0 <= i < |rs| ==> !ContainsBlank(rs[i].markerName))
      && (forall i :: 0 <= i < k ==> rs[i].channel == l1.channel)
      && (forall i :: k <= i < |rs| ==> rs[i].channel == l2.channel)
  {
    var recs1 := RecordsOf(rows, l1).value;
    var recs2 := RecordsOf(rows, l2).value;
    assert ParseRows(rows, l1, l2).value == DropBlank(recs1 + recs2);
    k := SplitByChannel(recs1, recs2, l1.channel, l2.channel);
  }

  lemma SplitByChannel(recs1: seq<MarkerRecord>, recs2: seq<MarkerRecord>, c1: string, c2: string)
    returns (k: nat)
    requires OnChannel(recs1, c1) && OnChannel(recs2, c2)
    ensures var rs := DropBlank(recs1 + recs2);
      && k <= |rs| && k <= |recs1| && |rs| - k <= |recs2|
      && (forall i :: 0 <= i < k ==> rs[i].channel == c1)
      && (forall i :: k <= i < |rs| ==> rs[i].channel == c2)
  {
    DropBlankConcat(recs1, recs2);
    var d1, d2 := DropBlank(recs1), DropBlank(recs2);
    DropBlankOnChannel(recs1, c1);
    DropBlankOnChannel(recs2, c2);
    k := |d1|;
    var rs := d1 + d2;
    assert forall i :: 0 <= i < k ==> rs[i] == d1[i];
    assert forall i :: k <= i < |rs| ==> rs[i] == d2[i - k];
  }

  lemma ParsePanelOrder(sheet: Sheet, channel1: string, channel2: string) returns (k: nat)
    requires ParsePanel(sheet, channel1, channel2).Ok?
    ensures var rs := ParsePanel(sheet, channel1, channel2).value;
      && k <= |rs| && k <= |sheet.rows| && |rs| - k <= |sheet.rows|
      && (forall i :: 0 <= i < |rs| ==> !ContainsBlank(rs[i].markerName))
      && (forall i :: 0 <= i < k ==> rs[i].channel == channel1)
      && (forall i :: k <= i < |rs| ==> rs[i].channel == channel2)
  {
    var ls := Layouts(sheet, channel1, channel2);
    assert ls.0.channel == channel1 && ls.1.channel == channel2;
    k := ParseRowsOrder(sheet.rows, ls.0, ls.1);
  }

  /**
   * The rows fail to parse exactly when a canonical column is in neither
   * block, or some row of either block has a cycle or msec cell that is not a
   * whole number (blank rows included: the filter runs after the conversion).
   */
  lemma ParseRowsFails(rows: seq<seq<Cell>>, l1: BlockLayout, l2: BlockLayout)
    ensures MissingField(l1, l2).Some? ==>
      ParseRows(rows, l1, l2) == Err(MissingColumn(MissingField(l1, l2).value))
    ensures ParseRows(rows, l1, l2).Ok? <==>
      && MissingField(l1, l2).None?
      && forall i :: 0 <= i < |rows| ==>
           && CellOf(rows[i], l1.cycle).Whole? && CellOf(rows[i], l1.msec).Whole?
           && CellOf(rows[i], l2.cycle).Whole? && CellOf(rows[i], l2.msec).Whole?
  {
  }

  /** A sheet narrower than 18 columns is refused before anything else. */
  lemma ParsePanelTooNarrow(sheet: Sheet, channel1: string, channel2: string)
    requires |sheet.headers| < MinColumns
    ensures ParsePanel(sheet, channel1, channel2) == Err(TooFewColumns(|sheet.headers|))
  {
  }
}
