/**
 * The well mapper (`MarkerPanel.get_well_names`): the 7 x 12 plate grid in
 * row-major order and the mapping of sorted unique cycles onto the contiguous
 * run of wells that begins at the start well.
 */
module Plate {
  import opened Wrappers
  import opened Text
  import opened Seqs
  import opened Panel

  const RowLetters: string := "ABCDEFG"
  const ColumnCount: nat := 12
  const WellCount: nat := 84

  /** The well in plate row `row` (letter) and column `col` + 1. */
  function WellName(row: nat, col: nat): string
    requires row < |RowLetters| && col < ColumnCount
  {
    [RowLetters[row]] + NatToString(col + 1)
  }

  /** One plate row: its letter followed by each column number 1..12. */
  function RowWells(letter: char): (r: seq<string>)
    ensures |r| == ColumnCount
  {
    seq(ColumnCount, c requires 0 <= c < ColumnCount => [letter] + NatToString(c + 1))
  }

  /** `itertools.product(rows, cols)` for the given rows: the row is the outer loop. */
  function GridOf(rows: string): (g: seq<string>)
    ensures |g| == |rows| * 12
  {
    if rows == [] then [] else RowWells(rows[0]) + GridOf(rows[1..])
  }

  /** The plate grid A1, A2, ..., A12, B1, ..., G12. */
  function Grid(): (g: seq<string>)
    ensures |g| == WellCount
  {
    GridOf(RowLetters)
  }

  lemma {:induction false} GridOfAt(rows: string, row: nat, col: nat)
    requires row < |rows| && col < ColumnCount
    ensures row * 12 + col < |GridOf(rows)|
    ensures GridOf(rows)[row * 12 + col] == [rows[row]] + NatToString(col + 1)
    decreases row
  {
    if 0 < row {
      GridOfAt(rows[1..], row - 1, col);
      assert row * 12 + col == 12 + (row - 1) * 12 + col;
      assert rows[1..][row - 1] == rows[row];
    } else {
      assert RowWells(rows[0])[col] == [rows[0]] + NatToString(col + 1);
    }
  }

  /** Index row * 12 + col of the grid is row letter `row` followed by col + 1. */
  lemma GridAt(row: nat, col: nat)
    requires row < |RowLetters| && col < ColumnCount
    ensures row * 12 + col < WellCount
    ensures Grid()[row * 12 + col] == WellName(row, col)
  {
    GridOfAt(RowLetters, row, col);
  }

  /** The row index named by a row letter A..G. */
  function RowOf(letter: char): (r: Option<nat>)
    ensures r.Some? <==> letter in RowLetters
    ensures r.Some? ==> r.value < |RowLetters| && RowLetters[r.value] == letter
  {
    if 'A' <= letter <= 'G' then Some(letter as int - 'A' as int) else None
  }

  /** Each row letter reads back as its row. */
  lemma RowOfLetter(row: nat)
    requires row < |RowLetters|
    ensures RowOf(RowLetters[row]) == Some(row)
  {
    RowLettersNoDup();
  }

  /** The column index named by a column label: digits 1..12 without leading zeros. */
  function ColumnOf(digits: string): (r: Option<nat>)
    ensures r.Some? ==> r.value < ColumnCount && digits == NatToString(r.value + 1)
  {
    if !AllDigits(digits) then None
    else
      var col := DigitsValue(digits);
      if col < 1 || col > ColumnCount || NatToString(col) != digits then None
      else Some(col - 1)
  }

  /** Each column label reads back as its column. */
  lemma ColumnOfLabel(col: nat)
    requires col < ColumnCount
    ensures ColumnOf(NatToString(col + 1)) == Some(col)
  {
    DigitsRoundTrip(col + 1);
  }

  /**
   * The position of a well name on the grid, read back from the name itself:
   * a row letter followed by a column number 1..12 written without leading zeros.
   */
  function WellIndex(name: string): (r: Option<nat>)
    ensures r.Some? ==> r.value < WellCount
  {
    if |name| < 2 then None
    else match (RowOf(name[0]), ColumnOf(name[1..]))
      case (Some(row), Some(col)) => Some(row * 12 + col)
      case _ => None
  }

  /** A name that reads back as a position is the grid name at that position. */
  lemma WellIndexSound(name: string)
    ensures WellIndex(name).Some? ==> Grid()[WellIndex(name).value] == name
  {
    if WellIndex(name).Some? {
      var r := RowOf(name[0]).value;
      var c := ColumnOf(name[1..]).value;
      GridAt(r, c);
      assert name == [RowLetters[r]] + NatToString(c + 1);
    }
  }

  /** Every grid name reads back as its own position. */
  lemma WellIndexOfGrid(i: nat)
    requires i < WellCount
    ensures WellIndex(Grid()[i]) == Some(i)
  {
    var row, col := i / ColumnCount, i % ColumnCount;
    assert i == row * 12 + col;
    GridAt(row, col);
    WellNameParts(row, col);
  }

  /** A well name reads back as its row and column. */
  lemma WellNameParts(row: nat, col: nat)
    requires row < |RowLetters| && col < ColumnCount
    ensures WellIndex(WellName(row, col)) == Some(row * 12 + col)
  {
    var name := WellName(row, col);
    assert |name| >= 2 && name[1..] == NatToString(col + 1) by {
      DigitsRoundTrip(col + 1);
    }
    assert name[0] == RowLetters[row];
    ColumnOfLabel(col);
    RowOfLetter(row);
  }

  lemma RowLettersNoDup()
    ensures NoDup(RowLetters)
  {
  }

  /** A name is on the grid exactly when it reads back as a position. */
  lemma OnGridIff(name: string)
    ensures name in Grid() <==> WellIndex(name).Some?
  {
    WellIndexSound(name);
    if name in Grid() {
      var i :| 0 <= i < WellCount && Grid()[i] == name;
      WellIndexOfGrid(i);
    }
  }

  /** The 84 grid names are pairwise distinct. */
  lemma GridNoDup()
    ensures NoDup(Grid())
  {
    forall i, j | 0 <= i < j < WellCount ensures Grid()[i] != Grid()[j] {
      WellIndexOfGrid(i);
      WellIndexOfGrid(j);
    }
  }

  /** `well_names.index[well_names["well_name"] == x]`: every position holding x, ascending. */
  function Positions(s: seq<string>, x: string): (r: seq<nat>)
    ensures forall k :: 0 <= k < |r| ==> r[k] < |s| && s[r[k]] == x
    ensures forall i :: 0 <= i < |s| && s[i] == x ==> i in r
    ensures forall k, m :: 0 <= k < m < |r| ==> r[k] < r[m]
    decreases |s|
  {
    if s == [] then []
    else
      var p := Positions(s[..|s| - 1], x);
      if s[|s| - 1] == x then p + [|s| - 1] else p
  }

  /** A duplicate-free list holds any value at most once. */
  lemma PositionsNoDup(s: seq<string>, x: string)
    requires NoDup(s)
    ensures |Positions(s, x)| <= 1
  {
    var p := Positions(s, x);
    forall k | 0 <= k < |p| ensures p[k] == p[0] {
      assert s[p[k]] == x && s[p[0]] == x;
    }
  }

  /** The cycles of the records, ascending and without repeats. */
  function Cycles(records: seq<MarkerRecord>): (cs: seq<int>)
    ensures StrictlyIncreasing(cs)
    ensures forall c :: c in cs <==> exists i :: 0 <= i < |records| && records[i].cycle == c
  {
    var all := seq(|records|, i requires 0 <= i < |records| => records[i].cycle);
    assert forall c :: c in all <==> exists i :: 0 <= i < |records| && records[i].cycle == c by {
      forall i | 0 <= i < |records| ensures records[i].cycle in all {
        assert all[i] == records[i].cycle;
      }
      forall c ensures c in all ==> exists i :: 0 <= i < |records| && records[i].cycle == c {
        if c in all {
          var i :| 0 <= i < |all| && all[i] == c;
          assert records[i].cycle == c;
        }
      }
    }
    SortedUnique(all)
  }

  /** An ordered cycle -> well mapping, as the OrderedDict built by zip. */
  type CycleWellMap = seq<(int, string)>

  function Keys(m: CycleWellMap): seq<int> {
    seq(|m|, i requires 0 <= i < |m| => m[i].0)
  }

  function Values(m: CycleWellMap): seq<string> {
    seq(|m|, i requires 0 <= i < |m| => m[i].1)
  }

  function Zip(cycles: seq<int>, wells: seq<string>): (m: CycleWellMap)
    requires |cycles| == |wells|
  {
    seq(|cycles|, i requires 0 <= i < |cycles| => (cycles[i], wells[i]))
  }

  /** `well_name_dict[cycle]`. */
  function Lookup(m: CycleWellMap, cycle: int): (r: Option<string>)
    ensures r.Some? <==> cycle in Keys(m)
    ensures r.Some? ==> exists i :: 0 <= i < |m| && m[i] == (cycle, r.value)
  {
    match FirstIndexOf(Keys(m), cycle)
    case None => None
    case Some(i) => Some(m[i].1)
  }

  /** `get_well_names` (fusion_utils/generate_fusion_xpd.py). */
  function WellNames(records: seq<MarkerRecord>, startWell: string): Result<CycleWellMap> {
    var cycles := Cycles(records);
    var hits := Positions(Grid(), startWell);
    if |hits| == 0 then Err(StartWellNotFound(startWell))
    else if |hits| > 1 then Err(MultipleStartWells)
    else
      var start := hits[0];
      var end := start + |cycles|;
      if end > WellCount then Err(NotEnoughWells)
      else Ok(Zip(cycles, Grid()[start..end]))
  }

  /**
   * `get_well_names` (fusion.py), which first refuses records that were never
   * parsed and otherwise behaves as the other copy.
   */
  function WellNamesChecked(records: Option<seq<MarkerRecord>>, startWell: string): (r: Result<CycleWellMap>)
    ensures records.None? ==> r == Err(NotInitialised)
    ensures records.Some? ==> r == WellNames(records.value, startWell)
  {
    match records
    case None => Err(NotInitialised)
    case Some(rs) => WellNames(rs, startWell)
  }

  /**
   * The mapping succeeds exactly when the start well is on the grid and the
   * cycles fit in the wells from there to G12; it then sends the i-th smallest
   * cycle to the grid well start + i. The "multiple start wells" error never
   * happens, because grid names are distinct.
   */
  lemma WellNamesSpec(records: seq<MarkerRecord>, startWell: string)
    ensures var r := WellNames(records, startWell);
      var cycles := Cycles(records);
      && (WellIndex(startWell).None? ==> r == Err(StartWellNotFound(startWell)))
      && (WellIndex(startWell).Some? && WellIndex(startWell).value + |cycles| > WellCount ==>
            r == Err(NotEnoughWells))
      && (r.Ok? <==> WellIndex(startWell).Some? && WellIndex(startWell).value + |cycles| <= WellCount)
      && (r.Ok? ==>
            && Keys(r.value) == cycles
            && Values(r.value) == Grid()[WellIndex(startWell).value..WellIndex(startWell).value + |cycles|])
  {
    StartHits(startWell);
    var cycles := Cycles(records);
    if WellIndex(startWell).None? {
      assert WellNames(records, startWell) == Err(StartWellNotFound(startWell));
    } else {
      var start := WellIndex(startWell).value;
      WellNamesFrom(records, startWell, start);
      if start + |cycles| <= WellCount {
        ZipParts(cycles, Grid()[start..start + |cycles|]);
      }
    }
  }

  /** With the start well found once, only the capacity decides the outcome. */
  lemma WellNamesFrom(records: seq<MarkerRecord>, startWell: string, start: nat)
    requires Positions(Grid(), startWell) == [start]
    ensures var cycles := Cycles(records);
      WellNames(records, startWell) ==
        if start + |cycles| > WellCount then Err(NotEnoughWells)
        else Ok(Zip(cycles, Grid()[start..start + |cycles|]))
  {
  }

  /** The start-well search finds exactly the position the name reads back as. */
  lemma StartHits(startWell: string)
    ensures Positions(Grid(), startWell) ==
      if WellIndex(startWell).Some? then [WellIndex(startWell).value] else []
  {
    GridNoDup();
    PositionsNoDup(Grid(), startWell);
    OnGridIff(startWell);
    WellIndexSound(startWell);
    var hits := Positions(Grid(), startWell);
    if |hits| == 1 {
      assert Grid()[hits[0]] == startWell;
      WellIndexOfGrid(hits[0]);
    }
    if WellIndex(startWell).Some? {
      assert WellIndex(startWell).value in hits;
    }
  }

  lemma ZipParts(cycles: seq<int>, wells: seq<string>)
    requires |cycles| == |wells|
    ensures Keys(Zip(cycles, wells)) == cycles && Values(Zip(cycles, wells)) == wells
  {
  }

  /**
   * A successful mapping has distinct wells and covers every record's cycle,
   * so looking a record's cycle up never fails.
   */
  lemma WellMapCovers(records: seq<MarkerRecord>, startWell: string)
    requires WellNames(records, startWell).Ok?
    ensures NoDup(Values(WellNames(records, startWell).value))
    ensures StrictlyIncreasing(Keys(WellNames(records, startWell).value))
    ensures forall i :: 0 <= i < |records| ==>
      Lookup(WellNames(records, startWell).value, records[i].cycle).Some?
  {
    WellNamesSpec(records, startWell);
    var m := WellNames(records, startWell).value;
    var s := WellIndex(startWell).value;
    GridNoDup();
    NoDupSlice(Grid(), s, s + |Cycles(records)|);
    forall i | 0 <= i < |records| ensures records[i].cycle in Keys(m) {
      assert records[i].cycle in Cycles(records);
    }
  }

  /** A1 is the first well. */
  lemma FirstWellIndex()
    ensures WellIndex("A1") == Some(0)
  {
    WellNameParts(0, 0);
    assert WellName(0, 0) == "A1";
  }

  lemma SecondRowName()
    ensures WellName(1, 0) == "B1"
  {
    assert NatToString(1) == "1";
  }

  /** A start of A1 with 12 cycles fills row A exactly. */
  lemma TwelveCyclesFromA1(records: seq<MarkerRecord>)
    requires |Cycles(records)| == 12
    ensures WellNames(records, "A1").Ok?
    ensures forall i :: 0 <= i < 12 ==> Values(WellNames(records, "A1").value)[i] == WellName(0, i)
  {
    FirstWellIndex();
    WellNamesSpec(records, "A1");
    forall i | 0 <= i < 12 ensures Grid()[i] == WellName(0, i) {
      GridAt(0, i);
    }
  }

  /**
   * Thirteen cycles from A1 still fit (the grid has 84 wells) and run on to B1;
   * only start + cycles > 84 is refused.
   */
  lemma ThirteenCyclesFromA1(records: seq<MarkerRecord>)
    requires |Cycles(records)| == 13
    ensures WellNames(records, "A1").Ok?
    ensures Values(WellNames(records, "A1").value)[12] == "B1"
  {
    FirstWellIndex();
    WellNamesSpec(records, "A1");
    var m := WellNames(records, "A1").value;
    assert Values(m)[12] == Grid()[12];
    GridAt(1, 0);
    SecondRowName();
  }

  /** From G12, the last well, a single cycle fits and two do not. */
  lemma LastWellCapacity(records: seq<MarkerRecord>)
    requires |Cycles(records)| == 2
    ensures WellNames(records, "G12") == Err(NotEnoughWells)
  {
    GridAt(6, 11);
    assert NatToString(12) == NatToString(1) + [DigitChar(2)];
    assert WellName(6, 11) == "G12";
    WellIndexOfGrid(83);
    WellNamesSpec(records, "G12");
  }
}
