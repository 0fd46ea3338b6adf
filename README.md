# fusion_utils in Dafny

A model of the two scripts that turn a CODEX marker panel into a Fusion
experiment document (an `.xpd` file):

- `fusion_utils/generate_fusion_xpd.py` has the parameterised generator `generate_fusion_xpd`;
- `fusion.py` is an earlier script copy with fixed parameters (start well C1, blank wells H3 and H4).

Both run the same pipeline:

1. **Panel parsing** (`MarkerPanel.parse_codex_panel`), in module `Panel` with header cleaning in `Text`.
   - Headers are cleaned by `removesuffix(".1").strip().lower()`.
   - Each sheet row gives a channel-1 record (columns 0–8) and a channel-2 record (column 0 and columns 10–17).
   - All channel-1 records come before all channel-2 records.
   - Missing cells read as `"None"`.
   - Every record whose marker name contains "blank" in any case is dropped.
2. **Cycle → well mapping** (`get_well_names`), in module `Plate`.
   - The plate is the 84-well grid A1..G12, in row-major order.
   - The ascending distinct cycles go onto consecutive wells from the start well.
   - Errors: the start well is not on the grid, or the cycles run past G12.
3. **Unique ids** (`get_marker_uuids`), in module `Ids`. There are two variants:
   - The generator deduplicates every round and gives the blank wells the last id.
   - fusion.py appends one draw at a time until it holds n distinct draws, then slices the raw list: the blank wells get the first draw and the records the next ones, repeats included. `Assembly.FusionSpec` follows that code; `Assembly.FusionSpecCorrected` hands out the first distinct draws instead (see Findings).
4. **The document** (`BaseInfo`), in module `Xpd` as a class whose well list is updated in place.
   - Well and item values live in module `Items`.
   - `add_well_blank` and `add_well_default` add a well only when its name is new.
   - `update_well` replaces one item in place.
5. **Assembly and ordering** (the body of `generate_fusion_xpd`, and fusion.py lines 210–263), in module `Assembly`; the facts about the result are in `AssemblyFacts`. The steps are:
   - build the channel table from the fixed names DAPI, ATTO550, CY5 and AF750;
   - add the blank wells, then the cycle wells;
   - apply one update per record;
   - stable-sort the wells by their index in `blank_wells[:1] + cycle wells + blank_wells[1:]`.

Each imperative step is a method, proved against a function that specifies it:
- `BaseInfo`'s methods;
- the id loops `Ids.MarkerIdsDedup` and `Ids.DrawAppend`;
- the assembly loops in `Assembly`.

The lemmas are stated about those functions. Errors become values of `Wrappers.Error`, returned in a `Result`.

Where the two source files differ, each difference is modelled:
- the id loop;
- the blank filter: `str.contains` in the generator, `re.search` in fusion.py, which behave the same here;
- the `None` guard in fusion.py's `get_well_names`;
- how `update_well` fails: `UnboundLocalError` after a printed warning in the generator, `ValueError` from `list.index` in fusion.py.

Either way the update is fatal. The model returns `WellNotFound` or `ChannelNotFound` and changes nothing, and the whole run then fails. The generator's printed warnings read as if a missing well were skipped, but the code raises next; the model follows the code.

## Model

| member | source | states |
|---|---|---|
| Text.StripSpec | fusion_utils/generate_fusion_xpd.py:42 | `strip()` returns a slice of its input. Everything cut away on either side is whitespace, and a non-empty result starts and ends with a non-space character. |
| Text.TrimStartSpec | fusion_utils/generate_fusion_xpd.py:42 | Leading-whitespace removal drops exactly the maximal whitespace prefix. |
| Text.TrimEndSpec | fusion_utils/generate_fusion_xpd.py:42 | Trailing-whitespace removal drops exactly the maximal whitespace suffix. |
| Text.NormaliseHeaderSpec | fusion_utils/generate_fusion_xpd.py:41-44 | A cleaned header has no upper-case letter, no surrounding whitespace, and is no longer than the raw header. |
| Text.NormaliseHeaderOrder | fusion_utils/generate_fusion_xpd.py:42 | The suffix is removed before trimming: " Msec.1" cleans to "msec", but "Msec.1 " keeps its ".1". |
| Text.ContainsBlankSpec | fusion.py:71-74 | The case-insensitive search for "blank" succeeds exactly when some position starts a case-folded match of "blank". |
| Text.DigitsRoundTrip | fusion_utils/generate_fusion_xpd.py:94 | A column number rendered with `astype(str)` is a non-empty run of digits that reads back as the same number. |
| Panel.DropBlank | fusion_utils/generate_fusion_xpd.py:79-82 | The kept records are exactly the input records whose marker name has no case-insensitive "blank", and none of them contains it. |
| Panel.DropBlankConcat | fusion.py:71-75 | Filtering commutes with concatenation, so the relative order of the kept records is preserved. |
| Panel.DropBlankKeepsClean | fusion.py:71-75 | A record list with no blank marker passes the filter unchanged. |
| Panel.RecordsOf | fusion_utils/generate_fusion_xpd.py:47-58 | One record per row, in row order, all on the block's channel. The block fails exactly when some row has a cycle or msec cell that is not a whole number. |
| Panel.RecordOf | fusion_utils/generate_fusion_xpd.py:61-77 | A row converts exactly when its cycle and msec cells are whole numbers. The record carries the block's channel and the marker cell as text. |
| Panel.MissingField | fusion_utils/generate_fusion_xpd.py:62-64 | Selecting the seven columns fails exactly when one of cycle, oligo, cid, clone or msec is in neither block. |
| Panel.ParseRowsOrder | fusion_utils/generate_fusion_xpd.py:61-82 | The parsed records have no blank marker. The first k are channel 1 and the rest channel 2, each part with at most one record per row. |
| Panel.ParsePanelOrder | fusion.py:31-75 | The same order and filtering facts for the whole parse, with the configured channel names. |
| Panel.SplitByChannel | fusion_utils/generate_fusion_xpd.py:61-62 | Filtering two single-channel blocks leaves the first block's records before the second's. |
| Panel.NormalisedHeadersClean | fusion_utils/generate_fusion_xpd.py:41-44 | Every cleaned header has no upper-case letter and no surrounding whitespace, and is no longer than its raw header, so the column lookups that follow compare against clean names. |
| Plate.GridAt | fusion_utils/generate_fusion_xpd.py:90-94 | Grid position r*12+c is row letter r followed by column number c+1. |
| Plate.RowOf | fusion_utils/generate_fusion_xpd.py:90 | A letter names a row exactly when it is one of A–G, and then it is that row's letter. |
| Plate.ColumnOf | fusion_utils/generate_fusion_xpd.py:91-94 | A column label is accepted only as a column 1–12 written the way `astype(str)` writes it. |
| Plate.WellNameParts | fusion_utils/generate_fusion_xpd.py:90-94 | A well name built from row r and column c reads back as position r*12+c. |
| Plate.WellIndexSound | fusion_utils/generate_fusion_xpd.py:90-94 | A name that reads back as a position is the grid name at that position. |
| Plate.WellIndexOfGrid | fusion_utils/generate_fusion_xpd.py:90-94 | Reading a grid name back gives its position. |
| Plate.OnGridIff | fusion_utils/generate_fusion_xpd.py:97-99 | A name is on the grid exactly when it parses as a row letter A–G and a column 1–12. |
| Plate.GridNoDup | fusion_utils/generate_fusion_xpd.py:90-94 | The 84 grid names are pairwise distinct. |
| Plate.Positions | fusion_utils/generate_fusion_xpd.py:97 | Lists every index holding the name, ascending, and nothing else. |
| Plate.PositionsNoDup | fusion_utils/generate_fusion_xpd.py:100-101 | In a duplicate-free list a name occurs at most once, so the "multiple start wells" error cannot happen. |
| Plate.Cycles | fusion_utils/generate_fusion_xpd.py:87 | The cycles are strictly ascending and are exactly the cycles of the records. |
| Plate.Lookup | fusion_utils/generate_fusion_xpd.py:297 | The lookup finds a well exactly when the cycle is a key, and the pair is in the map. |
| Plate.WellNamesChecked | fusion.py:79-80 | Records that were never parsed give `NotInitialised`. Otherwise the result is the same as the generator's mapping. |
| Plate.WellNamesSpec | fusion_utils/generate_fusion_xpd.py:84-110 | An off-grid start well gives `StartWellNotFound`. start + cycles > 84 gives `NotEnoughWells`. Otherwise the mapping succeeds: the keys are the sorted distinct cycles, and the wells are the grid run start .. start+k-1, so the i-th cycle maps to grid well start+i. |
| Plate.WellNamesFrom | fusion_utils/generate_fusion_xpd.py:97-110 | Once the start well is found exactly once, only the capacity check decides between `NotEnoughWells` and the zipped mapping. |
| Plate.WellMapCovers | fusion_utils/generate_fusion_xpd.py:108-110 | The mapped wells are pairwise distinct, the keys ascend, and every record's cycle is found. |
| Plate.TwelveCyclesFromA1 | fusion_utils/generate_fusion_xpd.py:103-105 | Twelve cycles from A1 fill row A exactly. |
| Plate.ThirteenCyclesFromA1 | fusion.py:95-97 | Thirteen cycles from A1 still succeed, and the 13th goes to B1. |
| Plate.LastWellCapacity | fusion_utils/generate_fusion_xpd.py:103-105 | Two cycles from G12 give `NotEnoughWells`. |
| Ids.FirstDistinctIds | fusion_utils/generate_fusion_xpd.py:112-124 | Succeeds exactly when the stream holds more than recordCount distinct ids, and otherwise fails with `IdsExhausted`. One id per record and all ids distinct, the blank id included. The record ids followed by the blank id are the first recordCount+1 distinct ids of the stream. |
| Ids.MarkerIdsDedup | fusion_utils/generate_fusion_xpd.py:112-124 | The dedup-every-round loop returns exactly `FirstDistinctIds`: the first n distinct ids of the stream, or `IdsExhausted` when the stream runs out. |
| Ids.StopAfterStops | fusion.py:107-108 | The append loop stops exactly when the stream holds n distinct ids. |
| Ids.StopAfterLeast | fusion.py:107-108 | The loop stops at the first prefix holding exactly n distinct ids. |
| Ids.DrawAppend | fusion.py:103-108 | The append loop returns the shortest prefix of the stream holding n distinct ids, or `IdsExhausted`. |
| Ids.DrawAppendSpec | fusion.py:105-108 | The prefix drawn holds exactly n distinct ids and at least n draws; without its last draw it holds fewer. |
| Ids.AssignAsWrittenDistinctIff | fusion.py:109-110 | The ids as written (`AssignAsWritten`: blank id `uuids[0]`, record ids `uuids[1:n]` of the raw list) are collision-free exactly when the first n draws are pairwise distinct. |
| Ids.AssignAsWrittenCollision | fusion.py:105-110 | Draws a, a, b for one record: the record gets the blank id. |
| Ids.AssignCorrected | fusion.py:109-110 | Corrected: the first n distinct draws, the first of them for the blank wells. They are always collision-free. |
| Ids.AssignCorrectedAgrees | fusion.py:109-110 | With no repeat among the first n draws, the correction gives the same ids as the code as written. |
| Items.Get | fusion_utils/generate_fusion_xpd.py:177-180 | A key has a value exactly when it is in the table. |
| Items.PutSpec | fusion_utils/generate_fusion_xpd.py:180 | Assigning a key sets it and leaves the other keys alone. A new key goes at the end; an existing key keeps its position. |
| Items.PutAllKeys | fusion_utils/generate_fusion_xpd.py:177-180 | `OrderedDict.update` on a table without repeated keys: the keys are the old keys, then the new keys in first-assignment order. |
| Items.PutAllGet | fusion_utils/generate_fusion_xpd.py:180 | After `OrderedDict.update`, each key holds its last assigned value, or its old value if it was never assigned. |
| Items.MergeExposuresSpec | fusion_utils/generate_fusion_xpd.py:176-180 | A merged exposure table lists the channels once, in order, then the override keys that are not channels. Each key holds its override if given, else its channel default. |
| Items.DefaultChannelTable | fusion.py:143-148 | The default channel table is DAPI=10, ATTO550=150, CY5=150, AF750=1, in that order. |
| Items.DefaultMergeScenario | fusion.py:216-219 | The H3/H4 overrides of ATTO550 and CY5 to 150 give the same four entries, in the same order. |
| Items.ExtraOverrideScenario | fusion_utils/generate_fusion_xpd.py:180 | An override key that is not a channel (FITC) adds a fifth entry at the end. |
| Items.BlankWell | fusion_utils/generate_fusion_xpd.py:183-193 | One item per table entry, in order, each carrying the blank id, the entry's channel as channel and dye, and its exposure. The marker name is DAPI exactly on DAPI. |
| Items.DefaultWell | fusion_utils/generate_fusion_xpd.py:207-217 | One item per table entry, in order, with the all-zero id. The panel is "Inventoried" exactly on DAPI. |
| Items.HasWell | fusion_utils/generate_fusion_xpd.py:166-168 | True exactly when some well has the name. |
| Items.WithWell | fusion_utils/generate_fusion_xpd.py:170-174 | A taken name leaves the list unchanged. A new name appends exactly one well at the end. Unique names stay unique. |
| Items.UpdatedWellsReadBack | fusion_utils/generate_fusion_xpd.py:228-237 | After `update_well` with an item on its own channel, the slot it targets (first well of the name, first item on the channel) holds that item. |
| Items.UpdatedWellsFrame | fusion_utils/generate_fusion_xpd.py:228-237 | `update_well` leaves every other (well name, channel) slot holding what it held before. |
| Items.UpdatedWells | fusion_utils/generate_fusion_xpd.py:219-237 | Fails exactly when no well has the name or that well has no item on the channel. Otherwise only the first such well's first such item is replaced; the well count, names, other wells and other items are unchanged. |
| Items.FirstUnordered | fusion_utils/generate_fusion_xpd.py:316-318 | Finds the first well whose name is missing from the order list, or reports that all are present. |
| Items.InsertByRank | fusion_utils/generate_fusion_xpd.py:316-318 | Insertion adds exactly one well and keeps every name in the order list. |
| Items.SortSpec | fusion_utils/generate_fusion_xpd.py:316-318 | The sorted list is a permutation of the wells. |
| Items.SortByOrder | fusion_utils/generate_fusion_xpd.py:311-318 | The sort fails exactly when some well name is not in the order list, as `list.index` raises. |
| Items.InsertByRankSorted | fusion_utils/generate_fusion_xpd.py:316-318 | Insertion into a rank-sorted list keeps it sorted. |
| Items.InsertByRankStable | fusion_utils/generate_fusion_xpd.py:316-318 | Insertion places the well in front of the wells of equal rank, which makes the head-first insertion sort stable. |
| Items.SortSpecSorted | fusion_utils/generate_fusion_xpd.py:316-318 | The sort is a permutation, ordered by index in the order list, and stable: the wells of each rank keep their relative order. |
| Items.InsertByRankStrict | fusion_utils/generate_fusion_xpd.py:316-318 | Inserting a new name into a strictly ranked list keeps it strictly ranked. |
| Items.SortSpecNames | fusion_utils/generate_fusion_xpd.py:316-318 | Sorting keeps exactly the same well names. |
| Items.SortSpecStrict | fusion_utils/generate_fusion_xpd.py:316-318 | With unique names, the sorted names strictly ascend in the order list. |
| Xpd.BaseInfo.constructor | fusion_utils/generate_fusion_xpd.py:150-163 | A new document has the given name and channels and no wells. |
| Xpd.BaseInfo.WellExists | fusion_utils/generate_fusion_xpd.py:166-168 | True exactly when some well carries the name. |
| Xpd.BaseInfo.AddWellBlank | fusion_utils/generate_fusion_xpd.py:170-193 | The well list becomes `WithWell` of the blank well built from the merged exposures. The channels are unchanged and unique names stay unique. |
| Xpd.BaseInfo.AddWellDefault | fusion_utils/generate_fusion_xpd.py:195-217 | The well list becomes `WithWell` of the default well. The channels are unchanged and unique names stay unique. |
| Xpd.BaseInfo.UpdateWell | fusion.py:200-205 | In place, with the same success condition and new state as `UpdatedWells`. On failure the error is `WellNotFound` or `ChannelNotFound` and the wells are unchanged. Unique names stay unique. |
| Assembly.ChannelsFrom | fusion_utils/generate_fusion_xpd.py:277-280 | The channel table has one entry per fixed name, with its default. It fails with a KeyError exactly when some name has no default. |
| Assembly.WellOrder | fusion_utils/generate_fusion_xpd.py:311-315 | The order list holds exactly the blank wells and the cycle wells. |
| Assembly.AddBlanks | fusion_utils/generate_fusion_xpd.py:284-289 | The blank-well loop leaves the wells that `AddBlankWells` gives, or its KeyError. |
| Assembly.AddCycleWells | fusion_utils/generate_fusion_xpd.py:292-293 | The cycle-well loop leaves the wells that `AddDefaultWells` gives. |
| Assembly.PlaceRecords | fusion_utils/generate_fusion_xpd.py:296-308 | The record loop leaves the wells that `ApplyRecords` gives, or its first error. |
| Assembly.Assemble | fusion_utils/generate_fusion_xpd.py:283-318 | Blank wells, cycle wells, record updates and the sort, in place: the result is `AssembleWells` of the initial wells. |
| Assembly.Generate | fusion_utils/generate_fusion_xpd.py:260-318 | The generator without file handling produces exactly `GenerateSpec`. |
| Assembly.AppendDraws | fusion.py:105-108 | The draws taken by the append loop hold more than recordCount distinct ids. |
| Assembly.FusionScript | fusion.py:210-263 | The fusion.py script without file handling produces exactly `FusionSpec`, which hands out the raw draws as ids: blank id `uuids[0]`, record ids `uuids[1:n]`. |
| Assembly.FusionAssemble | fusion.py:230-263 | Blank wells, cycle wells, record updates and the sort on a fresh `BaseInfo` give exactly `FusionDocument`. |
| AssemblyFacts.FusionCorrectionAgrees | fusion.py:103-110 | When the ids handed out are distinct draws, the script as written and the corrected script produce the same document. |
| AssemblyFacts.WithWellNames | fusion_utils/generate_fusion_xpd.py:172-174 | Adding a well changes the distinct names exactly as naming it again would. |
| AssemblyFacts.AddBlankWellsNames | fusion_utils/generate_fusion_xpd.py:284-289 | After the blank-well loop, the well names are the distinct names of the old wells followed by the blank wells. |
| AssemblyFacts.AddDefaultWellsNames | fusion_utils/generate_fusion_xpd.py:292-293 | After the cycle-well loop, the well names are the distinct names of the old wells followed by the cycle wells. |
| AssemblyFacts.ApplyRecordsFrame | fusion_utils/generate_fusion_xpd.py:296-308 | A (well, channel) slot that no record targets keeps its item through the record loop. |
| AssemblyFacts.ApplyRecordsPlaces | fusion_utils/generate_fusion_xpd.py:296-308 | After the record loop, record k's item (its id, marker name, cid as barcode, oligo as reporter, clone, channel as channel and dye, msec as exposure) is in its cycle's well on its channel, unless a later record for the same well and channel replaced it. |
| AssemblyFacts.ApplyRecordsNames | fusion_utils/generate_fusion_xpd.py:296-308 | Placing records renames and adds no well. |
| AssemblyFacts.AssembleNames | fusion_utils/generate_fusion_xpd.py:283-318 | A finished document lists each well once, in first-appearance order of `blank_wells[:1] + cycle wells + blank_wells[1:]`. |
| AssemblyFacts.C1Index | fusion.py:212 | C1 is grid position 24. |
| AssemblyFacts.BlankWellsOffGrid | fusion.py:215 | H3 and H4 are not grid wells, because the grid stops at row G. |
| AssemblyFacts.FusionCycleWells | fusion.py:212 | From C1, the cycle wells are grid positions 24 .. 24+k-1, where k is the number of cycles. |
| AssemblyFacts.FusionOrderNoDup | fusion.py:260-262 | H3, then a run of consecutive grid wells, then H4, is free of repeats. |
| AssemblyFacts.FusionWellOrder | fusion.py:212-215 | The fusion.py document lists H3, then the wells from C1 onward in cycle order, then H4. |
| AssemblyFacts.BlankWellSlots | fusion_utils/generate_fusion_xpd.py:176-193 | A blank well has items only on channel names and its override keys. |
| AssemblyFacts.DefaultWellSlots | fusion_utils/generate_fusion_xpd.py:201-217 | A cycle well has items only on channel names. |
| AssemblyFacts.UpdatedWellsSlots | fusion_utils/generate_fusion_xpd.py:228-237 | An update succeeds only on an item that already has the channel, and it keeps the item set on known channels. |
| AssemblyFacts.ApplyRecordsSlots | fusion_utils/generate_fusion_xpd.py:296-308 | The record loop succeeds only when every record's channel is a channel the wells already have. |
| AssemblyFacts.RecordChannelsKnown | fusion_utils/generate_fusion_xpd.py:277-280 | A document is produced only when every record's channel is DAPI, ATTO550, CY5, AF750 or an override key. Any other `channel_1`/`channel_2` fails in `update_well`. |
| Seqs.Dedup | fusion_utils/generate_fusion_xpd.py:119-121 | `list(set(...))` as first-occurrence order: no repeats and the same members. |
| Seqs.FirstIndexOf | fusion.py:201-204 | `list.index`: absent exactly when the value is not in the list. Otherwise the index holds the value, and no earlier index does. |
| Seqs.DedupFirstIndexOrder | fusion_utils/generate_fusion_xpd.py:316-318 | The distinct values of a list appear in increasing order of their first index. |
| Seqs.NoDupSlice | fusion_utils/generate_fusion_xpd.py:108-110 | A run of wells cut from a duplicate-free grid is duplicate-free. |
| Seqs.FirstIndexOrderedEqual | fusion_utils/generate_fusion_xpd.py:316-318 | Two lists with the same members, both strictly ordered by first index, are equal. |

## Left out

- Reading the spreadsheet (`pd.read_excel`), loading and validating the JSON parameters, writing the document with `model_dump_json`, and the `argparse` entry point are I/O. The model takes a parsed `Sheet` and a `Config`, and returns a `Document`.
- The constant metadata fields of `BaseInfo` (`formatVersion`, `formatType`, `tissueType`, `tissueInfo`, `resolution`, `unusedItems`) have no behaviour and are not modelled. `resolution` is a float.
- The default `items` list of `WellItem` is never used, because both add methods pass their own items, so it is not modelled.
- `uuid.uuid4` is replaced by a supplied stream of candidate ids. Running out of the stream gives `IdsExhausted`, where the source would keep drawing forever.
- Seqs.Dedup: `list(set(uuids))` has an unspecified order in Python. The model uses first-occurrence order, so which id becomes the blank id in the generator is one admissible choice, not the only one.
- Text.Lower: `str.lower()` is modelled for ASCII letters only. The case-insensitive "blank" search also folds the Kelvin sign to "k", as Python's `re` does.
- Panel.AsText: a whole number renders as its digits ("1001"). pandas renders a numeric cid, oligo or clone column that became float64 (an empty cell, or a column present in only one block, gives NaN after the concatenation) as "1001.0"; that rendering is not modelled.
- Panel.RecordOf: `astype(int)` is modelled as accepting only whole-number cells. Cells holding numeric text or floats, which pandas might convert, are reported as `NotAnInteger`.
- The `print` warnings of `add_well_blank`, `add_well_default` and the generator's `update_well` are no-ops.
- Xpd.BaseInfo: wells and items are values, so the document does not share well objects with anything else; aliasing of pydantic objects is not modelled.
- The read-back and tallying code after fusion.py line 265, and explore.py, are not part of this model.

## Findings

| source | as written | input that shows it | evidently intended | confidence | as-written member | corrected member |
|---|---|---|---|---|---|---|
| fusion.py:107-110 | The loop stops once `np.unique` counts n distinct draws, but the ids are sliced from the raw list: blank = `uuids[0]`, records = `uuids[1:n]`. | One record and draws "a", "a", "b": the loop stops after three draws, the blank id is "a" and the record's id is also "a". | Hand out the first n distinct draws, the blank id first, so that no id is used twice. | not executed | Ids.AssignAsWritten, Ids.AssignAsWrittenCollision | Ids.AssignCorrected, AssemblyFacts.FusionCorrectionAgrees |
