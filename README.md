# Ticket Central sync: a verified model of the scan engine

`sync.py` copies ticket rows from many source spreadsheets into one master
"tickets" tab. For every source and each of two flows ("ALL" and "LI"), it does
the following:

- it opens the flow's tab;
- it scans a tail window of that tab page by page;
- it keeps the rows that have every required column and no write-back flag yet;
- it maps each such row onto the master layout;
- it appends the mapped rows in batches and then writes the flag `"1"` into the
  rows it copied, so a later run skips them.

In baseline mode (`START_FROM_NOW`) it only writes the flags.

This project models that engine and the pure helpers it uses, and proves what
they do. The modules are:

- `Base`: positions, `Option`, min and max.
- `Text`: Python's `str.strip` (over Python's whitespace set), `join` and `split`.
- `Columns`: `col_letter`.
- `FlowConfig`: the flow tables, `MASTER_WIDTH_MIN`, the settings and `max_col`.
- `Grid`: a worksheet as a grid of cells, the range read `ws.get`, and the cell
  writes of `ws.batch_update`.
- `RowMapper`: `map_row_to_master`.
- `CompositeKey`: `make_composite_key`. Only the key basis is modelled; the digest
  is a parameter.
- `Sources`: `get_source_ids` and the shard filter of `main`.
- `ScanSpec`: the specification of one (source, flow) unit. It gives:
  - the window and its pages;
  - the rows the reads return;
  - the qualifying rows;
  - their batches;
  - the calls made and the result.
- `UnitRun`: the unit as a state machine over its locals, proved equal to
  `ScanSpec`'s description.
- `Engine`: the imperative engine. It has two classes:
  - `SourceTab` holds the source tab's cells, its row count and the outcome of
    each flag write;
  - `MasterTab` holds the appended rows.

  `ProcessFlowForSource` runs the page loop and the row loop with the buffers
  `batch_rows` and `flag_updates`. Each method is proved against its function in
  `UnitRun`.
- `Tally`: `main`'s loops that add up the units' counts per flow and over the flows.

A read of rows
`first..last` returns those rows clipped to columns `1..max_col`, with trailing
rows that hold no value left out. The result is therefore always a prefix of
the page, which is what `abs_row = r + i` relies on. The case of a range with no
value at all is discussed under `Grid.Read` in "## Left out".

A flag write addresses its cell as the range
`f"{sync_col_letter}{abs_row}:{sync_col_letter}{abs_row}"` (sync.py:301), with
`sync_col_letter = col_letter(sync_col)` (sync.py:264): a range of one cell. The model
writes `FlagUpdate(absRow, syncCol, "1")`, the cell in
column `syncCol` of row `absRow`. `Columns.ColValueOfName` shows the range names
that column, and `Columns.ColNameInjective` shows it names no other.

Each flag write's outcome comes from a function of its call number, so every
pattern of failures is covered:

- a failed write inside the loop is only reported;
- a failed write in the final flush leaves the unit, and `main` counts such a
  unit as `(0, 0)`.

## Model

| member | source | states |
|---|---|---|
| Columns.ColLetter | sync.py:106-111 | the `while` loop builds exactly the bijective base-26 name of the column: upper-case letters, empty exactly for column 0 |
| Columns.ColValueOfName | sync.py:106-111 | reading a column name back as a bijective base-26 number gives the column number |
| Columns.ColNameOfValue | sync.py:106-111 | every string of letters A-Z is the name of the column it denotes, so the naming is onto |
| Columns.ColNameInjective | sync.py:106-111 | two columns with the same name are the same column |
| Columns.ColNameExamples | sync.py:106-111 | 1 is "A", 26 is "Z", 27 is "AA", 30 is "AD" (the default flag column), 702 is "ZZ", 703 is "AAA" |
| RowMapper.MapRowToMaster | sync.py:179-187 | the two loops over a row of `width` blanks give exactly `width` cells; each cell is the last mapped source cell aimed at it, else the last static aimed at it, else "" |
| RowMapper.MappedFieldWins | sync.py:184-186 | a mapped destination inside 1..width holds its source cell, whatever statics aim at it (mapped fields overwrite statics); a source index past the row's end gives "" |
| RowMapper.StaticFieldShows | sync.py:181-183 | a static destination inside 1..width that no mapping aims at holds the static value |
| RowMapper.UntouchedIsBlank | sync.py:180 | a position no mapping and no static aims at is "" |
| RowMapper.OutOfRangeIgnored | sync.py:181-186 | adding a mapping or a static aimed outside 1..width leaves the row unchanged |
| RowMapper.ImageIgnoresUnmappedColumns | sync.py:184-186 | two source rows that agree on the mapped source columns give the same image |
| FlowConfig.FlowOf | sync.py:211-226 | "ALL" selects start row 4, required columns [2, 3] and no statics; any other flow selects start row 3, required columns [2, 3, 4] and the LinkedIn statics |
| FlowConfig.MasterWidthMinCoversFlows | sync.py:74-78 | `MASTER_WIDTH_MIN` is 16, and every destination of either mapping and every static position lies in 1..16 |
| FlowConfig.AllFlowLayout | sync.py:74-78 | in the ALL flow, master columns 1, 2, 5, 6, 7, 8 and 16 take source columns 1, 3, 10, 2, 11, 12 and 4; every other master column is "" |
| FlowConfig.LiFlowLayout | sync.py:75-78 | in the LI flow, master columns 1, 2, 3, 6 and 8 take source columns 1, 3, 4, 2 and 5; column 5 is "LinkedIn - LX" and column 7 is "DD"; every other master column is "" |
| FlowConfig.MaxCol | sync.py:256-257 | the read width covers the flag column, every required column and every mapped source column |
| CompositeKey.SameKeyFieldsSameKey | sync.py:190-195 | rows that agree on their stripped key fields get the same key, whatever their other columns hold and whatever the digest is |
| CompositeKey.BasisSplitsIntoParts | sync.py:191-194 | the basis is the stripped key fields, a missing column as "", joined in key-column order with U+241F; splitting it on U+241F gives the parts back |
| CompositeKey.SameBasisSameKeyFields | sync.py:191-194 | two rows with the same basis (no part holding U+241F) agree on every stripped key field |
| Text.TrimEmptyIffBlank | sync.py:205 | `strip()` gives "" exactly when every character is whitespace |
| Text.TrimIdempotent | sync.py:193 | a stripped string begins and ends with a non-space, and stripping it again changes nothing |
| Text.SplitJoin | sync.py:194 | splitting a join on its separator gives the parts back when no part holds the separator |
| Sources.GetSourceIds | sync.py:198-207 | the loop over column B returns the resolved, stripped ids of exactly the listed rows |
| Sources.ListedPositionsExact | sync.py:202-205 | a position is taken exactly when it is not the header row and its cell is non-empty and non-blank after strip |
| Sources.ListedPositionsIncrease | sync.py:202-206 | the ids keep the order of column B |
| Sources.HeaderIgnored | sync.py:203-204 | the header cell of column B never affects the ids |
| Sources.ShardPicks | sync.py:364 | a shard is the sources at its positions, in original order |
| Sources.ShardPositionsExact | sync.py:364 | a shard's positions are exactly those i with i % TOTAL_SHARDS == SHARD_INDEX, increasing |
| Sources.ShardsPartitionPositions | sync.py:363-366 | each source position falls in exactly one of the shards 0..TOTAL_SHARDS-1 |
| Sources.SelectShardCovers | sync.py:363-366 | with TOTAL_SHARDS <= 1 the whole list is kept; with more, a run keeps the sources at its shard's positions in original order, and the runs for SHARD_INDEX 0..TOTAL_SHARDS-1 together keep every source exactly as often as the list holds it |
| Sources.ShardsCoverAll | sync.py:363-366 | the shards 0..TOTAL_SHARDS-1 together hold every source exactly as often as the list does |
| ScanSpec.PagesTile | sync.py:271-329 | the pages run from the window's first row to `max_row`, each next one starting right after the last, each of at most `PAGE_ROWS` rows; there are none when the window is empty |
| ScanSpec.NothingReadBeforeStart | sync.py:251-255 | when the tab ends before the first data row, no page is read and nothing is scanned |
| ScanSpec.ScanRangeShape | sync.py:272-278 | the scanned rows lie within the window, in strictly increasing row order, each holding the tab's row at its number clipped to the read width |
| ScanSpec.ScanRangeCovers | sync.py:272-278 | every window row that holds a value within the read width is scanned |
| Grid.ReadDropsBlankTail | sync.py:275 | a read leaves out only trailing rows of the range that hold no value |
| ScanSpec.QualifyingMembers | sync.py:281-302 | a scanned row is queued exactly when every required column is present and non-blank after strip and its flag cell is absent or blank after strip |
| ScanSpec.QualifyingIncreasing | sync.py:277-302 | the queued rows keep the scan order |
| ScanSpec.Chunks | sync.py:305-327 | the batches concatenate to the queued rows; each holds 1..`BATCH_APPEND_ROWS` rows, and all but the last are full |
| ScanSpec.ChunksOfFull | sync.py:318-340 | full batches flushed in the loop followed by a short rest give exactly the batches of their concatenation |
| ScanSpec.LogOfShape | sync.py:305-340 | baseline mode makes one flag write per batch and no append; normal mode makes, for each batch, its append and then that batch's flag write |
| ScanSpec.SucceededAllOk | sync.py:300-324 | when every flag write succeeds, the flags written are the flags of all queued rows in order |
| Tally.TallyFlow | sync.py:370-379 | the loop over one flow's sources adds up each unit's counts, a unit that raised adding (0, 0), giving `Totals` of the results in order |
| Tally.TotalsOfCompleted | sync.py:372-379 | a flow's totals are the sums of the counts of the units that returned; a unit that raised adds nothing |
| Tally.TotalsAppend | sync.py:369-384 | adding up two runs of units one after the other adds their totals |
| Tally.TallyAll | sync.py:368-386 | the loop over the flows gives grand totals equal to the totals of all units of all flows, in order |
| ScanSpec.FlaggedRowIsSynced | sync.py:291-302 | after the flag is written, the row's flag cell reads "1" |
| ScanSpec.RerunRow | sync.py:290-302 | once all flags of one scan are written, no row of the window qualifies any more |
| ScanSpec.RerunFindsNothing | sync.py:277-302 | a second scan over the flagged tab finds no qualifying row |
| UnitRun.StepRowKeeps | sync.py:277-327 | one row step keeps the unit's state equal to what the history of queued and flushed batches predicts, with every flushed batch full |
| UnitRun.RunFromKeeps | sync.py:271-329 | the page loop from row r keeps that correspondence over every row the pages return |
| UnitRun.FinishMeets | sync.py:331-342 | after the final flush, the master tab holds the images of all queued rows, the tab holds the flags of the batches whose write succeeded, and the result is the counts, or failure when the last short batch's flag write failed |
| UnitRun.RunUnitMeets | sync.py:210-342 | a whole unit appends exactly the images of the window's qualifying rows in scan order (none in baseline mode); it writes their flags batch by batch, keeping a batch's flags only if its write succeeded, and makes the calls `LogOf` lists; it returns `Outcome`, whose appended count is the number of qualifying rows |
| UnitRun.RerunAppendsNothing | sync.py:290-340 | when every flag write succeeds, running the unit again over the tab it left appends nothing, writes nothing, makes no call and reports 0 appended |
| UnitRun.RunUnitNothingQueued | sync.py:331-342 | a unit without a qualifying row changes neither tab, makes no call and reports 0 appended |
| Engine.SourceTab.BatchUpdate | sync.py:305-340 | a flag write applies all of its cell writes or, when it fails, none of them |
| Engine.MasterTab.AppendRows | sync.py:318-338 | the batch is appended to the master tab's rows |
| Engine.HasRequiredCells | sync.py:282-288 | the required-column loop accepts the row exactly when every required column is present and non-blank after strip |
| Engine.FlushBatch | sync.py:305-327 | the in-loop flush does what `UnitRun.Flush` describes |
| Engine.ProcessRow | sync.py:277-327 | one row of the loop does what `UnitRun.StepRow` describes |
| Engine.ScanValues | sync.py:277-328 | the loop over one page's rows does what `UnitRun.StepScan` describes |
| Engine.ScanPageAt | sync.py:273-329 | one page step reads the page and leaves the page loop's outcome unchanged |
| Engine.ScanWindow | sync.py:271-329 | the page loop does what `UnitRun.RunFrom` describes from the window's first row |
| Engine.FlushRemaining | sync.py:331-342 | the final flush does what `UnitRun.Finish` describes |
| Engine.RunSource | sync.py:251-342 | a unit over an existing tab does what `UnitRun.RunUnit` describes |
| Engine.ProcessFlowForSource | sync.py:210-342 | a missing tab gives (0, 0) with no call; otherwise the master tab gains exactly the images of the window's qualifying rows in scan order (none in baseline mode), the tab gains the flags of the batches whose write succeeded, one flag write is made per batch, and the result is the counts or a failure of the final flag write |

## Left out

- Google authorisation, `open_spreadsheet_safe`, `get_ws_safe`, `values_get_safe`, `append_rows_safe` and `backoff_delay`: these are calls into the sheets library with retries and sleeps. A read returns the grid's rows as described above. An append always succeeds. A tab that cannot be found is a `null` tab.
- The retry classification over `RETRYABLE_SNIPPETS`: it only decides whether a foreign error is retried.
- The column resizes and the header-cell update (sync.py:235-249, sync.py:258-262): every error they raise is swallowed, and they do not change the unit's result. The model's tab therefore leaves out two of their effects:
  - the header cell `__SYNCED_<flow>` written at row start_row - 1, column sync_col (sync.py:245-248), which lies above every row the scan reads;
  - the rows the resize at sync.py:239 may add; the resize at sync.py:260 keeps `ws.row_count` rows (`max_row` is `ws.row_count` there) and adds columns only.
- Engine.ProcessFlowForSource: ensures the row count is unchanged, because resizes are not modelled. In the source, the resize at sync.py:239 grows a tab shorter than start_row to start_row rows whenever it also lacks columns. `max_row` is then start_row and the early return at sync.py:252-253 is not taken. With `TAIL_WINDOW_ROWS >= 1` one read of that new, blank row follows; with `TAIL_WINDOW_ROWS <= 0` the window starts after `max_row` and nothing is read. The counts are (0, 0) either way under the read assumption below.
- Grid.Read: a read of a range that holds no value returns no rows. This is an assumption about the sheets library, which is not part of this model. If the library returns one empty row for such a range, the source adds one to `total_scanned` for each such page. That row never qualifies, so only the scanned count differs from the model's.
- Only a failed flag write is modelled as an error inside the loop (sync.py:309, sync.py:323). Any other exception from the sheets library is not modelled.
- `hashlib.sha1` and `parse_sheet_id` are function parameters (`digest`, `resolve`). The engine never computes the composite key (sync.py:297-298).
- `main`'s loops are modelled over the units' results, given in the order `main` runs the units (the `Tally` module). Their `print` calls and pauses are left out. The master width is a parameter of the engine (sync.py:355).
- Reading the settings from the environment: they are the fields of `Settings`, with their documented defaults in `DefaultSettings`. TOTAL_SHARDS and SHARD_INDEX are the parameters of `Sources.SelectShard`.
- Concurrency: each read reflects the grid at the time of the call, and nothing else writes to the tabs during a unit.
- ScanSpec.UnitOf: requires `PAGE_ROWS >= 1` and a flag column `>= 1`. With `PAGE_ROWS = 0` the page loop never ends, since `page_end = r - 1` (sync.py:273) and `r` never advances. With a negative `PAGE_ROWS`, `r` moves backwards on each pass, so the loop reads rows above the window and queues flags for them. It stops when the range built at sync.py:274 names a row below 1, which the sheets library rejects; the unit then fails and counts (0, 0). With a flag column of 0, the flag read at sync.py:292-293 takes the last cell of the row through negative indexing; with a negative flag column, `col_letter` at sync.py:245 never returns.
- ScanSpec.EffectiveBatch: a `BATCH_APPEND_ROWS` below 1 is modelled as 1. The `>=` tests then hold after every row, exactly as they do for 1.
- Engine.ProcessFlowForSource: requires `PAGE_ROWS >= 1` and a flag column `>= 1`, for the same reason as ScanSpec.UnitOf.
- Columns.ColLetter: is modelled on non-negative integers only. The source's `while col_idx:` loop does not terminate on a negative column.
