/** The imperative core of one (source, flow) unit, `process_flow_for_source`: the
    worksheets it talks to, the locals it accumulates while it scans, and the scan
    itself. Every step is proved to do what its function in UnitRun does, so the
    whole unit does what ScanSpec describes. */
module Engine {
  import opened Base
  import opened Text
  import opened Grid
  import opened RowMapper
  import opened FlowConfig
  import opened ScanSpec
  import opened UnitRun

  /** A source worksheet: its cells, the row count the service reports for it, and
      the outcome of each `batch_update` it receives (call number w succeeds when
      flagWriteOk(w) holds). */
  class SourceTab {
    var cells: seq<Row>
    var rowCount: nat
    var writes: nat
    const flagWriteOk: nat -> bool

    constructor (cells: seq<Row>, rowCount: nat, flagWriteOk: nat -> bool)
      ensures this.cells == cells && this.rowCount == rowCount && this.flagWriteOk == flagWriteOk
      ensures writes == 0
    {
      this.cells := cells;
      this.rowCount := rowCount;
      this.flagWriteOk := flagWriteOk;
      writes := 0;
    }

    /** `ws.get(range)` over rows first..last and columns 1..maxCol. */
    function Get(first: int, last: int, maxCol: nat): (values: seq<Row>)
      reads this
      ensures values == Read(cells, first, last, maxCol)
      ensures forall i :: 0 <= i < |values| ==> values[i] == Clip(RowCells(cells, first + i), maxCol)
    {
      Read(cells, first, last, maxCol)
    }

    /** `ws.batch_update(updates)`: all the cell writes, or none of them when the
        call fails. */
    method BatchUpdate(updates: seq<FlagUpdate>) returns (ok: bool)
      modifies this
      ensures ok == flagWriteOk(old(writes)) && writes == old(writes) + 1
      ensures cells == (if ok then ApplyUpdates(old(cells), updates) else old(cells))
      ensures rowCount == old(rowCount)
    {
      ok := flagWriteOk(writes);
      writes := writes + 1;
      if ok {
        cells := ApplyUpdates(cells, updates);
      }
    }
  }

  /** The master tab, seen as the sequence of rows appended to it. */
  class MasterTab {
    var rows: seq<Row>

    constructor (rows: seq<Row>)
      ensures this.rows == rows
    {
      this.rows := rows;
    }

    /** `append_rows_safe(tickets_ws, rows)`: an empty batch sends nothing. */
    method AppendRows(batch: seq<Row>)
      modifies this
      ensures rows == old(rows) + batch
    {
      if batch == [] {
        assert rows + batch == rows;
        return;
      }
      rows := rows + batch;
    }
  }

  /** The required-column test of the scan loop: `bad` is set, and the loop left, at
      the first required column that is missing or blank after strip. */
  method HasRequiredCells(row: Row, required: seq<pos>) returns (valid: bool)
    ensures valid == HasRequired(row, required)
  {
    valid := true;
    var i := 0;
    while i < |required|
      invariant 0 <= i <= |required|
      invariant forall k :: 0 <= k < i ==> Present(row, required[k])
    {
      var idx := required[i];
      if idx - 1 >= |row| || Trim(row[idx - 1]) == "" {
        valid := false;
        break;
      }
      i := i + 1;
    }
  }

  /** The locals `total_appended`, `total_scanned`, `batch_rows` and `flag_updates`. */
  datatype Locals = Locals(appended: nat, scanned: nat, batchRows: seq<Row>, flagUpdates: seq<FlagUpdate>)

  /** The state of a unit as UnitRun sees it: the two tabs, the locals, and the calls
      made so far. */
  ghost function StateOf(ws: SourceTab, dest: MasterTab, loc: Locals, log: seq<Op>): Run
    reads ws, dest
  {
    Run(ws.cells, ws.writes, dest.rows, loc.appended, loc.scanned, loc.batchRows, loc.flagUpdates, log)
  }

  /** The flush inside the scan loop. */
  method FlushBatch(u: Unit, ws: SourceTab, dest: MasterTab, loc: Locals, ghost log: seq<Op>)
    returns (loc': Locals, ghost log': seq<Op>)
    modifies ws, dest
    ensures StateOf(ws, dest, loc', log') == Flush(u, old(StateOf(ws, dest, loc, log)), ws.flagWriteOk)
    ensures ws.rowCount == old(ws.rowCount)
  {
    log' := log;
    var appended := loc.appended;
    var batchRows := loc.batchRows;
    if !u.baseline {
      dest.AppendRows(batchRows);
      log' := log' + [Appended(batchRows)];
    } else {
      assert log' + [] == log';
    }
    var ok := ws.BatchUpdate(loc.flagUpdates);
    log' := log' + [FlagsWritten(loc.flagUpdates, ok)];
    if !u.baseline {
      appended := appended + |batchRows|;
      batchRows := [];
    }
    loc' := Locals(appended, loc.scanned, batchRows, []);
  }

  /** One row of a page at absolute row `absRow`: counted; skipped without every
      required value or with its flag set; otherwise its flag queued and (normal mode)
      its image, and a full batch flushed. */
  method ProcessRow(u: Unit, ws: SourceTab, dest: MasterTab, loc: Locals, ghost log: seq<Op>, row: Row, absRow: pos)
    returns (loc': Locals, ghost log': seq<Op>)
    modifies ws, dest
    ensures StateOf(ws, dest, loc', log') == StepRow(u, old(StateOf(ws, dest, loc, log)), ws.flagWriteOk, row, absRow)
    ensures ws.rowCount == old(ws.rowCount)
  {
    ghost var st := StateOf(ws, dest, loc, log);
    var f := FlowOf(u.flow);
    loc' := loc.(scanned := loc.scanned + 1);
    log' := log;
    var valid := HasRequiredCells(row, f.required);
    var syncedVal := FlagValue(row, u.syncCol);
    if !valid || syncedVal != "" {
      assert !Qualifies(u, row);
      StepRowSkips(u, st, ws.flagWriteOk, row, absRow);
      return;
    }
    assert Qualifies(u, row);
    ghost var queued := Enqueue(u, st, row, absRow);
    StepRowQueues(u, st, ws.flagWriteOk, row, absRow, queued);
    loc' := loc'.(flagUpdates := loc'.flagUpdates + [FlagUpdate(absRow, u.syncCol, "1")]);
    if u.baseline {
      assert StateOf(ws, dest, loc', log') == queued;
      if |loc'.flagUpdates| >= u.batch {
        loc', log' := FlushBatch(u, ws, dest, loc', log');
      }
      return;
    }
    var out := MapRowToMaster(row, f.mapping, f.statics, u.width);
    loc' := loc'.(batchRows := loc'.batchRows + [out]);
    assert StateOf(ws, dest, loc', log') == queued;
    if |loc'.batchRows| >= u.batch {
      loc', log' := FlushBatch(u, ws, dest, loc', log');
    }
  }

  /** `for i, row in enumerate(values)`: the rows one page read returned, the i-th at
      absolute row r + i. */
  method ScanValues(u: Unit, ws: SourceTab, dest: MasterTab, loc: Locals, ghost log: seq<Op>, values: seq<Row>, r: pos)
    returns (loc': Locals, ghost log': seq<Op>)
    modifies ws, dest
    ensures StateOf(ws, dest, loc', log') == StepScan(u, old(StateOf(ws, dest, loc, log)), ws.flagWriteOk, ScanPage(values, r), 0)
    ensures ws.rowCount == old(ws.rowCount)
  {
    ghost var page := ScanPage(values, r);
    ghost var target := StepScan(u, StateOf(ws, dest, loc, log), ws.flagWriteOk, page, 0);
    loc', log' := loc, log;
    for i := 0 to |values|
      invariant StepScan(u, StateOf(ws, dest, loc', log'), ws.flagWriteOk, page, i) == target
      invariant ws.rowCount == old(ws.rowCount)
    {
      var absRow: pos := r + i;
      ghost var before := StateOf(ws, dest, loc', log');
      assert page[i] == Scanned(absRow, values[i]);
      loc', log' := ProcessRow(u, ws, dest, loc', log', values[i], absRow);
      StepScanAt(u, before, ws.flagWriteOk, page, i, StateOf(ws, dest, loc', log'));
    }
  }

  /** The flush after the loop: the remaining rows appended and counted (normal mode),
      then the remaining flags written; a failure of that write leaves the function. */
  method FlushRemaining(u: Unit, ws: SourceTab, dest: MasterTab, loc: Locals, ghost log: seq<Op>)
    returns (res: UnitResult, ghost log': seq<Op>)
    modifies ws, dest
    ensures var r := Finish(u, old(StateOf(ws, dest, loc, log)), ws.flagWriteOk);
      && ws.cells == r.0.cells && ws.writes == r.0.writes && dest.rows == r.0.master
      && log' == r.0.log && res == r.1
    ensures ws.rowCount == old(ws.rowCount)
  {
    log' := log;
    var appended := loc.appended;
    if !u.baseline && loc.batchRows != [] {
      dest.AppendRows(loc.batchRows);
      log' := log' + [Appended(loc.batchRows)];
      appended := appended + |loc.batchRows|;
    }
    if loc.flagUpdates == [] {
      return Counts(appended, loc.scanned), log';
    }
    var ok := ws.BatchUpdate(loc.flagUpdates);
    log' := log' + [FlagsWritten(loc.flagUpdates, ok)];
    if !ok {
      return Failed, log';
    }
    res := Counts(appended, loc.scanned);
  }

  /** One pass of `while r <= max_row`: read the page from r and process its rows.
      The page loop from the row after the page then ends where the loop from r ends. */
  method ScanPageAt(u: Unit, ws: SourceTab, dest: MasterTab, loc: Locals, ghost log: seq<Op>, r: pos, maxRow: int, maxCol: nat)
    returns (loc': Locals, ghost log': seq<Op>)
    requires maxCol == ReadCols(u) && r <= maxRow
    modifies ws, dest
    ensures RunFrom(u, StateOf(ws, dest, loc', log'), ws.flagWriteOk, NextRow(r, maxRow, u.pageRows), maxRow)
         == RunFrom(u, old(StateOf(ws, dest, loc, log)), ws.flagWriteOk, r, maxRow)
    ensures ws.rowCount == old(ws.rowCount)
  {
    var pageEnd := PageEnd(r, maxRow, u.pageRows);
    var values := ws.Get(r, pageEnd, maxCol);
    ghost var before := StateOf(ws, dest, loc, log);
    loc', log' := ScanValues(u, ws, dest, loc, log, values, r);
    RunFromHead(u, before, ws.flagWriteOk, r, maxRow, StateOf(ws, dest, loc', log'),
                RunFrom(u, StateOf(ws, dest, loc', log'), ws.flagWriteOk, NextRow(r, maxRow, u.pageRows), maxRow));
  }

  /** The page loop of `process_flow_for_source`, from the window's first row to the
      tab's last row, page by page. */
  method ScanWindow(u: Unit, ws: SourceTab, dest: MasterTab, windowStart: pos, maxRow: int, maxCol: nat)
    returns (loc: Locals, ghost log: seq<Op>)
    requires maxCol == ReadCols(u)
    modifies ws, dest
    ensures StateOf(ws, dest, loc, log)
         == RunFrom(u, old(StateOf(ws, dest, Locals(0, 0, [], []), [])), ws.flagWriteOk, windowStart, maxRow)
    ensures ws.rowCount == old(ws.rowCount)
  {
    loc := Locals(0, 0, [], []);
    log := [];
    ghost var goal := RunFrom(u, StateOf(ws, dest, loc, log), ws.flagWriteOk, windowStart, maxRow);
    var r: pos := windowStart;
    while r <= maxRow
      invariant ws.rowCount == old(ws.rowCount)
      invariant RunFrom(u, StateOf(ws, dest, loc, log), ws.flagWriteOk, r, maxRow) == goal
      decreases maxRow - r + 1
    {
      loc, log := ScanPageAt(u, ws, dest, loc, log, r, maxRow, maxCol);
      r := NextRow(r, maxRow, u.pageRows);
    }
  }

  /** One unit over an existing tab: nothing when the tab ends before the first data
      row, otherwise the window's pages and the final flush. */
  method RunSource(u: Unit, ws: SourceTab, dest: MasterTab) returns (res: UnitResult, ghost calls: seq<Op>)
    modifies ws, dest
    ensures var r := RunUnit(u, old(ws.cells), old(ws.rowCount), old(ws.writes), old(dest.rows), ws.flagWriteOk);
      && ws.cells == r.0.cells && ws.writes == r.0.writes && dest.rows == r.0.master
      && calls == r.0.log && res == r.1
    ensures ws.rowCount == old(ws.rowCount)
  {
    var f := FlowOf(u.flow);
    var maxRow := ws.rowCount;
    if maxRow < f.startRow {
      return Counts(0, 0), [];
    }
    RunUnitWindowed(u, ws.cells, maxRow, ws.writes, dest.rows, ws.flagWriteOk);
    var windowStart := WindowStart(f.startRow, maxRow, u.tailRows);
    var maxCol := MaxCol(f, u.syncCol);
    var loc;
    ghost var log;
    loc, log := ScanWindow(u, ws, dest, windowStart, maxRow, maxCol);
    res, calls := FlushRemaining(u, ws, dest, loc, log);
  }

  /** `process_flow_for_source(gc, tickets_ws, master_width, spreadsheet_id, flow)`
      for a source whose `flow` tab is `ws` (null when the tab is missing): the run
      appends exactly the images of the window's qualifying rows, in scan order;
      flags exactly the batches whose flag write went through; makes the calls
      `LogOf` lists; and returns the counts, or failure when the final flag write
      fails. */
  method ProcessFlowForSource(ws: SourceTab?, dest: MasterTab, masterWidth: nat, flow: string, cfg: Settings)
    returns (res: UnitResult, ghost calls: seq<Op>)
    requires cfg.pageRows >= 1 && SyncCol(cfg, flow) >= 1
    modifies ws, dest
    ensures ws == null ==> res == Counts(0, 0) && calls == [] && dest.rows == old(dest.rows)
    ensures ws != null ==>
      var u := UnitOf(flow, cfg, masterWidth);
      var s := WindowScan(u, old(ws.cells), old(ws.rowCount));
      var chs := Chunks(Qualifying(u, s), u.batch);
      && dest.rows == old(dest.rows) + (if u.baseline then [] else Images(u, Qualifying(u, s)))
      && ws.cells == ApplyUpdates(old(ws.cells), Succeeded(u, chs, ws.flagWriteOk, old(ws.writes)))
      && ws.writes == old(ws.writes) + |chs|
      && ws.rowCount == old(ws.rowCount)
      && calls == LogOf(u, chs, ws.flagWriteOk, old(ws.writes))
      && res == Outcome(u, chs, ws.flagWriteOk, old(ws.writes), |s|)
  {
    if ws == null {
      return Counts(0, 0), [];
    }
    var u := UnitOf(flow, cfg, masterWidth);
    RunUnitMeets(u, ws.cells, ws.rowCount, ws.writes, dest.rows, ws.flagWriteOk);
    res, calls := RunSource(u, ws, dest);
  }
}
