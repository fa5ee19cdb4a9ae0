/** The steps of `process_flow_for_source` as functions on the observable state of
    a unit, and the proof that a whole unit does what ScanSpec describes. */
module UnitRun {
  import opened Base
  import opened Grid
  import opened RowMapper
  import opened FlowConfig
  import opened ScanSpec

  /** What a unit can change or has accumulated: the source tab's cells and the
      number of flag writes it has received, the master tab's rows, and the locals
      `total_appended`, `total_scanned`, `batch_rows` and `flag_updates`, with the
      calls made so far. */
  datatype Run = Run(cells: seq<Row>, writes: nat, master: seq<Row>, appended: nat, scanned: nat,
                     batchRows: seq<Row>, flagUpdates: seq<FlagUpdate>, log: seq<Op>)

  /** The flush inside the scan loop: in normal mode the batch is appended, then the
      flags are written (a failed write is only reported) and the appended rows
      counted, and both batches cleared; in baseline mode only the flags are written
      and cleared. */
  function Flush(u: Unit, st: Run, outcome: nat -> bool): Run {
    var ok := outcome(st.writes);
    Run(if ok then ApplyUpdates(st.cells, st.flagUpdates) else st.cells,
        st.writes + 1,
        if u.baseline then st.master else st.master + st.batchRows,
        if u.baseline then st.appended else st.appended + |st.batchRows|,
        st.scanned,
        if u.baseline then st.batchRows else [],
        [],
        st.log + (if u.baseline then [] else [Appended(st.batchRows)]) + [FlagsWritten(st.flagUpdates, ok)])
  }

  /** A qualifying row is counted, its flag queued and (normal mode) its image queued. */
  function Enqueue(u: Unit, st: Run, row: Row, absRow: pos): Run {
    var f := FlowOf(u.flow);
    st.(scanned := st.scanned + 1,
        flagUpdates := st.flagUpdates + [FlagUpdate(absRow, u.syncCol, "1")],
        batchRows := if u.baseline then st.batchRows else st.batchRows + [MappedRow(row, f.mapping, f.statics, u.width)])
  }

  /** One row of a page at absolute row `absRow`: a row without every required value
      or with a flag already set is only counted; otherwise it is queued, and a full
      batch (of flags in baseline mode, of master rows otherwise) is flushed. */
  function StepRow(u: Unit, st: Run, outcome: nat -> bool, row: Row, absRow: pos): Run {
    if !HasRequired(row, FlowOf(u.flow).required) || FlagValue(row, u.syncCol) != "" then st.(scanned := st.scanned + 1)
    else
      var queued := Enqueue(u, st, row, absRow);
      var size := if u.baseline then |queued.flagUpdates| else |queued.batchRows|;
      if size >= u.batch then Flush(u, queued, outcome) else queued
  }

  /** A row that does not qualify is only counted. */
  lemma StepRowSkips(u: Unit, st: Run, outcome: nat -> bool, row: Row, absRow: pos)
    requires !Qualifies(u, row)
    ensures StepRow(u, st, outcome, row, absRow) == st.(scanned := st.scanned + 1)
  {
  }

  /** A qualifying row is queued, and the queue flushed once it is full. */
  lemma StepRowQueues(u: Unit, st: Run, outcome: nat -> bool, row: Row, absRow: pos, queued: Run)
    requires Qualifies(u, row) && queued == Enqueue(u, st, row, absRow)
    ensures var size := if u.baseline then |queued.flagUpdates| else |queued.batchRows|;
      StepRow(u, st, outcome, row, absRow) == if size >= u.batch then Flush(u, queued, outcome) else queued
  {
  }

  /** The rows of one page read from entry i on, in order, each at its own row number. */
  function StepScan(u: Unit, st: Run, outcome: nat -> bool, s: seq<Scanned>, i: nat): Run
    requires i <= |s|
    decreases |s| - i
  {
    if i == |s| then st
    else StepScan(u, StepRow(u, st, outcome, s[i].cells, s[i].row), outcome, s, i + 1)
  }

  /** The page loop from row r on; each page is read from the cells as they are then. */
  function RunFrom(u: Unit, st: Run, outcome: nat -> bool, r: pos, maxRow: int): Run
    decreases maxRow - r + 1
  {
    if r > maxRow then st
    else
      var e := PageEnd(r, maxRow, u.pageRows);
      RunFrom(u, StepScan(u, st, outcome, ScanPage(Read(st.cells, r, e, ReadCols(u)), r), 0), outcome, NextRow(r, maxRow, u.pageRows), maxRow)
  }

  /** The flush after the loop: the remaining rows are appended and counted (normal
      mode) and the remaining flags written; a failure of that write is not caught. */
  function Finish(u: Unit, st: Run, outcome: nat -> bool): (Run, UnitResult) {
    var sent := if !u.baseline && st.batchRows != [] then
                  st.(master := st.master + st.batchRows, log := st.log + [Appended(st.batchRows)],
                      appended := st.appended + |st.batchRows|)
                else st;
    if sent.flagUpdates == [] then (sent, Counts(sent.appended, sent.scanned))
    else
      var ok := outcome(sent.writes);
      var done := sent.(cells := if ok then ApplyUpdates(sent.cells, sent.flagUpdates) else sent.cells,
                        writes := sent.writes + 1,
                        log := sent.log + [FlagsWritten(sent.flagUpdates, ok)]);
      (done, if ok then Counts(done.appended, done.scanned) else Failed)
  }

  /** A whole unit over a tab with `rowCount` rows. */
  function RunUnit(u: Unit, cells: seq<Row>, rowCount: int, writes: nat, master: seq<Row>, outcome: nat -> bool): (Run, UnitResult) {
    var start := Run(cells, writes, master, 0, 0, [], [], []);
    var f := FlowOf(u.flow);
    if rowCount < f.startRow then (start, Counts(0, 0))
    else Finish(u, RunFrom(u, start, outcome, WindowStart(f.startRow, rowCount, u.tailRows), rowCount), outcome)
  }

  /** A tab that reaches the first data row runs the page loop over the window, then the final flush. */
  lemma RunUnitWindowed(u: Unit, cells: seq<Row>, rowCount: int, writes: nat, master: seq<Row>, outcome: nat -> bool)
    requires rowCount >= FlowOf(u.flow).startRow
    ensures RunUnit(u, cells, rowCount, writes, master, outcome)
         == Finish(u, RunFrom(u, Run(cells, writes, master, 0, 0, [], [], []), outcome,
                              WindowStart(FlowOf(u.flow).startRow, rowCount, u.tailRows), rowCount), outcome)
  {
  }

  /** The history behind a state: the rows scanned, the batches flushed, the rows
      queued since, and the last row number seen. */
  datatype Trace = Trace(scanned: seq<Scanned>, chunks: seq<seq<Scanned>>, pending: seq<Scanned>, high: int)

  /** The state a history leads to from the state `o` a unit starts in: the flags of
      the batches whose write went through, one write per batch, the images of the
      flushed batches on the master tab and in `total_appended` (none in baseline
      mode), one count per scanned row, the queue's images and flags, and the calls. */
  function Expected(u: Unit, o: Run, outcome: nat -> bool, t: Trace): Run {
    var flushed := Concat(t.chunks);
    Run(ApplyUpdates(o.cells, Succeeded(u, t.chunks, outcome, o.writes)),
        o.writes + |t.chunks|,
        o.master + (if u.baseline then [] else Images(u, flushed)),
        if u.baseline then 0 else |flushed|,
        |t.scanned|,
        if u.baseline then [] else Images(u, t.pending),
        FlagsFor(u, t.pending),
        LogOf(u, t.chunks, outcome, o.writes))
  }

  /** A history that the scan can produce: the batches and the queue together are the
      qualifying rows in scan order, the queued rows are at most row `high`, and the
      flag writes so far left every row after `high` as it was. */
  ghost predicate Consistent(u: Unit, o: Run, outcome: nat -> bool, t: Trace) {
    && Concat(t.chunks) + t.pending == Qualifying(u, t.scanned)
    && RowsWithin(t.pending, 1, t.high)
    && (forall x :: x > t.high ==> RowCells(ApplyUpdates(o.cells, Succeeded(u, t.chunks, outcome, o.writes)), x) == RowCells(o.cells, x))
  }

  /** Between rows: every flushed batch was full and the queued one is not. */
  predicate Between(u: Unit, t: Trace) {
    |t.pending| < u.batch && forall k :: 0 <= k < |t.chunks| ==> |t.chunks[k]| == u.batch
  }

  /** The history after a flush: the queue becomes the last batch. */
  function Flushed(t: Trace): Trace {
    Trace(t.scanned, t.chunks + [t.pending], [], t.high)
  }

  /** Flushing a queue that has just become full keeps every flushed batch full. */
  lemma FlushBetween(u: Unit, t: Trace)
    requires |t.pending| == u.batch && forall k :: 0 <= k < |t.chunks| ==> |t.chunks[k]| == u.batch
    ensures Between(u, Flushed(t))
  {
    var chs := t.chunks + [t.pending];
    forall k | 0 <= k < |chs| ensures |chs[k]| == u.batch {
      if k < |t.chunks| {
        assert chs[k] == t.chunks[k];
      }
    }
  }

  /** The history after queueing a qualifying row. */
  function Queued(t: Trace, e: Scanned): Trace {
    Trace(t.scanned + [e], t.chunks, t.pending + [e], e.row)
  }

  /** The flags of batch `c` that reach the sheet when its write has outcome `ok`. */
  function Acked(u: Unit, c: seq<Scanned>, ok: bool): seq<FlagUpdate> {
    if ok then FlagsFor(u, c) else []
  }

  lemma SucceededSnoc(u: Unit, chs: seq<seq<Scanned>>, c: seq<Scanned>, outcome: nat -> bool, w0: nat)
    ensures Succeeded(u, chs + [c], outcome, w0) == Succeeded(u, chs, outcome, w0) + Acked(u, c, outcome(w0 + |chs|))
  {
    assert (chs + [c])[..|chs|] == chs;
  }

  lemma LogOfSnoc(u: Unit, chs: seq<seq<Scanned>>, c: seq<Scanned>, outcome: nat -> bool, w0: nat)
    ensures LogOf(u, chs + [c], outcome, w0) == LogOf(u, chs, outcome, w0) + BatchOps(u, c, outcome(w0 + |chs|))
  {
    assert (chs + [c])[..|chs|] == chs;
  }

  /** A flush writes the state a flushed history leads to. */
  lemma FlushState(u: Unit, o: Run, outcome: nat -> bool, t: Trace)
    ensures Flush(u, Expected(u, o, outcome, t), outcome) == Expected(u, o, outcome, Flushed(t))
  {
    var fl := Flush(u, Expected(u, o, outcome, t), outcome);
    var ex := Expected(u, o, outcome, Flushed(t));
    FlushCells(u, o, outcome, t);
    FlushMaster(u, o, outcome, t);
    FlushLog(u, o, outcome, t);
    assert fl.batchRows == ex.batchRows && fl.flagUpdates == ex.flagUpdates;
  }

  /** A flush writes the queued flags exactly when its write goes through. */
  lemma FlushCellsAcked(u: Unit, st: Run, outcome: nat -> bool, c: seq<Scanned>)
    requires st.flagUpdates == FlagsFor(u, c)
    ensures Flush(u, st, outcome).cells == ApplyUpdates(st.cells, Acked(u, c, outcome(st.writes)))
  {
    if !outcome(st.writes) {
      assert Acked(u, c, outcome(st.writes)) == [];
    }
  }

  lemma ExpectedCellsFlushed(u: Unit, o: Run, outcome: nat -> bool, t: Trace)
    ensures Expected(u, o, outcome, Flushed(t)).cells
         == ApplyUpdates(o.cells, Succeeded(u, t.chunks, outcome, o.writes) + Acked(u, t.pending, outcome(o.writes + |t.chunks|)))
  {
    SucceededSnoc(u, t.chunks, t.pending, outcome, o.writes);
  }

  /** The flags of a flushed batch reach the sheet exactly when its write goes through. */
  lemma FlushCells(u: Unit, o: Run, outcome: nat -> bool, t: Trace)
    ensures Flush(u, Expected(u, o, outcome, t), outcome).cells == Expected(u, o, outcome, Flushed(t)).cells
  {
    var st := Expected(u, o, outcome, t);
    assert st.writes == o.writes + |t.chunks|;
    FlushCellsBatch(u, st, outcome, o.cells, Succeeded(u, t.chunks, outcome, o.writes), t.pending, outcome(o.writes + |t.chunks|));
    ExpectedCellsFlushed(u, o, outcome, t);
  }

  lemma FlushCellsBatch(u: Unit, st: Run, outcome: nat -> bool, cells: seq<Row>, done: seq<FlagUpdate>, c: seq<Scanned>, ok: bool)
    requires st.cells == ApplyUpdates(cells, done) && st.flagUpdates == FlagsFor(u, c) && ok == outcome(st.writes)
    ensures Flush(u, st, outcome).cells == ApplyUpdates(cells, done + Acked(u, c, ok))
  {
    FlushCellsAcked(u, st, outcome, c);
    ApplyUpdatesAppend(cells, done, Acked(u, c, ok));
  }

  /** A flushed batch's images follow the earlier ones on the master tab and in the count. */
  lemma FlushMaster(u: Unit, o: Run, outcome: nat -> bool, t: Trace)
    ensures var fl := Flush(u, Expected(u, o, outcome, t), outcome);
      var ex := Expected(u, o, outcome, Flushed(t));
      fl.master == ex.master && fl.appended == ex.appended
  {
    var p := t.pending;
    ConcatSnoc(t.chunks, p);
    if !u.baseline {
      ImagesAppend(u, Concat(t.chunks), p);
      AppendAssoc(o.master, Images(u, Concat(t.chunks)), Images(u, p));
    }
  }

  /** A flush adds the calls of one batch to the log. */
  lemma FlushLog(u: Unit, o: Run, outcome: nat -> bool, t: Trace)
    ensures Flush(u, Expected(u, o, outcome, t), outcome).log == Expected(u, o, outcome, Flushed(t)).log
  {
    FlushLogBatch(u, o, outcome, t);
    ExpectedLogFlushed(u, o, outcome, t);
  }

  lemma FlushLogBatch(u: Unit, o: Run, outcome: nat -> bool, t: Trace)
    ensures Flush(u, Expected(u, o, outcome, t), outcome).log
         == LogOf(u, t.chunks, outcome, o.writes) + BatchOps(u, t.pending, outcome(o.writes + |t.chunks|))
  {
    var p := t.pending;
    var ok := outcome(o.writes + |t.chunks|);
    FlushLogUnfolded(u, o, outcome, t);
    AppendAssoc(LogOf(u, t.chunks, outcome, o.writes), if u.baseline then [] else [Appended(Images(u, p))], [FlagsWritten(FlagsFor(u, p), ok)]);
  }

  lemma FlushLogUnfolded(u: Unit, o: Run, outcome: nat -> bool, t: Trace)
    ensures Flush(u, Expected(u, o, outcome, t), outcome).log
         == LogOf(u, t.chunks, outcome, o.writes) + (if u.baseline then [] else [Appended(Images(u, t.pending))])
            + [FlagsWritten(FlagsFor(u, t.pending), outcome(o.writes + |t.chunks|))]
  {
  }

  lemma ExpectedLogFlushed(u: Unit, o: Run, outcome: nat -> bool, t: Trace)
    ensures Expected(u, o, outcome, Flushed(t)).log
         == LogOf(u, t.chunks, outcome, o.writes) + BatchOps(u, t.pending, outcome(o.writes + |t.chunks|))
  {
    assert Expected(u, o, outcome, Flushed(t)).log == LogOf(u, t.chunks + [t.pending], outcome, o.writes);
    LogOfSnoc(u, t.chunks, t.pending, outcome, o.writes);
  }

  /** A flush of a consistent history is consistent. */
  lemma FlushConsistent(u: Unit, o: Run, outcome: nat -> bool, t: Trace)
    requires Consistent(u, o, outcome, t)
    ensures Consistent(u, o, outcome, Flushed(t))
  {
    var p := t.pending;
    var before := Succeeded(u, t.chunks, outcome, o.writes);
    SucceededSnoc(u, t.chunks, p, outcome, o.writes);
    ConcatSnoc(t.chunks, p);
    assert Concat(t.chunks) + p + [] == Concat(t.chunks) + p;
    if outcome(o.writes + |t.chunks|) {
      ApplyUpdatesAppend(o.cells, before, FlagsFor(u, p));
      FlagsLeaveLaterRows(ApplyUpdates(o.cells, before), u, p, t.high);
    } else {
      assert before + [] == before;
    }
  }

  /** Queueing a qualifying row gives the state its queued history leads to. */
  lemma EnqueueState(u: Unit, o: Run, outcome: nat -> bool, t: Trace, row: Row, absRow: pos)
    ensures Enqueue(u, Expected(u, o, outcome, t), row, absRow) == Expected(u, o, outcome, Queued(t, Scanned(absRow, row)))
  {
    FlagsForAppend(u, t.pending, [Scanned(absRow, row)]);
    ImagesAppend(u, t.pending, [Scanned(absRow, row)]);
  }

  lemma EnqueueConsistent(u: Unit, o: Run, outcome: nat -> bool, t: Trace, row: Row, absRow: pos)
    requires Consistent(u, o, outcome, t) && absRow > t.high && Qualifies(u, row)
    ensures Consistent(u, o, outcome, Queued(t, Scanned(absRow, row)))
  {
    var e := Scanned(absRow, row);
    var t1 := Queued(t, e);
    QualifyingSnoc(u, t.scanned, e);
    AppendAssoc(Concat(t.chunks), t.pending, [e]);
    assert Concat(t1.chunks) + t1.pending == Qualifying(u, t1.scanned);
    forall k | 0 <= k < |t1.pending| ensures 1 <= t1.pending[k].row <= t1.high {
      if k < |t.pending| {
        assert t1.pending[k] == t.pending[k];
      }
    }
    assert t1.chunks == t.chunks && t1.high > t.high;
  }

  /** A row that does not qualify only extends the scan. */
  lemma SkipConsistent(u: Unit, o: Run, outcome: nat -> bool, t: Trace, row: Row, absRow: pos)
    requires Consistent(u, o, outcome, t) && absRow > t.high && !Qualifies(u, row)
    ensures Consistent(u, o, outcome, Trace(t.scanned + [Scanned(absRow, row)], t.chunks, t.pending, absRow))
  {
    QualifyingSnoc(u, t.scanned, Scanned(absRow, row));
    assert Qualifying(u, t.scanned) + [] == Qualifying(u, t.scanned);
  }

  /** One row takes the state of a history to the state of that history extended by
      the row. */
  lemma StepRowKeeps(u: Unit, o: Run, outcome: nat -> bool, t: Trace, row: Row, absRow: pos)
    returns (t1: Trace)
    requires Consistent(u, o, outcome, t) && Between(u, t) && absRow > t.high
    ensures StepRow(u, Expected(u, o, outcome, t), outcome, row, absRow) == Expected(u, o, outcome, t1)
    ensures Consistent(u, o, outcome, t1) && Between(u, t1)
    ensures t1.scanned == t.scanned + [Scanned(absRow, row)] && t1.high == absRow
  {
    var e := Scanned(absRow, row);
    if !Qualifies(u, row) {
      SkipConsistent(u, o, outcome, t, row, absRow);
      t1 := Trace(t.scanned + [e], t.chunks, t.pending, absRow);
    } else {
      var queued := Queued(t, e);
      EnqueueState(u, o, outcome, t, row, absRow);
      EnqueueConsistent(u, o, outcome, t, row, absRow);
      if |t.pending| + 1 >= u.batch {
        FlushState(u, o, outcome, queued);
        FlushConsistent(u, o, outcome, queued);
        t1 := Flushed(queued);
        FlushBetween(u, queued);
      } else {
        t1 := queued;
      }
    }
  }

  /** The rows from entry i on are entry i, then the rows after it. */
  lemma StepScanAt(u: Unit, st: Run, outcome: nat -> bool, s: seq<Scanned>, i: nat, mid: Run)
    requires i < |s| && mid == StepRow(u, st, outcome, s[i].cells, s[i].row)
    ensures StepScan(u, st, outcome, s, i) == StepScan(u, mid, outcome, s, i + 1)
  {
  }

  /** The entries from i on of a run of rows in increasing order, all after `high`,
      take the state of a history to the state of that history extended by them. */
  lemma {:induction false} StepScanKeeps(u: Unit, o: Run, outcome: nat -> bool, t: Trace, s: seq<Scanned>, i: nat, hi: int)
    returns (t1: Trace)
    requires Consistent(u, o, outcome, t) && Between(u, t)
    requires i <= |s| && RowsIncrease(s) && t.high <= hi
    requires forall k :: i <= k < |s| ==> t.high < s[k].row <= hi
    ensures StepScan(u, Expected(u, o, outcome, t), outcome, s, i) == Expected(u, o, outcome, t1)
    ensures Consistent(u, o, outcome, t1) && Between(u, t1)
    ensures t1.scanned == t.scanned + s[i..] && t1.high <= hi
    decreases |s| - i
  {
    if i == |s| {
      t1 := t;
      assert t.scanned + s[i..] == t.scanned;
    } else {
      var t0 := StepRowKeeps(u, o, outcome, t, s[i].cells, s[i].row);
      t1 := StepScanKeeps(u, o, outcome, t0, s, i + 1, hi);
      StepScanAt(u, Expected(u, o, outcome, t), outcome, s, i, Expected(u, o, outcome, t0));
      SuffixCons(s, i, t.scanned, t0.scanned, t1.scanned);
    }
  }

  lemma SuffixCons<T>(s: seq<T>, i: nat, a: seq<T>, b: seq<T>, c: seq<T>)
    requires i < |s| && b == a + [s[i]] && c == b + s[i + 1..]
    ensures c == a + s[i..]
  {
    AppendAssoc(a, [s[i]], s[i + 1..]);
    assert [s[i]] + s[i + 1..] == s[i..];
  }

  /** The page loop is its first page, then the loop from the row after it. */
  lemma RunFromHead(u: Unit, st: Run, outcome: nat -> bool, r: pos, maxRow: int, mid: Run, after: Run)
    requires r <= maxRow
    requires StepScan(u, st, outcome, ScanPage(Read(st.cells, r, PageEnd(r, maxRow, u.pageRows), ReadCols(u)), r), 0) == mid
    requires RunFrom(u, mid, outcome, NextRow(r, maxRow, u.pageRows), maxRow) == after
    ensures RunFrom(u, st, outcome, r, maxRow) == after
  {
  }

  /** The page loop takes the state of a history to the state of the history that
      holds every row of the scan. */
  lemma {:induction false} RunFromKeeps(u: Unit, o: Run, outcome: nat -> bool, t: Trace, r: pos, maxRow: int, full: seq<Scanned>)
    returns (t1: Trace)
    requires Consistent(u, o, outcome, t) && Between(u, t) && t.high < r
    requires t.scanned + ScanRange(o.cells, r, maxRow, u.pageRows, ReadCols(u)) == full
    ensures RunFrom(u, Expected(u, o, outcome, t), outcome, r, maxRow) == Expected(u, o, outcome, t1)
    ensures Consistent(u, o, outcome, t1) && Between(u, t1)
    ensures t1.scanned == full
    decreases maxRow - r + 1
  {
    var mc := ReadCols(u);
    if r > maxRow {
      t1 := t;
      assert t.scanned + [] == t.scanned;
    } else {
      var e := PageEnd(r, maxRow, u.pageRows);
      var st := Expected(u, o, outcome, t);
      ReadFrame(st.cells, o.cells, r, e, mc);
      var page := ScanPage(Read(o.cells, r, e, mc), r);
      PageScanShape(o.cells, r, e, mc);
      var t0 := StepScanKeeps(u, o, outcome, t, page, 0, e);
      assert page[0..] == page;
      ScanRangeUnfold(o.cells, r, maxRow, u.pageRows, mc);
      AppendAssoc(t.scanned, page, ScanRange(o.cells, NextRow(r, maxRow, u.pageRows), maxRow, u.pageRows, mc));
      t1 := RunFromKeeps(u, o, outcome, t0, NextRow(r, maxRow, u.pageRows), maxRow, full);
      RunFromHead(u, st, outcome, r, maxRow, Expected(u, o, outcome, t0), Expected(u, o, outcome, t1));
    }
  }

  /** With flags queued (and, in normal mode, rows), the final flush writes what a
      flush inside the loop writes, and it fails exactly when its flag write fails. */
  lemma FinishIsFlush(u: Unit, st: Run, outcome: nat -> bool)
    requires st.flagUpdates != [] && (u.baseline || st.batchRows != [])
    ensures var r := Finish(u, st, outcome); var fin := r.0; var res := r.1;
      var fl := Flush(u, st, outcome);
      && fin.cells == fl.cells && fin.writes == fl.writes && fin.master == fl.master
      && fin.log == fl.log && fin.appended == fl.appended && fin.scanned == fl.scanned
      && res == (if outcome(st.writes) then Counts(fl.appended, fl.scanned) else Failed)
  {
  }

  /** The final flush of the state of a history gives the final state: every
      qualifying row batched, the results as ScanSpec's `Outcome` says. */
  lemma FinishMeets(u: Unit, o: Run, outcome: nat -> bool, t: Trace)
    requires Concat(t.chunks) + t.pending == Qualifying(u, t.scanned) && Between(u, t)
    ensures var chs := Chunks(Qualifying(u, t.scanned), u.batch);
      var r := Finish(u, Expected(u, o, outcome, t), outcome); var fin := r.0; var res := r.1;
      && fin.master == o.master + (if u.baseline then [] else Images(u, Qualifying(u, t.scanned)))
      && fin.cells == ApplyUpdates(o.cells, Succeeded(u, chs, outcome, o.writes))
      && fin.writes == o.writes + |chs|
      && fin.log == LogOf(u, chs, outcome, o.writes)
      && res == Outcome(u, chs, outcome, o.writes, |t.scanned|)
  {
    var q := Qualifying(u, t.scanned);
    var chs := Chunks(q, u.batch);
    ChunksOfFull(t.chunks, t.pending, u.batch);
    if t.pending == [] {
      assert q == Concat(t.chunks);
      FinishNothingQueued(u, o, outcome, t, q, chs);
    } else {
      FinishQueued(u, o, outcome, t, q, chs);
    }
  }

  lemma FinishNothingQueued(u: Unit, o: Run, outcome: nat -> bool, t: Trace, q: seq<Scanned>, chs: seq<seq<Scanned>>)
    requires Between(u, t) && t.pending == [] && q == Concat(t.chunks) && chs == t.chunks
    ensures var r := Finish(u, Expected(u, o, outcome, t), outcome); var fin := r.0; var res := r.1;
      && fin.master == o.master + (if u.baseline then [] else Images(u, q))
      && fin.cells == ApplyUpdates(o.cells, Succeeded(u, chs, outcome, o.writes))
      && fin.writes == o.writes + |chs|
      && fin.log == LogOf(u, chs, outcome, o.writes)
      && res == Outcome(u, chs, outcome, o.writes, |t.scanned|)
  {
    var st := Expected(u, o, outcome, t);
    assert st.batchRows == [] && st.flagUpdates == [];
    assert !FinalFlushFails(u, chs, outcome, o.writes) by {
      if chs != [] {
        assert |chs[|chs| - 1]| == u.batch;
      }
    }
  }

  lemma FinishQueued(u: Unit, o: Run, outcome: nat -> bool, t: Trace, q: seq<Scanned>, chs: seq<seq<Scanned>>)
    requires Between(u, t) && t.pending != [] && q == Concat(t.chunks) + t.pending && chs == t.chunks + [t.pending]
    ensures var r := Finish(u, Expected(u, o, outcome, t), outcome); var fin := r.0; var res := r.1;
      && fin.master == o.master + (if u.baseline then [] else Images(u, q))
      && fin.cells == ApplyUpdates(o.cells, Succeeded(u, chs, outcome, o.writes))
      && fin.writes == o.writes + |chs|
      && fin.log == LogOf(u, chs, outcome, o.writes)
      && res == Outcome(u, chs, outcome, o.writes, |t.scanned|)
  {
    var st := Expected(u, o, outcome, t);
    var ex := Expected(u, o, outcome, Flushed(t));
    assert st.flagUpdates != [] && (u.baseline || st.batchRows != []) by {
      assert |st.flagUpdates| == |t.pending|;
      assert u.baseline || |st.batchRows| == |t.pending|;
    }
    FinishIsFlush(u, st, outcome);
    FlushState(u, o, outcome, t);
    ConcatSnoc(t.chunks, t.pending);
    var fr := Finish(u, st, outcome);
    assert fr.0.master == ex.master;
    assert fr.0.cells == ex.cells;
    assert fr.0.writes == ex.writes;
    assert fr.0.log == ex.log;
    assert fr.1 == Outcome(u, chs, outcome, o.writes, |t.scanned|) by {
      assert chs[|chs| - 1] == t.pending && o.writes + |chs| - 1 == st.writes;
      assert fr.1 == (if outcome(st.writes) then Counts(ex.appended, ex.scanned) else Failed);
    }
  }

  /** A whole unit: the master tab gains the images of the window's qualifying rows
      in scan order (nothing in baseline mode); the source tab gains the flags of
      the batches whose write went through; the calls are those `LogOf` lists; and
      the result is ScanSpec's `Outcome`. */
  lemma RunUnitMeets(u: Unit, cells: seq<Row>, rowCount: int, writes: nat, master: seq<Row>, outcome: nat -> bool)
    ensures var s := WindowScan(u, cells, rowCount);
      var chs := Chunks(Qualifying(u, s), u.batch);
      var r := RunUnit(u, cells, rowCount, writes, master, outcome); var fin := r.0; var res := r.1;
      && fin.master == master + (if u.baseline then [] else Images(u, Qualifying(u, s)))
      && fin.cells == ApplyUpdates(cells, Succeeded(u, chs, outcome, writes))
      && fin.writes == writes + |chs|
      && fin.log == LogOf(u, chs, outcome, writes)
      && res == Outcome(u, chs, outcome, writes, |s|)
  {
    var s := WindowScan(u, cells, rowCount);
    var chs := Chunks(Qualifying(u, s), u.batch);
    if rowCount < FlowOf(u.flow).startRow {
      NothingReadBeforeStart(u, cells, rowCount);
    } else {
      RunUnitWindow(u, cells, rowCount, writes, master, outcome, s, chs);
    }
  }

  /** Idempotence of a whole unit: when every flag write goes through, running the
      unit again over the tab it left (same row count) appends nothing to the master
      tab, writes no flag and makes no call. */
  lemma RerunAppendsNothing(u: Unit, cells: seq<Row>, rowCount: int, writes: nat, master: seq<Row>, outcome: nat -> bool)
    requires forall w :: writes <= w ==> outcome(w)
    ensures var r1 := RunUnit(u, cells, rowCount, writes, master, outcome);
      var r2 := RunUnit(u, r1.0.cells, rowCount, r1.0.writes, r1.0.master, outcome);
      && r2.0.master == r1.0.master && r2.0.cells == r1.0.cells
      && r2.0.writes == r1.0.writes && r2.0.log == []
      && r2.1.Counts? && r2.1.appended == 0
  {
    RunUnitAllFlagged(u, cells, rowCount, writes, master, outcome);
    RerunFindsNothing(u, cells, rowCount);
    RunUnitNothingQueued(u, RunUnit(u, cells, rowCount, writes, master, outcome).0.cells, rowCount,
                         RunUnit(u, cells, rowCount, writes, master, outcome).0.writes,
                         RunUnit(u, cells, rowCount, writes, master, outcome).0.master, outcome);
  }

  /** When every flag write goes through, a unit leaves the flags of all its
      qualifying rows on the tab. */
  lemma RunUnitAllFlagged(u: Unit, cells: seq<Row>, rowCount: int, writes: nat, master: seq<Row>, outcome: nat -> bool)
    requires forall w :: writes <= w ==> outcome(w)
    ensures RunUnit(u, cells, rowCount, writes, master, outcome).0.cells
         == ApplyUpdates(cells, FlagsFor(u, Qualifying(u, WindowScan(u, cells, rowCount))))
  {
    RunUnitMeets(u, cells, rowCount, writes, master, outcome);
    SucceededAllOk(u, Chunks(Qualifying(u, WindowScan(u, cells, rowCount)), u.batch), outcome, writes);
  }

  /** A unit over a window in which no row qualifies changes nothing and makes no call. */
  lemma RunUnitNothingQueued(u: Unit, cells: seq<Row>, rowCount: int, writes: nat, master: seq<Row>, outcome: nat -> bool)
    requires Qualifying(u, WindowScan(u, cells, rowCount)) == []
    ensures var r := RunUnit(u, cells, rowCount, writes, master, outcome);
      && r.0.master == master && r.0.cells == cells && r.0.writes == writes && r.0.log == []
      && r.1.Counts? && r.1.appended == 0
  {
    RunUnitMeets(u, cells, rowCount, writes, master, outcome);
    assert Chunks(Qualifying(u, WindowScan(u, cells, rowCount)), u.batch) == [];
    assert master + Images(u, []) == master;
  }

  /** The state a unit starts in is the state of the empty history. */
  lemma StartIsEmptyHistory(u: Unit, o: Run, outcome: nat -> bool)
    requires o.appended == 0 && o.scanned == 0 && o.batchRows == [] && o.flagUpdates == [] && o.log == []
    ensures Expected(u, o, outcome, Trace([], [], [], 0)) == o
    ensures Consistent(u, o, outcome, Trace([], [], [], 0)) && Between(u, Trace([], [], [], 0))
  {
    assert o.master + [] == o.master;
  }

  lemma RunUnitWindow(u: Unit, cells: seq<Row>, rowCount: int, writes: nat, master: seq<Row>, outcome: nat -> bool,
                      s: seq<Scanned>, chs: seq<seq<Scanned>>)
    requires rowCount >= FlowOf(u.flow).startRow
    requires s == WindowScan(u, cells, rowCount) && chs == Chunks(Qualifying(u, s), u.batch)
    ensures var r := RunUnit(u, cells, rowCount, writes, master, outcome); var fin := r.0; var res := r.1;
      && fin.master == master + (if u.baseline then [] else Images(u, Qualifying(u, s)))
      && fin.cells == ApplyUpdates(cells, Succeeded(u, chs, outcome, writes))
      && fin.writes == writes + |chs|
      && fin.log == LogOf(u, chs, outcome, writes)
      && res == Outcome(u, chs, outcome, writes, |s|)
  {
    var t := RunUnitTrace(u, cells, rowCount, writes, master, outcome);
    FinishMeets(u, Run(cells, writes, master, 0, 0, [], [], []), outcome, t);
  }

  /** The page loop of a unit follows the history of the rows of its window. */
  lemma RunUnitTrace(u: Unit, cells: seq<Row>, rowCount: int, writes: nat, master: seq<Row>, outcome: nat -> bool)
    returns (t: Trace)
    requires rowCount >= FlowOf(u.flow).startRow
    ensures RunUnit(u, cells, rowCount, writes, master, outcome)
         == Finish(u, Expected(u, Run(cells, writes, master, 0, 0, [], [], []), outcome, t), outcome)
    ensures Consistent(u, Run(cells, writes, master, 0, 0, [], [], []), outcome, t) && Between(u, t)
    ensures t.scanned == WindowScan(u, cells, rowCount)
  {
    var o := Run(cells, writes, master, 0, 0, [], [], []);
    StartIsEmptyHistory(u, o, outcome);
    assert [] + ScanRange(cells, WindowStart(FlowOf(u.flow).startRow, rowCount, u.tailRows), rowCount, u.pageRows, ReadCols(u))
        == WindowScan(u, cells, rowCount);
    t := RunFromKeeps(u, o, outcome, Trace([], [], [], 0), WindowStart(FlowOf(u.flow).startRow, rowCount, u.tailRows), rowCount,
                      WindowScan(u, cells, rowCount));
    RunUnitWindowed(u, cells, rowCount, writes, master, outcome);
  }
}
