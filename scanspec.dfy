/** The specification of one (source, flow) unit of `process_flow_for_source`, on
    values: the tail window and its pages, the rows the reads return, which of them
    qualify, how they are cut into batches, and the calls the unit makes. */
module ScanSpec {
  import opened Base
  import opened Text
  import opened Grid
  import opened RowMapper
  import opened FlowConfig

  /** The parameters of one unit: the flow name, its flag column, the destination
      width, the effective batch size, baseline mode, page size and tail window. */
  datatype Unit = Unit(flow: string, syncCol: pos, width: nat, batch: pos, baseline: bool,
                       pageRows: pos, tailRows: int)

  /** The flush tests `len(...) >= BATCH_APPEND_ROWS` hold after every row once the
      setting is below 1, so such a setting behaves as batches of one. */
  function EffectiveBatch(b: int): pos {
    if b >= 1 then b else 1
  }

  function UnitOf(flow: string, cfg: Settings, width: nat): Unit
    requires cfg.pageRows >= 1 && SyncCol(cfg, flow) >= 1
  {
    Unit(flow, SyncCol(cfg, flow), width, EffectiveBatch(cfg.batchAppendRows), cfg.startFromNow,
         cfg.pageRows, cfg.tailWindowRows)
  }

  /** The columns 1..ReadCols(u) every page read covers. */
  function ReadCols(u: Unit): nat {
    MaxCol(FlowOf(u.flow), u.syncCol)
  }

  /** `window_start = max(start_row, max_row - TAIL_WINDOW_ROWS + 1)`. */
  function WindowStart(startRow: pos, maxRow: int, tailRows: int): pos {
    Max(startRow, maxRow - tailRows + 1)
  }

  /** `page_end = min(r + PAGE_ROWS - 1, max_row)`. */
  function PageEnd(r: pos, maxRow: int, pageRows: pos): int {
    Min(r + pageRows - 1, maxRow)
  }

  /** `r = page_end + 1`: the first row of the page after the one from r. */
  function NextRow(r: pos, maxRow: int, pageRows: pos): pos
    requires r <= maxRow
  {
    PageEnd(r, maxRow, pageRows) + 1
  }

  /** The pages `(r, page_end)` the loop `while r <= max_row` reads, starting at r. */
  function Pages(r: pos, maxRow: int, pageRows: pos): seq<(pos, int)>
    decreases maxRow - r + 1
  {
    if r > maxRow then [] else [(r, PageEnd(r, maxRow, pageRows))] + Pages(NextRow(r, maxRow, pageRows), maxRow, pageRows)
  }

  /** The pages tile r..maxRow: none when r > maxRow, otherwise the first starts
      at r, the last ends at maxRow, each holds 1..pageRows rows and each starts
      right after the one before it. */
  lemma {:induction false} PagesTile(r: pos, maxRow: int, pageRows: pos)
    ensures var ps := Pages(r, maxRow, pageRows);
      && (ps == [] <==> r > maxRow)
      && (ps != [] ==> ps[0].0 == r && ps[|ps| - 1].1 == maxRow)
      && (forall k :: 0 <= k < |ps| ==> ps[k].0 <= ps[k].1 < ps[k].0 + pageRows)
      && (forall k :: 0 <= k < |ps| - 1 ==> ps[k + 1].0 == ps[k].1 + 1)
    decreases maxRow - r + 1
  {
    if r <= maxRow {
      var e := PageEnd(r, maxRow, pageRows);
      PagesTile(NextRow(r, maxRow, pageRows), maxRow, pageRows);
      var ps := Pages(r, maxRow, pageRows);
      var rest := Pages(NextRow(r, maxRow, pageRows), maxRow, pageRows);
      assert ps == [(r, e)] + rest;
      forall k | 0 <= k < |ps| - 1 ensures ps[k + 1].0 == ps[k].1 + 1 {
        if k > 0 {
          assert ps[k] == rest[k - 1] && ps[k + 1] == rest[k];
        }
      }
    }
  }

  /** A returned row together with its absolute row number. */
  datatype Scanned = Scanned(row: pos, cells: Row)

  /** `for i, row in enumerate(values): abs_row = r + i`. */
  function ScanPage(values: seq<Row>, r: pos): (s: seq<Scanned>)
    ensures |s| == |values|
    ensures forall i :: 0 <= i < |values| ==> s[i] == Scanned(r + i, values[i])
  {
    seq(|values|, i requires 0 <= i < |values| => Scanned(r + i, values[i]))
  }

  function ScanPages(cells: seq<Row>, pages: seq<(pos, int)>, maxCol: nat): seq<Scanned>
    decreases |pages|
  {
    if pages == [] then []
    else ScanPage(Read(cells, pages[0].0, pages[0].1, maxCol), pages[0].0) + ScanPages(cells, pages[1..], maxCol)
  }

  /** Every row the reads of the pages from r on return, in order. */
  function ScanRange(cells: seq<Row>, r: pos, maxRow: int, pageRows: pos, maxCol: nat): seq<Scanned> {
    ScanPages(cells, Pages(r, maxRow, pageRows), maxCol)
  }

  function ScanFrom(u: Unit, cells: seq<Row>, r: pos, maxRow: int): seq<Scanned> {
    ScanRange(cells, r, maxRow, u.pageRows, ReadCols(u))
  }

  /** Every row one unit scans: the rows its page reads over the tail window return. */
  function WindowScan(u: Unit, cells: seq<Row>, maxRow: int): seq<Scanned> {
    ScanFrom(u, cells, WindowStart(FlowOf(u.flow).startRow, maxRow, u.tailRows), maxRow)
  }

  lemma ScanRangeUnfold(cells: seq<Row>, r: pos, maxRow: int, pageRows: pos, maxCol: nat)
    requires r <= maxRow
    ensures ScanRange(cells, r, maxRow, pageRows, maxCol)
         == ScanPage(Read(cells, r, PageEnd(r, maxRow, pageRows), maxCol), r)
            + ScanRange(cells, NextRow(r, maxRow, pageRows), maxRow, pageRows, maxCol)
  {
    assert Pages(r, maxRow, pageRows)[1..] == Pages(NextRow(r, maxRow, pageRows), maxRow, pageRows);
  }

  /** Nothing is read when the tab ends before the first data row. */
  lemma NothingReadBeforeStart(u: Unit, cells: seq<Row>, maxRow: int)
    requires maxRow < FlowOf(u.flow).startRow
    ensures Pages(WindowStart(FlowOf(u.flow).startRow, maxRow, u.tailRows), maxRow, u.pageRows) == []
    ensures WindowScan(u, cells, maxRow) == []
  {
  }

  /** Every row number in s lies within lo..hi. */
  predicate RowsWithin(s: seq<Scanned>, lo: int, hi: int) {
    forall k :: 0 <= k < |s| ==> lo <= s[k].row <= hi
  }

  /** The row numbers of s strictly increase. */
  predicate RowsIncrease(s: seq<Scanned>) {
    forall j, k :: 0 <= j < k < |s| ==> s[j].row < s[k].row
  }

  /** Each entry of s holds the grid's row at its number, clipped to maxCol columns. */
  predicate CellsMatch(s: seq<Scanned>, cells: seq<Row>, maxCol: nat) {
    forall k :: 0 <= k < |s| ==> s[k].cells == Clip(RowCells(cells, s[k].row), maxCol)
  }

  lemma RowsConcat(a: seq<Scanned>, b: seq<Scanned>, lo: int, mid: int, hi: int)
    requires RowsWithin(a, lo, mid) && RowsIncrease(a)
    requires RowsWithin(b, mid + 1, hi) && RowsIncrease(b)
    requires lo <= mid + 1 && mid <= hi
    ensures RowsWithin(a + b, lo, hi) && RowsIncrease(a + b)
  {
    var s := a + b;
    forall k | 0 <= k < |s| ensures lo <= s[k].row <= hi {
      if k < |a| {
        assert s[k] == a[k];
      } else {
        assert s[k] == b[k - |a|];
      }
    }
    forall j, k | 0 <= j < k < |s| ensures s[j].row < s[k].row {
      if k < |a| {
        assert s[j] == a[j] && s[k] == a[k];
      } else if j < |a| {
        assert s[j] == a[j] && s[k] == b[k - |a|];
      } else {
        assert s[j] == b[j - |a|] && s[k] == b[k - |a|];
      }
    }
  }

  lemma CellsConcat(a: seq<Scanned>, b: seq<Scanned>, cells: seq<Row>, maxCol: nat)
    requires CellsMatch(a, cells, maxCol) && CellsMatch(b, cells, maxCol)
    ensures CellsMatch(a + b, cells, maxCol)
  {
    var s := a + b;
    forall k | 0 <= k < |s| ensures s[k].cells == Clip(RowCells(cells, s[k].row), maxCol) {
      if k < |a| {
        assert s[k] == a[k];
      } else {
        assert s[k] == b[k - |a|];
      }
    }
  }

  /** The rows one page read contributes: at most a page of them, each the grid's
      row at its own number from the page's first row on, clipped. */
  lemma PageScanShape(cells: seq<Row>, r: pos, e: int, maxCol: nat)
    requires r <= e
    ensures var a := ScanPage(Read(cells, r, e, maxCol), r);
      && RowsWithin(a, r, e) && RowsIncrease(a) && CellsMatch(a, cells, maxCol)
      && forall k :: 0 <= k < |a| ==> a[k].row == r + k
  {
  }

  /** The scanned rows lie within r..maxRow, in strictly increasing order, and each
      is the grid's row at its number, clipped to the read columns. */
  lemma {:induction false} ScanRangeShape(cells: seq<Row>, r: pos, maxRow: int, pageRows: pos, maxCol: nat)
    ensures var s := ScanRange(cells, r, maxRow, pageRows, maxCol);
      RowsWithin(s, r, maxRow) && RowsIncrease(s) && CellsMatch(s, cells, maxCol)
    decreases maxRow - r + 1
  {
    if r <= maxRow {
      ScanRangeUnfold(cells, r, maxRow, pageRows, maxCol);
      PageScanShape(cells, r, PageEnd(r, maxRow, pageRows), maxCol);
      ScanRangeShape(cells, NextRow(r, maxRow, pageRows), maxRow, pageRows, maxCol);
      RowsConcat(ScanPage(Read(cells, r, PageEnd(r, maxRow, pageRows), maxCol), r),
                 ScanRange(cells, NextRow(r, maxRow, pageRows), maxRow, pageRows, maxCol), r, PageEnd(r, maxRow, pageRows), maxRow);
      CellsConcat(ScanPage(Read(cells, r, PageEnd(r, maxRow, pageRows), maxCol), r),
                  ScanRange(cells, NextRow(r, maxRow, pageRows), maxRow, pageRows, maxCol), cells, maxCol);
    }
  }

  /** Every row in r..maxRow that holds a value within the read columns is scanned. */
  lemma {:induction false} ScanRangeCovers(cells: seq<Row>, r: pos, maxRow: int, pageRows: pos, maxCol: nat, x: int)
    requires r <= x <= maxRow && !IsBlankRow(Clip(RowCells(cells, x), maxCol))
    ensures exists k :: 0 <= k < |ScanRange(cells, r, maxRow, pageRows, maxCol)|
                     && ScanRange(cells, r, maxRow, pageRows, maxCol)[k].row == x
    decreases maxRow - r + 1
  {
    ScanRangeUnfold(cells, r, maxRow, pageRows, maxCol);
    if x <= PageEnd(r, maxRow, pageRows) {
      ReadDropsBlankTail(cells, r, PageEnd(r, maxRow, pageRows), maxCol);
      InFirstPart(ScanPage(Read(cells, r, PageEnd(r, maxRow, pageRows), maxCol), r),
                  ScanRange(cells, NextRow(r, maxRow, pageRows), maxRow, pageRows, maxCol), x - r, x);
    } else {
      ScanRangeCovers(cells, NextRow(r, maxRow, pageRows), maxRow, pageRows, maxCol, x);
      InSecondPart(ScanPage(Read(cells, r, PageEnd(r, maxRow, pageRows), maxCol), r),
                   ScanRange(cells, NextRow(r, maxRow, pageRows), maxRow, pageRows, maxCol), x);
    }
  }

  lemma InFirstPart(a: seq<Scanned>, b: seq<Scanned>, k: int, x: int)
    requires 0 <= k < |a| && a[k].row == x
    ensures exists j :: 0 <= j < |a + b| && (a + b)[j].row == x
  {
    assert (a + b)[k] == a[k];
  }

  lemma InSecondPart(a: seq<Scanned>, b: seq<Scanned>, x: int)
    requires exists k :: 0 <= k < |b| && b[k].row == x
    ensures exists j :: 0 <= j < |a + b| && (a + b)[j].row == x
  {
    var k :| 0 <= k < |b| && b[k].row == x;
    assert (a + b)[|a| + k] == b[k];
  }

  /** Required column `idx` exists and is non-blank after strip. */
  predicate Present(row: Row, idx: pos) {
    idx - 1 < |row| && Trim(row[idx - 1]) != ""
  }

  predicate HasRequired(row: Row, required: seq<pos>) {
    forall i :: 0 <= i < |required| ==> Present(row, required[i])
  }

  /** The stripped flag cell, "" when the row is too short to have one. */
  function FlagValue(row: Row, syncCol: pos): string {
    if syncCol - 1 < |row| then Trim(row[syncCol - 1]) else ""
  }

  /** A row is queued: every required column is present and the flag cell is blank. */
  predicate Qualifies(u: Unit, row: Row) {
    HasRequired(row, FlowOf(u.flow).required) && FlagValue(row, u.syncCol) == ""
  }

  /** The qualifying rows of a scan, in scan order. */
  function Qualifying(u: Unit, s: seq<Scanned>): (q: seq<Scanned>)
    ensures |q| <= |s|
    decreases |s|
  {
    if s == [] then []
    else Qualifying(u, s[..|s| - 1]) + (if Qualifies(u, s[|s| - 1].cells) then [s[|s| - 1]] else [])
  }

  lemma QualifyingSnoc(u: Unit, s: seq<Scanned>, e: Scanned)
    ensures Qualifying(u, s + [e]) == Qualifying(u, s) + (if Qualifies(u, e.cells) then [e] else [])
  {
    assert (s + [e])[..|s|] == s;
  }

  /** The qualifying rows are exactly the scanned rows that qualify. */
  lemma {:induction false} QualifyingMembers(u: Unit, s: seq<Scanned>)
    ensures forall e :: e in Qualifying(u, s) <==> e in s && Qualifies(u, e.cells)
    decreases |s|
  {
    if s != [] {
      var n := |s| - 1;
      QualifyingMembers(u, s[..n]);
      assert s == s[..n] + [s[n]];
      QualifyingSnoc(u, s[..n], s[n]);
    }
  }

  /** A scanned row that qualifies is queued. */
  lemma QualifyingKeeps(u: Unit, s: seq<Scanned>, j: int)
    requires 0 <= j < |s|
    ensures Qualifies(u, s[j].cells) ==> s[j] in Qualifying(u, s)
  {
    QualifyingMembers(u, s);
  }

  /** A scan in which no row qualifies queues nothing. */
  lemma {:induction false} QualifyingNone(u: Unit, s: seq<Scanned>)
    requires forall k :: 0 <= k < |s| ==> !Qualifies(u, s[k].cells)
    ensures Qualifying(u, s) == []
    decreases |s|
  {
    if s != [] {
      var init := s[..|s| - 1];
      assert forall k :: 0 <= k < |init| ==> init[k] == s[k];
      QualifyingNone(u, init);
    }
  }

  /** Filtering keeps the order: the qualifying rows of an increasing scan increase. */
  lemma {:induction false} QualifyingIncreasing(u: Unit, s: seq<Scanned>)
    requires RowsIncrease(s)
    ensures RowsIncrease(Qualifying(u, s))
    decreases |s|
  {
    if s != [] {
      var init := s[..|s| - 1];
      var last := s[|s| - 1];
      assert s == init + [last];
      RowsIncreasePrefix(init, last);
      QualifyingIncreasing(u, init);
      if Qualifies(u, last.cells) {
        QualifyingLast(u, init, last);
      } else {
        assert Qualifying(u, s) == Qualifying(u, init) + [];
      }
    }
  }

  lemma RowsIncreasePrefix(init: seq<Scanned>, e: Scanned)
    requires RowsIncrease(init + [e])
    ensures RowsIncrease(init)
  {
    forall j, k | 0 <= j < k < |init| ensures init[j].row < init[k].row {
      assert (init + [e])[j] == init[j] && (init + [e])[k] == init[k];
    }
  }

  /** A qualifying row after every scanned row extends an increasing filter. */
  lemma QualifyingLast(u: Unit, init: seq<Scanned>, e: Scanned)
    requires RowsIncrease(init + [e]) && RowsIncrease(Qualifying(u, init))
    ensures RowsIncrease(Qualifying(u, init) + [e])
  {
    var q0 := Qualifying(u, init);
    QualifyingMembers(u, init);
    forall j | 0 <= j < |q0| ensures q0[j].row < e.row {
      assert q0[j] in init;
      var i :| 0 <= i < |init| && init[i] == q0[j];
      assert (init + [e])[i] == init[i] && (init + [e])[|init|] == e;
    }
    var q := q0 + [e];
    forall j, k | 0 <= j < k < |q| ensures q[j].row < q[k].row {
      assert q[j] == q0[j];
      if k < |q0| {
        assert q[k] == q0[k];
      }
    }
  }

  function Concat<T>(chs: seq<seq<T>>): seq<T>
    decreases |chs|
  {
    if chs == [] then [] else chs[0] + Concat(chs[1..])
  }

  lemma {:induction false} ConcatSnoc<T>(chs: seq<seq<T>>, c: seq<T>)
    ensures Concat(chs + [c]) == Concat(chs) + c
    decreases |chs|
  {
    if chs != [] {
      assert (chs + [c])[1..] == chs[1..] + [c];
      ConcatSnoc(chs[1..], c);
    } else {
      assert chs + [c] == [c];
    }
  }

  /** The batches the loop flushes: consecutive, non-empty, at most b rows each,
      all but the last exactly b, and together the whole sequence in order. */
  function Chunks<T>(q: seq<T>, b: pos): (chs: seq<seq<T>>)
    ensures Concat(chs) == q
    ensures forall k :: 0 <= k < |chs| ==> 0 < |chs[k]| <= b
    ensures forall k :: 0 <= k < |chs| - 1 ==> |chs[k]| == b
    decreases |q|
  {
    if |q| < b then (if q == [] then [] else [q])
    else
      var rest := Chunks(q[b..], b);
      var chs := [q[..b]] + rest;
      assert chs[1..] == rest;
      assert q[..b] + q[b..] == q;
      chs
  }

  /** Full batches followed by a short remainder are exactly the batches of the whole. */
  lemma {:induction false} ChunksOfFull<T>(chs: seq<seq<T>>, p: seq<T>, b: pos)
    requires forall k :: 0 <= k < |chs| ==> |chs[k]| == b
    requires |p| < b
    ensures Chunks(Concat(chs) + p, b) == chs + (if p == [] then [] else [p])
    decreases |chs|
  {
    if chs != [] {
      ChunksOfFull(chs[1..], p, b);
      AppendAssoc(chs[0], Concat(chs[1..]), p);
      ChunksCons(chs[0], Concat(chs[1..]) + p, b);
      SplitHead(chs, if p == [] then [] else [p]);
    } else {
      assert Concat(chs) + p == p;
    }
  }

  /** A full batch in front is the first batch. */
  lemma ChunksCons<T>(x: seq<T>, rest: seq<T>, b: pos)
    requires |x| == b
    ensures Chunks(x + rest, b) == [x] + Chunks(rest, b)
  {
    assert (x + rest)[..b] == x && (x + rest)[b..] == rest;
  }

  lemma SplitHead<T>(chs: seq<T>, tail: seq<T>)
    requires chs != []
    ensures chs + tail == [chs[0]] + (chs[1..] + tail)
  {
    assert chs == [chs[0]] + chs[1..];
  }

  /** The destination rows of a run of qualifying rows. */
  function Images(u: Unit, es: seq<Scanned>): seq<Row> {
    var f := FlowOf(u.flow);
    seq(|es|, i requires 0 <= i < |es| => MappedRow(es[i].cells, f.mapping, f.statics, u.width))
  }

  /** The flag writes `{"range": <col><row>, "values": [["1"]]}` of a run of qualifying rows. */
  function FlagsFor(u: Unit, es: seq<Scanned>): seq<FlagUpdate> {
    seq(|es|, i requires 0 <= i < |es| => FlagUpdate(es[i].row, u.syncCol, "1"))
  }

  lemma ImagesAppend(u: Unit, a: seq<Scanned>, b: seq<Scanned>)
    ensures Images(u, a + b) == Images(u, a) + Images(u, b)
  {
  }

  lemma FlagsForAppend(u: Unit, a: seq<Scanned>, b: seq<Scanned>)
    ensures FlagsFor(u, a + b) == FlagsFor(u, a) + FlagsFor(u, b)
  {
  }

  /** Flag writes for rows up to h leave every later row as it was. */
  lemma FlagsLeaveLaterRows(cells: seq<Row>, u: Unit, p: seq<Scanned>, h: int)
    requires RowsWithin(p, 1, h)
    ensures forall x :: x > h ==> RowCells(ApplyUpdates(cells, FlagsFor(u, p)), x) == RowCells(cells, x)
  {
    var ups := FlagsFor(u, p);
    forall x | x > h ensures RowCells(ApplyUpdates(cells, ups), x) == RowCells(cells, x) {
      forall i | 0 <= i < |ups| ensures RowsOf(ups)[i] != x {
        assert RowsOf(ups)[i] == p[i].row;
      }
      ApplyUpdatesElsewhere(cells, ups, x);
    }
  }

  /** The remote calls of a unit, in order: appends to the master tab and flag batches
      (with whether the write went through). */
  datatype Op = Appended(rows: seq<Row>) | FlagsWritten(updates: seq<FlagUpdate>, ok: bool)

  /** The calls for one batch: its append (not in baseline mode), then its flags. */
  function BatchOps(u: Unit, c: seq<Scanned>, ok: bool): seq<Op> {
    (if u.baseline then [] else [Appended(Images(u, c))]) + [FlagsWritten(FlagsFor(u, c), ok)]
  }

  /** The calls for a run of batches; flag call w0 + j (the j-th batch) succeeds
      when outcome(w0 + j) holds. */
  function LogOf(u: Unit, chs: seq<seq<Scanned>>, outcome: nat -> bool, w0: nat): seq<Op>
    decreases |chs|
  {
    if chs == [] then []
    else LogOf(u, chs[..|chs| - 1], outcome, w0) + BatchOps(u, chs[|chs| - 1], outcome(w0 + |chs| - 1))
  }

  /** The flag writes that reached the sheet. */
  function Succeeded(u: Unit, chs: seq<seq<Scanned>>, outcome: nat -> bool, w0: nat): seq<FlagUpdate>
    decreases |chs|
  {
    if chs == [] then []
    else Succeeded(u, chs[..|chs| - 1], outcome, w0)
         + (if outcome(w0 + |chs| - 1) then FlagsFor(u, chs[|chs| - 1]) else [])
  }

  /** What a unit returns to `main`: its counts, or failure when the flag write of the
      final flush raised (the in-loop flag writes swallow their failures). */
  datatype UnitResult = Counts(appended: nat, scanned: nat) | Failed

  predicate FinalFlushFails(u: Unit, chs: seq<seq<Scanned>>, outcome: nat -> bool, w0: nat) {
    chs != [] && |chs[|chs| - 1]| < u.batch && !outcome(w0 + |chs| - 1)
  }

  function Outcome(u: Unit, chs: seq<seq<Scanned>>, outcome: nat -> bool, w0: nat, scanned: nat): UnitResult {
    if FinalFlushFails(u, chs, outcome, w0) then Failed
    else Counts(if u.baseline then 0 else |Concat(chs)|, scanned)
  }

  /** `main` counts a unit that raised as (0, 0). */
  function Contribution(r: UnitResult): (c: (nat, nat))
    ensures r.Failed? ==> c == (0, 0)
    ensures r.Counts? ==> c == (r.appended, r.scanned)
  {
    match r
    case Counts(a, s) => (a, s)
    case Failed => (0, 0)
  }

  /** The call sequence, batch by batch: in normal mode call 2j appends the images of
      batch j and call 2j + 1 writes the flags of exactly those rows, so a batch's
      flags are written only after its rows were appended; in baseline mode call j
      writes the flags of batch j and nothing is appended. */
  lemma LogOfShape(u: Unit, chs: seq<seq<Scanned>>, outcome: nat -> bool, w0: nat)
    ensures var log := LogOf(u, chs, outcome, w0);
      && (u.baseline ==>
            && |log| == |chs|
            && forall j :: 0 <= j < |chs| ==> log[j] == FlagsWritten(FlagsFor(u, chs[j]), outcome(w0 + j)))
      && (!u.baseline ==>
            && |log| == 2 * |chs|
            && forall j :: 0 <= j < |chs| ==>
                 log[2 * j] == Appended(Images(u, chs[j])) && log[2 * j + 1] == FlagsWritten(FlagsFor(u, chs[j]), outcome(w0 + j)))
  {
    if u.baseline {
      LogOfBaseline(u, chs, outcome, w0);
    } else {
      LogOfNormal(u, chs, outcome, w0);
    }
  }

  lemma {:induction false} LogOfBaseline(u: Unit, chs: seq<seq<Scanned>>, outcome: nat -> bool, w0: nat)
    requires u.baseline
    ensures |LogOf(u, chs, outcome, w0)| == |chs|
    ensures forall j :: 0 <= j < |chs| ==> LogOf(u, chs, outcome, w0)[j] == FlagsWritten(FlagsFor(u, chs[j]), outcome(w0 + j))
    decreases |chs|
  {
    if chs != [] {
      LogOfBaseline(u, chs[..|chs| - 1], outcome, w0);
      LogOfLast(u, chs, outcome, w0);
    }
  }

  lemma {:induction false} LogOfNormal(u: Unit, chs: seq<seq<Scanned>>, outcome: nat -> bool, w0: nat)
    requires !u.baseline
    ensures |LogOf(u, chs, outcome, w0)| == 2 * |chs|
    ensures forall j :: 0 <= j < |chs| ==>
      && LogOf(u, chs, outcome, w0)[2 * j] == Appended(Images(u, chs[j]))
      && LogOf(u, chs, outcome, w0)[2 * j + 1] == FlagsWritten(FlagsFor(u, chs[j]), outcome(w0 + j))
    decreases |chs|
  {
    if chs != [] {
      LogOfNormal(u, chs[..|chs| - 1], outcome, w0);
      LogOfLast(u, chs, outcome, w0);
      forall j | 0 <= j < |chs| - 1 ensures chs[..|chs| - 1][j] == chs[j] {
      }
    }
  }

  /** The calls of a run of batches end with those of its last batch. */
  lemma LogOfLast(u: Unit, chs: seq<seq<Scanned>>, outcome: nat -> bool, w0: nat)
    requires chs != []
    ensures LogOf(u, chs, outcome, w0)
         == LogOf(u, chs[..|chs| - 1], outcome, w0) + BatchOps(u, chs[|chs| - 1], outcome(w0 + |chs| - 1))
  {
  }

  /** When every flag write goes through, the flags written are those of every
      batched row, in order. */
  lemma {:induction false} SucceededAllOk(u: Unit, chs: seq<seq<Scanned>>, outcome: nat -> bool, w0: nat)
    requires forall w :: w0 <= w < w0 + |chs| ==> outcome(w)
    ensures Succeeded(u, chs, outcome, w0) == FlagsFor(u, Concat(chs))
    decreases |chs|
  {
    if chs != [] {
      var n := |chs| - 1;
      var init := chs[..n];
      SucceededAllOk(u, init, outcome, w0);
      assert outcome(w0 + n);
      assert init + [chs[n]] == chs;
      ConcatSnoc(init, chs[n]);
      FlagsForAppend(u, Concat(init), chs[n]);
    }
  }

  /** A row whose flag cell now holds "1" (and whose read covers that cell) has a
      non-blank flag. */
  lemma FlaggedRowIsSynced(row: Row, syncCol: pos, maxCol: nat)
    requires syncCol <= maxCol
    ensures FlagValue(Clip(Written(row, syncCol, "1"), maxCol), syncCol) == "1"
  {
    var c := Clip(Written(row, syncCol, "1"), maxCol);
    assert c[syncCol - 1] == "1";
    TrimKeepsUnpadded("1");
  }

  /** A row without a value has none of its columns present. */
  lemma BlankRowLacksColumn(row: Row, idx: pos)
    requires IsBlankRow(row)
    ensures !Present(row, idx)
  {
    if idx - 1 < |row| {
      assert row[idx - 1] == "";
      assert Trim("") == "";
    }
  }

  /** After the flags of the window's qualifying rows are written, no row of the
      window qualifies: a flagged row now has "1" in its flag column, a blank row
      lacks its required columns, and any other row with a value was scanned and
      did not qualify then. */
  lemma RerunRow(u: Unit, cells: seq<Row>, maxRow: int, x: int)
    requires WindowStart(FlowOf(u.flow).startRow, maxRow, u.tailRows) <= x <= maxRow
    ensures var q := Qualifying(u, WindowScan(u, cells, maxRow));
      !Qualifies(u, Clip(RowCells(ApplyUpdates(cells, FlagsFor(u, q)), x), ReadCols(u)))
  {
    var f := FlowOf(u.flow);
    var w := WindowStart(f.startRow, maxRow, u.tailRows);
    var mc := ReadCols(u);
    var s := WindowScan(u, cells, maxRow);
    var q := Qualifying(u, s);
    var ups := FlagsFor(u, q);
    var row := RowCells(cells, x);
    var now := Clip(RowCells(ApplyUpdates(cells, ups), x), mc);
    assert u.syncCol <= mc && |f.required| >= 1;
    ApplyUniform(cells, ups, u.syncCol, "1", x);
    if x in RowsOf(ups) {
      FlaggedRowIsSynced(row, u.syncCol, mc);
    } else if IsBlankRow(Clip(row, mc)) {
      BlankRowLacksColumn(now, f.required[0]);
    } else {
      ScanRangeCovers(cells, w, maxRow, u.pageRows, mc, x);
      ScanRangeShape(cells, w, maxRow, u.pageRows, mc);
      var j :| 0 <= j < |s| && s[j].row == x;
      assert s[j].cells == now;
      forall i | 0 <= i < |q| ensures q[i] != s[j] {
        assert RowsOf(ups)[i] == q[i].row;
      }
      assert s[j] !in q;
      QualifyingKeeps(u, s, j);
    }
  }

  /** Idempotence: once the flags of every qualifying row of the window are written,
      a scan of the same window finds no qualifying row, so a second run appends
      nothing. */
  lemma RerunFindsNothing(u: Unit, cells: seq<Row>, maxRow: int)
    ensures var q := Qualifying(u, WindowScan(u, cells, maxRow));
      Qualifying(u, WindowScan(u, ApplyUpdates(cells, FlagsFor(u, q)), maxRow)) == []
  {
    var w := WindowStart(FlowOf(u.flow).startRow, maxRow, u.tailRows);
    var q := Qualifying(u, WindowScan(u, cells, maxRow));
    var cells2 := ApplyUpdates(cells, FlagsFor(u, q));
    var s2 := WindowScan(u, cells2, maxRow);
    ScanRangeShape(cells2, w, maxRow, u.pageRows, ReadCols(u));
    forall k | 0 <= k < |s2| ensures !Qualifies(u, s2[k].cells) {
      RerunRow(u, cells, maxRow, s2[k].row);
    }
    QualifyingNone(u, s2);
  }
}
