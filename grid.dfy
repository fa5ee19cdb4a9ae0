/** A worksheet as an in-memory grid of cells, the bounded range read the engine
    issues (`ws.get`), and the single-cell writes of a flag batch (`ws.batch_update`). */
module Grid {
  import opened Base

  type Row = seq<string>

  /** The cells of row `r` (1-based); a row past the stored content has no cells. */
  function RowCells(cells: seq<Row>, r: int): Row {
    if 1 <= r <= |cells| then cells[r - 1] else []
  }

  /** A row restricted to the columns 1..maxCol of the requested range. */
  function Clip(row: Row, maxCol: nat): Row {
    row[..Min(|row|, maxCol)]
  }

  /** A row in which no cell holds a value. */
  predicate IsBlankRow(row: Row) {
    forall j :: 0 <= j < |row| ==> row[j] == ""
  }

  /** How many of the rows first..last a range read returns: the sheets service
      leaves out the trailing rows that hold no value within the range. */
  function ReadLen(cells: seq<Row>, first: int, last: int, maxCol: nat): (n: nat)
    ensures n <= Max(last - first + 1, 0)
    decreases last - first
  {
    if last < first then 0
    else if IsBlankRow(Clip(RowCells(cells, last), maxCol)) then ReadLen(cells, first, last - 1, maxCol)
    else last - first + 1
  }

  /** `ws.get("A<first>:<col><last>")`: the rows first..last, each clipped to
      columns 1..maxCol, with the trailing rows that hold no value left out. The
      result is therefore a prefix of the page: its i-th row is row first + i. */
  function Read(cells: seq<Row>, first: int, last: int, maxCol: nat): (values: seq<Row>)
    ensures |values| <= Max(last - first + 1, 0)
    ensures forall i :: 0 <= i < |values| ==> values[i] == Clip(RowCells(cells, first + i), maxCol)
  {
    seq(ReadLen(cells, first, last, maxCol), i => Clip(RowCells(cells, first + i), maxCol))
  }

  /** Only trailing rows without a value are left out of a read: every row after
      the returned ones is blank, and the last returned row is not. */
  lemma {:induction false} ReadDropsBlankTail(cells: seq<Row>, first: int, last: int, maxCol: nat)
    ensures var n := ReadLen(cells, first, last, maxCol);
      && (forall x :: first + n <= x <= last ==> IsBlankRow(Clip(RowCells(cells, x), maxCol)))
      && (n > 0 ==> !IsBlankRow(Clip(RowCells(cells, first + n - 1), maxCol)))
    decreases last - first
  {
    if last >= first && IsBlankRow(Clip(RowCells(cells, last), maxCol)) {
      ReadDropsBlankTail(cells, first, last - 1, maxCol);
    }
  }

  /** Two grids that agree on rows first..last give the same read of that range. */
  lemma ReadFrame(c1: seq<Row>, c2: seq<Row>, first: int, last: int, maxCol: nat)
    requires forall x :: first <= x <= last ==> RowCells(c1, x) == RowCells(c2, x)
    ensures Read(c1, first, last, maxCol) == Read(c2, first, last, maxCol)
  {
    ReadLenFrame(c1, c2, first, last, maxCol);
    var r1 := Read(c1, first, last, maxCol);
    var r2 := Read(c2, first, last, maxCol);
    forall i | 0 <= i < |r1| ensures r1[i] == r2[i] {
      assert RowCells(c1, first + i) == RowCells(c2, first + i);
    }
  }

  lemma {:induction false} ReadLenFrame(c1: seq<Row>, c2: seq<Row>, first: int, last: int, maxCol: nat)
    requires forall x :: first <= x <= last ==> RowCells(c1, x) == RowCells(c2, x)
    ensures ReadLen(c1, first, last, maxCol) == ReadLen(c2, first, last, maxCol)
    decreases last - first
  {
    if last >= first {
      assert RowCells(c1, last) == RowCells(c2, last);
      ReadLenFrame(c1, c2, first, last - 1, maxCol);
    }
  }

  /** One entry of a `batch_update` call: write `value` into cell (row, col). */
  datatype FlagUpdate = FlagUpdate(row: pos, col: pos, value: string)

  /** The row after writing `v` into its column `c`: cells before `c` that were absent become "". */
  function Written(row: Row, c: pos, v: string): (w: Row)
    ensures |w| == Max(|row|, c) && w[c - 1] == v
    ensures forall j :: 0 <= j < |w| && j != c - 1 ==> w[j] == (if j < |row| then row[j] else "")
  {
    var padded := if |row| >= c then row else row + seq(c - |row|, _ => "");
    padded[c - 1 := v]
  }

  /** Writing the same value into the same cell twice is writing it once. */
  lemma WrittenTwice(row: Row, c: pos, v: string)
    ensures Written(Written(row, c, v), c, v) == Written(row, c, v)
  {
    var w := Written(row, c, v);
    var ww := Written(w, c, v);
    assert |ww| == |w|;
    forall j | 0 <= j < |w| ensures ww[j] == w[j] {
    }
  }

  /** The grid after one cell write; a write past the stored rows first adds empty rows. */
  function WriteCell(cells: seq<Row>, u: FlagUpdate): (r: seq<Row>)
    ensures |r| == Max(|cells|, u.row)
    ensures forall x :: RowCells(r, x) == if x == u.row then Written(RowCells(cells, x), u.col, u.value) else RowCells(cells, x)
  {
    var grown := if u.row <= |cells| then cells else cells + seq(u.row - |cells|, _ => []);
    assert forall x :: RowCells(grown, x) == RowCells(cells, x);
    grown[u.row - 1 := Written(grown[u.row - 1], u.col, u.value)]
  }

  /** The grid after a batch of cell writes, applied in order. */
  function ApplyUpdates(cells: seq<Row>, ups: seq<FlagUpdate>): seq<Row>
    decreases |ups|
  {
    if ups == [] then cells else ApplyUpdates(WriteCell(cells, ups[0]), ups[1..])
  }

  function RowsOf(ups: seq<FlagUpdate>): (rows: seq<pos>)
    ensures |rows| == |ups| && forall i :: 0 <= i < |ups| ==> rows[i] == ups[i].row
  {
    seq(|ups|, i requires 0 <= i < |ups| => ups[i].row)
  }

  /** Applying two batches one after the other is applying their concatenation. */
  lemma {:induction false} ApplyUpdatesAppend(cells: seq<Row>, a: seq<FlagUpdate>, b: seq<FlagUpdate>)
    ensures ApplyUpdates(cells, a + b) == ApplyUpdates(ApplyUpdates(cells, a), b)
    decreases |a|
  {
    if a != [] {
      assert (a + b)[0] == a[0] && (a + b)[1..] == a[1..] + b;
      ApplyUpdatesAppend(WriteCell(cells, a[0]), a[1..], b);
    } else {
      assert a + b == b;
    }
  }

  /** A batch of writes leaves every row it does not address as it was. */
  lemma {:induction false} ApplyUpdatesElsewhere(cells: seq<Row>, ups: seq<FlagUpdate>, x: int)
    requires x !in RowsOf(ups)
    ensures RowCells(ApplyUpdates(cells, ups), x) == RowCells(cells, x)
    decreases |ups|
  {
    if ups != [] {
      assert RowsOf(ups[1..]) == RowsOf(ups)[1..];
      ApplyUpdatesElsewhere(WriteCell(cells, ups[0]), ups[1..], x);
    }
  }

  /** A batch that writes the same value into the same column of several rows:
      each addressed row carries the value there, every other row is untouched. */
  lemma {:induction false} ApplyUniform(cells: seq<Row>, ups: seq<FlagUpdate>, c: pos, v: string, x: int)
    requires forall i :: 0 <= i < |ups| ==> ups[i].col == c && ups[i].value == v
    ensures RowCells(ApplyUpdates(cells, ups), x)
         == if x in RowsOf(ups) then Written(RowCells(cells, x), c, v) else RowCells(cells, x)
    decreases |ups|
  {
    if ups != [] {
      var c1 := WriteCell(cells, ups[0]);
      assert RowsOf(ups) == [ups[0].row] + RowsOf(ups[1..]);
      ApplyUniform(c1, ups[1..], c, v, x);
      if x == ups[0].row {
        WrittenTwice(RowCells(cells, x), c, v);
      }
    }
  }
}
