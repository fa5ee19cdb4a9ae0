/** `map_row_to_master`: projects a source row into a fixed-width destination row.
    Static values are written first, then mapped source cells overwrite them;
    destination positions outside 1..width are ignored and a source position past
    the row's end reads as "". */
module RowMapper {
  import opened Base
  import opened Grid

  /** `row[s - 1] if s - 1 < len(row) else ""`. */
  function SourceCell(row: Row, s: pos): string {
    if s - 1 < |row| then row[s - 1] else ""
  }

  /** The value of the last static entry aimed at destination `d`, if any. */
  function LastStatic(statics: seq<(int, string)>, d: int): Option<string>
    decreases |statics|
  {
    if statics == [] then None
    else if statics[|statics| - 1].0 == d then Some(statics[|statics| - 1].1)
    else LastStatic(statics[..|statics| - 1], d)
  }

  /** The source position of the last mapping entry aimed at destination `d`, if any. */
  function LastMapped(mapping: seq<(pos, int)>, d: int): Option<pos>
    decreases |mapping|
  {
    if mapping == [] then None
    else if mapping[|mapping| - 1].1 == d then Some(mapping[|mapping| - 1].0)
    else LastMapped(mapping[..|mapping| - 1], d)
  }

  /** Destination cell `d` once only the statics are written. */
  function StaticCell(statics: seq<(int, string)>, d: int): string {
    match LastStatic(statics, d)
    case Some(v) => v
    case None => ""
  }

  /** Destination cell `d`: the last mapped source cell aimed at it, else the last
      static value aimed at it, else "". */
  function MappedCell(row: Row, mapping: seq<(pos, int)>, statics: seq<(int, string)>, d: int): string {
    match LastMapped(mapping, d)
    case Some(s) => SourceCell(row, s)
    case None => StaticCell(statics, d)
  }

  /** The reference definition of the projection, position by position. */
  function MappedRow(row: Row, mapping: seq<(pos, int)>, statics: seq<(int, string)>, width: nat): Row {
    seq(width, k => MappedCell(row, mapping, statics, k + 1))
  }

  /** `map_row_to_master(row, mapping, statics, width)`: fills a row of `width`
      blanks, writes the statics, then the mapped cells, each in dictionary order. */
  method MapRowToMaster(row: Row, mapping: seq<(pos, int)>, statics: seq<(int, string)>, width: nat)
    returns (out: Row)
    ensures out == MappedRow(row, mapping, statics, width)
    ensures |out| == width
  {
    out := seq(width, _ => "");
    for i := 0 to |statics|
      invariant |out| == width
      invariant forall k :: 0 <= k < width ==> out[k] == StaticCell(statics[..i], k + 1)
    {
      var (d, v) := statics[i];
      assert statics[..i + 1][..i] == statics[..i];
      if 1 <= d <= width {
        out := out[d - 1 := v];
      }
    }
    assert statics[..|statics|] == statics;
    for i := 0 to |mapping|
      invariant |out| == width
      invariant forall k :: 0 <= k < width ==> out[k] == MappedCell(row, mapping[..i], statics, k + 1)
    {
      var (s, d) := mapping[i];
      assert mapping[..i + 1][..i] == mapping[..i];
      if 1 <= d <= width {
        out := out[d - 1 := if s - 1 < |row| then row[s - 1] else ""];
      }
    }
    assert mapping[..|mapping|] == mapping;
  }

  /** An entry is the last one aimed at its destination exactly when LastMapped finds it. */
  lemma {:induction false} LastMappedFinds(mapping: seq<(pos, int)>, i: nat)
    requires i < |mapping|
    requires forall j :: i < j < |mapping| ==> mapping[j].1 != mapping[i].1
    ensures LastMapped(mapping, mapping[i].1) == Some(mapping[i].0)
    decreases |mapping|
  {
    if i < |mapping| - 1 {
      var init := mapping[..|mapping| - 1];
      assert init[i] == mapping[i];
      LastMappedFinds(init, i);
    }
  }

  lemma {:induction false} LastMappedNone(mapping: seq<(pos, int)>, d: int)
    requires forall j :: 0 <= j < |mapping| ==> mapping[j].1 != d
    ensures LastMapped(mapping, d) == None
    decreases |mapping|
  {
    if mapping != [] {
      LastMappedNone(mapping[..|mapping| - 1], d);
    }
  }

  lemma {:induction false} LastStaticFinds(statics: seq<(int, string)>, i: nat)
    requires i < |statics|
    requires forall j :: i < j < |statics| ==> statics[j].0 != statics[i].0
    ensures LastStatic(statics, statics[i].0) == Some(statics[i].1)
    decreases |statics|
  {
    if i < |statics| - 1 {
      var init := statics[..|statics| - 1];
      assert init[i] == statics[i];
      LastStaticFinds(init, i);
    }
  }

  lemma {:induction false} LastStaticNone(statics: seq<(int, string)>, d: int)
    requires forall j :: 0 <= j < |statics| ==> statics[j].0 != d
    ensures LastStatic(statics, d) == None
    decreases |statics|
  {
    if statics != [] {
      LastStaticNone(statics[..|statics| - 1], d);
    }
  }

  /** A mapped field wins over any static value at the same destination: the last
      mapping entry (s, d) aimed at an in-range d puts source cell s there. */
  lemma MappedFieldWins(row: Row, mapping: seq<(pos, int)>, statics: seq<(int, string)>, width: nat, i: nat)
    requires i < |mapping| && 1 <= mapping[i].1 <= width
    requires forall j :: i < j < |mapping| ==> mapping[j].1 != mapping[i].1
    ensures MappedRow(row, mapping, statics, width)[mapping[i].1 - 1] == SourceCell(row, mapping[i].0)
  {
    LastMappedFinds(mapping, i);
  }

  /** A destination no mapping entry aims at shows the last static value aimed at it. */
  lemma StaticFieldShows(row: Row, mapping: seq<(pos, int)>, statics: seq<(int, string)>, width: nat, i: nat)
    requires i < |statics| && 1 <= statics[i].0 <= width
    requires forall j :: i < j < |statics| ==> statics[j].0 != statics[i].0
    requires forall j :: 0 <= j < |mapping| ==> mapping[j].1 != statics[i].0
    ensures MappedRow(row, mapping, statics, width)[statics[i].0 - 1] == statics[i].1
  {
    LastMappedNone(mapping, statics[i].0);
    LastStaticFinds(statics, i);
  }

  /** A destination neither the mapping nor the statics aim at is "". */
  lemma UntouchedIsBlank(row: Row, mapping: seq<(pos, int)>, statics: seq<(int, string)>, width: nat, d: int)
    requires 1 <= d <= width
    requires forall j :: 0 <= j < |mapping| ==> mapping[j].1 != d
    requires forall j :: 0 <= j < |statics| ==> statics[j].0 != d
    ensures MappedRow(row, mapping, statics, width)[d - 1] == ""
  {
    LastMappedNone(mapping, d);
    LastStaticNone(statics, d);
  }

  /** An entry aimed outside 1..width has no effect on the result. */
  lemma OutOfRangeIgnored(row: Row, mapping: seq<(pos, int)>, statics: seq<(int, string)>, width: nat,
                          s: pos, d: int, sv: string)
    requires d < 1 || d > width
    ensures MappedRow(row, mapping + [(s, d)], statics, width) == MappedRow(row, mapping, statics, width)
    ensures MappedRow(row, mapping, statics + [(d, sv)], width) == MappedRow(row, mapping, statics, width)
  {
    assert (mapping + [(s, d)])[..|mapping|] == mapping;
    assert (statics + [(d, sv)])[..|statics|] == statics;
  }

  /** Two rows that agree on every mapped source position have the same image:
      editing an unmapped column changes nothing in the destination row. */
  lemma {:induction false} ImageIgnoresUnmappedColumns(r1: Row, r2: Row, mapping: seq<(pos, int)>,
                                                       statics: seq<(int, string)>, width: nat)
    requires forall j :: 0 <= j < |mapping| ==> SourceCell(r1, mapping[j].0) == SourceCell(r2, mapping[j].0)
    ensures MappedRow(r1, mapping, statics, width) == MappedRow(r2, mapping, statics, width)
  {
    forall d | 1 <= d <= width
      ensures MappedCell(r1, mapping, statics, d) == MappedCell(r2, mapping, statics, d)
    {
      LastMappedIsEntry(mapping, d);
    }
    var m1 := MappedRow(r1, mapping, statics, width);
    var m2 := MappedRow(r2, mapping, statics, width);
    forall k | 0 <= k < width ensures m1[k] == m2[k] {
      assert m1[k] == MappedCell(r1, mapping, statics, k + 1);
    }
  }

  /** What LastMapped finds is the source position of some entry. */
  lemma {:induction false} LastMappedIsEntry(mapping: seq<(pos, int)>, d: int)
    ensures LastMapped(mapping, d).Some? ==> exists j :: 0 <= j < |mapping| && mapping[j].0 == LastMapped(mapping, d).value
    decreases |mapping|
  {
    if mapping != [] && mapping[|mapping| - 1].1 != d {
      var init := mapping[..|mapping| - 1];
      LastMappedIsEntry(init, d);
      if LastMapped(init, d).Some? {
        var j :| 0 <= j < |init| && init[j].0 == LastMapped(init, d).value;
        assert mapping[j] == init[j];
      }
    }
  }
}
