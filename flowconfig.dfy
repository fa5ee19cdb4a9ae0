/** The static configuration of the two flows ("ALL" and "LI"), the process
    settings the engine reads, and the derived widths (`MASTER_WIDTH_MIN`, the
    number of columns a page read covers). */
module FlowConfig {
  import opened Base
  import opened RowMapper

  /** One flow: its tab, the first data row, required and key columns (1-based),
      source -> destination column mapping and destination -> constant statics,
      both in dictionary order. */
  datatype Flow = Flow(tab: string, startRow: pos, required: seq<pos>, keyCols: seq<pos>,
                       mapping: seq<(pos, int)>, statics: seq<(int, string)>)

  const TabAll: string := "ALL TICKETS (LIVE)"
  const TabLi: string := "LINKEDIN VIEWS (LIVE)"
  const StartRowAll: pos := 4
  const StartRowLi: pos := 3
  const ReqAll: seq<pos> := [2, 3]
  const ReqLi: seq<pos> := [2, 3, 4]
  const KeyColsAll: seq<pos> := [2, 3]
  const KeyColsLi: seq<pos> := [2, 3, 4]
  const MapAll: seq<(pos, int)> := [(1, 1), (3, 2), (10, 5), (2, 6), (11, 7), (12, 8), (4, 16)]
  const MapLi: seq<(pos, int)> := [(1, 1), (2, 6), (3, 2), (5, 8), (4, 3)]
  const StaticLi: seq<(int, string)> := [(5, "LinkedIn - LX"), (7, "DD")]

  /** The configuration selected by a flow name: "ALL" picks the ticket flow,
      any other name the LinkedIn flow. */
  function FlowOf(flow: string): (f: Flow)
    ensures |f.required| >= 1
    ensures flow == "ALL" ==> f.startRow == 4 && f.required == [2, 3] && f.statics == []
    ensures flow != "ALL" ==> f.startRow == 3 && f.required == [2, 3, 4] && f.statics == StaticLi
  {
    if flow == "ALL" then Flow(TabAll, StartRowAll, ReqAll, KeyColsAll, MapAll, [])
    else Flow(TabLi, StartRowLi, ReqLi, KeyColsLi, MapLi, StaticLi)
  }

  /** The process settings that reach the engine, as integers and a flag. */
  datatype Settings = Settings(tailWindowRows: int, pageRows: int, batchAppendRows: int,
                               startFromNow: bool, syncColAll: int, syncColLi: int)

  /** The values used when the environment sets none of them. */
  const DefaultSettings: Settings := Settings(3000, 3000, 500, false, 30, 30)

  /** The flag column of a flow. */
  function SyncCol(cfg: Settings, flow: string): int {
    if flow == "ALL" then cfg.syncColAll else cfg.syncColLi
  }

  /** Python's `max` of a non-empty list. */
  function MaxOf(xs: seq<int>): (m: int)
    requires |xs| >= 1
    ensures m in xs
    ensures forall i :: 0 <= i < |xs| ==> xs[i] <= m
    decreases |xs|
  {
    if |xs| == 1 then xs[0] else Max(xs[0], MaxOf(xs[1..]))
  }

  /** The first components of a list of pairs (a dictionary's keys), in order. */
  function Firsts<A, B>(m: seq<(A, B)>): (r: seq<A>)
    ensures |r| == |m| && forall i :: 0 <= i < |m| ==> r[i] == m[i].0
  {
    seq(|m|, i requires 0 <= i < |m| => m[i].0)
  }

  /** The second components of a list of pairs (a dictionary's values), in order. */
  function Seconds<A, B>(m: seq<(A, B)>): (r: seq<B>)
    ensures |r| == |m| && forall i :: 0 <= i < |m| ==> r[i] == m[i].1
  {
    seq(|m|, i requires 0 <= i < |m| => m[i].1)
  }

  /** `MASTER_WIDTH_MIN`: the largest destination position of either flow, and at least 16. */
  function MasterWidthMin(): int {
    MaxOf(Seconds(MapAll) + Seconds(MapLi) + Firsts(StaticLi) + [16])
  }

  /** The minimum destination width is 16, and every destination position that a
      mapping or a static of either flow aims at lies in 1..16. */
  lemma MasterWidthMinCoversFlows()
    ensures MasterWidthMin() == 16
    ensures forall i :: 0 <= i < |MapAll| ==> 1 <= MapAll[i].1 <= MasterWidthMin()
    ensures forall i :: 0 <= i < |MapLi| ==> 1 <= MapLi[i].1 <= MasterWidthMin()
    ensures forall i :: 0 <= i < |StaticLi| ==> 1 <= StaticLi[i].0 <= MasterWidthMin()
  {
    var xs := Seconds(MapAll) + Seconds(MapLi) + Firsts(StaticLi) + [16];
    assert xs[|xs| - 1] == 16;
    assert forall i :: 0 <= i < |xs| ==> xs[i] <= 16;
  }

  /** The columns 1..MaxCol a page read covers: every required column, every mapped
      source column (or 1 with no mapping) and the flag column. */
  function MaxCol(f: Flow, syncCol: int): (c: int)
    requires |f.required| >= 1
    ensures c >= syncCol && c >= 1
    ensures forall i :: 0 <= i < |f.required| ==> f.required[i] <= c
    ensures forall i :: 0 <= i < |f.mapping| ==> f.mapping[i].0 <= c
  {
    var needed := Max(if f.mapping == [] then 1 else MaxOf(Firsts(f.mapping)), MaxOf(f.required));
    assert forall i :: 0 <= i < |f.mapping| ==> f.mapping[i].0 == Firsts(f.mapping)[i];
    Max(needed, syncCol)
  }

  /** The ticket flow's destination row for width >= 16: A <- A, B <- C, E <- J,
      F <- B, G <- K, H <- L, P <- D, every other cell "". */
  lemma AllFlowLayout(row: seq<string>, width: nat)
    requires width >= 16
    ensures var m := MappedRow(row, MapAll, [], width);
      m[0] == SourceCell(row, 1) && m[1] == SourceCell(row, 3) && m[4] == SourceCell(row, 10)
      && m[5] == SourceCell(row, 2) && m[6] == SourceCell(row, 11) && m[7] == SourceCell(row, 12)
      && m[15] == SourceCell(row, 4)
      && forall k :: 0 <= k < width && k != 0 && k != 1 && k != 4 && k != 5 && k != 6 && k != 7 && k != 15 ==> m[k] == ""
  {
    var m := MappedRow(row, MapAll, [], width);
    MappedFieldWins(row, MapAll, [], width, 0);
    MappedFieldWins(row, MapAll, [], width, 1);
    MappedFieldWins(row, MapAll, [], width, 2);
    MappedFieldWins(row, MapAll, [], width, 3);
    MappedFieldWins(row, MapAll, [], width, 4);
    MappedFieldWins(row, MapAll, [], width, 5);
    MappedFieldWins(row, MapAll, [], width, 6);
    forall k | 0 <= k < width && k != 0 && k != 1 && k != 4 && k != 5 && k != 6 && k != 7 && k != 15
      ensures m[k] == ""
    {
      UntouchedIsBlank(row, MapAll, [], width, k + 1);
    }
  }

  /** The LinkedIn flow's destination row for width >= 16: A <- A, B <- C, C <- D,
      E = "LinkedIn - LX", F <- B, G = "DD", H <- E, every other cell "". */
  lemma LiFlowLayout(row: seq<string>, width: nat)
    requires width >= 16
    ensures var m := MappedRow(row, MapLi, StaticLi, width);
      m[0] == SourceCell(row, 1) && m[1] == SourceCell(row, 3) && m[2] == SourceCell(row, 4)
      && m[4] == "LinkedIn - LX" && m[5] == SourceCell(row, 2) && m[6] == "DD"
      && m[7] == SourceCell(row, 5)
      && forall k :: 0 <= k < width && k != 0 && k != 1 && k != 2 && k != 4 && k != 5 && k != 6 && k != 7 ==> m[k] == ""
  {
    var m := MappedRow(row, MapLi, StaticLi, width);
    MappedFieldWins(row, MapLi, StaticLi, width, 0);
    MappedFieldWins(row, MapLi, StaticLi, width, 1);
    MappedFieldWins(row, MapLi, StaticLi, width, 2);
    MappedFieldWins(row, MapLi, StaticLi, width, 3);
    MappedFieldWins(row, MapLi, StaticLi, width, 4);
    StaticFieldShows(row, MapLi, StaticLi, width, 0);
    StaticFieldShows(row, MapLi, StaticLi, width, 1);
    forall k | 0 <= k < width && k != 0 && k != 1 && k != 2 && k != 4 && k != 5 && k != 6 && k != 7
      ensures m[k] == ""
    {
      UntouchedIsBlank(row, MapLi, StaticLi, width, k + 1);
    }
  }
}
