/** The totals `main` prints: per flow, the sum of what each (source, flow) unit
    contributes, a unit that raised counting as (0, 0); over all flows, the sum of
    the flow totals. The units' results are the input, in the order `main` runs
    the units. */
module Tally {
  import opened ScanSpec

  /** `flow_app += a; flow_scan += s` over the results in order. */
  function Totals(rs: seq<UnitResult>): (nat, nat)
    decreases |rs|
  {
    if rs == [] then (0, 0)
    else
      var t := Totals(rs[..|rs| - 1]);
      var c := Contribution(rs[|rs| - 1]);
      (t.0 + c.0, t.1 + c.1)
  }

  /** The counts of the units that returned, in order. */
  function Completed(rs: seq<UnitResult>): (ps: seq<(nat, nat)>)
    ensures |ps| <= |rs|
    decreases |rs|
  {
    if rs == [] then []
    else Completed(rs[..|rs| - 1]) + (match rs[|rs| - 1] case Counts(a, s) => [(a, s)] case Failed => [])
  }

  /** The component-wise sum of a list of pairs. */
  function Sum(ps: seq<(nat, nat)>): (nat, nat)
    decreases |ps|
  {
    if ps == [] then (0, 0) else (ps[0].0 + Sum(ps[1..]).0, ps[0].1 + Sum(ps[1..]).1)
  }

  lemma {:induction false} SumSnoc(ps: seq<(nat, nat)>, p: (nat, nat))
    ensures Sum(ps + [p]) == (Sum(ps).0 + p.0, Sum(ps).1 + p.1)
    decreases |ps|
  {
    if ps != [] {
      assert (ps + [p])[1..] == ps[1..] + [p];
      SumSnoc(ps[1..], p);
    }
  }

  /** The totals are the sums of the counts of the units that returned: a unit
      that raised adds nothing. */
  lemma {:induction false} TotalsOfCompleted(rs: seq<UnitResult>)
    ensures Totals(rs) == Sum(Completed(rs))
    decreases |rs|
  {
    if rs != [] {
      var init := rs[..|rs| - 1];
      TotalsOfCompleted(init);
      match rs[|rs| - 1]
      case Counts(a, s) =>
        SumSnoc(Completed(init), (a, s));
      case Failed =>
        assert Completed(init) + [] == Completed(init);
    }
  }

  /** Adding up two runs of units one after the other adds their totals. */
  lemma {:induction false} TotalsAppend(a: seq<UnitResult>, b: seq<UnitResult>)
    ensures Totals(a + b) == (Totals(a).0 + Totals(b).0, Totals(a).1 + Totals(b).1)
    decreases |b|
  {
    if b == [] {
      assert a + b == a;
    } else {
      var bi := b[..|b| - 1];
      assert (a + b)[..|a + b| - 1] == a + bi;
      assert (a + b)[|a + b| - 1] == b[|b| - 1];
      TotalsAppend(a, bi);
    }
  }

  /** The loop over the sources of one flow (`flow_app`, `flow_scan`). */
  method TallyFlow(rs: seq<UnitResult>) returns (flowApp: nat, flowScan: nat)
    ensures (flowApp, flowScan) == Totals(rs)
  {
    flowApp, flowScan := 0, 0;
    for i := 0 to |rs|
      invariant (flowApp, flowScan) == Totals(rs[..i])
    {
      var c := Contribution(rs[i]);
      assert rs[..i + 1][..i] == rs[..i];
      flowApp, flowScan := flowApp + c.0, flowScan + c.1;
    }
    assert rs[..|rs|] == rs;
  }

  /** The loop over the flows (`grand_app`, `grand_scan`): the grand totals are the
      totals of all units of all flows, in order. */
  method TallyAll(perFlow: seq<seq<UnitResult>>) returns (grandApp: nat, grandScan: nat)
    ensures (grandApp, grandScan) == Totals(Concat(perFlow))
  {
    grandApp, grandScan := 0, 0;
    for i := 0 to |perFlow|
      invariant (grandApp, grandScan) == Totals(Concat(perFlow[..i]))
    {
      var flowApp, flowScan := TallyFlow(perFlow[i]);
      assert perFlow[..i + 1] == perFlow[..i] + [perFlow[i]];
      ConcatSnoc(perFlow[..i], perFlow[i]);
      TotalsAppend(Concat(perFlow[..i]), perFlow[i]);
      grandApp, grandScan := grandApp + flowApp, grandScan + flowScan;
    }
    assert perFlow[..|perFlow|] == perFlow;
  }
}
