/** Concrete runs of the solver on small networks: a single link that
    converges at once, and two links whose all-or-nothing assignment
    alternates for ever. */
module Scenarios {
  import opened TransportNetwork
  import opened EquilibriumSpec

  /** One link "X" with constant travel time 1. */
  const OneLink: Network := Network(map["X" := Params(1.0, 0.0)])

  /** Links "A" (alpha 0, beta 1) and "B" (alpha 5, beta 1). */
  const TwoLinks: Network := Network(map["A" := Params(0.0, 1.0), "B" := Params(5.0, 1.0)])

  /** The single link is always the fastest, so it keeps the demand unit. */
  lemma {:induction false} OneLinkKeepsDemand(k: nat)
    ensures FlowsAfter(OneLink, k) == map["X" := Demand]
  {
    if k > 0 {
      OneLinkKeepsDemand(k - 1);
      var flows := FlowsAfter(OneLink, k - 1);
      var t := Times(OneLink, flows);
      FastestIffMinimum(t, "X");
      assert FlowsAfter(OneLink, k) == Round(OneLink, flows);
    } else {
      assert Initial(OneLink).Keys == {"X"};
    }
  }

  /** With a single link and a positive tolerance, the loop stops after one round. */
  lemma OneLinkStopsAfterOne(maxIterations: int, tolerance: real)
    requires maxIterations >= 1 && tolerance > 0.0
    ensures RoundsRun(OneLink, maxIterations, tolerance) == 1
    ensures FlowsAfter(OneLink, RoundsRun(OneLink, maxIterations, tolerance)) == map["X" := Demand]
  {
    OneLinkKeepsDemand(1);
    assert ConvergedAfter(OneLink, 1, tolerance);
  }

  /** One round on the two-link network: "A" has time fa, "B" has time
      5 + fb, and the smaller one (both on a tie) gets the demand unit.
      The network is passed as a parameter pinned to TwoLinks; this only
      guides the prover and changes nothing in what is stated. */
  lemma TwoLinkRound(net: Network, fa: real, fb: real)
    requires net == TwoLinks
    ensures Round(net, map["A" := fa, "B" := fb])
            == map["A" := (if fa <= 5.0 + fb then Demand else 0.0),
                   "B" := (if 5.0 + fb <= fa then Demand else 0.0)]
  {
    var flows := map["A" := fa, "B" := fb];
    assert flows.Keys == {"A", "B"};
    var t := Times(net, flows);
    assert t["A"] == fa && t["B"] == 5.0 + fb;
    var m := MinTime(t);
    FastestIffMinimum(t, "A");
    FastestIffMinimum(t, "B");
    var next := Round(net, flows);
    assert next["A"] == if t["A"] == m then Demand else 0.0;
    assert next["B"] == if t["B"] == m then Demand else 0.0;
  }

  /** The two-link flows in which "A" holds the demand unit. */
  const AWins: map<Link, real> := map["A" := Demand, "B" := 0.0]

  /** The two-link flows in which "B" holds the demand unit. */
  const BWins: map<Link, real> := map["A" := 0.0, "B" := Demand]

  /** The first rounds of the two-link network: "A" wins, then "B" wins. */
  lemma TwoLinksFirstRounds()
    ensures FlowsAfter(TwoLinks, 1) == AWins
    ensures FlowsAfter(TwoLinks, 2) == BWins
  {
    assert FlowsAfter(TwoLinks, 0) == map["A" := Demand, "B" := Demand];
    TwoLinkRound(TwoLinks, Demand, Demand);
    FlowsStep(TwoLinks, 0);
    TwoLinkRound(TwoLinks, Demand, 0.0);
    FlowsStep(TwoLinks, 1);
  }

  /** Flows after equal round counts are equal. This only guides the
      prover: it names the equality of two round counts written differently. */
  lemma SameRound(net: Network, j: nat, k: nat)
    requires j == k
    ensures FlowsAfter(net, j) == FlowsAfter(net, k)
  {
  }

  /** The rounds are deterministic: equal flows give equal next flows.
      The round counts are passed explicitly to guide the prover. */
  lemma SameNext(net: Network, i: nat, j: nat, i': nat, j': nat)
    requires i' == i + 1 && j' == j + 1 && FlowsAfter(net, i) == FlowsAfter(net, j)
    ensures FlowsAfter(net, i') == FlowsAfter(net, j')
  {
    FlowsStep(net, i);
    FlowsStep(net, j);
  }

  /** Once round three repeats round one, every later round repeats the
      round two before it. */
  lemma {:induction false} PeriodTwo(net: Network, k: nat, k2: nat)
    requires FlowsAfter(net, 3) == FlowsAfter(net, 1)
    requires k >= 1 && k2 == k + 2
    ensures FlowsAfter(net, k2) == FlowsAfter(net, k)
  {
    if k > 1 {
      PeriodTwo(net, k - 1, k + 1);
      SameNext(net, k + 1, k - 1, k2, k);
    } else {
      SameRound(net, k2, 3);
      SameRound(net, k, 1);
    }
  }

  /** Round k repeats round j, two rounds earlier, so it has the flows
      round j's parity gives. This only guides the prover through the
      parity arithmetic of Alternates. */
  lemma ParityStep(net: Network, j: nat, k: nat)
    requires j >= 1 && k == j + 2
    requires j % 2 == 1 ==> FlowsAfter(net, j) == FlowsAfter(net, 1)
    requires j % 2 == 0 ==> FlowsAfter(net, j) == FlowsAfter(net, 2)
    requires FlowsAfter(net, k) == FlowsAfter(net, j)
    ensures k % 2 == 1 ==> FlowsAfter(net, k) == FlowsAfter(net, 1)
    ensures k % 2 == 0 ==> FlowsAfter(net, k) == FlowsAfter(net, 2)
  {
    assert k % 2 == j % 2;
  }

  /** Once round three repeats round one, the flows after any odd round
      are those of round one and after any even round those of round two. */
  lemma {:induction false} Alternates(net: Network, k: nat)
    requires FlowsAfter(net, 3) == FlowsAfter(net, 1)
    requires k >= 1
    ensures k % 2 == 1 ==> FlowsAfter(net, k) == FlowsAfter(net, 1)
    ensures k % 2 == 0 ==> FlowsAfter(net, k) == FlowsAfter(net, 2)
  {
    if k == 1 {
      SameRound(net, k, 1);
    } else if k == 2 {
      SameRound(net, k, 2);
    } else {
      Alternates(net, k - 2);
      PeriodTwo(net, k - 2, k);
      ParityStep(net, k - 2, k);
    }
  }

  /** From the first round on, the two-link assignment has period two:
      "A" wins every odd round and "B" every even one. */
  lemma TwoLinksAlternate(k: nat)
    requires k >= 1
    ensures FlowsAfter(TwoLinks, k) == if k % 2 == 1 then AWins else BWins
  {
    TwoLinksFirstRounds();
    TwoLinkRound(TwoLinks, 0.0, Demand);
    FlowsStep(TwoLinks, 2);
    Alternates(TwoLinks, k);
  }

  /** The two-link run never passes a test with tolerance at most the
      demand unit, so it always runs the full number of rounds. */
  lemma TwoLinksRunAll(maxIterations: int, tolerance: real)
    requires maxIterations >= 1 && tolerance <= Demand
    ensures RoundsRun(TwoLinks, maxIterations, tolerance) == maxIterations
  {
    forall j | 1 <= j
      ensures !ConvergedAfter(TwoLinks, j, tolerance)
    {
      TwoLinksAlternate(j);
      var flows := FlowsAfter(TwoLinks, j);
      if j % 2 == 1 {
        assert Abs(flows["B"] - Demand) >= tolerance;
      } else {
        assert Abs(flows["A"] - Demand) >= tolerance;
      }
    }
    RoundsRunUnique(TwoLinks, maxIterations, tolerance, maxIterations);
  }
}
