/** The equilibrium solver: the bounded best-response loop that starts every
    link at the demand unit, records each round's travel times, moves the
    whole demand onto the fastest links and stops early when every link
    holds the demand unit again. */
module EquilibriumSolver {
  import opened TransportNetwork
  import opened EquilibriumSpec

  /** What the solver hands back: the final flow of every link and the
      travel times each link had, round by round. */
  datatype Solution = Solution(flows: map<Link, real>, history: map<Link, seq<real>>)

  /** Appends this round's time to each link's history list, creating the
      list the first time a link is seen. */
  method RecordTimes(history: map<Link, seq<real>>, times: map<Link, real>)
    returns (recorded: map<Link, seq<real>>)
    ensures recorded.Keys == history.Keys + times.Keys
    ensures forall l :: l in times ==>
              recorded[l] == (if l in history then history[l] else []) + [times[l]]
    ensures forall l :: l in history && l !in times ==> recorded[l] == history[l]
  {
    recorded := history;
    var rest := times.Keys;
    while rest != {}
      invariant rest <= times.Keys
      invariant recorded.Keys == history.Keys + (times.Keys - rest)
      invariant forall l :: l in times && l !in rest ==>
                  recorded[l] == (if l in history then history[l] else []) + [times[l]]
      invariant forall l :: l in history && (l !in times || l in rest) ==> recorded[l] == history[l]
      decreases rest
    {
      var l :| l in rest;
      if l in recorded {
        recorded := recorded[l := recorded[l] + [times[l]]];
      } else {
        recorded := recorded[l := [times[l]]];
      }
      rest := rest - {l};
    }
  }

  /** The smallest travel time of a round. */
  method MinimumTime(times: map<Link, real>) returns (m: real)
    requires times.Keys != {}
    ensures exists l :: l in times && times[l] == m
    ensures forall l :: l in times ==> m <= times[l]
    ensures m == MinTime(times)
  {
    var first :| first in times.Keys;
    m := times[first];
    var rest := times.Keys - {first};
    while rest != {}
      invariant rest <= times.Keys
      invariant exists l :: l in times && l !in rest && times[l] == m
      invariant forall l :: l in times && l !in rest ==> m <= times[l]
      decreases rest
    {
      var l :| l in rest;
      if times[l] < m {
        m := times[l];
      }
      rest := rest - {l};
    }
    ghost var w :| w in times && times[w] == MinTime(times);
    assert m <= times[w];
  }

  /** Gives the demand unit to every link whose time equals the minimum and
      0 to every other link. */
  method AssignDemand(flows: map<Link, real>, times: map<Link, real>, minTime: real)
    returns (next: map<Link, real>)
    requires times.Keys == flows.Keys
    ensures next.Keys == flows.Keys
    ensures forall l :: l in next ==> next[l] == if times[l] == minTime then Demand else 0.0
  {
    next := flows;
    var rest := flows.Keys;
    while rest != {}
      invariant rest <= flows.Keys
      invariant next.Keys == flows.Keys
      invariant forall l :: l in next && l !in rest ==>
                  next[l] == if times[l] == minTime then Demand else 0.0
      decreases rest
    {
      var l :| l in rest;
      if times[l] == minTime {
        next := next[l := Demand];
      } else {
        next := next[l := 0.0];
      }
      rest := rest - {l};
    }
  }

  /** The largest distance of any link's flow from the demand unit. */
  method MaxDeviation(flows: map<Link, real>) returns (d: real)
    requires flows.Keys != {}
    ensures exists l :: l in flows && d == Abs(flows[l] - Demand)
    ensures forall l :: l in flows ==> Abs(flows[l] - Demand) <= d
  {
    var first :| first in flows.Keys;
    d := Abs(flows[first] - Demand);
    var rest := flows.Keys - {first};
    while rest != {}
      invariant rest <= flows.Keys
      invariant exists l :: l in flows && l !in rest && d == Abs(flows[l] - Demand)
      invariant forall l :: l in flows && l !in rest ==> Abs(flows[l] - Demand) <= d
      decreases rest
    {
      var l :| l in rest;
      if Abs(flows[l] - Demand) > d {
        d := Abs(flows[l] - Demand);
      }
      rest := rest - {l};
    }
  }

  /** One pass of the loop body: compute every link's travel time under the
      current flows, append it to the history, then move the demand unit
      onto the links whose time equals the minimum. */
  method RunRound(net: Network, ghost k: nat, flows: map<Link, real>, history: map<Link, seq<real>>)
    returns (next: map<Link, real>, recorded: map<Link, seq<real>>)
    requires net.parameters.Keys != {}
    requires flows == FlowsAfter(net, k) && history == HistoryAfter(net, k)
    ensures next == FlowsAfter(net, k + 1) && recorded == HistoryAfter(net, k + 1)
  {
    var times := Times(net, flows);
    recorded := RecordTimes(history, times);
    HistoryFromRecord(net, k, recorded);
    var minTime := MinimumTime(times);
    next := AssignDemand(flows, times, minTime);
    RoundFromMinimum(net, flows, next);
    FlowsStep(net, k);
  }

  /** One iteration of the main loop: a round of the all-or-nothing rule
      followed by the convergence test on the new flows. */
  method Iterate(net: Network, ghost k: nat, flows: map<Link, real>, history: map<Link, seq<real>>,
                 tolerance: real)
    returns (next: map<Link, real>, recorded: map<Link, seq<real>>, done: bool)
    requires net.parameters.Keys != {}
    requires flows == FlowsAfter(net, k) && history == HistoryAfter(net, k)
    ensures next == FlowsAfter(net, k + 1) && recorded == HistoryAfter(net, k + 1)
    ensures done <==> ConvergedAfter(net, k + 1, tolerance)
  {
    next, recorded := RunRound(net, k, flows, history);
    var deviation := MaxDeviation(next);
    done := deviation < tolerance;
    LargestDeviationTest(next, deviation, tolerance);
  }

  /** Runs at most `maxIterations` rounds of the all-or-nothing rule and
      returns the final flows with the per-link travel-time history. The
      minimum of an empty link set is an error. */
  method FindEquilibriumFlow(net: Network, maxIterations: int, tolerance: real)
    returns (r: Result<Solution>)
    ensures r.Err? <==> net.parameters.Keys == {} && maxIterations >= 1
    ensures r.Err? ==> r.error == EmptyMinimum
    ensures r.Ok? ==> r.value.flows == FlowsAfter(net, RoundsRun(net, maxIterations, tolerance))
    ensures r.Ok? ==> r.value.history == HistoryAfter(net, RoundsRun(net, maxIterations, tolerance))
  {
    var flows := map l | l in net.parameters :: Demand;
    var history: map<Link, seq<real>> := map[];
    var k: nat := 0;
    var done := false;
    ghost var rounds := RoundsRun(net, maxIterations, tolerance);
    while k < maxIterations && !done
      invariant k >= 1 ==> net.parameters.Keys != {}
      invariant flows == FlowsAfter(net, k) && history == HistoryAfter(net, k)
      invariant k <= rounds
      invariant done <==> k >= 1 && ConvergedAfter(net, k, tolerance)
      invariant done ==> k == rounds
    {
      if flows.Keys == {} {
        return Err(EmptyMinimum);
      }
      flows, history, done := Iterate(net, k, flows, history, tolerance);
      k := k + 1;
    }
    r := Ok(Solution(flows, history));
  }
}
