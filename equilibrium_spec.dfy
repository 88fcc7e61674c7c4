/** What the equilibrium solver computes, stated round by round: the flows
    and travel-time history after k rounds of the all-or-nothing
    best-response rule, and how many rounds the bounded loop runs. */
module EquilibriumSpec {
  import opened TransportNetwork

  /** The demand unit: every link starts with it, and every fastest link
      receives it after a round. */
  const Demand: real := 10.0

  function Abs(x: real): real {
    if x < 0.0 then -x else x
  }

  /** Travel time of every link under a flow map. */
  function Times(net: Network, flows: map<Link, real>): (t: map<Link, real>)
    requires flows.Keys <= net.parameters.Keys
    ensures t.Keys == flows.Keys
  {
    map l | l in flows :: TravelTime(net, l, flows[l]).value
  }

  /** Link `l` is a fastest link: no link has a smaller travel time. */
  ghost predicate IsFastest(times: map<Link, real>, l: Link) {
    l in times && forall k :: k in times ==> times[l] <= times[k]
  }

  /** The minimum travel time of a round: attained by some link and no
      larger than the time of any link. */
  ghost function MinTime(times: map<Link, real>): (m: real)
    requires times.Keys != {}
    ensures exists l :: l in times && times[l] == m
    ensures forall l :: l in times ==> m <= times[l]
    decreases times.Keys
  {
    var l :| l in times.Keys;
    var rest := times - {l};
    assert forall k :: k in times ==> k == l || k in rest;
    if rest.Keys == {} then times[l]
    else
      var m' := MinTime(rest);
      if times[l] <= m' then times[l] else m'
  }

  /** The flows before the first round: the demand unit on every link. */
  ghost function Initial(net: Network): (flows: map<Link, real>)
    ensures flows.Keys == net.parameters.Keys
  {
    map l | l in net.parameters :: Demand
  }

  /** One round of the all-or-nothing rule: every link whose travel time
      under the current flows equals the minimum gets the demand unit, every
      other link gets 0. */
  ghost function Round(net: Network, flows: map<Link, real>): (next: map<Link, real>)
    requires flows.Keys == net.parameters.Keys
    ensures next.Keys == flows.Keys
  {
    if flows.Keys == {} then flows
    else
      var t := Times(net, flows);
      var m := MinTime(t);
      map l | l in flows :: if t[l] == m then Demand else 0.0
  }

  /** The flows after k rounds. */
  ghost function FlowsAfter(net: Network, k: nat): (flows: map<Link, real>)
    ensures flows.Keys == net.parameters.Keys
    decreases k, 0
  {
    if k == 0 then Initial(net) else NextFlows(net, k - 1)
  }

  /** The flows that round k (counted from 0) leaves behind. */
  ghost function NextFlows(net: Network, k: nat): (flows: map<Link, real>)
    ensures flows.Keys == net.parameters.Keys
    decreases k, 1
  {
    Round(net, FlowsAfter(net, k))
  }

  /** The travel times computed in round k (counted from 0). */
  ghost function TimesIn(net: Network, k: nat): (t: map<Link, real>)
    ensures t.Keys == net.parameters.Keys
  {
    Times(net, FlowsAfter(net, k))
  }

  /** The travel times of link `l` recorded over the first k rounds. */
  ghost function Trace(net: Network, l: Link, k: nat): (trace: seq<real>)
    requires l in net.parameters
    ensures |trace| == k
  {
    seq(k, j requires 0 <= j < k => TimesIn(net, j)[l])
  }

  /** The history map after k rounds: empty before the first round, one
      trace per configured link afterwards. */
  ghost function HistoryAfter(net: Network, k: nat): map<Link, seq<real>> {
    if k == 0 then map[] else map l | l in net.parameters :: Trace(net, l, k)
  }

  /** The convergence test: every link's distance from the demand unit is
      below the tolerance (the largest distance is below it). */
  ghost predicate Converged(flows: map<Link, real>, tolerance: real) {
    forall l :: l in flows ==> Abs(flows[l] - Demand) < tolerance
  }

  /** The test on the largest deviation: a deviation attained by some link
      and no smaller than any link's is below the tolerance exactly when
      the flows pass the convergence test. */
  lemma LargestDeviationTest(flows: map<Link, real>, d: real, tolerance: real)
    requires exists l :: l in flows && d == Abs(flows[l] - Demand)
    requires forall l :: l in flows ==> Abs(flows[l] - Demand) <= d
    ensures d < tolerance <==> Converged(flows, tolerance)
  {
    var w :| w in flows && d == Abs(flows[w] - Demand);
  }

  /** Whether the flows after k rounds pass the convergence test. */
  ghost predicate ConvergedAfter(net: Network, k: nat, tolerance: real) {
    Converged(FlowsAfter(net, k), tolerance)
  }

  /** The first round from k on after which the loop stops: a converged
      round, or the last allowed one. */
  ghost function FirstStop(net: Network, k: nat, maxIterations: nat, tolerance: real): (n: nat)
    requires 1 <= k <= maxIterations
    ensures k <= n <= maxIterations
    ensures n == maxIterations || ConvergedAfter(net, n, tolerance)
    ensures forall j :: k <= j < n ==> !ConvergedAfter(net, j, tolerance)
    decreases maxIterations - k
  {
    if k == maxIterations || ConvergedAfter(net, k, tolerance) then k
    else FirstStop(net, k + 1, maxIterations, tolerance)
  }

  /** The number of rounds the solver runs. */
  ghost function RoundsRun(net: Network, maxIterations: int, tolerance: real): (n: nat)
    ensures maxIterations <= 0 ==> n == 0
    ensures maxIterations > 0 ==> 1 <= n <= maxIterations
    ensures maxIterations > 0 ==> n == maxIterations || ConvergedAfter(net, n, tolerance)
    ensures forall j :: 1 <= j < n ==> !ConvergedAfter(net, j, tolerance)
  {
    if maxIterations <= 0 then 0 else FirstStop(net, 1, maxIterations, tolerance)
  }

  // ---------------------------------------------------------------------
  // Properties of the specification
  // ---------------------------------------------------------------------

  /** A link is fastest exactly when its time equals the minimum time. */
  lemma FastestIffMinimum(times: map<Link, real>, l: Link)
    requires l in times
    ensures IsFastest(times, l) <==> times[l] == MinTime(times)
  {
    var m := MinTime(times);
    if IsFastest(times, l) {
      var w :| w in times && times[w] == m;
      assert times[l] <= times[w];
    }
  }

  /** After every round each link holds exactly 0 or exactly the demand unit. */
  lemma AllOrNothing(net: Network, k: nat, l: Link)
    requires l in net.parameters
    ensures FlowsAfter(net, k)[l] == 0.0 || FlowsAfter(net, k)[l] == Demand
  {
  }

  /** After a round, a link holds the demand unit if and only if its travel
      time in that round equals the round's minimum (ties included). */
  lemma WinnersAreMinimal(net: Network, k: nat, l: Link)
    requires l in net.parameters
    ensures FlowsAfter(net, k + 1)[l] == Demand <==> TimesIn(net, k)[l] == MinTime(TimesIn(net, k))
    ensures FlowsAfter(net, k + 1)[l] == 0.0 <==> TimesIn(net, k)[l] != MinTime(TimesIn(net, k))
    ensures FlowsAfter(net, k + 1)[l] == Demand <==> IsFastest(TimesIn(net, k), l)
  {
    FastestIffMinimum(TimesIn(net, k), l);
  }

  /** With at least one link, some link holds the demand unit after every round. */
  lemma SomeLinkWins(net: Network, k: nat)
    requires net.parameters.Keys != {}
    ensures exists l :: l in net.parameters && FlowsAfter(net, k + 1)[l] == Demand
  {
    var t := TimesIn(net, k);
    var w :| w in t && t[w] == MinTime(t);
    WinnersAreMinimal(net, k, w);
  }

  /** Every trace has one entry per round, and entry j is the travel time of
      the link under its flow at the start of round j. */
  lemma TraceEntry(net: Network, l: Link, k: nat, j: nat)
    requires l in net.parameters && j < k
    ensures |Trace(net, l, k)| == k
    ensures TravelTime(net, l, FlowsAfter(net, j)[l]) == Ok(Trace(net, l, k)[j])
  {
    var f := FlowsAfter(net, j);
    assert Trace(net, l, k)[j] == Times(net, f)[l];
  }

  /** The first recorded time of a link is its travel time under the demand unit. */
  lemma TraceStart(net: Network, l: Link, k: nat)
    requires l in net.parameters && k >= 1
    ensures Trace(net, l, k)[0] == net.parameters[l].alpha + net.parameters[l].beta * Demand
  {
    TraceEntry(net, l, k, 0);
  }

  /** One round appends exactly one time to a trace. */
  lemma TraceStep(net: Network, l: Link, k: nat)
    requires l in net.parameters
    ensures Trace(net, l, k + 1) == Trace(net, l, k) + [TimesIn(net, k)[l]]
  {
    var a, b := Trace(net, l, k + 1), Trace(net, l, k) + [TimesIn(net, k)[l]];
    assert |a| == |b|;
    forall i | 0 <= i < k + 1
      ensures a[i] == b[i]
    {
      if i < k {
        assert b[i] == Trace(net, l, k)[i];
      }
    }
  }

  /** One round appends the round's time to every link's history, creating
      the entry on the first round. */
  lemma HistoryStep(net: Network, k: nat)
    ensures HistoryAfter(net, k + 1).Keys == net.parameters.Keys
    ensures forall l :: l in net.parameters ==>
              HistoryAfter(net, k + 1)[l]
              == (if l in HistoryAfter(net, k) then HistoryAfter(net, k)[l] else []) + [TimesIn(net, k)[l]]
  {
    forall l | l in net.parameters
      ensures HistoryAfter(net, k + 1)[l]
              == (if l in HistoryAfter(net, k) then HistoryAfter(net, k)[l] else []) + [TimesIn(net, k)[l]]
    {
      TraceStep(net, l, k);
    }
  }

  /** Each round applies the all-or-nothing rule to the previous round's flows. */
  lemma FlowsStep(net: Network, k: nat)
    ensures FlowsAfter(net, k + 1) == Round(net, FlowsAfter(net, k))
  {
  }

  /** A flow map that gives the demand unit exactly to the links whose time
      equals the minimum is the next round's flow map. */
  lemma RoundFromMinimum(net: Network, flows: map<Link, real>, next: map<Link, real>)
    requires flows.Keys == net.parameters.Keys && flows.Keys != {}
    requires next.Keys == flows.Keys
    requires forall l :: l in next ==>
               next[l] == if Times(net, flows)[l] == MinTime(Times(net, flows)) then Demand else 0.0
    ensures next == Round(net, flows)
  {
  }

  /** A history extended with this round's times is the next round's history. */
  lemma HistoryFromRecord(net: Network, k: nat, recorded: map<Link, seq<real>>)
    requires recorded.Keys == HistoryAfter(net, k).Keys + TimesIn(net, k).Keys
    requires forall l :: l in TimesIn(net, k) ==>
               recorded[l] == (if l in HistoryAfter(net, k) then HistoryAfter(net, k)[l] else []) + [TimesIn(net, k)[l]]
    ensures recorded == HistoryAfter(net, k + 1)
  {
    HistoryStep(net, k);
  }

  /** Traces are only appended to: an earlier trace is a prefix of a later one. */
  lemma TraceAppendOnly(net: Network, l: Link, j: nat, k: nat)
    requires l in net.parameters && j <= k
    ensures Trace(net, l, j) == Trace(net, l, k)[..j]
  {
  }

  /** The history has no keys before the first round and exactly the
      configured links afterwards, each with one time per round. */
  lemma HistoryShape(net: Network, k: nat)
    ensures k == 0 ==> HistoryAfter(net, k) == map[]
    ensures k >= 1 ==> HistoryAfter(net, k).Keys == net.parameters.Keys
    ensures forall l :: l in HistoryAfter(net, k) ==> |HistoryAfter(net, k)[l]| == k
  {
  }

  /** With a tolerance above the demand unit every flow map passes the test. */
  lemma {:induction false} LargeToleranceConverges(net: Network, k: nat, tolerance: real)
    requires tolerance > Demand
    ensures ConvergedAfter(net, k, tolerance)
  {
    forall l | l in FlowsAfter(net, k)
      ensures Abs(FlowsAfter(net, k)[l] - Demand) < tolerance
    {
      AllOrNothing(net, k, l);
    }
  }

  /** With a tolerance above the demand unit the loop stops after one round. */
  lemma LargeToleranceStopsAfterOne(net: Network, maxIterations: int, tolerance: real)
    requires tolerance > Demand && maxIterations >= 1
    ensures RoundsRun(net, maxIterations, tolerance) == 1
  {
    LargeToleranceConverges(net, 1, tolerance);
  }

  /** With a non-positive tolerance and some link, the loop never stops early. */
  lemma NonPositiveToleranceRunsAll(net: Network, maxIterations: int, tolerance: real)
    requires tolerance <= 0.0 && net.parameters.Keys != {}
    ensures RoundsRun(net, maxIterations, tolerance) == if maxIterations <= 0 then 0 else maxIterations
  {
  }

  /** For a tolerance in (0, Demand], a round passes the convergence test
      exactly when every link was tied at the minimum time of that round. */
  lemma ConvergedIffAllTied(net: Network, k: nat, tolerance: real)
    requires 0.0 < tolerance <= Demand
    ensures ConvergedAfter(net, k + 1, tolerance)
            <==> forall l :: l in net.parameters ==> TimesIn(net, k)[l] == MinTime(TimesIn(net, k))
  {
    forall l | l in net.parameters
      ensures FlowsAfter(net, k + 1)[l] == Demand <==> TimesIn(net, k)[l] == MinTime(TimesIn(net, k))
      ensures FlowsAfter(net, k + 1)[l] == 0.0 <==> TimesIn(net, k)[l] != MinTime(TimesIn(net, k))
    {
      WinnersAreMinimal(net, k, l);
    }
  }

  /** The loop runs at most `maxIterations` rounds, and none when that bound
      is not positive; it stops at the first round that passes the test. */
  lemma RoundsBound(net: Network, maxIterations: int, tolerance: real)
    ensures RoundsRun(net, maxIterations, tolerance) <= if maxIterations <= 0 then 0 else maxIterations
    ensures RoundsRun(net, maxIterations, tolerance) == 0 <==> maxIterations <= 0
  {
  }

  /** Any n meeting the stopping description is the number of rounds run. */
  lemma {:induction false} RoundsRunUnique(net: Network, maxIterations: int, tolerance: real, n: nat)
    requires 1 <= n <= maxIterations
    requires n == maxIterations || ConvergedAfter(net, n, tolerance)
    requires forall j :: 1 <= j < n ==> !ConvergedAfter(net, j, tolerance)
    ensures RoundsRun(net, maxIterations, tolerance) == n
  {
  }
}
