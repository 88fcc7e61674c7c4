# User-equilibrium flow solver, modelled in Dafny

This project models the equilibrium engine of `UE_solution.py`, a small
urban-economics script. The engine has two parts.

- **The link cost model.** A `TransportationNetwork` stores, for every
  link, the affine cost parameters `(alpha, beta)`. The travel time of a
  link under a flow is `alpha + beta * flow`. Asking for a link that is not
  configured is an error.
- **The solver** `find_equilibrium_flow`. It runs a bounded all-or-nothing
  best-response loop. Every link starts with the demand unit 10. Each
  round the solver:
  - computes every link's travel time under the current flows;
  - appends that time to the link's history list;
  - gives 10 to every link whose time equals the round's minimum (ties
    included) and 0 to every other link.

  It stops after `max_iterations` rounds, or earlier, right after the first
  round in which every link's flow is within `tolerance` of 10.

The project has four modules.

- `TransportNetwork` (`transport_network.dfy`) holds links, cost
  parameters, the network, the error type and `TravelTime`.
- `EquilibriumSpec` (`equilibrium_spec.dfy`) is the round-by-round
  specification of the solver. `FlowsAfter(net, k)` and
  `HistoryAfter(net, k)` give the flows and the history after `k` rounds.
  `RoundsRun` gives the number of rounds the loop runs. The module also
  holds the lemmas about these functions.
- `EquilibriumSolver` (`equilibrium_solver.dfy`) is the imperative solver.
  `FindEquilibriumFlow` is a `while` loop over a flow map and a history
  map. Its helper loops append the times, find the minimum, reassign the
  demand and compute the largest deviation. Each method is proved against
  the specification functions.
- `Scenarios` (`scenarios.dfy`) holds concrete runs. With a positive
  tolerance, a single link converges after one round. Two links `A (0, 1)`
  and `B (5, 1)` alternate for ever: `A` wins the odd rounds and `B` the
  even ones, so with a tolerance of at most 10 and `max_iterations >= 1`
  the loop runs `max_iterations` rounds.

The solver's failure mode is modelled as a value. With no links and at
least one round to run, Python's `min` of an empty collection raises. The
model returns `Err(EmptyMinimum)` in that case. `TravelTime` returns
`Err(InvalidLink(link))` for an unknown link.

On the two-link network `B` takes the demand in round 2, because its time
5 is then below `A`'s time 10; from then on the two links alternate
(`Scenarios.TwoLinksAlternate`).

## Model

| member | source | states |
|---|---|---|
| TransportNetwork.TravelTime | UE_solution.py:12-16 | succeeds exactly for configured links, with value alpha + beta * flow from that link's parameters; otherwise fails with InvalidLink naming the link |
| TransportNetwork.UnknownLinkFails | UE_solution.py:13-14 | an unknown link fails with the same InvalidLink error whatever the flow |
| TransportNetwork.TravelTimeSlope | UE_solution.py:15-16 | for any beta and any two flows, the travel time changes by beta times the change in flow |
| TransportNetwork.TravelTimeMonotone | UE_solution.py:15-16 | when beta >= 0 the travel time is non-decreasing in the flow |
| EquilibriumSpec.Times | UE_solution.py:26 | one travel time per link of the flow map |
| EquilibriumSpec.MinTime | UE_solution.py:36 | the minimum of a non-empty time map is attained by some link and is no larger than any link's time |
| EquilibriumSpec.Initial | UE_solution.py:20 | the starting flow map has exactly the configured links as keys |
| EquilibriumSpec.Round | UE_solution.py:39-43 | a round keeps the key set of the flow map |
| EquilibriumSpec.FlowsAfter | UE_solution.py:39-43 | after every number of rounds the flow map's keys are exactly the configured links |
| EquilibriumSpec.NextFlows | UE_solution.py:39-43 | the flows a round leaves behind have exactly the configured links as keys |
| EquilibriumSpec.TimesIn | UE_solution.py:26 | each round computes a time for exactly the configured links |
| EquilibriumSpec.Trace | UE_solution.py:29-33 | a link's recorded times over k rounds form a list of exactly k entries (what entry j holds is stated by TraceEntry) |
| EquilibriumSpec.HistoryAfter | UE_solution.py:22-33 | the history dict after k rounds: one list of recorded times per link (defined, no separate contract; its shape is stated by HistoryShape) |
| EquilibriumSpec.Converged | UE_solution.py:46 | the convergence test as a predicate: every link's flow is within the tolerance of 10 (defined, no separate contract) |
| EquilibriumSpec.ConvergedAfter | UE_solution.py:46 | the convergence test applied to the flows after k rounds (defined, no separate contract) |
| EquilibriumSpec.LargestDeviationTest | UE_solution.py:46 | the source's test "largest distance from 10 is below the tolerance" holds exactly when every link's distance is below it |
| EquilibriumSpec.FirstStop | UE_solution.py:46-47 | the first round from k on that converges, or the last allowed round; no earlier round in between converges |
| EquilibriumSpec.RoundsRun | UE_solution.py:24-47 | no round when max_iterations <= 0; otherwise between 1 and max_iterations rounds, ending at the first converged round or at the bound, with no earlier round converged |
| EquilibriumSpec.FastestIffMinimum | UE_solution.py:36-40 | a link is no slower than every other link exactly when its time equals the minimum |
| EquilibriumSpec.AllOrNothing | UE_solution.py:39-43 | after any number of rounds every link's flow is exactly 0 or exactly 10 |
| EquilibriumSpec.WinnersAreMinimal | UE_solution.py:36-43 | after a round a link holds 10 if and only if its time that round equals the minimum (ties included), and holds 0 if and only if it does not |
| EquilibriumSpec.SomeLinkWins | UE_solution.py:36-43 | with at least one link, some link holds 10 after every round |
| EquilibriumSpec.TraceEntry | UE_solution.py:26-33 | a link's history after k rounds has k entries, and entry j is the travel time of that link under its flow at the start of round j |
| EquilibriumSpec.TraceStart | UE_solution.py:20-33 | the first history entry of a link is alpha + beta * 10 |
| EquilibriumSpec.TraceStep | UE_solution.py:29-33 | a round appends exactly that round's time to a link's history |
| EquilibriumSpec.HistoryStep | UE_solution.py:29-33 | after a round the history has exactly the configured links, each list extended by one time, created on the first round |
| EquilibriumSpec.FlowsStep | UE_solution.py:39-43 | the flows after k + 1 rounds are one round of the rule applied to the flows after k rounds |
| EquilibriumSpec.RoundFromMinimum | UE_solution.py:36-43 | any flow map giving 10 exactly to the links at the minimum time and 0 to the others is the next round's flow map |
| EquilibriumSpec.HistoryFromRecord | UE_solution.py:29-33 | a history extended by this round's times, creating missing lists, is the next round's history |
| EquilibriumSpec.TraceAppendOnly | UE_solution.py:29-33 | earlier histories are prefixes of later ones: entries are only appended, never changed |
| EquilibriumSpec.HistoryShape | UE_solution.py:22-33 | the history is empty before the first round, then has exactly the configured links, each with one entry per round |
| EquilibriumSpec.LargeToleranceConverges | UE_solution.py:46-47 | with tolerance above 10 every flow map passes the convergence test |
| EquilibriumSpec.LargeToleranceStopsAfterOne | UE_solution.py:46-47 | with tolerance above 10 and max_iterations >= 1 the loop stops after round 1 |
| EquilibriumSpec.NonPositiveToleranceRunsAll | UE_solution.py:46-47 | with tolerance <= 0 and some link the loop never stops early: it runs max_iterations rounds, or none if that is not positive |
| EquilibriumSpec.ConvergedIffAllTied | UE_solution.py:36-47 | for 0 < tolerance <= 10 a round passes the test exactly when every link was tied at the minimum time |
| EquilibriumSpec.RoundsBound | UE_solution.py:24 | at most max_iterations rounds run, and none exactly when max_iterations <= 0 |
| EquilibriumSpec.RoundsRunUnique | UE_solution.py:24-47 | any round count that ends at a converged round or at the bound, with no converged round before it, is the number of rounds run |
| EquilibriumSolver.RecordTimes | UE_solution.py:29-33 | appends each link's time to its list, creating the list for a new link, and leaves every other list unchanged |
| EquilibriumSolver.MinimumTime | UE_solution.py:36 | returns a time attained by some link and no larger than any link's time, equal to MinTime |
| EquilibriumSolver.AssignDemand | UE_solution.py:39-43 | keeps the key set and gives 10 exactly to the links whose time equals the minimum, 0 to the others |
| EquilibriumSolver.MaxDeviation | UE_solution.py:46 | returns a deviation attained by some link and no smaller than any link's distance from 10 |
| EquilibriumSolver.RunRound | UE_solution.py:26-43 | turns the flows and history after k rounds into those after k + 1 rounds |
| EquilibriumSolver.Iterate | UE_solution.py:26-47 | one loop pass: the flows and history after k + 1 rounds, and whether those flows pass the convergence test |
| EquilibriumSolver.FindEquilibriumFlow | UE_solution.py:18-49 | fails with EmptyMinimum exactly when there are no links and at least one round to run; otherwise returns the flows and history after RoundsRun rounds, with the configured links as flow keys, and the all-10 flows with an empty history when max_iterations <= 0 |
| Scenarios.OneLinkKeepsDemand | UE_solution.py:36-43 | a single link keeps flow 10 after every round |
| Scenarios.OneLinkStopsAfterOne | UE_solution.py:46-47 | with a single link, a positive tolerance and max_iterations >= 1 the loop stops after round 1 with flow 10 |
| Scenarios.TwoLinkRound | UE_solution.py:36-43 | on links A (0, 1) and B (5, 1) a round gives 10 to the faster link, to both on a tie |
| Scenarios.TwoLinksFirstRounds | UE_solution.py:20-43 | from the all-10 start, A wins round 1 and B wins round 2 |
| Scenarios.PeriodTwo | UE_solution.py:39-43 | once round 3 repeats round 1, every later round repeats the round two before it |
| Scenarios.Alternates | UE_solution.py:39-43 | once round 3 repeats round 1, odd rounds have round 1's flows and even rounds round 2's |
| Scenarios.TwoLinksAlternate | UE_solution.py:39-43 | on the two-link network A holds 10 after every odd round and B after every even one |
| Scenarios.TwoLinksRunAll | UE_solution.py:24-47 | with tolerance at most 10 and max_iterations >= 1 the two-link run never converges and runs max_iterations rounds |

## Left out

- The driver script is not modelled (UE_solution.py:56-81): parameter literals, network construction and console output.
- The plotting is not modelled (UE_solution.py:84-107): it is a foreign library and UI output.
- The module-level `travel_time` (UE_solution.py:50-54) is not modelled: it is never called and behaves like the method.
- The `iterations` list (UE_solution.py:21, 44) is not modelled: it is never read or returned.
- Floating-point rounding is not modelled: costs, flows and times are mathematical reals, so the tie test at UE_solution.py:40 compares exact values.
- Python's distinction between the integer 10 and floats is not modelled: every value is a real.
- Dictionary insertion order is not modelled. The loops visit links in an unspecified order. No computed flow or time depends on it, but the key order of the returned dictionaries is not captured.
- The network is a value, not an object: the constructor only stores the parameter map and nothing ever changes it.
- Exceptions are modelled as `Err` values. The text of the `ValueError` message is not modelled.
- EquilibriumSolver.FindEquilibriumFlow: when there are no links, the error is returned before the (empty) history update of the failing round. That update changes nothing observable, because the exception discards it.
- EquilibriumSolver.MaxDeviation: requires at least one link. The source's `max` would also raise on no links, but that point is never reached, because `min` raises first.
