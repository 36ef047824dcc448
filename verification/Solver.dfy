/** The constraint system and the objective handed to the search, over its decision variables. */
module Solver {
  import opened Model
  import opened Packing
  import opened Plans

  /** x and e hold the true booleans; the rest are the integer variables. */
  datatype Solution = Solution(x: Grid, e: Grid, first: seq<int>, last: seq<int>, overrun: seq<int>,
                               excess: map<Cell, int>, window: map<string, int>)

  /** The supply the constraints use: the last matching override, else the nominal supply. */
  function SolverSupply(inst: Instance, ov: seq<SupplyOverride>, l: nat, w: int): int
    requires l < |inst.locations|
  {
    if ov == [] then inst.locations[l].supply
    else
      var o := ov[|ov| - 1];
      if o.location == l && o.week == w then o.supply
      else SolverSupply(inst, ov[..|ov| - 1], l, w)
  }

  ghost predicate ValidOverrides(inst: Instance, ov: seq<SupplyOverride>) {
    forall i :: 0 <= i < |ov| ==>
      ov[i].location < |inst.locations| && 1 <= ov[i].week <= inst.weeks && 0 <= ov[i].supply
  }

  ghost predicate Taken(sol: Solution, a: nat, w: int) {
    (a, w) in sol.x
  }

  // --- rules 1 to 3 ------------------------------------------------------------------

  ghost predicate NightVariables(inst: Instance, scen: Scenario, sol: Solution)
    requires Wellformed(inst)
  {
    && InHorizon(inst, sol.x) && InHorizon(inst, sol.e)
    && (forall p :: p in sol.x ==> p.0 < |inst.activities| && inst.activities[p.0].earliest <= p.1)
    && (if scen == A then sol.e == {} else sol.e <= sol.x)
  }

  function Need(inst: Instance, a: nat): nat
    requires a < |inst.activities|
  {
    inst.activities[a].total * STD_YIELD
  }

  ghost function NightYield(x: Grid, e: Grid, a: nat): nat {
    STD_YIELD * |Row(x, a)| + 5 * |Row(e, a)|
  }

  ghost predicate Workload(inst: Instance, x: Grid, e: Grid) {
    forall a: nat :: a < |inst.activities| ==>
      Need(inst, a) <= NightYield(x, e, a) <= Need(inst, a) + STD_YIELD - 1
  }

  /** last is the maximum of w * x[a][w], first the minimum of w where taken and weeks + 1 where not. */
  ghost predicate FirstAndLast(inst: Instance, sol: Solution) {
    && |sol.first| == |inst.activities| && |sol.last| == |inst.activities|
    && forall a: nat :: a < |inst.activities| ==>
         IsLast(inst.weeks, sol, a, sol.last[a]) && IsFirst(inst.weeks, sol, a, sol.first[a])
  }

  ghost predicate IsLast(h: nat, sol: Solution, a: nat, v: int) {
    && (forall w :: 1 <= w <= h ==> (if Taken(sol, a, w) then w else 0) <= v)
    && (exists w :: 1 <= w <= h && v == if Taken(sol, a, w) then w else 0)
  }

  ghost predicate IsFirst(h: nat, sol: Solution, a: nat, v: int) {
    && (forall w :: 1 <= w <= h ==> v <= if Taken(sol, a, w) then w else h + 1)
    && (exists w :: 1 <= w <= h && v == if Taken(sol, a, w) then w else h + 1)
  }

  ghost predicate Precedence(inst: Instance, sol: Solution)
    requires Wellformed(inst) && FirstAndLast(inst, sol)
  {
    forall a: nat :: a < |inst.activities| && inst.activities[a].predecessor.Some? ==>
      sol.first[a] >= sol.last[inst.activities[a].predecessor.value] + 1
  }

  // --- rules 5, 7 and 8 -----------------------------------------------------------------

  ghost predicate WeeklyAllocation(inst: Instance, x: Grid) {
    forall c: nat, w :: c < |inst.contracts| && 1 <= w <= inst.weeks ==>
      |Bucket(inst, x, c, w)| <= inst.contracts[c].maxPerWeek * inst.contracts[c].workfronts
  }

  ghost function UsersOf(inst: Instance, l: nat): set<nat> {
    set a | 0 <= a < |inst.activities| && l in inst.activities[a].occupied
  }

  /** The location-weeks that carry a capacity row. */
  ghost predicate CapacityCell(inst: Instance, k: Cell) {
    k.0 < |inst.locations| && UsersOf(inst, k.0) != {} && 1 <= k.1 <= inst.weeks
  }

  /** The policy bound on excess: none under A, one under C, one per user of the location under B. */
  ghost function MaxExcess(inst: Instance, scen: Scenario, l: nat): nat {
    match scen case A => 0 case C => 1 case B => |UsersOf(inst, l)|
  }

  ghost predicate Fits(inst: Instance, s: set<nat>, slots: int)
    requires Members(inst, s)
  {
    && |OfType(inst, s, PM)| + |OfType(inst, s, PC)| <= slots
    && |OfType(inst, s, CO)| + 4 * |OfType(inst, s, PM)| + |OfType(inst, s, PC)| <= 4 * slots
  }

  /** The two inequalities say exactly that the packer needs no more slots. */
  lemma FitsIsNeeded(inst: Instance, s: set<nat>, n: int)
    requires Members(inst, s)
    ensures Fits(inst, s, n) <==> Needed(inst, s) <= n
  {
    SlotsExact(|OfType(inst, s, PM)|, |OfType(inst, s, PC)|, |OfType(inst, s, CO)|, n);
  }

  /** One capacity row with the value v of its excess variable. */
  ghost predicate CapacityRow(inst: Instance, scen: Scenario, ov: seq<SupplyOverride>, x: Grid, v: int, k: Cell)
    requires Wellformed(inst) && k.0 < |inst.locations|
  {
    && 0 <= v <= MaxExcess(inst, scen, k.0)
    && Fits(inst, At(inst, x, k.0, k.1), SolverSupply(inst, ov, k.0, k.1) + v)
  }

  /** Under A there are no excess variables; under B and C there is one per row. */
  ghost predicate Capacity(inst: Instance, scen: Scenario, ov: seq<SupplyOverride>, x: Grid,
                           excess: map<Cell, int>)
    requires Wellformed(inst)
  {
    && (forall k :: k in excess <==> scen != A && CapacityCell(inst, k))
    && (forall k :: CapacityCell(inst, k) ==> CapacityRow(inst, scen, ov, x, ValueAt(excess, k), k))
  }

  // --- rules 4 and 10 ------------------------------------------------------------------------

  ghost predicate Exclusivity(inst: Instance, x: Grid) {
    forall p, w :: p in inst.exclusivePairs && 1 <= w <= inst.weeks ==> !((p.0, w) in x && (p.1, w) in x)
  }

  ghost predicate Windows(inst: Instance, scen: Scenario, sol: Solution) {
    scen == C ==>
      && (forall l :: 0 <= l < |inst.locations| ==>
            inst.locations[l].line in sol.window && 1 <= sol.window[inst.locations[l].line] <= inst.weeks)
      && forall a: nat, w, line :: (a, w) in sol.e && ClosesLine(inst, a, line) && line in sol.window ==>
            sol.window[line] <= w <= sol.window[line] + 1
  }

  // --- overrun and the objective ---------------------------------------------------------------

  /** The day, counted from the horizon start as day 1, on which a's contract is planned to complete. */
  function PlannedDay(inst: Instance, a: nat): int
    requires a < |inst.activities| && inst.activities[a].contract < |inst.contracts|
  {
    inst.contracts[inst.activities[a].contract].planned - inst.start + 1
  }

  ghost predicate Overruns(inst: Instance, scen: Scenario, sol: Solution)
    requires Wellformed(inst) && FirstAndLast(inst, sol)
  {
    && |sol.overrun| == |inst.activities|
    && forall a: nat :: a < |inst.activities| ==>
         && 0 <= sol.overrun[a] <= Max0(7 * inst.weeks - PlannedDay(inst, a))
         && sol.overrun[a] >= 7 * sol.last[a] - PlannedDay(inst, a)
         && (scen == B ==> 7 * sol.last[a] <= PlannedDay(inst, a))
  }

  ghost predicate Satisfies(inst: Instance, scen: Scenario, ov: seq<SupplyOverride>, sol: Solution)
    requires Wellformed(inst)
  {
    && NightVariables(inst, scen, sol)
    && Workload(inst, sol.x, sol.e)
    && FirstAndLast(inst, sol) && Precedence(inst, sol)
    && WeeklyAllocation(inst, sol.x)
    && Capacity(inst, scen, ov, sol.x, sol.excess)
    && Exclusivity(inst, sol.x)
    && Windows(inst, scen, sol)
    && Overruns(inst, scen, sol)
  }

  /** The objective in numbers: tenths for each day by its pair of priorities, 70 an excess night, 50 an ECLO night. */
  lemma ObjectiveSpelled(inst: Instance, scen: Scenario, sol: Solution)
    requires KnownContracts(inst) && Graded(inst) && |sol.overrun| == |inst.activities|
    ensures var late := TenthsOfDays(inst, sol.overrun, |inst.activities|);
      var excess := GridSum(sol.excess, |inst.locations|, inst.weeks);
      Objective(inst, scen, sol) == match scen
        case A => late
        case B => 70 * excess + 50 * |sol.e|
        case C => late + 70 * excess + 50 * |sol.e|
  {
    WeightsSpelled(inst, sol.overrun, |inst.activities|);
  }

  ghost function Objective(inst: Instance, scen: Scenario, sol: Solution): int
    requires KnownContracts(inst) && |sol.overrun| == |inst.activities|
  {
    Combined(scen, WeightedSum(inst, sol.overrun, |inst.activities|),
             GridSum(sol.excess, |inst.locations|, inst.weeks), |sol.e|)
  }
}
