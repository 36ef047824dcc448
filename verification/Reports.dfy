/** The score a solve reports, taken before any disruption is recorded in the plan, and what it leaves out. */
module Reports {
  import opened Counting
  import opened Model
  import opened Plans
  import opened Solver
  import opened Supplies
  import opened Soundness
  import opened Completeness
  import opened Optimum
  import opened Schedule
  import opened Scoring
  import opened Pipeline

  ghost function ExcessSum(inst: Instance, scen: Scenario, ov: seq<SupplyOverride>, x: Grid): int
    requires Wellformed(inst)
  {
    GridSum(ExcessNeeded(inst, scen, ov, x), |inst.locations|, inst.weeks)
  }

  /** The score of the plan of (x, e) against nominal supply. */
  ghost function NominalScore(inst: Instance, scen: Scenario, x: Grid, e: Grid): int
    requires Wellformed(inst)
  {
    Combined(scen, WeightedSum(inst, OverrunDays(inst, x), |inst.activities|), ExcessSum(inst, scen, [], x), |e|)
  }

  lemma NominalIsScore(inst: Instance, scen: Scenario, x: Grid, e: Grid, plan: Plan)
    requires Wellformed(inst) && Named(inst) && InHorizon(inst, x)
    requires plan.scenario == scen && plan.overrides == [] && LoadedSlots(inst, plan)
    requires Distinct(plan.accesses) && XOf(plan.accesses) == x && EOf(plan.accesses) == e
    requires SlotsOf(inst, x, plan.slots, plan.slotsUsed)
    ensures ScoreTenths(inst, plan) == NominalScore(inst, scen, x, e)
  {
    ConsistentAgree(inst, []);
    assert Provenance(inst, []) == [];
    ScoredOverGrid(inst, plan);
    if scen != A { ScoredExcessSum(inst, scen, [], x, plan); }
    EcloCountOfSet(plan.accesses);
  }

  /** What the cost of a plan holds beyond its reported score. */
  ghost function Unreported(inst: Instance, scen: Scenario, ov: seq<SupplyOverride>, x: Grid): int
    requires Wellformed(inst)
  {
    EmptyCharge(inst, scen)
    + Combined(scen, 0, ExcessSum(inst, scen, ov, x), 0) - Combined(scen, 0, ExcessSum(inst, scen, [], x), 0)
  }

  /** The cost of the plan of (x, e): the least objective of its nights. */
  ghost function PlanCost(inst: Instance, scen: Scenario, ov: seq<SupplyOverride>, x: Grid, e: Grid): int
    requires Wellformed(inst)
  {
    Objective(inst, scen, Cheapest(inst, scen, ov, x, e))
  }

  lemma CostSplits(inst: Instance, scen: Scenario, ov: seq<SupplyOverride>, sol: Solution)
    requires Wellformed(inst) && Satisfies(inst, scen, ov, sol)
    ensures PlanCost(inst, scen, ov, sol.x, sol.e)
         == NominalScore(inst, scen, sol.x, sol.e) + Unreported(inst, scen, ov, sol.x)
    ensures PlanCost(inst, scen, ov, sol.x, sol.e) <= Objective(inst, scen, sol)
  {
    LeastOverrunSplits(inst, sol.x, sol.e);
    CheapestIsLeast(inst, scen, ov, sol);
  }

  /** Extracts, packs and scores a solution as Solve does, before any disruption is recorded in the plan. */
  method ReportedScore(inst: Instance, scen: Scenario, ghost ov: seq<SupplyOverride>, sol: Solution)
    returns (score: int)
    requires Wellformed(inst) && Named(inst) && Satisfies(inst, scen, ov, sol)
    ensures score == NominalScore(inst, scen, sol.x, sol.e)
  {
    var work := new WorkingPlan();
    work.Extract(inst, sol);
    ExtractionExact(inst, sol.x, sol.e);
    ghost var before := work.accesses;
    ExtractedReady(inst, sol.x, before);
    var ok := work.AssignAccessNights(inst);
    SameButNightsKeeps(before, work.accesses);
    work.ComputeOccupancy(inst);
    var plan := Plan(scen, work.accesses, work.slots, work.slotsUsed, [], []);
    PackedIsLoaded(inst, sol.x, plan.slots, plan.slotsUsed);
    RangesOf(inst, sol.x, plan.accesses);
    var r := ComputeScore(inst, plan);
    NominalIsScore(inst, scen, sol.x, sol.e, plan);
    score := r.objective;
  }

  lemma PackedIsLoaded(inst: Instance, x: Grid, slots: Slots, used: map<Cell, int>)
    requires Wellformed(inst) && InHorizon(inst, x) && SlotsOf(inst, x, slots, used)
    ensures used.Keys == slots.Keys
    ensures forall k :: k in slots ==>
              k.0 < |inst.locations| && 1 <= k.1 <= inst.weeks && slots[k] != map[]
              && forall a :: a in slots[k] ==> a < |inst.activities|
  {
    forall k | k in slots
      ensures k.0 < |inst.locations| && 1 <= k.1 <= inst.weeks && slots[k] != map[]
      ensures forall a :: a in slots[k] ==> a < |inst.activities|
    {
      CellsMember(inst, x, k.0, k.1);
      var a := Pick(At(inst, x, k.0, k.1));
      assert slots[k].Keys == At(inst, x, k.0, k.1) && (a, k.1) in x;
    }
  }

  /** Under B only excess and ECLO nights cost. */
  lemma CostUnderB(inst: Instance, ov: seq<SupplyOverride>, x: Grid, e: Grid)
    requires Wellformed(inst)
    ensures PlanCost(inst, B, ov, x, e) == 70 * ExcessSum(inst, B, ov, x) + 50 * |e|
    ensures NominalScore(inst, B, x, e) == 70 * ExcessSum(inst, B, [], x) + 50 * |e|
  {
  }
}
