/** The independent checker: every rule in turn, pushing tagged violations. */
module Validator {
  import opened Model
  import opened Plans
  import opened Checker
  import opened Scoring
  import opened Violations
  import opened Rules
  import opened AccessChecks
  import opened OccupancyChecks
  import opened ResultChecks
  import opened SlotChecks
  import opened NightChecks
  import opened PolicyChecks

  lemma LoadedRanges(inst: Instance, plan: Plan)
    requires Wellformed(inst) && Loaded(inst, plan)
    ensures AccessesInRange(inst, plan.accesses) && KnownContracts(inst)
    ensures forall k :: k in plan.slots ==> 1 <= k.1 <= inst.weeks
  {
  }

  method CheckTables(inst: Instance, plan: Plan) returns (vs: seq<Violation>)
    requires Wellformed(inst) && KnownContracts(inst) && AccessesInRange(inst, plan.accesses)
    ensures forall v :: v in vs <==> TableRuleBroken(inst, plan, v)
    ensures vs == [] <==>
      && Distinct(plan.accesses) && WorkloadOk(inst, plan.accesses) && PlannedStartOk(inst, plan.accesses)
      && PrecedenceOk(inst, plan.accesses) && SequenceOk(inst, plan.accesses)
      && OccupancyOk(inst, plan.accesses, plan.slots) && ResultsOk(inst, plan)
  {
    var v1, perWeek := CheckAccesses(inst, plan.accesses);
    var v2 := CheckOccupancy(inst, plan.accesses, perWeek, plan.slots);
    var v3 := CheckResults(inst, plan);
    vs := v1 + v2 + v3;
  }

  method CheckLimits(inst: Instance, plan: Plan) returns (vs: seq<Violation>)
    requires Wellformed(inst) && Loaded(inst, plan)
    ensures forall v :: v in vs <==> LimitRuleBroken(inst, plan, v)
    ensures vs == [] <==>
      && CapacityOk(inst, plan) && MixOk(inst, plan) && AllocationOk(inst, plan.accesses)
      && WorkfrontsOk(inst, plan.accesses) && ClosureOk(inst, plan.slots)
      && EcloOk(inst, plan) && PlannedDatesOk(inst, plan)
  {
    LoadedRanges(inst, plan);
    var v1 := CheckSlots(inst, plan);
    var v2 := CheckNights(inst, plan.accesses);
    var v3 := CheckClosures(inst, plan.slots);
    var v4 := CheckPolicy(inst, plan);
    vs := v1 + v2 + v3 + v4;
  }

  /** Every hard rule over the plan as read: the violations raised are exactly those that hold. */
  method Validate(inst: Instance, plan: Plan) returns (vs: seq<Violation>)
    requires Wellformed(inst) && Loaded(inst, plan)
    ensures forall v :: v in vs <==> Broken(inst, plan, v)
    ensures vs == [] <==> Accepts(inst, plan)
  {
    LoadedRanges(inst, plan);
    vs := CheckTables(inst, plan);
    var more := CheckLimits(inst, plan);
    vs := vs + more;
  }
}
