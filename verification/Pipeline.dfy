/** From a solution to files on disk and back to a verdict. */
module Pipeline {
  import opened Model
  import opened Decimal
  import opened Packing
  import opened Plans
  import opened Solver
  import opened Supplies
  import opened Checker
  import opened Soundness
  import opened Completeness
  import opened Optimum
  import opened Schedule
  import opened Scoring
  import opened PlanTables
  import opened PlanLoad
  import opened PlanExport
  import opened PlanRoundTrip
  import opened PlanFiles
  import opened Violations
  import opened Validator

  lemma AssignedNightsInRange(inst: Instance, x: Grid, s: seq<Access>)
    requires Wellformed(inst) && InHorizon(inst, x) && WeeklyAllocation(inst, x) && NightsAssigned(inst, x, s)
    ensures forall a :: a in s ==> Writable(inst, a)
  {
    forall a | a in s ensures Writable(inst, a) {
      var i :| 0 <= i < |s| && s[i] == a;
      assert ValidActivity(inst, inst.activities[a.activity]);
      var c := inst.activities[a.activity].contract;
      BucketNightsLegal(inst, x, c, a.week);
      NightInAllowance(inst, x, s, c, a.week, a.night);
    }
  }

  lemma PackedLabelsInRange(inst: Instance, s: set<nat>, a: nat)
    requires Members(inst, s) && DistinctIds(inst) && |inst.activities| <= 500000 && a in s
    ensures 1 <= Packed(inst, s)[a] <= INT_MAX
  {
    PackedRange(inst, s, a);
    IndexCard(s, |inst.activities|);
    NeededAtMostAll(inst, s, |s|);
  }

  lemma SlotsAreLabelled(inst: Instance, x: Grid, slots: Slots, used: map<Cell, int>)
    requires Wellformed(inst) && InHorizon(inst, x) && SlotsOf(inst, x, slots, used)
    ensures NoneEmptyCell(slots) && AllLabelled(inst, slots)
  {
    forall k | k in slots ensures slots[k] != map[] {
      CellsMember(inst, x, k.0, k.1);
      assert slots[k].Keys == At(inst, x, k.0, k.1);
    }
    forall b | IsBooking(slots, b) ensures InRange(inst, b) && b.slot <= INT_MAX {
      var k := (b.location, b.week);
      CellsMember(inst, x, k.0, k.1);
      assert slots[k] == Packed(inst, At(inst, x, k.0, k.1));
      PackedLabelsInRange(inst, At(inst, x, k.0, k.1), b.activity);
    }
  }

  /** Takes a solution to its plan in memory and writes the tables. */
  method Publish(inst: Instance, scen: Scenario, ov: seq<SupplyOverride>, sol: Solution)
    returns (t: Tables, ghost s: seq<Access>, ghost slots: Slots, ghost bs: seq<PlanTables.Booking>)
    requires Wellformed(inst) && Satisfies(inst, scen, ov, sol)
    ensures TablesOf(inst, scen, s, slots, bs, t) && Tabular(inst, s, slots)
    ensures Distinct(s) && XOf(s) == sol.x && EOf(s) == sol.e && NightsAssigned(inst, sol.x, s)
    ensures exists used :: SlotsOf(inst, sol.x, slots, used)
  {
    var plan := new WorkingPlan();
    plan.Extract(inst, sol);
    ExtractionExact(inst, sol.x, sol.e);
    ghost var before := plan.accesses;
    ExtractedReady(inst, sol.x, before);
    var ok := plan.AssignAccessNights(inst);
    SameButNightsKeeps(before, plan.accesses);
    plan.ComputeOccupancy(inst);
    s, slots := plan.accesses, plan.slots;
    AssignedNightsInRange(inst, sol.x, s);
    SlotsAreLabelled(inst, sol.x, slots, plan.slotsUsed);
    RangesOf(inst, sol.x, s);
    t, bs := ExportPlan(inst, scen, plan.accesses, plan.slots);
  }

  lemma ExtractedReady(inst: Instance, x: Grid, s: seq<Access>)
    requires Wellformed(inst) && InHorizon(inst, x) && XOf(s) == x && Distinct(s)
    ensures Ready(inst, s)
  {
    forall i | 0 <= i < |s|
      ensures s[i].activity < |inst.activities| && inst.activities[s[i].activity].contract < |inst.contracts|
    {
      AccessIn(s, i);
      assert ValidActivity(inst, inst.activities[s[i].activity]);
    }
  }

  lemma RangesOf(inst: Instance, x: Grid, s: seq<Access>)
    requires Wellformed(inst) && InHorizon(inst, x) && XOf(s) == x
    ensures KnownContracts(inst) && AccessesInRange(inst, s)
  {
    forall i | 0 <= i < |s| ensures s[i].activity < |inst.activities| && 1 <= s[i].week <= inst.weeks {
      AccessIn(s, i);
    }
  }

  lemma LabelsCount(inst: Instance, s: set<nat>, m: map<nat, int>)
    requires Members(inst, s) && DistinctIds(inst) && m == Packed(inst, s)
    ensures |m.Values| == Needed(inst, s)
  {
    PackedValues(inst, s);
  }

  lemma LabelsAreNeeded(inst: Instance, x: Grid, slots: Slots, used: map<Cell, int>, counted: map<Cell, int>)
    requires Wellformed(inst) && InHorizon(inst, x) && SlotsOf(inst, x, slots, used)
    requires counted.Keys == slots.Keys && forall k :: k in slots && k in counted ==> counted[k] == |slots[k].Values|
    ensures SlotsOf(inst, x, slots, counted)
  {
    forall k | k in slots ensures counted[k] == used[k] {
      AtMembers(inst, x, k.0, k.1);
      LabelsCount(inst, At(inst, x, k.0, k.1), slots[k]);
    }
  }

  /** What is read back of a published solution is the plan of its activity-weeks. */
  lemma PublishedIsPlanOf(inst: Instance, scen: Scenario, ov: seq<(string, int, int)>, x: Grid, e: Grid, s: seq<Access>,
                          slots: Slots, bs: seq<PlanTables.Booking>, t: Tables, read: seq<PlanTables.Booking>,
                          plan: Plan)
    requires Wellformed(inst) && Named(inst) && Labelled(inst) && InHorizon(inst, x)
    requires TablesOf(inst, scen, s, slots, bs, t) && Tabular(inst, s, slots)
    requires Distinct(s) && XOf(s) == x && EOf(s) == e && NightsAssigned(inst, x, s)
    requires exists used :: SlotsOf(inst, x, slots, used)
    requires Readable(inst, t) && Reads(inst, t, ov, read, plan)
    ensures PlanOf(inst, scen, ov, x, e, plan)
  {
    ReadingIsWritten(inst, scen, s, slots, bs, t, ov, read, plan);
    ExportedAccesses(inst, x, e, s);
    var used :| SlotsOf(inst, x, slots, used);
    LabelsAreNeeded(inst, x, slots, used, plan.slotsUsed);
  }

  /** t holds the tables of a plan of the solution's activity-weeks. */
  ghost predicate Published(inst: Instance, scen: Scenario, sol: Solution, t: Tables)
    requires Wellformed(inst)
  {
    exists s, slots, bs :: TablesOf(inst, scen, s, slots, bs, t) && XOf(s) == sol.x && EOf(s) == sol.e
  }

  /** Checks and scores a plan read back from the files of a solution. */
  method CheckAndScore(inst: Instance, scen: Scenario, ghost ov: seq<SupplyOverride>, ghost sol: Solution, plan: Plan)
    returns (vs: seq<Violation>, objective: int)
    requires Valid(inst) && ValidOverrides(inst, ov) && Satisfies(inst, scen, ov, sol) && Loaded(inst, plan)
    requires PlanOf(inst, scen, Provenance(inst, ov), sol.x, sol.e, plan)
    ensures vs == [] <==> FitsRecorded(inst, scen, ov, sol.x)
    ensures scen == B || CheckerCovers(inst, ov) ==> vs == []
    ensures SuppliesAgree(inst, ov) && Optimal(inst, scen, ov, sol) ==>
      BestChecked(inst, scen, ov, plan) && objective + EmptyCharge(inst, scen) == Objective(inst, scen, sol)
  {
    VerdictKnown(inst, scen, ov, sol, plan);
    vs := Validate(inst, plan);
    LoadedRanges(inst, plan);
    var score := ComputeScore(inst, plan);
    objective := score.objective;
  }

  lemma BestKnown(inst: Instance, scen: Scenario, ov: seq<SupplyOverride>, sol: Solution, plan: Plan)
    requires Valid(inst) && ValidOverrides(inst, ov) && Satisfies(inst, scen, ov, sol) && Loaded(inst, plan)
    requires PlanOf(inst, scen, Provenance(inst, ov), sol.x, sol.e, plan)
    ensures SuppliesAgree(inst, ov) && Optimal(inst, scen, ov, sol) ==>
      BestChecked(inst, scen, ov, plan)
      && ScoreTenths(inst, plan) + EmptyCharge(inst, scen) == Objective(inst, scen, sol)
  {
    if SuppliesAgree(inst, ov) && Optimal(inst, scen, ov, sol) { OptimumAgrees(inst, scen, ov, sol, plan); }
  }

  lemma AcceptedKnown(inst: Instance, scen: Scenario, ov: seq<SupplyOverride>, sol: Solution, plan: Plan)
    requires Valid(inst) && ValidOverrides(inst, ov) && Satisfies(inst, scen, ov, sol)
    requires PlanOf(inst, scen, Provenance(inst, ov), sol.x, sol.e, plan)
    ensures Loaded(inst, plan)
    ensures Accepts(inst, plan) <==> FitsRecorded(inst, scen, ov, sol.x)
    ensures scen == B || CheckerCovers(inst, ov) ==> Accepts(inst, plan)
  {
    AcceptanceExact(inst, scen, ov, sol, plan);
    if scen == B || CheckerCovers(inst, ov) { SolutionsAreAccepted(inst, scen, ov, sol, plan); }
  }

  lemma VerdictKnown(inst: Instance, scen: Scenario, ov: seq<SupplyOverride>, sol: Solution, plan: Plan)
    requires Valid(inst) && ValidOverrides(inst, ov) && Satisfies(inst, scen, ov, sol)
    requires PlanOf(inst, scen, Provenance(inst, ov), sol.x, sol.e, plan)
    ensures Loaded(inst, plan)
    ensures Accepts(inst, plan) <==> FitsRecorded(inst, scen, ov, sol.x)
    ensures scen == B || CheckerCovers(inst, ov) ==> Accepts(inst, plan)
    ensures SuppliesAgree(inst, ov) && Optimal(inst, scen, ov, sol) ==>
      BestChecked(inst, scen, ov, plan)
      && ScoreTenths(inst, plan) + EmptyCharge(inst, scen) == Objective(inst, scen, sol)
  {
    AcceptedKnown(inst, scen, ov, sol, plan);
    BestKnown(inst, scen, ov, sol, plan);
  }

  /**
   * A solution is extracted, packed, written to text, read back, checked and scored. Reading succeeds exactly when
   * every completion is datable and every file is within the size limits. No rule is then broken but, where overrides
   * of one location-week disagree, that of supply; an optimal solution is then the best any accepted plan can score.
   */
  method SolveAndCheck(inst: Instance, scen: Scenario, ov: seq<SupplyOverride>, sol: Solution)
    returns (plan: Option<Plan>, vs: seq<Violation>, objective: int, ghost t: Tables)
    requires Valid(inst) && Labelled(inst) && PlainNames(inst) && ValidOverrides(inst, ov)
    requires Satisfies(inst, scen, ov, sol)
    ensures Published(inst, scen, sol, t)
    ensures plan.Some? <==> AllDatable(ResultRows(inst, scen, sol.x, |inst.contracts|)) && AllWithinLimits(t)
    ensures plan.Some? ==> PlanOf(inst, scen, Provenance(inst, ov), sol.x, sol.e, plan.value)
    ensures plan.Some? ==> (vs == [] <==> FitsRecorded(inst, scen, ov, sol.x))
    ensures plan.Some? && (scen == B || CheckerCovers(inst, ov)) ==> vs == []
    ensures plan.Some? && SuppliesAgree(inst, ov) && Optimal(inst, scen, ov, sol) ==>
      BestChecked(inst, scen, ov, plan.value) && objective + EmptyCharge(inst, scen) == Objective(inst, scen, sol)
  {
    plan, vs, objective := None, [], 0;
    var written, s, slots, bs := Publish(inst, scen, ov, sol);
    t := written;
    WrittenFilesLoad(inst, scen, s, slots, bs, t);
    var files := ThroughFiles(written);
    if files.Some? {
      WrittenIsReadable(inst, scen, s, slots, bs, t);
      var flaws, bookings;
      flaws, plan, bookings := LoadPlan(inst, files.value, Provenance(inst, ov));
      if plan.Some? {
        PublishedIsPlanOf(inst, scen, Provenance(inst, ov), sol.x, sol.e, s, slots, bs, t, bookings, plan.value);
        vs, objective := CheckAndScore(inst, scen, ov, sol, plan.value);
      }
    }
  }
}
