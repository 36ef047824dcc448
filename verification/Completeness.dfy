/** Every plan the checker accepts can be normalised into a solution that costs no more. */
module Completeness {
  import opened Counting
  import opened Model
  import opened Packing
  import opened Nights
  import opened Plans
  import opened Solver
  import opened Supplies
  import opened Checker
  import opened Soundness

  // --- the rules that survive dropping work ---------------------------------------------

  ghost predicate GridOk(inst: Instance, scen: Scenario, x: Grid, e: Grid) {
    && InHorizon(inst, x) && e <= x && (scen == A ==> e == {})
    && (forall p :: p in x ==> p.0 < |inst.activities| && inst.activities[p.0].earliest <= p.1)
  }

  ghost predicate AfterPredecessors(inst: Instance, x: Grid) {
    forall a: nat :: a < |inst.activities| && inst.activities[a].predecessor.Some? ==>
      StrictlyAfter(x, a, inst.activities[a].predecessor.value)
  }

  /** Each location-week fits its supply plus a budget of excess nights. */
  ghost predicate WithinBudget(inst: Instance, ov: seq<SupplyOverride>, x: Grid, budget: map<Cell, int>)
    requires Wellformed(inst)
  {
    forall k :: CapacityCell(inst, k) ==>
      Fits(inst, At(inst, x, k.0, k.1), SolverSupply(inst, ov, k.0, k.1) + ValueAt(budget, k))
  }

  ghost predicate BudgetOk(inst: Instance, scen: Scenario, budget: map<Cell, int>) {
    forall k :: CapacityCell(inst, k) ==> 0 <= ValueAt(budget, k) <= Tolerance(scen)
  }

  ghost predicate EcloTogether(inst: Instance, e: Grid) {
    forall p, q, line :: p in e && q in e && ClosesLine(inst, p.0, line) && ClosesLine(inst, q.0, line) ==>
      q.1 - p.1 <= 1
  }

  ghost predicate OnTime(inst: Instance, x: Grid)
    requires Wellformed(inst)
  {
    forall p :: p in x && p.0 < |inst.activities| ==> 7 * p.1 <= PlannedDay(inst, p.0)
  }

  /** The rules of the constraint system other than the workload bounds, over (x, e) alone. */
  ghost predicate Monotone(inst: Instance, scen: Scenario, ov: seq<SupplyOverride>, x: Grid, e: Grid,
                           budget: map<Cell, int>)
    requires Wellformed(inst)
  {
    && GridOk(inst, scen, x, e)
    && AfterPredecessors(inst, x)
    && WeeklyAllocation(inst, x)
    && WithinBudget(inst, ov, x, budget) && BudgetOk(inst, scen, budget)
    && Exclusivity(inst, x)
    && (scen == C ==> EcloTogether(inst, e))
    && (scen == B ==> OnTime(inst, x))
  }

  ghost predicate Enough(inst: Instance, x: Grid, e: Grid) {
    forall a: nat :: a < |inst.activities| ==> Need(inst, a) <= NightYield(x, e, a)
  }

  lemma FitsLess(inst: Instance, s: set<nat>, t: set<nat>, n: int)
    requires Members(inst, t) && s <= t && Fits(inst, t, n)
    ensures Members(inst, s) && Fits(inst, s, n)
  {
    NeededLess(inst, s, t);
    FitsIsNeeded(inst, t, n);
    FitsIsNeeded(inst, s, n);
  }

  /** Taking away nights or downgrading them keeps every rule but the workload. */
  lemma FewerNights(inst: Instance, scen: Scenario, ov: seq<SupplyOverride>, x: Grid, e: Grid,
                    budget: map<Cell, int>, x': Grid, e': Grid)
    requires Wellformed(inst) && Monotone(inst, scen, ov, x, e, budget)
    requires x' <= x && e' <= e && e' <= x'
    ensures Monotone(inst, scen, ov, x', e', budget)
  {
    forall c: nat, w | c < |inst.contracts| && 1 <= w <= inst.weeks
      ensures |Bucket(inst, x', c, w)| <= inst.contracts[c].maxPerWeek * inst.contracts[c].workfronts
    {
      CardLe(Bucket(inst, x', c, w), Bucket(inst, x, c, w));
    }
    forall k | CapacityCell(inst, k)
      ensures Fits(inst, At(inst, x', k.0, k.1), SolverSupply(inst, ov, k.0, k.1) + ValueAt(budget, k))
    {
      FitsLess(inst, At(inst, x', k.0, k.1), At(inst, x, k.0, k.1),
               SolverSupply(inst, ov, k.0, k.1) + ValueAt(budget, k));
    }
    assert AfterPredecessors(inst, x') by {
      forall a: nat | a < |inst.activities| && inst.activities[a].predecessor.Some?
        ensures StrictlyAfter(x', a, inst.activities[a].predecessor.value)
      {
        assert StrictlyAfter(x, a, inst.activities[a].predecessor.value);
      }
    }
  }

  // --- from the checker's verdict to the rules -------------------------------------------

  lemma AcceptedGrid(inst: Instance, plan: Plan)
    requires Wellformed(inst) && Loaded(inst, plan) && Accepts(inst, plan)
    ensures GridOk(inst, plan.scenario, XOf(plan.accesses), EOf(plan.accesses))
    ensures AfterPredecessors(inst, XOf(plan.accesses))
    ensures plan.scenario == C ==> EcloTogether(inst, EOf(plan.accesses))
  {
    var s := plan.accesses;
    if plan.scenario == C {
      forall p, q, line | p in EOf(s) && q in EOf(s) && ClosesLine(inst, p.0, line) && ClosesLine(inst, q.0, line)
        ensures q.1 - p.1 <= 1
      {
        assert LineWindowOk(inst, s, line);
      }
    }
  }

  lemma AcceptedWorkload(inst: Instance, plan: Plan)
    requires Wellformed(inst) && Loaded(inst, plan) && Accepts(inst, plan)
    ensures Enough(inst, XOf(plan.accesses), EOf(plan.accesses))
  {
    forall a: nat | a < |inst.activities|
      ensures Need(inst, a) <= NightYield(XOf(plan.accesses), EOf(plan.accesses), a)
    {
      YieldOfSets(plan.accesses, a);
    }
  }

  /** The night of each member of a bucket, as the plan records it. */
  lemma BucketNight(inst: Instance, s: seq<Access>, c: nat, w: int, a: nat) returns (n: int)
    requires a in Bucket(inst, XOf(s), c, w)
    ensures n in ContractNights(inst, s, c, w) && a in OnNight(inst, s, c, w, n)
  {
    var i := AccessFor(s, a, w);
    n := s[i].night;
  }

  ghost predicate OnSomeNight(inst: Instance, s: seq<Access>, c: nat, w: int, a: nat, n: int) {
    n in ContractNights(inst, s, c, w) && a in OnNight(inst, s, c, w, n)
  }

  lemma AcceptedAllocation(inst: Instance, plan: Plan)
    requires Wellformed(inst) && Loaded(inst, plan) && Accepts(inst, plan)
    ensures WeeklyAllocation(inst, XOf(plan.accesses))
  {
    var s, x := plan.accesses, XOf(plan.accesses);
    forall c: nat, w | c < |inst.contracts| && 1 <= w <= inst.weeks
      ensures |Bucket(inst, x, c, w)| <= inst.contracts[c].maxPerWeek * inst.contracts[c].workfronts
    {
      BucketFits(inst, s, c, w);
    }
  }

  lemma BucketFits(inst: Instance, s: seq<Access>, c: nat, w: int)
    requires Wellformed(inst) && AllocationOk(inst, s) && WorkfrontsOk(inst, s) && c < |inst.contracts|
    ensures |Bucket(inst, XOf(s), c, w)| <= inst.contracts[c].maxPerWeek * inst.contracts[c].workfronts
  {
    var b, nights := Bucket(inst, XOf(s), c, w), ContractNights(inst, s, c, w);
    forall a | a in b ensures exists n :: OnSomeNight(inst, s, c, w, a, n) {
      var n := BucketNight(inst, s, c, w, a);
      assert OnSomeNight(inst, s, c, w, a, n);
    }
    var tag: map<nat, int> := map a | a in b :: ChosenNight(inst, s, c, w, a);
    forall n | n in nights ensures |Class(b, tag, n)| <= inst.contracts[c].workfronts {
      CardLe(Class(b, tag, n), OnNight(inst, s, c, w, n));
    }
    Pigeonhole(b, tag, nights, inst.contracts[c].workfronts);
    MulMono(|nights|, inst.contracts[c].maxPerWeek, inst.contracts[c].workfronts);
  }

  ghost function ChosenNight(inst: Instance, s: seq<Access>, c: nat, w: int, a: nat): (n: int)
    requires exists n :: OnSomeNight(inst, s, c, w, a, n)
    ensures OnSomeNight(inst, s, c, w, a, n)
  {
    var n :| OnSomeNight(inst, s, c, w, a, n); n
  }

  /** The activities at a location-week are exactly those the occupancy file lists there. */
  lemma AcceptedOccupancy(inst: Instance, s: seq<Access>, slots: Slots, k: Cell)
    requires InHorizon(inst, XOf(s)) && OccupancyOk(inst, s, slots)
    ensures At(inst, XOf(s), k.0, k.1) == if k in slots then slots[k].Keys else {}
  {
    forall a: nat ensures a in At(inst, XOf(s), k.0, k.1) <==> PresentAt(slots, a, k.0, k.1) {
      if (a, k.1) in XOf(s) {
        var i := AccessFor(s, a, k.1);
        assert BooksSpan(inst, slots, a, k.1);
      }
    }
  }

  /** The labels a legal location-week uses cover what the packer would need. */
  lemma UsedCovers(inst: Instance, m: map<nat, int>, supply: int)
    requires Members(inst, m.Keys) && LegalLabels(inst, m)
    ensures Needed(inst, m.Keys) <= supply + Max0(|m.Values| - supply)
  {
    NoLegalUsesFewer(inst, m);
  }

  lemma AcceptedCell(inst: Instance, plan: Plan, k: Cell)
    requires k in plan.slots && k in plan.slotsUsed && plan.slotsUsed[k] == |plan.slots[k].Values|
    requires Members(inst, plan.slots[k].Keys) && LegalLabels(inst, plan.slots[k])
    requires forall j :: j in plan.slotsUsed ==> j.0 < |inst.locations|
    ensures Needed(inst, plan.slots[k].Keys)
         <= EffectiveSupply(inst, plan.overrides, k.0, k.1) + ValueAt(ExcessOf(inst, plan), k)
  {
    UsedCovers(inst, plan.slots[k], EffectiveSupply(inst, plan.overrides, k.0, k.1));
  }

  lemma AcceptedBudget(inst: Instance, plan: Plan)
    requires Wellformed(inst) && LoadedSlots(inst, plan) && CapacityOk(inst, plan)
    ensures BudgetOk(inst, plan.scenario, ExcessOf(inst, plan))
  {
  }

  lemma EmptyCell(inst: Instance, n: int)
    requires n >= 0
    ensures Fits(inst, {}, n)
  {
    NeededAtMostAll(inst, {}, 0);
    FitsIsNeeded(inst, {}, n);
  }

  lemma AcceptedRow(inst: Instance, plan: Plan, supply: int, s: set<nat>, k: Cell)
    requires Wellformed(inst) && LoadedSlots(inst, plan) && LabelsCounted(plan) && MixOk(inst, plan)
    requires k.0 < |inst.locations| && supply >= 0
    requires Covers(inst, k.0, supply, EffectiveSupply(inst, plan.overrides, k.0, k.1))
    requires s <= UsersOf(inst, k.0) && s == if k in plan.slots then plan.slots[k].Keys else {}
    ensures Members(inst, s) && Fits(inst, s, supply + ValueAt(ExcessOf(inst, plan), k))
  {
    var n := supply + ValueAt(ExcessOf(inst, plan), k);
    UsersNeedLess(inst, k.0, s);
    if k in plan.slots {
      assert LegalLabels(inst, plan.slots[k]);
      AcceptedCell(inst, plan, k);
      FitsIsNeeded(inst, s, n);
    } else {
      EmptyCell(inst, n);
    }
  }

  lemma AcceptedCapacity(inst: Instance, ov: seq<SupplyOverride>, plan: Plan)
    requires Wellformed(inst) && ValidOverrides(inst, ov) && SolverCovers(inst, ov)
    requires Loaded(inst, plan) && plan.overrides == Provenance(inst, ov)
    requires MixOk(inst, plan) && OccupancyOk(inst, plan.accesses, plan.slots)
    ensures WithinBudget(inst, ov, XOf(plan.accesses), ExcessOf(inst, plan))
  {
    var x, budget := XOf(plan.accesses), ExcessOf(inst, plan);
    forall k | CapacityCell(inst, k)
      ensures Fits(inst, At(inst, x, k.0, k.1), SolverSupply(inst, ov, k.0, k.1) + ValueAt(budget, k))
    {
      AcceptedOccupancy(inst, plan.accesses, plan.slots, k);
      AtIsOfUsers(inst, x, k.0, k.1);
      SupplyNonNegative(inst, ov, k.0, k.1);
      AcceptedRow(inst, plan, SolverSupply(inst, ov, k.0, k.1), At(inst, x, k.0, k.1), k);
    }
  }

  /** Under B every location-week has room for all activities. */
  ghost function RoomForAll(inst: Instance): map<Cell, int> {
    map k | k in Rows(inst) :: |inst.activities|
  }

  lemma AmpleRoom(inst: Instance, ov: seq<SupplyOverride>, x: Grid)
    requires Wellformed(inst) && ValidOverrides(inst, ov)
    ensures WithinBudget(inst, ov, x, RoomForAll(inst)) && BudgetOk(inst, B, RoomForAll(inst))
  {
    forall k | CapacityCell(inst, k)
      ensures Fits(inst, At(inst, x, k.0, k.1), SolverSupply(inst, ov, k.0, k.1) + ValueAt(RoomForAll(inst), k))
    {
      var s := At(inst, x, k.0, k.1);
      AtMembers(inst, x, k.0, k.1);
      IndexCard(s, |inst.activities|);
      NeededAtMostAll(inst, s, |inst.activities|);
      SupplyNonNegative(inst, ov, k.0, k.1);
      FitsIsNeeded(inst, s, SolverSupply(inst, ov, k.0, k.1) + |inst.activities|);
    }
  }

  lemma AcceptedExclusivity(inst: Instance, plan: Plan)
    requires Wellformed(inst) && Paired(inst) && Loaded(inst, plan) && Accepts(inst, plan)
    ensures Exclusivity(inst, XOf(plan.accesses))
  {
    var s, x := plan.accesses, XOf(plan.accesses);
    forall p, w | p in inst.exclusivePairs && 1 <= w <= inst.weeks
      ensures !((p.0, w) in x && (p.1, w) in x)
    {
      if (p.0, w) in x && (p.1, w) in x {
        var i := AccessFor(s, p.0, w);
        var j := AccessFor(s, p.1, w);
        assert (p.0, p.1) in inst.exclusivePairs;
        ClosureVerdict(inst, plan.slots, w, p.0, p.1);
      }
    }
  }

  lemma AcceptedOnTime(inst: Instance, plan: Plan)
    requires Wellformed(inst) && Loaded(inst, plan) && Accepts(inst, plan)
    ensures plan.scenario == B ==> OnTime(inst, XOf(plan.accesses))
  {
    var x := XOf(plan.accesses);
    if plan.scenario == B {
      forall p | p in x && p.0 < |inst.activities| ensures 7 * p.1 <= PlannedDay(inst, p.0) {
        var c := inst.activities[p.0].contract;
        ContractLastInProps(inst, x, c, inst.weeks);
        var i := AccessFor(plan.accesses, p.0, p.1);
        var w := ContractLastIn(inst, x, c, inst.weeks);
        assert (p.0, p.1) in x;
        assert p.1 <= w;
      }
    }
  }

  /** A budget within which an accepted plan keeps the constraints' supply. */
  ghost function BudgetOf(inst: Instance, ov: seq<SupplyOverride>, plan: Plan): map<Cell, int>
    requires Wellformed(inst) && ValidOverrides(inst, ov) && Loaded(inst, plan)
  {
    if SolverCovers(inst, ov) then ExcessOf(inst, plan) else RoomForAll(inst)
  }

  lemma AcceptedBudgets(inst: Instance, ov: seq<SupplyOverride>, plan: Plan)
    requires Wellformed(inst) && ValidOverrides(inst, ov) && (plan.scenario == B || SolverCovers(inst, ov))
    requires Loaded(inst, plan) && Accepts(inst, plan) && plan.overrides == Provenance(inst, ov)
    ensures WithinBudget(inst, ov, XOf(plan.accesses), BudgetOf(inst, ov, plan))
    ensures BudgetOk(inst, plan.scenario, BudgetOf(inst, ov, plan))
  {
    if SolverCovers(inst, ov) {
      AcceptedCapacity(inst, ov, plan);
      AcceptedBudget(inst, plan);
    } else {
      AmpleRoom(inst, ov, XOf(plan.accesses));
    }
  }

  lemma AcceptedPlansAreMonotone(inst: Instance, ov: seq<SupplyOverride>, plan: Plan)
    requires Valid(inst) && ValidOverrides(inst, ov) && (plan.scenario == B || SolverCovers(inst, ov))
    requires Loaded(inst, plan) && Accepts(inst, plan) && plan.overrides == Provenance(inst, ov)
    ensures Monotone(inst, plan.scenario, ov, XOf(plan.accesses), EOf(plan.accesses), BudgetOf(inst, ov, plan))
    ensures Enough(inst, XOf(plan.accesses), EOf(plan.accesses))
  {
    AcceptedGrid(inst, plan);
    AcceptedWorkload(inst, plan);
    AcceptedAllocation(inst, plan);
    AcceptedBudgets(inst, ov, plan);
    AcceptedExclusivity(inst, plan);
    AcceptedOnTime(inst, plan);
  }

  // --- trimming -------------------------------------------------------------------------------

  lemma RowRemove(x: Grid, p: (nat, int), a: nat)
    requires p in x
    ensures |Row(x - {p}, a)| == |Row(x, a)| - if p.0 == a then 1 else 0
  {
    RowAdd(x - {p}, p, a);
    assert x - {p} + {p} == x;
  }

  /** Downgrade or drop nights until no activity exceeds its need by a whole night. */
  lemma Trim(inst: Instance, x: Grid, e: Grid) returns (x': Grid, e': Grid)
    requires Enough(inst, x, e) && e <= x
    ensures x' <= x && e' <= e && e' <= x'
    ensures Workload(inst, x', e')
    decreases |x| + |e|
  {
    if exists a: nat :: a < |inst.activities| && NightYield(x, e, a) > Need(inst, a) + STD_YIELD - 1 {
      var a: nat :| a < |inst.activities| && NightYield(x, e, a) > Need(inst, a) + STD_YIELD - 1;
      CardLe(Row(e, a), Row(x, a));
      var p := Pick(Row(x, a));
      var x1, e1 := if p in e then x else x - {p}, e - {p};
      forall b: nat | b < |inst.activities| ensures Need(inst, b) <= NightYield(x1, e1, b) {
        assert Need(inst, b) <= NightYield(x, e, b);
        if p in e {
          RowRemove(e, p, b);
        } else {
          RowRemove(x, p, b);
          assert e - {p} == e;
        }
      }
      x', e' := Trim(inst, x1, e1);
    } else {
      x', e' := x, e;
      forall a: nat | a < |inst.activities|
        ensures Need(inst, a) <= NightYield(x, e, a) <= Need(inst, a) + STD_YIELD - 1
      {
      }
    }
  }

  // --- the cheapest solution over given (x, e) ----------------------------------------------

  ghost function FirstIn(x: Grid, a: nat, w: int, h: nat): int
    decreases h + 1 - w
  {
    if w > h then h + 1 else if (a, w) in x then w else FirstIn(x, a, w + 1, h)
  }

  lemma {:induction false} FirstInProps(x: Grid, a: nat, w: int, h: nat)
    requires w <= h + 1
    ensures w <= FirstIn(x, a, w, h) <= h + 1
    ensures FirstIn(x, a, w, h) <= h ==> (a, FirstIn(x, a, w, h)) in x
    ensures forall v :: w <= v < FirstIn(x, a, w, h) ==> (a, v) !in x
    decreases h + 1 - w
  {
    if w <= h && (a, w) !in x { FirstInProps(x, a, w + 1, h); }
  }

  ghost function Rows(inst: Instance): (r: set<Cell>)
    ensures forall k :: k in r <==> CapacityCell(inst, k)
  {
    set l: nat, w: int | 0 <= l < |inst.locations| && 1 <= w <= inst.weeks && CapacityCell(inst, (l, w)) :: (l, w)
  }

  /** The slots needed above supply at one location-week. */
  ghost function Shortfall(inst: Instance, ov: seq<SupplyOverride>, x: Grid, k: Cell): nat
    requires Wellformed(inst) && k.0 < |inst.locations|
  {
    Max0(Needed(inst, At(inst, x, k.0, k.1)) - SolverSupply(inst, ov, k.0, k.1))
  }

  /** The least excess of every capacity row. */
  ghost function ExcessNeeded(inst: Instance, scen: Scenario, ov: seq<SupplyOverride>, x: Grid): (m: map<Cell, int>)
    requires Wellformed(inst)
    ensures forall k :: k in m <==> scen != A && CapacityCell(inst, k)
    ensures forall k :: k in m && k.0 < |inst.locations| ==> m[k] == Shortfall(inst, ov, x, k)
  {
    if scen == A then map[] else map k | k in Rows(inst) :: Shortfall(inst, ov, x, k)
  }

  /** The first ECLO week of the line up to week h, or 1. */
  ghost function WindowFrom(inst: Instance, e: Grid, line: string, w: int): int
    decreases inst.weeks + 1 - w
  {
    if w > inst.weeks then 1
    else if EcloOnLine(inst, e, line, w) then w
    else WindowFrom(inst, e, line, w + 1)
  }

  ghost predicate EcloOnLine(inst: Instance, e: Grid, line: string, w: int) {
    exists a: nat :: (a, w) in e && ClosesLine(inst, a, line)
  }

  lemma {:induction false} WindowFromProps(inst: Instance, e: Grid, line: string, w: int)
    requires 1 <= w <= inst.weeks + 1 && inst.weeks >= 1
    ensures 1 <= WindowFrom(inst, e, line, w) <= inst.weeks
    ensures (exists v :: w <= v <= inst.weeks && EcloOnLine(inst, e, line, v)) ==>
              EcloOnLine(inst, e, line, WindowFrom(inst, e, line, w))
    ensures forall v :: w <= v <= inst.weeks && EcloOnLine(inst, e, line, v) ==> WindowFrom(inst, e, line, w) <= v
    decreases inst.weeks + 1 - w
  {
    if w <= inst.weeks && !EcloOnLine(inst, e, line, w) { WindowFromProps(inst, e, line, w + 1); }
  }

  ghost function WindowsFor(inst: Instance, e: Grid, n: nat): (m: map<string, int>)
    requires n <= |inst.locations|
    ensures forall l :: 0 <= l < n ==> inst.locations[l].line in m
    ensures forall line :: line in m ==> m[line] == WindowFrom(inst, e, line, 1)
  {
    if n == 0 then map[]
    else
      var line := inst.locations[n - 1].line;
      WindowsFor(inst, e, n - 1)[line := WindowFrom(inst, e, line, 1)]
  }

  ghost function Firsts(inst: Instance, x: Grid): (s: seq<int>)
    ensures |s| == |inst.activities|
    ensures forall a :: 0 <= a < |s| ==> s[a] == FirstIn(x, a, 1, inst.weeks)
  {
    seq(|inst.activities|, a requires 0 <= a => FirstIn(x, a, 1, inst.weeks))
  }

  ghost function Lasts(inst: Instance, x: Grid): (s: seq<int>)
    ensures |s| == |inst.activities|
    ensures forall a :: 0 <= a < |s| ==> s[a] == LastIn(x, a, inst.weeks)
  {
    seq(|inst.activities|, a requires 0 <= a => LastIn(x, a, inst.weeks))
  }

  /** The least value of every auxiliary variable for given nights. */
  ghost function Cheapest(inst: Instance, scen: Scenario, ov: seq<SupplyOverride>, x: Grid, e: Grid): (sol: Solution)
    requires Wellformed(inst)
  {
    Solution(x, e, Firsts(inst, x), Lasts(inst, x), LeastOverruns(inst, x), ExcessNeeded(inst, scen, ov, x),
             WindowsFor(inst, e, |inst.locations|))
  }

  ghost function LeastOverruns(inst: Instance, x: Grid): seq<int>
    requires Wellformed(inst)
  {
    seq(|inst.activities|, a requires 0 <= a < |inst.activities| =>
      Max0(7 * LastIn(x, a, inst.weeks) - PlannedDay(inst, a)))
  }

  /** An activity without required accesses whose planned date lies before the horizon. */
  ghost predicate LateEmpty(inst: Instance, a: nat)
    requires Wellformed(inst)
  {
    a < |inst.activities| && inst.activities[a].total == 0 && PlannedDay(inst, a) < 0
  }

  ghost predicate NoLateEmpty(inst: Instance)
    requires Wellformed(inst)
  {
    forall a: nat :: !LateEmpty(inst, a)
  }

  lemma NoNightsMeansNoNeed(inst: Instance, x: Grid, e: Grid, a: nat)
    requires Workload(inst, x, e) && e <= x && a < |inst.activities|
    ensures Row(x, a) == {} <==> inst.activities[a].total == 0
  {
    CardPositive(Row(x, a));
    CardLe(Row(e, a), Row(x, a));
    assert Need(inst, a) <= NightYield(x, e, a) <= Need(inst, a) + STD_YIELD - 1;
  }

  lemma LastZero(inst: Instance, x: Grid, a: nat)
    requires InHorizon(inst, x)
    ensures LastIn(x, a, inst.weeks) == 0 <==> Row(x, a) == {}
  {
    var last := LastIn(x, a, inst.weeks);
    LastInProps(x, a, inst.weeks);
    forall p | p in Row(x, a) ensures last > 0 {
      var w := p.1;
      assert p == (a, w);
      assert (a, w) in x;
      assert 1 <= w <= inst.weeks;
    }
    if last > 0 {
      assert (a, last as int) in Row(x, a);
    }
  }

  lemma LastIsLast(inst: Instance, sol: Solution, a: nat)
    requires Wellformed(inst)
    ensures IsLast(inst.weeks, sol, a, LastIn(sol.x, a, inst.weeks))
  {
    var h, last := inst.weeks, LastIn(sol.x, a, inst.weeks);
    LastInProps(sol.x, a, h);
    var w := if last == 0 then 1 else last;
    assert last == if Taken(sol, a, w) then w else 0;
  }

  lemma FirstIsFirst(inst: Instance, sol: Solution, a: nat)
    requires Wellformed(inst)
    ensures IsFirst(inst.weeks, sol, a, FirstIn(sol.x, a, 1, inst.weeks))
  {
    var h, first := inst.weeks, FirstIn(sol.x, a, 1, inst.weeks);
    FirstInProps(sol.x, a, 1, h);
    var w := if first == h + 1 then 1 else first;
    assert first == if Taken(sol, a, w) then w else h + 1;
  }

  lemma CheapestFirstLast(inst: Instance, sol: Solution)
    requires Wellformed(inst) && InHorizon(inst, sol.x) && AfterPredecessors(inst, sol.x)
    requires sol.first == Firsts(inst, sol.x) && sol.last == Lasts(inst, sol.x)
    ensures FirstAndLast(inst, sol) && Precedence(inst, sol)
  {
    forall a: nat | a < |inst.activities|
      ensures IsLast(inst.weeks, sol, a, sol.last[a]) && IsFirst(inst.weeks, sol, a, sol.first[a])
    {
      LastIsLast(inst, sol, a);
      FirstIsFirst(inst, sol, a);
    }
    forall a: nat | a < |inst.activities| && inst.activities[a].predecessor.Some?
      ensures sol.first[a] >= sol.last[inst.activities[a].predecessor.value] + 1
    {
      var p := inst.activities[a].predecessor.value;
      assert StrictlyAfter(sol.x, a, p);
      FirstInProps(sol.x, a, 1, inst.weeks);
      LastInProps(sol.x, p, inst.weeks);
    }
  }

  /** The least excess meets the policy bound and every budget that suffices. */
  lemma LeastExcess(inst: Instance, s: set<nat>, supply: int, budget: int, users: nat)
    requires Members(inst, s) && |s| <= users
    requires supply >= 0 && budget >= 0 && Fits(inst, s, supply + budget)
    ensures var v := Max0(Needed(inst, s) - supply);
            0 <= v <= users && v <= budget && Fits(inst, s, supply + v)
  {
    FitsIsNeeded(inst, s, supply + budget);
    FitsIsNeeded(inst, s, supply + Max0(Needed(inst, s) - supply));
    NeededAtMostAll(inst, s, users);
  }

  lemma CheapestCell(inst: Instance, scen: Scenario, ov: seq<SupplyOverride>, x: Grid, budget: map<Cell, int>, k: Cell)
    requires Wellformed(inst) && ValidOverrides(inst, ov) && CapacityCell(inst, k)
    requires Fits(inst, At(inst, x, k.0, k.1), SolverSupply(inst, ov, k.0, k.1) + ValueAt(budget, k))
    requires 0 <= ValueAt(budget, k) <= Tolerance(scen)
    ensures var v := ValueAt(ExcessNeeded(inst, scen, ov, x), k);
      && 0 <= v <= MaxExcess(inst, scen, k.0) && v <= ValueAt(budget, k)
      && Fits(inst, At(inst, x, k.0, k.1), SolverSupply(inst, ov, k.0, k.1) + v)
  {
    var s, supply := At(inst, x, k.0, k.1), SolverSupply(inst, ov, k.0, k.1);
    SupplyNonNegative(inst, ov, k.0, k.1);
    CardLe(s, UsersOf(inst, k.0));
    LeastExcess(inst, s, supply, ValueAt(budget, k), |UsersOf(inst, k.0)|);
  }

  lemma CheapestCapacity(inst: Instance, scen: Scenario, ov: seq<SupplyOverride>, x: Grid, budget: map<Cell, int>)
    requires Wellformed(inst) && ValidOverrides(inst, ov)
    requires WithinBudget(inst, ov, x, budget) && BudgetOk(inst, scen, budget)
    ensures Capacity(inst, scen, ov, x, ExcessNeeded(inst, scen, ov, x))
    ensures forall k :: k in ExcessNeeded(inst, scen, ov, x) ==>
              ExcessNeeded(inst, scen, ov, x)[k] <= ValueAt(budget, k)
  {
    var excess := ExcessNeeded(inst, scen, ov, x);
    forall k | CapacityCell(inst, k)
      ensures CapacityRow(inst, scen, ov, x, ValueAt(excess, k), k) && ValueAt(excess, k) <= ValueAt(budget, k)
    {
      CheapestCell(inst, scen, ov, x, budget, k);
    }
  }

  lemma CheapestWindow(inst: Instance, e: Grid, line: string, a: nat, w: int)
    requires Wellformed(inst) && InHorizon(inst, e) && EcloTogether(inst, e)
    requires (a, w) in e && ClosesLine(inst, a, line)
    ensures WindowFrom(inst, e, line, 1) <= w <= WindowFrom(inst, e, line, 1) + 1
  {
    WindowFromProps(inst, e, line, 1);
    assert EcloOnLine(inst, e, line, w);
    var v := WindowFrom(inst, e, line, 1);
    var b: nat :| (b, v) in e && ClosesLine(inst, b, line);
    var p, q := (b, v), (a, w);
    assert p in e && q in e && ClosesLine(inst, p.0, line) && ClosesLine(inst, q.0, line);
  }

  lemma CheapestWindows(inst: Instance, scen: Scenario, sol: Solution)
    requires Wellformed(inst) && InHorizon(inst, sol.e) && (scen == C ==> EcloTogether(inst, sol.e))
    requires sol.window == WindowsFor(inst, sol.e, |inst.locations|)
    ensures Windows(inst, scen, sol)
  {
    if scen == C {
      forall l | 0 <= l < |inst.locations|
        ensures inst.locations[l].line in sol.window && 1 <= sol.window[inst.locations[l].line] <= inst.weeks
      {
        WindowFromProps(inst, sol.e, inst.locations[l].line, 1);
      }
      forall a: nat, w, line | (a, w) in sol.e && ClosesLine(inst, a, line) && line in sol.window
        ensures sol.window[line] <= w <= sol.window[line] + 1
      {
        CheapestWindow(inst, sol.e, line, a, w);
      }
    }
  }

  lemma LastOnTime(inst: Instance, x: Grid, e: Grid, a: nat)
    requires Wellformed(inst) && InHorizon(inst, x) && e <= x && Workload(inst, x, e)
    requires OnTime(inst, x) && a < |inst.activities| && !LateEmpty(inst, a)
    ensures 7 * LastIn(x, a, inst.weeks) <= PlannedDay(inst, a)
  {
    LastInProps(x, a, inst.weeks);
    LastZero(inst, x, a);
    NoNightsMeansNoNeed(inst, x, e, a);
    var p := (a, LastIn(x, a, inst.weeks) as int);
    assert p.1 > 0 ==> p in x;
  }

  lemma CheapestOverruns(inst: Instance, scen: Scenario, sol: Solution)
    requires Wellformed(inst) && InHorizon(inst, sol.x) && sol.e <= sol.x && Workload(inst, sol.x, sol.e)
    requires FirstAndLast(inst, sol)
    requires sol.last == Lasts(inst, sol.x) && sol.overrun == LeastOverruns(inst, sol.x)
    requires scen == B ==> OnTime(inst, sol.x) && NoLateEmpty(inst)
    ensures Overruns(inst, scen, sol)
  {
    forall a: nat | a < |inst.activities|
      ensures LastIn(sol.x, a, inst.weeks) <= inst.weeks
      ensures scen == B ==> 7 * LastIn(sol.x, a, inst.weeks) <= PlannedDay(inst, a)
    {
      LastInProps(sol.x, a, inst.weeks);
      if scen == B { LastOnTime(inst, sol.x, sol.e, a); }
    }
  }

  lemma CheapestSatisfies(inst: Instance, scen: Scenario, ov: seq<SupplyOverride>, x: Grid, e: Grid,
                          budget: map<Cell, int>)
    requires Wellformed(inst) && ValidOverrides(inst, ov)
    requires Monotone(inst, scen, ov, x, e, budget) && Workload(inst, x, e)
    requires scen == B ==> NoLateEmpty(inst)
    ensures Satisfies(inst, scen, ov, Cheapest(inst, scen, ov, x, e))
  {
    var sol := Cheapest(inst, scen, ov, x, e);
    CheapestFirstLast(inst, sol);
    CheapestCapacity(inst, scen, ov, x, budget);
    CheapestWindows(inst, scen, sol);
    CheapestOverruns(inst, scen, sol);
  }

  // --- cost ---------------------------------------------------------------------------------------

  /** The days the solver charges to activities that need no access. */
  ghost function EmptyDays(inst: Instance): seq<int>
    requires Wellformed(inst)
  {
    seq(|inst.activities|, a requires 0 <= a < |inst.activities| =>
      if inst.activities[a].total == 0 then Max0(-PlannedDay(inst, a)) else 0)
  }

  /** What the solver's objective adds to the score for late activities without work. */
  ghost function EmptyCharge(inst: Instance, scen: Scenario): int
    requires Wellformed(inst)
  {
    if scen == B then 0 else WeightedSum(inst, EmptyDays(inst), |inst.activities|)
  }

  lemma LastInMono(x: Grid, x': Grid, a: nat, h: nat)
    requires x' <= x
    ensures LastIn(x', a, h) <= LastIn(x, a, h)
  {
    LastInProps(x, a, h);
    LastInProps(x', a, h);
  }

  lemma OverrunsBelowScore(inst: Instance, x: Grid, x': Grid, e': Grid)
    requires Wellformed(inst) && InHorizon(inst, x) && x' <= x && e' <= x' && Workload(inst, x', e')
    ensures WeightedSum(inst, LeastOverruns(inst, x'), |inst.activities|)
         <= WeightedSum(inst, OverrunDays(inst, x), |inst.activities|)
            + WeightedSum(inst, EmptyDays(inst), |inst.activities|)
  {
    var n := |inst.activities|;
    var days, empty := OverrunDays(inst, x), EmptyDays(inst);
    var both := seq(n, a requires 0 <= a < n => days[a] + empty[a]);
    forall a | 0 <= a < n ensures LeastOverruns(inst, x')[a] <= both[a] {
      LastInMono(x, x', a, inst.weeks);
      LastZero(inst, x', a);
      NoNightsMeansNoNeed(inst, x', e', a);
    }
    WeightedSumLe(inst, LeastOverruns(inst, x'), both, n);
    WeightedSumAdd(inst, days, empty, both, n);
  }

  lemma ObjectiveLe(inst: Instance, plan: Plan, sol: Solution)
    requires Wellformed(inst) && |sol.overrun| == |inst.activities| && LoadedSlots(inst, plan)
    requires WeightedSum(inst, sol.overrun, |inst.activities|)
          <= WeightedSum(inst, OverrunDays(inst, XOf(plan.accesses)), |inst.activities|)
             + WeightedSum(inst, EmptyDays(inst), |inst.activities|)
    requires GridSum(sol.excess, |inst.locations|, inst.weeks)
          <= GridSum(ExcessOf(inst, plan), |inst.locations|, inst.weeks)
    requires |sol.e| <= EcloCount(plan.accesses)
    ensures Objective(inst, plan.scenario, sol) <= ScoreTenths(inst, plan) + EmptyCharge(inst, plan.scenario)
  {
    ScoredOverGrid(inst, plan);
  }

  lemma ExcessSumLe(inst: Instance, excess: map<Cell, int>, budget: map<Cell, int>)
    requires forall k :: k in excess ==> excess[k] <= ValueAt(budget, k)
    requires forall k :: k in budget ==> 0 <= budget[k]
    ensures GridSum(excess, |inst.locations|, inst.weeks) <= GridSum(budget, |inst.locations|, inst.weeks)
  {
    forall l: nat, w | l < |inst.locations| && 1 <= w <= inst.weeks
      ensures ValueAt(excess, (l, w)) <= ValueAt(budget, (l, w))
    {
    }
    GridSumLe(excess, budget, |inst.locations|, inst.weeks);
  }

  lemma LeastExcessSum(inst: Instance, scen: Scenario, ov: seq<SupplyOverride>, x: Grid, plan: Plan)
    requires Wellformed(inst) && ValidOverrides(inst, ov) && LoadedSlots(inst, plan)
    requires WithinBudget(inst, ov, x, ExcessOf(inst, plan)) && BudgetOk(inst, scen, ExcessOf(inst, plan))
    ensures GridSum(ExcessNeeded(inst, scen, ov, x), |inst.locations|, inst.weeks)
         <= GridSum(ExcessOf(inst, plan), |inst.locations|, inst.weeks)
  {
    CheapestCapacity(inst, scen, ov, x, ExcessOf(inst, plan));
    ExcessSumLe(inst, ExcessNeeded(inst, scen, ov, x), ExcessOf(inst, plan));
  }

  /** Trimmed nights with the least auxiliary values cost no more than the plan they came from. */
  lemma TrimmedCostsNoMore(inst: Instance, plan: Plan, sol: Solution)
    requires Wellformed(inst) && LoadedSlots(inst, plan) && Distinct(plan.accesses)
    requires InHorizon(inst, XOf(plan.accesses))
    requires sol.x <= XOf(plan.accesses) && sol.e <= EOf(plan.accesses) && sol.e <= sol.x
    requires Workload(inst, sol.x, sol.e) && sol.overrun == LeastOverruns(inst, sol.x)
    requires GridSum(sol.excess, |inst.locations|, inst.weeks)
          <= GridSum(ExcessOf(inst, plan), |inst.locations|, inst.weeks)
    ensures Objective(inst, plan.scenario, sol) <= ScoreTenths(inst, plan) + EmptyCharge(inst, plan.scenario)
  {
    OverrunsBelowScore(inst, XOf(plan.accesses), sol.x, sol.e);
    EcloCountOfSet(plan.accesses);
    CardLe(sol.e, EOf(plan.accesses));
    ObjectiveLe(inst, plan, sol);
  }

  /**
   * Checker completeness: an accepted plan gives a solution, under B whatever the overrides; its cost is no larger
   * where the constraints' supply covers the recorded one.
   */
  lemma AcceptedPlansAreSolutions(inst: Instance, ov: seq<SupplyOverride>, plan: Plan) returns (sol: Solution)
    requires Valid(inst) && ValidOverrides(inst, ov) && (plan.scenario == B || SolverCovers(inst, ov))
    requires Loaded(inst, plan) && Accepts(inst, plan) && plan.overrides == Provenance(inst, ov)
    requires plan.scenario == B ==> NoLateEmpty(inst)
    ensures Satisfies(inst, plan.scenario, ov, sol)
    ensures sol.x <= XOf(plan.accesses) && sol.e <= EOf(plan.accesses)
    ensures SolverCovers(inst, ov) ==>
      Objective(inst, plan.scenario, sol) <= ScoreTenths(inst, plan) + EmptyCharge(inst, plan.scenario)
  {
    var scen, x, e, budget := plan.scenario, XOf(plan.accesses), EOf(plan.accesses), BudgetOf(inst, ov, plan);
    AcceptedPlansAreMonotone(inst, ov, plan);
    var x', e' := Trim(inst, x, e);
    FewerNights(inst, scen, ov, x, e, budget, x', e');
    sol := Cheapest(inst, scen, ov, x', e');
    CheapestSatisfies(inst, scen, ov, x', e', budget);
    if SolverCovers(inst, ov) {
      LeastExcessSum(inst, scen, ov, x', plan);
      TrimmedCostsNoMore(inst, plan, sol);
    }
  }
}
