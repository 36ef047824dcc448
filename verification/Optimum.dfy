/** The solver's optimum is the minimum over the plans the checker accepts. */
module Optimum {
  import opened Model
  import opened Packing
  import opened Plans
  import opened Solver
  import opened Supplies
  import opened Checker
  import opened Soundness
  import opened Completeness

  // --- extraction ---------------------------------------------------------------------

  /** The accesses of activity a in weeks 1..h. */
  ghost function ExtractRow(x: Grid, e: Grid, a: nat, h: nat): seq<Access> {
    if h == 0 then []
    else ExtractRow(x, e, a, h - 1) + if (a, h) in x then [Access(a, h, (a, h) in e, 0, 0)] else []
  }

  /** The accesses of the first n activities, by activity and then week. */
  ghost function Extracted(x: Grid, e: Grid, n: nat, h: nat): seq<Access> {
    if n == 0 then [] else Extracted(x, e, n - 1, h) + ExtractRow(x, e, n - 1, h)
  }

  ghost predicate Listed(s: seq<Access>, a: nat, w: int) {
    exists i :: 0 <= i < |s| && s[i].activity == a && s[i].week == w
  }

  /** Every access is one of x, below n and with the ECLO flag of e. */
  ghost predicate FromGrid(s: seq<Access>, x: Grid, e: Grid, n: nat) {
    forall i :: 0 <= i < |s| ==>
      s[i].activity < n && (s[i].activity, s[i].week) in x && (s[i].eclo <==> (s[i].activity, s[i].week) in e)
  }

  ghost predicate RowOf(s: seq<Access>, a: nat, h: nat) {
    && (forall i :: 0 <= i < |s| ==> s[i].activity == a && s[i].week <= h)
    && (forall i, j :: 0 <= i < j < |s| ==> s[i].week < s[j].week)
  }

  lemma {:induction false} ExtractRowSound(x: Grid, e: Grid, a: nat, h: nat)
    ensures FromGrid(ExtractRow(x, e, a, h), x, e, a + 1) && RowOf(ExtractRow(x, e, a, h), a, h)
  {
    if h > 0 { ExtractRowSound(x, e, a, h - 1); }
  }

  lemma {:induction false} ExtractRowListed(x: Grid, e: Grid, a: nat, h: nat, w: int)
    requires 1 <= w <= h && (a, w) in x
    ensures Listed(ExtractRow(x, e, a, h), a, w)
  {
    var t, s := ExtractRow(x, e, a, h - 1), ExtractRow(x, e, a, h);
    if w < h {
      ExtractRowListed(x, e, a, h - 1, w);
      var i :| 0 <= i < |t| && t[i].activity == a && t[i].week == w;
      assert s[i] == t[i];
    } else {
      assert s[|t|].week == w;
    }
  }

  lemma DistinctAppend(t: seq<Access>, r: seq<Access>, n: nat, h: nat)
    requires Distinct(t) && (forall i :: 0 <= i < |t| ==> t[i].activity < n) && RowOf(r, n, h)
    ensures Distinct(t + r)
  {
  }

  lemma {:induction false} ExtractedSound(x: Grid, e: Grid, n: nat, h: nat)
    ensures FromGrid(Extracted(x, e, n, h), x, e, n) && Distinct(Extracted(x, e, n, h))
  {
    if n > 0 {
      ExtractedSound(x, e, n - 1, h);
      ExtractRowSound(x, e, n - 1, h);
      DistinctAppend(Extracted(x, e, n - 1, h), ExtractRow(x, e, n - 1, h), n - 1, h);
    }
  }

  lemma {:induction false} ExtractedListed(x: Grid, e: Grid, n: nat, h: nat, a: nat, w: int)
    requires a < n && 1 <= w <= h && (a, w) in x
    ensures Listed(Extracted(x, e, n, h), a, w)
  {
    var t, r, s := Extracted(x, e, n - 1, h), ExtractRow(x, e, n - 1, h), Extracted(x, e, n, h);
    if a < n - 1 {
      ExtractedListed(x, e, n - 1, h, a, w);
      var i :| 0 <= i < |t| && t[i].activity == a && t[i].week == w;
      assert s[i] == t[i];
    } else {
      ExtractRowListed(x, e, a, h, w);
      var i :| 0 <= i < |r| && r[i].activity == a && r[i].week == w;
      assert s[|t| + i] == r[i];
    }
  }

  /** Extraction loses nothing: its accesses are x, its ECLO flags are e. */
  lemma ExtractionExact(inst: Instance, x: Grid, e: Grid)
    requires InHorizon(inst, x) && e <= x
    ensures var s := Extracted(x, e, |inst.activities|, inst.weeks);
            Distinct(s) && XOf(s) == x && EOf(s) == e
  {
    var s := Extracted(x, e, |inst.activities|, inst.weeks);
    ExtractedSound(x, e, |inst.activities|, inst.weeks);
    forall p | p in x ensures p in XOf(s) && (p in e ==> p in EOf(s)) {
      assert (p.0, p.1) in x;
      ExtractedListed(x, e, |inst.activities|, inst.weeks, p.0, p.1);
      var i :| 0 <= i < |s| && s[i].activity == p.0 && s[i].week == p.1;
    }
  }

  // --- the plan of (x, e) exists --------------------------------------------------------

  ghost function Completed(inst: Instance, x: Grid, s: seq<Access>): (r: seq<Access>)
    requires Wellformed(inst) && InHorizon(inst, x)
    requires forall i :: 0 <= i < |s| ==> (s[i].activity, s[i].week) in x
    ensures |r| == |s|
    ensures forall i :: 0 <= i < |s| ==>
      r[i] == s[i].(night := NightAt(inst, x, s[i].activity, s[i].week),
                    accessSeq := SeqOf(x, s[i].activity, s[i].week))
  {
    seq(|s|, i requires 0 <= i < |s| =>
      s[i].(night := NightAt(inst, x, s[i].activity, s[i].week),
            accessSeq := SeqOf(x, s[i].activity, s[i].week)))
  }

  lemma SameKeys(s: seq<Access>, r: seq<Access>)
    requires |s| == |r|
    requires forall i :: 0 <= i < |s| ==>
      r[i].activity == s[i].activity && r[i].week == s[i].week && r[i].eclo == s[i].eclo
    ensures XOf(r) == XOf(s) && EOf(r) == EOf(s) && (Distinct(s) ==> Distinct(r))
  {
    forall p ensures p in XOf(r) <==> p in XOf(s) {
      if p in XOf(r) {
        var i :| 0 <= i < |r| && p == (r[i].activity, r[i].week);
        AccessIn(s, i);
      }
      if p in XOf(s) {
        var i :| 0 <= i < |s| && p == (s[i].activity, s[i].week);
        AccessIn(r, i);
      }
    }
    forall p ensures p in EOf(r) <==> p in EOf(s) {
      if p in EOf(r) {
        var i :| 0 <= i < |r| && r[i].eclo && p == (r[i].activity, r[i].week);
        AccessIn(s, i);
      }
      if p in EOf(s) {
        var i :| 0 <= i < |s| && s[i].eclo && p == (s[i].activity, s[i].week);
        AccessIn(r, i);
      }
    }
  }

  ghost function SlotMap(inst: Instance, x: Grid): (m: Slots)
    requires Wellformed(inst) && InHorizon(inst, x)
    ensures m.Keys == Cells(inst, x)
    ensures forall k :: k in m ==> m[k] == Packed(inst, At(inst, x, k.0, k.1))
  {
    map k | k in Cells(inst, x) :: Packed(inst, At(inst, x, k.0, k.1))
  }

  ghost function UsedMap(inst: Instance, x: Grid): (m: map<Cell, int>)
    requires Wellformed(inst) && InHorizon(inst, x)
    ensures m.Keys == Cells(inst, x)
    ensures forall k :: k in m ==> m[k] == Needed(inst, At(inst, x, k.0, k.1))
  {
    map k | k in Cells(inst, x) :: Needed(inst, At(inst, x, k.0, k.1))
  }

  lemma AccessesExist(inst: Instance, x: Grid, e: Grid) returns (r: seq<Access>)
    requires Wellformed(inst) && InHorizon(inst, x) && e <= x
    ensures AccessesOf(inst, x, e, r)
  {
    var s := Extracted(x, e, |inst.activities|, inst.weeks);
    ExtractionExact(inst, x, e);
    forall i | 0 <= i < |s| ensures (s[i].activity, s[i].week) in x { AccessIn(s, i); }
    r := Completed(inst, x, s);
    SameKeys(s, r);
  }

  lemma PlanExists(inst: Instance, scen: Scenario, ov: seq<(string, int, int)>, x: Grid, e: Grid)
    returns (plan: Plan)
    requires Wellformed(inst) && InHorizon(inst, x) && e <= x
    ensures PlanOf(inst, scen, ov, x, e, plan)
  {
    var r := AccessesExist(inst, x, e);
    plan := Plan(scen, r, SlotMap(inst, x), UsedMap(inst, x), ResultRows(inst, scen, x, |inst.contracts|), ov);
  }

  // --- objective refinement ---------------------------------------------------------------

  /** A score day and an empty charge make the least overrun of the activity. */
  lemma LeastOverrunSplits(inst: Instance, x: Grid, e: Grid)
    requires Wellformed(inst) && InHorizon(inst, x) && e <= x && Workload(inst, x, e)
    ensures WeightedSum(inst, LeastOverruns(inst, x), |inst.activities|)
         == WeightedSum(inst, OverrunDays(inst, x), |inst.activities|)
            + WeightedSum(inst, EmptyDays(inst), |inst.activities|)
  {
    forall a | 0 <= a < |inst.activities|
      ensures LeastOverruns(inst, x)[a] == OverrunDays(inst, x)[a] + EmptyDays(inst)[a]
    {
      LastZero(inst, x, a);
      NoNightsMeansNoNeed(inst, x, e, a);
    }
    WeightedSumAdd(inst, OverrunDays(inst, x), EmptyDays(inst), LeastOverruns(inst, x), |inst.activities|);
  }

  lemma ScoredExcessAt(inst: Instance, plan: Plan, k: Cell, n: nat, p: int)
    requires forall j :: j in plan.slotsUsed ==> j.0 < |inst.locations|
    requires k in plan.slotsUsed && n == plan.slotsUsed[k] && p == EffectiveSupply(inst, plan.overrides, k.0, k.1)
    ensures ValueAt(ExcessOf(inst, plan), k) == Max0(n - p)
  {
  }

  lemma NothingPresent(inst: Instance, s: set<nat>)
    requires s == {}
    ensures Needed(inst, s) == 0
  {
    NeededAtMostAll(inst, s, 0);
  }

  lemma NeededExcessAt(inst: Instance, scen: Scenario, ov: seq<SupplyOverride>, x: Grid, k: Cell, n: nat, q: int)
    requires Wellformed(inst) && scen != A && CapacityCell(inst, k) && q == SolverSupply(inst, ov, k.0, k.1)
    requires Members(inst, At(inst, x, k.0, k.1)) && n == Needed(inst, At(inst, x, k.0, k.1))
    ensures ValueAt(ExcessNeeded(inst, scen, ov, x), k) == Max0(n - q)
  {
  }

  lemma EmptyExcess(inst: Instance, scen: Scenario, ov: seq<SupplyOverride>, x: Grid, k: Cell)
    requires Wellformed(inst) && k.0 < |inst.locations| && At(inst, x, k.0, k.1) == {}
    requires SolverSupply(inst, ov, k.0, k.1) >= 0
    ensures ValueAt(ExcessNeeded(inst, scen, ov, x), k) == 0
  {
    NothingPresent(inst, At(inst, x, k.0, k.1));
  }

  /** Between alike supplies, a group of the location's users is charged alike. */
  lemma ChargedAlike(inst: Instance, l: nat, p: int, q: int, s: set<nat>, n: nat)
    requires Wellformed(inst) && Alike(inst, l, p, q)
    requires s <= UsersOf(inst, l) && Members(inst, s) && n == Needed(inst, s)
    ensures Max0(n - p) == Max0(n - q)
  {
    UsersNeedLess(inst, l, s);
  }

  lemma AgreeAt(inst: Instance, ov: seq<SupplyOverride>, k: Cell)
    requires Wellformed(inst) && ValidOverrides(inst, ov) && SuppliesAgree(inst, ov) && CapacityCell(inst, k)
    ensures Alike(inst, k.0, EffectiveSupply(inst, Provenance(inst, ov), k.0, k.1), SolverSupply(inst, ov, k.0, k.1))
  {
  }

  lemma UsedIsNeeded(inst: Instance, x: Grid, plan: Plan, k: Cell)
    requires Wellformed(inst) && InHorizon(inst, x) && Members(inst, At(inst, x, k.0, k.1))
    requires SlotsOf(inst, x, plan.slots, plan.slotsUsed) && k in plan.slotsUsed
    ensures plan.slotsUsed[k] == Needed(inst, At(inst, x, k.0, k.1))
  {
    assert k in plan.slots;
  }

  /** The excess the score counts is, cell by cell, the least excess the constraints allow. */
  lemma ScoredExcess(inst: Instance, scen: Scenario, ov: seq<SupplyOverride>, x: Grid, plan: Plan, k: Cell)
    requires Wellformed(inst) && ValidOverrides(inst, ov) && SuppliesAgree(inst, ov) && InHorizon(inst, x)
    requires plan.overrides == Provenance(inst, ov) && SlotsOf(inst, x, plan.slots, plan.slotsUsed)
    requires forall j :: j in plan.slotsUsed ==> j.0 < |inst.locations|
    requires scen != A && k.0 < |inst.locations|
    ensures ValueAt(ExcessOf(inst, plan), k) == ValueAt(ExcessNeeded(inst, scen, ov, x), k)
  {
    CellsMember(inst, x, k.0, k.1);
    AtMembers(inst, x, k.0, k.1);
    if k in plan.slotsUsed {
      OccupiedHasRow(inst, x, k);
      UsedIsNeeded(inst, x, plan, k);
      AgreeAt(inst, ov, k);
      var n, p, q := plan.slotsUsed[k], EffectiveSupply(inst, plan.overrides, k.0, k.1),
      SolverSupply(inst, ov, k.0, k.1);
      ChargedAt(inst, x, k, p, q, n);
      ScoredExcessAt(inst, plan, k, n, p);
      NeededExcessAt(inst, scen, ov, x, k, n, q);
    } else {
      UnusedExcess(inst, scen, ov, x, plan, k);
    }
  }

  lemma ChargedAt(inst: Instance, x: Grid, k: Cell, p: int, q: int, n: nat)
    requires Wellformed(inst) && Alike(inst, k.0, p, q)
    requires Members(inst, At(inst, x, k.0, k.1)) && n == Needed(inst, At(inst, x, k.0, k.1))
    ensures Max0(n - p) == Max0(n - q)
  {
    AtIsOfUsers(inst, x, k.0, k.1);
    ChargedAlike(inst, k.0, p, q, At(inst, x, k.0, k.1), n);
  }

  lemma UnusedExcess(inst: Instance, scen: Scenario, ov: seq<SupplyOverride>, x: Grid, plan: Plan, k: Cell)
    requires Wellformed(inst) && ValidOverrides(inst, ov)
    requires k.0 < |inst.locations| && k !in plan.slotsUsed && At(inst, x, k.0, k.1) == {}
    requires forall j :: j in plan.slotsUsed ==> j.0 < |inst.locations|
    ensures ValueAt(ExcessOf(inst, plan), k) == ValueAt(ExcessNeeded(inst, scen, ov, x), k)
  {
    SupplyNonNegative(inst, ov, k.0, k.1);
    EmptyExcess(inst, scen, ov, x, k);
  }

  lemma ScoredExcessSum(inst: Instance, scen: Scenario, ov: seq<SupplyOverride>, x: Grid, plan: Plan)
    requires Wellformed(inst) && ValidOverrides(inst, ov) && SuppliesAgree(inst, ov) && InHorizon(inst, x)
    requires plan.overrides == Provenance(inst, ov) && SlotsOf(inst, x, plan.slots, plan.slotsUsed)
    requires LoadedSlots(inst, plan) && scen != A
    ensures GridSum(ExcessOf(inst, plan), |inst.locations|, inst.weeks)
         == GridSum(ExcessNeeded(inst, scen, ov, x), |inst.locations|, inst.weeks)
  {
    ScoredEverywhere(inst, scen, ov, x, plan);
    SameCellsSameSum(inst, ExcessOf(inst, plan), ExcessNeeded(inst, scen, ov, x));
  }

  lemma ScoredEverywhere(inst: Instance, scen: Scenario, ov: seq<SupplyOverride>, x: Grid, plan: Plan)
    requires Wellformed(inst) && ValidOverrides(inst, ov) && SuppliesAgree(inst, ov) && InHorizon(inst, x)
    requires plan.overrides == Provenance(inst, ov) && SlotsOf(inst, x, plan.slots, plan.slotsUsed)
    requires LoadedSlots(inst, plan) && scen != A
    ensures SameCells(inst, ExcessOf(inst, plan), ExcessNeeded(inst, scen, ov, x))
  {
    forall l: nat, w | l < |inst.locations| && 1 <= w <= inst.weeks
      ensures ValueAt(ExcessOf(inst, plan), (l, w)) == ValueAt(ExcessNeeded(inst, scen, ov, x), (l, w))
    {
      ScoredExcess(inst, scen, ov, x, plan, (l, w));
    }
  }

  /** A solution's own excess and overrun variables are no smaller than the least ones. */
  lemma VariablesAboveLeast(inst: Instance, scen: Scenario, ov: seq<SupplyOverride>, sol: Solution)
    requires Wellformed(inst) && Satisfies(inst, scen, ov, sol)
    ensures WeightedSum(inst, LeastOverruns(inst, sol.x), |inst.activities|)
         <= WeightedSum(inst, sol.overrun, |inst.activities|)
    ensures GridSum(ExcessNeeded(inst, scen, ov, sol.x), |inst.locations|, inst.weeks)
         <= GridSum(sol.excess, |inst.locations|, inst.weeks)
  {
    OverrunsAboveLeast(inst, scen, sol);
    ExcessAboveLeast(inst, scen, ov, sol.x, sol.excess);
  }

  lemma OverrunsAboveLeast(inst: Instance, scen: Scenario, sol: Solution)
    requires Wellformed(inst) && FirstAndLast(inst, sol) && Overruns(inst, scen, sol)
    ensures WeightedSum(inst, LeastOverruns(inst, sol.x), |inst.activities|)
         <= WeightedSum(inst, sol.overrun, |inst.activities|)
  {
    forall a: nat | a < |inst.activities| ensures LeastOverruns(inst, sol.x)[a] <= sol.overrun[a] {
      LastInProps(sol.x, a, inst.weeks);
      assert IsLast(inst.weeks, sol, a, sol.last[a]);
      var last: int := LastIn(sol.x, a, inst.weeks);
      assert last > 0 ==> Taken(sol, a, last);
    }
    WeightedSumLe(inst, LeastOverruns(inst, sol.x), sol.overrun, |inst.activities|);
  }

  lemma ExcessAboveLeast(inst: Instance, scen: Scenario, ov: seq<SupplyOverride>, x: Grid, excess: map<Cell, int>)
    requires Wellformed(inst) && Capacity(inst, scen, ov, x, excess)
    ensures GridSum(ExcessNeeded(inst, scen, ov, x), |inst.locations|, inst.weeks)
         <= GridSum(excess, |inst.locations|, inst.weeks)
  {
    CellsAboveLeast(inst, scen, ov, x, excess);
    CellwiseSums(inst, ExcessNeeded(inst, scen, ov, x), excess);
  }

  lemma CellsAboveLeast(inst: Instance, scen: Scenario, ov: seq<SupplyOverride>, x: Grid, excess: map<Cell, int>)
    requires Wellformed(inst) && Capacity(inst, scen, ov, x, excess)
    ensures CellwiseLe(inst, ExcessNeeded(inst, scen, ov, x), excess)
  {
    forall l: nat, w | l < |inst.locations| && 1 <= w <= inst.weeks
      ensures ValueAt(ExcessNeeded(inst, scen, ov, x), (l, w)) <= ValueAt(excess, (l, w))
    {
      CellAboveLeast(inst, scen, ov, x, excess, (l, w));
    }
  }

  lemma CellAboveLeast(inst: Instance, scen: Scenario, ov: seq<SupplyOverride>, x: Grid, excess: map<Cell, int>,
                       k: Cell)
    requires Wellformed(inst) && Capacity(inst, scen, ov, x, excess) && k.0 < |inst.locations|
    ensures ValueAt(ExcessNeeded(inst, scen, ov, x), k) <= ValueAt(excess, k)
  {
    if CapacityCell(inst, k) { RowAboveLeast(inst, scen, ov, x, ValueAt(excess, k), k); }
  }

  lemma RowAboveLeast(inst: Instance, scen: Scenario, ov: seq<SupplyOverride>, x: Grid, v: int, k: Cell)
    requires Wellformed(inst) && k.0 < |inst.locations| && CapacityRow(inst, scen, ov, x, v, k)
    ensures Shortfall(inst, ov, x, k) <= v
  {
    FitsIsNeeded(inst, At(inst, x, k.0, k.1), SolverSupply(inst, ov, k.0, k.1) + v);
  }

  /** The score's three parts in the plan of (x, e), plus the empty charge, are the cheapest solution's. */
  lemma CheapestIsScore(inst: Instance, scen: Scenario, ov: seq<SupplyOverride>, x: Grid, e: Grid, plan: Plan)
    requires Wellformed(inst) && ValidOverrides(inst, ov) && SuppliesAgree(inst, ov)
    requires InHorizon(inst, x) && e <= x && Workload(inst, x, e)
    requires PlanOf(inst, scen, Provenance(inst, ov), x, e, plan) && LoadedSlots(inst, plan)
    ensures Objective(inst, scen, Cheapest(inst, scen, ov, x, e)) == ScoreTenths(inst, plan) + EmptyCharge(inst, scen)
  {
    LeastOverrunSplits(inst, x, e);
    ScoredOverGrid(inst, plan);
    if scen != A { ScoredExcessSum(inst, scen, ov, x, plan); }
    EcloCountOfSet(plan.accesses);
  }

  /** No solution costs less than the cheapest one over the same nights. */
  lemma CheapestIsLeast(inst: Instance, scen: Scenario, ov: seq<SupplyOverride>, sol: Solution)
    requires Wellformed(inst) && Satisfies(inst, scen, ov, sol)
    ensures Objective(inst, scen, Cheapest(inst, scen, ov, sol.x, sol.e)) <= Objective(inst, scen, sol)
  {
    VariablesAboveLeast(inst, scen, ov, sol);
  }

  // --- a solution's nights obey the rules over (x, e) ----------------------------------------

  lemma WindowsTogether(inst: Instance, sol: Solution)
    requires InHorizon(inst, sol.e) && Windows(inst, C, sol)
    ensures EcloTogether(inst, sol.e)
  {
    forall p, q, line | p in sol.e && q in sol.e && ClosesLine(inst, p.0, line) && ClosesLine(inst, q.0, line)
      ensures q.1 - p.1 <= 1
    {
      assert line in sol.window;
      assert (p.0, p.1) in sol.e && (q.0, q.1) in sol.e;
    }
  }

  /** ECLO nights of p and q, at least two weeks apart, with a location of one line in the closure of each. */
  ghost predicate FarApart(inst: Instance, p: (nat, int), q: (nat, int), l: nat, m: nat) {
    && p.0 < |inst.activities| && q.0 < |inst.activities| && q.1 >= p.1 + 2
    && l in inst.activities[p.0].closure && m in inst.activities[q.0].closure
    && l < |inst.locations| && m < |inst.locations| && inst.locations[l].line == inst.locations[m].line
  }

  /** Under C no solution has such a pair of nights. */
  lemma SolutionsStayTogether(inst: Instance, ov: seq<SupplyOverride>, sol: Solution)
    requires Wellformed(inst) && Satisfies(inst, C, ov, sol)
    ensures forall p, q, l: nat, m: nat :: p in sol.e && q in sol.e ==> !FarApart(inst, p, q, l, m)
  {
    WindowsTogether(inst, sol);
    forall p, q, l: nat, m: nat | p in sol.e && q in sol.e && q.1 - p.1 <= 1 ensures !FarApart(inst, p, q, l, m) {}
    forall p, q, l: nat, m: nat | FarApart(inst, p, q, l, m)
      ensures ClosesLine(inst, p.0, inst.locations[l].line) && ClosesLine(inst, q.0, inst.locations[l].line)
    {
    }
  }

  /** The nights of an activity yield what it needs and less than one standard night more. */
  lemma SolutionsFillWorkload(inst: Instance, scen: Scenario, ov: seq<SupplyOverride>, sol: Solution, a: nat)
    requires Wellformed(inst) && Satisfies(inst, scen, ov, sol) && a < |inst.activities|
    ensures var taken, long := |set p | p in sol.x && p.0 == a|, |set p | p in sol.e && p.0 == a|;
      10 * inst.activities[a].total <= 10 * taken + 5 * long <= 10 * inst.activities[a].total + 9
  {
    assert Need(inst, a) <= NightYield(sol.x, sol.e, a) <= Need(inst, a) + STD_YIELD - 1;
    assert Row(sol.x, a) == set p | p in sol.x && p.0 == a;
    assert Row(sol.e, a) == set p | p in sol.e && p.0 == a;
  }

  /** The overrun variables reach the days from the planned date to the Sunday of the last week, and B allows none. */
  lemma SolutionsCountDays(inst: Instance, scen: Scenario, ov: seq<SupplyOverride>, sol: Solution, a: nat, w: int)
    requires Wellformed(inst) && Satisfies(inst, scen, ov, sol) && (a, w) in sol.x
    ensures a < |inst.activities| && inst.activities[a].earliest <= w <= inst.weeks
    ensures var days := inst.start + 7 * w - 1 - inst.contracts[inst.activities[a].contract].planned;
      sol.overrun[a] >= 0 && sol.overrun[a] >= days && (scen == B ==> days <= 0)
  {
    assert InHorizon(inst, sol.x);
    assert IsLast(inst.weeks, sol, a, sol.last[a]) && Taken(sol, a, w);
    assert ValidActivity(inst, inst.activities[a]);
  }

  lemma SolutionsAreMonotone(inst: Instance, scen: Scenario, ov: seq<SupplyOverride>, sol: Solution)
    requires Wellformed(inst) && Satisfies(inst, scen, ov, sol)
    ensures Monotone(inst, scen, ov, sol.x, sol.e, sol.excess)
  {
    if scen == C { WindowsTogether(inst, sol); }
    forall a: nat | a < |inst.activities| && inst.activities[a].predecessor.Some?
      ensures StrictlyAfter(sol.x, a, inst.activities[a].predecessor.value)
    {
      PrecedenceStrict(inst, sol, a);
    }
    ExcessBudget(inst, scen, ov, sol.x, sol.excess);
    if scen == B {
      forall p | p in sol.x && p.0 < |inst.activities| ensures 7 * p.1 <= PlannedDay(inst, p.0) {
        assert (p.0, p.1) in sol.x && IsLast(inst.weeks, sol, p.0, sol.last[p.0]) && Taken(sol, p.0, p.1);
      }
    }
  }

  lemma ExcessBudget(inst: Instance, scen: Scenario, ov: seq<SupplyOverride>, x: Grid, excess: map<Cell, int>)
    requires Wellformed(inst) && Capacity(inst, scen, ov, x, excess)
    ensures WithinBudget(inst, ov, x, excess) && BudgetOk(inst, scen, excess)
  {
    forall k | CapacityCell(inst, k)
      ensures Fits(inst, At(inst, x, k.0, k.1), SolverSupply(inst, ov, k.0, k.1) + ValueAt(excess, k))
      ensures 0 <= ValueAt(excess, k) <= Tolerance(scen)
    {
      assert CapacityRow(inst, scen, ov, x, ValueAt(excess, k), k);
      IndexCard(UsersOf(inst, k.0), |inst.activities|);
    }
  }

  /** Under B a late activity without work makes the constraint system unsatisfiable. */
  lemma LateEmptyInfeasible(inst: Instance, ov: seq<SupplyOverride>, sol: Solution)
    requires Wellformed(inst) && Satisfies(inst, B, ov, sol)
    ensures NoLateEmpty(inst)
  {
    forall a: nat | a < |inst.activities| ensures 0 <= PlannedDay(inst, a) {
      assert IsLast(inst.weeks, sol, a, sol.last[a]);
      assert (if Taken(sol, a, 1) then 1 else 0) <= sol.last[a];
    }
  }

  /** The cheapest solution over a solution's nights is itself a solution. */
  lemma CheapestOfSolution(inst: Instance, scen: Scenario, ov: seq<SupplyOverride>, sol: Solution)
    requires Wellformed(inst) && ValidOverrides(inst, ov) && Satisfies(inst, scen, ov, sol)
    ensures Satisfies(inst, scen, ov, Cheapest(inst, scen, ov, sol.x, sol.e))
  {
    SolutionsAreMonotone(inst, scen, ov, sol);
    if scen == B { LateEmptyInfeasible(inst, ov, sol); }
    CheapestSatisfies(inst, scen, ov, sol.x, sol.e, sol.excess);
  }

  ghost predicate Optimal(inst: Instance, scen: Scenario, ov: seq<SupplyOverride>, sol: Solution)
    requires Wellformed(inst)
  {
    && Satisfies(inst, scen, ov, sol)
    && forall other :: Satisfies(inst, scen, ov, other) ==>
         Objective(inst, scen, sol) <= Objective(inst, scen, other)
  }

  /** Objective refinement, lower bound: no solution over the plan's nights costs less than its score. */
  lemma ScoreIsLowerBound(inst: Instance, scen: Scenario, ov: seq<SupplyOverride>, sol: Solution, plan: Plan)
    requires Wellformed(inst) && ValidOverrides(inst, ov) && SuppliesAgree(inst, ov)
    requires Satisfies(inst, scen, ov, sol)
    requires PlanOf(inst, scen, Provenance(inst, ov), sol.x, sol.e, plan) && LoadedSlots(inst, plan)
    ensures Objective(inst, scen, Cheapest(inst, scen, ov, sol.x, sol.e))
        == ScoreTenths(inst, plan) + EmptyCharge(inst, scen)
    ensures ScoreTenths(inst, plan) + EmptyCharge(inst, scen) <= Objective(inst, scen, sol)
  {
    CheapestIsScore(inst, scen, ov, sol.x, sol.e, plan);
    CheapestIsLeast(inst, scen, ov, sol);
  }

  /** Objective refinement, attained: some solution over the plan's nights costs exactly its score. */
  lemma ScoreIsAttained(inst: Instance, scen: Scenario, ov: seq<SupplyOverride>, sol: Solution, plan: Plan)
    returns (cheap: Solution)
    requires Wellformed(inst) && ValidOverrides(inst, ov) && SuppliesAgree(inst, ov)
    requires Satisfies(inst, scen, ov, sol)
    requires PlanOf(inst, scen, Provenance(inst, ov), sol.x, sol.e, plan) && LoadedSlots(inst, plan)
    ensures Satisfies(inst, scen, ov, cheap) && cheap.x == sol.x && cheap.e == sol.e
    ensures Objective(inst, scen, cheap) == ScoreTenths(inst, plan) + EmptyCharge(inst, scen)
  {
    cheap := Cheapest(inst, scen, ov, sol.x, sol.e);
    ScoreIsLowerBound(inst, scen, ov, sol, plan);
    CheapestOfSolution(inst, scen, ov, sol);
  }

  // --- agreement --------------------------------------------------------------------------------

  /** A plan read back for this scenario and disruption that the checker accepts. */
  ghost predicate Checked(inst: Instance, scen: Scenario, ov: seq<SupplyOverride>, plan: Plan)
    requires Wellformed(inst) && ValidOverrides(inst, ov)
  {
    && Loaded(inst, plan) && plan.scenario == scen && plan.overrides == Provenance(inst, ov)
    && Accepts(inst, plan)
  }

  lemma SolvableIsChecked(inst: Instance, scen: Scenario, ov: seq<SupplyOverride>, sol: Solution) returns (plan: Plan)
    requires Valid(inst) && ValidOverrides(inst, ov) && (scen == B || CheckerCovers(inst, ov))
    requires Satisfies(inst, scen, ov, sol)
    ensures Checked(inst, scen, ov, plan) && (scen == B ==> NoLateEmpty(inst))
  {
    if scen == B { LateEmptyInfeasible(inst, ov, sol); }
    plan := PlanExists(inst, scen, Provenance(inst, ov), sol.x, sol.e);
    SolutionsAreAccepted(inst, scen, ov, sol, plan);
  }

  /**
   * The search has a solution exactly when some plan is accepted and, under B, no late activity is empty: under B
   * whatever the overrides, else when their disagreements cannot be felt.
   */
  lemma FeasibilityAgrees(inst: Instance, scen: Scenario, ov: seq<SupplyOverride>)
    requires Valid(inst) && ValidOverrides(inst, ov) && (scen == B || SuppliesAgree(inst, ov))
    ensures (exists sol :: Satisfies(inst, scen, ov, sol))
            <==> (exists plan :: Checked(inst, scen, ov, plan)) && (scen == B ==> NoLateEmpty(inst))
  {
    if sol :| Satisfies(inst, scen, ov, sol) {
      var plan := SolvableIsChecked(inst, scen, ov, sol);
    }
    if (exists plan :: Checked(inst, scen, ov, plan)) && (scen == B ==> NoLateEmpty(inst)) {
      var plan :| Checked(inst, scen, ov, plan);
      var sol := AcceptedPlansAreSolutions(inst, ov, plan);
    }
  }

  lemma OptimumIsScore(inst: Instance, scen: Scenario, ov: seq<SupplyOverride>, sol: Solution, plan: Plan)
    requires Valid(inst) && ValidOverrides(inst, ov) && SuppliesAgree(inst, ov)
    requires Optimal(inst, scen, ov, sol)
    requires PlanOf(inst, scen, Provenance(inst, ov), sol.x, sol.e, plan) && LoadedSlots(inst, plan)
    ensures Objective(inst, scen, sol) == ScoreTenths(inst, plan) + EmptyCharge(inst, scen)
  {
    ScoreIsLowerBound(inst, scen, ov, sol, plan);
    var cheap := ScoreIsAttained(inst, scen, ov, sol, plan);
  }

  lemma NoCheckedPlanIsCheaper(inst: Instance, scen: Scenario, ov: seq<SupplyOverride>, sol: Solution, other: Plan)
    requires Valid(inst) && ValidOverrides(inst, ov) && SuppliesAgree(inst, ov)
    requires Optimal(inst, scen, ov, sol) && Checked(inst, scen, ov, other)
    ensures Objective(inst, scen, sol) <= ScoreTenths(inst, other) + EmptyCharge(inst, scen)
  {
    if scen == B { LateEmptyInfeasible(inst, ov, sol); }
    var better := AcceptedPlansAreSolutions(inst, ov, other);
  }

  /** plan is accepted and no accepted plan of the scenario scores less. */
  ghost predicate BestChecked(inst: Instance, scen: Scenario, ov: seq<SupplyOverride>, plan: Plan)
    requires Wellformed(inst) && ValidOverrides(inst, ov)
  {
    && Checked(inst, scen, ov, plan)
    && forall other :: Checked(inst, scen, ov, other) ==> ScoreTenths(inst, plan) <= ScoreTenths(inst, other)
  }

  lemma NoneCheaper(inst: Instance, scen: Scenario, ov: seq<SupplyOverride>, sol: Solution, v: int)
    requires Valid(inst) && ValidOverrides(inst, ov) && SuppliesAgree(inst, ov) && Optimal(inst, scen, ov, sol)
    requires Objective(inst, scen, sol) == v + EmptyCharge(inst, scen)
    ensures forall other :: Checked(inst, scen, ov, other) ==> v <= ScoreTenths(inst, other)
  {
    forall other | Checked(inst, scen, ov, other) ensures v <= ScoreTenths(inst, other) {
      NoCheckedPlanIsCheaper(inst, scen, ov, sol, other);
    }
  }

  /** An optimal solution becomes an accepted plan, and no accepted plan of the scenario scores less. */
  lemma OptimumAgrees(inst: Instance, scen: Scenario, ov: seq<SupplyOverride>, sol: Solution, plan: Plan)
    requires Valid(inst) && ValidOverrides(inst, ov) && SuppliesAgree(inst, ov)
    requires Optimal(inst, scen, ov, sol)
    requires PlanOf(inst, scen, Provenance(inst, ov), sol.x, sol.e, plan)
    ensures BestChecked(inst, scen, ov, plan)
    ensures Objective(inst, scen, sol) == ScoreTenths(inst, plan) + EmptyCharge(inst, scen)
  {
    SolutionsAreAccepted(inst, scen, ov, sol, plan);
    OptimumIsScore(inst, scen, ov, sol, plan);
    NoneCheaper(inst, scen, ov, sol, ScoreTenths(inst, plan));
  }

  /** The solver's optimum is the score itself exactly when no empty activity is charged. */
  lemma {:induction false} ChargeZero(inst: Instance, n: nat)
    requires Wellformed(inst) && n <= |inst.activities|
    ensures WeightedSum(inst, EmptyDays(inst), n) >= 0
    ensures WeightedSum(inst, EmptyDays(inst), n) == 0 <==> forall a: nat :: a < n ==> !LateEmpty(inst, a)
  {
    if n > 0 {
      ChargeZero(inst, n - 1);
      var k, d := ActivityWeight(inst, n - 1), EmptyDays(inst)[n - 1];
      PositiveProduct(k, d);
      assert d == 0 <==> !LateEmpty(inst, n - 1);
    }
  }

  lemma PositiveProduct(k: nat, d: int)
    requires k > 0 && d >= 0
    ensures k * d >= 0 && (k * d == 0 <==> d == 0)
  {
  }

  lemma EmptyChargeExact(inst: Instance, scen: Scenario)
    requires Wellformed(inst)
    ensures EmptyCharge(inst, scen) >= 0
    ensures EmptyCharge(inst, scen) == 0 <==> scen == B || NoLateEmpty(inst)
  {
    ChargeZero(inst, |inst.activities|);
    assert (forall a: nat :: a < |inst.activities| ==> !LateEmpty(inst, a)) <==> NoLateEmpty(inst);
  }
}
