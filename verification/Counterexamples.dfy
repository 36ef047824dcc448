/** One site, one access, two weeks: disruptions for which repair, or acceptance, falls short of its promise. */
module Counterexamples {
  import opened Counting
  import opened Model
  import opened Packing
  import opened Plans
  import opened Solver
  import opened Supplies
  import opened Checker
  import opened Soundness
  import opened Completeness
  import opened Optimum
  import opened Changes
  import opened Reports
  import opened Repair
  import opened Promise

  const WORKS := Contract("N", NonLiveOthers, 1, 13, 1, PM, 1)
  const TASK := Activity("T", 0, 1, None, 1, 1, [0], [0], [0], false)
  const FREE := Hypothesis({}, {})

  /** The site with supply n; its one activity may work in either week. */
  function Small(n: nat): Instance {
    Instance(0, 2, [Location("L", Sector, "X", "S", EB, n, 0)], [WORKS], [TASK], [])
  }

  /** Supply 1 cut to nothing in both weeks. */
  const CUT := [SupplyOverride(0, 1, 0), SupplyOverride(0, 2, 0)]

  /** Supply 0 raised to 1 in week 1. */
  const RAISE := [SupplyOverride(0, 1, 1)]

  /** Week 1 named twice: the constraints read supply 1, the checker supply 0. */
  const TWICE := [SupplyOverride(0, 1, 0), SupplyOverride(0, 1, 1)]

  ghost function Only(v: int): Grid { {(0, v)} }

  lemma SmallIsValid(n: nat)
    ensures Valid(Small(n)) && NoLateEmpty(Small(n))
    ensures ValidOverrides(Small(n), CUT) && ValidOverrides(Small(n), RAISE) && ValidOverrides(Small(n), TWICE)
  {
    assert ValidActivity(Small(n), TASK);
    assert Small(n).activities[0] == TASK && Small(n).contracts[0] == WORKS;
    assert PlannedDay(Small(n), 0) == 14;
  }

  function SupplyIn(n: nat, ov: seq<SupplyOverride>, w: int): int {
    SolverSupply(Small(n), ov, 0, w)
  }

  lemma SuppliesHere(n: nat, w: int)
    requires 1 <= w <= 2
    ensures SupplyIn(n, [], w) == n && SupplyIn(n, CUT, w) == 0
    ensures SupplyIn(n, RAISE, w) == (if w == 1 then 1 else n) && SupplyIn(n, TWICE, w) == if w == 1 then 1 else n
  {
    assert CUT[..1] == [SupplyOverride(0, 1, 0)] && TWICE[..1] == [SupplyOverride(0, 1, 0)];
    assert CUT[..1][..0] == [] && RAISE[..0] == [];
    assert SolverSupply(Small(n), CUT[..1], 0, w) == if w == 1 then 0 else n;
  }

  lemma AtOnly(n: nat, v: int, w: int)
    ensures At(Small(n), Only(v), 0, w) == if w == v then {0} else {}
    ensures Bucket(Small(n), Only(v), 0, w) == if w == v then {0} else {}
  {
    assert Small(n).activities[0] == TASK;
  }

  lemma NeededHere(n: nat, s: set<nat>)
    requires s <= {0}
    ensures Members(Small(n), s) && Needed(Small(n), s) == |s|
  {
    assert Small(n).activities[0] == TASK && Small(n).contracts[0] == WORKS;
    assert OfType(Small(n), s, PM) == s && OfType(Small(n), s, PC) == {} && OfType(Small(n), s, CO) == {};
  }

  lemma RowsHere(n: nat, k: Cell)
    ensures CapacityCell(Small(n), k) <==> k.0 == 0 && 1 <= k.1 <= 2
  {
    assert Small(n).activities[0] == TASK;
    assert 0 in UsersOf(Small(n), 0);
  }

  lemma ExcessIn(n: nat, ov: seq<SupplyOverride>, x: Grid, w: int)
    requires Wellformed(Small(n)) && 1 <= w <= 2
    ensures ValueAt(ExcessNeeded(Small(n), B, ov, x), (0, w)) == Max0(|At(Small(n), x, 0, w)| - SupplyIn(n, ov, w))
  {
    var s := At(Small(n), x, 0, w);
    RowsHere(n, (0, w));
    NeededHere(n, s);
    NeededExcessAt(Small(n), B, ov, x, (0, w), |s|, SupplyIn(n, ov, w));
  }

  /** The excess charged is one per activity-week above supply. */
  lemma ExcessHere(n: nat, ov: seq<SupplyOverride>, x: Grid)
    requires Wellformed(Small(n))
    ensures ExcessSum(Small(n), B, ov, x)
         == Max0(|At(Small(n), x, 0, 1)| - SupplyIn(n, ov, 1)) + Max0(|At(Small(n), x, 0, 2)| - SupplyIn(n, ov, 2))
  {
    var m := ExcessNeeded(Small(n), B, ov, x);
    ExcessIn(n, ov, x, 1);
    ExcessIn(n, ov, x, 2);
    assert GridSum(m, 1, 2) == GridSum(m, 0, 2) + WeekSum(m, 0, 2);
    assert WeekSum(m, 0, 2) == WeekSum(m, 0, 0) + ValueAt(m, (0, 1)) + ValueAt(m, (0, 2));
  }

  // --- working in one week --------------------------------------------------------------------------

  lemma OnlyFits(n: nat, ov: seq<SupplyOverride>, v: int, budget: map<Cell, int>, k: Cell)
    requires Wellformed(Small(n)) && ValidOverrides(Small(n), ov) && CapacityCell(Small(n), k)
    requires k.1 == v ==> SupplyIn(n, ov, v) + ValueAt(budget, k) >= 1
    requires ValueAt(budget, k) >= 0
    ensures Fits(Small(n), At(Small(n), Only(v), k.0, k.1), SolverSupply(Small(n), ov, k.0, k.1) + ValueAt(budget, k))
  {
    RowsHere(n, k);
    SupplyNonNegative(Small(n), ov, 0, k.1);
    AtOnly(n, v, k.1);
    var s := At(Small(n), Only(v), 0, k.1);
    NeededHere(n, s);
    FitsIsNeeded(Small(n), s, SupplyIn(n, ov, k.1) + ValueAt(budget, k));
  }

  ghost function Spare(scen: Scenario): map<Cell, int> {
    if scen == B then map[(0, 1) := 1, (0, 2) := 1] else map[]
  }

  lemma SpareIsEnough(n: nat, ov: seq<SupplyOverride>, scen: Scenario, v: int)
    requires Wellformed(Small(n)) && ValidOverrides(Small(n), ov) && 1 <= v <= 2
    requires scen == B || SupplyIn(n, ov, v) >= 1
    ensures WithinBudget(Small(n), ov, Only(v), Spare(scen)) && BudgetOk(Small(n), scen, Spare(scen))
  {
    forall k | CapacityCell(Small(n), k)
      ensures Fits(Small(n), At(Small(n), Only(v), k.0, k.1),
                   SolverSupply(Small(n), ov, k.0, k.1) + ValueAt(Spare(scen), k))
    {
      RowsHere(n, k);
      assert k == (0, k.1);
      SupplyNonNegative(Small(n), ov, 0, v);
      OnlyFits(n, ov, v, Spare(scen), k);
    }
    forall k ensures CapacityCell(Small(n), k) ==> 0 <= ValueAt(Spare(scen), k) <= Tolerance(scen) {}
  }

  lemma OneAWeek(n: nat, v: int)
    requires Wellformed(Small(n)) && 1 <= v <= 2
    ensures WeeklyAllocation(Small(n), Only(v))
  {
    forall c: nat, w | c < 1 && 1 <= w <= 2 ensures |Bucket(Small(n), Only(v), c, w)| <= 1 { AtOnly(n, v, w); }
    assert Small(n).contracts[0] == WORKS;
  }

  lemma OnlyIsMonotone(n: nat, ov: seq<SupplyOverride>, scen: Scenario, v: int)
    requires Wellformed(Small(n)) && ValidOverrides(Small(n), ov) && 1 <= v <= 2
    requires scen == B || SupplyIn(n, ov, v) >= 1
    ensures Monotone(Small(n), scen, ov, Only(v), {}, Spare(scen))
  {
    SpareIsEnough(n, ov, scen, v);
    OneAWeek(n, v);
    assert Small(n).activities[0] == TASK && PlannedDay(Small(n), 0) == 14;
  }

  lemma OnlySatisfies(n: nat, ov: seq<SupplyOverride>, scen: Scenario, v: int)
    requires Wellformed(Small(n)) && NoLateEmpty(Small(n)) && ValidOverrides(Small(n), ov) && 1 <= v <= 2
    requires scen == B || SupplyIn(n, ov, v) >= 1
    ensures Satisfies(Small(n), scen, ov, Cheapest(Small(n), scen, ov, Only(v), {}))
  {
    OnlyIsMonotone(n, ov, scen, v);
    assert Row(Only(v), 0) == Only(v) && Row({}, 0) == {};
    CheapestSatisfies(Small(n), scen, ov, Only(v), {}, Spare(scen));
  }

  lemma OnlyExcess(n: nat, ov: seq<SupplyOverride>, v: int)
    requires Wellformed(Small(n)) && ValidOverrides(Small(n), ov) && 1 <= v <= 2
    ensures ExcessSum(Small(n), B, ov, Only(v)) == Max0(1 - SupplyIn(n, ov, v))
  {
    AtOnly(n, v, 1);
    AtOnly(n, v, 2);
    SupplyNonNegative(Small(n), ov, 0, 1);
    SupplyNonNegative(Small(n), ov, 0, 2);
    ExcessHere(n, ov, Only(v));
  }

  lemma OnlyCost(n: nat, ov: seq<SupplyOverride>, v: int)
    requires Wellformed(Small(n)) && ValidOverrides(Small(n), ov) && 1 <= v <= 2
    ensures PlanCost(Small(n), B, ov, Only(v), {}) == 70 * Max0(1 - SupplyIn(n, ov, v))
  {
    OnlyExcess(n, ov, v);
    CostUnderB(Small(n), ov, Only(v), {});
  }

  lemma OnlyReport(n: nat, v: int)
    requires Wellformed(Small(n)) && 1 <= v <= 2
    ensures NominalScore(Small(n), B, Only(v), {}) == 70 * Max0(1 - n)
  {
    SuppliesHere(n, v);
    OnlyExcess(n, [], v);
    CostUnderB(Small(n), [], Only(v), {});
  }

  /** Under B, working in week v costs one excess night unless that week's disrupted supply covers it. */
  lemma OnlyIsAnswer(n: nat, ov: seq<SupplyOverride>, v: int) returns (sol: Solution)
    requires Wellformed(Small(n)) && NoLateEmpty(Small(n)) && ValidOverrides(Small(n), ov) && 1 <= v <= 2
    ensures Answers(Small(n), B, ov, FREE, sol) && sol.x == Only(v) && sol.e == {}
    ensures Objective(Small(n), B, sol) == PlanCost(Small(n), B, ov, sol.x, sol.e) == 70 * Max0(1 - SupplyIn(n, ov, v))
    ensures NominalScore(Small(n), B, sol.x, sol.e) == 70 * Max0(1 - n)
  {
    sol := Cheapest(Small(n), B, ov, Only(v), {});
    OnlySatisfies(n, ov, B, v);
    OnlyCost(n, ov, v);
    OnlyReport(n, v);
  }

  // --- every solution works in some week -----------------------------------------------------------

  lemma WorksSomewhere(n: nat, x: Grid, e: Grid) returns (w: int)
    requires Wellformed(Small(n)) && InHorizon(Small(n), x) && e <= x && Workload(Small(n), x, e)
    ensures 1 <= w <= 2 && At(Small(n), x, 0, w) == {0}
  {
    assert Need(Small(n), 0) == 10;
    CardPositive(Row(x, 0));
    CardLe(Row(e, 0), Row(x, 0));
    assert Row(x, 0) != {};
    var p: (nat, int) :| p in Row(x, 0);
    var a;
    a, w := p.0, p.1;
    assert p == (a, w) && (a, w) in x;
    assert Small(n).activities[0] == TASK;
  }

  lemma WeekExcess(n: nat, ov: seq<SupplyOverride>, x: Grid, w: int)
    requires Wellformed(Small(n)) && 1 <= w <= 2 && At(Small(n), x, 0, w) == {0}
    ensures ExcessSum(Small(n), B, ov, x) >= Max0(1 - SupplyIn(n, ov, w))
  {
    ExcessHere(n, ov, x);
    assert |At(Small(n), x, 0, w)| == 1;
  }

  /** Under B a solution costs at least the excess of a week it works in. */
  lemma CostsAWeek(n: nat, ov: seq<SupplyOverride>, sol: Solution) returns (w: int)
    requires Wellformed(Small(n)) && ValidOverrides(Small(n), ov) && Satisfies(Small(n), B, ov, sol)
    ensures 1 <= w <= 2 && Objective(Small(n), B, sol) >= 70 * Max0(1 - SupplyIn(n, ov, w))
  {
    w := WorksSomewhere(n, sol.x, sol.e);
    WeekExcess(n, ov, sol.x, w);
    CostUnderB(Small(n), ov, sol.x, sol.e);
    CheapestIsLeast(Small(n), B, ov, sol);
  }

  /** No answer costs less than the excess a week of the larger supply leaves. */
  lemma CostsAtLeast(n: nat, ov: seq<SupplyOverride>, top: int, sol: Solution)
    requires Wellformed(Small(n)) && ValidOverrides(Small(n), ov) && Satisfies(Small(n), B, ov, sol)
    requires SupplyIn(n, ov, 1) <= top && SupplyIn(n, ov, 2) <= top
    ensures Objective(Small(n), B, sol) >= 70 * Max0(1 - top)
  {
    var w := CostsAWeek(n, ov, sol);
    assert SupplyIn(n, ov, w) <= top;
  }

  lemma BestHere(n: nat, ov: seq<SupplyOverride>, top: int, sol: Solution)
    requires Wellformed(Small(n)) && ValidOverrides(Small(n), ov) && Answers(Small(n), B, ov, FREE, sol)
    requires SupplyIn(n, ov, 1) <= top && SupplyIn(n, ov, 2) <= top
    requires Objective(Small(n), B, sol) == 70 * Max0(1 - top)
    ensures Best(Small(n), B, ov, FREE, sol)
  {
    forall other | Answers(Small(n), B, ov, FREE, other)
      ensures Objective(Small(n), B, sol) <= Objective(Small(n), B, other)
    {
      CostsAtLeast(n, ov, top, other);
    }
  }

  /** A best answer, working in a week v of the larger supply. */
  lemma BestIn(n: nat, ov: seq<SupplyOverride>, v: int, top: int) returns (sol: Solution)
    requires Wellformed(Small(n)) && NoLateEmpty(Small(n)) && ValidOverrides(Small(n), ov) && 1 <= v <= 2
    requires SupplyIn(n, ov, v) == top && SupplyIn(n, ov, 3 - v) <= top
    ensures Best(Small(n), B, ov, FREE, sol) && BestPlan(Small(n), B, ov, FREE, sol) && sol.x == Only(v)
    ensures Objective(Small(n), B, sol) == PlanCost(Small(n), B, ov, sol.x, sol.e) == 70 * Max0(1 - top)
    ensures NominalScore(Small(n), B, sol.x, sol.e) == 70 * Max0(1 - n)
  {
    sol := OnlyIsAnswer(n, ov, v);
    BestHere(n, ov, top, sol);
    BestIsBestPlan(Small(n), B, ov, FREE, sol);
  }

  lemma DifferenceOfWeeks(v: int, w: int)
    ensures Difference(Only(v), Only(w)) == if v == w then 0 else 2
  {
    if v != w {
      assert Only(v) - Only(w) == Only(v) && Only(w) - Only(v) == Only(w);
    }
  }

  // --- a cut: the second pass has nothing to search -----------------------------------------------------

  lemma CutSupplies()
    ensures forall w :: 1 <= w <= 2 ==> SupplyIn(1, CUT, w) == 0
  {
    SuppliesHere(1, 1);
    SuppliesHere(1, 2);
  }

  lemma CutLeavesNothing(n: nat, ov: seq<SupplyOverride>, lock: int, first: Solution, second: Option<Solution>)
    requires Wellformed(Small(n)) && ValidOverrides(Small(n), ov) && Best(Small(n), B, ov, FREE, first)
    requires lock < Objective(Small(n), B, first) && LeastChurn(Small(n), B, ov, FREE, lock, Only(2), second)
    ensures second == None
  {
    forall sol ensures !Locked(Small(n), B, ov, FREE, lock, sol) { NotLocked(Small(n), B, ov, FREE, lock, first, sol); }
  }

  lemma KeepingChangesLess(n: nat, ov: seq<SupplyOverride>, first: Solution, kept: Solution)
    requires Wellformed(Small(n)) && BestPlan(Small(n), B, ov, FREE, kept)
    requires first.x == Only(1) && kept.x == Only(2)
    ensures Difference(kept.x, Only(2)) == 0 && !Lexicographic(Small(n), B, ov, FREE, Only(2), first)
  {
    DifferenceOfWeeks(1, 2);
    DifferenceOfWeeks(2, 2);
  }

  /** The first answer stands, though a plan as good would change nothing. */
  ghost predicate KeepsTooLittle(n: nat, ov: seq<SupplyOverride>, first: Solution, kept: Solution)
    requires Wellformed(Small(n))
  {
    && Best(Small(n), B, ov, FREE, first) && BestPlan(Small(n), B, ov, FREE, kept)
    && (forall second ::
          LeastChurn(Small(n), B, ov, FREE, NominalScore(Small(n), B, first.x, first.e), Only(2), second)
          ==> second == None)
    && Difference(kept.x, Only(2)) == 0 && !Lexicographic(Small(n), B, ov, FREE, Only(2), first)
  }

  lemma KeptTooLittle(n: nat, ov: seq<SupplyOverride>, lock: int, first: Solution, kept: Solution)
    requires Wellformed(Small(n)) && ValidOverrides(Small(n), ov)
    requires Best(Small(n), B, ov, FREE, first) && BestPlan(Small(n), B, ov, FREE, kept)
    requires first.x == Only(1) && kept.x == Only(2)
    requires NominalScore(Small(n), B, first.x, first.e) == lock < Objective(Small(n), B, first)
    ensures KeepsTooLittle(n, ov, first, kept)
  {
    forall second | LeastChurn(Small(n), B, ov, FREE, lock, Only(2), second) ensures second == None {
      CutLeavesNothing(n, ov, lock, first, second);
    }
    KeepingChangesLess(n, ov, first, kept);
  }

  /**
   * Any cut of all supply: both weeks are best and the baseline works in week 2, yet when the first pass answers week
   * 1 the second pass has nothing to search, so the repair changes two activity-weeks where none need change.
   */
  lemma CutDefeats(n: nat, ov: seq<SupplyOverride>) returns (first: Solution, kept: Solution)
    requires Wellformed(Small(n)) && NoLateEmpty(Small(n)) && ValidOverrides(Small(n), ov)
    requires n >= 1 && SupplyIn(n, ov, 1) == 0 && SupplyIn(n, ov, 2) == 0
    ensures KeepsTooLittle(n, ov, first, kept) && !PromiseKept(Small(n), B, ov, FREE)
  {
    first := BestIn(n, ov, 1, 0);
    kept := BestIn(n, ov, 2, 0);
    KeptTooLittle(n, ov, 0, first, kept);
    CutBreaks(n, ov, 0, first, kept);
  }

  lemma CutBreaks(n: nat, ov: seq<SupplyOverride>, lock: int, first: Solution, kept: Solution)
    requires Wellformed(Small(n)) && ValidOverrides(Small(n), ov)
    requires BestPlan(Small(n), B, ov, FREE, first) && BestPlan(Small(n), B, ov, FREE, kept)
    requires first.x == Only(1) && kept.x == Only(2)
    requires NominalScore(Small(n), B, first.x, first.e) == lock < PlanCost(Small(n), B, ov, first.x, first.e)
    ensures !PromiseKept(Small(n), B, ov, FREE)
  {
    DifferenceOfWeeks(1, 2);
    DifferenceFromItself(first.x, kept.x);
    CostSplits(Small(n), B, ov, first);
    HiddenCostBreaks(Small(n), B, ov, FREE, first, kept);
  }

  lemma CutDefeatsRepair() returns (first: Solution, kept: Solution)
    ensures Valid(Small(1)) && ValidOverrides(Small(1), CUT) && KeepsTooLittle(1, CUT, first, kept)
    ensures !PromiseKept(Small(1), B, CUT, FREE)
  {
    SmallIsValid(1);
    CutSupplies();
    first, kept := CutDefeats(1, CUT);
  }

  // --- a raise: the second pass trades the optimum away --------------------------------------------------

  lemma DearerIsNotBest(n: nat, ov: seq<SupplyOverride>, first: Solution, second: Solution)
    requires Wellformed(Small(n)) && Answers(Small(n), B, ov, FREE, first)
    requires PlanCost(Small(n), B, ov, first.x, first.e) < PlanCost(Small(n), B, ov, second.x, second.e)
    ensures !BestPlan(Small(n), B, ov, FREE, second)
  {
  }

  /** The second answer replaces a best plan by a dearer one. */
  ghost predicate TradesAway(n: nat, ov: seq<SupplyOverride>, first: Solution, second: Solution)
    requires Wellformed(Small(n))
  {
    && Best(Small(n), B, ov, FREE, first)
    && LeastChurn(Small(n), B, ov, FREE, NominalScore(Small(n), B, first.x, first.e), Only(2), Some(second))
    && Chosen(Small(n), B, first, Some(second)) == second
    && !BestPlan(Small(n), B, ov, FREE, second)
  }

  /** Both report the same score, the second keeps the baseline and lies within the lock, and it is dearer. */
  ghost predicate TradeReady(n: nat, ov: seq<SupplyOverride>, lock: int, first: Solution, second: Solution)
    requires Wellformed(Small(n))
  {
    && Best(Small(n), B, ov, FREE, first) && second.x == Only(2)
    && NominalScore(Small(n), B, first.x, first.e) == lock
    && NominalScore(Small(n), B, second.x, second.e) == lock
    && Locked(Small(n), B, ov, FREE, lock, second)
    && PlanCost(Small(n), B, ov, first.x, first.e) < PlanCost(Small(n), B, ov, second.x, second.e)
  }

  lemma TradeIsMade(n: nat, ov: seq<SupplyOverride>, lock: int, first: Solution, second: Solution)
    requires Wellformed(Small(n)) && TradeReady(n, ov, lock, first, second)
    ensures TradesAway(n, ov, first, second)
  {
    UnchangedIsLeast(Small(n), B, ov, FREE, lock, second);
    DearerIsNotBest(n, ov, first, second);
  }

  lemma RaiseBreaks(n: nat, ov: seq<SupplyOverride>, lock: int, first: Solution, second: Solution)
    requires Wellformed(Small(n)) && ValidOverrides(Small(n), ov) && TradeReady(n, ov, lock, first, second)
    ensures !PromiseKept(Small(n), B, ov, FREE)
  {
    CostSplits(Small(n), B, ov, first);
    CostSplits(Small(n), B, ov, second);
    TwinTaken(Small(n), B, ov, FREE, first, second);
  }

  /** Where supply reaches the one need in week 1, a best plan works there for nothing. */
  lemma FreeInWeek1(n: nat, ov: seq<SupplyOverride>, top: int, report: int) returns (first: Solution)
    requires Wellformed(Small(n)) && NoLateEmpty(Small(n)) && ValidOverrides(Small(n), ov)
    requires SupplyIn(n, ov, 1) == top >= 1 && SupplyIn(n, ov, 2) <= top && report == 70 * Max0(1 - n)
    ensures Best(Small(n), B, ov, FREE, first) && PlanCost(Small(n), B, ov, first.x, first.e) == 0
    ensures NominalScore(Small(n), B, first.x, first.e) == report
  {
    first := BestIn(n, ov, 1, top);
  }

  /** Without supply in week 2, working there costs an excess night. */
  lemma PaidInWeek2(n: nat, ov: seq<SupplyOverride>, report: int) returns (second: Solution)
    requires Wellformed(Small(n)) && NoLateEmpty(Small(n)) && ValidOverrides(Small(n), ov)
    requires SupplyIn(n, ov, 2) == 0 && report == 70 * Max0(1 - n)
    ensures Answers(Small(n), B, ov, FREE, second) && second.x == Only(2)
    ensures Objective(Small(n), B, second) == PlanCost(Small(n), B, ov, second.x, second.e) == 70
    ensures NominalScore(Small(n), B, second.x, second.e) == report
  {
    second := OnlyIsAnswer(n, ov, 2);
  }

  lemma RaiseTrades(n: nat, ov: seq<SupplyOverride>) returns (first: Solution, second: Solution)
    requires Wellformed(Small(n)) && NoLateEmpty(Small(n)) && ValidOverrides(Small(n), ov)
    requires n == 0 && SupplyIn(n, ov, 1) >= 1 && SupplyIn(n, ov, 2) == 0
    ensures TradeReady(n, ov, 70, first, second)
  {
    first := FreeInWeek1(n, ov, SupplyIn(n, ov, 1), 70);
    second := PaidInWeek2(n, ov, 70);
  }

  /**
   * Any raise from nothing in week 1 alone: week 1 is free and week 2 costs an excess night, but both report one. The
   * first pass answers week 1; with the baseline in week 2 the second answers week 2, reports the same score, and
   * replaces an optimum by a dearer plan.
   */
  lemma RaiseDefeats(n: nat, ov: seq<SupplyOverride>) returns (first: Solution, second: Solution)
    requires Wellformed(Small(n)) && NoLateEmpty(Small(n)) && ValidOverrides(Small(n), ov)
    requires n == 0 && SupplyIn(n, ov, 1) >= 1 && SupplyIn(n, ov, 2) == 0
    ensures TradesAway(n, ov, first, second) && !PromiseKept(Small(n), B, ov, FREE)
  {
    first, second := RaiseTrades(n, ov);
    TradeIsMade(n, ov, 70, first, second);
    RaiseBreaks(n, ov, 70, first, second);
  }

  lemma RaiseDefeatsRepair() returns (first: Solution, second: Solution)
    ensures Valid(Small(0)) && ValidOverrides(Small(0), RAISE) && TradesAway(0, RAISE, first, second)
    ensures !PromiseKept(Small(0), B, RAISE, FREE)
  {
    SmallIsValid(0);
    SuppliesHere(0, 1);
    SuppliesHere(0, 2);
    first, second := RaiseDefeats(0, RAISE);
  }

  // --- a location-week named twice: the checker refuses what the constraints allow ------------------------

  lemma CheckerReadsFirst()
    requires ValidOverrides(Small(1), TWICE)
    ensures EffectiveSupply(Small(1), Provenance(Small(1), TWICE), 0, 1) == 0
  {
    assert Provenance(Small(1), TWICE)[0] == ("L", 1, 0);
  }

  lemma TooTight(n: nat, ov: seq<SupplyOverride>)
    requires Wellformed(Small(n)) && ValidOverrides(Small(n), ov)
    requires EffectiveSupply(Small(n), Provenance(Small(n), ov), 0, 1) == 0 && InHorizon(Small(n), Only(1))
    ensures !FitsRecorded(Small(n), A, ov, Only(1))
  {
    AtOnly(n, 1, 1);
    NeededHere(n, {0});
    CellsMember(Small(n), Only(1), 0, 1);
    var k: Cell := (0, 1);
    assert k in Cells(Small(n), Only(1));
  }

  lemma NoneAccepted(n: nat, ov: seq<SupplyOverride>, sol: Solution)
    requires Valid(Small(n)) && ValidOverrides(Small(n), ov) && Satisfies(Small(n), A, ov, sol)
    requires !FitsRecorded(Small(n), A, ov, sol.x)
    ensures forall plan :: PlanOf(Small(n), A, Provenance(Small(n), ov), sol.x, sol.e, plan) ==>
              Loaded(Small(n), plan) && !Accepts(Small(n), plan)
  {
    forall plan | PlanOf(Small(n), A, Provenance(Small(n), ov), sol.x, sol.e, plan)
      ensures Loaded(Small(n), plan) && !Accepts(Small(n), plan)
    {
      AcceptanceExact(Small(n), A, ov, sol, plan);
    }
  }

  /** Under A, a solution whose plan breaks the supply rule of the checker. */
  lemma DisagreementIsRefused() returns (sol: Solution)
    ensures Valid(Small(1)) && ValidOverrides(Small(1), TWICE) && Satisfies(Small(1), A, TWICE, sol)
    ensures forall plan :: PlanOf(Small(1), A, Provenance(Small(1), TWICE), sol.x, sol.e, plan) ==>
              Loaded(Small(1), plan) && !Accepts(Small(1), plan)
  {
    SmallIsValid(1);
    SuppliesHere(1, 1);
    OnlySatisfies(1, TWICE, A, 1);
    sol := Cheapest(Small(1), A, TWICE, Only(1), {});
    CheckerReadsFirst();
    TooTight(1, TWICE);
    NoneAccepted(1, TWICE, sol);
  }
}
