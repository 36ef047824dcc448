/** Repairing a disrupted plan: the objective first, then the fewest changed activity-weeks. */
module Repair {
  import opened Model
  import opened Solver
  import opened Completeness
  import opened Optimum
  import opened Changes
  import opened Reports
  import opened Disruptions

  // --- answers -----------------------------------------------------------------------------------

  /** Activity-weeks a hypothesis forces into the plan or keeps out of it; those outside the model are ignored. */
  datatype Hypothesis = Hypothesis(require: set<(nat, int)>, forbid: set<(nat, int)>)

  ghost predicate Obeys(inst: Instance, h: Hypothesis, x: Grid) {
    Modelled(inst, h.require) <= x && Modelled(inst, h.forbid) !! x
  }

  ghost predicate Answers(inst: Instance, scen: Scenario, ov: seq<SupplyOverride>, h: Hypothesis, sol: Solution)
    requires Wellformed(inst)
  {
    Satisfies(inst, scen, ov, sol) && Obeys(inst, h, sol.x)
  }

  /** An answer takes every required activity-week of the model and no forbidden one. */
  lemma AnswersSpelled(inst: Instance, scen: Scenario, ov: seq<SupplyOverride>, h: Hypothesis, sol: Solution)
    requires Wellformed(inst)
    ensures Answers(inst, scen, ov, h, sol) <==>
      && Satisfies(inst, scen, ov, sol)
      && forall a: nat, w: int :: a < |inst.activities| && 1 <= w <= inst.weeks ==>
           ((a, w) in h.require ==> (a, w) in sol.x) && ((a, w) in h.forbid ==> (a, w) !in sol.x)
  {
    var required, forbidden := Modelled(inst, h.require), Modelled(inst, h.forbid);
    forall p | p in required ensures p == (p.0, p.1) {}
    forall p | p in forbidden ensures p == (p.0, p.1) {}
  }

  /** An exact answer of the first pass. */
  ghost predicate Best(inst: Instance, scen: Scenario, ov: seq<SupplyOverride>, h: Hypothesis, sol: Solution)
    requires Wellformed(inst)
  {
    && Answers(inst, scen, ov, h, sol)
    && forall other :: Answers(inst, scen, ov, h, other) ==> Objective(inst, scen, sol) <= Objective(inst, scen, other)
  }

  /** No answer makes a cheaper plan. */
  ghost predicate BestPlan(inst: Instance, scen: Scenario, ov: seq<SupplyOverride>, h: Hypothesis, sol: Solution)
    requires Wellformed(inst)
  {
    && Answers(inst, scen, ov, h, sol)
    && forall other :: Answers(inst, scen, ov, h, other) ==>
         PlanCost(inst, scen, ov, sol.x, sol.e) <= PlanCost(inst, scen, ov, other.x, other.e)
  }

  /** The plans the second pass searches: those whose objective is at most the score the first pass reports. */
  ghost predicate Locked(inst: Instance, scen: Scenario, ov: seq<SupplyOverride>, h: Hypothesis, lock: int,
                         sol: Solution)
    requires Wellformed(inst)
  {
    Answers(inst, scen, ov, h, sol) && Objective(inst, scen, sol) <= lock
  }

  ghost function ChurnOf(inst: Instance, was: Grid, x: Grid): int {
    ChurnExpr(Modelled(inst, was), x, |inst.activities|, inst.weeks)
  }

  /** An exact answer of the second pass: nothing when there is nothing, else a locked plan of least churn. */
  ghost predicate LeastChurn(inst: Instance, scen: Scenario, ov: seq<SupplyOverride>, h: Hypothesis, lock: int,
                             was: Grid,
                             second: Option<Solution>)
    requires Wellformed(inst)
  {
    match second
    case None => forall sol :: !Locked(inst, scen, ov, h, lock, sol)
    case Some(best) =>
      && Locked(inst, scen, ov, h, lock, best)
      && forall sol :: Locked(inst, scen, ov, h, lock, sol) ==> ChurnOf(inst, was, best.x) <= ChurnOf(inst, was, sol.x)
  }

  /** A best plan, and no best plan changes fewer activity-weeks. */
  ghost predicate Lexicographic(inst: Instance, scen: Scenario, ov: seq<SupplyOverride>, h: Hypothesis, was: Grid,
                                sol: Solution)
    requires Wellformed(inst)
  {
    && BestPlan(inst, scen, ov, h, sol)
    && forall other :: BestPlan(inst, scen, ov, h, other) ==> Difference(sol.x, was) <= Difference(other.x, was)
  }

  /** The least solution over an answer's nights is an answer. */
  lemma CheapestAnswers(inst: Instance, scen: Scenario, ov: seq<SupplyOverride>, h: Hypothesis, sol: Solution)
    returns (cheap: Solution)
    requires Wellformed(inst) && ValidOverrides(inst, ov) && Answers(inst, scen, ov, h, sol)
    ensures Answers(inst, scen, ov, h, cheap) && cheap.x == sol.x && cheap.e == sol.e
    ensures Objective(inst, scen, cheap) == PlanCost(inst, scen, ov, sol.x, sol.e)
  {
    cheap := Cheapest(inst, scen, ov, sol.x, sol.e);
    CheapestOfSolution(inst, scen, ov, sol);
  }

  lemma BestIsCheapest(inst: Instance, scen: Scenario, ov: seq<SupplyOverride>, h: Hypothesis, first: Solution,
                       other: Solution)
    requires Wellformed(inst) && ValidOverrides(inst, ov) && Best(inst, scen, ov, h, first)
    requires Answers(inst, scen, ov, h, other)
    ensures Objective(inst, scen, first) <= PlanCost(inst, scen, ov, other.x, other.e)
  {
    var cheap := CheapestAnswers(inst, scen, ov, h, other);
  }

  /** The first pass answers with a best plan at its cost. */
  lemma BestIsBestPlan(inst: Instance, scen: Scenario, ov: seq<SupplyOverride>, h: Hypothesis, first: Solution)
    requires Wellformed(inst) && ValidOverrides(inst, ov) && Best(inst, scen, ov, h, first)
    ensures Objective(inst, scen, first) == PlanCost(inst, scen, ov, first.x, first.e)
    ensures BestPlan(inst, scen, ov, h, first)
  {
    CheapestIsLeast(inst, scen, ov, first);
    BestIsCheapest(inst, scen, ov, h, first, first);
    forall other | Answers(inst, scen, ov, h, other)
      ensures Objective(inst, scen, first) <= PlanCost(inst, scen, ov, other.x, other.e)
    {
      BestIsCheapest(inst, scen, ov, h, first, other);
    }
  }

  lemma SameCostBest(inst: Instance, scen: Scenario, ov: seq<SupplyOverride>, h: Hypothesis, first: Solution,
                     sol: Solution)
    requires Wellformed(inst) && BestPlan(inst, scen, ov, h, first) && Answers(inst, scen, ov, h, sol)
    ensures BestPlan(inst, scen, ov, h, sol)
       <==> PlanCost(inst, scen, ov, sol.x, sol.e) == PlanCost(inst, scen, ov, first.x, first.e)
  {
  }

  /** The expression minimised by the second pass orders plans as the number of changes does. */
  lemma ChurnOrder(inst: Instance, was: Grid, x: Grid, y: Grid)
    requires InHorizon(inst, x) && InHorizon(inst, y)
    ensures ChurnOf(inst, was, x) <= ChurnOf(inst, was, y) <==> Difference(x, was) <= Difference(y, was)
  {
    ChurnIsDifference(inst, was, x);
    ChurnIsDifference(inst, was, y);
  }

  // --- what the lock admits -------------------------------------------------------------------------

  /** The second pass has anything to search exactly when the first pass's report leaves nothing out. */
  lemma SecondPassExact(inst: Instance, scen: Scenario, ov: seq<SupplyOverride>, h: Hypothesis, first: Solution)
    requires Wellformed(inst) && ValidOverrides(inst, ov) && Best(inst, scen, ov, h, first)
    ensures (exists sol :: Locked(inst, scen, ov, h, NominalScore(inst, scen, first.x, first.e), sol)) <==>
       Unreported(inst, scen, ov, first.x) <= 0
  {
    var lock := NominalScore(inst, scen, first.x, first.e);
    BestIsBestPlan(inst, scen, ov, h, first);
    CostSplits(inst, scen, ov, first);
    if Unreported(inst, scen, ov, first.x) <= 0 { assert Locked(inst, scen, ov, h, lock, first); }
  }

  lemma NotLocked(inst: Instance, scen: Scenario, ov: seq<SupplyOverride>, h: Hypothesis, lock: int, first: Solution,
                  sol: Solution)
    requires Wellformed(inst) && Best(inst, scen, ov, h, first) && lock < Objective(inst, scen, first)
    ensures !Locked(inst, scen, ov, h, lock, sol)
  {
  }

  /** A plan that reports the same score is best exactly when it leaves as much unreported. */
  lemma SameReport(inst: Instance, scen: Scenario, ov: seq<SupplyOverride>, h: Hypothesis, first: Solution,
                   sol: Solution)
    requires Wellformed(inst) && BestPlan(inst, scen, ov, h, first) && Answers(inst, scen, ov, h, sol)
    requires NominalScore(inst, scen, sol.x, sol.e) == NominalScore(inst, scen, first.x, first.e)
    ensures PlanCost(inst, scen, ov, sol.x, sol.e) - PlanCost(inst, scen, ov, first.x, first.e)
         == Unreported(inst, scen, ov, sol.x) - Unreported(inst, scen, ov, first.x)
    ensures BestPlan(inst, scen, ov, h, sol)
        <==> Unreported(inst, scen, ov, sol.x) == Unreported(inst, scen, ov, first.x)
  {
    CostSplits(inst, scen, ov, first);
    CostSplits(inst, scen, ov, sol);
    SameCostBest(inst, scen, ov, h, first, sol);
  }

  /** A second answer changes no more than any best plan. */
  lemma NoBestPlanChangesLess(inst: Instance, scen: Scenario, ov: seq<SupplyOverride>, h: Hypothesis, was: Grid,
                              first: Solution, best: Solution, other: Solution)
    requires Wellformed(inst) && ValidOverrides(inst, ov) && Best(inst, scen, ov, h, first)
    requires LeastChurn(inst, scen, ov, h, NominalScore(inst, scen, first.x, first.e), was, Some(best))
    requires BestPlan(inst, scen, ov, h, other)
    ensures Difference(best.x, was) <= Difference(other.x, was)
  {
    var lock := NominalScore(inst, scen, first.x, first.e);
    SecondPassExact(inst, scen, ov, h, first);
    assert Locked(inst, scen, ov, h, lock, best);
    BestIsBestPlan(inst, scen, ov, h, first);
    CostSplits(inst, scen, ov, first);
    SameCostBest(inst, scen, ov, h, first, other);
    var cheap := CheapestAnswers(inst, scen, ov, h, other);
    assert Locked(inst, scen, ov, h, lock, cheap);
    ChurnOrder(inst, was, best.x, other.x);
  }

  /** The second answer replaces the first only when it reports the same score. */
  ghost predicate Replaces(inst: Instance, scen: Scenario, first: Solution, second: Option<Solution>)
    requires Wellformed(inst)
  {
    second.Some?
    && NominalScore(inst, scen, second.value.x, second.value.e) == NominalScore(inst, scen, first.x, first.e)
  }

  /** A replacing answer is the best plan of least change exactly when it leaves as much unreported as the first. */
  lemma ReplacementExact(inst: Instance, scen: Scenario, ov: seq<SupplyOverride>, h: Hypothesis, was: Grid,
                         first: Solution, best: Solution)
    requires Wellformed(inst) && ValidOverrides(inst, ov) && Best(inst, scen, ov, h, first)
    requires LeastChurn(inst, scen, ov, h, NominalScore(inst, scen, first.x, first.e), was, Some(best))
    requires Replaces(inst, scen, first, Some(best))
    ensures Lexicographic(inst, scen, ov, h, was, best)
       <==> Unreported(inst, scen, ov, best.x) == Unreported(inst, scen, ov, first.x)
  {
    BestIsBestPlan(inst, scen, ov, h, first);
    assert Answers(inst, scen, ov, h, best);
    SameReport(inst, scen, ov, h, first, best);
    if Unreported(inst, scen, ov, best.x) == Unreported(inst, scen, ov, first.x) {
      forall other | BestPlan(inst, scen, ov, h, other) ensures Difference(best.x, was) <= Difference(other.x, was) {
        NoBestPlanChangesLess(inst, scen, ov, h, was, first, best, other);
      }
    }
  }

  lemma EvenBest(inst: Instance, scen: Scenario, ov: seq<SupplyOverride>, h: Hypothesis, first: Solution,
                 best: Solution)
    requires Wellformed(inst) && ValidOverrides(inst, ov) && Best(inst, scen, ov, h, first)
    requires Locked(inst, scen, ov, h, NominalScore(inst, scen, first.x, first.e), best)
    requires Unreported(inst, scen, ov, first.x) == 0
    ensures BestPlan(inst, scen, ov, h, best)
    ensures Replaces(inst, scen, first, Some(best)) <==> Unreported(inst, scen, ov, best.x) == 0
  {
    BestIsBestPlan(inst, scen, ov, h, first);
    CostSplits(inst, scen, ov, first);
    CostSplits(inst, scen, ov, best);
    assert PlanCost(inst, scen, ov, first.x, first.e) <= PlanCost(inst, scen, ov, best.x, best.e);
    SameCostBest(inst, scen, ov, h, first, best);
  }

  /** When the first report leaves nothing out, the second answer is a best plan of least change. */
  lemma EvenLock(inst: Instance, scen: Scenario, ov: seq<SupplyOverride>, h: Hypothesis, was: Grid, first: Solution,
                 second: Option<Solution>)
    requires Wellformed(inst) && ValidOverrides(inst, ov) && Best(inst, scen, ov, h, first)
    requires LeastChurn(inst, scen, ov, h, NominalScore(inst, scen, first.x, first.e), was, second)
    requires Unreported(inst, scen, ov, first.x) == 0
    ensures second.Some? && Lexicographic(inst, scen, ov, h, was, second.value)
    ensures Replaces(inst, scen, first, second) <==> Unreported(inst, scen, ov, second.value.x) == 0
  {
    SecondPassExact(inst, scen, ov, h, first);
    var best := second.value;
    assert second == Some(best);
    EvenBest(inst, scen, ov, h, first, best);
    forall other | BestPlan(inst, scen, ov, h, other) ensures Difference(best.x, was) <= Difference(other.x, was) {
      NoBestPlanChangesLess(inst, scen, ov, h, was, first, best, other);
    }
  }

  // --- the outcome -----------------------------------------------------------------------------------------

  ghost function Chosen(inst: Instance, scen: Scenario, first: Solution, second: Option<Solution>): Solution
    requires Wellformed(inst)
  {
    if Replaces(inst, scen, first, second) then second.value else first
  }

  /** No best plan changes fewer activity-weeks than the first answer. */
  ghost predicate NoBestChangesLess(inst: Instance, scen: Scenario, ov: seq<SupplyOverride>, h: Hypothesis, was: Grid,
                                    first: Solution)
    requires Wellformed(inst)
  {
    forall q :: BestPlan(inst, scen, ov, h, q) ==> Difference(first.x, was) <= Difference(q.x, was)
  }

  /** What the second pass finds, by the gap between the first plan's cost and its report. */
  ghost predicate Searched(inst: Instance, scen: Scenario, ov: seq<SupplyOverride>, first: Solution,
                           second: Option<Solution>)
    requires Wellformed(inst)
  {
    second == None <==> Unreported(inst, scen, ov, first.x) > 0
  }

  /**
   * What becomes of the promise. An answer that is taken keeps it exactly when it leaves as much unreported as the
   * first; when none is taken, the first keeps it exactly when no best plan changes less, which at a gap of zero the
   * refused answer tells.
   */
  ghost predicate Outcome(inst: Instance, scen: Scenario, ov: seq<SupplyOverride>, h: Hypothesis, was: Grid,
                          first: Solution, second: Option<Solution>, final: Solution)
    requires Wellformed(inst)
  {
    var gap := Unreported(inst, scen, ov, first.x);
    && Searched(inst, scen, ov, first, second)
    && (Replaces(inst, scen, first, second) ==>
         (Lexicographic(inst, scen, ov, h, was, final) <==> Unreported(inst, scen, ov, final.x) == gap))
    && (!Replaces(inst, scen, first, second) ==>
         (Lexicographic(inst, scen, ov, h, was, final) <==> NoBestChangesLess(inst, scen, ov, h, was, first)))
    && (gap == 0 && second.Some? ==>
         (Lexicographic(inst, scen, ov, h, was, final) <==>
            Unreported(inst, scen, ov, second.value.x) == 0
            || Difference(first.x, was) <= Difference(second.value.x, was)))
    && (second.Some? && Difference(first.x, was) <= Difference(second.value.x, was) ==>
         Replaces(inst, scen, first, second) || Lexicographic(inst, scen, ov, h, was, final))
  }

  /** The first answer is of least change when the second changes no less. */
  lemma FirstStands(inst: Instance, scen: Scenario, ov: seq<SupplyOverride>, h: Hypothesis, was: Grid, first: Solution,
                    best: Solution)
    requires Wellformed(inst) && ValidOverrides(inst, ov) && Best(inst, scen, ov, h, first)
    requires LeastChurn(inst, scen, ov, h, NominalScore(inst, scen, first.x, first.e), was, Some(best))
    requires Difference(first.x, was) <= Difference(best.x, was)
    ensures Lexicographic(inst, scen, ov, h, was, first)
  {
    BestIsBestPlan(inst, scen, ov, h, first);
    forall other | BestPlan(inst, scen, ov, h, other) ensures Difference(first.x, was) <= Difference(other.x, was) {
      NoBestPlanChangesLess(inst, scen, ov, h, was, first, best, other);
    }
  }

  lemma EvenOutcome(inst: Instance, scen: Scenario, ov: seq<SupplyOverride>, h: Hypothesis, was: Grid, first: Solution,
                    best: Solution)
    requires Wellformed(inst) && ValidOverrides(inst, ov) && Best(inst, scen, ov, h, first)
    requires LeastChurn(inst, scen, ov, h, NominalScore(inst, scen, first.x, first.e), was, Some(best))
    requires Unreported(inst, scen, ov, first.x) == 0
    ensures Lexicographic(inst, scen, ov, h, was, Chosen(inst, scen, first, Some(best)))
       <==> Unreported(inst, scen, ov, best.x) == 0 || Difference(first.x, was) <= Difference(best.x, was)
  {
    EvenLock(inst, scen, ov, h, was, first, Some(best));
    if !Replaces(inst, scen, first, Some(best)) && Difference(first.x, was) <= Difference(best.x, was) {
      FirstStands(inst, scen, ov, h, was, first, best);
    }
    if Replaces(inst, scen, first, Some(best)) { ReplacementExact(inst, scen, ov, h, was, first, best); }
  }

  lemma TakenOutcome(inst: Instance, scen: Scenario, ov: seq<SupplyOverride>, h: Hypothesis, was: Grid,
                     first: Solution, best: Solution)
    requires Wellformed(inst) && ValidOverrides(inst, ov) && Best(inst, scen, ov, h, first)
    requires LeastChurn(inst, scen, ov, h, NominalScore(inst, scen, first.x, first.e), was, Some(best))
    requires Replaces(inst, scen, first, Some(best))
    ensures Outcome(inst, scen, ov, h, was, first, Some(best), best)
  {
    SecondPassExact(inst, scen, ov, h, first);
    ReplacementExact(inst, scen, ov, h, was, first, best);
    if Unreported(inst, scen, ov, first.x) == 0 { EvenLock(inst, scen, ov, h, was, first, Some(best)); }
  }

  lemma StandingIsLeast(inst: Instance, scen: Scenario, ov: seq<SupplyOverride>, h: Hypothesis, was: Grid,
                        first: Solution)
    requires Wellformed(inst) && ValidOverrides(inst, ov) && Best(inst, scen, ov, h, first)
    ensures Lexicographic(inst, scen, ov, h, was, first) <==> NoBestChangesLess(inst, scen, ov, h, was, first)
  {
    BestIsBestPlan(inst, scen, ov, h, first);
  }

  lemma RefusedOutcome(inst: Instance, scen: Scenario, ov: seq<SupplyOverride>, h: Hypothesis, was: Grid,
                       first: Solution, best: Solution)
    requires Wellformed(inst) && ValidOverrides(inst, ov) && Best(inst, scen, ov, h, first)
    requires LeastChurn(inst, scen, ov, h, NominalScore(inst, scen, first.x, first.e), was, Some(best))
    requires !Replaces(inst, scen, first, Some(best))
    ensures Outcome(inst, scen, ov, h, was, first, Some(best), first)
  {
    SecondPassExact(inst, scen, ov, h, first);
    StandingIsLeast(inst, scen, ov, h, was, first);
    if Unreported(inst, scen, ov, first.x) == 0 { EvenOutcome(inst, scen, ov, h, was, first, best); }
    if Difference(first.x, was) <= Difference(best.x, was) { FirstStands(inst, scen, ov, h, was, first, best); }
  }

  /** The outcome, for every disruption, hypothesis, baseline and pair of exact answers. */
  lemma OutcomeExact(inst: Instance, scen: Scenario, ov: seq<SupplyOverride>, h: Hypothesis, was: Grid, first: Solution,
                     second: Option<Solution>)
    requires Wellformed(inst) && ValidOverrides(inst, ov) && Best(inst, scen, ov, h, first)
    requires LeastChurn(inst, scen, ov, h, NominalScore(inst, scen, first.x, first.e), was, second)
    ensures Outcome(inst, scen, ov, h, was, first, second, Chosen(inst, scen, first, second))
  {
    match second
    case None =>
      SecondPassExact(inst, scen, ov, h, first);
      StandingIsLeast(inst, scen, ov, h, was, first);
    case Some(best) =>
      if Replaces(inst, scen, first, second) {
        TakenOutcome(inst, scen, ov, h, was, first, best);
      } else {
        RefusedOutcome(inst, scen, ov, h, was, first, best);
      }
  }

  /** What the repaired plan costs, as against the optimum, by what the two reports leave out. */
  ghost predicate CostShift(inst: Instance, scen: Scenario, ov: seq<SupplyOverride>, h: Hypothesis, first: Solution,
                            final: Solution)
    requires Wellformed(inst) && |first.overrun| == |inst.activities|
  {
    var shift := Unreported(inst, scen, ov, final.x) - Unreported(inst, scen, ov, first.x);
    && PlanCost(inst, scen, ov, final.x, final.e) - Objective(inst, scen, first) == shift
    && (BestPlan(inst, scen, ov, h, final) <==> shift == 0)
  }

  lemma CostOfRepair(inst: Instance, scen: Scenario, ov: seq<SupplyOverride>, h: Hypothesis, was: Grid, first: Solution,
                     second: Option<Solution>, final: Solution)
    requires Wellformed(inst) && ValidOverrides(inst, ov) && Best(inst, scen, ov, h, first)
    requires LeastChurn(inst, scen, ov, h, NominalScore(inst, scen, first.x, first.e), was, second)
    requires final == Chosen(inst, scen, first, second)
    ensures Answers(inst, scen, ov, h, final) && CostShift(inst, scen, ov, h, first, final)
  {
    BestIsBestPlan(inst, scen, ov, h, first);
    SameReport(inst, scen, ov, h, first, final);
  }

  /** Under A, or when supply is only cut, the repair is never dearer than the optimum. */
  lemma CutsKeepOptimum(inst: Instance, scen: Scenario, ov: seq<SupplyOverride>, h: Hypothesis, was: Grid,
                        first: Solution,
                        second: Option<Solution>)
    requires Wellformed(inst) && ValidOverrides(inst, ov) && Best(inst, scen, ov, h, first)
    requires scen == A || Cuts(inst, ov)
    requires LeastChurn(inst, scen, ov, h, NominalScore(inst, scen, first.x, first.e), was, second)
    ensures BestPlan(inst, scen, ov, h, Chosen(inst, scen, first, second))
  {
    CutsLeaveOut(inst, scen, ov, first.x);
    SecondPassExact(inst, scen, ov, h, first);
    BestIsBestPlan(inst, scen, ov, h, first);
    if second.Some? { EvenLock(inst, scen, ov, h, was, first, second); }
  }

  // --- the repair -------------------------------------------------------------------------------------------

  /** What the repair returns, for any inputs; it keeps the whole promise when the reports leave nothing out. */
  ghost predicate Repaired(inst: Instance, scen: Scenario, ov: seq<SupplyOverride>, h: Hypothesis, was: Grid,
                           first: Solution, second: Option<Solution>, final: Solution)
    requires Wellformed(inst) && |first.overrun| == |inst.activities|
  {
    && Answers(inst, scen, ov, h, final)
    && NominalScore(inst, scen, final.x, final.e) == NominalScore(inst, scen, first.x, first.e)
    && CostShift(inst, scen, ov, h, first, final)
    && Outcome(inst, scen, ov, h, was, first, second, final)
    && (scen == A || Cuts(inst, ov) ==> BestPlan(inst, scen, ov, h, final))
    && (ReportsAll(inst, scen, ov) ==> Lexicographic(inst, scen, ov, h, was, final))
  }

  /** Takes the second answer when its plan, extracted and scored, reports the first's score. */
  method Choose(inst: Instance, scen: Scenario, ghost ov: seq<SupplyOverride>, first: Solution,
                second: Option<Solution>)
    returns (final: Solution)
    requires Wellformed(inst) && Named(inst) && Satisfies(inst, scen, ov, first)
    requires second.Some? ==> Satisfies(inst, scen, ov, second.value)
    ensures final == Chosen(inst, scen, first, second)
  {
    var score := ReportedScore(inst, scen, ov, first);
    final := first;
    match second {
      case None =>
      case Some(s) =>
        var refined := ReportedScore(inst, scen, ov, s);
        if refined == score { final := s; }
    }
  }

  /**
   * The repaired solution: the second pass's when it reports the first pass's score, else the first pass's. Whatever
   * the inputs, its report is the first's and Outcome says when it keeps the promise: a plan of least cost, and among
   * those of least change. It does when the report leaves nothing out.
   */
  method RepairSolve(inst: Instance, scen: Scenario, ov: seq<SupplyOverride>, ghost h: Hypothesis, was: set<(nat, int)>,
                     first: Solution, second: Option<Solution>)
    returns (final: Solution, churn: nat)
    requires Wellformed(inst) && Named(inst) && ValidOverrides(inst, ov) && Best(inst, scen, ov, h, first)
    requires LeastChurn(inst, scen, ov, h, NominalScore(inst, scen, first.x, first.e), was, second)
    ensures final == Chosen(inst, scen, first, second) && churn == Difference(final.x, was)
    ensures Repaired(inst, scen, ov, h, was, first, second, final)
    ensures final == (if second.Some? && NominalScore(inst, scen, second.value.x, second.value.e)
                                         == NominalScore(inst, scen, first.x, first.e)
                      then second.value else first)
    ensures churn == |final.x - was| + |was - final.x|
  {
    final := Choose(inst, scen, ov, first, second);
    churn := ReportChurn(final.x, was);
    RepairExact(inst, scen, ov, h, was, first, second, final);
  }

  lemma RepairExact(inst: Instance, scen: Scenario, ov: seq<SupplyOverride>, h: Hypothesis, was: Grid, first: Solution,
                    second: Option<Solution>, final: Solution)
    requires Wellformed(inst) && ValidOverrides(inst, ov) && Best(inst, scen, ov, h, first)
    requires LeastChurn(inst, scen, ov, h, NominalScore(inst, scen, first.x, first.e), was, second)
    requires final == Chosen(inst, scen, first, second)
    ensures Repaired(inst, scen, ov, h, was, first, second, final)
  {
    CostOfRepair(inst, scen, ov, h, was, first, second, final);
    OutcomeExact(inst, scen, ov, h, was, first, second);
    if scen == A || Cuts(inst, ov) { CutsKeepOptimum(inst, scen, ov, h, was, first, second); }
    if ReportsAll(inst, scen, ov) { NothingMissed(inst, scen, ov, h, was, first, second); }
  }

  lemma NothingMissed(inst: Instance, scen: Scenario, ov: seq<SupplyOverride>, h: Hypothesis, was: Grid,
                      first: Solution,
                      second: Option<Solution>)
    requires Wellformed(inst) && ValidOverrides(inst, ov) && Best(inst, scen, ov, h, first)
        && ReportsAll(inst, scen, ov)
    requires LeastChurn(inst, scen, ov, h, NominalScore(inst, scen, first.x, first.e), was, second)
    ensures Lexicographic(inst, scen, ov, h, was, Chosen(inst, scen, first, second))
  {
    AllReported(inst, scen, ov, first.x);
    EvenLock(inst, scen, ov, h, was, first, second);
    AllReported(inst, scen, ov, second.value.x);
  }
}
