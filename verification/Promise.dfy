/**
 * When a repair keeps its promise whatever the baseline and the answers: a best plan, and of those the least change.
 */
module Promise {
  import opened Model
  import opened Solver
  import opened Changes
  import opened Reports
  import opened Disruptions
  import opened Repair

  ghost predicate ExactAnswers(inst: Instance, scen: Scenario, ov: seq<SupplyOverride>, h: Hypothesis, was: Grid,
                               first: Solution, second: Option<Solution>)
    requires Wellformed(inst)
  {
    && Best(inst, scen, ov, h, first)
    && LeastChurn(inst, scen, ov, h, NominalScore(inst, scen, first.x, first.e), was, second)
  }

  /** Whatever the baseline and the answers, the repair returns a best plan of least change. */
  ghost predicate PromiseKept(inst: Instance, scen: Scenario, ov: seq<SupplyOverride>, h: Hypothesis)
    requires Wellformed(inst)
  {
    forall was, first, second :: ExactAnswers(inst, scen, ov, h, was, first, second) ==>
      Lexicographic(inst, scen, ov, h, was, Chosen(inst, scen, first, second))
  }

  lemma BestPlanIsBest(inst: Instance, scen: Scenario, ov: seq<SupplyOverride>, h: Hypothesis, p: Solution)
    returns (first: Solution)
    requires Wellformed(inst) && ValidOverrides(inst, ov) && BestPlan(inst, scen, ov, h, p)
    ensures Best(inst, scen, ov, h, first) && first.x == p.x && first.e == p.e
  {
    first := CheapestAnswers(inst, scen, ov, h, p);
    forall other | Answers(inst, scen, ov, h, other)
      ensures Objective(inst, scen, first) <= Objective(inst, scen, other)
    {
      CostSplits(inst, scen, ov, other);
    }
  }

  /** A best plan that hides a cost, with another best plan as baseline, breaks the promise. */
  lemma HiddenCostBreaks(inst: Instance, scen: Scenario, ov: seq<SupplyOverride>, h: Hypothesis, p: Solution,
                         q: Solution)
    requires Wellformed(inst) && ValidOverrides(inst, ov)
    requires BestPlan(inst, scen, ov, h, p) && BestPlan(inst, scen, ov, h, q) && p.x != q.x
    requires Unreported(inst, scen, ov, p.x) > 0
    ensures !PromiseKept(inst, scen, ov, h)
  {
    var first := BestPlanIsBest(inst, scen, ov, h, p);
    NothingToSearch(inst, scen, ov, h, q.x, first);
    NotLeast(inst, scen, ov, h, first, q);
    BrokenBy(inst, scen, ov, h, q.x, first, None, first);
  }

  lemma NothingToSearch(inst: Instance, scen: Scenario, ov: seq<SupplyOverride>, h: Hypothesis, was: Grid,
                        first: Solution)
    requires Wellformed(inst) && ValidOverrides(inst, ov) && Best(inst, scen, ov, h, first)
    requires Unreported(inst, scen, ov, first.x) > 0
    ensures ExactAnswers(inst, scen, ov, h, was, first, None)
  {
    SecondPassExact(inst, scen, ov, h, first);
  }

  lemma NotLeast(inst: Instance, scen: Scenario, ov: seq<SupplyOverride>, h: Hypothesis, first: Solution, q: Solution)
    requires Wellformed(inst) && BestPlan(inst, scen, ov, h, q) && first.x != q.x
    ensures !Lexicographic(inst, scen, ov, h, q.x, first)
  {
    DifferenceFromItself(first.x, q.x);
  }

  /** Nothing changes less than a plan that takes the baseline's own activity-weeks. */
  lemma UnchangedIsLeast(inst: Instance, scen: Scenario, ov: seq<SupplyOverride>, h: Hypothesis, lock: int,
                         sol: Solution)
    requires Wellformed(inst) && Locked(inst, scen, ov, h, lock, sol)
    ensures LeastChurn(inst, scen, ov, h, lock, sol.x, Some(sol))
  {
    forall other | Locked(inst, scen, ov, h, lock, other)
      ensures ChurnOf(inst, sol.x, sol.x) <= ChurnOf(inst, sol.x, other.x)
    {
      DifferenceFromItself(other.x, sol.x);
      ChurnOrder(inst, sol.x, sol.x, other.x);
    }
  }

  lemma BrokenBy(inst: Instance, scen: Scenario, ov: seq<SupplyOverride>, h: Hypothesis, was: Grid, first: Solution,
                 second: Option<Solution>, final: Solution)
    requires Wellformed(inst) && ExactAnswers(inst, scen, ov, h, was, first, second)
    requires final == Chosen(inst, scen, first, second) && !Lexicographic(inst, scen, ov, h, was, final)
    ensures !PromiseKept(inst, scen, ov, h)
  {
  }

  lemma TwinTaken(inst: Instance, scen: Scenario, ov: seq<SupplyOverride>, h: Hypothesis, first: Solution,
                  second: Solution)
    requires Wellformed(inst) && ValidOverrides(inst, ov) && Best(inst, scen, ov, h, first)
    requires Locked(inst, scen, ov, h, NominalScore(inst, scen, first.x, first.e), second)
    requires NominalScore(inst, scen, second.x, second.e) == NominalScore(inst, scen, first.x, first.e)
    requires Unreported(inst, scen, ov, second.x) != Unreported(inst, scen, ov, first.x)
    ensures !PromiseKept(inst, scen, ov, h)
  {
    UnchangedIsLeast(inst, scen, ov, h, NominalScore(inst, scen, first.x, first.e), second);
    ReplacementExact(inst, scen, ov, h, second.x, first, second);
    BrokenBy(inst, scen, ov, h, second.x, first, Some(second), second);
  }

  /** A dearer plan that hides a saving behind the best plan's report, as baseline, breaks the promise. */
  lemma HiddenSavingBreaks(inst: Instance, scen: Scenario, ov: seq<SupplyOverride>, h: Hypothesis, p: Solution,
                           q: Solution)
    requires Wellformed(inst) && ValidOverrides(inst, ov)
    requires BestPlan(inst, scen, ov, h, p) && Answers(inst, scen, ov, h, q)
    requires NominalScore(inst, scen, q.x, q.e) == NominalScore(inst, scen, p.x, p.e)
    requires Unreported(inst, scen, ov, p.x) < Unreported(inst, scen, ov, q.x) <= 0
    ensures !PromiseKept(inst, scen, ov, h)
  {
    var first := BestPlanIsBest(inst, scen, ov, h, p);
    var second := CheapestAnswers(inst, scen, ov, h, q);
    CostSplits(inst, scen, ov, q);
    TwinTaken(inst, scen, ov, h, first, second);
  }

  // --- the condition -------------------------------------------------------------------------------------

  /** The lock set by p's report admits the plan of s. */
  ghost predicate Seen(inst: Instance, scen: Scenario, ov: seq<SupplyOverride>, h: Hypothesis, p: Solution, s: Solution)
    requires Wellformed(inst)
  {
    Answers(inst, scen, ov, h, s) && PlanCost(inst, scen, ov, s.x, s.e) <= NominalScore(inst, scen, p.x, p.e)
  }

  ghost predicate SameScore(inst: Instance, scen: Scenario, p: Solution, s: Solution)
    requires Wellformed(inst)
  {
    NominalScore(inst, scen, s.x, s.e) == NominalScore(inst, scen, p.x, p.e)
  }

  ghost predicate Tied(inst: Instance, scen: Scenario, ov: seq<SupplyOverride>, h: Hypothesis, p: Solution, q: Solution)
    requires Wellformed(inst)
  {
    BestPlan(inst, scen, ov, h, p) && BestPlan(inst, scen, ov, h, q) && p.x != q.x
  }

  /** No best plan with a rival hides a cost, so the second pass can see the rivals. */
  ghost predicate RivalsSeen(inst: Instance, scen: Scenario, ov: seq<SupplyOverride>, h: Hypothesis)
    requires Wellformed(inst)
  {
    forall p, q :: Tied(inst, scen, ov, h, p, q) ==> Unreported(inst, scen, ov, p.x) <= 0
  }

  /** What is seen and reports the best plan's score is as good as it. */
  ghost predicate TwinsBest(inst: Instance, scen: Scenario, ov: seq<SupplyOverride>, h: Hypothesis)
    requires Wellformed(inst)
  {
    forall p, s :: BestPlan(inst, scen, ov, h, p) && Seen(inst, scen, ov, h, p, s) && SameScore(inst, scen, p, s) ==>
      Unreported(inst, scen, ov, s.x) == Unreported(inst, scen, ov, p.x)
  }

  /** What is seen but refused for its score is one step from every best plan with a rival. */
  ghost predicate RefusedNear(inst: Instance, scen: Scenario, ov: seq<SupplyOverride>, h: Hypothesis)
    requires Wellformed(inst)
  {
    forall p, q, s :: Tied(inst, scen, ov, h, p, q) && Seen(inst, scen, ov, h, p, s) && !SameScore(inst, scen, p, s) ==>
      Difference(s.x, p.x) == 1 && Difference(s.x, q.x) == 1
  }

  // --- the condition suffices ------------------------------------------------------------------------------

  lemma OnlyBest(inst: Instance, scen: Scenario, ov: seq<SupplyOverride>, h: Hypothesis, was: Grid, first: Solution)
    requires Wellformed(inst) && BestPlan(inst, scen, ov, h, first)
    requires forall q :: BestPlan(inst, scen, ov, h, q) ==> q.x == first.x
    ensures Lexicographic(inst, scen, ov, h, was, first)
  {
  }

  lemma SecondIsSeen(inst: Instance, scen: Scenario, ov: seq<SupplyOverride>, h: Hypothesis, first: Solution,
                     s: Solution)
    requires Wellformed(inst) && Locked(inst, scen, ov, h, NominalScore(inst, scen, first.x, first.e), s)
    ensures Seen(inst, scen, ov, h, first, s)
  {
    CostSplits(inst, scen, ov, s);
  }

  /** A refused second answer near every rival leaves the first of least change. */
  lemma RefusalHarmless(inst: Instance, scen: Scenario, ov: seq<SupplyOverride>, h: Hypothesis, was: Grid,
                        first: Solution, s: Solution)
    requires Wellformed(inst) && ValidOverrides(inst, ov) && RefusedNear(inst, scen, ov, h)
    requires ExactAnswers(inst, scen, ov, h, was, first, Some(s)) && !SameScore(inst, scen, first, s)
    ensures Lexicographic(inst, scen, ov, h, was, first)
  {
    BestIsBestPlan(inst, scen, ov, h, first);
    SecondIsSeen(inst, scen, ov, h, first, s);
    forall q | BestPlan(inst, scen, ov, h, q) ensures Difference(first.x, was) <= Difference(q.x, was) {
      if q.x != first.x {
        assert Tied(inst, scen, ov, h, first, q);
        NoBestPlanChangesLess(inst, scen, ov, h, was, first, s, q);
        OneStepApart(s.x, first.x, was);
        OneStepApart(s.x, q.x, was);
      }
    }
  }

  /** Without a second answer the first best plan has no rival. */
  lemma NoAnswerHarmless(inst: Instance, scen: Scenario, ov: seq<SupplyOverride>, h: Hypothesis, was: Grid,
                         first: Solution)
    requires Wellformed(inst) && ValidOverrides(inst, ov) && RivalsSeen(inst, scen, ov, h)
    requires ExactAnswers(inst, scen, ov, h, was, first, None)
    ensures Lexicographic(inst, scen, ov, h, was, first)
  {
    SecondPassExact(inst, scen, ov, h, first);
    BestIsBestPlan(inst, scen, ov, h, first);
    forall q | BestPlan(inst, scen, ov, h, q) ensures q.x == first.x {
      if q.x != first.x { assert Tied(inst, scen, ov, h, first, q); }
    }
    OnlyBest(inst, scen, ov, h, was, first);
  }

  lemma TwinHarmless(inst: Instance, scen: Scenario, ov: seq<SupplyOverride>, h: Hypothesis, was: Grid,
                     first: Solution, s: Solution)
    requires Wellformed(inst) && ValidOverrides(inst, ov) && TwinsBest(inst, scen, ov, h)
    requires ExactAnswers(inst, scen, ov, h, was, first, Some(s)) && SameScore(inst, scen, first, s)
    ensures Lexicographic(inst, scen, ov, h, was, s)
  {
    BestIsBestPlan(inst, scen, ov, h, first);
    SecondIsSeen(inst, scen, ov, h, first, s);
    ReplacementExact(inst, scen, ov, h, was, first, s);
  }

  lemma ConditionKeeps(inst: Instance, scen: Scenario, ov: seq<SupplyOverride>, h: Hypothesis, was: Grid,
                       first: Solution, second: Option<Solution>)
    requires Wellformed(inst) && ValidOverrides(inst, ov)
    requires RivalsSeen(inst, scen, ov, h) && TwinsBest(inst, scen, ov, h) && RefusedNear(inst, scen, ov, h)
    requires ExactAnswers(inst, scen, ov, h, was, first, second)
    ensures Lexicographic(inst, scen, ov, h, was, Chosen(inst, scen, first, second))
  {
    match second
    case None => NoAnswerHarmless(inst, scen, ov, h, was, first);
    case Some(s) =>
      if SameScore(inst, scen, first, s) {
        TwinHarmless(inst, scen, ov, h, was, first, s);
      } else {
        RefusalHarmless(inst, scen, ov, h, was, first, s);
      }
  }

  // --- the condition is needed ------------------------------------------------------------------------------

  lemma KeptRivalsSeen(inst: Instance, scen: Scenario, ov: seq<SupplyOverride>, h: Hypothesis)
    requires Wellformed(inst) && ValidOverrides(inst, ov) && PromiseKept(inst, scen, ov, h)
    ensures RivalsSeen(inst, scen, ov, h)
  {
    forall p, q | Tied(inst, scen, ov, h, p, q) ensures Unreported(inst, scen, ov, p.x) <= 0 {
      if Unreported(inst, scen, ov, p.x) > 0 { HiddenCostBreaks(inst, scen, ov, h, p, q); }
    }
  }

  /** What p sees, made an exact second answer after p for its own activity-weeks as baseline. */
  lemma SeenAnswers(inst: Instance, scen: Scenario, ov: seq<SupplyOverride>, h: Hypothesis, p: Solution, s: Solution)
    returns (first: Solution, second: Solution)
    requires Wellformed(inst) && ValidOverrides(inst, ov) && BestPlan(inst, scen, ov, h, p)
        && Seen(inst, scen, ov, h, p, s)
    ensures Best(inst, scen, ov, h, first) && first.x == p.x && first.e == p.e && second.x == s.x && second.e == s.e
    ensures Locked(inst, scen, ov, h, NominalScore(inst, scen, first.x, first.e), second)
    ensures ExactAnswers(inst, scen, ov, h, s.x, first, Some(second))
  {
    first := BestPlanIsBest(inst, scen, ov, h, p);
    second := CheapestAnswers(inst, scen, ov, h, s);
    UnchangedIsLeast(inst, scen, ov, h, NominalScore(inst, scen, first.x, first.e), second);
  }

  lemma KeptTwinsBest(inst: Instance, scen: Scenario, ov: seq<SupplyOverride>, h: Hypothesis)
    requires Wellformed(inst) && ValidOverrides(inst, ov) && PromiseKept(inst, scen, ov, h)
    ensures TwinsBest(inst, scen, ov, h)
  {
    forall p, s | BestPlan(inst, scen, ov, h, p) && Seen(inst, scen, ov, h, p, s) && SameScore(inst, scen, p, s)
      ensures Unreported(inst, scen, ov, s.x) == Unreported(inst, scen, ov, p.x)
    {
      var first, second := SeenAnswers(inst, scen, ov, h, p, s);
      if Unreported(inst, scen, ov, s.x) != Unreported(inst, scen, ov, p.x) {
        TwinTaken(inst, scen, ov, h, first, second);
      }
    }
  }

  /** While the promise is kept, p stands against a refused answer, so no rival is nearer to it. */
  lemma NoRivalNearer(inst: Instance, scen: Scenario, ov: seq<SupplyOverride>, h: Hypothesis, p: Solution, q: Solution,
                      s: Solution)
    requires Wellformed(inst) && ValidOverrides(inst, ov) && PromiseKept(inst, scen, ov, h)
    requires BestPlan(inst, scen, ov, h, p) && BestPlan(inst, scen, ov, h, q)
    requires Seen(inst, scen, ov, h, p, s) && !SameScore(inst, scen, p, s)
    ensures Difference(p.x, s.x) <= Difference(q.x, s.x)
  {
    var first, second := SeenAnswers(inst, scen, ov, h, p, s);
    assert Chosen(inst, scen, first, Some(second)) == first;
    assert Lexicographic(inst, scen, ov, h, s.x, first);
  }

  /** While the promise is kept, tied plans report alike. */
  lemma RivalsReportAlike(inst: Instance, scen: Scenario, ov: seq<SupplyOverride>, h: Hypothesis, p: Solution,
                          q: Solution)
    requires Wellformed(inst) && ValidOverrides(inst, ov) && PromiseKept(inst, scen, ov, h)
    requires Tied(inst, scen, ov, h, p, q)
    ensures SameScore(inst, scen, p, q) && Seen(inst, scen, ov, h, p, q)
  {
    KeptRivalsSeen(inst, scen, ov, h);
    CostSplits(inst, scen, ov, p);
    SameCostBest(inst, scen, ov, h, p, q);
    assert Seen(inst, scen, ov, h, p, q);
    if !SameScore(inst, scen, p, q) {
      NoRivalNearer(inst, scen, ov, h, p, q, q);
      DifferenceFromItself(p.x, q.x);
    }
  }

  /** While the promise is kept, rivals are equally far from a refused answer. */
  lemma RivalsEquallyFar(inst: Instance, scen: Scenario, ov: seq<SupplyOverride>, h: Hypothesis, p: Solution,
                         q: Solution,
                         s: Solution)
    requires Wellformed(inst) && ValidOverrides(inst, ov) && PromiseKept(inst, scen, ov, h)
    requires Tied(inst, scen, ov, h, p, q) && Seen(inst, scen, ov, h, p, s) && !SameScore(inst, scen, p, s)
    ensures Difference(p.x, s.x) == Difference(q.x, s.x) >= 1
    ensures Seen(inst, scen, ov, h, q, s) && !SameScore(inst, scen, q, s)
  {
    RivalsReportAlike(inst, scen, ov, h, p, q);
    NoRivalNearer(inst, scen, ov, h, p, q, s);
    NoRivalNearer(inst, scen, ov, h, q, p, s);
    DifferenceFromItself(p.x, s.x);
    DifferenceFromItself(q.x, s.x);
  }

  ghost predicate SeenAt(inst: Instance, scen: Scenario, ov: seq<SupplyOverride>, h: Hypothesis, lock: int, was: Grid)
    requires Wellformed(inst)
  {
    exists u :: Locked(inst, scen, ov, h, lock, u) && u.x == was
  }

  /** Where no locked plan takes the baseline itself, one that is a single step away changes least. */
  lemma OneStepIsLeast(inst: Instance, scen: Scenario, ov: seq<SupplyOverride>, h: Hypothesis, lock: int, s: Solution,
                       was: Grid)
    requires Wellformed(inst) && Locked(inst, scen, ov, h, lock, s) && Difference(s.x, was) == 1
    requires !SeenAt(inst, scen, ov, h, lock, was)
    ensures LeastChurn(inst, scen, ov, h, lock, was, Some(s))
  {
    forall u | Locked(inst, scen, ov, h, lock, u) ensures ChurnOf(inst, was, s.x) <= ChurnOf(inst, was, u.x) {
      DifferenceFromItself(u.x, was);
      ChurnOrder(inst, was, s.x, u.x);
    }
  }

  /** The second pass's exact answer for a baseline one step from s: a plan there, if any is seen, or s itself. */
  lemma NearAnswer(inst: Instance, scen: Scenario, ov: seq<SupplyOverride>, h: Hypothesis, first: Solution, s: Solution,
                   was: Grid)
    returns (t: Solution)
    requires Wellformed(inst) && Best(inst, scen, ov, h, first) && Difference(s.x, was) == 1
    requires Locked(inst, scen, ov, h, NominalScore(inst, scen, first.x, first.e), s)
    ensures t == s || t.x == was
    ensures ExactAnswers(inst, scen, ov, h, was, first, Some(t))
  {
    t := s;
    if SeenAt(inst, scen, ov, h, NominalScore(inst, scen, first.x, first.e), was) {
      t :| Locked(inst, scen, ov, h, NominalScore(inst, scen, first.x, first.e), t) && t.x == was;
      UnchangedIsLeast(inst, scen, ov, h, NominalScore(inst, scen, first.x, first.e), t);
    } else {
      OneStepIsLeast(inst, scen, ov, h, NominalScore(inst, scen, first.x, first.e), s, was);
    }
  }

  /** No plan one step from a refused answer is taken instead, when the best plans are further from it. */
  lemma StillRefused(inst: Instance, scen: Scenario, ov: seq<SupplyOverride>, h: Hypothesis, p: Solution, s: Solution,
                     t: Solution)
    requires Wellformed(inst) && ValidOverrides(inst, ov) && PromiseKept(inst, scen, ov, h)
    requires BestPlan(inst, scen, ov, h, p) && Seen(inst, scen, ov, h, p, s) && !SameScore(inst, scen, p, s)
    requires Seen(inst, scen, ov, h, p, t) && Difference(t.x, s.x) == 1 && Difference(p.x, s.x) >= 2
    ensures !SameScore(inst, scen, p, t)
  {
    if SameScore(inst, scen, p, t) {
      KeptTwinsBest(inst, scen, ov, h);
      SameReport(inst, scen, ov, h, p, t);
      assert Tied(inst, scen, ov, h, p, t);
      RivalsEquallyFar(inst, scen, ov, h, p, t, s);
    }
  }

  /** p stands for the baseline one step from s, wherever that step leads. */
  lemma FirstStandsNear(inst: Instance, scen: Scenario, ov: seq<SupplyOverride>, h: Hypothesis, p: Solution,
                        s: Solution, was: Grid)
    returns (first: Solution)
    requires Wellformed(inst) && ValidOverrides(inst, ov) && PromiseKept(inst, scen, ov, h)
    requires BestPlan(inst, scen, ov, h, p) && Seen(inst, scen, ov, h, p, s) && !SameScore(inst, scen, p, s)
    requires Difference(s.x, was) == 1 && Difference(p.x, s.x) >= 2
    ensures first.x == p.x && Lexicographic(inst, scen, ov, h, was, first)
  {
    var near;
    first, near := SeenAnswers(inst, scen, ov, h, p, s);
    var t := NearAnswer(inst, scen, ov, h, first, near, was);
    SecondIsSeen(inst, scen, ov, h, first, t);
    if t != near {
      DifferenceSwaps(t.x, s.x);
      StillRefused(inst, scen, ov, h, p, s, t);
    }
    assert Chosen(inst, scen, first, Some(t)) == first;
  }

  /** While the promise is kept, a refused answer is one step from every rival. */
  lemma RivalsOneStepAway(inst: Instance, scen: Scenario, ov: seq<SupplyOverride>, h: Hypothesis, p: Solution,
                          q: Solution, s: Solution)
    requires Wellformed(inst) && ValidOverrides(inst, ov) && PromiseKept(inst, scen, ov, h)
    requires Tied(inst, scen, ov, h, p, q) && Seen(inst, scen, ov, h, p, s) && !SameScore(inst, scen, p, s)
    ensures Difference(s.x, p.x) == 1 && Difference(s.x, q.x) == 1
  {
    RivalsEquallyFar(inst, scen, ov, h, p, q, s);
    if Difference(p.x, s.x) >= 2 {
      var c := PlaceOfOne(p.x, q.x, s.x);
      FlipStep(p.x, s.x, c);
      FlipStep(q.x, s.x, c);
      StepAway(s.x, c);
      var first := FirstStandsNear(inst, scen, ov, h, p, s, Flip(s.x, c));
      assert false;
    }
    DifferenceSwaps(s.x, p.x);
    DifferenceSwaps(s.x, q.x);
  }

  lemma StepAway(x: Grid, c: (nat, int))
    ensures Difference(x, Flip(x, c)) == 1
  {
    DifferenceFromItself(x, x);
    FlipStep(x, x, c);
  }

  /**
   * For every scenario, disruption and hypothesis: whatever the baseline and the answers, the repair
     returns a best plan
   * of least change exactly when best plans with a rival hide no cost, no dearer plan reports a best plan's score
   * within the lock, and what the lock admits under another score is one step from every best plan with a rival.
   */
  lemma PromiseExact(inst: Instance, scen: Scenario, ov: seq<SupplyOverride>, h: Hypothesis)
    requires Wellformed(inst) && ValidOverrides(inst, ov)
    ensures PromiseKept(inst, scen, ov, h) <==>
      RivalsSeen(inst, scen, ov, h) && TwinsBest(inst, scen, ov, h) && RefusedNear(inst, scen, ov, h)
  {
    if RivalsSeen(inst, scen, ov, h) && TwinsBest(inst, scen, ov, h) && RefusedNear(inst, scen, ov, h) {
      forall was, first, second | ExactAnswers(inst, scen, ov, h, was, first, second)
        ensures Lexicographic(inst, scen, ov, h, was, Chosen(inst, scen, first, second))
      {
        ConditionKeeps(inst, scen, ov, h, was, first, second);
      }
    }
    if PromiseKept(inst, scen, ov, h) {
      KeptRivalsSeen(inst, scen, ov, h);
      KeptTwinsBest(inst, scen, ov, h);
      KeptRefusedNear(inst, scen, ov, h);
    }
  }

  lemma KeptRefusedNear(inst: Instance, scen: Scenario, ov: seq<SupplyOverride>, h: Hypothesis)
    requires Wellformed(inst) && ValidOverrides(inst, ov) && PromiseKept(inst, scen, ov, h)
    ensures RefusedNear(inst, scen, ov, h)
  {
    forall p, q, s
      | Tied(inst, scen, ov, h, p, q) && Seen(inst, scen, ov, h, p, s) && !SameScore(inst, scen, p, s)
      ensures Difference(s.x, p.x) == 1 && Difference(s.x, q.x) == 1
    {
      RivalsOneStepAway(inst, scen, ov, h, p, q, s);
    }
  }

  // --- under A, and for cuts --------------------------------------------------------------------------------

  /** Best plans that differ in their activity-weeks report their full cost. */
  ghost predicate TiesReported(inst: Instance, scen: Scenario, ov: seq<SupplyOverride>, h: Hypothesis)
    requires Wellformed(inst)
  {
    forall p, q :: Tied(inst, scen, ov, h, p, q) ==> Unreported(inst, scen, ov, p.x) == 0
  }

  /** Where no report is above the cost, what a best plan sees is best too, and both report their full cost or more. */
  lemma SeenIsBest(inst: Instance, scen: Scenario, ov: seq<SupplyOverride>, h: Hypothesis, p: Solution, s: Solution)
    requires Wellformed(inst) && (scen == A || Cuts(inst, ov))
    requires BestPlan(inst, scen, ov, h, p) && Seen(inst, scen, ov, h, p, s)
    ensures BestPlan(inst, scen, ov, h, s) && Unreported(inst, scen, ov, p.x) == 0
    ensures SameScore(inst, scen, p, s) <==> Unreported(inst, scen, ov, s.x) == 0
  {
    CutsLeaveOut(inst, scen, ov, p.x);
    CostSplits(inst, scen, ov, p);
    CostSplits(inst, scen, ov, s);
    SameCostBest(inst, scen, ov, h, p, s);
  }

  /** Under A, or when supply is only cut, the condition is that best plans that differ report their full cost. */
  lemma CutsPromiseExact(inst: Instance, scen: Scenario, ov: seq<SupplyOverride>, h: Hypothesis)
    requires Wellformed(inst) && ValidOverrides(inst, ov) && (scen == A || Cuts(inst, ov))
    ensures PromiseKept(inst, scen, ov, h) <==> TiesReported(inst, scen, ov, h)
  {
    PromiseExact(inst, scen, ov, h);
    if RivalsSeen(inst, scen, ov, h) {
      forall p, q | Tied(inst, scen, ov, h, p, q) ensures Unreported(inst, scen, ov, p.x) == 0 {
        CutsLeaveOut(inst, scen, ov, p.x);
      }
    }
    if TiesReported(inst, scen, ov, h) {
      TiesSuffice(inst, scen, ov, h);
    }
  }

  lemma TiesSuffice(inst: Instance, scen: Scenario, ov: seq<SupplyOverride>, h: Hypothesis)
    requires Wellformed(inst) && (scen == A || Cuts(inst, ov)) && TiesReported(inst, scen, ov, h)
    ensures RivalsSeen(inst, scen, ov, h) && TwinsBest(inst, scen, ov, h) && RefusedNear(inst, scen, ov, h)
  {
    forall p, s | BestPlan(inst, scen, ov, h, p) && Seen(inst, scen, ov, h, p, s) && SameScore(inst, scen, p, s)
      ensures Unreported(inst, scen, ov, s.x) == Unreported(inst, scen, ov, p.x)
    {
      SeenIsBest(inst, scen, ov, h, p, s);
    }
    forall p, q, s | Tied(inst, scen, ov, h, p, q) && Seen(inst, scen, ov, h, p, s)
      ensures SameScore(inst, scen, p, s)
    {
      SeenIsBest(inst, scen, ov, h, p, s);
      assert s.x != p.x ==> Tied(inst, scen, ov, h, s, p);
    }
  }
}
