/** Which disruptions a report leaves nothing of out, told from the inputs alone. */
module Disruptions {
  import opened Model
  import opened Packing
  import opened Plans
  import opened Solver
  import opened Supplies
  import opened Completeness
  import opened Optimum
  import opened Reports

  /** Wherever capacity is constrained, no group of users can feel the difference the disruption makes. */
  ghost predicate Unfelt(inst: Instance, ov: seq<SupplyOverride>)
    requires Wellformed(inst)
  {
    forall k: Cell :: CapacityCell(inst, k) ==>
      Alike(inst, k.0, SolverSupply(inst, ov, k.0, k.1), inst.locations[k.0].supply)
  }

  lemma ShortfallIs(inst: Instance, ov: seq<SupplyOverride>, x: Grid, k: Cell, n: nat, q: int)
    requires Wellformed(inst) && k.0 < |inst.locations| && q == SolverSupply(inst, ov, k.0, k.1)
    requires Members(inst, At(inst, x, k.0, k.1)) && n == Needed(inst, At(inst, x, k.0, k.1))
    ensures Shortfall(inst, ov, x, k) == Max0(n - q)
  {
  }

  lemma UnfeltAt(inst: Instance, ov: seq<SupplyOverride>, x: Grid, k: Cell)
    requires Wellformed(inst) && Unfelt(inst, ov) && CapacityCell(inst, k)
    ensures Shortfall(inst, ov, x, k) == Shortfall(inst, [], x, k)
  {
    AtMembers(inst, x, k.0, k.1);
    var n, p, q := Needed(inst, At(inst, x, k.0, k.1)), SolverSupply(inst, ov, k.0, k.1), inst.locations[k.0].supply;
    ChargedAt(inst, x, k, p, q, n);
    ShortfallIs(inst, ov, x, k, n, p);
    ShortfallIs(inst, [], x, k, n, q);
  }

  /** The members of s, all in week w. */
  ghost function InWeek(s: set<nat>, w: int): (x: Grid)
    ensures forall a, v :: (a, v) in x <==> a in s && v == w
  {
    set a | a in s :: (a, w)
  }

  lemma InWeekAt(inst: Instance, s: set<nat>, k: Cell)
    requires s <= UsersOf(inst, k.0) && 1 <= k.1 <= inst.weeks
    ensures InHorizon(inst, InWeek(s, k.1)) && At(inst, InWeek(s, k.1), k.0, k.1) == s
  {
  }

  /** No choice of activity-weeks is charged differently anywhere. */
  ghost predicate SameCharges(inst: Instance, ov: seq<SupplyOverride>)
    requires Wellformed(inst)
  {
    forall x, k :: InHorizon(inst, x) && CapacityCell(inst, k) ==>
      Shortfall(inst, ov, x, k) == Shortfall(inst, [], x, k)
  }

  lemma ChargedAlikeHere(inst: Instance, ov: seq<SupplyOverride>, k: Cell)
    requires Wellformed(inst) && ValidOverrides(inst, ov) && SameCharges(inst, ov) && CapacityCell(inst, k)
    ensures Alike(inst, k.0, SolverSupply(inst, ov, k.0, k.1), inst.locations[k.0].supply)
  {
    var p, q := SolverSupply(inst, ov, k.0, k.1), inst.locations[k.0].supply;
    forall s | s <= UsersOf(inst, k.0) && Members(inst, s)
      ensures Max0(Needed(inst, s) - p) == Max0(Needed(inst, s) - q) {
      var x := InWeek(s, k.1);
      InWeekAt(inst, s, k);
      ShortfallIs(inst, ov, x, k, Needed(inst, s), p);
      ShortfallIs(inst, [], x, k, Needed(inst, s), q);
    }
    SupplyNonNegative(inst, ov, k.0, k.1);
    AlikeExact(inst, k.0, p, q);
  }

  /** A disruption is felt by no group of users exactly when no choice of activity-weeks is charged differently. */
  lemma UnfeltExact(inst: Instance, ov: seq<SupplyOverride>)
    requires Wellformed(inst) && ValidOverrides(inst, ov)
    ensures Unfelt(inst, ov) <==> SameCharges(inst, ov)
  {
    if Unfelt(inst, ov) {
      forall x, k | InHorizon(inst, x) && CapacityCell(inst, k)
        ensures Shortfall(inst, ov, x, k) == Shortfall(inst, [], x, k)
      {
        UnfeltAt(inst, ov, x, k);
      }
    }
    if SameCharges(inst, ov) {
      forall k: Cell | CapacityCell(inst, k)
        ensures Alike(inst, k.0, SolverSupply(inst, ov, k.0, k.1), inst.locations[k.0].supply)
      {
        ChargedAlikeHere(inst, ov, k);
      }
    }
  }

  // --- sums of excess -----------------------------------------------------------------------------------

  lemma ExcessAt(inst: Instance, scen: Scenario, ov: seq<SupplyOverride>, x: Grid, k: Cell)
    requires Wellformed(inst) && scen != A && k.0 < |inst.locations|
    ensures ValueAt(ExcessNeeded(inst, scen, ov, x), k)
         == if CapacityCell(inst, k) then Shortfall(inst, ov, x, k) else 0
  {
  }

  /** Disruption ov is nowhere charged more than ov'. */
  ghost predicate NowhereMore(inst: Instance, ov: seq<SupplyOverride>, ov': seq<SupplyOverride>, x: Grid)
    requires Wellformed(inst)
  {
    forall k :: CapacityCell(inst, k) ==> Shortfall(inst, ov, x, k) <= Shortfall(inst, ov', x, k)
  }

  lemma ExcessLeAt(inst: Instance, scen: Scenario, ov: seq<SupplyOverride>, ov': seq<SupplyOverride>, x: Grid, k: Cell)
    requires Wellformed(inst) && NowhereMore(inst, ov, ov', x) && k.0 < |inst.locations|
    ensures ValueAt(ExcessNeeded(inst, scen, ov, x), k) <= ValueAt(ExcessNeeded(inst, scen, ov', x), k)
  {
    if scen != A {
      ExcessAt(inst, scen, ov, x, k);
      ExcessAt(inst, scen, ov', x, k);
    }
  }

  lemma ExcessOrdered(inst: Instance, scen: Scenario, ov: seq<SupplyOverride>, ov': seq<SupplyOverride>, x: Grid)
    requires Wellformed(inst) && NowhereMore(inst, ov, ov', x)
    ensures CellwiseLe(inst, ExcessNeeded(inst, scen, ov, x), ExcessNeeded(inst, scen, ov', x))
  {
    forall l: nat, w | l < |inst.locations| && 1 <= w <= inst.weeks
      ensures ValueAt(ExcessNeeded(inst, scen, ov, x), (l, w)) <= ValueAt(ExcessNeeded(inst, scen, ov', x), (l, w))
    {
      ExcessLeAt(inst, scen, ov, ov', x, (l, w));
    }
  }

  lemma ExcessLe(inst: Instance, scen: Scenario, ov: seq<SupplyOverride>, ov': seq<SupplyOverride>, x: Grid)
    requires Wellformed(inst) && NowhereMore(inst, ov, ov', x)
    ensures ExcessSum(inst, scen, ov, x) <= ExcessSum(inst, scen, ov', x)
  {
    ExcessOrdered(inst, scen, ov, ov', x);
    CellwiseSums(inst, ExcessNeeded(inst, scen, ov, x), ExcessNeeded(inst, scen, ov', x));
  }

  lemma ExcessLessAt(inst: Instance, scen: Scenario, ov: seq<SupplyOverride>, ov': seq<SupplyOverride>, x: Grid,
                     k: Cell)
    requires Wellformed(inst) && scen != A && CapacityCell(inst, k)
    requires Shortfall(inst, ov, x, k) < Shortfall(inst, ov', x, k)
    ensures ValueAt(ExcessNeeded(inst, scen, ov, x), k) < ValueAt(ExcessNeeded(inst, scen, ov', x), k)
  {
    ExcessAt(inst, scen, ov, x, k);
    ExcessAt(inst, scen, ov', x, k);
  }

  lemma ExcessLess(inst: Instance, scen: Scenario, ov: seq<SupplyOverride>, ov': seq<SupplyOverride>, x: Grid, k: Cell)
    requires Wellformed(inst) && NowhereMore(inst, ov, ov', x) && CapacityCell(inst, k)
    requires ValueAt(ExcessNeeded(inst, scen, ov, x), k) < ValueAt(ExcessNeeded(inst, scen, ov', x), k)
    ensures ExcessSum(inst, scen, ov, x) < ExcessSum(inst, scen, ov', x)
  {
    ExcessOrdered(inst, scen, ov, ov', x);
    CellwiseLess(inst, ExcessNeeded(inst, scen, ov, x), ExcessNeeded(inst, scen, ov', x), k);
  }

  // --- the condition is exact for disruptions that only cut or only raise ---------------------------------

  ghost predicate Cuts(inst: Instance, ov: seq<SupplyOverride>) {
    forall k: Cell :: CapacityCell(inst, k) ==> SolverSupply(inst, ov, k.0, k.1) <= inst.locations[k.0].supply
  }

  ghost predicate Raises(inst: Instance, ov: seq<SupplyOverride>) {
    forall k: Cell :: CapacityCell(inst, k) ==> SolverSupply(inst, ov, k.0, k.1) >= inst.locations[k.0].supply
  }

  lemma MoreSupplyLess(inst: Instance, ov: seq<SupplyOverride>, ov': seq<SupplyOverride>, x: Grid, k: Cell)
    requires Wellformed(inst) && k.0 < |inst.locations|
    requires SolverSupply(inst, ov, k.0, k.1) >= SolverSupply(inst, ov', k.0, k.1)
    ensures Shortfall(inst, ov, x, k) <= Shortfall(inst, ov', x, k)
  {
    AtMembers(inst, x, k.0, k.1);
    var n := Needed(inst, At(inst, x, k.0, k.1));
    ShortfallIs(inst, ov, x, k, n, SolverSupply(inst, ov, k.0, k.1));
    ShortfallIs(inst, ov', x, k, n, SolverSupply(inst, ov', k.0, k.1));
  }

  lemma OneWayCharges(inst: Instance, ov: seq<SupplyOverride>, x: Grid)
    requires Wellformed(inst)
    ensures Cuts(inst, ov) ==> NowhereMore(inst, [], ov, x)
    ensures Raises(inst, ov) ==> NowhereMore(inst, ov, [], x)
  {
    forall k | CapacityCell(inst, k)
      ensures Cuts(inst, ov) ==> Shortfall(inst, [], x, k) <= Shortfall(inst, ov, x, k)
      ensures Raises(inst, ov) ==> Shortfall(inst, ov, x, k) <= Shortfall(inst, [], x, k)
    {
      if Cuts(inst, ov) { MoreSupplyLess(inst, [], ov, x, k); }
      if Raises(inst, ov) { MoreSupplyLess(inst, ov, [], x, k); }
    }
  }

  /** Under A, or when supply is only cut, no report is above the plan's cost. */
  lemma CutsLeaveOut(inst: Instance, scen: Scenario, ov: seq<SupplyOverride>, x: Grid)
    requires Wellformed(inst) && (scen == A || Cuts(inst, ov))
    ensures Unreported(inst, scen, ov, x) >= 0
  {
    EmptyChargeExact(inst, scen);
    if scen != A {
      OneWayCharges(inst, ov, x);
      ExcessLe(inst, scen, [], ov, x);
    }
  }

  ghost predicate NothingLeftOut(inst: Instance, scen: Scenario, ov: seq<SupplyOverride>)
    requires Wellformed(inst)
  {
    forall x :: InHorizon(inst, x) ==> Unreported(inst, scen, ov, x) == 0
  }

  lemma NothingScheduled(inst: Instance, scen: Scenario, ov: seq<SupplyOverride>)
    requires Wellformed(inst) && ValidOverrides(inst, ov)
    ensures Unreported(inst, scen, ov, {}) == EmptyCharge(inst, scen)
  {
    forall k | CapacityCell(inst, k) ensures Shortfall(inst, ov, {}, k) == 0 && Shortfall(inst, [], {}, k) == 0 {
      assert At(inst, {}, k.0, k.1) == {};
      NoneNeeded(inst);
      SupplyNonNegative(inst, ov, k.0, k.1);
    }
    ExcessLe(inst, scen, ov, [], {});
    ExcessLe(inst, scen, [], ov, {});
  }

  lemma FeltIsCharged(inst: Instance, scen: Scenario, ov: seq<SupplyOverride>) returns (x: Grid)
    requires Wellformed(inst) && ValidOverrides(inst, ov) && (Cuts(inst, ov) || Raises(inst, ov))
    requires scen != A && !Unfelt(inst, ov)
    ensures InHorizon(inst, x) && ExcessSum(inst, scen, ov, x) != ExcessSum(inst, scen, [], x)
  {
    UnfeltExact(inst, ov);
    var k;
    x, k :| InHorizon(inst, x) && CapacityCell(inst, k) && Shortfall(inst, ov, x, k) != Shortfall(inst, [], x, k);
    OneWayCharges(inst, ov, x);
    if Cuts(inst, ov) {
      ExcessLessAt(inst, scen, [], ov, x, k);
      ExcessLess(inst, scen, [], ov, x, k);
    } else {
      ExcessLessAt(inst, scen, ov, [], x, k);
      ExcessLess(inst, scen, ov, [], x, k);
    }
  }

  // --- a week at a time ---------------------------------------------------------------------------------------

  ghost predicate OneWeek(x: Grid, w: int) {
    forall p :: p in x ==> p.1 == w
  }

  ghost predicate ChargedAlikeIn(inst: Instance, scen: Scenario, ov: seq<SupplyOverride>, x: Grid)
    requires Wellformed(inst)
  {
    ExcessSum(inst, scen, ov, x) == ExcessSum(inst, scen, [], x)
  }

  /** In no week is any group of activities charged another total. */
  ghost predicate Balanced(inst: Instance, scen: Scenario, ov: seq<SupplyOverride>)
    requires Wellformed(inst)
  {
    forall x, w :: InHorizon(inst, x) && OneWeek(x, w) ==> ChargedAlikeIn(inst, scen, ov, x)
  }

  ghost function Through(x: Grid, h: int): Grid {
    set p | p in x && p.1 <= h
  }

  ghost function InOnly(x: Grid, w: int): Grid {
    set p | p in x && p.1 == w
  }

  lemma NoneHere(inst: Instance, ov: seq<SupplyOverride>, x: Grid, k: Cell)
    requires Wellformed(inst) && ValidOverrides(inst, ov) && k.0 < |inst.locations| && At(inst, x, k.0, k.1) == {}
    ensures Shortfall(inst, ov, x, k) == 0
  {
    NoneNeeded(inst);
    SupplyNonNegative(inst, ov, k.0, k.1);
  }

  lemma AtThrough(inst: Instance, x: Grid, h: int, k: Cell)
    ensures At(inst, Through(x, h), k.0, k.1) == if k.1 <= h then At(inst, x, k.0, k.1) else {}
    ensures At(inst, InOnly(x, h), k.0, k.1) == if k.1 == h then At(inst, x, k.0, k.1) else {}
  {
  }

  /** At each location-week, what is charged through a week is what is charged through the last, or in it. */
  lemma ShortfallAdds(inst: Instance, ov: seq<SupplyOverride>, x: Grid, h: int, k: Cell)
    requires Wellformed(inst) && ValidOverrides(inst, ov) && k.0 < |inst.locations|
    ensures Shortfall(inst, ov, Through(x, h), k)
         == Shortfall(inst, ov, Through(x, h - 1), k) + Shortfall(inst, ov, InOnly(x, h), k)
  {
    AtThrough(inst, x, h, k);
    AtThrough(inst, x, h - 1, k);
    if k.1 >= h { NoneHere(inst, ov, Through(x, h - 1), k); }
    if k.1 != h { NoneHere(inst, ov, InOnly(x, h), k); }
    if k.1 > h { NoneHere(inst, ov, Through(x, h), k); }
  }

  lemma ExcessAddsAt(inst: Instance, scen: Scenario, ov: seq<SupplyOverride>, x: Grid, h: int, k: Cell)
    requires Wellformed(inst) && ValidOverrides(inst, ov) && scen != A && k.0 < |inst.locations|
    ensures ValueAt(ExcessNeeded(inst, scen, ov, Through(x, h)), k)
         == ValueAt(ExcessNeeded(inst, scen, ov, Through(x, h - 1)), k)
            + ValueAt(ExcessNeeded(inst, scen, ov, InOnly(x, h)), k)
  {
    ShortfallAdds(inst, ov, x, h, k);
    ExcessAt(inst, scen, ov, Through(x, h), k);
    ExcessAt(inst, scen, ov, Through(x, h - 1), k);
    ExcessAt(inst, scen, ov, InOnly(x, h), k);
  }

  lemma ExcessAddsEverywhere(inst: Instance, scen: Scenario, ov: seq<SupplyOverride>, x: Grid, h: int)
    requires Wellformed(inst) && ValidOverrides(inst, ov) && scen != A
    ensures CellwiseSum(inst, ExcessNeeded(inst, scen, ov, Through(x, h - 1)),
                        ExcessNeeded(inst, scen, ov, InOnly(x, h)), ExcessNeeded(inst, scen, ov, Through(x, h)))
  {
    forall l: nat, w | l < |inst.locations| && 1 <= w <= inst.weeks
      ensures ValueAt(ExcessNeeded(inst, scen, ov, Through(x, h)), (l, w))
           == ValueAt(ExcessNeeded(inst, scen, ov, Through(x, h - 1)), (l, w))
              + ValueAt(ExcessNeeded(inst, scen, ov, InOnly(x, h)), (l, w))
    {
      ExcessAddsAt(inst, scen, ov, x, h, (l, w));
    }
  }

  lemma ExcessAdds(inst: Instance, scen: Scenario, ov: seq<SupplyOverride>, x: Grid, h: int)
    requires Wellformed(inst) && ValidOverrides(inst, ov) && scen != A
    ensures ExcessSum(inst, scen, ov, Through(x, h))
         == ExcessSum(inst, scen, ov, Through(x, h - 1)) + ExcessSum(inst, scen, ov, InOnly(x, h))
  {
    ExcessAddsEverywhere(inst, scen, ov, x, h);
    CellwiseAdd(inst, ExcessNeeded(inst, scen, ov, Through(x, h - 1)), ExcessNeeded(inst, scen, ov, InOnly(x, h)),
                ExcessNeeded(inst, scen, ov, Through(x, h)));
  }

  lemma BalancedStart(inst: Instance, scen: Scenario, ov: seq<SupplyOverride>, x: Grid, h: int)
    requires Wellformed(inst) && Balanced(inst, scen, ov) && InHorizon(inst, x) && h <= 0
    ensures ChargedAlikeIn(inst, scen, ov, Through(x, h))
  {
    BeforeHorizon(inst, x, h);
    WeekBalanced(inst, scen, ov, Through(x, h), h);
  }

  lemma BalancedThrough(inst: Instance, scen: Scenario, ov: seq<SupplyOverride>, x: Grid, h: nat)
    requires Wellformed(inst) && ValidOverrides(inst, ov) && Balanced(inst, scen, ov) && InHorizon(inst, x) && scen != A
    ensures ChargedAlikeIn(inst, scen, ov, Through(x, h))
  {
    BalancedStart(inst, scen, ov, x, 0);
    for k := 0 to h
      invariant ChargedAlikeIn(inst, scen, ov, Through(x, k))
    {
      assert k + 1 - 1 == k;
      BalancedStep(inst, scen, ov, x, k + 1);
    }
  }

  lemma BeforeHorizon(inst: Instance, x: Grid, h: int)
    requires InHorizon(inst, x) && h <= 0
    ensures InHorizon(inst, Through(x, h)) && OneWeek(Through(x, h), h)
  {
    forall p | p in x ensures 1 <= p.1 { assert (p.0, p.1) in x; }
  }

  lemma BalancedStep(inst: Instance, scen: Scenario, ov: seq<SupplyOverride>, x: Grid, h: int)
    requires Wellformed(inst) && ValidOverrides(inst, ov) && Balanced(inst, scen, ov) && InHorizon(inst, x) && scen != A
    requires ChargedAlikeIn(inst, scen, ov, Through(x, h - 1))
    ensures ChargedAlikeIn(inst, scen, ov, Through(x, h))
  {
    ExcessAdds(inst, scen, ov, x, h);
    ExcessAdds(inst, scen, [], x, h);
    WeekInHorizon(inst, x, h);
    WeekBalanced(inst, scen, ov, InOnly(x, h), h);
  }

  lemma WeekInHorizon(inst: Instance, x: Grid, w: int)
    requires InHorizon(inst, x)
    ensures InHorizon(inst, InOnly(x, w)) && OneWeek(InOnly(x, w), w)
  {
  }

  lemma WeekBalanced(inst: Instance, scen: Scenario, ov: seq<SupplyOverride>, x: Grid, w: int)
    requires Wellformed(inst) && Balanced(inst, scen, ov) && InHorizon(inst, x) && OneWeek(x, w)
    ensures ChargedAlikeIn(inst, scen, ov, x)
  {
  }

  lemma NothingThrough(inst: Instance, x: Grid)
    requires InHorizon(inst, x)
    ensures Through(x, 0) == {} && Through(x, inst.weeks) == x
  {
    forall p | p in x ensures 1 <= p.1 <= inst.weeks { assert (p.0, p.1) in x; }
  }

  /** Charged alike week by week, charged alike in all. */
  lemma BalancedSums(inst: Instance, scen: Scenario, ov: seq<SupplyOverride>, x: Grid)
    requires Wellformed(inst) && ValidOverrides(inst, ov) && Balanced(inst, scen, ov) && InHorizon(inst, x)
    ensures scen != A ==> ExcessSum(inst, scen, ov, x) == ExcessSum(inst, scen, [], x)
  {
    if scen != A {
      BalancedThrough(inst, scen, ov, x, inst.weeks);
      NothingThrough(inst, x);
    }
  }

  /** What no group of users at a location feels is balanced; for cuts alone, or raises alone, nothing else is. */
  lemma BalancedOneWay(inst: Instance, scen: Scenario, ov: seq<SupplyOverride>)
    requires Wellformed(inst) && ValidOverrides(inst, ov) && scen != A
    ensures Unfelt(inst, ov) ==> Balanced(inst, scen, ov)
    ensures Cuts(inst, ov) || Raises(inst, ov) ==> (Balanced(inst, scen, ov) <==> Unfelt(inst, ov))
  {
    if Unfelt(inst, ov) {
      forall x ensures ChargedAlikeIn(inst, scen, ov, x) { UnfeltSum(inst, scen, ov, x); }
    } else if (Cuts(inst, ov) || Raises(inst, ov)) && Balanced(inst, scen, ov) {
      var x := FeltIsCharged(inst, scen, ov);
      BalancedSums(inst, scen, ov, x);
      assert false;
    }
  }

  lemma UnfeltSum(inst: Instance, scen: Scenario, ov: seq<SupplyOverride>, x: Grid)
    requires Wellformed(inst) && Unfelt(inst, ov)
    ensures ExcessSum(inst, scen, ov, x) == ExcessSum(inst, scen, [], x)
  {
    forall k | CapacityCell(inst, k) ensures Shortfall(inst, ov, x, k) == Shortfall(inst, [], x, k) {
      UnfeltAt(inst, ov, x, k);
    }
    ExcessLe(inst, scen, ov, [], x);
    ExcessLe(inst, scen, [], ov, x);
  }

  // --- when nothing is left out -------------------------------------------------------------------------------

  /**
   * A condition on the inputs alone: week by week supply is charged as nominal, or not scored, and no empty activity
   * is.
   */
  ghost predicate ReportsAll(inst: Instance, scen: Scenario, ov: seq<SupplyOverride>)
    requires Wellformed(inst)
  {
    (scen == A || Balanced(inst, scen, ov)) && (scen == B || NoLateEmpty(inst))
  }

  lemma AllReported(inst: Instance, scen: Scenario, ov: seq<SupplyOverride>, x: Grid)
    requires Wellformed(inst) && ValidOverrides(inst, ov) && ReportsAll(inst, scen, ov) && InHorizon(inst, x)
    ensures Unreported(inst, scen, ov, x) == 0
  {
    EmptyChargeExact(inst, scen);
    if scen != A { BalancedSums(inst, scen, ov, x); }
  }

  /** For every disruption: no plan's report leaves anything out exactly when the condition on the inputs holds. */
  lemma ReportExact(inst: Instance, scen: Scenario, ov: seq<SupplyOverride>)
    requires Wellformed(inst) && ValidOverrides(inst, ov)
    ensures NothingLeftOut(inst, scen, ov) <==> ReportsAll(inst, scen, ov)
  {
    if NothingLeftOut(inst, scen, ov) {
      assert InHorizon(inst, {});
      NothingScheduled(inst, scen, ov);
      EmptyChargeExact(inst, scen);
      if scen != A {
        forall x, w | InHorizon(inst, x) && OneWeek(x, w)
          ensures ChargedAlikeIn(inst, scen, ov, x)
        {
          assert Unreported(inst, scen, ov, x) == 0;
        }
      }
    }
    if ReportsAll(inst, scen, ov) {
      forall x | InHorizon(inst, x) ensures Unreported(inst, scen, ov, x) == 0 { AllReported(inst, scen, ov, x); }
    }
  }
}
