/** Scoring a plan: last weeks, overrun, excess and the scenario's objective, by loops over the plan. */
module Scoring {
  import opened Model
  import opened Rules
  import opened Plans

  datatype Score = Score(weighted: int, excess: int, eclo: int, objective: int, nights: nat)

  ghost predicate AccessesInRange(inst: Instance, s: seq<Access>) {
    forall i :: 0 <= i < |s| ==> s[i].activity < |inst.activities| && 1 <= s[i].week <= inst.weeks
  }

  function Max(a: int, b: int): int { if a < b then b else a }

  lemma {:induction false} LastInAdd(x: Grid, b: nat, w: int, a: nat, h: nat)
    requires 1 <= w <= h
    ensures LastIn(x + {(b, w)}, a, h) == if a == b then Max(LastIn(x, a, h), w) else LastIn(x, a, h)
  {
    LastInProps(x, a, h);
    LastInProps(x + {(b, w)}, a, h);
    if a == b { assert (a, w) in x + {(b, w)}; }
  }

  lemma ContractLastInAdd(inst: Instance, x: Grid, b: nat, w: int, c: nat, h: nat)
    requires 1 <= w <= h && b < |inst.activities|
    ensures ContractLastIn(inst, x + {(b, w)}, c, h)
         == if inst.activities[b].contract == c then Max(ContractLastIn(inst, x, c, h), w)
            else ContractLastIn(inst, x, c, h)
  {
    var x' := x + {(b, w)};
    ContractLastInProps(inst, x, c, h);
    ContractLastInProps(inst, x', c, h);
    var u, v := ContractLastIn(inst, x, c, h), ContractLastIn(inst, x', c, h);
    if inst.activities[b].contract == c { assert (b, w) in x'; }
    if u > 0 {
      var a: nat :| a < |inst.activities| && inst.activities[a].contract == c && (a, u as int) in x;
      assert (a, u as int) in x';
    }
    if v > 0 {
      var a: nat :| a < |inst.activities| && inst.activities[a].contract == c && (a, v as int) in x';
      assert (a, v as int) in x || (a == b && v == w);
    }
  }

  lemma {:induction false} NoWeeks(a: nat, h: nat)
    ensures LastIn({}, a, h) == 0
  {
    if h > 0 { NoWeeks(a, h - 1); }
  }

  lemma {:induction false} NoContractWeeks(inst: Instance, c: nat, h: nat)
    ensures ContractLastIn(inst, {}, c, h) == 0
  {
    if h > 0 { NoContractWeeks(inst, c, h - 1); }
  }

  method ActivityLastWeek(inst: Instance, s: seq<Access>) returns (last: seq<int>)
    requires AccessesInRange(inst, s)
    ensures |last| == |inst.activities|
    ensures forall a :: 0 <= a < |last| ==> last[a] == LastIn(XOf(s), a, inst.weeks)
  {
    last := seq(|inst.activities|, _ => 0);
    assert XOf(s[..0]) == {};
    forall a: nat ensures LastIn(XOf(s[..0]), a, inst.weeks) == 0 { NoWeeks(a, inst.weeks); }
    for i := 0 to |s|
      invariant |last| == |inst.activities|
      invariant forall a :: 0 <= a < |last| ==> last[a] == LastIn(XOf(s[..i]), a, inst.weeks)
    {
      var b, w := s[i].activity, s[i].week;
      assert s[..i + 1][..i] == s[..i];
      XOfSnoc(s[..i + 1]);
      forall a: nat
        ensures LastIn(XOf(s[..i + 1]), a, inst.weeks)
             == if a == b then Max(LastIn(XOf(s[..i]), a, inst.weeks), w) else LastIn(XOf(s[..i]), a, inst.weeks)
      {
        LastInAdd(XOf(s[..i]), b, w, a, inst.weeks);
      }
      last := last[b := Max(last[b], w)];
    }
    assert s[..|s|] == s;
  }

  method ContractLastWeek(inst: Instance, s: seq<Access>) returns (last: seq<int>)
    requires KnownContracts(inst) && AccessesInRange(inst, s)
    ensures |last| == |inst.contracts|
    ensures forall c :: 0 <= c < |last| ==> last[c] == ContractLastIn(inst, XOf(s), c, inst.weeks)
  {
    last := seq(|inst.contracts|, _ => 0);
    assert XOf(s[..0]) == {};
    forall c: nat ensures ContractLastIn(inst, XOf(s[..0]), c, inst.weeks) == 0 {
      NoContractWeeks(inst, c, inst.weeks);
    }
    for i := 0 to |s|
      invariant |last| == |inst.contracts|
      invariant forall c :: 0 <= c < |last| ==> last[c] == ContractLastIn(inst, XOf(s[..i]), c, inst.weeks)
    {
      var b, w := s[i].activity, s[i].week;
      var k := inst.activities[b].contract;
      assert s[..i + 1][..i] == s[..i];
      XOfSnoc(s[..i + 1]);
      forall c: nat
        ensures ContractLastIn(inst, XOf(s[..i + 1]), c, inst.weeks)
             == if k == c then Max(ContractLastIn(inst, XOf(s[..i]), c, inst.weeks), w)
                else ContractLastIn(inst, XOf(s[..i]), c, inst.weeks)
      {
        ContractLastInAdd(inst, XOf(s[..i]), b, w, c, inst.weeks);
      }
      last := last[k := Max(last[k], w)];
    }
    assert s[..|s|] == s;
  }

  /** Days late of every activity that works at all, weighted by its contract's tier and its own priority. */
  method WeightedOverrun(inst: Instance, s: seq<Access>) returns (total: int)
    requires KnownContracts(inst) && AccessesInRange(inst, s)
    ensures total == WeightedSum(inst, OverrunDays(inst, XOf(s)), |inst.activities|)
  {
    var last := ActivityLastWeek(inst, s);
    total := 0;
    for a := 0 to |inst.activities|
      invariant total == WeightedSum(inst, OverrunDays(inst, XOf(s)), a)
    {
      if last[a] != 0 {
        var days := DaysLate(inst, a, last[a]);
        if days > 0 { total := total + ActivityWeight(inst, a) * days; }
      }
    }
  }

  ghost function Left(m: map<Cell, int>, todo: set<Cell>): map<Cell, int> {
    map k | k in m && k in todo :: m[k]
  }

  lemma LeftStep(m: map<Cell, int>, todo: set<Cell>, k: Cell)
    requires k in m && k in todo
    ensures MapSum(Left(m, todo)) == m[k] + MapSum(Left(m, todo - {k}))
  {
    MapSumWithout(Left(m, todo), k);
    assert Left(m, todo) - {k} == Left(m, todo - {k});
  }

  lemma ExcessEntry(inst: Instance, plan: Plan, k: Cell, over: int)
    requires forall j :: j in plan.slotsUsed ==> j.0 < |inst.locations|
    requires k in plan.slotsUsed && over == plan.slotsUsed[k] - EffectiveSupply(inst, plan.overrides, k.0, k.1)
    ensures k in ExcessOf(inst, plan) && ExcessOf(inst, plan)[k] == Max(0, over)
  {
  }

  /** Access-nights above supply over all occupied location-weeks. */
  method ExcessNights(inst: Instance, plan: Plan) returns (total: int)
    requires forall k :: k in plan.slotsUsed ==> k.0 < |inst.locations|
    ensures total == MapSum(ExcessOf(inst, plan))
  {
    total := 0;
    var todo := plan.slotsUsed.Keys;
    ghost var excess := ExcessOf(inst, plan);
    assert Left(excess, todo) == excess;
    while todo != {}
      invariant todo <= plan.slotsUsed.Keys
      invariant total + MapSum(Left(excess, todo)) == MapSum(excess)
      decreases todo
    {
      var k: Cell :| k in todo;
      LeftStep(excess, todo, k);
      var over := plan.slotsUsed[k] - EffectiveSupply(inst, plan.overrides, k.0, k.1);
      ExcessEntry(inst, plan, k, over);
      total := total + Max(0, over);
      todo := todo - {k};
    }
    assert Left(excess, todo) == map[];
  }

  lemma OverrunSpelled(inst: Instance, s: seq<Access>)
    requires KnownContracts(inst) && AccessesInRange(inst, s)
    ensures forall a: nat :: a < |inst.activities| ==> DaysOver(inst, s, a, OverrunDays(inst, XOf(s))[a])
  {
    var x := XOf(s);
    forall a: nat | a < |inst.activities| ensures DaysOver(inst, s, a, OverrunDays(inst, x)[a]) {
      var w := LastIn(x, a, inst.weeks);
      LastInProps(x, a, inst.weeks);
      forall i | 0 <= i < |s| && s[i].activity == a ensures 0 < s[i].week <= w { assert (a, s[i].week) in x; }
      if w > 0 { var j :| 0 <= j < |s| && (s[j].activity, s[j].week) == (a, w as int); }
    }
  }

  lemma {:induction false} EcloSpelled(s: seq<Access>)
    ensures EcloCount(s) == |set i | 0 <= i < |s| && s[i].eclo|
  {
    if s != [] {
      var t := s[..|s| - 1];
      EcloSpelled(t);
      var now, before := set i | 0 <= i < |s| && s[i].eclo, set i | 0 <= i < |t| && t[i].eclo;
      assert now == before + if s[|s| - 1].eclo then {|s| - 1} else {};
    }
  }

  /** The nights above supply at a location-week, against the supply its first override or its location gives. */
  lemma ExcessSpelled(inst: Instance, plan: Plan, k: Cell, n: int)
    requires (forall k :: k in plan.slotsUsed ==> k.0 < |inst.locations|) && k in plan.slotsUsed
    requires SupplyIs(inst, plan.overrides, k, n)
    ensures ExcessOf(inst, plan)[k] == if plan.slotsUsed[k] > n then plan.slotsUsed[k] - n else 0
  {
    SupplySpelled(inst, plan.overrides, k, n);
  }

  /** The scenario's objective in exact tenths, with its parts. */
  method ComputeScore(inst: Instance, plan: Plan) returns (r: Score)
    requires KnownContracts(inst) && AccessesInRange(inst, plan.accesses)
    requires forall k :: k in plan.slotsUsed ==> k.0 < |inst.locations|
    ensures r.objective == ScoreTenths(inst, plan)
    ensures r.weighted == WeightedSum(inst, OverrunDays(inst, XOf(plan.accesses)), |inst.activities|)
    ensures r.excess == MapSum(ExcessOf(inst, plan))
    ensures r.eclo == EcloCount(plan.accesses) && r.nights == |plan.accesses|
    ensures forall a: nat :: a < |inst.activities| ==>
      DaysOver(inst, plan.accesses, a, OverrunDays(inst, XOf(plan.accesses))[a])
    ensures r.eclo == |set i | 0 <= i < |plan.accesses| && plan.accesses[i].eclo|
    ensures Graded(inst) ==>
      var late := TenthsOfDays(inst, OverrunDays(inst, XOf(plan.accesses)), |inst.activities|);
      r.objective == match plan.scenario
        case A => late
        case B => 70 * r.excess + 50 * r.eclo
        case C => late + 70 * r.excess + 50 * r.eclo
  {
    if Graded(inst) { WeightsSpelled(inst, OverrunDays(inst, XOf(plan.accesses)), |inst.activities|); }
    OverrunSpelled(inst, plan.accesses);
    EcloSpelled(plan.accesses);
    var s := plan.accesses;
    var eclo := 0;
    for i := 0 to |s|
      invariant eclo == EcloCount(s[..i])
    {
      assert s[..i + 1][..i] == s[..i];
      if s[i].eclo { eclo := eclo + 1; }
    }
    assert s[..|s|] == s;
    var weighted := WeightedOverrun(inst, s);
    var excess := ExcessNights(inst, plan);
    var objective;
    match plan.scenario {
      case A => objective := weighted;
      case B => objective := 10 * (EXCESS_PENALTY * excess + ECLO_PENALTY * eclo);
      case C => objective := weighted + 10 * (EXCESS_PENALTY * excess + ECLO_PENALTY * eclo);
    }
    r := Score(weighted, excess, eclo, objective, |s|);
  }
}
