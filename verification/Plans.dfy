/** Plans: their activity-weeks, their score, and the plan a set of activity-weeks determines. */
module Plans {
  import opened Counting
  import opened Model
  import opened Rules
  import opened Packing
  import opened Nights

  // --- reading a plan's accesses -----------------------------------------------------

  ghost function XOf(s: seq<Access>): Grid {
    set i | 0 <= i < |s| :: (s[i].activity, s[i].week)
  }

  ghost function EOf(s: seq<Access>): Grid {
    set i | 0 <= i < |s| && s[i].eclo :: (s[i].activity, s[i].week)
  }

  /** At most one access per activity and week. */
  ghost predicate Distinct(s: seq<Access>) {
    forall i, j :: 0 <= i < j < |s| ==> s[i].activity != s[j].activity || s[i].week != s[j].week
  }

  ghost function Row(x: Grid, a: nat): Grid {
    set p | p in x && p.0 == a
  }

  /** Workload in tenths of an access. */
  ghost function Yield(s: seq<Access>, a: nat): nat {
    if s == [] then 0
    else Yield(s[..|s| - 1], a)
         + if s[|s| - 1].activity != a then 0 else if s[|s| - 1].eclo then ECLO_YIELD else STD_YIELD
  }

  lemma XOfSnoc(s: seq<Access>)
    requires s != []
    ensures XOf(s) == XOf(s[..|s| - 1]) + {(s[|s| - 1].activity, s[|s| - 1].week)}
    ensures EOf(s) == EOf(s[..|s| - 1])
                      + if s[|s| - 1].eclo then {(s[|s| - 1].activity, s[|s| - 1].week)} else {}
  {
    var t, z := s[..|s| - 1], s[|s| - 1];
    forall p | p in XOf(s) ensures p in XOf(t) + {(z.activity, z.week)} {
      var i :| 0 <= i < |s| && p == (s[i].activity, s[i].week);
      if i < |t| { assert t[i] == s[i]; }
    }
    forall p | p in XOf(t) ensures p in XOf(s) {
      var i :| 0 <= i < |t| && p == (t[i].activity, t[i].week);
      assert s[i] == t[i];
    }
    forall p | p in EOf(s) ensures p in EOf(t) + if z.eclo then {(z.activity, z.week)} else {} {
      var i :| 0 <= i < |s| && s[i].eclo && p == (s[i].activity, s[i].week);
      if i < |t| { assert t[i] == s[i]; }
    }
    forall p | p in EOf(t) ensures p in EOf(s) {
      var i :| 0 <= i < |t| && t[i].eclo && p == (t[i].activity, t[i].week);
      assert s[i] == t[i];
    }
  }

  lemma RowAdd(x: Grid, p: (nat, int), a: nat)
    requires p !in x
    ensures |Row(x + {p}, a)| == |Row(x, a)| + if p.0 == a then 1 else 0
  {
    if p.0 == a {
      assert Row(x + {p}, a) == Row(x, a) + {p};
    } else {
      assert Row(x + {p}, a) == Row(x, a);
    }
  }

  lemma NotYet(s: seq<Access>)
    requires s != [] && Distinct(s)
    ensures (s[|s| - 1].activity, s[|s| - 1].week) !in XOf(s[..|s| - 1])
    ensures (s[|s| - 1].activity, s[|s| - 1].week) !in EOf(s[..|s| - 1])
  {
  }

  /** Without double accesses the yield is ten per night taken and five more per ECLO night. */
  lemma {:induction false} YieldOfSets(s: seq<Access>, a: nat)
    requires Distinct(s)
    ensures Yield(s, a) == STD_YIELD * |Row(XOf(s), a)| + (ECLO_YIELD - STD_YIELD) * |Row(EOf(s), a)|
  {
    if s == [] {
      assert Row(XOf(s), a) == {} && Row(EOf(s), a) == {};
    } else {
      var t, z := s[..|s| - 1], s[|s| - 1];
      var p := (z.activity, z.week);
      YieldOfSets(t, a);
      XOfSnoc(s);
      NotYet(s);
      RowAdd(XOf(t), p, a);
      RowAdd(EOf(t), p, a);
      assert EOf(t) + {} == EOf(t);
    }
  }

  ghost function EcloCount(s: seq<Access>): nat {
    if s == [] then 0 else EcloCount(s[..|s| - 1]) + if s[|s| - 1].eclo then 1 else 0
  }

  lemma {:induction false} EcloCountOfSet(s: seq<Access>)
    requires Distinct(s)
    ensures EcloCount(s) == |EOf(s)|
  {
    if s != [] {
      var t, z := s[..|s| - 1], s[|s| - 1];
      EcloCountOfSet(t);
      XOfSnoc(s);
      assert (z.activity, z.week) !in EOf(t);
    }
  }

  // --- supply -----------------------------------------------------------------------------

  /** The supply the score and the checker use: the first matching override, else the nominal supply. */
  function EffectiveSupply(inst: Instance, overrides: seq<(string, int, int)>, l: nat, w: int): int
    requires l < |inst.locations|
  {
    if overrides == [] then inst.locations[l].supply
    else if overrides[0].1 == w && overrides[0].0 == inst.locations[l].id then overrides[0].2
    else EffectiveSupply(inst, overrides[1..], l, w)
  }

  /** The first override that names the location-week decides; without one the location's own supply holds. */
  lemma {:induction false} SupplySpelled(inst: Instance, overrides: seq<(string, int, int)>, k: Cell, n: int)
    requires k.0 < |inst.locations|
    ensures SupplyIs(inst, overrides, k, n) <==> n == EffectiveSupply(inst, overrides, k.0, k.1)
  {
    if overrides != [] {
      var id, rest := inst.locations[k.0].id, overrides[1..];
      SupplySpelled(inst, rest, k, n);
      forall j | 0 <= j < |rest| ensures rest[j] == overrides[j + 1] {}
      if overrides[0].0 != id || overrides[0].1 != k.1 {
        assert (forall j :: 0 <= j < |rest| ==> rest[j].0 != id || rest[j].1 != k.1) <==>
               (forall j :: 0 <= j < |overrides| ==> overrides[j].0 != id || overrides[j].1 != k.1) by {
          assert forall j :: 1 <= j < |overrides| ==> overrides[j] == rest[j - 1];
        }
        NamedLater(inst, overrides, k, n);
      }
    }
  }

  /** Override i is the first to name the location-week, and replaces its supply by n. */
  ghost predicate NamedFirst(inst: Instance, overrides: seq<(string, int, int)>, k: Cell, n: int, i: int)
    requires k.0 < |inst.locations|
  {
    && 0 <= i < |overrides| && overrides[i] == (inst.locations[k.0].id, k.1, n)
    && forall j :: 0 <= j < i ==> overrides[j].0 != inst.locations[k.0].id || overrides[j].1 != k.1
  }

  lemma NamedLater(inst: Instance, overrides: seq<(string, int, int)>, k: Cell, n: int)
    requires k.0 < |inst.locations| && overrides != []
    requires overrides[0].0 != inst.locations[k.0].id || overrides[0].1 != k.1
    ensures (exists i :: NamedFirst(inst, overrides, k, n, i))
        <==> exists i :: NamedFirst(inst, overrides[1..], k, n, i)
  {
    var rest := overrides[1..];
    if i :| NamedFirst(inst, overrides, k, n, i) {
      assert i > 0 && rest[i - 1] == overrides[i];
      assert NamedFirst(inst, rest, k, n, i - 1);
    }
    if i :| NamedFirst(inst, rest, k, n, i) {
      assert forall j :: 1 <= j <= i + 1 ==> overrides[j] == rest[j - 1];
      assert NamedFirst(inst, overrides, k, n, i + 1);
    }
  }

  // --- sums over location-weeks --------------------------------------------------------

  function ValueAt(m: map<Cell, int>, k: Cell): int {
    if k in m then m[k] else 0
  }

  function WeekSum(m: map<Cell, int>, l: nat, h: nat): int {
    if h == 0 then 0 else WeekSum(m, l, h - 1) + ValueAt(m, (l, h))
  }

  /** The sum of m over locations below n and weeks 1..h. */
  function GridSum(m: map<Cell, int>, n: nat, h: nat): int {
    if n == 0 then 0 else GridSum(m, n - 1, h) + WeekSum(m, n - 1, h)
  }

  lemma {:induction false} WeekSumLe(m: map<Cell, int>, m': map<Cell, int>, l: nat, h: nat)
    requires forall w :: 1 <= w <= h ==> ValueAt(m, (l, w)) <= ValueAt(m', (l, w))
    ensures WeekSum(m, l, h) <= WeekSum(m', l, h)
  {
    if h > 0 { WeekSumLe(m, m', l, h - 1); }
  }

  lemma {:induction false} GridSumLe(m: map<Cell, int>, m': map<Cell, int>, n: nat, h: nat)
    requires forall l: nat, w :: l < n && 1 <= w <= h ==> ValueAt(m, (l, w)) <= ValueAt(m', (l, w))
    ensures GridSum(m, n, h) <= GridSum(m', n, h)
  {
    if n > 0 {
      GridSumLe(m, m', n - 1, h);
      WeekSumLe(m, m', n - 1, h);
    }
  }

  lemma {:induction false} WeekSumAdd(a: map<Cell, int>, b: map<Cell, int>, c: map<Cell, int>, l: nat, h: nat)
    requires forall w :: 1 <= w <= h ==> ValueAt(c, (l, w)) == ValueAt(a, (l, w)) + ValueAt(b, (l, w))
    ensures WeekSum(c, l, h) == WeekSum(a, l, h) + WeekSum(b, l, h)
  {
    if h > 0 { WeekSumAdd(a, b, c, l, h - 1); }
  }

  lemma {:induction false} GridSumAdd(a: map<Cell, int>, b: map<Cell, int>, c: map<Cell, int>, n: nat, h: nat)
    requires forall l: nat, w :: l < n && 1 <= w <= h ==> ValueAt(c, (l, w)) == ValueAt(a, (l, w)) + ValueAt(b, (l, w))
    ensures GridSum(c, n, h) == GridSum(a, n, h) + GridSum(b, n, h)
  {
    if n > 0 {
      GridSumAdd(a, b, c, n - 1, h);
      WeekSumAdd(a, b, c, n - 1, h);
    }
  }

  lemma {:induction false} WeekSumLess(m: map<Cell, int>, m': map<Cell, int>, l: nat, h: nat, k: int)
    requires forall w :: 1 <= w <= h ==> ValueAt(m, (l, w)) <= ValueAt(m', (l, w))
    requires 1 <= k <= h && ValueAt(m, (l, k)) < ValueAt(m', (l, k))
    ensures WeekSum(m, l, h) < WeekSum(m', l, h)
  {
    if k == h { WeekSumLe(m, m', l, h - 1); } else { WeekSumLess(m, m', l, h - 1, k); }
  }

  lemma {:induction false} GridSumLess(m: map<Cell, int>, m': map<Cell, int>, n: nat, h: nat, k: Cell)
    requires forall l: nat, w :: l < n && 1 <= w <= h ==> ValueAt(m, (l, w)) <= ValueAt(m', (l, w))
    requires k.0 < n && 1 <= k.1 <= h && ValueAt(m, k) < ValueAt(m', k)
    ensures GridSum(m, n, h) < GridSum(m', n, h)
  {
    if k.0 == n - 1 {
      GridSumLe(m, m', n - 1, h);
      WeekSumLess(m, m', n - 1, h, k.1);
    } else {
      GridSumLess(m, m', n - 1, h, k);
      WeekSumLe(m, m', n - 1, h);
    }
  }

  /** m is nowhere larger than m' in the instance's location-weeks. */
  ghost predicate CellwiseLe(inst: Instance, m: map<Cell, int>, m': map<Cell, int>) {
    forall l: nat, w :: l < |inst.locations| && 1 <= w <= inst.weeks ==> ValueAt(m, (l, w)) <= ValueAt(m', (l, w))
  }

  lemma CellwiseSums(inst: Instance, m: map<Cell, int>, m': map<Cell, int>)
    requires CellwiseLe(inst, m, m')
    ensures GridSum(m, |inst.locations|, inst.weeks) <= GridSum(m', |inst.locations|, inst.weeks)
  {
    GridSumLe(m, m', |inst.locations|, inst.weeks);
  }

  lemma CellwiseLess(inst: Instance, m: map<Cell, int>, m': map<Cell, int>, k: Cell)
    requires CellwiseLe(inst, m, m') && k.0 < |inst.locations| && 1 <= k.1 <= inst.weeks
        && ValueAt(m, k) < ValueAt(m', k)
    ensures GridSum(m, |inst.locations|, inst.weeks) < GridSum(m', |inst.locations|, inst.weeks)
  {
    GridSumLess(m, m', |inst.locations|, inst.weeks, k);
  }

  /** c is a and b together in the instance's location-weeks. */
  ghost predicate CellwiseSum(inst: Instance, a: map<Cell, int>, b: map<Cell, int>, c: map<Cell, int>) {
    forall l: nat, w :: l < |inst.locations| && 1 <= w <= inst.weeks ==>
      ValueAt(c, (l, w)) == ValueAt(a, (l, w)) + ValueAt(b, (l, w))
  }

  lemma CellwiseAdd(inst: Instance, a: map<Cell, int>, b: map<Cell, int>, c: map<Cell, int>)
    requires CellwiseSum(inst, a, b, c)
    ensures GridSum(c, |inst.locations|, inst.weeks)
         == GridSum(a, |inst.locations|, inst.weeks) + GridSum(b, |inst.locations|, inst.weeks)
  {
    GridSumAdd(a, b, c, |inst.locations|, inst.weeks);
  }

  ghost predicate SameCells(inst: Instance, m: map<Cell, int>, m': map<Cell, int>) {
    forall l: nat, w :: l < |inst.locations| && 1 <= w <= inst.weeks ==> ValueAt(m, (l, w)) == ValueAt(m', (l, w))
  }

  lemma SameCellsSameSum(inst: Instance, m: map<Cell, int>, m': map<Cell, int>)
    requires SameCells(inst, m, m')
    ensures GridSum(m, |inst.locations|, inst.weeks) == GridSum(m', |inst.locations|, inst.weeks)
  {
    GridSumLe(m, m', |inst.locations|, inst.weeks);
    GridSumLe(m', m, |inst.locations|, inst.weeks);
  }

  // --- sums over the entries of a map ------------------------------------------------------------------

  /** The sum of all values. */
  ghost function MapSum(m: map<Cell, int>): int
    decreases |m|
  {
    if m == map[] then 0
    else
      var k := Pick(m.Keys);
      m[k] + MapSum(m - {k})
  }

  lemma {:induction false} MapSumWithout(m: map<Cell, int>, k: Cell)
    requires k in m
    ensures MapSum(m) == m[k] + MapSum(m - {k})
    decreases |m|
  {
    var p := Pick(m.Keys);
    if p != k {
      MapSumWithout(m - {p}, k);
      MapSumWithout(m - {k}, p);
      assert m - {p} - {k} == m - {k} - {p};
    }
  }

  lemma {:induction false} WeekSumOne(k: Cell, v: int, l: nat, h: nat)
    ensures WeekSum(map[k := v], l, h) == if l == k.0 && 1 <= k.1 <= h then v else 0
  {
    if h > 0 { WeekSumOne(k, v, l, h - 1); }
  }

  lemma {:induction false} GridSumOne(k: Cell, v: int, n: nat, h: nat)
    requires 1 <= k.1 <= h
    ensures GridSum(map[k := v], n, h) == if k.0 < n then v else 0
  {
    if n > 0 {
      GridSumOne(k, v, n - 1, h);
      WeekSumOne(k, v, n - 1, h);
    }
  }

  lemma {:induction false} GridSumNone(n: nat, h: nat)
    ensures GridSum(map[], n, h) == 0
  {
    if n > 0 {
      GridSumNone(n - 1, h);
      WeekSumNone(n - 1, h);
    }
  }

  lemma {:induction false} WeekSumNone(l: nat, h: nat)
    ensures WeekSum(map[], l, h) == 0
  {
    if h > 0 { WeekSumNone(l, h - 1); }
  }

  /** Where every entry lies in the grid, the sum of the entries is the sum over the grid. */
  lemma {:induction false} MapSumIsGridSum(m: map<Cell, int>, n: nat, h: nat)
    requires forall k :: k in m ==> k.0 < n && 1 <= k.1 <= h
    ensures MapSum(m) == GridSum(m, n, h)
    decreases |m|
  {
    if m == map[] {
      GridSumNone(n, h);
    } else {
      var k := Pick(m.Keys);
      MapSumIsGridSum(m - {k}, n, h);
      GridSumOne(k, m[k], n, h);
      GridSumAdd(map[k := m[k]], m - {k}, m, n, h);
    }
  }

  // --- the score ------------------------------------------------------------------------------

  function Max0(n: int): nat { if n > 0 then n else 0 }

  /** Days from the planned completion of a's contract to the Sunday of week w. */
  function DaysLate(inst: Instance, a: nat, w: int): int
    requires a < |inst.activities| && inst.activities[a].contract < |inst.contracts|
  {
    SundayOfWeek(inst, w) - inst.contracts[inst.activities[a].contract].planned
  }

  function ActivityWeight(inst: Instance, a: nat): nat
    requires a < |inst.activities| && inst.activities[a].contract < |inst.contracts|
  {
    ContractWeight(inst.contracts[inst.activities[a].contract].priority)
    * NudgeTenths(inst.activities[a].priority)
  }

  ghost predicate KnownContracts(inst: Instance) {
    forall a :: 0 <= a < |inst.activities| ==> inst.activities[a].contract < |inst.contracts|
  }

  /** The weights of the first n activities against per-activity days. */
  ghost function WeightedSum(inst: Instance, days: seq<int>, n: nat): int
    requires n <= |days| && n <= |inst.activities| && KnownContracts(inst)
  {
    if n == 0 then 0 else WeightedSum(inst, days, n - 1) + ActivityWeight(inst, n - 1) * days[n - 1]
  }

  lemma {:induction false} WeightedSumLe(inst: Instance, days: seq<int>, days': seq<int>, n: nat)
    requires n <= |days| && n <= |days'| && n <= |inst.activities| && KnownContracts(inst)
    requires forall a :: 0 <= a < n ==> days[a] <= days'[a]
    ensures WeightedSum(inst, days, n) <= WeightedSum(inst, days', n)
  {
    if n > 0 {
      WeightedSumLe(inst, days, days', n - 1);
      WeightMono(ActivityWeight(inst, n - 1), days[n - 1], days'[n - 1]);
    }
  }

  lemma WeightMono(k: nat, a: int, b: int)
    requires a <= b
    ensures k * a <= k * b
  {
  }

  lemma {:induction false} WeightedSumAdd(inst: Instance, d: seq<int>, e: seq<int>, f: seq<int>, n: nat)
    requires n <= |d| && n <= |e| && n <= |f| && n <= |inst.activities| && KnownContracts(inst)
    requires forall a :: 0 <= a < n ==> f[a] == d[a] + e[a]
    ensures WeightedSum(inst, f, n) == WeightedSum(inst, d, n) + WeightedSum(inst, e, n)
  {
    if n > 0 { WeightedSumAdd(inst, d, e, f, n - 1); }
  }

  /** Contracts and activities are of priority 1, 2 or 3. */
  ghost predicate Graded(inst: Instance) {
    && (forall c :: 0 <= c < |inst.contracts| ==> 1 <= inst.contracts[c].priority <= 3)
    && (forall a :: 0 <= a < |inst.activities| ==> 1 <= inst.activities[a].priority <= 3)
  }

  /** The days of those of the first n activities that are of priority q in a contract of priority p. */
  ghost function DaysOfPriority(inst: Instance, days: seq<int>, p: int, q: int, n: nat): int
    requires n <= |days| && n <= |inst.activities| && KnownContracts(inst)
  {
    if n == 0 then 0
    else
      var a := inst.activities[n - 1];
      DaysOfPriority(inst, days, p, q, n - 1)
      + if inst.contracts[a.contract].priority == p && a.priority == q then days[n - 1] else 0
  }

  /** What the days of every pair of priorities cost in tenths. */
  ghost function TenthsOfDays(inst: Instance, days: seq<int>, n: nat): int
    requires n <= |days| && n <= |inst.activities| && KnownContracts(inst)
  {
    1300 * DaysOfPriority(inst, days, 1, 1, n) + 1200 * DaysOfPriority(inst, days, 1, 2, n)
    + 1000 * DaysOfPriority(inst, days, 1, 3, n)
    + 130 * DaysOfPriority(inst, days, 2, 1, n) + 120 * DaysOfPriority(inst, days, 2, 2, n)
    + 100 * DaysOfPriority(inst, days, 2, 3, n)
    + 13 * DaysOfPriority(inst, days, 3, 1, n) + 12 * DaysOfPriority(inst, days, 3, 2, n)
    + 10 * DaysOfPriority(inst, days, 3, 3, n)
  }

  /** Weights in numbers: a day costs 130, 120 or 100 in the first tier, a tenth of that in each further one. */
  lemma {:induction false} WeightsSpelled(inst: Instance, days: seq<int>, n: nat)
    requires n <= |days| && n <= |inst.activities| && KnownContracts(inst) && Graded(inst)
    ensures WeightedSum(inst, days, n) == TenthsOfDays(inst, days, n)
  {
    if n > 0 {
      WeightsSpelled(inst, days, n - 1);
      DayCost(inst, n - 1, days[n - 1]);
    }
  }

  /** One activity's days cost the tenths of its pair of priorities. */
  lemma DayCost(inst: Instance, a: nat, d: int)
    requires a < |inst.activities| && KnownContracts(inst) && Graded(inst)
    ensures var p, q := inst.contracts[inst.activities[a].contract].priority, inst.activities[a].priority;
      && (p == 1 && q == 1 ==> ActivityWeight(inst, a) * d == 1300 * d)
      && (p == 1 && q == 2 ==> ActivityWeight(inst, a) * d == 1200 * d)
      && (p == 1 && q == 3 ==> ActivityWeight(inst, a) * d == 1000 * d)
      && (p == 2 && q == 1 ==> ActivityWeight(inst, a) * d == 130 * d)
      && (p == 2 && q == 2 ==> ActivityWeight(inst, a) * d == 120 * d)
      && (p == 2 && q == 3 ==> ActivityWeight(inst, a) * d == 100 * d)
      && (p == 3 && q == 1 ==> ActivityWeight(inst, a) * d == 13 * d)
      && (p == 3 && q == 2 ==> ActivityWeight(inst, a) * d == 12 * d)
      && (p == 3 && q == 3 ==> ActivityWeight(inst, a) * d == 10 * d)
  {
  }

  /** The overrun days the score charges to each activity. */
  ghost function OverrunDays(inst: Instance, x: Grid): seq<int>
    requires KnownContracts(inst)
  {
    seq(|inst.activities|, a requires 0 <= a < |inst.activities| =>
      var w := LastIn(x, a, inst.weeks);
      if w == 0 then 0 else Max0(DaysLate(inst, a, w)))
  }

  /** The access-nights used above supply at each occupied location-week. */
  ghost function ExcessOf(inst: Instance, plan: Plan): (m: map<Cell, int>)
    requires forall k :: k in plan.slotsUsed ==> k.0 < |inst.locations|
    ensures forall k :: k in m ==> 0 <= m[k]
  {
    map k | k in plan.slotsUsed ::
      Max0(plan.slotsUsed[k] - EffectiveSupply(inst, plan.overrides, k.0, k.1))
  }

  /** The scenario's combined penalty in tenths, from its three parts. */
  function Combined(scen: Scenario, weighted: int, excess: int, eclo: int): int {
    match scen
    case A => weighted
    case B => 10 * (EXCESS_PENALTY * excess + ECLO_PENALTY * eclo)
    case C => weighted + 10 * (EXCESS_PENALTY * excess + ECLO_PENALTY * eclo)
  }

  /** The objective of a plan. */
  ghost function ScoreTenths(inst: Instance, plan: Plan): int
    requires KnownContracts(inst)
    requires forall k :: k in plan.slotsUsed ==> k.0 < |inst.locations|
  {
    Combined(plan.scenario,
             WeightedSum(inst, OverrunDays(inst, XOf(plan.accesses)), |inst.activities|),
             MapSum(ExcessOf(inst, plan)),
             EcloCount(plan.accesses))
  }

  /** In a plan whose slots lie in the horizon the excess is a sum over locations and weeks. */
  lemma ScoredOverGrid(inst: Instance, plan: Plan)
    requires KnownContracts(inst) && LoadedSlots(inst, plan)
    ensures MapSum(ExcessOf(inst, plan)) == GridSum(ExcessOf(inst, plan), |inst.locations|, inst.weeks)
  {
    MapSumIsGridSum(ExcessOf(inst, plan), |inst.locations|, inst.weeks);
  }

  // --- what a plan read back from its files always satisfies -----------------------------------

  ghost predicate Loaded(inst: Instance, plan: Plan) {
    && (forall i :: 0 <= i < |plan.accesses| ==>
          plan.accesses[i].activity < |inst.activities| && 1 <= plan.accesses[i].week <= inst.weeks)
    && LoadedSlots(inst, plan) && LabelsCounted(plan)
  }

  ghost predicate LoadedSlots(inst: Instance, plan: Plan) {
    && (forall k :: k in plan.slots ==>
          k.0 < |inst.locations| && 1 <= k.1 <= inst.weeks && plan.slots[k] != map[]
          && forall a :: a in plan.slots[k] ==> a < |inst.activities|)
    && plan.slotsUsed.Keys == plan.slots.Keys
  }

  /** slotsUsed holds the number of distinct labels at each location-week. */
  ghost predicate LabelsCounted(plan: Plan) {
    forall k :: k in plan.slots && k in plan.slotsUsed ==> plan.slotsUsed[k] == |plan.slots[k].Values|
  }

  // --- the plan determined by activity-weeks ---------------------------------------------------

  /** access_seq: the position of week w among the weeks of a, counted from 1. */
  ghost function SeqOf(x: Grid, a: nat, w: int): nat {
    1 + |set p | p in x && p.0 == a && p.1 < w|
  }

  ghost function NightAt(inst: Instance, x: Grid, a: nat, w: int): int
    requires Wellformed(inst) && InHorizon(inst, x) && (a, w) in x
  {
    var c := inst.activities[a].contract;
    NightOf(inst, inst.contracts[c], Bucket(inst, x, c, w), a)
  }

  ghost function Cells(inst: Instance, x: Grid): set<Cell> {
    set l, p | 0 <= l < |inst.locations| && p in x && At(inst, x, l, p.1) != {} :: (l, p.1)
  }

  ghost function ResultRows(inst: Instance, scen: Scenario, x: Grid, n: nat): seq<ResultRow>
    requires n <= |inst.contracts|
  {
    if n == 0 then []
    else
      var w := ContractLastIn(inst, x, n - 1, inst.weeks);
      ResultRows(inst, scen, x, n - 1)
      + if w == 0 then []
        else [ResultRow(scen, inst.contracts[n - 1].number, SundayOfWeek(inst, w),
                        Max0(SundayOfWeek(inst, w) - inst.contracts[n - 1].planned))]
  }

  /** The accesses are those of x with the ECLO nights e, numbered and placed on nights. */
  ghost predicate AccessesOf(inst: Instance, x: Grid, e: Grid, s: seq<Access>)
    requires Wellformed(inst) && InHorizon(inst, x)
  {
    && Distinct(s) && XOf(s) == x && EOf(s) == e
    && forall i :: 0 <= i < |s| ==>
         (s[i].activity, s[i].week) in x
         && s[i].night == NightAt(inst, x, s[i].activity, s[i].week)
         && s[i].accessSeq == SeqOf(x, s[i].activity, s[i].week)
  }

  ghost predicate SlotsOf(inst: Instance, x: Grid, slots: Slots, used: map<Cell, int>)
    requires Wellformed(inst) && InHorizon(inst, x)
  {
    && slots.Keys == Cells(inst, x) && used.Keys == slots.Keys
    && forall k :: k in slots ==>
         && slots[k] == Packed(inst, At(inst, x, k.0, k.1))
         && used[k] == Needed(inst, At(inst, x, k.0, k.1))
  }

  /** The plan that extraction, night assignment, packing and export make of (x, e). */
  ghost predicate PlanOf(inst: Instance, scen: Scenario, overrides: seq<(string, int, int)>,
                         x: Grid, e: Grid, plan: Plan)
    requires Wellformed(inst) && InHorizon(inst, x)
  {
    && plan.scenario == scen && plan.overrides == overrides
    && AccessesOf(inst, x, e, plan.accesses)
    && SlotsOf(inst, x, plan.slots, plan.slotsUsed)
    && plan.results == ResultRows(inst, scen, x, |inst.contracts|)
  }
}
