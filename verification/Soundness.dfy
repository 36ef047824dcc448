/** Every solution of the constraint system yields a plan the checker accepts. */
module Soundness {
  import opened Counting
  import opened Model
  import opened Sorting
  import opened Packing
  import opened Nights
  import opened Plans
  import opened Solver
  import opened Supplies
  import opened Checker

  lemma AccessIn(s: seq<Access>, i: nat)
    requires i < |s|
    ensures (s[i].activity, s[i].week) in XOf(s)
    ensures s[i].eclo ==> (s[i].activity, s[i].week) in EOf(s)
  {
  }

  lemma AccessFor(s: seq<Access>, a: nat, w: int) returns (i: nat)
    requires (a, w) in XOf(s)
    ensures i < |s| && s[i].activity == a && s[i].week == w
  {
    i :| 0 <= i < |s| && (a, w) == (s[i].activity, s[i].week);
  }

  lemma PlanIsLoaded(inst: Instance, scen: Scenario, ov: seq<(string, int, int)>, x: Grid, e: Grid, plan: Plan)
    requires Wellformed(inst) && InHorizon(inst, x) && PlanOf(inst, scen, ov, x, e, plan)
    ensures Loaded(inst, plan)
  {
    forall k | k in plan.slots
      ensures k.0 < |inst.locations| && 1 <= k.1 <= inst.weeks && plan.slots[k] != map[]
      ensures forall a :: a in plan.slots[k] ==> a < |inst.activities|
      ensures plan.slotsUsed[k] == |plan.slots[k].Values|
    {
      var s := At(inst, x, k.0, k.1);
      PackedValues(inst, s);
      var a := Pick(s);
      assert plan.slots[k].Keys == s && a in plan.slots[k];
    }
  }

  lemma WorkloadHolds(inst: Instance, sol: Solution, s: seq<Access>)
    requires Workload(inst, sol.x, sol.e) && Distinct(s) && XOf(s) == sol.x && EOf(s) == sol.e
    ensures WorkloadOk(inst, s)
  {
    forall a: nat | a < |inst.activities| ensures Yield(s, a) >= inst.activities[a].total * STD_YIELD {
      YieldOfSets(s, a);
      assert Need(inst, a) <= NightYield(sol.x, sol.e, a);
    }
  }

  lemma PrecedenceHolds(inst: Instance, sol: Solution, s: seq<Access>)
    requires Wellformed(inst) && FirstAndLast(inst, sol) && Precedence(inst, sol)
    requires InHorizon(inst, sol.x) && XOf(s) == sol.x
    ensures PrecedenceOk(inst, s)
  {
    forall a: nat | a < |inst.activities| && inst.activities[a].predecessor.Some?
      ensures StrictlyAfter(XOf(s), a, inst.activities[a].predecessor.value)
    {
      PrecedenceStrict(inst, sol, a);
    }
  }

  lemma PrecedenceStrict(inst: Instance, sol: Solution, a: nat)
    requires Wellformed(inst) && InHorizon(inst, sol.x) && FirstAndLast(inst, sol) && Precedence(inst, sol)
    requires a < |inst.activities| && inst.activities[a].predecessor.Some?
    ensures StrictlyAfter(sol.x, a, inst.activities[a].predecessor.value)
  {
    var p := inst.activities[a].predecessor.value;
    forall v, w | (a, w) in sol.x && (p, v) in sol.x ensures v < w {
      assert IsLast(inst.weeks, sol, p, sol.last[p]) && IsFirst(inst.weeks, sol, a, sol.first[a]);
      assert Taken(sol, a, w) && Taken(sol, p, v);
    }
  }

  // --- access_seq ------------------------------------------------------------------

  lemma {:induction false} NumbersMembers(s: seq<Access>, a: nat, p: (int, int))
    ensures p in Numbers(s, a) <==>
      exists i :: 0 <= i < |s| && s[i].activity == a && p == (s[i].week, s[i].accessSeq)
  {
    if s != [] {
      var t, z := s[..|s| - 1], s[|s| - 1];
      NumbersMembers(t, a, p);
      forall i | 0 <= i < |s| && s[i].activity == a && p == (s[i].week, s[i].accessSeq)
        ensures p in Numbers(s, a)
      {
        if i < |t| { assert t[i] == s[i]; }
      }
      if p in Numbers(s, a) {
        if p in Numbers(t, a) {
          var i :| 0 <= i < |t| && t[i].activity == a && p == (t[i].week, t[i].accessSeq);
          assert s[i] == t[i];
        } else {
          assert p == (z.week, z.accessSeq) && z.activity == a;
        }
      }
    }
  }

  lemma {:induction false} NumbersDistinct(s: seq<Access>, a: nat)
    requires Distinct(s)
    ensures forall i, j :: 0 <= i < j < |Numbers(s, a)| ==> Numbers(s, a)[i].0 != Numbers(s, a)[j].0
  {
    if s != [] {
      var t, z := s[..|s| - 1], s[|s| - 1];
      NumbersDistinct(t, a);
      var v := Numbers(t, a);
      if z.activity == a {
        forall i | 0 <= i < |v| ensures v[i].0 != z.week {
          NumbersMembers(t, a, v[i]);
          var k :| 0 <= k < |t| && t[k].activity == a && v[i] == (t[k].week, t[k].accessSeq);
          assert t[k] == s[k];
        }
      }
    }
  }

  lemma PairOrder()
    ensures TotalPreorder(PairLe)
  {
  }

  /** The activity-weeks of a named by the first k entries. */
  ghost function WeeksBefore(r: seq<(int, int)>, a: nat, k: nat): Grid
    requires k <= |r|
  {
    if k == 0 then {} else WeeksBefore(r, a, k - 1) + {(a, r[k - 1].0)}
  }

  lemma {:induction false} WeeksBeforeMember(r: seq<(int, int)>, a: nat, k: nat, p: (nat, int))
    requires k <= |r|
    ensures p in WeeksBefore(r, a, k) <==> exists j :: 0 <= j < k && p == (a, r[j].0)
  {
    if k > 0 { WeeksBeforeMember(r, a, k - 1, p); }
  }

  /** In a list sorted by strictly ascending weeks, the first k entries hold exactly k weeks. */
  lemma {:induction false} EarlierCount(r: seq<(int, int)>, a: nat, k: nat)
    requires k <= |r|
    requires forall i, j :: 0 <= i < j < |r| ==> r[i].0 < r[j].0
    ensures |WeeksBefore(r, a, k)| == k
  {
    if k > 0 {
      EarlierCount(r, a, k - 1);
      WeeksBeforeMember(r, a, k - 1, (a, r[k - 1].0));
    }
  }

  /** The sorted list of a's (week, number) pairs ascends strictly by week and lists exactly a's weeks. */
  lemma SortedNumbers(s: seq<Access>, a: nat) returns (r: seq<(int, int)>)
    requires Distinct(s)
    ensures r == Sorted(Numbers(s, a), PairLe)
    ensures forall i, j :: 0 <= i < j < |r| ==> r[i].0 < r[j].0
    ensures forall p :: p in r <==> p in Numbers(s, a)
  {
    var v := Numbers(s, a);
    r := Sorted(v, PairLe);
    PairOrder();
    SortedIsSorted(v, PairLe);
    NumbersDistinct(s, a);
    forall p ensures p in r <==> p in v { SameMembers(v, r, p); }
    NoRepeats(v, r);
    forall i, j | 0 <= i < j < |r| ensures r[i].0 < r[j].0 {
      assert PairLe(r[i], r[j]);
      assert r[i] != r[j];
      assert r[i] in r && r[j] in r;
    }
  }

  /** The entries before position k name exactly a's weeks before the k-th. */
  lemma EarlierWeeks(s: seq<Access>, a: nat, r: seq<(int, int)>, k: nat)
    requires k < |r|
    requires forall i, j :: 0 <= i < j < |r| ==> r[i].0 < r[j].0
    requires forall p :: p in r <==> p in Numbers(s, a)
    ensures WeeksBefore(r, a, k) == set p | p in XOf(s) && p.0 == a && p.1 < r[k].0
  {
    forall p | p in XOf(s) && p.0 == a && p.1 < r[k].0 ensures p in WeeksBefore(r, a, k) {
      var m := AccessFor(s, p.0, p.1);
      NumbersMembers(s, a, (s[m].week, s[m].accessSeq));
      assert (s[m].week, s[m].accessSeq) in r;
      var j :| 0 <= j < |r| && r[j] == (s[m].week, s[m].accessSeq);
      assert j < k;
      WeeksBeforeMember(r, a, k, p);
    }
    forall p | p in WeeksBefore(r, a, k) ensures p in XOf(s) && p.0 == a && p.1 < r[k].0 {
      WeeksBeforeMember(r, a, k, p);
      var j :| 0 <= j < k && p == (a, r[j].0);
      assert r[j] in r;
      NumbersMembers(s, a, r[j]);
      var m :| 0 <= m < |s| && s[m].activity == a && r[j] == (s[m].week, s[m].accessSeq);
      AccessIn(s, m);
    }
  }

  lemma SequenceHoldsFor(x: Grid, s: seq<Access>, a: nat)
    requires Distinct(s) && XOf(s) == x
    requires forall i :: 0 <= i < |s| ==> s[i].accessSeq == SeqOf(x, s[i].activity, s[i].week)
    ensures NumberedInOrder(Numbers(s, a))
  {
    var r := SortedNumbers(s, a);
    forall k | 0 <= k < |r| ensures r[k].1 == k + 1 {
      assert r[k] in r;
      NumbersMembers(s, a, r[k]);
      var i :| 0 <= i < |s| && s[i].activity == a && r[k] == (s[i].week, s[i].accessSeq);
      EarlierWeeks(s, a, r, k);
      EarlierCount(r, a, k);
    }
  }

  // --- RESULTS.csv ---------------------------------------------------------------------

  /** The row the exporter writes for a scheduled contract. */
  ghost predicate RowFor(inst: Instance, scen: Scenario, x: Grid, r: ResultRow, c: nat) {
    c < |inst.contracts| && ContractLastIn(inst, x, c, inst.weeks) > 0
    && var sunday := SundayOfWeek(inst, ContractLastIn(inst, x, c, inst.weeks));
       r == ResultRow(scen, inst.contracts[c].number, sunday, Max0(sunday - inst.contracts[c].planned))
  }

  ghost predicate FromBelow(inst: Instance, scen: Scenario, x: Grid, r: ResultRow, n: nat) {
    exists c: nat :: c < n && RowFor(inst, scen, x, r, c)
  }

  lemma {:induction false} ResultRowsSound(inst: Instance, scen: Scenario, x: Grid, n: nat)
    requires n <= |inst.contracts|
    ensures forall r :: r in ResultRows(inst, scen, x, n) ==> FromBelow(inst, scen, x, r, n)
  {
    if n > 0 {
      ResultRowsSound(inst, scen, x, n - 1);
      forall r | r in ResultRows(inst, scen, x, n) ensures FromBelow(inst, scen, x, r, n) {
        if r in ResultRows(inst, scen, x, n - 1) {
          assert FromBelow(inst, scen, x, r, n - 1);
        } else {
          assert RowFor(inst, scen, x, r, n - 1);
        }
      }
    }
  }

  lemma {:induction false} ResultRowsDistinct(inst: Instance, scen: Scenario, x: Grid, n: nat)
    requires Wellformed(inst) && Named(inst) && n <= |inst.contracts|
    ensures forall i, j :: 0 <= i < j < |ResultRows(inst, scen, x, n)| ==>
              ResultRows(inst, scen, x, n)[i].number != ResultRows(inst, scen, x, n)[j].number
  {
    if n > 0 {
      ResultRowsDistinct(inst, scen, x, n - 1);
      ResultRowsSound(inst, scen, x, n - 1);
      var before := ResultRows(inst, scen, x, n - 1);
      forall i | 0 <= i < |before| ensures before[i].number != inst.contracts[n - 1].number {
        assert before[i] in before;
        var d: nat :| d < n - 1 && RowFor(inst, scen, x, before[i], d);
      }
    }
  }

  lemma {:induction false} ResultRowsComplete(inst: Instance, scen: Scenario, x: Grid, n: nat, c: nat)
    requires c < n <= |inst.contracts| && ContractLastIn(inst, x, c, inst.weeks) > 0
    ensures ResultFor(ResultRows(inst, scen, x, n), inst.contracts[c].number)
  {
    var before, rows := ResultRows(inst, scen, x, n - 1), ResultRows(inst, scen, x, n);
    if c < n - 1 {
      ResultRowsComplete(inst, scen, x, n - 1, c);
      var i :| 0 <= i < |before| && before[i].number == inst.contracts[c].number;
      assert rows[i].number == inst.contracts[c].number;
    } else {
      assert rows[|before|].number == inst.contracts[c].number;
    }
  }

  lemma ResultsHold(inst: Instance, x: Grid, plan: Plan)
    requires Wellformed(inst) && Named(inst) && XOf(plan.accesses) == x
    requires plan.results == ResultRows(inst, plan.scenario, x, |inst.contracts|)
    ensures ResultsOk(inst, plan)
  {
    ResultRowsSound(inst, plan.scenario, x, |inst.contracts|);
    ResultRowsDistinct(inst, plan.scenario, x, |inst.contracts|);
    var rows := plan.results;
    forall i | 0 <= i < |rows|
      ensures rows[i].scenario == plan.scenario
      ensures exists c :: 0 <= c < |inst.contracts| && inst.contracts[c].number == rows[i].number
    {
      assert rows[i] in rows;
      var c: nat :| c < |inst.contracts| && RowFor(inst, plan.scenario, x, rows[i], c);
    }
    forall c: nat | c < |inst.contracts| ensures ContractResultOk(inst, plan, c) {
      forall i | 0 <= i < |rows| && rows[i].number == inst.contracts[c].number
        ensures RowFor(inst, plan.scenario, x, rows[i], c)
      {
        assert rows[i] in rows;
        var d: nat :| d < |inst.contracts| && RowFor(inst, plan.scenario, x, rows[i], d);
      }
      if ContractLastIn(inst, x, c, inst.weeks) > 0 {
        ResultRowsComplete(inst, plan.scenario, x, |inst.contracts|, c);
      }
    }
  }

  // --- slots -----------------------------------------------------------------------------

  lemma CellsMember(inst: Instance, x: Grid, l: nat, w: int)
    ensures (l, w) in Cells(inst, x) <==> l < |inst.locations| && At(inst, x, l, w) != {}
  {
    if l < |inst.locations| && At(inst, x, l, w) != {} {
      var a := Pick(At(inst, x, l, w));
      assert (a, w) in x;
    }
  }

  lemma PresentIsAt(inst: Instance, x: Grid, plan: Plan, a: nat, l: nat, w: int)
    requires Wellformed(inst) && InHorizon(inst, x) && SlotsOf(inst, x, plan.slots, plan.slotsUsed)
    ensures PresentAt(plan.slots, a, l, w) <==> a in At(inst, x, l, w)
  {
    CellsMember(inst, x, l, w);
    if a in At(inst, x, l, w) {
      assert ValidActivity(inst, inst.activities[a]);
    }
    if (l, w) in plan.slots {
      assert plan.slots[(l, w)].Keys == At(inst, x, l, w);
    }
  }

  lemma OccupancyHolds(inst: Instance, x: Grid, plan: Plan)
    requires Wellformed(inst) && InHorizon(inst, x) && XOf(plan.accesses) == x
    requires SlotsOf(inst, x, plan.slots, plan.slotsUsed)
    ensures OccupancyOk(inst, plan.accesses, plan.slots)
  {
    var s := plan.accesses;
    forall i | 0 <= i < |s| && s[i].activity < |inst.activities|
      ensures BooksSpan(inst, plan.slots, s[i].activity, s[i].week)
    {
      var a, w := s[i].activity, s[i].week;
      AccessIn(s, i);
      forall l: nat ensures PresentAt(plan.slots, a, l, w) <==> l in inst.activities[a].occupied {
        PresentIsAt(inst, x, plan, a, l, w);
      }
    }
    forall k, a | k in plan.slots && a in plan.slots[k] ensures (a, k.1) in XOf(s) {
      PresentIsAt(inst, x, plan, a, k.0, k.1);
    }
  }

  lemma NeededAtMostAll(inst: Instance, s: set<nat>, n: nat)
    requires Members(inst, s) && |s| <= n
    ensures Needed(inst, s) <= n
  {
    TypesPartition(inst, s);
  }

  lemma {:induction false} IndexCard(s: set<nat>, n: nat)
    requires forall a :: a in s ==> a < n
    ensures |s| <= n
  {
    if n > 0 {
      IndexCard(s - {n - 1}, n - 1);
      assert s == s - {n - 1} + if n - 1 in s then {n - 1} else {};
    } else {
      assert s == {};
    }
  }

  /** At an occupied location-week the slots needed exceed a covering supply by no more than the policy allows. */
  lemma NeededFits(inst: Instance, scen: Scenario, ov: seq<SupplyOverride>, x: Grid, v: int, k: Cell, p: int)
    requires Wellformed(inst) && k in Cells(inst, x) && CapacityRow(inst, scen, ov, x, v, k) && p >= 0
    requires scen == B || Covers(inst, k.0, p, SolverSupply(inst, ov, k.0, k.1))
    ensures Members(inst, At(inst, x, k.0, k.1))
    ensures Needed(inst, At(inst, x, k.0, k.1)) - p <= Tolerance(scen)
  {
    var s := At(inst, x, k.0, k.1);
    AtMembers(inst, x, k.0, k.1);
    FitsIsNeeded(inst, s, SolverSupply(inst, ov, k.0, k.1) + v);
    AtIsOfUsers(inst, x, k.0, k.1);
    UsersNeedLess(inst, k.0, s);
    IndexCard(s, |inst.activities|);
    NeededAtMostAll(inst, s, |inst.activities|);
  }

  lemma OccupiedHasRow(inst: Instance, x: Grid, k: Cell)
    requires InHorizon(inst, x) && k in Cells(inst, x)
    ensures CapacityCell(inst, k)
  {
    CellsMember(inst, x, k.0, k.1);
    var a := Pick(At(inst, x, k.0, k.1));
    assert a in UsersOf(inst, k.0);
  }

  /** Every occupied location-week needs no more slots than the recorded supply and the policy allow. */
  ghost predicate FitsRecorded(inst: Instance, scen: Scenario, ov: seq<SupplyOverride>, x: Grid)
    requires Wellformed(inst) && ValidOverrides(inst, ov) && InHorizon(inst, x)
  {
    forall k :: k in Cells(inst, x) && k.0 < |inst.locations| ==>
      Needed(inst, At(inst, x, k.0, k.1)) - EffectiveSupply(inst, Provenance(inst, ov), k.0, k.1) <= Tolerance(scen)
  }

  lemma RecordedFits(inst: Instance, scen: Scenario, ov: seq<SupplyOverride>, x: Grid, excess: map<Cell, int>)
    requires Wellformed(inst) && ValidOverrides(inst, ov) && (scen == B || CheckerCovers(inst, ov))
    requires InHorizon(inst, x) && Capacity(inst, scen, ov, x, excess)
    ensures FitsRecorded(inst, scen, ov, x)
  {
    forall k | k in Cells(inst, x) && k.0 < |inst.locations|
      ensures Needed(inst, At(inst, x, k.0, k.1)) - EffectiveSupply(inst, Provenance(inst, ov), k.0, k.1)
           <= Tolerance(scen)
    {
      OccupiedHasRow(inst, x, k);
      EffectiveNonNegative(inst, ov, k.0, k.1);
      NeededFits(inst, scen, ov, x, ValueAt(excess, k), k, EffectiveSupply(inst, Provenance(inst, ov), k.0, k.1));
    }
  }

  lemma CapacityVerdict(inst: Instance, scen: Scenario, ov: seq<SupplyOverride>, x: Grid, plan: Plan)
    requires Wellformed(inst) && ValidOverrides(inst, ov) && InHorizon(inst, x)
    requires plan.scenario == scen && plan.overrides == Provenance(inst, ov)
    requires SlotsOf(inst, x, plan.slots, plan.slotsUsed) && LoadedSlots(inst, plan)
    ensures CapacityOk(inst, plan) <==> FitsRecorded(inst, scen, ov, x)
  {
    forall k | k in plan.slotsUsed ensures plan.slotsUsed[k] == Needed(inst, At(inst, x, k.0, k.1)) {
      assert k in plan.slots;
    }
  }

  lemma PackedCellLegal(inst: Instance, s: set<nat>, m: map<nat, int>)
    requires Members(inst, s) && DistinctIds(inst) && m == Packed(inst, s)
    ensures Members(inst, m.Keys) && LegalLabels(inst, m)
  {
    PackedLegal(inst, s);
  }

  lemma MixHolds(inst: Instance, x: Grid, plan: Plan)
    requires Wellformed(inst) && InHorizon(inst, x) && LoadedSlots(inst, plan)
    requires SlotsOf(inst, x, plan.slots, plan.slotsUsed)
    ensures MixOk(inst, plan)
  {
    forall k | k in plan.slots ensures Members(inst, plan.slots[k].Keys) && LegalLabels(inst, plan.slots[k]) {
      PackedCellLegal(inst, At(inst, x, k.0, k.1), plan.slots[k]);
    }
  }

  // --- nights ----------------------------------------------------------------------------

  ghost predicate NightsAssigned(inst: Instance, x: Grid, s: seq<Access>)
    requires Wellformed(inst) && InHorizon(inst, x)
  {
    XOf(s) == x && forall i :: 0 <= i < |s| ==>
      (s[i].activity, s[i].week) in x && s[i].night == NightAt(inst, x, s[i].activity, s[i].week)
  }

  /** The nights of one contract-week, as the greedy fill of its bucket. */
  ghost function BucketNights(inst: Instance, x: Grid, c: nat, w: int): (m: map<nat, int>)
    requires Wellformed(inst) && InHorizon(inst, x) && c < |inst.contracts|
    ensures m.Keys == Bucket(inst, x, c, w)
  {
    Filled(inst, inst.contracts[c], Bucket(inst, x, c, w))
  }

  lemma BucketNightsLegal(inst: Instance, x: Grid, c: nat, w: int)
    requires Wellformed(inst) && InHorizon(inst, x) && WeeklyAllocation(inst, x) && c < |inst.contracts|
    ensures LegalNights(inst.contracts[c], BucketNights(inst, x, c, w))
  {
    var b := Bucket(inst, x, c, w);
    if 1 <= w <= inst.weeks {
      FilledLegal(inst, inst.contracts[c], b);
    } else {
      assert b == {};
      FilledWithinWorkfronts(inst, inst.contracts[c], b);
    }
  }

  lemma NightOfAccess(inst: Instance, x: Grid, s: seq<Access>, i: nat)
    requires Wellformed(inst) && InHorizon(inst, x) && NightsAssigned(inst, x, s) && i < |s|
    ensures s[i].activity < |inst.activities|
    ensures var m := BucketNights(inst, x, inst.activities[s[i].activity].contract, s[i].week);
            s[i].activity in m && m[s[i].activity] == s[i].night
  {
  }

  lemma NightInAllowance(inst: Instance, x: Grid, s: seq<Access>, c: nat, w: int, n: int)
    requires Wellformed(inst) && InHorizon(inst, x) && NightsAssigned(inst, x, s) && c < |inst.contracts|
    requires LegalNights(inst.contracts[c], BucketNights(inst, x, c, w))
    requires n in ContractNights(inst, s, c, w)
    ensures 1 <= n <= inst.contracts[c].maxPerWeek
  {
    var i :| 0 <= i < |s| && s[i].activity < |inst.activities|
             && inst.activities[s[i].activity].contract == c && s[i].week == w && s[i].night == n;
    NightOfAccess(inst, x, s, i);
  }

  lemma AllocationHoldsAt(inst: Instance, x: Grid, s: seq<Access>, c: nat, w: int)
    requires Wellformed(inst) && InHorizon(inst, x) && NightsAssigned(inst, x, s) && c < |inst.contracts|
    requires LegalNights(inst.contracts[c], BucketNights(inst, x, c, w))
    ensures |ContractNights(inst, s, c, w)| <= inst.contracts[c].maxPerWeek
    ensures forall n :: n in ContractNights(inst, s, c, w) ==> 1 <= n <= inst.contracts[c].maxPerWeek
  {
    var cap, nights := inst.contracts[c].maxPerWeek, ContractNights(inst, s, c, w);
    forall n | n in nights ensures n in Range(1, cap + 1) {
      NightInAllowance(inst, x, s, c, w, n);
    }
    RangeCard(1, cap + 1);
    CardLe(nights, Range(1, cap + 1));
  }

  lemma WorkfrontsHoldAt(inst: Instance, x: Grid, s: seq<Access>, c: nat, w: int, n: int)
    requires Wellformed(inst) && InHorizon(inst, x) && NightsAssigned(inst, x, s) && c < |inst.contracts|
    requires LegalNights(inst.contracts[c], BucketNights(inst, x, c, w))
    ensures |OnNight(inst, s, c, w, n)| <= inst.contracts[c].workfronts
  {
    var m := BucketNights(inst, x, c, w);
    forall a | a in OnNight(inst, s, c, w, n) ensures a in Group(m, n) {
      var i :| 0 <= i < |s| && s[i].activity < |inst.activities|
               && inst.activities[s[i].activity].contract == c && s[i].week == w && s[i].night == n
               && s[i].activity == a;
      NightOfAccess(inst, x, s, i);
    }
    CardLe(OnNight(inst, s, c, w, n), Group(m, n));
  }

  lemma NightsHold(inst: Instance, x: Grid, s: seq<Access>)
    requires Wellformed(inst) && InHorizon(inst, x) && WeeklyAllocation(inst, x) && NightsAssigned(inst, x, s)
    ensures AllocationOk(inst, s)
    ensures WorkfrontsOk(inst, s)
  {
    forall c: nat, w | c < |inst.contracts|
      ensures |ContractNights(inst, s, c, w)| <= inst.contracts[c].maxPerWeek
      ensures forall n :: n in ContractNights(inst, s, c, w) ==> 1 <= n <= inst.contracts[c].maxPerWeek
    {
      BucketNightsLegal(inst, x, c, w);
      AllocationHoldsAt(inst, x, s, c, w);
    }
    forall c: nat, w, n | c < |inst.contracts| ensures |OnNight(inst, s, c, w, n)| <= inst.contracts[c].workfronts {
      BucketNightsLegal(inst, x, c, w);
      WorkfrontsHoldAt(inst, x, s, c, w, n);
    }
  }

  // --- closures, ECLO, planned dates ---------------------------------------------------

  /** Where no location is shared, the checker's verdict is the pair's membership in the solver's set. */
  lemma ClashIsReach(a: Activity, b: Activity)
    requires !Meet(a.occupied, b.occupied)
    ensures Clash(a, b) <==> Reaches(a, b)
  {
    HitIsMeet(a.closure, a.occupied, b.occupied);
    HitIsMeet(b.closure, b.occupied, a.occupied);
    HitIsMeet(a.bufferZone, a.occupied, b.occupied);
    HitIsMeet(b.bufferZone, b.occupied, a.occupied);
  }

  lemma HitIsMeet(zone: seq<nat>, own: seq<nat>, other: seq<nat>)
    requires !Meet(own, other)
    ensures Hit(zone, own, other) <==> Meet(zone, other)
  {
    forall l | l in zone && l in other ensures Hit(zone, own, other) {
      assert !(l in own && l in other);
    }
  }

  /** Two activities booking exactly their spans in one week: a breach is raised exactly for exclusive pairs. */
  lemma ClosureVerdict(inst: Instance, slots: Slots, w: int, a: nat, b: nat)
    requires Wellformed(inst) && Paired(inst) && a < b < |inst.activities|
    requires BooksSpan(inst, slots, a, w) && BooksSpan(inst, slots, b, w)
    ensures ClosureBreach(inst, slots, w, a, b) <==> (a, b) in inst.exclusivePairs
  {
    var A, B := inst.activities[a], inst.activities[b];
    forall l: nat ensures PresentAt(slots, a, l, w) <==> l in A.occupied {}
    forall l: nat ensures PresentAt(slots, b, l, w) <==> l in B.occupied {}
    assert A.occupied[0] in A.occupied && B.occupied[0] in B.occupied;
    assert PresentAt(slots, a, A.occupied[0], w) && PresentAt(slots, b, B.occupied[0], w);
    if Meet(A.occupied, B.occupied) {
      var l :| l in A.occupied && l in B.occupied;
      assert PresentAt(slots, a, l, w) && PresentAt(slots, b, l, w);
    } else {
      ClashIsReach(A, B);
    }
  }

  lemma ClosureHolds(inst: Instance, x: Grid, plan: Plan)
    requires Wellformed(inst) && Paired(inst) && InHorizon(inst, x) && Exclusivity(inst, x)
    requires XOf(plan.accesses) == x && OccupancyOk(inst, plan.accesses, plan.slots)
    ensures ClosureOk(inst, plan.slots)
  {
    forall w, a: nat, b: nat ensures !ClosureBreach(inst, plan.slots, w, a, b) {
      if ClosureBreach(inst, plan.slots, w, a, b) {
        PresentWorks(inst, plan, a, w);
        PresentWorks(inst, plan, b, w);
        ClosureVerdict(inst, plan.slots, w, a, b);
        PairApart(inst, x, a, b, w);
      }
    }
  }

  lemma PairApart(inst: Instance, x: Grid, a: nat, b: nat, w: int)
    requires Exclusivity(inst, x) && InHorizon(inst, x) && (a, b) in inst.exclusivePairs
    ensures !((a, w) in x && (b, w) in x)
  {
    var p := (a, b);
    assert p in inst.exclusivePairs;
  }

  lemma PresentWorks(inst: Instance, plan: Plan, a: nat, w: int)
    requires OccupancyOk(inst, plan.accesses, plan.slots) && Present(plan.slots, a, w) && a < |inst.activities|
    ensures (a, w) in XOf(plan.accesses) && BooksSpan(inst, plan.slots, a, w)
  {
    var l: nat :| PresentAt(plan.slots, a, l, w);
    var i := AccessFor(plan.accesses, a, w);
  }

  lemma EcloHolds(inst: Instance, scen: Scenario, sol: Solution, plan: Plan)
    requires Wellformed(inst) && NightVariables(inst, scen, sol) && Windows(inst, scen, sol)
    requires plan.scenario == scen && EOf(plan.accesses) == sol.e
    ensures EcloOk(inst, plan)
  {
    var s := plan.accesses;
    forall i | 0 <= i < |s| && s[i].eclo ensures (s[i].activity, s[i].week) in sol.e { AccessIn(s, i); }
    if scen == C {
      forall line ensures LineWindowOk(inst, s, line) {
      }
    }
  }

  lemma PlannedDatesHold(inst: Instance, scen: Scenario, sol: Solution, plan: Plan)
    requires Wellformed(inst) && FirstAndLast(inst, sol) && Overruns(inst, scen, sol) && InHorizon(inst, sol.x)
    requires plan.scenario == scen && XOf(plan.accesses) == sol.x
    ensures PlannedDatesOk(inst, plan)
  {
    if scen == B {
      forall c: nat | c < |inst.contracts|
        ensures var w := ContractLastIn(inst, sol.x, c, inst.weeks);
                w == 0 || SundayOfWeek(inst, w) <= inst.contracts[c].planned
      {
        ContractLastInProps(inst, sol.x, c, inst.weeks);
        var w := ContractLastIn(inst, sol.x, c, inst.weeks);
        if w > 0 {
          var a: nat :| a < |inst.activities| && inst.activities[a].contract == c && (a, w as int) in sol.x;
          assert IsLast(inst.weeks, sol, a, sol.last[a]) && Taken(sol, a, w);
        }
      }
    }
  }

  lemma AccessRulesHold(inst: Instance, scen: Scenario, ov: seq<SupplyOverride>, sol: Solution, plan: Plan)
    requires Wellformed(inst) && Named(inst) && Satisfies(inst, scen, ov, sol)
    requires PlanOf(inst, scen, plan.overrides, sol.x, sol.e, plan)
    ensures AccessRulesOk(inst, plan)
  {
    var s := plan.accesses;
    WorkloadHolds(inst, sol, s);
    PrecedenceHolds(inst, sol, s);
    forall a: nat | a < |inst.activities| ensures NumberedInOrder(Numbers(s, a)) {
      SequenceHoldsFor(sol.x, s, a);
    }
    NightsHold(inst, sol.x, s);
    EcloHolds(inst, scen, sol, plan);
    PlannedDatesHold(inst, scen, sol, plan);
    ResultsHold(inst, sol.x, plan);
  }

  /** Solver soundness: the plan made of a solution breaks no rule but, when overrides disagree, that of supply. */
  lemma AcceptanceExact(inst: Instance, scen: Scenario, ov: seq<SupplyOverride>, sol: Solution, plan: Plan)
    requires Valid(inst) && ValidOverrides(inst, ov)
    requires Satisfies(inst, scen, ov, sol)
    requires PlanOf(inst, scen, Provenance(inst, ov), sol.x, sol.e, plan)
    ensures Loaded(inst, plan)
    ensures Accepts(inst, plan) <==> FitsRecorded(inst, scen, ov, sol.x)
  {
    PlanIsLoaded(inst, scen, plan.overrides, sol.x, sol.e, plan);
    AccessRulesHold(inst, scen, ov, sol, plan);
    OccupancyHolds(inst, sol.x, plan);
    CapacityVerdict(inst, scen, ov, sol.x, plan);
    MixHolds(inst, sol.x, plan);
    ClosureHolds(inst, sol.x, plan);
  }

  /** Under B always, else whenever the recorded supply covers the constraints', every solution's plan is accepted. */
  lemma SolutionsAreAccepted(inst: Instance, scen: Scenario, ov: seq<SupplyOverride>, sol: Solution, plan: Plan)
    requires Valid(inst) && ValidOverrides(inst, ov) && (scen == B || CheckerCovers(inst, ov))
    requires Satisfies(inst, scen, ov, sol)
    requires PlanOf(inst, scen, Provenance(inst, ov), sol.x, sol.e, plan)
    ensures Loaded(inst, plan)
    ensures Accepts(inst, plan)
  {
    AcceptanceExact(inst, scen, ov, sol, plan);
    RecordedFits(inst, scen, ov, sol.x, sol.excess);
  }
}
