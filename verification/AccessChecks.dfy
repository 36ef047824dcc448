/** The checker's passes over the access rows: one night a week, workload, start, precedence, access_seq. */
module AccessChecks {
  import opened Model
  import opened Sorting
  import opened Plans
  import opened Checker
  import opened Soundness
  import opened Completeness
  import opened Scoring
  import opened Violations
  import opened Rules
  import opened Numbering

  /** The activity's nights yield less than it needs. */
  ghost predicate Short(inst: Instance, s: seq<Access>, a: nat) {
    a < |inst.activities| && Yield(s, a) < inst.activities[a].total * STD_YIELD
  }

  /** The activity works in week w, before its planned start. */
  ghost predicate Early(inst: Instance, x: Grid, a: nat, w: int) {
    (a, w) in x && a < |inst.activities| && w < inst.activities[a].earliest
  }

  ghost predicate OutOfOrder(inst: Instance, x: Grid, a: nat, p: nat) {
    a < |inst.activities| && inst.activities[a].predecessor == Some(p) && !StrictlyAfter(x, a, p)
  }

  ghost predicate Misnumbered(inst: Instance, s: seq<Access>, a: nat) {
    a < |inst.activities| && !NumberedInOrder(Numbers(s, a))
  }

  ghost function CountOf(s: seq<Access>, p: (nat, int)): nat {
    if s == [] then 0
    else CountOf(s[..|s| - 1], p) + if (s[|s| - 1].activity, s[|s| - 1].week) == p then 1 else 0
  }

  lemma {:induction false} CountPositive(s: seq<Access>, p: (nat, int))
    ensures CountOf(s, p) > 0 <==> p in XOf(s)
  {
    if s != [] {
      CountPositive(s[..|s| - 1], p);
      XOfSnoc(s);
    }
  }

  ghost predicate AtMostOnce(s: seq<Access>) {
    forall p :: CountOf(s, p) <= 1
  }

  lemma {:induction false} CountDistinct(s: seq<Access>)
    ensures Distinct(s) <==> AtMostOnce(s)
  {
    if s != [] {
      var t, z := s[..|s| - 1], s[|s| - 1];
      var q := (z.activity, z.week);
      CountDistinct(t);
      CountPositive(t, q);
      DistinctSnoc(s);
      if Distinct(s) {
        forall p ensures CountOf(s, p) <= 1 {
          assert CountOf(t, p) <= 1;
        }
      }
      if AtMostOnce(s) {
        forall p ensures CountOf(t, p) <= 1 {
          assert CountOf(s, p) <= 1;
        }
        assert CountOf(s, q) <= 1;
      }
    }
  }

  lemma DistinctSnoc(s: seq<Access>)
    requires s != []
    ensures Distinct(s) <==>
      Distinct(s[..|s| - 1]) && (s[|s| - 1].activity, s[|s| - 1].week) !in XOf(s[..|s| - 1])
  {
    var t, z := s[..|s| - 1], s[|s| - 1];
    if Distinct(s) { NotYet(s); }
    if Distinct(t) && (z.activity, z.week) !in XOf(t) {
      forall i | 0 <= i < |t| ensures s[i].activity != z.activity || s[i].week != z.week {
        AccessIn(t, i);
      }
    }
  }

  lemma OnePerWeekVerdict(s: seq<Access>, vs: seq<Violation>)
    requires forall v :: v in vs <==> v.DoubleAccess? && CountOf(s, (v.activity, v.week)) > 1
    ensures vs == [] <==> Distinct(s)
  {
    CountDistinct(s);
    if vs == [] {
      forall p: (nat, int) ensures CountOf(s, p) <= 1 {
        var a, w := p.0, p.1;
        assert p == (a, w) && DoubleAccess(a, w) !in vs;
      }
    } else {
      assert vs[0] in vs;
    }
  }

  /** Rule R4: at most one access per activity and week. */
  method CheckOnePerWeek(s: seq<Access>) returns (vs: seq<Violation>, perWeek: map<(nat, int), nat>)
    ensures forall k :: k in perWeek <==> k in XOf(s)
    ensures forall v :: v in vs <==> v.DoubleAccess? && CountOf(s, (v.activity, v.week)) > 1
    ensures vs == [] <==> Distinct(s)
  {
    perWeek := map[];
    assert XOf(s[..0]) == {};
    for i := 0 to |s|
      invariant forall k :: k in perWeek <==> k in XOf(s[..i])
      invariant forall k :: k in perWeek ==> perWeek[k] == CountOf(s[..i], k)
    {
      var k := (s[i].activity, s[i].week);
      assert s[..i + 1][..i] == s[..i];
      XOfSnoc(s[..i + 1]);
      CountPositive(s[..i], k);
      perWeek := perWeek[k := (if k in perWeek then perWeek[k] else 0) + 1];
    }
    assert s[..|s|] == s;
    vs := [];
    var todo := perWeek.Keys;
    while todo != {}
      invariant todo <= perWeek.Keys
      invariant forall v :: v in vs <==>
        (v.DoubleAccess? && (v.activity, v.week) in perWeek.Keys - todo && perWeek[(v.activity, v.week)] > 1)
      decreases todo
    {
      var k: (nat, int) :| k in todo;
      todo := todo - {k};
      if perWeek[k] > 1 { vs := vs + [DoubleAccess(k.0, k.1)]; }
    }
    forall k ensures CountOf(s, k) > 0 <==> k in XOf(s) { CountPositive(s, k); }
    OnePerWeekVerdict(s, vs);
  }

  lemma WorkloadVerdict(inst: Instance, s: seq<Access>, vs: seq<Violation>)
    requires forall v :: v in vs <==> (v.Workload? && Short(inst, s, v.activity))
    ensures vs == [] <==> WorkloadOk(inst, s)
  {
    if vs == [] {
      forall a: nat | a < |inst.activities| ensures Yield(s, a) >= inst.activities[a].total * STD_YIELD {
        assert Workload(a) !in vs;
      }
    } else {
      assert vs[0] in vs;
    }
  }

  /** Rule 1: the yields, in tenths, reach the need of every activity. */
  method CheckWorkload(inst: Instance, s: seq<Access>) returns (vs: seq<Violation>)
    requires AccessesInRange(inst, s)
    ensures forall v :: v in vs <==>
      (v.Workload? && Short(inst, s, v.activity))
    ensures vs == [] <==> WorkloadOk(inst, s)
  {
    var tenths := seq(|inst.activities|, _ => 0);
    for i := 0 to |s|
      invariant |tenths| == |inst.activities|
      invariant forall a :: 0 <= a < |tenths| ==> tenths[a] == Yield(s[..i], a)
    {
      assert s[..i + 1][..i] == s[..i];
      var a := s[i].activity;
      tenths := tenths[a := tenths[a] + if s[i].eclo then ECLO_YIELD else STD_YIELD];
    }
    assert s[..|s|] == s;
    vs := [];
    for a := 0 to |inst.activities|
      invariant forall v :: v in vs <==>
        (v.Workload? && v.activity < a && tenths[v.activity] < inst.activities[v.activity].total * STD_YIELD)
    {
      if tenths[a] < inst.activities[a].total * STD_YIELD { vs := vs + [Workload(a)]; }
    }
    WorkloadVerdict(inst, s, vs);
  }

  lemma PlannedStartVerdict(inst: Instance, s: seq<Access>, vs: seq<Violation>)
    requires forall v :: v in vs <==> (v.PlannedStart? && Early(inst, XOf(s), v.activity, v.week))
    ensures vs == [] <==> PlannedStartOk(inst, s)
  {
    if vs == [] {
      forall i | 0 <= i < |s| && s[i].activity < |inst.activities|
        ensures inst.activities[s[i].activity].earliest <= s[i].week
      {
        AccessIn(s, i);
        assert PlannedStart(s[i].activity, s[i].week) !in vs;
      }
    } else {
      assert vs[0] in vs;
      var i := AccessFor(s, vs[0].activity, vs[0].week);
    }
  }

  /** Rule 2: no night before the planned start week. */
  method CheckPlannedStart(inst: Instance, s: seq<Access>) returns (vs: seq<Violation>)
    requires AccessesInRange(inst, s)
    ensures forall v :: v in vs <==>
      (v.PlannedStart? && Early(inst, XOf(s), v.activity, v.week))
    ensures vs == [] <==> PlannedStartOk(inst, s)
  {
    vs := [];
    assert XOf(s[..0]) == {};
    for i := 0 to |s|
      invariant forall v :: v in vs <==>
        (v.PlannedStart? && Early(inst, XOf(s[..i]), v.activity, v.week))
    {
      assert s[..i + 1][..i] == s[..i];
      XOfSnoc(s[..i + 1]);
      if s[i].week < inst.activities[s[i].activity].earliest {
        vs := vs + [PlannedStart(s[i].activity, s[i].week)];
      }
    }
    assert s[..|s|] == s;
    PlannedStartVerdict(inst, s, vs);
  }

  /** The first week of an activity up to the horizon, or 0. */
  ghost function FirstOrZero(x: Grid, a: nat, h: nat): int {
    var w := FirstIn(x, a, 1, h);
    if w == h + 1 then 0 else w
  }

  lemma LateStart(inst: Instance, s: seq<Access>, a: nat, p: nat)
    requires AccessesInRange(inst, s)
    ensures var first, last := FirstOrZero(XOf(s), a, inst.weeks), LastIn(XOf(s), p, inst.weeks);
            (first != 0 && last != 0 && first <= last) <==> !StrictlyAfter(XOf(s), a, p)
  {
    var x := XOf(s);
    FirstInProps(x, a, 1, inst.weeks);
    LastInProps(x, p, inst.weeks);
    forall v, w | (a, w) in x && (p, v) in x ensures 1 <= v <= inst.weeks && 1 <= w <= inst.weeks {
      var i := AccessFor(s, a, w);
      var j := AccessFor(s, p, v);
    }
  }

  lemma FirstAdd(x: Grid, b: nat, w: int, a: nat, h: nat)
    requires 1 <= w <= h
    ensures FirstOrZero(x + {(b, w)}, a, h)
         == var f := FirstOrZero(x, a, h); if a != b then f else if f == 0 || w < f then w else f
  {
    FirstInProps(x, a, 1, h);
    FirstInProps(x + {(b, w)}, a, 1, h);
    if a == b { assert (a, w) in x + {(b, w)}; }
  }

  method ActivityFirstWeek(inst: Instance, s: seq<Access>) returns (first: seq<int>)
    requires AccessesInRange(inst, s)
    ensures |first| == |inst.activities|
    ensures forall a :: 0 <= a < |first| ==> first[a] == FirstOrZero(XOf(s), a, inst.weeks)
  {
    first := seq(|inst.activities|, _ => 0);
    assert XOf(s[..0]) == {};
    forall a: nat ensures FirstOrZero({}, a, inst.weeks) == 0 { FirstInProps({}, a, 1, inst.weeks); }
    for i := 0 to |s|
      invariant |first| == |inst.activities|
      invariant forall a :: 0 <= a < |first| ==> first[a] == FirstOrZero(XOf(s[..i]), a, inst.weeks)
    {
      var b, w := s[i].activity, s[i].week;
      assert s[..i + 1][..i] == s[..i];
      XOfSnoc(s[..i + 1]);
      forall a: nat
        ensures FirstOrZero(XOf(s[..i + 1]), a, inst.weeks)
             == var f := FirstOrZero(XOf(s[..i]), a, inst.weeks); if a != b then f else if f == 0 || w < f then w else f
      {
        FirstAdd(XOf(s[..i]), b, w, a, inst.weeks);
      }
      first := first[b := if first[b] == 0 || w < first[b] then w else first[b]];
    }
    assert s[..|s|] == s;
  }

  lemma PrecedenceVerdict(inst: Instance, s: seq<Access>, vs: seq<Violation>)
    requires forall v :: v in vs <==> (v.PrecedenceBreach? && OutOfOrder(inst, XOf(s), v.activity, v.predecessor))
    ensures vs == [] <==> PrecedenceOk(inst, s)
  {
    if vs == [] {
      forall a: nat | a < |inst.activities| && inst.activities[a].predecessor.Some?
        ensures StrictlyAfter(XOf(s), a, inst.activities[a].predecessor.value)
      {
        assert PrecedenceBreach(a, inst.activities[a].predecessor.value) !in vs;
      }
    } else {
      assert vs[0] in vs;
    }
  }

  /** Rule 3: each activity starts strictly after its predecessor's last week. */
  method CheckPrecedence(inst: Instance, s: seq<Access>) returns (vs: seq<Violation>)
    requires Wellformed(inst) && AccessesInRange(inst, s)
    ensures forall v :: v in vs <==>
      (v.PrecedenceBreach? && OutOfOrder(inst, XOf(s), v.activity, v.predecessor))
    ensures vs == [] <==> PrecedenceOk(inst, s)
  {
    var last := ActivityLastWeek(inst, s);
    var first := ActivityFirstWeek(inst, s);
    vs := [];
    for a := 0 to |inst.activities|
      invariant forall v :: v in vs <==>
        (v.PrecedenceBreach? && v.activity < a && OutOfOrder(inst, XOf(s), v.activity, v.predecessor))
    {
      match inst.activities[a].predecessor {
        case None =>
        case Some(p) =>
          assert ValidActivity(inst, inst.activities[a]);
          LateStart(inst, s, a, p);
          if first[a] != 0 && last[p] != 0 && first[a] <= last[p] {
            vs := vs + [PrecedenceBreach(a, p)];
          }
      }
    }
    PrecedenceVerdict(inst, s, vs);
  }

  // --- access_seq ------------------------------------------------------------------------------

  lemma SequenceVerdict(inst: Instance, s: seq<Access>, vs: seq<Violation>)
    requires forall v :: v in vs <==> (v.BadSequence? && Misnumbered(inst, s, v.activity))
    ensures vs == [] <==> SequenceOk(inst, s)
  {
    if vs == [] {
      forall a: nat | a < |inst.activities| ensures NumberedInOrder(Numbers(s, a)) {
        assert BadSequence(a) !in vs;
      }
    } else {
      assert vs[0] in vs;
    }
  }

  /** vs lists the misnumbered activities below n, and nothing else. */
  ghost predicate SequencesListed(inst: Instance, s: seq<Access>, vs: seq<Violation>, n: nat) {
    forall v :: v in vs <==> (v.BadSequence? && v.activity < n && Misnumbered(inst, s, v.activity))
  }

  lemma SequenceStep(inst: Instance, s: seq<Access>, vs: seq<Violation>, a: nat, r: seq<(int, int)>)
    requires a < |inst.activities| && SequencesListed(inst, s, vs, a) && r == Sorted(Numbers(s, a), PairLe)
    ensures (forall k :: 0 <= k < |r| ==> r[k].1 == k + 1) <==> !Misnumbered(inst, s, a)
    ensures SequencesListed(inst, s, if Misnumbered(inst, s, a) then vs + [BadSequence(a)] else vs, a + 1)
  {
  }

  method CheckSequence(inst: Instance, s: seq<Access>) returns (vs: seq<Violation>)
    ensures forall v :: v in vs <==> (v.BadSequence? && Misnumbered(inst, s, v.activity))
    ensures vs == [] <==> SequenceOk(inst, s)
  {
    vs := [];
    for a := 0 to |inst.activities|
      invariant SequencesListed(inst, s, vs, a)
    {
      var r := Sorted(Numbers(s, a), PairLe);
      var good := InSequence(r);
      SequenceStep(inst, s, vs, a, r);
      if !good { vs := vs + [BadSequence(a)]; }
    }
    SequenceVerdict(inst, s, vs);
  }

  /** The k-th number is k; a repeat or a fall, looked for separately, is then impossible. */
  method InSequence(r: seq<(int, int)>) returns (good: bool)
    ensures good <==> forall k :: 0 <= k < |r| ==> r[k].1 == k + 1
  {
    good := true;
    var seen, previous := {}, 0;
    for k := 0 to |r|
      invariant good <==> forall j :: 0 <= j < k ==> r[j].1 == j + 1
      invariant good ==> previous == k && forall n :: n in seen <==> 1 <= n <= k
    {
      if r[k].1 != k + 1 || r[k].1 in seen || (r[k].1 <= previous && k > 0) { good := false; }
      seen := seen + {r[k].1};
      previous := r[k].1;
    }
  }

  /** The rules that read only the access rows. */
  ghost predicate AccessBreach(inst: Instance, s: seq<Access>, v: Violation) {
    || (v.DoubleAccess? && CountOf(s, (v.activity, v.week)) > 1)
    || (v.Workload? && Short(inst, s, v.activity))
    || (v.PlannedStart? && Early(inst, XOf(s), v.activity, v.week))
    || (v.PrecedenceBreach? && OutOfOrder(inst, XOf(s), v.activity, v.predecessor))
    || (v.BadSequence? && Misnumbered(inst, s, v.activity))
  }

  // --- the same rules over rows and fields --------------------------------------------------------

  lemma {:induction false} YieldSpelled(s: seq<Access>, a: nat)
    ensures Yield(s, a) == 10 * |RowsOf(s, a, false)| + 15 * |RowsOf(s, a, true)|
  {
    if s != [] {
      var t, z := s[..|s| - 1], s[|s| - 1];
      YieldSpelled(t, a);
      RowsOfSnoc(s, a, false);
      RowsOfSnoc(s, a, true);
    }
  }

  lemma RowsOfSnoc(s: seq<Access>, a: nat, eclo: bool)
    requires s != []
    ensures var t, z := s[..|s| - 1], s[|s| - 1];
      |RowsOf(s, a, eclo)| == |RowsOf(t, a, eclo)| + if z.activity == a && z.eclo == eclo then 1 else 0
  {
    var t, z := s[..|s| - 1], s[|s| - 1];
    var before, after, n: int := RowsOf(t, a, eclo), RowsOf(s, a, eclo), |t|;
    var added: set<int> := if z.activity == a && z.eclo == eclo then {n} else {};
    forall i: int ensures i in after <==> i in before || i in added {
      if 0 <= i < n { assert t[i] == s[i]; }
    }
    SetStep(after, before, n, z.activity == a && z.eclo == eclo);
  }

  lemma SetStep<T(!new)>(after: set<T>, before: set<T>, n: T, added: bool)
    requires n !in before && forall i: T :: i in after <==> i in before || (added && i == n)
    ensures |after| == |before| + if added then 1 else 0
  {
    if added {
      assert after == before + {n};
    } else {
      assert after == before;
    }
  }

  lemma {:induction false} DoubleSpelled(s: seq<Access>, a: nat, w: int)
    ensures CountOf(s, (a, w)) > 1 <==> Twice(s, a, w)
  {
    if s != [] {
      var t, z := s[..|s| - 1], s[|s| - 1];
      DoubleSpelled(t, a, w);
      CountPositive(t, (a, w));
      if Twice(s, a, w) {
        var i, j :| 0 <= i < j < |s| && s[i].activity == a && s[j].activity == a && s[i].week == w && s[j].week == w;
        assert t[i] == s[i];
        if j < |t| { assert t[j] == s[j]; }
      }
    }
  }

  lemma OrderSpelled(s: seq<Access>, a: nat, p: nat)
    ensures !StrictlyAfter(XOf(s), a, p) <==> NotAfter(s, a, p)
  {
    var x := XOf(s);
    if i, j :| 0 <= i < |s| && 0 <= j < |s| && s[i].activity == a && s[j].activity == p && s[i].week <= s[j].week {
      assert (a, s[i].week) in x && (p, s[j].week) in x;
    }
  }

  lemma TakenSpelled(s: seq<Access>, a: nat, w: int)
    ensures (a, w) in XOf(s) <==> exists i :: 0 <= i < |s| && s[i].activity == a && s[i].week == w
  {
  }

  lemma AccessSpelled(inst: Instance, s: seq<Access>, v: Violation)
    ensures AccessBreach(inst, s, v) <==> AccessRuleBroken(inst, s, v)
  {
    match v
    case DoubleAccess(a, w) => DoubleSpelled(s, a, w);
    case Workload(a) => YieldSpelled(s, a);
    case PlannedStart(a, w) => TakenSpelled(s, a, w);
    case PrecedenceBreach(a, p) => OrderSpelled(s, a, p);
    case BadSequence(a) => NumberingSpelled(s, a);
    case _ =>
  }

  method CheckAccesses(inst: Instance, s: seq<Access>) returns (vs: seq<Violation>, perWeek: map<(nat, int), nat>)
    requires Wellformed(inst) && AccessesInRange(inst, s)
    ensures forall k :: k in perWeek <==> k in XOf(s)
    ensures forall v :: v in vs <==> AccessBreach(inst, s, v)
    ensures forall v :: v in vs <==> AccessRuleBroken(inst, s, v)
    ensures vs == [] <==>
      Distinct(s) && WorkloadOk(inst, s) && PlannedStartOk(inst, s) && PrecedenceOk(inst, s) && SequenceOk(inst, s)
  {
    var v1;
    v1, perWeek := CheckOnePerWeek(s);
    var v2 := CheckWorkload(inst, s);
    var v3 := CheckPlannedStart(inst, s);
    var v4 := CheckPrecedence(inst, s);
    var v5 := CheckSequence(inst, s);
    vs := v1 + v2 + v3 + v4 + v5;
    forall v ensures AccessBreach(inst, s, v) <==> AccessRuleBroken(inst, s, v) { AccessSpelled(inst, s, v); }
  }
}
