/** The checker's passes over access nights: weekly allowance, night numbers and workfronts. */
module NightChecks {
  import opened Model
  import opened Checker
  import opened Scoring
  import opened Violations
  import opened Rules

  ghost predicate TooManyNights(inst: Instance, s: seq<Access>, c: nat, w: int) {
    c < |inst.contracts| && |ContractNights(inst, s, c, w)| > inst.contracts[c].maxPerWeek
  }

  ghost predicate BadNight(inst: Instance, s: seq<Access>, c: nat, w: int, n: int) {
    c < |inst.contracts| && n in ContractNights(inst, s, c, w) && !(1 <= n <= inst.contracts[c].maxPerWeek)
  }

  ghost predicate TooManyCrews(inst: Instance, s: seq<Access>, c: nat, w: int, n: int) {
    c < |inst.contracts| && |OnNight(inst, s, c, w, n)| > inst.contracts[c].workfronts
  }

  ghost predicate NightBreach(inst: Instance, s: seq<Access>, v: Violation) {
    match v
    case OverAllowance(c, w) => TooManyNights(inst, s, c, w)
    case NightOutOfRange(c, w, n) => BadNight(inst, s, c, w, n)
    case OverWorkfronts(c, w, n) => TooManyCrews(inst, s, c, w, n)
    case _ => false
  }

  lemma NightsSnoc(inst: Instance, s: seq<Access>, c: nat, w: int)
    requires s != []
    ensures var t, z := s[..|s| - 1], s[|s| - 1];
      var mine := z.activity < |inst.activities| && inst.activities[z.activity].contract == c && z.week == w;
      ContractNights(inst, s, c, w) == ContractNights(inst, t, c, w) + if mine then {z.night} else {}
  {
    var t, z := s[..|s| - 1], s[|s| - 1];
    var mine := z.activity < |inst.activities| && inst.activities[z.activity].contract == c && z.week == w;
    forall m | m in ContractNights(inst, s, c, w)
      ensures m in ContractNights(inst, t, c, w) + if mine then {z.night} else {}
    {
      var i :| 0 <= i < |s| && s[i].activity < |inst.activities|
               && inst.activities[s[i].activity].contract == c && s[i].week == w && s[i].night == m;
      if i < |t| { assert t[i] == s[i]; }
    }
    forall m | m in ContractNights(inst, t, c, w) ensures m in ContractNights(inst, s, c, w) {
      var i :| 0 <= i < |t| && t[i].activity < |inst.activities|
               && inst.activities[t[i].activity].contract == c && t[i].week == w && t[i].night == m;
      assert s[i] == t[i];
    }
  }

  lemma CrewSnoc(inst: Instance, s: seq<Access>, c: nat, w: int, n: int)
    requires s != []
    ensures var t, z := s[..|s| - 1], s[|s| - 1];
      var mine := z.activity < |inst.activities| && inst.activities[z.activity].contract == c && z.week == w;
      OnNight(inst, s, c, w, n) == OnNight(inst, t, c, w, n) + if mine && z.night == n then {z.activity} else {}
  {
    var t, z := s[..|s| - 1], s[|s| - 1];
    var mine := z.activity < |inst.activities| && inst.activities[z.activity].contract == c && z.week == w;
    forall a | a in OnNight(inst, s, c, w, n)
      ensures a in OnNight(inst, t, c, w, n) + if mine && z.night == n then {z.activity} else {}
    {
      var i :| 0 <= i < |s| && s[i].activity < |inst.activities| && s[i].activity == a
               && inst.activities[s[i].activity].contract == c && s[i].week == w && s[i].night == n;
      if i < |t| { assert t[i] == s[i]; }
    }
    forall a | a in OnNight(inst, t, c, w, n) ensures a in OnNight(inst, s, c, w, n) {
      var i :| 0 <= i < |t| && t[i].activity < |inst.activities| && t[i].activity == a
               && inst.activities[t[i].activity].contract == c && t[i].week == w && t[i].night == n;
      assert s[i] == t[i];
    }
  }

  function NightsAtKey(m: map<(nat, int), set<int>>, k: (nat, int)): set<int> {
    if k in m then m[k] else {}
  }

  function CrewAtKey(m: map<(nat, int, int), set<nat>>, k: (nat, int, int)): set<nat> {
    if k in m then m[k] else {}
  }

  ghost predicate NightTables(inst: Instance, s: seq<Access>, nights: map<(nat, int), set<int>>,
                              crews: map<(nat, int, int), set<nat>>) {
    && (forall c: nat, w: int :: NightsAtKey(nights, (c, w)) == ContractNights(inst, s, c, w))
    && (forall c: nat, w: int, n: int :: CrewAtKey(crews, (c, w, n)) == OnNight(inst, s, c, w, n))
  }

  /** The nights of each contract-week and the activities on each night. */
  method CollectNights(inst: Instance, s: seq<Access>)
    returns (nights: map<(nat, int), set<int>>, crews: map<(nat, int, int), set<nat>>)
    requires AccessesInRange(inst, s)
    ensures NightTables(inst, s, nights, crews)
  {
    nights, crews := map[], map[];
    for i := 0 to |s|
      invariant NightTables(inst, s[..i], nights, crews)
    {
      var c, w, n := inst.activities[s[i].activity].contract, s[i].week, s[i].night;
      ghost var nights0, crews0 := nights, crews;
      nights := nights[(c, w) := NightsAtKey(nights, (c, w)) + {n}];
      crews := crews[(c, w, n) := CrewAtKey(crews, (c, w, n)) + {s[i].activity}];
      TablesStep(inst, s, i, nights0, crews0, nights, crews);
    }
    assert s[..|s|] == s;
  }

  lemma TablesStep(inst: Instance, s: seq<Access>, i: nat, nights0: map<(nat, int), set<int>>,
                   crews0: map<(nat, int, int), set<nat>>, nights: map<(nat, int), set<int>>,
                   crews: map<(nat, int, int), set<nat>>)
    requires i < |s| && s[i].activity < |inst.activities| && NightTables(inst, s[..i], nights0, crews0)
    requires var c, w, n := inst.activities[s[i].activity].contract, s[i].week, s[i].night;
      && nights == nights0[(c, w) := NightsAtKey(nights0, (c, w)) + {n}]
      && crews == crews0[(c, w, n) := CrewAtKey(crews0, (c, w, n)) + {s[i].activity}]
    ensures NightTables(inst, s[..i + 1], nights, crews)
  {
    assert s[..i + 1][..i] == s[..i];
    var t := s[..i + 1];
    forall c: nat, w: int ensures NightsAtKey(nights, (c, w)) == ContractNights(inst, t, c, w) {
      NightsSnoc(inst, t, c, w);
      assert NightsAtKey(nights0, (c, w)) == ContractNights(inst, s[..i], c, w);
    }
    forall c: nat, w: int, n: int ensures CrewAtKey(crews, (c, w, n)) == OnNight(inst, t, c, w, n) {
      CrewSnoc(inst, t, c, w, n);
      assert CrewAtKey(crews0, (c, w, n)) == OnNight(inst, s[..i], c, w, n);
    }
  }

  /** Rule 7, first half: the number of distinct nights. */
  method CheckAllowance(inst: Instance, s: seq<Access>, nights: map<(nat, int), set<int>>) returns (vs: seq<Violation>)
    requires Wellformed(inst) && AccessesInRange(inst, s)
    requires forall c: nat, w: int :: NightsAtKey(nights, (c, w)) == ContractNights(inst, s, c, w)
    ensures forall v :: v in vs <==>
      (v.OverAllowance? && v.contract < |inst.contracts|
       && |ContractNights(inst, s, v.contract, v.week)| > inst.contracts[v.contract].maxPerWeek)
  {
    vs := [];
    var todo := nights.Keys;
    while todo != {}
      invariant todo <= nights.Keys
      invariant forall v :: v in vs <==>
        (v.OverAllowance? && v.contract < |inst.contracts| && (v.contract, v.week) in nights.Keys - todo
         && |NightsAtKey(nights, (v.contract, v.week))| > inst.contracts[v.contract].maxPerWeek)
      decreases todo
    {
      var k: (nat, int) :| k in todo;
      todo := todo - {k};
      if k.0 < |inst.contracts| && |nights[k]| > inst.contracts[k.0].maxPerWeek {
        vs := vs + [OverAllowance(k.0, k.1)];
      }
    }
  }

  /** Rule 7, second half: each night number within 1..allowance. */
  method CheckNightRange(inst: Instance, s: seq<Access>) returns (vs: seq<Violation>)
    requires Wellformed(inst) && AccessesInRange(inst, s)
    ensures forall v :: v in vs <==>
      (v.NightOutOfRange? && v.contract < |inst.contracts| && v.night in ContractNights(inst, s, v.contract, v.week)
       && !(1 <= v.night <= inst.contracts[v.contract].maxPerWeek))
  {
    vs := [];
    for i := 0 to |s|
      invariant forall v :: v in vs <==>
        (v.NightOutOfRange? && v.contract < |inst.contracts|
         && v.night in ContractNights(inst, s[..i], v.contract, v.week)
         && !(1 <= v.night <= inst.contracts[v.contract].maxPerWeek))
    {
      assert s[..i + 1][..i] == s[..i];
      var c, n := inst.activities[s[i].activity].contract, s[i].night;
      assert ValidActivity(inst, inst.activities[s[i].activity]);
      forall d: nat, w: int
        ensures ContractNights(inst, s[..i + 1], d, w)
             == ContractNights(inst, s[..i], d, w) + (if c == d && s[i].week == w then {n} else {})
      {
        NightsSnoc(inst, s[..i + 1], d, w);
      }
      if n < 1 || n > inst.contracts[c].maxPerWeek { vs := vs + [NightOutOfRange(c, s[i].week, n)]; }
    }
    assert s[..|s|] == s;
  }

  /** Rule 8: no night runs more activities than the contract has workfronts. */
  method CheckWorkfronts(inst: Instance, s: seq<Access>, crews: map<(nat, int, int), set<nat>>)
    returns (vs: seq<Violation>)
    requires Wellformed(inst) && AccessesInRange(inst, s)
    requires forall c: nat, w: int, n: int :: CrewAtKey(crews, (c, w, n)) == OnNight(inst, s, c, w, n)
    ensures forall v :: v in vs <==>
      (v.OverWorkfronts? && v.contract < |inst.contracts|
       && |OnNight(inst, s, v.contract, v.week, v.night)| > inst.contracts[v.contract].workfronts)
  {
    vs := [];
    var todo := crews.Keys;
    while todo != {}
      invariant todo <= crews.Keys
      invariant forall v :: v in vs <==>
        (v.OverWorkfronts? && v.contract < |inst.contracts| && (v.contract, v.week, v.night) in crews.Keys - todo
         && |CrewAtKey(crews, (v.contract, v.week, v.night))| > inst.contracts[v.contract].workfronts)
      decreases todo
    {
      var k: (nat, int, int) :| k in todo;
      todo := todo - {k};
      if k.0 < |inst.contracts| && |crews[k]| > inst.contracts[k.0].workfronts {
        vs := vs + [OverWorkfronts(k.0, k.1, k.2)];
      }
    }
  }

  lemma NoBreachIsOk(inst: Instance, s: seq<Access>)
    requires forall c: nat, w :: !TooManyNights(inst, s, c, w)
    requires forall c: nat, w, n :: !BadNight(inst, s, c, w, n) && !TooManyCrews(inst, s, c, w, n)
    ensures AllocationOk(inst, s) && WorkfrontsOk(inst, s)
  {
    forall c: nat, w | c < |inst.contracts|
      ensures |ContractNights(inst, s, c, w)| <= inst.contracts[c].maxPerWeek
      ensures forall n :: n in ContractNights(inst, s, c, w) ==> 1 <= n <= inst.contracts[c].maxPerWeek
    {
      assert !TooManyNights(inst, s, c, w);
      forall n | n in ContractNights(inst, s, c, w) ensures 1 <= n <= inst.contracts[c].maxPerWeek {
        assert !BadNight(inst, s, c, w, n);
      }
    }
    forall c: nat, w, n | c < |inst.contracts| ensures |OnNight(inst, s, c, w, n)| <= inst.contracts[c].workfronts {
      assert !TooManyCrews(inst, s, c, w, n);
    }
  }

  lemma NightsSpelled(inst: Instance, s: seq<Access>, v: Violation)
    ensures NightBreach(inst, s, v) <==> NightRuleBroken(inst, s, v)
  {
    match v
    case OverAllowance(c, w) => assert ContractNights(inst, s, c, w) == NightsOf(inst, s, c, w);
    case OverWorkfronts(c, w, n) => assert OnNight(inst, s, c, w, n) == CrewOf(inst, s, c, w, n);
    case _ =>
  }

  lemma NightVerdict(inst: Instance, s: seq<Access>, vs: seq<Violation>)
    requires forall v :: v in vs <==> NightBreach(inst, s, v)
    ensures vs == [] <==> AllocationOk(inst, s) && WorkfrontsOk(inst, s)
  {
    if vs == [] {
      forall c: nat, w ensures !TooManyNights(inst, s, c, w) {
        assert OverAllowance(c, w) !in vs;
      }
      forall c: nat, w, n ensures !BadNight(inst, s, c, w, n) && !TooManyCrews(inst, s, c, w, n) {
        assert NightOutOfRange(c, w, n) !in vs && OverWorkfronts(c, w, n) !in vs;
      }
      NoBreachIsOk(inst, s);
    } else {
      assert vs[0] in vs;
    }
  }

  /** Rules 7 and 8: the weekly allowance and the workfronts. */
  method CheckNights(inst: Instance, s: seq<Access>) returns (vs: seq<Violation>)
    requires Wellformed(inst) && AccessesInRange(inst, s)
    ensures forall v :: v in vs <==> NightBreach(inst, s, v)
    ensures forall v :: v in vs <==> NightRuleBroken(inst, s, v)
    ensures vs == [] <==> AllocationOk(inst, s) && WorkfrontsOk(inst, s)
  {
    var nights, crews := CollectNights(inst, s);
    var v1 := CheckAllowance(inst, s, nights);
    var v2 := CheckNightRange(inst, s);
    var v3 := CheckWorkfronts(inst, s, crews);
    vs := v1 + v2 + v3;
    NightVerdict(inst, s, vs);
    forall v ensures NightBreach(inst, s, v) <==> NightRuleBroken(inst, s, v) { NightsSpelled(inst, s, v); }
  }
}
