/** Spreading a contract's week over its granted nights: feasibility and minimality. */
module Nights {
  import opened Counting
  import opened Model
  import opened Packing

  /** Rules 7 and 8 for one contract-week: nights within the allowance, no night over its workfronts. */
  ghost predicate LegalNights(c: Contract, night: map<nat, int>) {
    && (forall a :: a in night ==> 1 <= night[a] <= c.maxPerWeek)
    && WithinWorkfronts(c, night)
  }

  ghost predicate WithinWorkfronts(c: Contract, night: map<nat, int>) {
    forall n :: |Group(night, n)| <= c.workfronts
  }

  /** Night 1 is filled to its workfronts, then night 2, in id order. */
  ghost function NightOf(inst: Instance, c: Contract, s: set<nat>, a: nat): int
    requires Members(inst, s) && a in s && c.workfronts >= 1
  {
    Rank(inst, s, a) / c.workfronts + 1
  }

  ghost function Filled(inst: Instance, c: Contract, s: set<nat>): (m: map<nat, int>)
    requires Members(inst, s) && c.workfronts >= 1
    ensures m.Keys == s
  {
    map a | a in s :: NightOf(inst, c, s, a)
  }

  lemma MulCancel(a: int, b: int, d: nat)
    requires a * d < b * d
    ensures a < b
  {
  }

  lemma MulMono(a: nat, b: nat, d: nat)
    requires a <= b
    ensures a * d <= b * d
  {
  }

  lemma DivBelow(r: nat, n: nat, d: nat)
    requires d >= 1 && r < n * d
    ensures r / d < n
  {
    assert r == (r / d) * d + r % d;
    MulCancel(r / d, n, d);
  }

  lemma DivExact(r: nat, d: nat, q: int)
    requires d >= 1 && r / d == q
    ensures q * d <= r < (q + 1) * d
  {
    assert r == (r / d) * d + r % d;
    assert (q + 1) * d == q * d + d;
  }

  lemma FilledWithinWorkfronts(inst: Instance, c: Contract, s: set<nat>)
    requires Members(inst, s) && DistinctIds(inst) && c.workfronts >= 1
    ensures WithinWorkfronts(c, Filled(inst, c, s))
  {
    var m := Filled(inst, c, s);
    forall n ensures |Group(m, n)| <= c.workfronts {
      forall a | a in Group(m, n) ensures (n - 1) * c.workfronts <= Rank(inst, s, a) < n * c.workfronts {
        DivExact(Rank(inst, s, a), c.workfronts, n - 1);
      }
      assert n * c.workfronts == (n - 1) * c.workfronts + c.workfronts;
      RankWindow(inst, s, Group(m, n), (n - 1) * c.workfronts, n * c.workfronts);
    }
  }

  /** Any assignment within the workfronts needs at least |s| / workfronts nights. */
  lemma NightsNeeded(c: Contract, m: map<nat, int>)
    requires WithinWorkfronts(c, m)
    ensures |m| <= |m.Values| * c.workfronts
  {
    forall n | n in m.Values ensures |Class(m.Keys, m, n)| <= c.workfronts {
      assert Class(m.Keys, m, n) == Group(m, n);
    }
    assert forall a :: a in m.Keys ==> m[a] in m.Values;
    Pigeonhole(m.Keys, m, m.Values, c.workfronts);
    assert |m.Keys| == |m|;
  }

  lemma NightInRange(inst: Instance, c: Contract, s: set<nat>, a: nat, n: nat)
    requires Members(inst, s) && a in s && c.workfronts >= 1 && |s| <= n * c.workfronts
    ensures 1 <= NightOf(inst, c, s, a) < n + 1
  {
    RankBound(inst, s, a);
    DivBelow(Rank(inst, s, a), n, c.workfronts);
  }

  lemma FilledUsesAtMost(inst: Instance, c: Contract, s: set<nat>, n: nat)
    requires Members(inst, s) && c.workfronts >= 1 && |s| <= n * c.workfronts
    ensures forall a :: a in s ==> 1 <= Filled(inst, c, s)[a] < n + 1
    ensures |Filled(inst, c, s).Values| <= n
  {
    forall a | a in s ensures 1 <= Filled(inst, c, s)[a] < n + 1 {
      NightInRange(inst, c, s, a, n);
    }
    FewValues(Filled(inst, c, s), 1, n + 1);
  }

  lemma FilledLegal(inst: Instance, c: Contract, s: set<nat>)
    requires Members(inst, s) && DistinctIds(inst) && c.workfronts >= 1
    requires |s| <= c.maxPerWeek * c.workfronts
    ensures LegalNights(c, Filled(inst, c, s))
  {
    FilledWithinWorkfronts(inst, c, s);
    FilledUsesAtMost(inst, c, s, c.maxPerWeek);
  }

  /** The greedy fill uses the fewest distinct nights of any assignment within the workfronts. */
  lemma NightsMinimal(inst: Instance, c: Contract, s: set<nat>, m: map<nat, int>)
    requires Members(inst, s) && c.workfronts >= 1
    requires m.Keys == s && WithinWorkfronts(c, m)
    ensures |Filled(inst, c, s).Values| <= |m.Values|
  {
    NightsNeeded(c, m);
    assert |m.Keys| == |m|;
    FilledUsesAtMost(inst, c, s, |m.Values|);
  }
}
