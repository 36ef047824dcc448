/** Packing the activities of one location-week into possession slots: legality and optimality. */
module Packing {
  import opened Counting
  import opened Model

  // --- ranks ----------------------------------------------------------------------

  lemma RankBound(inst: Instance, s: set<nat>, a: nat)
    requires Members(inst, s) && a in s
    ensures Rank(inst, s, a) < |s|
  {
    StrLessIrreflexive(inst.activities[a].id);
    assert a in s && a !in Below(inst, s, a);
    CardLe(Below(inst, s, a), s);
  }

  lemma RankOrder(inst: Instance, s: set<nat>, a: nat, b: nat)
    requires Members(inst, s) && a in s && b in s && IdLess(inst, a, b)
    ensures Rank(inst, s, a) < Rank(inst, s, b)
  {
    forall c | c in Below(inst, s, a) ensures c in Below(inst, s, b) {
      StrLessTransitive(inst.activities[c].id, inst.activities[a].id, inst.activities[b].id);
    }
    StrLessIrreflexive(inst.activities[a].id);
    assert a in Below(inst, s, b) && a !in Below(inst, s, a);
    CardLe(Below(inst, s, a), Below(inst, s, b));
  }

  lemma RankDistinct(inst: Instance, s: set<nat>, a: nat, b: nat)
    requires Members(inst, s) && DistinctIds(inst) && a in s && b in s && a != b
    ensures Rank(inst, s, a) != Rank(inst, s, b)
  {
    StrLessTotal(inst.activities[a].id, inst.activities[b].id);
    if IdLess(inst, a, b) { RankOrder(inst, s, a, b); } else { RankOrder(inst, s, b, a); }
  }

  /** Members of t whose rank in s lies in lo .. hi - 1 number at most hi - lo. */
  lemma RankWindow(inst: Instance, s: set<nat>, t: set<nat>, lo: int, hi: int)
    requires Members(inst, s) && DistinctIds(inst) && t <= s && lo <= hi
    requires forall a :: a in t ==> lo <= Rank(inst, s, a) < hi
    ensures |t| <= hi - lo
  {
    var tag: map<nat, int> := map a | a in t :: Rank(inst, s, a);
    forall a, b | a in t && b in t && a != b ensures tag[a] != tag[b] {
      RankDistinct(inst, s, a, b);
    }
    InjectiveCard(t, tag, lo, hi);
  }

  // --- legal slots -----------------------------------------------------------------

  /** One PM alone, or at most one PC and at most four activities in all. */
  ghost predicate LegalMix(inst: Instance, s: set<nat>)
    requires Members(inst, s)
  {
    var pm, pc, co := |OfType(inst, s, PM)|, |OfType(inst, s, PC)|, |OfType(inst, s, CO)|;
    (pm == 1 && pc == 0 && co == 0) || (pm == 0 && pc <= 1 && pc + co <= 4)
  }

  ghost function Group(m: map<nat, int>, k: int): set<nat> {
    set a | a in m && m[a] == k
  }

  /** Every slot named by the labels holds a legal mix. */
  ghost predicate LegalLabels(inst: Instance, m: map<nat, int>)
    requires Members(inst, m.Keys)
  {
    forall k :: LegalMix(inst, Group(m, k))
  }

  /** The fewest slots: one per PM, one per PC, and the C beyond three per PC four to a slot. */
  function SlotsNeeded(pm: nat, pc: nat, co: nat): nat {
    pm + pc + if co <= 3 * pc then 0 else (co - 3 * pc + 3) / 4
  }

  /** The slot count satisfies the solver's two inequalities exactly when it is large enough. */
  lemma SlotsExact(pm: nat, pc: nat, co: nat, s: int)
    ensures SlotsNeeded(pm, pc, co) <= s <==> pm + pc <= s && co + 4 * pm + pc <= 4 * s
  {
  }

  ghost function Needed(inst: Instance, s: set<nat>): nat
    requires Members(inst, s)
  {
    SlotsNeeded(|OfType(inst, s, PM)|, |OfType(inst, s, PC)|, |OfType(inst, s, CO)|)
  }

  /** The slot the packer gives to a, as a closed form of its rank among its own type. */
  ghost function SlotOf(inst: Instance, s: set<nat>, a: nat): nat
    requires Members(inst, s) && a in s
  {
    var pm, pc := |OfType(inst, s, PM)|, |OfType(inst, s, PC)|;
    var r := Rank(inst, OfType(inst, s, TypeOf(inst, a)), a);
    match TypeOf(inst, a)
    case PM => r + 1
    case PC => pm + r + 1
    case CO => if r < 3 * pc then pm + r / 3 + 1 else pm + pc + (r - 3 * pc) / 4 + 1
  }

  ghost function Packed(inst: Instance, s: set<nat>): (m: map<nat, int>)
    requires Members(inst, s)
    ensures m.Keys == s
  {
    map a | a in s :: SlotOf(inst, s, a)
  }

  lemma TypesPartition(inst: Instance, s: set<nat>)
    requires Members(inst, s)
    ensures |s| == |OfType(inst, s, PM)| + |OfType(inst, s, PC)| + |OfType(inst, s, CO)|
  {
    var pm, pc, co := OfType(inst, s, PM), OfType(inst, s, PC), OfType(inst, s, CO);
    forall a ensures a in s <==> a in pm + (pc + co) {
      if a in s { var t := TypeOf(inst, a); }
    }
    CardSplit(pc + co, pc, co);
    CardSplit(s, pm, pc + co);
  }

  lemma OfTypeSplit(inst: Instance, s: set<nat>, a: set<nat>, b: set<nat>, t: AccessType)
    requires Members(inst, s) && s == a + b && a !! b
    ensures |OfType(inst, s, t)| == |OfType(inst, a, t)| + |OfType(inst, b, t)|
  {
    assert OfType(inst, s, t) == OfType(inst, a, t) + OfType(inst, b, t);
  }

  /** Pigeonhole with weights: any labels from K that fill slots legally need enough of them. */
  lemma {:induction false} LegalLabelsNeed(inst: Instance, m: map<nat, int>, K: set<int>)
    requires Members(inst, m.Keys)
    requires forall a :: a in m ==> m[a] in K
    requires forall k :: k in K ==> LegalMix(inst, Group(m, k))
    ensures Needed(inst, m.Keys) <= |K|
    decreases K
  {
    var s := m.Keys;
    if K == {} {
      assert s == {};
      TypesPartition(inst, s);
    } else {
      var k := Pick(K);
      var here := Group(m, k);
      var m' := map a | a in m && m[a] != k :: m[a];
      assert m.Keys == here + m'.Keys;
      forall j | j in K - {k} ensures LegalMix(inst, Group(m', j)) {
        assert Group(m', j) == Group(m, j);
      }
      LegalLabelsNeed(inst, m', K - {k});
      OfTypeSplit(inst, s, here, m'.Keys, PM);
      OfTypeSplit(inst, s, here, m'.Keys, PC);
      OfTypeSplit(inst, s, here, m'.Keys, CO);
      SlotsExact(|OfType(inst, m'.Keys, PM)|, |OfType(inst, m'.Keys, PC)|, |OfType(inst, m'.Keys, CO)|, |K| - 1);
      SlotsExact(|OfType(inst, s, PM)|, |OfType(inst, s, PC)|, |OfType(inst, s, CO)|, |K|);
    }
  }

  lemma PackedRange(inst: Instance, s: set<nat>, a: nat)
    requires Members(inst, s) && a in s
    ensures 1 <= SlotOf(inst, s, a) <= Needed(inst, s)
  {
    RankBound(inst, OfType(inst, s, TypeOf(inst, a)), a);
  }

  /** The members of one type in slot k, bounded by the ranks that lead there. */
  lemma PackedClass(inst: Instance, s: set<nat>, k: int, t: AccessType, lo: int, hi: int)
    requires Members(inst, s) && DistinctIds(inst) && lo <= hi
    requires forall a :: a in s && TypeOf(inst, a) == t && SlotOf(inst, s, a) == k ==>
               lo <= Rank(inst, OfType(inst, s, t), a) < hi
    ensures |OfType(inst, Group(Packed(inst, s), k), t)| <= hi - lo
  {
    RankWindow(inst, OfType(inst, s, t), OfType(inst, Group(Packed(inst, s), k), t), lo, hi);
  }

  /** PM slots come first, then PC slots, then slots of C alone. */
  lemma SlotBands(inst: Instance, s: set<nat>, a: nat)
    requires Members(inst, s) && a in s
    ensures var pm, pc, k := |OfType(inst, s, PM)|, |OfType(inst, s, PC)|, SlotOf(inst, s, a);
      && (TypeOf(inst, a) == PM ==> 1 <= k <= pm)
      && (TypeOf(inst, a) != PM ==> pm < k)
      && (TypeOf(inst, a) == PC ==> k <= pm + pc)
  {
    RankBound(inst, OfType(inst, s, TypeOf(inst, a)), a);
  }

  /** The members of slot k by type never exceed p PM, q PC and c C. */
  ghost predicate Holds(inst: Instance, s: set<nat>, k: int, p: int, q: int, c: int)
    requires Members(inst, s)
  {
    var g := Group(Packed(inst, s), k);
    |OfType(inst, g, PM)| <= p && |OfType(inst, g, PC)| <= q && |OfType(inst, g, CO)| <= c
  }

  lemma PMSlot(inst: Instance, s: set<nat>, k: int)
    requires Members(inst, s) && DistinctIds(inst) && k <= |OfType(inst, s, PM)|
    ensures Holds(inst, s, k, 1, 0, 0)
  {
    forall a | a in s && SlotOf(inst, s, a) == k ensures TypeOf(inst, a) == PM { SlotBands(inst, s, a); }
    PackedClass(inst, s, k, PM, k - 1, k);
    PackedClass(inst, s, k, PC, 0, 0);
    PackedClass(inst, s, k, CO, 0, 0);
  }

  lemma PCSlot(inst: Instance, s: set<nat>, k: int)
    requires Members(inst, s) && DistinctIds(inst)
    requires |OfType(inst, s, PM)| < k <= |OfType(inst, s, PM)| + |OfType(inst, s, PC)|
    ensures Holds(inst, s, k, 0, 1, 3)
  {
    forall a | a in s && SlotOf(inst, s, a) == k ensures TypeOf(inst, a) != PM { SlotBands(inst, s, a); }
    var i := k - |OfType(inst, s, PM)| - 1;
    PackedClass(inst, s, k, PM, 0, 0);
    PackedClass(inst, s, k, PC, i, i + 1);
    PackedClass(inst, s, k, CO, 3 * i, 3 * i + 3);
  }

  lemma COSlot(inst: Instance, s: set<nat>, k: int)
    requires Members(inst, s) && DistinctIds(inst)
    requires |OfType(inst, s, PM)| + |OfType(inst, s, PC)| < k
    ensures Holds(inst, s, k, 0, 0, 4)
  {
    forall a | a in s && SlotOf(inst, s, a) == k ensures TypeOf(inst, a) == CO { SlotBands(inst, s, a); }
    var pc := |OfType(inst, s, PC)|;
    var i := k - |OfType(inst, s, PM)| - pc - 1;
    PackedClass(inst, s, k, PM, 0, 0);
    PackedClass(inst, s, k, PC, 0, 0);
    PackedClass(inst, s, k, CO, 3 * pc + 4 * i, 3 * pc + 4 * i + 4);
  }

  lemma SlotMembers(inst: Instance, s: set<nat>, k: int)
    requires Members(inst, s) && DistinctIds(inst)
    ensures Holds(inst, s, k, 1, 0, 0) || Holds(inst, s, k, 0, 1, 3) || Holds(inst, s, k, 0, 0, 4)
  {
    if k <= |OfType(inst, s, PM)| {
      PMSlot(inst, s, k);
    } else if k <= |OfType(inst, s, PM)| + |OfType(inst, s, PC)| {
      PCSlot(inst, s, k);
    } else {
      COSlot(inst, s, k);
    }
  }

  lemma PackedLegalAt(inst: Instance, s: set<nat>, k: int)
    requires Members(inst, s) && DistinctIds(inst)
    ensures LegalMix(inst, Group(Packed(inst, s), k))
  {
    SlotMembers(inst, s, k);
  }

  lemma PackedLegal(inst: Instance, s: set<nat>)
    requires Members(inst, s) && DistinctIds(inst)
    ensures LegalLabels(inst, Packed(inst, s))
  {
    forall k ensures LegalMix(inst, Group(Packed(inst, s), k)) {
      PackedLegalAt(inst, s, k);
    }
  }

  /** No legal labelling uses fewer slots than the count. */
  lemma NoLegalUsesFewer(inst: Instance, m: map<nat, int>)
    requires Members(inst, m.Keys) && LegalLabels(inst, m)
    ensures Needed(inst, m.Keys) <= |m.Values|
  {
    LegalLabelsNeed(inst, m, m.Values);
  }

  /** The greedy packing uses exactly the labels 1..Needed. */
  lemma PackedValues(inst: Instance, s: set<nat>)
    requires Members(inst, s) && DistinctIds(inst)
    ensures Packed(inst, s).Values == Range(1, Needed(inst, s) + 1)
    ensures |Packed(inst, s).Values| == Needed(inst, s)
  {
    var p, labels := Packed(inst, s), Range(1, Needed(inst, s) + 1);
    forall a | a in s ensures 1 <= p[a] < Needed(inst, s) + 1 { PackedRange(inst, s, a); }
    FewValues(p, 1, Needed(inst, s) + 1);
    PackedLegal(inst, s);
    NoLegalUsesFewer(inst, p);
    RangeCard(1, Needed(inst, s) + 1);
    CardLe(p.Values, labels);
  }

  /** The greedy packing is legal and no legal labelling of the same activities uses fewer slots. */
  lemma PackingOptimal(inst: Instance, s: set<nat>)
    requires Members(inst, s) && DistinctIds(inst)
    ensures LegalLabels(inst, Packed(inst, s))
    ensures |Packed(inst, s).Values| == Needed(inst, s)
    ensures forall m: map<nat, int> :: m.Keys == s && LegalLabels(inst, m) ==> Needed(inst, s) <= |m.Values|
  {
    PackedLegal(inst, s);
    PackedValues(inst, s);
    forall m: map<nat, int> | m.Keys == s && LegalLabels(inst, m) ensures Needed(inst, s) <= |m.Values| {
      NoLegalUsesFewer(inst, m);
    }
  }

  /** For numbers alone: the packer's count is the least that meets the two inequalities. */
  lemma LeastSlots(inst: Instance, s: set<nat>, n: int)
    requires Members(inst, s) && DistinctIds(inst)
    ensures |OfType(inst, s, PM)| + |OfType(inst, s, PC)| <= n
         && |OfType(inst, s, CO)| + 4 * |OfType(inst, s, PM)| + |OfType(inst, s, PC)| <= 4 * n
        <==> exists m: map<nat, int> :: m.Keys == s && LegalLabels(inst, m) && |m.Values| <= n
  {
    PackingOptimal(inst, s);
    SlotsExact(|OfType(inst, s, PM)|, |OfType(inst, s, PC)|, |OfType(inst, s, CO)|, n);
    if Needed(inst, s) <= n {
      var p := Packed(inst, s);
      assert p.Keys == s && LegalLabels(inst, p) && |p.Values| <= n;
    }
  }
}
