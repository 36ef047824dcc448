/**
 * Disrupted supply. The constraints read the last override of a location-week, the score and the checker the first;
 * the difference matters only where some group of the location's users could feel it.
 */
module Supplies {
  import opened Counting
  import opened Model
  import opened Packing
  import opened Plans
  import opened Solver

  /** The overrides as they travel with the plan: by location id. */
  function Provenance(inst: Instance, ov: seq<SupplyOverride>): seq<(string, int, int)>
    requires forall i :: 0 <= i < |ov| ==> ov[i].location < |inst.locations|
  {
    seq(|ov|, i requires 0 <= i < |ov| && ov[i].location < |inst.locations| =>
      (inst.locations[ov[i].location].id, ov[i].week, ov[i].supply))
  }

  ghost predicate FirstFor(ov: seq<SupplyOverride>, i: nat) {
    i < |ov| && forall j :: 0 <= j < i ==> ov[j].location != ov[i].location || ov[j].week != ov[i].week
  }

  ghost predicate LastFor(ov: seq<SupplyOverride>, i: nat) {
    i < |ov| && forall j :: i < j < |ov| ==> ov[j].location != ov[i].location || ov[j].week != ov[i].week
  }

  /** The first and the last override of every location-week name the same supply. */
  ghost predicate Consistent(ov: seq<SupplyOverride>) {
    forall i: nat, j: nat ::
      (FirstFor(ov, i) && LastFor(ov, j) && ov[i].location == ov[j].location && ov[i].week == ov[j].week)
      ==> ov[i].supply == ov[j].supply
  }

  ghost predicate NoOverride(ov: seq<SupplyOverride>, l: nat, w: int) {
    forall i :: 0 <= i < |ov| ==> ov[i].location != l || ov[i].week != w
  }

  /** Override i governs (l, w) with the given supply. */
  ghost predicate Governs(ov: seq<SupplyOverride>, i: nat, l: nat, w: int, supply: int) {
    i < |ov| && ov[i] == SupplyOverride(l, w, supply)
  }

  lemma {:induction false} SolverSupplyIsLast(inst: Instance, ov: seq<SupplyOverride>, l: nat, w: int)
    requires l < |inst.locations|
    ensures NoOverride(ov, l, w) ==> SolverSupply(inst, ov, l, w) == inst.locations[l].supply
    ensures !NoOverride(ov, l, w) ==>
      exists j: nat :: LastFor(ov, j) && Governs(ov, j, l, w, SolverSupply(inst, ov, l, w))
  {
    if ov != [] {
      var n := |ov| - 1;
      var front := ov[..n];
      if ov[n].location == l && ov[n].week == w {
        assert LastFor(ov, n) && Governs(ov, n, l, w, SolverSupply(inst, ov, l, w));
      } else {
        SolverSupplyIsLast(inst, front, l, w);
        if !NoOverride(front, l, w) {
          var j: nat :| LastFor(front, j) && Governs(front, j, l, w, SolverSupply(inst, front, l, w));
          assert forall k :: 0 <= k < n ==> front[k] == ov[k];
          assert LastFor(ov, j) && Governs(ov, j, l, w, SolverSupply(inst, ov, l, w));
        } else {
          assert forall i :: 0 <= i < n ==> front[i] == ov[i];
        }
      }
    }
  }

  lemma {:induction false} EffectiveSupplyIsFirst(inst: Instance, ov: seq<SupplyOverride>, l: nat, w: int)
    requires Named(inst) && ValidOverrides(inst, ov) && l < |inst.locations|
    ensures var supply := EffectiveSupply(inst, Provenance(inst, ov), l, w);
      && (NoOverride(ov, l, w) ==> supply == inst.locations[l].supply)
      && (!NoOverride(ov, l, w) ==> exists i: nat :: FirstFor(ov, i) && Governs(ov, i, l, w, supply))
  {
    if ov != [] {
      var rest, supply := ov[1..], EffectiveSupply(inst, Provenance(inst, ov), l, w);
      assert inst.locations[ov[0].location].id == inst.locations[l].id <==> ov[0].location == l;
      if ov[0].location == l && ov[0].week == w {
        assert FirstFor(ov, 0) && Governs(ov, 0, l, w, supply);
      } else {
        assert Provenance(inst, ov)[1..] == Provenance(inst, rest);
        EffectiveSupplyIsFirst(inst, rest, l, w);
        assert forall k :: 1 <= k < |ov| ==> rest[k - 1] == ov[k];
        if !NoOverride(rest, l, w) {
          var i: nat :| FirstFor(rest, i) && Governs(rest, i, l, w, supply);
          assert FirstFor(ov, i + 1) && Governs(ov, i + 1, l, w, supply);
        }
      }
    }
  }

  ghost predicate SameSupplies(inst: Instance, ov: seq<SupplyOverride>)
    requires ValidOverrides(inst, ov)
  {
    forall l: nat, w :: l < |inst.locations| ==>
      SolverSupply(inst, ov, l, w) == EffectiveSupply(inst, Provenance(inst, ov), l, w)
  }

  lemma FirstUnique(ov: seq<SupplyOverride>, i: nat, j: nat)
    requires FirstFor(ov, i) && FirstFor(ov, j)
    requires ov[i].location == ov[j].location && ov[i].week == ov[j].week
    ensures i == j
  {
  }

  lemma LastUnique(ov: seq<SupplyOverride>, i: nat, j: nat)
    requires LastFor(ov, i) && LastFor(ov, j)
    requires ov[i].location == ov[j].location && ov[i].week == ov[j].week
    ensures i == j
  {
  }

  /** Solver and score see the same supply everywhere exactly when repeated overrides are consistent. */
  lemma SupplyAgreement(inst: Instance, ov: seq<SupplyOverride>)
    requires Wellformed(inst) && Named(inst) && ValidOverrides(inst, ov)
    ensures SameSupplies(inst, ov) <==> Consistent(ov)
  {
    if Consistent(ov) {
      forall l: nat, w | l < |inst.locations|
        ensures SolverSupply(inst, ov, l, w) == EffectiveSupply(inst, Provenance(inst, ov), l, w)
      {
        SolverSupplyIsLast(inst, ov, l, w);
        EffectiveSupplyIsFirst(inst, ov, l, w);
      }
    }
    if SameSupplies(inst, ov) {
      forall i: nat, j: nat | FirstFor(ov, i) && LastFor(ov, j)
        && ov[i].location == ov[j].location && ov[i].week == ov[j].week
        ensures ov[i].supply == ov[j].supply
      {
        var l, w := ov[i].location, ov[i].week;
        SolverSupplyIsLast(inst, ov, l, w);
        EffectiveSupplyIsFirst(inst, ov, l, w);
        assert !NoOverride(ov, l, w);
        var i': nat :| FirstFor(ov, i') && Governs(ov, i', l, w, EffectiveSupply(inst, Provenance(inst, ov), l, w));
        var j': nat :| LastFor(ov, j') && Governs(ov, j', l, w, SolverSupply(inst, ov, l, w));
        FirstUnique(ov, i, i');
        LastUnique(ov, j, j');
      }
    }
  }

  /** Overrides are not negative, so neither is any supply. */
  lemma {:induction false} SupplyNonNegative(inst: Instance, ov: seq<SupplyOverride>, l: nat, w: int)
    requires ValidOverrides(inst, ov) && l < |inst.locations|
    ensures SolverSupply(inst, ov, l, w) >= 0
  {
    if ov != [] { SupplyNonNegative(inst, ov[..|ov| - 1], l, w); }
  }

  lemma {:induction false} EffectiveNonNegative(inst: Instance, ov: seq<SupplyOverride>, l: nat, w: int)
    requires ValidOverrides(inst, ov) && l < |inst.locations|
    ensures EffectiveSupply(inst, Provenance(inst, ov), l, w) >= 0
  {
    if ov != [] {
      assert Provenance(inst, ov)[1..] == Provenance(inst, ov[1..]);
      EffectiveNonNegative(inst, ov[1..], l, w);
    }
  }

  // --- groups of users ---------------------------------------------------------------------------

  lemma NeededLess(inst: Instance, s: set<nat>, t: set<nat>)
    requires Members(inst, t) && s <= t
    ensures Members(inst, s) && Needed(inst, s) <= Needed(inst, t)
  {
    CardLe(OfType(inst, s, PM), OfType(inst, t, PM));
    CardLe(OfType(inst, s, PC), OfType(inst, t, PC));
    CardLe(OfType(inst, s, CO), OfType(inst, t, CO));
  }

  lemma OfTypeRemove(inst: Instance, s: set<nat>, a: nat, t: AccessType)
    requires Members(inst, s) && a in s
    ensures |OfType(inst, s - {a}, t)| == |OfType(inst, s, t)| - if TypeOf(inst, a) == t then 1 else 0
  {
    if TypeOf(inst, a) == t {
      assert OfType(inst, s, t) == OfType(inst, s - {a}, t) + {a};
    } else {
      assert OfType(inst, s, t) == OfType(inst, s - {a}, t);
    }
  }

  /** Sending one activity away frees at most one slot. */
  lemma NeededDrop(inst: Instance, s: set<nat>, a: nat)
    requires Members(inst, s) && a in s
    ensures Needed(inst, s) <= Needed(inst, s - {a}) + 1
  {
    OfTypeRemove(inst, s, a, PM);
    OfTypeRemove(inst, s, a, PC);
    OfTypeRemove(inst, s, a, CO);
  }

  lemma NoneNeeded(inst: Instance)
    ensures Members(inst, {}) && Needed(inst, {}) == 0
  {
    assert OfType(inst, {}, PM) == {} && OfType(inst, {}, PC) == {} && OfType(inst, {}, CO) == {};
  }

  /** Every slot count up to that of a group is the count of a smaller group. */
  lemma {:induction false} GroupNeeding(inst: Instance, s: set<nat>, v: nat) returns (t: set<nat>)
    requires Members(inst, s) && v <= Needed(inst, s)
    ensures t <= s && Members(inst, t) && Needed(inst, t) == v
  {
    if v == Needed(inst, s) {
      t := s;
    } else {
      NoneNeeded(inst);
      var a := Pick(s);
      NeededDrop(inst, s, a);
      t := GroupNeeding(inst, s - {a}, v);
    }
  }

  // --- when a difference in supply is felt ----------------------------------------------------------

  /** The slots needed should every user of the location work at once. */
  ghost function AllNeeded(inst: Instance, l: nat): nat
    requires Wellformed(inst)
  {
    UsersAreMembers(inst, l);
    Needed(inst, UsersOf(inst, l))
  }

  lemma UsersAreMembers(inst: Instance, l: nat)
    requires Wellformed(inst)
    ensures Members(inst, UsersOf(inst, l))
  {
    forall a | a in UsersOf(inst, l) ensures inst.activities[a].contract < |inst.contracts| {
      assert ValidActivity(inst, inst.activities[a]);
    }
  }

  /** Supply p is no smaller than q, or serves all users of the location at once. */
  ghost predicate Covers(inst: Instance, l: nat, p: int, q: int)
    requires Wellformed(inst)
  {
    p >= q || p >= AllNeeded(inst, l)
  }

  ghost predicate Alike(inst: Instance, l: nat, p: int, q: int)
    requires Wellformed(inst)
  {
    Covers(inst, l, p, q) && Covers(inst, l, q, p)
  }

  lemma UsersNeedLess(inst: Instance, l: nat, s: set<nat>)
    requires Wellformed(inst) && s <= UsersOf(inst, l)
    ensures Members(inst, s) && Needed(inst, s) <= AllNeeded(inst, l)
  {
    UsersAreMembers(inst, l);
    NeededLess(inst, s, UsersOf(inst, l));
  }

  /** Every group of the location's users that fits supply q fits supply p. */
  ghost predicate HoldsAll(inst: Instance, l: nat, p: int, q: int) {
    forall s :: s <= UsersOf(inst, l) && Members(inst, s) && Needed(inst, s) <= q ==> Needed(inst, s) <= p
  }

  /** p covers q exactly when every group of the location's users that fits q also fits p. */
  lemma CoversExact(inst: Instance, l: nat, p: int, q: int)
    requires Wellformed(inst) && q >= 0
    ensures Covers(inst, l, p, q) <==> HoldsAll(inst, l, p, q)
  {
    if Covers(inst, l, p, q) {
      forall s | s <= UsersOf(inst, l) && Members(inst, s) && Needed(inst, s) <= q ensures Needed(inst, s) <= p {
        UsersNeedLess(inst, l, s);
      }
    } else {
      UsersAreMembers(inst, l);
      var t := GroupNeeding(inst, UsersOf(inst, l), if q <= AllNeeded(inst, l) then q else AllNeeded(inst, l));
      assert Needed(inst, t) <= q && Needed(inst, t) > p;
    }
  }

  /** Every group of the location's users exceeds both supplies by as much. */
  ghost predicate SameExcess(inst: Instance, l: nat, p: int, q: int) {
    forall s :: s <= UsersOf(inst, l) && Members(inst, s) ==> Max0(Needed(inst, s) - p) == Max0(Needed(inst, s) - q)
  }

  /** Two supplies are alike exactly when no group of users is charged differently under them. */
  lemma AlikeExact(inst: Instance, l: nat, p: int, q: int)
    requires Wellformed(inst) && p >= 0 && q >= 0
    ensures Alike(inst, l, p, q) <==> SameExcess(inst, l, p, q)
  {
    if Alike(inst, l, p, q) {
      forall s | s <= UsersOf(inst, l) && Members(inst, s)
        ensures Max0(Needed(inst, s) - p) == Max0(Needed(inst, s) - q)
      {
        UsersNeedLess(inst, l, s);
      }
    }
    if SameExcess(inst, l, p, q) {
      forall s | s <= UsersOf(inst, l) && Members(inst, s)
        ensures Needed(inst, s) <= q <==> Needed(inst, s) <= p
      {
        assert Max0(Needed(inst, s) - p) == Max0(Needed(inst, s) - q);
      }
      CoversExact(inst, l, p, q);
      CoversExact(inst, l, q, p);
    }
  }

  lemma AtIsOfUsers(inst: Instance, x: Grid, l: nat, w: int)
    ensures At(inst, x, l, w) <= UsersOf(inst, l)
  {
  }

  /** What the recorded overrides supply holds whatever the constraints' supply holds. */
  ghost predicate CheckerCovers(inst: Instance, ov: seq<SupplyOverride>)
    requires Wellformed(inst) && ValidOverrides(inst, ov)
  {
    forall k :: CapacityCell(inst, k) ==>
      Covers(inst, k.0, EffectiveSupply(inst, Provenance(inst, ov), k.0, k.1), SolverSupply(inst, ov, k.0, k.1))
  }

  ghost predicate SolverCovers(inst: Instance, ov: seq<SupplyOverride>)
    requires Wellformed(inst) && ValidOverrides(inst, ov)
  {
    forall k :: CapacityCell(inst, k) ==>
      Covers(inst, k.0, SolverSupply(inst, ov, k.0, k.1), EffectiveSupply(inst, Provenance(inst, ov), k.0, k.1))
  }

  /** The first and the last override of a location-week make no difference that could be felt. */
  ghost predicate SuppliesAgree(inst: Instance, ov: seq<SupplyOverride>)
    requires Wellformed(inst) && ValidOverrides(inst, ov)
  {
    CheckerCovers(inst, ov) && SolverCovers(inst, ov)
  }

  /** Overrides that name no location-week twice with different supplies agree. */
  lemma ConsistentAgree(inst: Instance, ov: seq<SupplyOverride>)
    requires Wellformed(inst) && Named(inst) && ValidOverrides(inst, ov) && Consistent(ov)
    ensures SuppliesAgree(inst, ov)
  {
    SupplyAgreement(inst, ov);
  }
}
