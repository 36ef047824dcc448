/** The checker's passes over possession slots: capacity and legal mix. */
module SlotChecks {
  import opened Counting
  import opened Model
  import opened Packing
  import opened Plans
  import opened Checker
  import opened Violations
  import opened Rules

  /** More slots than the effective supply and the scenario's tolerance. */
  ghost predicate Overbooked(inst: Instance, plan: Plan, k: Cell) {
    k in plan.slotsUsed && k.0 < |inst.locations|
    && plan.slotsUsed[k] - EffectiveSupply(inst, plan.overrides, k.0, k.1) > Tolerance(plan.scenario)
  }

  /** Rule 5: possession slots used against effective supply, within the scenario's tolerance. */
  method CheckCapacity(inst: Instance, plan: Plan) returns (vs: seq<Violation>)
    requires LoadedSlots(inst, plan) && LabelsCounted(plan)
    ensures vs == [] <==> CapacityOk(inst, plan)
    ensures forall v :: v in vs <==> (v.OverCapacity? && TooManySlots(inst, plan, v.cell))
  {
    vs := [];
    var todo := plan.slotsUsed.Keys;
    while todo != {}
      invariant todo <= plan.slotsUsed.Keys
      invariant forall v :: v in vs <==>
        (v.OverCapacity? && v.cell !in todo && Overbooked(inst, plan, v.cell))
      decreases todo
    {
      var k: Cell :| k in todo;
      todo := todo - {k};
      var excess := plan.slotsUsed[k] - EffectiveSupply(inst, plan.overrides, k.0, k.1);
      if excess > 0 && excess > Tolerance(plan.scenario) { vs := vs + [OverCapacity(k)]; }
    }
    CapacityVerdict(inst, plan, vs);
    forall k ensures Overbooked(inst, plan, k) <==> TooManySlots(inst, plan, k) { CapacitySpelled(inst, plan, k); }
  }

  /** The members of slot b by type. */
  method CountMix(inst: Instance, m: map<nat, int>, b: int) returns (pm: nat, pc: nat, co: nat)
    requires Members(inst, m.Keys)
    ensures pm == |OfType(inst, Group(m, b), PM)| && pc == |OfType(inst, Group(m, b), PC)|
            && co == |OfType(inst, Group(m, b), CO)|
  {
    pm, pc, co := 0, 0, 0;
    var todo := m.Keys;
    ghost var seen: set<nat> := {};
    assert OfType(inst, seen, PM) == {} && OfType(inst, seen, PC) == {} && OfType(inst, seen, CO) == {};
    while todo != {}
      invariant todo <= m.Keys && seen == Group(m, b) - todo
      invariant pm == |OfType(inst, seen, PM)| && pc == |OfType(inst, seen, PC)| && co == |OfType(inst, seen, CO)|
      decreases todo
    {
      var a: nat :| a in todo;
      todo := todo - {a};
      if m[a] == b {
        CountOne(inst, seen, a);
        seen := seen + {a};
        match TypeOf(inst, a) {
          case PM => pm := pm + 1;
          case PC => pc := pc + 1;
          case CO => co := co + 1;
        }
      }
    }
    assert seen == Group(m, b);
  }

  lemma CountOne(inst: Instance, s: set<nat>, a: nat)
    requires Members(inst, s + {a}) && a !in s
    ensures forall t :: |OfType(inst, s + {a}, t)| == |OfType(inst, s, t)| + if TypeOf(inst, a) == t then 1 else 0
  {
    forall t ensures |OfType(inst, s + {a}, t)| == |OfType(inst, s, t)| + if TypeOf(inst, a) == t then 1 else 0 {
      if TypeOf(inst, a) == t {
        assert OfType(inst, s + {a}, t) == OfType(inst, s, t) + {a};
      } else {
        assert OfType(inst, s + {a}, t) == OfType(inst, s, t);
      }
    }
  }

  lemma EmptySlotLegal(inst: Instance, m: map<nat, int>, b: int)
    requires Members(inst, m.Keys) && forall a :: a in m ==> m[a] != b
    ensures LegalMix(inst, Group(m, b))
  {
    var g := Group(m, b);
    assert g == {};
    CardPositive(OfType(inst, g, PM));
    CardPositive(OfType(inst, g, PC));
    CardPositive(OfType(inst, g, CO));
  }

  /** Rule 5 within one location-week: each slot label holds a legal mix. */
  method CheckCellMix(inst: Instance, k: Cell, m: map<nat, int>) returns (vs: seq<Violation>)
    requires Members(inst, m.Keys)
    ensures forall v :: v in vs <==> (v.IllegalMix? && v.cell == k && !LegalMix(inst, Group(m, v.slot)))
  {
    vs := [];
    var todo := m.Keys;
    var done: set<int> := {};
    while todo != {}
      invariant todo <= m.Keys
      invariant forall a :: a in m && a !in todo ==> m[a] in done
      invariant forall v :: v in vs <==>
        (v.IllegalMix? && v.cell == k && v.slot in done && !LegalMix(inst, Group(m, v.slot)))
      decreases todo
    {
      var a: nat :| a in todo;
      todo := todo - {a};
      var b := m[a];
      if b !in done {
        done := done + {b};
        var pm, pc, co := CountMix(inst, m, b);
        if !((pm == 1 && pc == 0 && co == 0) || (pm == 0 && pc <= 1 && pc + co <= 4)) {
          vs := vs + [IllegalMix(k, b)];
        }
      }
    }
    forall b | b !in done ensures LegalMix(inst, Group(m, b)) { EmptySlotLegal(inst, m, b); }
  }

  ghost predicate AllMembers(inst: Instance, slots: Slots) {
    forall k :: k in slots ==> Members(inst, slots[k].Keys)
  }

  /** Slot b of location-week k holds an illegal mix. */
  ghost predicate BadMix(inst: Instance, slots: Slots, k: Cell, b: int) {
    k in slots && Members(inst, slots[k].Keys) && !LegalMix(inst, Group(slots[k], b))
  }

  /** Rule 5 everywhere. */
  method CheckMix(inst: Instance, plan: Plan) returns (vs: seq<Violation>)
    requires Wellformed(inst) && LoadedSlots(inst, plan)
    ensures forall v :: v in vs <==> (v.IllegalMix? && MixBroken(inst, plan.slots, v.cell, v.slot))
    ensures vs == [] <==> MixOk(inst, plan)
  {
    LoadedMembers(inst, plan);
    vs := CollectMix(inst, plan.slots);
    MixVerdict(inst, plan, vs);
    forall k: Cell, b ensures BadMix(inst, plan.slots, k, b) <==> MixBroken(inst, plan.slots, k, b) {
      MixSpelled(inst, plan.slots, k, b);
    }
  }

  method CollectMix(inst: Instance, slots: Slots) returns (vs: seq<Violation>)
    requires AllMembers(inst, slots)
    ensures forall v :: v in vs <==> (v.IllegalMix? && BadMix(inst, slots, v.cell, v.slot))
  {
    vs := [];
    var todo := slots.Keys;
    while todo != {}
      invariant todo <= slots.Keys
      invariant forall v :: v in vs <==>
        (v.IllegalMix? && v.cell !in todo && BadMix(inst, slots, v.cell, v.slot))
      decreases todo
    {
      var k: Cell :| k in todo;
      todo := todo - {k};
      var more := CheckCellMix(inst, k, slots[k]);
      vs := vs + more;
    }
  }

  lemma CapacityVerdict(inst: Instance, plan: Plan, vs: seq<Violation>)
    requires LoadedSlots(inst, plan)
    requires forall v :: v in vs <==> (v.OverCapacity? && Overbooked(inst, plan, v.cell))
    ensures vs == [] <==> CapacityOk(inst, plan)
  {
    if vs == [] {
      forall k | k in plan.slotsUsed
        ensures plan.slotsUsed[k] - EffectiveSupply(inst, plan.overrides, k.0, k.1) <= Tolerance(plan.scenario)
      {
        assert OverCapacity(k) !in vs;
      }
    } else {
      assert vs[0] in vs;
    }
  }

  lemma MixVerdict(inst: Instance, plan: Plan, vs: seq<Violation>)
    requires Wellformed(inst) && LoadedSlots(inst, plan) && AllMembers(inst, plan.slots)
    requires forall v :: v in vs <==>
      (v.IllegalMix? && BadMix(inst, plan.slots, v.cell, v.slot))
    ensures vs == [] <==> MixOk(inst, plan)
  {
    if vs == [] {
      forall k | k in plan.slots ensures LegalLabels(inst, plan.slots[k]) {
        forall b ensures LegalMix(inst, Group(plan.slots[k], b)) {
          assert IllegalMix(k, b) !in vs;
          assert !BadMix(inst, plan.slots, k, b);
        }
      }
    } else {
      assert vs[0] in vs;
      assert BadMix(inst, plan.slots, vs[0].cell, vs[0].slot);
      assert !LegalLabels(inst, plan.slots[vs[0].cell]);
    }
  }

  lemma CapacitySpelled(inst: Instance, plan: Plan, k: Cell)
    requires LoadedSlots(inst, plan) && LabelsCounted(plan)
    ensures Overbooked(inst, plan, k) <==> TooManySlots(inst, plan, k)
  {
    if k in plan.slots {
      var n := EffectiveSupply(inst, plan.overrides, k.0, k.1);
      forall m ensures SupplyIs(inst, plan.overrides, k, m) <==> m == n {
        SupplySpelled(inst, plan.overrides, k, m);
      }
      assert SupplyIs(inst, plan.overrides, k, n);
    }
  }

  lemma MixSpelled(inst: Instance, slots: Slots, k: Cell, b: int)
    requires AllMembers(inst, slots)
    ensures BadMix(inst, slots, k, b) <==> MixBroken(inst, slots, k, b)
  {
    if k in slots {
      var m := slots[k];
      assert OfType(inst, Group(m, b), PM) == Labelled(inst, m, b, PM);
      assert OfType(inst, Group(m, b), PC) == Labelled(inst, m, b, PC);
      assert OfType(inst, Group(m, b), CO) == Labelled(inst, m, b, CO);
    }
  }

  lemma LoadedMembers(inst: Instance, plan: Plan)
    requires Wellformed(inst) && LoadedSlots(inst, plan)
    ensures AllMembers(inst, plan.slots)
  {
    forall k, a | k in plan.slots && a in plan.slots[k]
      ensures a < |inst.activities| && inst.activities[a].contract < |inst.contracts|
    {
      assert ValidActivity(inst, inst.activities[a]);
    }
  }

  /** Rule 5 in both halves. */
  method CheckSlots(inst: Instance, plan: Plan) returns (vs: seq<Violation>)
    requires Wellformed(inst) && LoadedSlots(inst, plan) && LabelsCounted(plan)
    ensures forall v :: v in vs <==> SlotRuleBroken(inst, plan, v)
    ensures vs == [] <==> CapacityOk(inst, plan) && MixOk(inst, plan)
  {
    var v1 := CheckCapacity(inst, plan);
    var v2 := CheckMix(inst, plan);
    vs := v1 + v2;
  }
}
