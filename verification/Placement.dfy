/** Where the night filler and the packer put an activity, told by the ids of those it shares a week with. */
module Placement {
  import opened Model
  import opened Packing
  import opened Plans
  import opened Soundness

  /** Some access is a night of activity a in week w. */
  ghost predicate Works(s: seq<Access>, a: nat, w: int) {
    exists i :: 0 <= i < |s| && s[i].activity == a && s[i].week == w
  }

  ghost predicate Known(inst: Instance, a: nat) {
    a < |inst.activities| && inst.activities[a].contract < |inst.contracts|
  }

  /** The activities of contract c with a night in week w. */
  ghost function InContractWeek(inst: Instance, s: seq<Access>, c: nat, w: int): set<nat> {
    set a | 0 <= a < |inst.activities| && inst.activities[a].contract == c && Works(s, a, w)
  }

  /** The activities of one access type with a night in week w at location l. */
  ghost function InLocationWeek(inst: Instance, s: seq<Access>, l: nat, w: int, t: AccessType): set<nat> {
    set a | 0 <= a < |inst.activities| && inst.activities[a].contract < |inst.contracts|
            && inst.contracts[inst.activities[a].contract].accessType == t
            && l in inst.activities[a].occupied && Works(s, a, w)
  }

  /** Those whose id comes before that of a. */
  ghost function Ahead(inst: Instance, group: set<nat>, a: nat): set<nat>
    requires a < |inst.activities|
  {
    set b | b in group && b < |inst.activities| && ComesBefore(inst.activities[b].id, inst.activities[a].id)
  }

  /** Every night is the first, or as many further as the workfronts are filled by those ahead. */
  ghost predicate NightsInIdOrder(inst: Instance, s: seq<Access>) {
    forall i :: 0 <= i < |s| ==> NightInIdOrder(inst, s, i)
  }

  ghost predicate NightInIdOrder(inst: Instance, s: seq<Access>, i: int)
    requires 0 <= i < |s|
  {
    var a := s[i].activity;
    a < |inst.activities| && inst.activities[a].contract < |inst.contracts|
    && var c := inst.activities[a].contract;
       var ahead, crews := |Ahead(inst, InContractWeek(inst, s, c, s[i].week), a)|, inst.contracts[c].workfronts;
       crews >= 1 && (s[i].night - 1) * crews <= ahead < s[i].night * crews
  }

  /** PM come first, one to a slot; then PC, one to a slot; C go three beside each PC and then four to a slot. */
  ghost predicate LabelInIdOrder(inst: Instance, s: seq<Access>, l: nat, w: int, a: nat, slot: int)
    requires Known(inst, a)
  {
    var pm, pc := |InLocationWeek(inst, s, l, w, PM)|, |InLocationWeek(inst, s, l, w, PC)|;
    match inst.contracts[inst.activities[a].contract].accessType
    case PM => slot == |Ahead(inst, InLocationWeek(inst, s, l, w, PM), a)| + 1
    case PC => slot == pm + |Ahead(inst, InLocationWeek(inst, s, l, w, PC), a)| + 1
    case CO =>
      var n := |Ahead(inst, InLocationWeek(inst, s, l, w, CO), a)|;
      if n < 3 * pc then 3 * (slot - pm - 1) <= n < 3 * (slot - pm)
      else 4 * (slot - pm - pc - 1) <= n - 3 * pc < 4 * (slot - pm - pc)
  }

  /** Every booked label follows that order. */
  ghost predicate LabelsInIdOrder(inst: Instance, s: seq<Access>, slots: Slots) {
    forall k, a :: k in slots && a in slots[k] && Known(inst, a) ==>
      LabelInIdOrder(inst, s, k.0, k.1, a, slots[k][a])
  }

  lemma WorksIsTaken(s: seq<Access>, a: nat, w: int)
    ensures Works(s, a, w) <==> (a, w) in XOf(s)
  {
  }

  lemma AheadIsBelow(inst: Instance, group: set<nat>, a: nat)
    requires Members(inst, group) && a < |inst.activities|
    ensures Ahead(inst, group, a) == Below(inst, group, a)
  {
    forall b | b in group ensures IdLess(inst, b, a) <==> ComesBefore(inst.activities[b].id, inst.activities[a].id) {
      StrLessExact(inst.activities[b].id, inst.activities[a].id);
    }
  }

  lemma ContractWeekIsBucket(inst: Instance, s: seq<Access>, c: nat, w: int)
    requires Wellformed(inst)
    ensures InContractWeek(inst, s, c, w) == Bucket(inst, XOf(s), c, w) && Members(inst, Bucket(inst, XOf(s), c, w))
  {
    forall a: nat ensures Works(s, a, w) <==> (a, w) in XOf(s) { WorksIsTaken(s, a, w); }
    forall a: nat | a < |inst.activities| ensures inst.activities[a].contract < |inst.contracts| {
      assert ValidActivity(inst, inst.activities[a]);
    }
  }

  lemma LocationWeekIsAt(inst: Instance, s: seq<Access>, l: nat, w: int, t: AccessType)
    requires Wellformed(inst)
    ensures Members(inst, At(inst, XOf(s), l, w))
    ensures InLocationWeek(inst, s, l, w, t) == OfType(inst, At(inst, XOf(s), l, w), t)
  {
    AtMembers(inst, XOf(s), l, w);
    forall a: nat ensures Works(s, a, w) <==> (a, w) in XOf(s) { WorksIsTaken(s, a, w); }
  }

  /** The filler's nights follow the ids. */
  lemma NightSpelled(inst: Instance, s: seq<Access>, i: nat)
    requires Wellformed(inst) && InHorizon(inst, XOf(s)) && i < |s| && (s[i].activity, s[i].week) in XOf(s)
    requires s[i].night == NightAt(inst, XOf(s), s[i].activity, s[i].week)
    ensures NightInIdOrder(inst, s, i)
  {
    var a, c, w := s[i].activity, inst.activities[s[i].activity].contract, s[i].week;
    assert ValidActivity(inst, inst.activities[a]);
    ContractWeekIsBucket(inst, s, c, w);
    AheadIsBelow(inst, Bucket(inst, XOf(s), c, w), a);
    DivideBetween(Rank(inst, Bucket(inst, XOf(s), c, w), a), inst.contracts[c].workfronts);
  }

  lemma DivideBetween(n: nat, d: nat)
    requires d >= 1
    ensures n / d * d <= n < (n / d + 1) * d
  {
  }

  /** The packer's labels follow the types and the ids. */
  lemma LabelSpelled(inst: Instance, s: seq<Access>, l: nat, w: int, a: nat)
    requires Wellformed(inst) && Known(inst, a)
    requires Members(inst, At(inst, XOf(s), l, w)) && a in At(inst, XOf(s), l, w)
    ensures LabelInIdOrder(inst, s, l, w, a, SlotOf(inst, At(inst, XOf(s), l, w), a))
  {
    var t := TypeOf(inst, a);
    LocationWeekIsAt(inst, s, l, w, PM);
    LocationWeekIsAt(inst, s, l, w, PC);
    LocationWeekIsAt(inst, s, l, w, t);
    AheadIsBelow(inst, OfType(inst, At(inst, XOf(s), l, w), t), a);
  }

  lemma NightsSpelled(inst: Instance, s: seq<Access>)
    requires Wellformed(inst) && InHorizon(inst, XOf(s)) && NightsAssigned(inst, XOf(s), s)
    ensures NightsInIdOrder(inst, s)
  {
    forall i: nat | i < |s| ensures NightInIdOrder(inst, s, i) { NightSpelled(inst, s, i); }
  }

  lemma LabelsSpelled(inst: Instance, s: seq<Access>, slots: Slots, used: map<Cell, int>)
    requires Wellformed(inst) && InHorizon(inst, XOf(s)) && SlotsOf(inst, XOf(s), slots, used)
    ensures LabelsInIdOrder(inst, s, slots)
  {
    forall k, a | k in slots && a in slots[k] && Known(inst, a)
      ensures LabelInIdOrder(inst, s, k.0, k.1, a, slots[k][a])
    {
      LabelSpelled(inst, s, k.0, k.1, a);
    }
  }
}
