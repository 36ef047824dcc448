/** The hard rules of the independent checker, stated over the plan read back from its files. */
module Checker {
  import opened Model
  import opened Sorting
  import opened Packing
  import opened Plans

  /** Capacity tolerance under B: excess is scored, never failed. */
  const UNBOUNDED := 0x4000_0000

  ghost predicate WorkloadOk(inst: Instance, s: seq<Access>) {
    forall a: nat :: a < |inst.activities| ==> Yield(s, a) >= inst.activities[a].total * STD_YIELD
  }

  ghost predicate PlannedStartOk(inst: Instance, s: seq<Access>) {
    forall i :: 0 <= i < |s| && s[i].activity < |inst.activities| ==>
      inst.activities[s[i].activity].earliest <= s[i].week
  }

  /** a works in no week that is not strictly after every week of its predecessor p. */
  ghost predicate StrictlyAfter(x: Grid, a: nat, p: nat) {
    forall v, w :: (a, w) in x && (p, v) in x ==> v < w
  }

  ghost predicate PrecedenceOk(inst: Instance, s: seq<Access>) {
    forall a: nat :: a < |inst.activities| && inst.activities[a].predecessor.Some? ==>
      StrictlyAfter(XOf(s), a, inst.activities[a].predecessor.value)
  }

  ghost predicate BooksSpan(inst: Instance, slots: Slots, a: nat, w: int)
    requires a < |inst.activities|
  {
    forall l: nat :: ((l, w) in slots && a in slots[(l, w)]) <==> l in inst.activities[a].occupied
  }

  /** Each access books exactly its span, and nothing is booked without an access. */
  ghost predicate OccupancyOk(inst: Instance, s: seq<Access>, slots: Slots) {
    && (forall i :: 0 <= i < |s| && s[i].activity < |inst.activities| ==>
          BooksSpan(inst, slots, s[i].activity, s[i].week))
    && (forall k, a :: k in slots && a in slots[k] ==> (a, k.1) in XOf(s))
  }

  // --- access_seq ----------------------------------------------------------------------

  /** The (week, access_seq) pairs of one activity, in file order. */
  function Numbers(s: seq<Access>, a: nat): seq<(int, int)> {
    if s == [] then []
    else Numbers(s[..|s| - 1], a)
         + if s[|s| - 1].activity == a then [(s[|s| - 1].week, s[|s| - 1].accessSeq)] else []
  }

  predicate PairLe(p: (int, int), q: (int, int)) {
    p.0 < q.0 || (p.0 == q.0 && p.1 <= q.1)
  }

  /** Sorted by week, the numbers run 1, 2, 3, ... */
  ghost predicate NumberedInOrder(v: seq<(int, int)>) {
    var r := Sorted(v, PairLe);
    forall k :: 0 <= k < |r| ==> r[k].1 == k + 1
  }

  ghost predicate SequenceOk(inst: Instance, s: seq<Access>) {
    forall a: nat :: a < |inst.activities| ==> NumberedInOrder(Numbers(s, a))
  }

  // --- RESULTS.csv -------------------------------------------------------------------------

  ghost predicate ResultFor(rows: seq<ResultRow>, number: string) {
    exists i :: 0 <= i < |rows| && rows[i].number == number
  }

  ghost predicate KnownNumber(inst: Instance, number: string) {
    exists c :: 0 <= c < |inst.contracts| && inst.contracts[c].number == number
  }

  /** Rows of the plan's scenario, one per scheduled contract, with the recomputed figures. */
  ghost predicate ResultsOk(inst: Instance, plan: Plan) {
    && (forall i :: 0 <= i < |plan.results| ==> plan.results[i].scenario == plan.scenario)
    && (forall i, j :: 0 <= i < j < |plan.results| ==> plan.results[i].number != plan.results[j].number)
    && (forall i :: 0 <= i < |plan.results| ==> KnownNumber(inst, plan.results[i].number))
    && forall c: nat :: c < |inst.contracts| ==> ContractResultOk(inst, plan, c)
  }

  ghost predicate ContractResultOk(inst: Instance, plan: Plan, c: nat)
    requires c < |inst.contracts|
  {
    var w := ContractLastIn(inst, XOf(plan.accesses), c, inst.weeks);
    var sunday := SundayOfWeek(inst, w);
    if w == 0 then !ResultFor(plan.results, inst.contracts[c].number)
    else
      && ResultFor(plan.results, inst.contracts[c].number)
      && forall i :: 0 <= i < |plan.results| && plan.results[i].number == inst.contracts[c].number ==>
           plan.results[i].completion == sunday
           && plan.results[i].overrun == Max0(sunday - inst.contracts[c].planned)
  }

  // --- slots -----------------------------------------------------------------------------------

  function Tolerance(scen: Scenario): int {
    match scen case A => 0 case B => UNBOUNDED case C => 1
  }

  ghost predicate CapacityOk(inst: Instance, plan: Plan)
    requires LoadedSlots(inst, plan)
  {
    forall k :: k in plan.slotsUsed ==>
      plan.slotsUsed[k] - EffectiveSupply(inst, plan.overrides, k.0, k.1) <= Tolerance(plan.scenario)
  }

  /** Every slot of every location-week holds a legal mix. */
  ghost predicate MixOk(inst: Instance, plan: Plan)
    requires Wellformed(inst) && LoadedSlots(inst, plan)
  {
    forall k :: k in plan.slots ==> LegalLabels(inst, plan.slots[k])
  }

  // --- rules 7 and 8 -----------------------------------------------------------------------------

  ghost function ContractNights(inst: Instance, s: seq<Access>, c: nat, w: int): set<int> {
    set i | 0 <= i < |s| && s[i].activity < |inst.activities|
            && inst.activities[s[i].activity].contract == c && s[i].week == w :: s[i].night
  }

  ghost function OnNight(inst: Instance, s: seq<Access>, c: nat, w: int, n: int): set<nat> {
    set i | 0 <= i < |s| && s[i].activity < |inst.activities|
            && inst.activities[s[i].activity].contract == c && s[i].week == w && s[i].night == n
          :: s[i].activity
  }

  ghost predicate AllocationOk(inst: Instance, s: seq<Access>) {
    forall c: nat, w :: c < |inst.contracts| ==>
      && |ContractNights(inst, s, c, w)| <= inst.contracts[c].maxPerWeek
      && forall n :: n in ContractNights(inst, s, c, w) ==> 1 <= n <= inst.contracts[c].maxPerWeek
  }

  ghost predicate WorkfrontsOk(inst: Instance, s: seq<Access>) {
    forall c: nat, w, n :: c < |inst.contracts| ==>
      |OnNight(inst, s, c, w, n)| <= inst.contracts[c].workfronts
  }

  // --- closures -------------------------------------------------------------------------------------

  /** The zone reaches the other's worksite outside its owner's own. */
  ghost predicate Hit(zone: seq<nat>, own: seq<nat>, other: seq<nat>) {
    exists l :: l in zone && l !in own && l in other
  }

  ghost predicate Clash(a: Activity, b: Activity) {
    || Hit(a.closure, a.occupied, b.occupied)
    || Hit(b.closure, b.occupied, a.occupied)
    || (a.carriesBuffer && b.carriesBuffer
        && (Hit(a.bufferZone, a.occupied, b.occupied) || Hit(b.bufferZone, b.occupied, a.occupied)))
  }

  ghost predicate PresentAt(slots: Slots, a: nat, l: nat, w: int) {
    (l, w) in slots && a in slots[(l, w)]
  }

  ghost predicate Present(slots: Slots, a: nat, w: int) {
    exists l: nat :: PresentAt(slots, a, l, w)
  }

  /** Some location holds both in week w: one possession there, or separate nights. */
  ghost predicate SharesLocation(slots: Slots, a: nat, b: nat, w: int) {
    exists l: nat :: PresentAt(slots, a, l, w) && PresentAt(slots, b, l, w)
  }

  ghost predicate ClosureBreach(inst: Instance, slots: Slots, w: int, a: nat, b: nat) {
    && a < b < |inst.activities| && Present(slots, a, w) && Present(slots, b, w)
    && !SharesLocation(slots, a, b, w) && Clash(inst.activities[a], inst.activities[b])
  }

  ghost predicate ClosureOk(inst: Instance, slots: Slots) {
    forall w, a: nat, b: nat :: !ClosureBreach(inst, slots, w, a, b)
  }

  // --- ECLO and planned dates -------------------------------------------------------------------------

  /** Every two ECLO nights that close the line lie within two consecutive weeks. */
  ghost predicate LineWindowOk(inst: Instance, s: seq<Access>, line: string) {
    forall i, j :: 0 <= i < |s| && 0 <= j < |s| && s[i].eclo && s[j].eclo
      && ClosesLine(inst, s[i].activity, line) && ClosesLine(inst, s[j].activity, line)
      ==> s[j].week - s[i].week + 1 <= 2
  }

  ghost predicate EcloOk(inst: Instance, plan: Plan) {
    match plan.scenario
    case A => forall i :: 0 <= i < |plan.accesses| ==> !plan.accesses[i].eclo
    case B => true
    case C => forall line :: LineWindowOk(inst, plan.accesses, line)
  }

  ghost predicate PlannedDatesOk(inst: Instance, plan: Plan) {
    plan.scenario == B ==>
      forall c: nat :: c < |inst.contracts| ==>
        var w := ContractLastIn(inst, XOf(plan.accesses), c, inst.weeks);
        w == 0 || SundayOfWeek(inst, w) <= inst.contracts[c].planned
  }

  ghost predicate AccessRulesOk(inst: Instance, plan: Plan)
    requires Wellformed(inst)
  {
    && Distinct(plan.accesses)
    && WorkloadOk(inst, plan.accesses)
    && PlannedStartOk(inst, plan.accesses)
    && PrecedenceOk(inst, plan.accesses)
    && SequenceOk(inst, plan.accesses)
    && AllocationOk(inst, plan.accesses)
    && WorkfrontsOk(inst, plan.accesses)
    && EcloOk(inst, plan)
    && PlannedDatesOk(inst, plan)
    && ResultsOk(inst, plan)
  }

  ghost predicate SlotRulesOk(inst: Instance, plan: Plan)
    requires Wellformed(inst) && LoadedSlots(inst, plan)
  {
    && OccupancyOk(inst, plan.accesses, plan.slots)
    && CapacityOk(inst, plan)
    && MixOk(inst, plan)
    && ClosureOk(inst, plan.slots)
  }

  /** No hard violation under the adopted reading. */
  ghost predicate Accepts(inst: Instance, plan: Plan)
    requires Wellformed(inst) && Loaded(inst, plan)
  {
    AccessRulesOk(inst, plan) && SlotRulesOk(inst, plan)
  }
}
