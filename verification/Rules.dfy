/** The hard rules spelled out over rows and fields alone: what each violation says has gone wrong. */
module Rules {
  import opened Model
  import opened Violations

  /** Row i is a night of contract c in week w. */
  ghost predicate NightRow(inst: Instance, s: seq<Access>, i: int, c: nat, w: int) {
    && 0 <= i < |s| && s[i].activity < |inst.activities|
    && inst.activities[s[i].activity].contract == c && s[i].week == w
  }

  /** The standard and the ECLO rows of an activity. */
  ghost function RowsOf(s: seq<Access>, a: nat, eclo: bool): set<int> {
    set i | 0 <= i < |s| && s[i].activity == a && s[i].eclo == eclo
  }

  /** The rows of i's activity that come before row i, in an earlier week or in the same week with a smaller number. */
  ghost function RowsBefore(s: seq<Access>, i: int): set<int>
    requires 0 <= i < |s|
  {
    set j | 0 <= j < |s| && s[j].activity == s[i].activity
            && (s[j].week < s[i].week || (s[j].week == s[i].week && s[j].accessSeq < s[i].accessSeq))
  }

  /** Two rows of activity a give the same week and number. */
  ghost predicate RepeatedNumber(s: seq<Access>, a: nat) {
    exists i, j :: 0 <= i < j < |s| && s[i].activity == a && s[j].activity == a
      && s[i].week == s[j].week && s[i].accessSeq == s[j].accessSeq
  }

  /** A row of activity a is not numbered one more than the rows before it. */
  ghost predicate WrongNumber(s: seq<Access>, a: nat) {
    exists i :: 0 <= i < |s| && s[i].activity == a && s[i].accessSeq != 1 + |RowsBefore(s, i)|
  }

  ghost predicate Twice(s: seq<Access>, a: nat, w: int) {
    exists i, j :: 0 <= i < j < |s| && s[i].activity == a && s[j].activity == a && s[i].week == w && s[j].week == w
  }

  /** A night of a is no later than a night of p. */
  ghost predicate NotAfter(s: seq<Access>, a: nat, p: nat) {
    exists i, j :: 0 <= i < |s| && 0 <= j < |s| && s[i].activity == a && s[j].activity == p && s[i].week <= s[j].week
  }

  ghost predicate AccessRuleBroken(inst: Instance, s: seq<Access>, v: Violation) {
    match v
    case DoubleAccess(a, w) => Twice(s, a, w)
    case Workload(a) =>
      a < |inst.activities| && 10 * |RowsOf(s, a, false)| + 15 * |RowsOf(s, a, true)| < 10 * inst.activities[a].total
    case PlannedStart(a, w) =>
      a < |inst.activities| && w < inst.activities[a].earliest
      && exists i :: 0 <= i < |s| && s[i].activity == a && s[i].week == w
    case PrecedenceBreach(a, p) =>
      a < |inst.activities| && inst.activities[a].predecessor == Some(p) && NotAfter(s, a, p)
    case BadSequence(a) => a < |inst.activities| && (WrongNumber(s, a) || RepeatedNumber(s, a))
    case _ => false
  }

  /** Activity a is in a slot of location l in week w. */
  ghost predicate Held(slots: Slots, a: nat, l: nat, w: int) {
    (l, w) in slots && a in slots[(l, w)]
  }

  ghost predicate OccupancyRuleBroken(inst: Instance, s: seq<Access>, slots: Slots, v: Violation) {
    match v
    case WrongSpan(a, w) =>
      a < |inst.activities| && (exists i :: 0 <= i < |s| && s[i].activity == a && s[i].week == w)
      && exists l: nat :: Held(slots, a, l, w) != (l in inst.activities[a].occupied)
    case StrayBooking(a, w) =>
      (exists l: nat :: Held(slots, a, l, w)) && forall i :: 0 <= i < |s| ==> s[i].activity != a || s[i].week != w
    case _ => false
  }

  /** A location of the zone that its owner does not work at and the other does. */
  ghost predicate Reached(zone: seq<nat>, own: seq<nat>, other: seq<nat>) {
    exists i, j :: 0 <= i < |zone| && 0 <= j < |other| && zone[i] == other[j] && zone[i] !in own
  }

  /** A closure, or between two works with buffers a buffer zone, intrudes on the other's worksite. */
  ghost predicate Intrudes(p: Activity, q: Activity) {
    || Reached(p.closure, p.occupied, q.occupied) || Reached(q.closure, q.occupied, p.occupied)
    || (p.carriesBuffer && q.carriesBuffer
        && (Reached(p.bufferZone, p.occupied, q.occupied) || Reached(q.bufferZone, q.occupied, p.occupied)))
  }

  ghost predicate ClosureRuleBroken(inst: Instance, slots: Slots, w: int, a: nat, b: nat) {
    && a < b < |inst.activities|
    && (exists l: nat :: Held(slots, a, l, w)) && (exists l: nat :: Held(slots, b, l, w))
    && (forall l: nat :: !(Held(slots, a, l, w) && Held(slots, b, l, w)))
    && Intrudes(inst.activities[a], inst.activities[b])
  }

  ghost predicate Shares(s: seq<nat>, t: seq<nat>) {
    exists i, j :: 0 <= i < |s| && 0 <= j < |t| && s[i] == t[j]
  }

  /** A closure, or between two works with buffers a buffer zone, holds a location of the other's worksite. */
  ghost predicate ZoneHolds(p: Activity, q: Activity) {
    || Shares(p.closure, q.occupied) || Shares(q.closure, p.occupied)
    || (p.carriesBuffer && q.carriesBuffer && (Shares(p.bufferZone, q.occupied) || Shares(q.bufferZone, p.occupied)))
  }

  /** The three readings of which pairs may not work in one week: adopted, strict, and no overlap of buffers. */
  ghost predicate KeptApart(p: Activity, q: Activity) { ZoneHolds(p, q) && !Shares(p.occupied, q.occupied) }

  ghost predicate KeptApartStrictly(p: Activity, q: Activity) { Intrudes(p, q) }

  ghost predicate KeptFromTouching(p: Activity, q: Activity) {
    Intrudes(p, q) || (ZoneHolds(p, q) && p.carriesBuffer && q.carriesBuffer && Shares(p.bufferZone, q.bufferZone))
  }

  /** Row i works for contract c in a week no other row of the contract exceeds. */
  ghost predicate LastRow(inst: Instance, s: seq<Access>, i: int, c: nat) {
    && 0 <= i < |s| && NightRow(inst, s, i, c, s[i].week)
    && forall j :: 0 <= j < |s| && NightRow(inst, s, j, c, s[j].week) ==> s[j].week <= s[i].week
  }

  /** Row i is the last night of activity a. */
  ghost predicate LastNight(s: seq<Access>, i: int, a: nat) {
    0 <= i < |s| && s[i].activity == a && forall j :: 0 <= j < |s| && s[j].activity == a ==> s[j].week <= s[i].week
  }

  /** n days lie between the contract's planned date and the Sunday of a's last week; none if it works in no week. */
  ghost predicate DaysOver(inst: Instance, s: seq<Access>, a: nat, n: int)
    requires a < |inst.activities| && inst.activities[a].contract < |inst.contracts|
  {
    var planned := inst.contracts[inst.activities[a].contract].planned;
    && (forall i :: LastNight(s, i, a) ==>
          n == if inst.start + 7 * s[i].week - 1 > planned then inst.start + 7 * s[i].week - 1 - planned else 0)
    && ((forall i :: 0 <= i < |s| ==> s[i].activity != a) ==> n == 0)
  }

  /** The first row of the contract's number gives its last Sunday and the days past the planned date. */
  ghost predicate Reported(inst: Instance, results: seq<ResultRow>, c: nat, week: int)
    requires c < |inst.contracts|
  {
    exists r :: 0 <= r < |results| && results[r].number == inst.contracts[c].number
      && (forall q :: 0 <= q < r ==> results[q].number != inst.contracts[c].number)
      && results[r].completion == inst.start + 7 * week - 1
      && (inst.start + 7 * week - 1 > inst.contracts[c].planned ==>
            results[r].overrun == inst.start + 7 * week - 1 - inst.contracts[c].planned)
      && (inst.start + 7 * week - 1 <= inst.contracts[c].planned ==> results[r].overrun == 0)
  }

  ghost predicate ResultRuleBroken(inst: Instance, plan: Plan, v: Violation) {
    var rows := plan.results;
    match v
    case WrongScenario(i) => i < |rows| && rows[i].scenario != plan.scenario
    case RepeatedContract(i) => i < |rows| && exists j :: 0 <= j < i && rows[j].number == rows[i].number
    case UnknownContract(i) =>
      i < |rows| && forall c :: 0 <= c < |inst.contracts| ==> inst.contracts[c].number != rows[i].number
    case WrongResult(c) =>
      c < |inst.contracts|
      && (|| (exists i :: LastRow(inst, plan.accesses, i, c) && !Reported(inst, rows, c, plan.accesses[i].week))
          || ((forall i :: 0 <= i < |plan.accesses| ==> !NightRow(inst, plan.accesses, i, c, plan.accesses[i].week))
              && exists r :: 0 <= r < |rows| && rows[r].number == inst.contracts[c].number))
    case _ => false
  }

  /** The supply of a location-week: the first override that names it, or the location's own. */
  ghost predicate SupplyIs(inst: Instance, overrides: seq<(string, int, int)>, k: Cell, n: int)
    requires k.0 < |inst.locations|
  {
    || (exists i :: 0 <= i < |overrides| && overrides[i] == (inst.locations[k.0].id, k.1, n)
          && forall j :: 0 <= j < i ==> overrides[j].0 != inst.locations[k.0].id || overrides[j].1 != k.1)
    || (n == inst.locations[k.0].supply
        && forall j :: 0 <= j < |overrides| ==> overrides[j].0 != inst.locations[k.0].id || overrides[j].1 != k.1)
  }

  /** The activities of one type that carry the label. */
  ghost function Labelled(inst: Instance, m: map<nat, int>, slot: int, t: AccessType): set<nat> {
    set a | a in m && m[a] == slot && a < |inst.activities|
            && inst.activities[a].contract < |inst.contracts|
            && inst.contracts[inst.activities[a].contract].accessType == t
  }

  /** More distinct labels than the supply; under C than one more, under B than 2^30 more. */
  ghost predicate TooManySlots(inst: Instance, plan: Plan, k: Cell) {
    k in plan.slots && k.0 < |inst.locations|
    && exists n :: SupplyIs(inst, plan.overrides, k, n)
         && (plan.scenario == A ==> |plan.slots[k].Values| > n)
         && (plan.scenario == B ==> |plan.slots[k].Values| > n + 1073741824)
         && (plan.scenario == C ==> |plan.slots[k].Values| > n + 1)
  }

  /** More than four activities, more than one PC, or a PM that is not alone. */
  ghost predicate MixBroken(inst: Instance, slots: Slots, k: Cell, slot: int) {
    k in slots
    && var pm, pc, co := |Labelled(inst, slots[k], slot, PM)|, |Labelled(inst, slots[k], slot, PC)|,
                         |Labelled(inst, slots[k], slot, CO)|;
       pm + pc + co > 4 || pc > 1 || (pm > 0 && pm + pc + co > 1)
  }

  ghost predicate SlotRuleBroken(inst: Instance, plan: Plan, v: Violation) {
    match v
    case OverCapacity(k) => TooManySlots(inst, plan, k)
    case IllegalMix(k, b) => MixBroken(inst, plan.slots, k, b)
    case _ => false
  }

  /** The nights contract c works in week w. */
  ghost function NightsOf(inst: Instance, s: seq<Access>, c: nat, w: int): set<int> {
    set i | 0 <= i < |s| && NightRow(inst, s, i, c, w) :: s[i].night
  }

  /** Its activities on night n. */
  ghost function CrewOf(inst: Instance, s: seq<Access>, c: nat, w: int, n: int): set<nat> {
    set i | 0 <= i < |s| && NightRow(inst, s, i, c, w) && s[i].night == n :: s[i].activity
  }

  ghost predicate NightRuleBroken(inst: Instance, s: seq<Access>, v: Violation) {
    match v
    case OverAllowance(c, w) =>
      c < |inst.contracts| && |NightsOf(inst, s, c, w)| > inst.contracts[c].maxPerWeek
    case NightOutOfRange(c, w, n) =>
      c < |inst.contracts| && (n < 1 || n > inst.contracts[c].maxPerWeek)
      && exists i :: NightRow(inst, s, i, c, w) && s[i].night == n
    case OverWorkfronts(c, w, n) =>
      c < |inst.contracts| && |CrewOf(inst, s, c, w, n)| > inst.contracts[c].workfronts
    case _ => false
  }

  /** ECLO nights i and j, at least two weeks apart, whose closures each hold a location of the line. */
  ghost predicate EcloPair(inst: Instance, s: seq<Access>, i: int, j: int, l: nat, m: nat, line: string) {
    && 0 <= i < |s| && 0 <= j < |s| && s[i].eclo && s[j].eclo
    && s[i].activity < |inst.activities| && l in inst.activities[s[i].activity].closure
    && s[j].activity < |inst.activities| && m in inst.activities[s[j].activity].closure
    && l < |inst.locations| && m < |inst.locations|
    && inst.locations[l].line == line && inst.locations[m].line == line
    && s[j].week - s[i].week >= 2
  }

  ghost predicate PolicyRuleBroken(inst: Instance, plan: Plan, v: Violation) {
    var s := plan.accesses;
    match v
    case EcloForbidden(a, w) =>
      plan.scenario == A && exists i :: 0 <= i < |s| && s[i].eclo && s[i].activity == a && s[i].week == w
    case EcloSpread(line) =>
      plan.scenario == C && exists i, j, l: nat, m: nat :: EcloPair(inst, s, i, j, l, m, line)
    case PastPlannedDate(c) =>
      plan.scenario == B && c < |inst.contracts|
      && exists i :: 0 <= i < |s| && NightRow(inst, s, i, c, s[i].week)
                     && inst.start + 7 * s[i].week - 1 > inst.contracts[c].planned
    case _ => false
  }

  /** What the tables alone show. */
  ghost predicate TableRuleBroken(inst: Instance, plan: Plan, v: Violation) {
    || AccessRuleBroken(inst, plan.accesses, v)
    || OccupancyRuleBroken(inst, plan.accesses, plan.slots, v)
    || ResultRuleBroken(inst, plan, v)
  }

  /** What the limits on slots, nights, closures and policy show. */
  ghost predicate LimitRuleBroken(inst: Instance, plan: Plan, v: Violation) {
    || SlotRuleBroken(inst, plan, v)
    || NightRuleBroken(inst, plan.accesses, v)
    || (v.ClosureClash? && ClosureRuleBroken(inst, plan.slots, v.week, v.a, v.b))
    || PolicyRuleBroken(inst, plan, v)
  }

  /** Violation v holds of the plan. */
  ghost predicate Broken(inst: Instance, plan: Plan, v: Violation) {
    TableRuleBroken(inst, plan, v) || LimitRuleBroken(inst, plan, v)
  }
}
