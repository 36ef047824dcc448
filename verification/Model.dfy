/** The possession-planning domain: what an instance holds and what a plan holds. */
module Model {

  datatype Option<+T> = None | Some(value: T)

  datatype AccessType = PM | PC | CO
  datatype Nature = Live | NonLiveConsist | NonLiveOthers
  datatype Scenario = A | B | C
  datatype Kind = Sector | Platform
  datatype Bound = EB | WB

  /** body is the third part of the location id, for example S02_S03. */
  datatype Location = Location(id: string, kind: Kind, line: string, body: string, bound: Bound,
                               supply: nat, chainIndex: int)

  /** planned is the planned completion date in days since the epoch. */
  datatype Contract = Contract(number: string, nature: Nature, priority: int, planned: int,
                               workfronts: nat, accessType: AccessType, maxPerWeek: nat)

  datatype Activity = Activity(id: string, contract: nat, total: nat, predecessor: Option<nat>,
                               priority: int, earliest: int, occupied: seq<nat>, closure: seq<nat>,
                               bufferZone: seq<nat>, carriesBuffer: bool)

  datatype Instance = Instance(start: int, weeks: nat, locations: seq<Location>,
                               contracts: seq<Contract>, activities: seq<Activity>,
                               exclusivePairs: seq<(nat, nat)>)

  const STD_YIELD := 10
  const ECLO_YIELD := 15
  const EXCESS_PENALTY := 7
  const ECLO_PENALTY := 5

  /** A disruption: the supply of one location in one week is replaced. */
  datatype SupplyOverride = SupplyOverride(location: nat, week: int, supply: int)

  datatype Access = Access(activity: nat, week: int, eclo: bool, night: int, accessSeq: int)

  /** A row of RESULTS.csv. */
  datatype ResultRow = ResultRow(scenario: Scenario, number: string, completion: int, overrun: int)

  type Cell = (nat, int)          // a location and a week
  type Slots = map<Cell, map<nat, int>>

  /** overrides carries a location id, a week and a supply. */
  datatype Plan = Plan(scenario: Scenario, accesses: seq<Access>, slots: Slots,
                       slotsUsed: map<Cell, int>, results: seq<ResultRow>,
                       overrides: seq<(string, int, int)>)

  function ContractWeight(priority: int): nat {
    if priority == 1 then 100 else if priority == 2 then 10 else 1
  }

  function NudgeTenths(priority: int): nat {
    if priority == 1 then 13 else if priority == 2 then 12 else 10
  }

  /** The Sunday of a week, in days since the epoch. */
  function SundayOfWeek(inst: Instance, w: int): int {
    inst.start + (w - 1) * 7 + 6
  }

  predicate Ascending(s: seq<nat>) {
    forall i, j :: 0 <= i < j < |s| ==> s[i] < s[j]
  }

  // --- the order of activity ids ------------------------------------------------

  /** Byte-wise lexicographic order. */
  predicate StrLess(a: string, b: string) {
    b != [] && (a == [] || a[0] < b[0] || (a[0] == b[0] && StrLess(a[1..], b[1..])))
  }

  lemma {:induction false} StrLessIrreflexive(a: string)
    ensures !StrLess(a, a)
  {
    if a != [] { StrLessIrreflexive(a[1..]); }
  }

  lemma {:induction false} StrLessTransitive(a: string, b: string, c: string)
    requires StrLess(a, b) && StrLess(b, c)
    ensures StrLess(a, c)
  {
    if a != [] && a[0] == b[0] && b[0] == c[0] { StrLessTransitive(a[1..], b[1..], c[1..]); }
  }

  lemma {:induction false} StrLessTotal(a: string, b: string)
    ensures a == b || StrLess(a, b) || StrLess(b, a)
  {
    if a != [] && b != [] && a[0] == b[0] {
      StrLessTotal(a[1..], b[1..]);
      assert a == [a[0]] + a[1..] && b == [b[0]] + b[1..];
    }
  }

  /** a and b agree on their first k letters, where a ends or has the smaller letter. */
  ghost predicate DifferAt(a: string, b: string, k: nat) {
    k <= |a| && k < |b| && a[..k] == b[..k] && (k == |a| || a[k] < b[k])
  }

  /** a comes before b in a dictionary of the characters' codes. */
  ghost predicate ComesBefore(a: string, b: string) {
    exists k: nat :: DifferAt(a, b, k)
  }

  lemma {:induction false} StrLessExact(a: string, b: string)
    ensures StrLess(a, b) <==> ComesBefore(a, b)
  {
    forall k: nat | k > 0 && DifferAt(a, b, k) ensures a != [] && a[0] == b[0] {
      assert a[..k][0] == b[..k][0];
    }
    if a != [] && b != [] && a[0] == b[0] {
      StrLessExact(a[1..], b[1..]);
      if k: nat :| DifferAt(a[1..], b[1..], k) {
        assert a[..k + 1] == [a[0]] + a[1..][..k] && b[..k + 1] == [b[0]] + b[1..][..k];
        assert DifferAt(a, b, k + 1);
      }
      if k: nat :| DifferAt(a, b, k) {
        assert k > 0 && a[..k][1..] == a[1..][..k - 1] && b[..k][1..] == b[1..][..k - 1];
        assert DifferAt(a[1..], b[1..], k - 1);
      }
    } else if StrLess(a, b) {
      assert DifferAt(a, b, 0);
    }
  }

  // --- validity -------------------------------------------------------------------

  /** What loading an instance guarantees of one activity. */
  ghost predicate ValidActivity(inst: Instance, a: Activity) {
    && a.contract < |inst.contracts|
    && 1 <= a.earliest
    && (a.predecessor.Some? ==> a.predecessor.value < |inst.activities|)
    && a.occupied != []
    && Ascending(a.occupied) && Ascending(a.closure) && Ascending(a.bufferZone)
    && (forall l :: l in a.occupied ==> l < |inst.locations|)
    && (forall l :: l in a.closure ==> l < |inst.locations|)
    && (forall l :: l in a.bufferZone ==> l < |inst.locations|)
  }

  ghost function SetOf(s: seq<nat>): set<nat> {
    set a | a in s
  }

  /** Two sorted location lists share an entry. */
  ghost predicate Meet(a: seq<nat>, b: seq<nat>) {
    exists l :: l in a && l in b
  }

  /** One possession's zones reach the other's worksite. */
  ghost predicate Reaches(a: Activity, b: Activity) {
    || Meet(a.closure, b.occupied)
    || Meet(b.closure, a.occupied)
    || (a.carriesBuffer && b.carriesBuffer
        && (Meet(a.bufferZone, b.occupied) || Meet(b.bufferZone, a.occupied)))
  }

  /** The adopted reading of rule 6: zones reach a worksite and no location is shared. */
  ghost predicate Exclusive(a: Activity, b: Activity) {
    Reaches(a, b) && !Meet(a.occupied, b.occupied)
  }

  ghost predicate DistinctIds(inst: Instance) {
    forall a, b :: 0 <= a < b < |inst.activities| ==> inst.activities[a].id != inst.activities[b].id
  }

  /** Indices in range, positive workfronts, and activities told apart by id. */
  ghost predicate Wellformed(inst: Instance) {
    && 1 <= inst.weeks <= 520
    && |inst.activities| <= 500000
    && (forall a :: 0 <= a < |inst.activities| ==> ValidActivity(inst, inst.activities[a]))
    && DistinctIds(inst)
    && (forall c :: 0 <= c < |inst.contracts| ==>
         inst.contracts[c].workfronts >= 1 && inst.contracts[c].maxPerWeek <= 7)
  }

  /** Contracts and locations are told apart by number and id. */
  ghost predicate Named(inst: Instance) {
    && (forall c, d :: 0 <= c < d < |inst.contracts| ==> inst.contracts[c].number != inst.contracts[d].number)
    && (forall l, m :: 0 <= l < m < |inst.locations| ==> inst.locations[l].id != inst.locations[m].id)
  }

  /** The stored pairs are those whose zones conflict under the adopted reading. */
  ghost predicate Paired(inst: Instance) {
    forall i: nat, j: nat :: (i, j) in inst.exclusivePairs <==>
      i < j < |inst.activities| && Exclusive(inst.activities[i], inst.activities[j])
  }

  /** What loading an instance and building its topology guarantee. */
  ghost predicate Valid(inst: Instance) {
    Wellformed(inst) && Named(inst) && Paired(inst)
  }

  function TypeOf(inst: Instance, a: nat): AccessType
    requires a < |inst.activities| && inst.activities[a].contract < |inst.contracts|
  {
    inst.contracts[inst.activities[a].contract].accessType
  }

  // --- sets of activity-weeks -------------------------------------------------------

  type Grid = set<(nat, int)>     // pairs (activity, week)

  /** The activity-weeks are those of the horizon. */
  ghost predicate InHorizon(inst: Instance, x: Grid) {
    forall a, w :: (a, w) in x ==> a < |inst.activities| && 1 <= w <= inst.weeks
  }

  /** The last week of activity a up to week h, or 0. */
  ghost function LastIn(x: Grid, a: nat, h: nat): nat {
    if h == 0 then 0 else if (a, h) in x then h else LastIn(x, a, h - 1)
  }

  lemma {:induction false} LastInProps(x: Grid, a: nat, h: nat)
    ensures LastIn(x, a, h) <= h
    ensures LastIn(x, a, h) > 0 ==> (a, LastIn(x, a, h)) in x
    ensures forall w :: LastIn(x, a, h) < w <= h ==> (a, w) !in x
  {
    if h > 0 && (a, h) !in x { LastInProps(x, a, h - 1); }
  }

  /** The last week in which any activity of contract c works, or 0. */
  ghost function ContractLastIn(inst: Instance, x: Grid, c: nat, h: nat): nat {
    if h == 0 then 0
    else if exists a: nat :: a < |inst.activities| && inst.activities[a].contract == c && (a, h) in x then h
    else ContractLastIn(inst, x, c, h - 1)
  }

  lemma {:induction false} ContractLastInProps(inst: Instance, x: Grid, c: nat, h: nat)
    ensures ContractLastIn(inst, x, c, h) <= h
    ensures ContractLastIn(inst, x, c, h) > 0 ==>
      exists a: nat :: a < |inst.activities| && inst.activities[a].contract == c
        && (a, ContractLastIn(inst, x, c, h) as int) in x
    ensures forall a: nat, w ::
              (ContractLastIn(inst, x, c, h) < w <= h && a < |inst.activities|
               && inst.activities[a].contract == c) ==> (a, w) !in x
  {
    if h > 0 && !(exists a: nat :: a < |inst.activities| && inst.activities[a].contract == c && (a, h) in x) {
      ContractLastInProps(inst, x, c, h - 1);
    }
  }

  /** The activities at location l in week w. */
  ghost function At(inst: Instance, x: Grid, l: nat, w: int): set<nat> {
    set a | 0 <= a < |inst.activities| && (a, w) in x && l in inst.activities[a].occupied
  }

  /** The activities of contract c that work in week w. */
  ghost function Bucket(inst: Instance, x: Grid, c: nat, w: int): set<nat> {
    set a | 0 <= a < |inst.activities| && (a, w) in x && inst.activities[a].contract == c
  }

  ghost predicate Members(inst: Instance, s: set<nat>) {
    forall a :: a in s ==> a < |inst.activities| && inst.activities[a].contract < |inst.contracts|
  }

  lemma AtMembers(inst: Instance, x: Grid, l: nat, w: int)
    requires Wellformed(inst)
    ensures Members(inst, At(inst, x, l, w))
  {
    forall a | a in At(inst, x, l, w) ensures inst.activities[a].contract < |inst.contracts| {
      assert ValidActivity(inst, inst.activities[a]);
    }
  }

  ghost function OfType(inst: Instance, s: set<nat>, t: AccessType): set<nat>
    requires Members(inst, s)
  {
    set a | a in s && TypeOf(inst, a) == t
  }

  /** The closure of a includes a location of the line. */
  ghost predicate ClosesLine(inst: Instance, a: nat, line: string) {
    a < |inst.activities| && exists l :: l in inst.activities[a].closure && l < |inst.locations|
                                         && inst.locations[l].line == line
  }

  // --- ranks ---------------------------------------------------------------------------

  ghost predicate IdLess(inst: Instance, a: nat, b: nat)
    requires a < |inst.activities| && b < |inst.activities|
  {
    StrLess(inst.activities[a].id, inst.activities[b].id)
  }

  /** The members of s whose id is smaller than that of a. */
  ghost function Below(inst: Instance, s: set<nat>, a: nat): set<nat>
    requires a < |inst.activities| && Members(inst, s)
  {
    set b | b in s && IdLess(inst, b, a)
  }

  /** The position of a in s sorted by id, counted from 0. */
  ghost function Rank(inst: Instance, s: set<nat>, a: nat): nat
    requires a < |inst.activities| && Members(inst, s)
  {
    |Below(inst, s, a)|
  }
}
