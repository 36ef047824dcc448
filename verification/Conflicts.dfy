/** The three sets of conflicting activity pairs, and the instance the topology completes. */
module Conflicts {
  import opened Model
  import opened Checker
  import opened Soundness
  import opened Topology
  import opened Zones
  import opened Surroundings
  import opened OccupancyChecks
  import R = Rules

  /** Two ascending lists share an entry. */
  method Intersects(x: seq<nat>, y: seq<nat>) returns (shared: bool)
    requires Ascending(x) && Ascending(y)
    ensures shared <==> Meet(x, y)
  {
    var i, j := 0, 0;
    while i < |x| && j < |y|
      invariant i <= |x| && j <= |y|
      invariant Meet(x, y) <==> Meet(x[i..], y[j..])
      decreases |x| - i + |y| - j
    {
      if x[i] == y[j] {
        assert x[i] in x && y[j] in y;
        return true;
      }
      if x[i] < y[j] {
        SkipFirst(x[i..], y[j..]);
        assert x[i..][1..] == x[i + 1..];
        i := i + 1;
      } else {
        SkipFirst(y[j..], x[i..]);
        assert y[j..][1..] == y[j + 1..];
        j := j + 1;
      }
    }
    return false;
  }

  /** The smaller head is in no ascending list with a larger head. */
  lemma SkipFirst(x: seq<nat>, y: seq<nat>)
    requires x != [] && y != [] && Ascending(x) && Ascending(y) && x[0] < y[0]
    ensures Meet(x, y) <==> Meet(x[1..], y)
    ensures Meet(y, x) <==> Meet(y, x[1..])
  {
    assert forall l :: l in y ==> l != x[0];
    assert forall l :: l in x <==> l == x[0] || l in x[1..];
  }

  /** The zone reaches the other's worksite outside its owner's own. */
  method Beyond(zone: seq<nat>, own: seq<nat>, other: seq<nat>) returns (hit: bool)
    ensures hit <==> Hit(zone, own, other)
  {
    for i := 0 to |zone|
      invariant !Hit(zone[..i], own, other)
    {
      assert zone[..i + 1] == zone[..i] + [zone[i]];
      if zone[i] !in own && zone[i] in other {
        assert zone[i] in zone;
        return true;
      }
    }
    assert zone[..|zone|] == zone;
    return false;
  }

  ghost predicate Listed(a: Activity) {
    Ascending(a.occupied) && Ascending(a.closure) && Ascending(a.bufferZone)
  }

  method Reach(a: Activity, b: Activity) returns (clash: bool)
    requires Listed(a) && Listed(b)
    ensures clash <==> Reaches(a, b)
  {
    clash := Intersects(a.closure, b.occupied);
    if !clash { clash := Intersects(b.closure, a.occupied); }
    if !clash && a.carriesBuffer && b.carriesBuffer {
      clash := Intersects(a.bufferZone, b.occupied);
      if !clash { clash := Intersects(b.bufferZone, a.occupied); }
    }
  }

  method StrictClash(a: Activity, b: Activity) returns (strict: bool)
    ensures strict <==> Clash(a, b)
  {
    strict := Beyond(a.closure, a.occupied, b.occupied);
    if !strict { strict := Beyond(b.closure, b.occupied, a.occupied); }
    if !strict && a.carriesBuffer && b.carriesBuffer {
      strict := Beyond(a.bufferZone, a.occupied, b.occupied);
      if !strict { strict := Beyond(b.bufferZone, b.occupied, a.occupied); }
    }
  }

  /** The literal reading: a zone intrudes, even where the two share a location. */
  ghost predicate Strict(a: Activity, b: Activity) { Reaches(a, b) && Clash(a, b) }

  /** Zones that touch, but only for pairs that also reach a worksite. */
  ghost predicate NoOverlap(a: Activity, b: Activity) {
    Reaches(a, b) && (Clash(a, b) || (a.carriesBuffer && b.carriesBuffer && Meet(a.bufferZone, b.bufferZone)))
  }

  /** The adopted pairs are strict pairs without a shared location; the strict pairs are among the no-overlap pairs. */
  lemma ReadingsNest(a: Activity, b: Activity)
    ensures Exclusive(a, b) <==> Strict(a, b) && !Meet(a.occupied, b.occupied)
    ensures Strict(a, b) ==> NoOverlap(a, b)
  {
    if Exclusive(a, b) {
      HitIsMeet(a.closure, a.occupied, b.occupied);
      HitIsMeet(b.closure, b.occupied, a.occupied);
      HitIsMeet(a.bufferZone, a.occupied, b.occupied);
      HitIsMeet(b.bufferZone, b.occupied, a.occupied);
    }
  }

  lemma MeetSpelled(s: seq<nat>, t: seq<nat>)
    ensures Meet(s, t) <==> R.Shares(s, t)
  {
    if Meet(s, t) {
      var l :| l in s && l in t;
      var i :| 0 <= i < |s| && s[i] == l;
      var j :| 0 <= j < |t| && t[j] == l;
    }
    if i, j :| 0 <= i < |s| && 0 <= j < |t| && s[i] == t[j] { assert s[i] in s && s[i] in t; }
  }

  /** The readings as the pairs are sorted are the readings over the lists. */
  lemma ReadingsSpelled(a: Activity, b: Activity)
    ensures Exclusive(a, b) <==> R.KeptApart(a, b)
    ensures Strict(a, b) <==> R.KeptApartStrictly(a, b)
    ensures NoOverlap(a, b) <==> R.KeptFromTouching(a, b)
  {
    ReachSpelled(a, b);
    IntrusionSpelled(a, b);
    MeetSpelled(a.occupied, b.occupied);
    MeetSpelled(a.bufferZone, b.bufferZone);
  }

  lemma ReachSpelled(a: Activity, b: Activity)
    ensures Reaches(a, b) <==> R.ZoneHolds(a, b)
  {
    MeetSpelled(a.closure, b.occupied);
    MeetSpelled(b.closure, a.occupied);
    MeetSpelled(a.bufferZone, b.occupied);
    MeetSpelled(b.bufferZone, a.occupied);
  }

  type Pairs = seq<(nat, nat)>

  ghost predicate PairsAre(acts: seq<Activity>, pairs: Pairs, i: nat, j: nat, holds: (Activity, Activity) -> bool) {
    forall p: nat, q: nat :: (p, q) in pairs <==>
      p < q < |acts| && (p < i || (p == i && q < j)) && holds(acts[p], acts[q])
  }

  ghost function ExclusiveTest(): (Activity, Activity) -> bool { (a: Activity, b: Activity) => Exclusive(a, b) }

  ghost function StrictTest(): (Activity, Activity) -> bool { (a: Activity, b: Activity) => Strict(a, b) }

  ghost function NoOverlapTest(): (Activity, Activity) -> bool { (a: Activity, b: Activity) => NoOverlap(a, b) }

  lemma PairsStep(acts: seq<Activity>, pairs: Pairs, i: nat, j: nat, holds: (Activity, Activity) -> bool)
    requires PairsAre(acts, pairs, i, j, holds) && i < j < |acts|
    ensures PairsAre(acts, if holds(acts[i], acts[j]) then pairs + [(i, j)] else pairs, i, j + 1, holds)
  {
  }

  /** How one pair of activities is sorted into the three sets. */
  method Compare(a: Activity, b: Activity) returns (exclusive: bool, strict: bool, noOverlap: bool)
    requires Listed(a) && Listed(b)
    ensures exclusive <==> Exclusive(a, b)
    ensures strict <==> Strict(a, b)
    ensures noOverlap <==> NoOverlap(a, b)
  {
    exclusive, strict, noOverlap := false, false, false;
    var clash := Reach(a, b);
    if clash {
      var shares := Intersects(a.occupied, b.occupied);
      strict := StrictClash(a, b);
      noOverlap := strict;
      if !strict && a.carriesBuffer && b.carriesBuffer { noOverlap := Intersects(a.bufferZone, b.bufferZone); }
      exclusive := !shares;
    }
  }

  lemma PairsSpelled(acts: seq<Activity>, exclusive: Pairs, strict: Pairs, noOverlap: Pairs)
    requires PairsAre(acts, exclusive, |acts|, 0, ExclusiveTest())
    requires PairsAre(acts, strict, |acts|, 0, StrictTest())
    requires PairsAre(acts, noOverlap, |acts|, 0, NoOverlapTest())
    ensures forall p: nat, q: nat :: (p, q) in exclusive <==> p < q < |acts| && R.KeptApart(acts[p], acts[q])
    ensures forall p: nat, q: nat :: (p, q) in strict <==> p < q < |acts| && R.KeptApartStrictly(acts[p], acts[q])
    ensures forall p: nat, q: nat :: (p, q) in noOverlap <==> p < q < |acts| && R.KeptFromTouching(acts[p], acts[q])
  {
    forall p: nat, q: nat | p < q < |acts|
      ensures (p, q) in exclusive <==> R.KeptApart(acts[p], acts[q])
      ensures (p, q) in strict <==> R.KeptApartStrictly(acts[p], acts[q])
      ensures (p, q) in noOverlap <==> R.KeptFromTouching(acts[p], acts[q])
    {
      ReadingsSpelled(acts[p], acts[q]);
    }
  }

  method ConflictPairs(acts: seq<Activity>) returns (exclusive: Pairs, strict: Pairs, noOverlap: Pairs)
    requires forall i :: 0 <= i < |acts| ==> Listed(acts[i])
    ensures PairsAre(acts, exclusive, |acts|, 0, ExclusiveTest())
    ensures PairsAre(acts, strict, |acts|, 0, StrictTest())
    ensures PairsAre(acts, noOverlap, |acts|, 0, NoOverlapTest())
    ensures forall p: nat, q: nat :: (p, q) in exclusive <==> p < q < |acts| && R.KeptApart(acts[p], acts[q])
    ensures forall p: nat, q: nat :: (p, q) in strict <==> p < q < |acts| && R.KeptApartStrictly(acts[p], acts[q])
    ensures forall p: nat, q: nat :: (p, q) in noOverlap <==> p < q < |acts| && R.KeptFromTouching(acts[p], acts[q])
  {
    exclusive, strict, noOverlap := [], [], [];
    for i := 0 to |acts|
      invariant PairsAre(acts, exclusive, i, 0, ExclusiveTest())
      invariant PairsAre(acts, strict, i, 0, StrictTest())
      invariant PairsAre(acts, noOverlap, i, 0, NoOverlapTest())
    {
      FirstOfRow(acts, exclusive, i, ExclusiveTest());
      FirstOfRow(acts, strict, i, StrictTest());
      FirstOfRow(acts, noOverlap, i, NoOverlapTest());
      for j := i + 1 to |acts|
        invariant PairsAre(acts, exclusive, i, j, ExclusiveTest())
        invariant PairsAre(acts, strict, i, j, StrictTest())
        invariant PairsAre(acts, noOverlap, i, j, NoOverlapTest())
      {
        var e, s, n := Compare(acts[i], acts[j]);
        PairsStep(acts, exclusive, i, j, ExclusiveTest());
        PairsStep(acts, strict, i, j, StrictTest());
        PairsStep(acts, noOverlap, i, j, NoOverlapTest());
        if e { exclusive := exclusive + [(i, j)]; }
        if s { strict := strict + [(i, j)]; }
        if n { noOverlap := noOverlap + [(i, j)]; }
      }
      EndOfRow(acts, exclusive, i, ExclusiveTest());
      EndOfRow(acts, strict, i, StrictTest());
      EndOfRow(acts, noOverlap, i, NoOverlapTest());
    }
    PairsSpelled(acts, exclusive, strict, noOverlap);
  }

  lemma FirstOfRow(acts: seq<Activity>, pairs: Pairs, i: nat, holds: (Activity, Activity) -> bool)
    requires PairsAre(acts, pairs, i, 0, holds)
    ensures PairsAre(acts, pairs, i, i + 1, holds)
  {
  }

  lemma EndOfRow(acts: seq<Activity>, pairs: Pairs, i: nat, holds: (Activity, Activity) -> bool)
    requires PairsAre(acts, pairs, i, |acts|, holds)
    ensures PairsAre(acts, pairs, i + 1, 0, holds)
  {
  }

  /** The recorded sets nest: every adopted pair is a strict pair, every strict pair a no-overlap pair. */
  lemma PairSetsNest(acts: seq<Activity>, exclusive: Pairs, strict: Pairs, noOverlap: Pairs, p: nat, q: nat)
    requires PairsAre(acts, exclusive, |acts|, 0, ExclusiveTest()) && PairsAre(acts, strict, |acts|, 0, StrictTest())
    requires PairsAre(acts, noOverlap, |acts|, 0, NoOverlapTest())
    ensures (p, q) in exclusive ==> (p, q) in strict
    ensures (p, q) in strict ==> (p, q) in noOverlap
  {
    if p < q < |acts| { ReadingsNest(acts[p], acts[q]); }
  }

  ghost predicate Touch(a: Activity, b: Activity) {
    a.carriesBuffer && b.carriesBuffer && Meet(a.bufferZone, b.bufferZone)
  }

  /** Of the pairs whose buffer zones touch, exactly those that also reach a worksite are recorded as overlapping. */
  lemma TouchingIsMissed(acts: seq<Activity>, noOverlap: Pairs, p: nat, q: nat)
    requires PairsAre(acts, noOverlap, |acts|, 0, NoOverlapTest()) && p < q < |acts| && Touch(acts[p], acts[q])
    ensures (p, q) in noOverlap <==> Reaches(acts[p], acts[q])
  {
    assert (p, q) in noOverlap <==> NoOverlapTest()(acts[p], acts[q]);
  }

  // --- the whole topology ------------------------------------------------------------------------------------

  /** The ends of a span as looked up: a location, or nothing for a malformed or unknown id. */
  datatype RawSpan = RawSpan(start: Option<nat>, end: Option<nat>)

  type Rules = map<Nature, BufferRule>

  ghost predicate RulesFor(inst: Instance, rules: Rules) {
    && (forall a :: 0 <= a < |inst.activities| ==> inst.activities[a].contract < |inst.contracts|)
    && forall c :: 0 <= c < |inst.contracts| ==> inst.contracts[c].nature in rules
  }

  /** The activity's lists are its worksite, closure and buffer zone, in ascending order. */
  ghost predicate Zoned(net: Network, a: Activity, nature: Nature, rule: BufferRule)
    requires Sound(net)
  {
    && Listed(a) && a.carriesBuffer == (rule.sectors > 0)
    && SetOf(a.closure) == Closure(net, SetOf(a.occupied), nature, rule)
    && SetOf(a.bufferZone) == BufferZone(net, SetOf(a.occupied), nature, rule)
    && forall l :: l in a.bufferZone ==> l < |net.locations|
  }

  /** The zones of b, location by location. */
  ghost predicate ZonedSpelled(net: Network, b: Activity, nature: Nature, rule: BufferRule) {
    var site := set l | l in b.occupied;
    && (forall m: nat :: m in b.closure <==> InClosure(net, site, nature, rule.oppositeBound, m))
    && (forall m: nat :: m in b.bufferZone <==> InZone(net, site, nature, rule.oppositeBound, rule.sectors, m))
    && (b.carriesBuffer <==> rule.sectors >= 1)
  }

  lemma ZonedMeans(net: Network, b: Activity, nature: Nature, rule: BufferRule)
    requires Sound(net) && Zoned(net, b, nature, rule)
    ensures ZonedSpelled(net, b, nature, rule)
  {
    ZonesSpelled(net, SetOf(b.occupied), nature, rule);
    assert SetOf(b.occupied) == set l | l in b.occupied;
    assert forall m: nat :: m in b.closure <==> m in SetOf(b.closure);
    assert forall m: nat :: m in b.bufferZone <==> m in SetOf(b.bufferZone);
  }

  method ZoneActivity(net: Network, a: Activity, nature: Nature, rule: BufferRule) returns (b: Activity)
    requires Sound(net) && SpelledApart(net) && Ascending(a.occupied)
    requires forall l :: l in a.occupied ==> l < |net.locations|
    ensures Zoned(net, b, nature, rule)
    ensures b == a.(closure := b.closure, bufferZone := b.bufferZone, carriesBuffer := b.carriesBuffer)
  {
    var site := set l | l in a.occupied;
    var closure, zone := BuildZones(net, site, nature, rule);
    ZonesNest(net, site, nature, rule);
    var closed := Ascend(closure, |net.locations|);
    var zoned := Ascend(zone, |net.locations|);
    assert SetOf(closed) == closure && SetOf(zoned) == zone && SetOf(a.occupied) == site;
    b := a.(closure := closed, bufferZone := zoned, carriesBuffer := rule.sectors > 0);
  }

  /** What a zoned activity satisfies of a valid one, and how its zones nest. */
  lemma ZonedNests(net: Network, a: Activity, nature: Nature, rule: BufferRule)
    requires Sound(net) && Zoned(net, a, nature, rule)
    ensures SetOf(a.occupied) <= SetOf(a.closure) <= SetOf(a.bufferZone)
    ensures forall l :: l in a.occupied || l in a.closure ==> l < |net.locations|
  {
    ZonesNest(net, SetOf(a.occupied), nature, rule);
    forall l | l in a.occupied || l in a.closure ensures l < |net.locations| {
      assert l in a.occupied ==> l in SetOf(a.occupied);
      assert l in a.closure ==> l in SetOf(a.closure);
      assert l in SetOf(a.bufferZone);
    }
  }

  ghost predicate SpanOk(net: Network, raw: RawSpan) {
    && raw.start.Some? && raw.end.Some? && raw.start.value < |net.locations| && raw.end.value < |net.locations|
    && net.locations[raw.start.value].kind == Sector && net.locations[raw.end.value].kind == Sector
    && KeyOf(net.locations[raw.start.value]) == KeyOf(net.locations[raw.end.value])
  }

  /** b is a with its worksite and zones filled in. */
  ghost predicate Built(net: Network, raw: RawSpan, nature: Nature, rule: BufferRule, a: Activity, b: Activity)
    requires Sound(net)
  {
    && SpanOk(net, raw) && Occupies(net, raw, b.occupied)
    && Zoned(net, b, nature, rule)
    && b == a.(occupied := b.occupied, closure := b.closure, bufferZone := b.bufferZone,
               carriesBuffer := b.carriesBuffer)
  }

  ghost predicate Occupies(net: Network, raw: RawSpan, occupied: seq<nat>)
    requires Sound(net) && SpanOk(net, raw)
  {
    assert Placed(net.locations, net.chains, raw.start.value);
    occupied != [] && Ascending(occupied) && SetOf(occupied) == Worksite(net, raw.start.value, raw.end.value)
  }

  /**
   * b works at every location of the line and bound of its two sectors from one before the first to one after the
   * last.
   */
  ghost predicate OccupiesSpelled(net: Network, raw: RawSpan, b: Activity)
    requires SpanOk(net, raw)
  {
    var s, e := raw.start.value, raw.end.value;
    var i, j := net.locations[s].chainIndex, net.locations[e].chainIndex;
    forall m: nat :: m in b.occupied <==>
      SameLineAndBound(net, s, m) && (i - 1 <= net.locations[m].chainIndex || j - 1 <= net.locations[m].chainIndex)
      && (net.locations[m].chainIndex <= i + 1 || net.locations[m].chainIndex <= j + 1)
  }

  lemma BuiltMeans(net: Network, raw: RawSpan, nature: Nature, rule: BufferRule, a: Activity, b: Activity)
    requires Sound(net) && Built(net, raw, nature, rule, a, b)
    ensures OccupiesSpelled(net, raw, b) && ZonedSpelled(net, b, nature, rule)
  {
    ZonedMeans(net, b, nature, rule);
    assert Placed(net.locations, net.chains, raw.start.value);
    forall m: nat ensures m in b.occupied <==> m in Worksite(net, raw.start.value, raw.end.value) {
      assert m in b.occupied <==> m in SetOf(b.occupied);
    }
    forall m: nat { WorksiteSpelled(net, raw.start.value, raw.end.value, m); }
  }

  ghost function NatureOf(inst: Instance, a: nat): Nature
    requires a < |inst.activities| && inst.activities[a].contract < |inst.contracts|
  {
    inst.contracts[inst.activities[a].contract].nature
  }

  method BuildActivity(net: Network, raw: RawSpan, nature: Nature, rule: BufferRule, a: Activity)
    returns (b: Option<Activity>)
    requires Sound(net) && SpelledApart(net)
    ensures b.Some? <==> SpanOk(net, raw)
    ensures b.Some? ==> Built(net, raw, nature, rule, a, b.value)
  {
    var span := ExpandSpan(net, raw.start, raw.end);
    match span {
      case BadSpan(_) => b := None;
      case Span(locations) =>
        var zoned := ZoneActivity(net, a.(occupied := locations), nature, rule);
        assert Placed(net.locations, net.chains, raw.start.value);
        assert SetOf(locations) == Worksite(net, raw.start.value, raw.end.value);
        b := Some(zoned);
    }
  }

  /** Expands every span, derives every zone and compares every pair; any bad span stops the build. */
  method BuildTopology(inst: Instance, net: Network, spans: seq<RawSpan>, rules: Rules) returns (r: Option<Instance>)
    requires Sound(net) && SpelledApart(net) && RulesFor(inst, rules) && |spans| == |inst.activities|
    ensures r.Some? <==> forall a :: 0 <= a < |spans| ==> SpanOk(net, spans[a])
    ensures r.Some? ==> r.value == inst.(activities := r.value.activities, exclusivePairs := r.value.exclusivePairs)
    ensures r.Some? ==> BuiltUpTo(inst, net, spans, rules, r.value.activities, |inst.activities|) && Paired(r.value)
    ensures r.Some? ==> forall a: nat :: a < |spans| ==>
      |r.value.activities| == |spans| && OccupiesSpelled(net, spans[a], r.value.activities[a])
      && ZonedSpelled(net, r.value.activities[a], NatureOf(inst, a), rules[NatureOf(inst, a)])
    ensures r.Some? ==> forall a: nat, b: nat :: (a, b) in r.value.exclusivePairs <==>
      a < b < |r.value.activities| && R.KeptApart(r.value.activities[a], r.value.activities[b])
    ensures r.Some? && Loadable(inst) && inst.locations == net.locations ==> Valid(r.value)
  {
    var acts: seq<Activity> := [];
    for i := 0 to |inst.activities|
      invariant BuiltUpTo(inst, net, spans, rules, acts, i) && forall a: nat :: a < i ==> SpanOk(net, spans[a])
    {
      var nature := inst.contracts[inst.activities[i].contract].nature;
      var b := BuildActivity(net, spans[i], nature, rules[nature], inst.activities[i]);
      if b.None? { return None; }
      acts := acts + [b.value];
    }
    BuiltAreListed(inst, net, spans, rules, acts);
    forall a: nat | a < |spans|
      ensures OccupiesSpelled(net, spans[a], acts[a])
      ensures ZonedSpelled(net, acts[a], NatureOf(inst, a), rules[NatureOf(inst, a)])
    {
      BuiltMeans(net, spans[a], NatureOf(inst, a), rules[NatureOf(inst, a)], inst.activities[a], acts[a]);
    }
    var exclusive, strict, noOverlap := ConflictPairs(acts);
    var out := inst.(activities := acts, exclusivePairs := exclusive);
    ExclusiveIsPaired(out);
    if Loadable(inst) && inst.locations == net.locations { BuiltIsValid(inst, net, spans, rules, out); }
    r := Some(out);
  }

  /** The first n activities have their worksites and zones, and nothing else of them changed. */
  ghost predicate BuiltUpTo(inst: Instance, net: Network, spans: seq<RawSpan>, rules: Rules, acts: seq<Activity>,
                            n: nat)
    requires Sound(net) && RulesFor(inst, rules) && |spans| == |inst.activities| && n <= |spans|
  {
    |acts| == n && forall a: nat :: a < n && a < |acts| ==>
      Built(net, spans[a], NatureOf(inst, a), rules[NatureOf(inst, a)], inst.activities[a], acts[a])
  }

  lemma BuiltAreListed(inst: Instance, net: Network, spans: seq<RawSpan>, rules: Rules, acts: seq<Activity>)
    requires Sound(net) && RulesFor(inst, rules) && |spans| == |inst.activities|
    requires BuiltUpTo(inst, net, spans, rules, acts, |spans|)
    ensures forall i :: 0 <= i < |acts| ==> Listed(acts[i])
  {
    forall i: nat | i < |acts| ensures Listed(acts[i]) {
      assert Built(net, spans[i], NatureOf(inst, i), rules[NatureOf(inst, i)], inst.activities[i], acts[i]);
    }
  }

  lemma ExclusiveIsPaired(inst: Instance)
    requires PairsAre(inst.activities, inst.exclusivePairs, |inst.activities|, 0, ExclusiveTest())
    ensures Paired(inst)
  {
  }

  /** What reading the tables of an instance guarantees, before its topology is built. */
  ghost predicate Loadable(inst: Instance) {
    && 1 <= inst.weeks <= 520 && |inst.activities| <= 500000
    && (forall a :: 0 <= a < |inst.activities| ==> LoadedActivity(inst, inst.activities[a]))
    && DistinctIds(inst) && Named(inst)
    && (forall c :: 0 <= c < |inst.contracts| ==>
          inst.contracts[c].workfronts >= 1 && inst.contracts[c].maxPerWeek <= 7)
  }

  ghost predicate LoadedActivity(inst: Instance, a: Activity) {
    a.contract < |inst.contracts| && 1 <= a.earliest
        && (a.predecessor.Some? ==> a.predecessor.value < |inst.activities|)
  }

  /** A built activity has the location lists a valid instance needs. */
  lemma BuiltActivityIsValid(inst: Instance, net: Network, raw: RawSpan, nature: Nature, rule: BufferRule, a: Activity,
                             b: Activity)
    requires Sound(net) && |net.locations| == |inst.locations| && Built(net, raw, nature, rule, a, b)
    requires LoadedActivity(inst, a)
    ensures ValidActivity(inst, b)
    ensures SetOf(b.occupied) <= SetOf(b.closure) <= SetOf(b.bufferZone)
  {
    ZonedNests(net, b, nature, rule);
  }

  /** What the loader guarantees and the topology built make every assumption of validity. */
  lemma BuiltIsValid(inst: Instance, net: Network, spans: seq<RawSpan>, rules: Rules, out: Instance)
    requires Sound(net) && RulesFor(inst, rules) && |spans| == |inst.activities|
    requires Loadable(inst) && inst.locations == net.locations
    requires out == inst.(activities := out.activities, exclusivePairs := out.exclusivePairs) && Paired(out)
    requires BuiltUpTo(inst, net, spans, rules, out.activities, |spans|)
    ensures Valid(out)
  {
    forall a | 0 <= a < |out.activities|
      ensures ValidActivity(out, out.activities[a]) && out.activities[a].id == inst.activities[a].id
    {
      assert LoadedActivity(inst, inst.activities[a]);
      BuiltActivityIsValid(out, net, spans[a], NatureOf(inst, a), rules[NatureOf(inst, a)], inst.activities[a],
                           out.activities[a]);
    }
  }
}
