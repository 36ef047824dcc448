/** Worksites, closures and buffer zones told of single locations: their lines, bounds, positions and peers. */
module Surroundings {
  import opened Model
  import opened Topology
  import opened Zones

  // --- worksites and closures ----------------------------------------------------------------------

  /** m is the place of l on the other bound: same kind, line and body. */
  ghost predicate Across(net: Network, l: nat, m: nat) {
    && l < |net.locations| && m < |net.locations|
    && net.locations[l].kind == net.locations[m].kind
    && net.locations[l].line == net.locations[m].line && net.locations[l].body == net.locations[m].body
    && ((net.locations[l].bound == EB && net.locations[m].bound == WB)
        || (net.locations[l].bound == WB && net.locations[m].bound == EB))
  }

  /** m is a worksite location or, where the opposite bound closes, the place of one on the other bound. */
  ghost predicate InFootprint(net: Network, site: set<nat>, opposite: bool, m: nat) {
    m in site || (opposite && exists l :: l in site && Across(net, l, m))
  }

  /** m lies across an interchange from the footprint. */
  ghost predicate BeyondInterchange(net: Network, site: set<nat>, opposite: bool, m: nat) {
    exists l :: l in net.peers && m in net.peers[l] && InFootprint(net, site, opposite, l)
  }

  ghost predicate InClosure(net: Network, site: set<nat>, nature: Nature, opposite: bool, m: nat) {
    InFootprint(net, site, opposite, m) || (nature == Live && BeyondInterchange(net, site, opposite, m))
  }

  ghost predicate SameLineAndBound(net: Network, l: nat, m: nat) {
    && l < |net.locations| && m < |net.locations|
    && net.locations[l].line == net.locations[m].line && net.locations[l].bound == net.locations[m].bound
  }

  /** The tunnel sectors of m's line and bound strictly between positions i and j. */
  ghost function SectorsWithin(net: Network, m: nat, i: int, j: int): set<nat> {
    set s | 0 <= s < |net.locations| && SameLineAndBound(net, m, s) && net.locations[s].kind == Sector
            && i < net.locations[s].chainIndex < j
  }

  /** l is a footprint location on m's line and bound. */
  ghost predicate Beside(net: Network, site: set<nat>, opposite: bool, m: nat, l: nat) {
    SameLineAndBound(net, m, l) && InFootprint(net, site, opposite, l)
  }

  /** m lies below every footprint location of its line and bound, with fewer than n sectors up to one of them. */
  ghost predicate JustBelow(net: Network, site: set<nat>, opposite: bool, n: nat, m: nat) {
    && (forall l: nat :: Beside(net, site, opposite, m, l) ==>
          net.locations[m].chainIndex < net.locations[l].chainIndex)
    && exists l: nat :: Beside(net, site, opposite, m, l)
         && |SectorsWithin(net, m, net.locations[m].chainIndex, net.locations[l].chainIndex)| < n
  }

  /** m lies above every footprint location of its line and bound, with fewer than n sectors down to one of them. */
  ghost predicate JustAbove(net: Network, site: set<nat>, opposite: bool, n: nat, m: nat) {
    && (forall l: nat :: Beside(net, site, opposite, m, l) ==>
          net.locations[l].chainIndex < net.locations[m].chainIndex)
    && exists l: nat :: Beside(net, site, opposite, m, l)
         && |SectorsWithin(net, m, net.locations[l].chainIndex, net.locations[m].chainIndex)| < n
  }

  ghost predicate InZone(net: Network, site: set<nat>, nature: Nature, opposite: bool, n: nat, m: nat) {
    || InClosure(net, site, nature, opposite, m)
    || JustBelow(net, site, opposite, n, m) || JustAbove(net, site, opposite, n, m)
  }

  lemma BaseSpelled(net: Network, site: set<nat>, opposite: bool, m: nat)
    ensures m in Base(net, site, opposite) <==> InFootprint(net, site, opposite, m)
  {
    forall l: nat ensures MirrorOf(net, l, m) <==> Across(net, l, m) {}
  }

  lemma ClosureSpelled(net: Network, site: set<nat>, nature: Nature, rule: BufferRule, m: nat)
    ensures m in Closure(net, site, nature, rule) <==> InClosure(net, site, nature, rule.oppositeBound, m)
  {
    forall l: nat ensures l in Base(net, site, rule.oppositeBound) <==> InFootprint(net, site, rule.oppositeBound, l) {
      BaseSpelled(net, site, rule.oppositeBound, l);
    }
    CrossingSpelled(net, site, rule.oppositeBound, m);
  }

  lemma CrossingSpelled(net: Network, site: set<nat>, opposite: bool, m: nat)
    ensures m in Crossing(net, Base(net, site, opposite)) <==> BeyondInterchange(net, site, opposite, m)
  {
    forall l: nat ensures l in Base(net, site, opposite) <==> InFootprint(net, site, opposite, l) {
      BaseSpelled(net, site, opposite, l);
    }
  }

  /** The worksite of two sectors: every location of their line and bound from one position below to one above. */
  lemma WorksiteSpelled(net: Network, s: nat, e: nat, m: nat)
    requires Sound(net) && SameLineAndBound(net, s, e) && KeyOf(net.locations[s]) in net.chains
    ensures var i, j := net.locations[s].chainIndex, net.locations[e].chainIndex;
      m in Worksite(net, s, e) <==>
      SameLineAndBound(net, s, m) && (i - 1 <= net.locations[m].chainIndex || j - 1 <= net.locations[m].chainIndex)
      && (net.locations[m].chainIndex <= i + 1 || net.locations[m].chainIndex <= j + 1)
  {
    var key := KeyOf(net.locations[s]);
    var chain := net.chains[key];
    var i, j := net.locations[s].chainIndex, net.locations[e].chainIndex;
    if m in Worksite(net, s, e) {
      var k :| 0 <= k < |chain| && Lower(i, j) - 1 <= k <= Upper(i, j) + 1 && chain[k] == m;
      assert net.locations[chain[k]].chainIndex == k;
    }
    if m < |net.locations| { assert Placed(net.locations, net.chains, m); }
  }

  // --- buffer zones ----------------------------------------------------------------------------------

  /** Counting the sectors along a chain counts the sector locations at those positions. */
  lemma {:induction false} SectorsAreLocations(net: Network, m: nat, i: int, j: int)
    requires Sound(net) && m < |net.locations| && KeyOf(net.locations[m]) in net.chains && -1 <= i < j
    ensures Sectors(net, net.chains[KeyOf(net.locations[m])], i + 1, j) == |SectorsWithin(net, m, i, j)|
    decreases j - i
  {
    var chain := net.chains[KeyOf(net.locations[m])];
    if i + 1 < j {
      SectorsAreLocations(net, m, i, j - 1);
      SectorStep(net, m, i, j);
    } else {
      assert SectorsWithin(net, m, i, j) == {};
    }
  }

  lemma SectorStep(net: Network, m: nat, i: int, j: int)
    requires Sound(net) && m < |net.locations| && KeyOf(net.locations[m]) in net.chains && -1 <= i && i + 1 < j
    ensures var chain := net.chains[KeyOf(net.locations[m])];
      |SectorsWithin(net, m, i, j)| == |SectorsWithin(net, m, i, j - 1)| + if IsSector(net, chain, j - 1) then 1 else 0
  {
    var chain := net.chains[KeyOf(net.locations[m])];
    var before, after := SectorsWithin(net, m, i, j - 1), SectorsWithin(net, m, i, j);
    forall s | s in after && s !in before ensures s < |net.locations| && j - 1 < |chain| && s == chain[j - 1] {
      assert Placed(net.locations, net.chains, s);
    }
    if IsSector(net, chain, j - 1) {
      assert after == before + {chain[j - 1]};
    } else {
      assert after == before;
    }
  }

  lemma Lowest(net: Network, base: set<nat>, key: ChainKey) returns (lo: int)
    requires Sound(net) && Touches(net, base, key)
    ensures exists l :: OnChainAt(net, base, key, l, lo)
    ensures forall l, k :: OnChainAt(net, base, key, l, k) ==> lo <= k
  {
    forall l, k | OnChainAt(net, base, key, l, k) ensures 0 <= k { assert Placed(net.locations, net.chains, l); }
    var p, top :| OnChainAt(net, base, key, p, top);
    lo := 0;
    while forall l :: !OnChainAt(net, base, key, l, lo)
      invariant forall l, k :: OnChainAt(net, base, key, l, k) ==> lo <= k
      decreases top - lo
    {
      lo := lo + 1;
    }
  }

  lemma Highest(net: Network, base: set<nat>, key: ChainKey) returns (hi: int)
    requires Sound(net) && Touches(net, base, key)
    ensures exists l :: OnChainAt(net, base, key, l, hi)
    ensures forall l, k :: OnChainAt(net, base, key, l, k) ==> k <= hi
  {
    var p, low :| OnChainAt(net, base, key, p, low);
    assert Placed(net.locations, net.chains, p);
    hi := |net.chains[key]|;
    forall l, k | OnChainAt(net, base, key, l, k) ensures k <= hi { assert Placed(net.locations, net.chains, l); }
    while forall l :: !OnChainAt(net, base, key, l, hi)
      invariant forall l, k :: OnChainAt(net, base, key, l, k) ==> k <= hi
      decreases hi - low
    {
      hi := hi - 1;
    }
  }

  lemma OnChain(net: Network, site: set<nat>, opposite: bool, m: nat, l: nat)
    requires m < |net.locations|
    ensures Beside(net, site, opposite, m, l) <==>
      (l < |net.locations|
       && OnChainAt(net, Base(net, site, opposite), KeyOf(net.locations[m]), l, net.locations[l].chainIndex))
  {
    BaseSpelled(net, site, opposite, l);
  }

  /** The lowest and highest positions of the footprint on m's line and bound, and locations there. */
  ghost predicate Ends(net: Network, site: set<nat>, opposite: bool, m: nat, p: nat, q: nat) {
    && Beside(net, site, opposite, m, p) && Beside(net, site, opposite, m, q)
    && forall l: nat :: Beside(net, site, opposite, m, l) ==>
         net.locations[p].chainIndex <= net.locations[l].chainIndex <= net.locations[q].chainIndex
  }

  lemma BelowSpelled(net: Network, site: set<nat>, opposite: bool, n: nat, m: nat, p: nat, q: nat)
    requires Sound(net) && m < |net.locations| && KeyOf(net.locations[m]) in net.chains
    requires Ends(net, site, opposite, m, p, q)
    ensures var k, lo, chain :=
        net.locations[m].chainIndex, net.locations[p].chainIndex, net.chains[KeyOf(net.locations[m])];
      JustBelow(net, site, opposite, n, m) <==> k < lo && Gap(net, chain, k, lo) < n
  {
    var k, lo, chain :=
      net.locations[m].chainIndex, net.locations[p].chainIndex, net.chains[KeyOf(net.locations[m])];
    assert Placed(net.locations, net.chains, m);
    if k < lo {
      SectorsAreLocations(net, m, k, lo);
      forall l: nat | Beside(net, site, opposite, m, l)
        ensures |SectorsWithin(net, m, k, lo)| <= |SectorsWithin(net, m, k, net.locations[l].chainIndex)|
      {
        SectorsAreLocations(net, m, k, net.locations[l].chainIndex);
        SectorsSplit(net, chain, k + 1, lo, net.locations[l].chainIndex);
      }
    }
  }

  lemma AboveSpelled(net: Network, site: set<nat>, opposite: bool, n: nat, m: nat, p: nat, q: nat)
    requires Sound(net) && m < |net.locations| && KeyOf(net.locations[m]) in net.chains
    requires Ends(net, site, opposite, m, p, q)
    ensures var k, hi, chain :=
        net.locations[m].chainIndex, net.locations[q].chainIndex, net.chains[KeyOf(net.locations[m])];
      JustAbove(net, site, opposite, n, m) <==> k > hi && Gap(net, chain, hi, k) < n
  {
    var k, hi, chain :=
      net.locations[m].chainIndex, net.locations[q].chainIndex, net.chains[KeyOf(net.locations[m])];
    if k > hi {
      forall l: nat | Beside(net, site, opposite, m, l)
        ensures net.locations[l].chainIndex >= 0
        ensures |SectorsWithin(net, m, hi, k)| <= |SectorsWithin(net, m, net.locations[l].chainIndex, k)|
      {
        assert Placed(net.locations, net.chains, l) && Placed(net.locations, net.chains, q);
        SectorsAreLocations(net, m, hi, k);
        SectorsAreLocations(net, m, net.locations[l].chainIndex, k);
        SectorsSplit(net, chain, net.locations[l].chainIndex + 1, hi + 1, k);
      }
      SectorsAreLocations(net, m, hi, k);
    }
  }

  lemma EndsAreHull(net: Network, site: set<nat>, opposite: bool, m: nat, p: nat, q: nat)
    requires m < |net.locations| && Ends(net, site, opposite, m, p, q)
    ensures Hull(net, Base(net, site, opposite), KeyOf(net.locations[m]), net.locations[p].chainIndex,
                 net.locations[q].chainIndex)
  {
    var base, key := Base(net, site, opposite), KeyOf(net.locations[m]);
    OnChain(net, site, opposite, m, p);
    OnChain(net, site, opposite, m, q);
    forall l, k | OnChainAt(net, base, key, l, k)
      ensures net.locations[p].chainIndex <= k <= net.locations[q].chainIndex
    {
      OnChain(net, site, opposite, m, l);
    }
  }

  /** Where the footprint has a location on m's line and bound, it has a lowest and a highest one. */
  lemma EndsExist(net: Network, site: set<nat>, opposite: bool, m: nat, l: nat) returns (p: nat, q: nat)
    requires Sound(net) && Beside(net, site, opposite, m, l)
    ensures Ends(net, site, opposite, m, p, q)
  {
    var base, key := Base(net, site, opposite), KeyOf(net.locations[m]);
    forall k: nat
      ensures Beside(net, site, opposite, m, k) <==>
        k < |net.locations| && OnChainAt(net, base, key, k, net.locations[k].chainIndex)
    {
      OnChain(net, site, opposite, m, k);
    }
    var lo := Lowest(net, base, key);
    var hi := Highest(net, base, key);
    p :| OnChainAt(net, base, key, p, lo);
    q :| OnChainAt(net, base, key, q, hi);
  }

  /** Growth reaches a location exactly when it is just below or just above the footprint. */
  lemma BufferSpelled(net: Network, site: set<nat>, opposite: bool, n: nat, m: nat)
    requires Sound(net) && m < |net.locations|
    ensures WithinBuffer(net, Base(net, site, opposite), n, m) <==>
      JustBelow(net, site, opposite, n, m) || JustAbove(net, site, opposite, n, m)
  {
    var base, key := Base(net, site, opposite), KeyOf(net.locations[m]);
    assert Placed(net.locations, net.chains, m);
    if l: nat :| Beside(net, site, opposite, m, l) {
      var p, q := EndsExist(net, site, opposite, m, l);
      EndsAreHull(net, site, opposite, m, p, q);
      BufferFromHull(net, base, n, m, net.locations[p].chainIndex, net.locations[q].chainIndex);
      BelowSpelled(net, site, opposite, n, m, p, q);
      AboveSpelled(net, site, opposite, n, m, p, q);
    } else {
      forall lo, hi ensures !BufferedBy(net, base, n, m, lo, hi) {
        if BufferedBy(net, base, n, m, lo, hi) {
          var l :| OnChainAt(net, base, key, l, lo);
          OnChain(net, site, opposite, m, l);
        }
      }
    }
  }

  lemma BufferFromHull(net: Network, base: set<nat>, n: nat, m: nat, lo: int, hi: int)
    requires Sound(net) && m < |net.locations| && KeyOf(net.locations[m]) in net.chains
    requires Hull(net, base, KeyOf(net.locations[m]), lo, hi)
    ensures var k, chain := net.locations[m].chainIndex, net.chains[KeyOf(net.locations[m])];
      WithinBuffer(net, base, n, m) <==>
      (k < lo && Gap(net, chain, k, lo) < n) || (k > hi && Gap(net, chain, hi, k) < n)
  {
    if WithinBuffer(net, base, n, m) {
      var lo', hi' :| BufferedBy(net, base, n, m, lo', hi');
      HullUnique(net, base, KeyOf(net.locations[m]), lo, hi, lo', hi');
    }
    var k, chain := net.locations[m].chainIndex, net.chains[KeyOf(net.locations[m])];
    if (k < lo && Gap(net, chain, k, lo) < n) || (k > hi && Gap(net, chain, hi, k) < n) {
      assert BufferedBy(net, base, n, m, lo, hi);
    }
  }

  lemma ZoneSpelled(net: Network, site: set<nat>, nature: Nature, rule: BufferRule, m: nat)
    requires Sound(net)
    ensures m in BufferZone(net, site, nature, rule) <==>
      InZone(net, site, nature, rule.oppositeBound, rule.sectors, m)
  {
    BaseSpelled(net, site, rule.oppositeBound, m);
    CrossingSpelled(net, site, rule.oppositeBound, m);
    if m < |net.locations| { BufferSpelled(net, site, rule.oppositeBound, rule.sectors, m); }
  }

  lemma ZonesSpelled(net: Network, site: set<nat>, nature: Nature, rule: BufferRule)
    requires Sound(net)
    ensures forall m: nat :: m in Closure(net, site, nature, rule) <==>
      InClosure(net, site, nature, rule.oppositeBound, m)
    ensures forall m: nat :: m in BufferZone(net, site, nature, rule) <==>
      InZone(net, site, nature, rule.oppositeBound, rule.sectors, m)
  {
    forall m: nat
      ensures m in Closure(net, site, nature, rule) <==> InClosure(net, site, nature, rule.oppositeBound, m)
      ensures m in BufferZone(net, site, nature, rule) <==>
        InZone(net, site, nature, rule.oppositeBound, rule.sectors, m)
    {
      ClosureSpelled(net, site, nature, rule, m);
      ZoneSpelled(net, site, nature, rule, m);
    }
  }

  /** The closure and the buffer zone of a worksite. */
  method BuildZones(net: Network, site: set<nat>, nature: Nature, rule: BufferRule)
    returns (closure: set<nat>, zone: set<nat>)
    requires Sound(net) && SpelledApart(net) && forall l :: l in site ==> l < |net.locations|
    ensures closure == Closure(net, site, nature, rule) && zone == BufferZone(net, site, nature, rule)
    ensures forall l :: l in zone ==> l < |net.locations|
    ensures forall m: nat :: m in closure <==> InClosure(net, site, nature, rule.oppositeBound, m)
    ensures forall m: nat :: m in zone <==> InZone(net, site, nature, rule.oppositeBound, rule.sectors, m)
  {
    var base := site;
    if rule.oppositeBound { base := MirrorAll(net, site); }
    assert base == Base(net, site, rule.oppositeBound);
    var grown := Grow(net, base, rule.sectors);
    var cross := {};
    if nature == Live { cross := Cross(net, base); }
    closure, zone := base + cross, grown + cross;
    ZonesSpelled(net, site, nature, rule);
  }
}
