/** Closures and buffer zones: the mirrored bound, growth by sectors, and the interchange crossing. */
module Zones {
  import opened Model
  import opened Topology

  // --- the opposite bound ----------------------------------------------------------------------

  predicate Mirrors(a: Location, b: Location) {
    a.kind == b.kind && a.line == b.line && a.body == b.body && a.bound != b.bound
  }

  /** No two locations share kind, line, body and bound, as their ids spell these out. */
  ghost predicate SpelledApart(net: Network) {
    forall l, m :: 0 <= l < m < |net.locations| ==>
      !(net.locations[l].kind == net.locations[m].kind && net.locations[l].line == net.locations[m].line
        && net.locations[l].body == net.locations[m].body && net.locations[l].bound == net.locations[m].bound)
  }

  ghost predicate MirrorOf(net: Network, l: nat, m: nat) {
    l < |net.locations| && m < |net.locations| && Mirrors(net.locations[l], net.locations[m])
  }

  /** The same place on the opposite bound, if the network has it. */
  method FindMirror(net: Network, l: nat) returns (m: Option<nat>)
    requires l < |net.locations|
    ensures m.Some? ==> MirrorOf(net, l, m.value)
    ensures m.None? ==> forall k: nat :: !MirrorOf(net, l, k)
  {
    for k := 0 to |net.locations|
      invariant forall j: nat :: j < k ==> !MirrorOf(net, l, j)
    {
      if Mirrors(net.locations[l], net.locations[k]) { return Some(k); }
    }
    return None;
  }

  /** The worksite, with the mirrored locations when the opposite bound closes too. */
  ghost function Base(net: Network, site: set<nat>, opposite: bool): set<nat> {
    site + if opposite then set l, m | l in site && 0 <= m < |net.locations| && MirrorOf(net, l, m) :: m else {}
  }

  lemma MirrorUnique(net: Network, l: nat, m: nat, k: nat)
    requires SpelledApart(net) && MirrorOf(net, l, m) && MirrorOf(net, l, k)
    ensures m == k && MirrorOf(net, m, l)
  {
  }

  method MirrorAll(net: Network, site: set<nat>) returns (base: set<nat>)
    requires SpelledApart(net) && forall l :: l in site ==> l < |net.locations|
    ensures base == Base(net, site, true)
  {
    base := site;
    var todo := site;
    while todo != {}
      invariant todo <= site
      invariant base == site + set l, m | l in site - todo && 0 <= m < |net.locations| && MirrorOf(net, l, m) :: m
      decreases todo
    {
      var l: nat :| l in todo;
      var m := FindMirror(net, l);
      forall k: nat | MirrorOf(net, l, k) ensures m == Some(k) { MirrorUnique(net, l, m.value, k); }
      if m.Some? { base := base + {m.value}; }
      todo := todo - {l};
    }
  }

  /** Mirroring a mirrored worksite adds nothing: the closure of a Live worksite is the same on both bounds. */
  lemma MirrorTwice(net: Network, site: set<nat>)
    requires SpelledApart(net)
    ensures Base(net, Base(net, site, true), true) == Base(net, site, true)
  {
    var base := Base(net, site, true);
    forall m | m in Base(net, base, true) ensures m in base {
      if m !in base {
        var l :| l in base && MirrorOf(net, l, m);
        if l !in site {
          var k :| k in site && MirrorOf(net, k, l);
          MirrorUnique(net, k, l, l);
          MirrorUnique(net, l, k, m);
        }
      }
    }
  }

  // --- growth ----------------------------------------------------------------------------------------

  /** The base's positions on one chain lie within lo..hi and reach both ends. */
  ghost predicate Hull(net: Network, base: set<nat>, key: ChainKey, lo: int, hi: int) {
    && (exists l :: OnChainAt(net, base, key, l, lo))
    && (exists l :: OnChainAt(net, base, key, l, hi))
    && forall l, k :: OnChainAt(net, base, key, l, k) ==> lo <= k <= hi
  }

  /** l is a base location at position k of the chain. */
  ghost predicate OnChainAt(net: Network, base: set<nat>, key: ChainKey, l: nat, k: int) {
    l in base && l < |net.locations| && KeyOf(net.locations[l]) == key && net.locations[l].chainIndex == k
  }

  ghost predicate Touches(net: Network, base: set<nat>, key: ChainKey) {
    exists l, k :: OnChainAt(net, base, key, l, k)
  }

  lemma HullUnique(net: Network, base: set<nat>, key: ChainKey, lo: int, hi: int, lo': int, hi': int)
    requires Hull(net, base, key, lo, hi) && Hull(net, base, key, lo', hi')
    ensures lo == lo' && hi == hi'
  {
  }

  /** The lowest and highest position of the base on a chain, or -1 twice. */
  method FindHull(net: Network, base: set<nat>, key: ChainKey) returns (lo: int, hi: int)
    requires Sound(net) && forall l :: l in base ==> l < |net.locations|
    ensures if Touches(net, base, key) then Hull(net, base, key, lo, hi) && 0 <= lo <= hi else lo == -1
    ensures Touches(net, base, key) ==> key in net.chains && hi < |net.chains[key]|
  {
    lo, hi := -1, -1;
    var todo := base;
    while todo != {}
      invariant todo <= base
      invariant if Touches(net, base - todo, key) then Hull(net, base - todo, key, lo, hi) && 0 <= lo <= hi
          else lo == -1 && hi == -1
      decreases todo
    {
      var l: nat :| l in todo;
      ghost var seen := base - todo;
      todo := todo - {l};
      assert base - todo == seen + {l};
      if KeyOf(net.locations[l]) == key {
        var k := net.locations[l].chainIndex;
        assert Placed(net.locations, net.chains, l);
        HullStep(net, seen, key, l, lo, hi);
        if lo < 0 || k < lo { lo := k; }
        if k > hi { hi := k; }
      } else {
        OtherChain(net, seen, key, l);
        if Touches(net, seen, key) { HullSame(net, seen, seen + {l}, key, lo, hi); }
      }
    }
    assert base - todo == base;
    if Touches(net, base, key) {
      var l :| OnChainAt(net, base, key, l, hi);
      assert Placed(net.locations, net.chains, l);
    }
  }

  lemma HullStep(net: Network, seen: set<nat>, key: ChainKey, l: nat, lo: int, hi: int)
    requires l < |net.locations| && KeyOf(net.locations[l]) == key && net.locations[l].chainIndex >= 0
    requires if Touches(net, seen, key) then Hull(net, seen, key, lo, hi) && 0 <= lo <= hi else lo == -1 && hi == -1
    ensures var k := net.locations[l].chainIndex;
      Hull(net, seen + {l}, key, if lo < 0 || k < lo then k else lo, if k > hi then k else hi)
  {
    var k, after := net.locations[l].chainIndex, seen + {l};
    var lo', hi' := if lo < 0 || k < lo then k else lo, if k > hi then k else hi;
    assert OnChainAt(net, after, key, l, k);
    if Touches(net, seen, key) {
      var p :| OnChainAt(net, seen, key, p, lo);
      var q :| OnChainAt(net, seen, key, q, hi);
      assert OnChainAt(net, after, key, p, lo) && OnChainAt(net, after, key, q, hi);
    }
    forall m, j | OnChainAt(net, after, key, m, j) ensures lo' <= j <= hi' {
      if m != l { assert OnChainAt(net, seen, key, m, j); }
    }
  }

  lemma OtherChain(net: Network, seen: set<nat>, key: ChainKey, l: nat)
    requires l < |net.locations| && KeyOf(net.locations[l]) != key
    ensures forall m, k :: OnChainAt(net, seen + {l}, key, m, k) <==> OnChainAt(net, seen, key, m, k)
    ensures Touches(net, seen + {l}, key) <==> Touches(net, seen, key)
  {
    forall m, k ensures OnChainAt(net, seen + {l}, key, m, k) <==> OnChainAt(net, seen, key, m, k) {}
    if Touches(net, seen, key) {
      var m, k :| OnChainAt(net, seen, key, m, k);
      assert OnChainAt(net, seen + {l}, key, m, k);
    }
  }

  lemma HullSame(net: Network, seen: set<nat>, after: set<nat>, key: ChainKey, lo: int, hi: int)
    requires Hull(net, seen, key, lo, hi)
    requires forall m, k :: OnChainAt(net, after, key, m, k) <==> OnChainAt(net, seen, key, m, k)
    ensures Hull(net, after, key, lo, hi)
  {
    var p :| OnChainAt(net, seen, key, p, lo);
    var q :| OnChainAt(net, seen, key, q, hi);
    assert OnChainAt(net, after, key, p, lo) && OnChainAt(net, after, key, q, hi);
  }

  /** l lies beyond the base on a chain it touches, with fewer than n sectors strictly between. */
  ghost predicate WithinBuffer(net: Network, base: set<nat>, n: nat, l: nat)
    requires Sound(net)
  {
    l < |net.locations| && exists lo, hi :: BufferedBy(net, base, n, l, lo, hi)
  }

  ghost predicate BufferedBy(net: Network, base: set<nat>, n: nat, l: nat, lo: int, hi: int)
    requires Sound(net) && l < |net.locations|
  {
    var key, k := KeyOf(net.locations[l]), net.locations[l].chainIndex;
    assert Placed(net.locations, net.chains, l);
    var chain := net.chains[key];
    Hull(net, base, key, lo, hi)
    && ((k < lo && Gap(net, chain, k, lo) < n) || (k > hi && Gap(net, chain, hi, k) < n))
  }

  /** What one chain adds. */
  ghost function AddedOn(net: Network, base: set<nat>, n: nat, key: ChainKey): set<nat>
    requires Sound(net)
  {
    set l | 0 <= l < |net.locations| && KeyOf(net.locations[l]) == key && WithinBuffer(net, base, n, l)
  }

  lemma AddedIsBeforeAfter(net: Network, base: set<nat>, n: nat, key: ChainKey, lo: int, hi: int)
    requires Sound(net) && key in net.chains && Hull(net, base, key, lo, hi)
    ensures AddedOn(net, base, n, key) == Before(net, net.chains[key], lo, n) + After(net, net.chains[key], hi, n)
  {
    var chain := net.chains[key];
    forall l: nat
      ensures l in AddedOn(net, base, n, key) <==> l in Before(net, chain, lo, n) || l in After(net, chain, hi, n)
    {
      if l in AddedOn(net, base, n, key) {
        var lo', hi' :| BufferedBy(net, base, n, l, lo', hi');
        HullUnique(net, base, key, lo, hi, lo', hi');
        assert Placed(net.locations, net.chains, l);
      }
      if l in Before(net, chain, lo, n) || l in After(net, chain, hi, n) {
        var k :| 0 <= k < |chain| && chain[k] == l
                 && ((k < lo && Gap(net, chain, k, lo) < n) || (k > hi && Gap(net, chain, hi, k) < n));
        assert net.locations[chain[k]].chainIndex == k && KeyOf(net.locations[chain[k]]) == key;
        assert BufferedBy(net, base, n, l, lo, hi);
      }
    }
  }

  /** The base and everything within n sectors of it along the chains it touches. */
  ghost function Grown(net: Network, base: set<nat>, n: nat): set<nat>
    requires Sound(net)
  {
    base + set l | 0 <= l < |net.locations| && WithinBuffer(net, base, n, l)
  }

  method KeysOf(net: Network, base: set<nat>) returns (keys: set<ChainKey>)
    requires forall l :: l in base ==> l < |net.locations|
    ensures forall key :: key in keys <==> Touches(net, base, key)
  {
    keys := {};
    var todo := base;
    while todo != {}
      invariant todo <= base
      invariant forall key :: key in keys <==> exists l :: l in base && l !in todo && KeyOf(net.locations[l]) == key
      decreases todo
    {
      var l: nat :| l in todo;
      todo := todo - {l};
      keys := keys + {KeyOf(net.locations[l])};
    }
    forall key ensures key in keys <==> Touches(net, base, key) {
      if key in keys {
        var l :| l in base && KeyOf(net.locations[l]) == key;
        assert OnChainAt(net, base, key, l, net.locations[l].chainIndex);
      }
    }
  }

  /** Grows the base by n sectors along every chain it touches. */
  method Grow(net: Network, base: set<nat>, n: nat) returns (grown: set<nat>)
    requires Sound(net) && forall l :: l in base ==> l < |net.locations|
    ensures grown == Grown(net, base, n)
  {
    grown := base;
    if n == 0 { return; }
    var keys := KeysOf(net, base);
    var todo := keys;
    while todo != {}
      invariant todo <= keys
      invariant forall l: nat :: l in grown <==>
        l in base || (l < |net.locations| && KeyOf(net.locations[l]) in keys - todo && WithinBuffer(net, base, n, l))
      decreases todo
    {
      var key: ChainKey :| key in todo;
      todo := todo - {key};
      var lo, hi := FindHull(net, base, key);
      AddedIsBeforeAfter(net, base, n, key, lo, hi);
      var before := grown;
      grown := GrowDown(net, net.chains[key], lo, n, grown);
      grown := GrowUp(net, net.chains[key], hi, n, grown);
      assert grown == before + AddedOn(net, base, n, key);
    }
    forall l: nat | l < |net.locations| && WithinBuffer(net, base, n, l) ensures KeyOf(net.locations[l]) in keys {
      var lo, hi :| BufferedBy(net, base, n, l, lo, hi);
      var m :| OnChainAt(net, base, KeyOf(net.locations[l]), m, lo);
    }
  }

  /** A wider buffer never loses a location. */
  lemma GrowthIsMonotone(net: Network, base: set<nat>, n: nat, m: nat)
    requires Sound(net) && n <= m
    ensures base <= Grown(net, base, n) <= Grown(net, base, m)
  {
    forall l: nat | WithinBuffer(net, base, n, l) ensures WithinBuffer(net, base, m, l) {
      var lo, hi :| BufferedBy(net, base, n, l, lo, hi);
      assert BufferedBy(net, base, m, l, lo, hi);
    }
  }

  // --- the zones of one activity ------------------------------------------------------------------------

  /** The other lines' locations across an interchange the base touches. */
  ghost function Crossing(net: Network, base: set<nat>): set<nat> {
    set l, m | l in base && l in net.peers && m in net.peers[l] :: m
  }

  method Cross(net: Network, base: set<nat>) returns (cross: set<nat>)
    ensures cross == Crossing(net, base)
  {
    cross := {};
    var todo := base;
    while todo != {}
      invariant todo <= base && cross == Crossing(net, base - todo)
      decreases todo
    {
      var l: nat :| l in todo;
      ghost var seen := base - todo;
      todo := todo - {l};
      assert base - todo == seen + {l};
      if l in net.peers { cross := cross + net.peers[l]; }
      CrossingStep(net, seen, l);
    }
    assert base - todo == base;
  }

  lemma CrossingStep(net: Network, seen: set<nat>, l: nat)
    ensures Crossing(net, seen + {l}) == Crossing(net, seen) + if l in net.peers then net.peers[l] else {}
  {
  }

  /** The closure of a worksite: its base, and for Live work the interchange crossing. */
  ghost function Closure(net: Network, site: set<nat>, nature: Nature, rule: BufferRule): set<nat> {
    var base := Base(net, site, rule.oppositeBound);
    base + if nature == Live then Crossing(net, base) else {}
  }

  /** The buffer zone: the grown base, and the same crossing, which does not itself grow. */
  ghost function BufferZone(net: Network, site: set<nat>, nature: Nature, rule: BufferRule): set<nat>
    requires Sound(net)
  {
    var base := Base(net, site, rule.oppositeBound);
    Grown(net, base, rule.sectors) + if nature == Live then Crossing(net, base) else {}
  }

  /** The worksite lies within its closure, and the closure within its buffer zone. */
  lemma ZonesNest(net: Network, site: set<nat>, nature: Nature, rule: BufferRule)
    requires Sound(net)
    ensures site <= Closure(net, site, nature, rule) <= BufferZone(net, site, nature, rule)
  {
  }

  /** A rule of more sectors gives a wider zone and the same closure. */
  lemma WiderBuffer(net: Network, site: set<nat>, nature: Nature, rule: BufferRule, wider: BufferRule)
    requires Sound(net) && rule.sectors <= wider.sectors && rule.oppositeBound == wider.oppositeBound
    ensures BufferZone(net, site, nature, rule) <= BufferZone(net, site, nature, wider)
    ensures Closure(net, site, nature, rule) == Closure(net, site, nature, wider)
  {
    GrowthIsMonotone(net, Base(net, site, rule.oppositeBound), rule.sectors, wider.sectors);
  }

  // --- alternating chains ------------------------------------------------------------------------------------

  /** Platforms at even positions, tunnel sectors at odd ones, platforms at both ends. */
  ghost predicate Alternating(net: Network, chain: seq<nat>) {
    && |chain| % 2 == 1
    && forall k :: 0 <= k < |chain| ==> chain[k] < |net.locations| && (IsSector(net, chain, k) <==> k % 2 == 1)
  }

  lemma {:induction false} AlternatingCount(net: Network, chain: seq<nat>, i: int, j: int)
    requires Alternating(net, chain) && 0 <= i <= j <= |chain|
    ensures Sectors(net, chain, i, j) == j / 2 - i / 2
    decreases j - i
  {
    if i < j { AlternatingCount(net, chain, i, j - 1); }
  }

  /** The sectors i..j of a chain, counted along it, and the platforms at both ends of each. */
  ghost function Expansion(chain: seq<nat>, i: int, j: int): set<nat> {
    (set t | 0 <= t < |chain| && i <= t <= j && 2 * t + 1 < |chain| :: chain[2 * t + 1])
    + (set t | 0 <= t < |chain| && i <= t <= j + 1 && 2 * t < |chain| :: chain[2 * t])
  }

  lemma StretchIsExpansion(chain: seq<nat>, i: int, j: int)
    requires 0 <= i <= j < |chain| && i % 2 == 1 && j % 2 == 1 && |chain| % 2 == 1
    ensures Stretch(chain, i - 1, j + 1) == Expansion(chain, i / 2, j / 2)
  {
    forall l | l in Stretch(chain, i - 1, j + 1) ensures l in Expansion(chain, i / 2, j / 2) {
      var k :| 0 <= k < |chain| && i - 1 <= k <= j + 1 && chain[k] == l;
      var t := k / 2;
      if k % 2 == 1 { assert chain[2 * t + 1] == l; } else { assert chain[2 * t] == l; }
    }
    forall l | l in Expansion(chain, i / 2, j / 2) ensures l in Stretch(chain, i - 1, j + 1) {
      if t :| 0 <= t < |chain| && i / 2 <= t <= j / 2 && 2 * t + 1 < |chain| && chain[2 * t + 1] == l {
      } else {
        var t :| 0 <= t < |chain| && i / 2 <= t <= j / 2 + 1 && 2 * t < |chain| && chain[2 * t] == l;
      }
    }
  }

  /** Widening the index interval by one at each end is taking the sectors with all their platforms. */
  lemma WorksiteIsExpansion(net: Network, s: nat, e: nat)
    requires Sound(net) && s < |net.locations| && e < |net.locations| && KeyOf(net.locations[s]) in net.chains
    requires KeyOf(net.locations[s]) == KeyOf(net.locations[e])
    requires Alternating(net, net.chains[KeyOf(net.locations[s])])
    requires net.locations[s].kind == Sector && net.locations[e].kind == Sector
    ensures var chain := net.chains[KeyOf(net.locations[s])];
            var i, j := net.locations[s].chainIndex, net.locations[e].chainIndex;
            Worksite(net, s, e) == Expansion(chain, Lower(i, j) / 2, Upper(i, j) / 2)
  {
    var chain := net.chains[KeyOf(net.locations[s])];
    assert Placed(net.locations, net.chains, s) && Placed(net.locations, net.chains, e);
    var i, j := net.locations[s].chainIndex, net.locations[e].chainIndex;
    assert IsSector(net, chain, i) && IsSector(net, chain, j);
    StretchIsExpansion(chain, Lower(i, j), Upper(i, j));
  }

  /** From a platform, n sectors of buffer are the next n sectors with the platforms between them. */
  lemma BufferOnAlternating(net: Network, chain: seq<nat>, lo: int, hi: int, n: nat)
    requires Alternating(net, chain) && 0 <= lo <= hi < |chain| && lo % 2 == 0 && hi % 2 == 0 && n > 0
    ensures Before(net, chain, lo, n) == Stretch(chain, lo - 2 * n + 1, lo - 1)
    ensures After(net, chain, hi, n) == Stretch(chain, hi + 1, hi + 2 * n - 1)
  {
    forall k | 0 <= k < lo ensures Gap(net, chain, k, lo) < n <==> k >= lo - 2 * n + 1 {
      AlternatingCount(net, chain, k + 1, lo);
    }
    forall k | hi < k < |chain| ensures Gap(net, chain, hi, k) < n <==> k <= hi + 2 * n - 1 {
      AlternatingCount(net, chain, hi + 1, k);
    }
  }
}
