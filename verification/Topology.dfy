/** The geometry both sides read: chains of locations, worksite spans, closures and buffer zones. */
module Topology {
  import opened Model
  import opened Sorting

  type ChainKey = (string, Bound)

  /** chains lists the locations of each line and bound in order; peers crosses an interchange. */
  datatype Network = Network(locations: seq<Location>, chains: map<ChainKey, seq<nat>>, peers: map<nat, set<nat>>)

  datatype BufferRule = BufferRule(sectors: nat, oppositeBound: bool)

  function KeyOf(l: Location): ChainKey { (l.line, l.bound) }

  /** Every location stands at its own position of its own chain, and chains hold nothing else. */
  ghost predicate Laid(locations: seq<Location>, chains: map<ChainKey, seq<nat>>) {
    && (forall l: nat :: l < |locations| ==> Placed(locations, chains, l))
    && (forall key, k: nat :: key in chains && k < |chains[key]| ==>
          chains[key][k] < |locations| && KeyOf(locations[chains[key][k]]) == key
          && locations[chains[key][k]].chainIndex == k)
  }

  ghost predicate Placed(locations: seq<Location>, chains: map<ChainKey, seq<nat>>, l: nat)
    requires l < |locations|
  {
    var key, k := KeyOf(locations[l]), locations[l].chainIndex;
    key in chains && 0 <= k < |chains[key]| && chains[key][k] == l
  }

  ghost predicate Sound(net: Network) {
    && Laid(net.locations, net.chains)
    && forall l, m :: l in net.peers && m in net.peers[l] ==> m < |net.locations|
  }

  // --- laying out the chains -----------------------------------------------------------------------

  function IndexOn(locations: seq<Location>, a: nat): int {
    if a < |locations| then locations[a].chainIndex else 0
  }

  function ByChainIndex(locations: seq<Location>): (nat, nat) -> bool {
    (a: nat, b: nat) => IndexOn(locations, a) <= IndexOn(locations, b)
  }

  lemma ByChainIndexIsTotal(locations: seq<Location>)
    ensures TotalPreorder(ByChainIndex(locations))
  {
  }

  ghost predicate InGroup(locations: seq<Location>, n: nat, key: ChainKey, l: nat) {
    l < n <= |locations| && KeyOf(locations[l]) == key
  }

  ghost predicate Grouped(locations: seq<Location>, n: nat, chains: map<ChainKey, seq<nat>>)
    requires n <= |locations|
  {
    && (forall l: nat :: l < n ==> KeyOf(locations[l]) in chains && l in chains[KeyOf(locations[l])])
    && (forall key: ChainKey, l: nat :: key in chains && l in chains[key] ==> InGroup(locations, n, key, l))
    && (forall key, i, j :: key in chains && 0 <= i < j < |chains[key]| ==> chains[key][i] != chains[key][j])
  }

  /** The locations of each line and bound. */
  method GroupLocations(locations: seq<Location>) returns (chains: map<ChainKey, seq<nat>>)
    ensures Grouped(locations, |locations|, chains)
  {
    chains := map[];
    for i := 0 to |locations|
      invariant Grouped(locations, i, chains)
    {
      var key := KeyOf(locations[i]);
      GroupStep(locations, i, chains);
      chains := chains[key := (if key in chains then chains[key] else []) + [i]];
    }
  }

  lemma GroupStep(locations: seq<Location>, n: nat, chains: map<ChainKey, seq<nat>>)
    requires n < |locations| && Grouped(locations, n, chains)
    ensures var key := KeyOf(locations[n]);
      Grouped(locations, n + 1, chains[key := (if key in chains then chains[key] else []) + [n]])
  {
    var key := KeyOf(locations[n]);
    var was := if key in chains then chains[key] else [];
    var after := chains[key := was + [n]];
    forall i | 0 <= i < |was| ensures was[i] != n { assert was[i] in was; }
    forall l: nat | l < n + 1 ensures KeyOf(locations[l]) in after && l in after[KeyOf(locations[l])] {
      if l < n { assert l in chains[KeyOf(locations[l])]; }
    }
    forall other: ChainKey, l: nat | other in after && l in after[other] ensures InGroup(locations, n + 1, other, l) {
      if other != key {
        assert InGroup(locations, n, other, l);
      } else if l != n {
        assert l in was && InGroup(locations, n, key, l);
      }
    }
  }

  /** The locations with their positions on the listed chains. */
  ghost predicate Renumbered(locations: seq<Location>, after: seq<Location>) {
    |after| == |locations| && forall l :: 0 <= l < |after| ==>
      after[l] == locations[l].(chainIndex := after[l].chainIndex)
  }

  method NumberChain(locations: seq<Location>, ids: seq<nat>) returns (after: seq<Location>)
    requires forall i :: 0 <= i < |ids| ==> ids[i] < |locations|
    requires forall i, j :: 0 <= i < j < |ids| ==> ids[i] != ids[j]
    ensures Renumbered(locations, after)
    ensures forall k :: 0 <= k < |ids| ==> after[ids[k]].chainIndex == k
    ensures forall l: nat :: l < |locations| && l !in ids ==> after[l] == locations[l]
  {
    after := locations;
    for k := 0 to |ids|
      invariant Renumbered(locations, after)
      invariant forall j :: 0 <= j < k ==> after[ids[j]].chainIndex == j
      invariant forall l: nat :: l < |locations| && l !in ids[..k] ==> after[l] == locations[l]
    {
      assert ids[..k + 1] == ids[..k] + [ids[k]];
      after := after[ids[k] := after[ids[k]].(chainIndex := k)];
    }
    assert ids[..|ids|] == ids;
  }

  /** In order along the chain, as the input positions had it. */
  ghost predicate InInputOrder(locations: seq<Location>, ids: seq<nat>) {
    forall i, j :: 0 <= i < j < |ids| && ids[i] < |locations| && ids[j] < |locations| ==>
      locations[ids[i]].chainIndex <= locations[ids[j]].chainIndex
  }

  method SortChain(locations: seq<Location>, ids: seq<nat>) returns (r: seq<nat>)
    requires forall l :: l in ids ==> l < |locations|
    requires forall i, j :: 0 <= i < j < |ids| ==> ids[i] != ids[j]
    ensures InInputOrder(locations, r) && forall l :: l in r <==> l in ids
    ensures forall i, j :: 0 <= i < j < |r| ==> r[i] != r[j]
  {
    var le := ByChainIndex(locations);
    r := Sorted(ids, le);
    ByChainIndexIsTotal(locations);
    SortedIsSorted(ids, le);
    NoRepeats(ids, r);
    forall l ensures l in r <==> l in ids { SameMembers(ids, r, l); }
    forall i, j | 0 <= i < j < |r| && r[i] < |locations| && r[j] < |locations|
      ensures locations[r[i]].chainIndex <= locations[r[j]].chainIndex
    {
      assert le(r[i], r[j]);
    }
  }

  /** Chains done so far are laid; the others are still grouped. */
  ghost predicate PartlyLaid(locations: seq<Location>, chains: map<ChainKey, seq<nat>>, todo: set<ChainKey>) {
    && Grouped(locations, |locations|, chains)
    && forall key, k :: key in chains && key !in todo && 0 <= k < |chains[key]| && chains[key][k] < |locations| ==>
         locations[chains[key][k]].chainIndex == k
  }

  lemma GroupedKeeps(locations: seq<Location>, after: seq<Location>, before: map<ChainKey, seq<nat>>, key: ChainKey,
                     r: seq<nat>)
    requires Grouped(locations, |locations|, before) && key in before && Renumbered(locations, after)
    requires forall l :: l in r <==> l in before[key]
    requires forall i, j :: 0 <= i < j < |r| ==> r[i] != r[j]
    ensures Grouped(after, |after|, before[key := r])
  {
    var chains := before[key := r];
    forall l: nat | l < |after| ensures KeyOf(after[l]) in chains && l in chains[KeyOf(after[l])] {
      assert KeyOf(after[l]) == KeyOf(locations[l]) && l in before[KeyOf(locations[l])];
    }
    forall other: ChainKey, l: nat | other in chains && l in chains[other] ensures InGroup(after, |after|, other, l) {
      assert l in before[other] && InGroup(locations, |locations|, other, l);
    }
  }

  lemma OthersKeep(locations: seq<Location>, after: seq<Location>, before: map<ChainKey, seq<nat>>, key: ChainKey,
                   r: seq<nat>,
                   todo: set<ChainKey>)
    requires PartlyLaid(locations, before, todo) && key in todo && key in before && Renumbered(locations, after)
    requires forall l :: l in r <==> l in before[key]
    requires forall i, j :: 0 <= i < j < |r| ==> r[i] != r[j]
    requires forall k :: 0 <= k < |r| && r[k] < |after| ==> after[r[k]].chainIndex == k
    requires forall l: nat :: l < |locations| && l !in r ==> after[l] == locations[l]
    ensures PartlyLaid(after, before[key := r], todo - {key})
  {
    var chains := before[key := r];
    GroupedKeeps(locations, after, before, key, r);
    forall other, k | other in chains && other !in todo - {key} && 0 <= k < |chains[other]|
        && chains[other][k] < |after|
      ensures after[chains[other][k]].chainIndex == k
    {
      if other != key {
        var l := chains[other][k];
        assert l in before[other] && InGroup(locations, |locations|, other, l);
        assert l !in r;
      }
    }
  }

  lemma GroupedIsLaid(locations: seq<Location>, chains: map<ChainKey, seq<nat>>)
    requires PartlyLaid(locations, chains, {})
    ensures Laid(locations, chains)
  {
    forall key, k: nat | key in chains && k < |chains[key]|
      ensures chains[key][k] < |locations|
      ensures KeyOf(locations[chains[key][k]]) == key && locations[chains[key][k]].chainIndex == k
    {
      var l := chains[key][k];
      assert l in chains[key] && InGroup(locations, |locations|, key, l);
    }
    forall l: nat | l < |locations| ensures Placed(locations, chains, l) {
      var key := KeyOf(locations[l]);
      assert l in chains[key];
      var k :| 0 <= k < |chains[key]| && chains[key][k] == l;
      assert locations[chains[key][k]].chainIndex == k;
    }
  }

  /** Groups the locations by line and bound, orders each chain and renumbers the positions along it. */
  method BuildChains(locations: seq<Location>) returns (after: seq<Location>, chains: map<ChainKey, seq<nat>>)
    ensures Renumbered(locations, after) && Laid(after, chains)
    ensures forall key :: key in chains ==> InInputOrder(locations, chains[key])
  {
    chains := GroupLocations(locations);
    after := locations;
    var todo := chains.Keys;
    while todo != {}
      invariant todo <= chains.Keys && Renumbered(locations, after)
      invariant PartlyLaid(after, chains, todo)
      invariant forall key :: key in chains && key !in todo ==> InInputOrder(locations, chains[key])
      decreases todo
    {
      var key: ChainKey :| key in todo;
      forall l | l in chains[key] ensures l < |locations| { assert InGroup(after, |after|, key, l); }
      var ids := SortChain(locations, chains[key]);
      ghost var before, old_chains := after, chains;
      forall i | 0 <= i < |ids| ensures ids[i] < |after| { assert ids[i] in ids; }
      after := NumberChain(after, ids);
      chains := chains[key := ids];
      OthersKeep(before, after, old_chains, key, ids, todo);
      todo := todo - {key};
    }
    GroupedIsLaid(after, chains);
  }

  // --- worksites ------------------------------------------------------------------------------------

  /** The locations at positions lo..hi of a chain. */
  function Stretch(chain: seq<nat>, lo: int, hi: int): (s: set<nat>)
    ensures forall l :: l in s <==> exists k :: 0 <= k < |chain| && lo <= k <= hi && chain[k] == l
  {
    set k | 0 <= k < |chain| && lo <= k <= hi :: chain[k]
  }

  function Lower(a: int, b: int): int { if a < b then a else b }

  function Upper(a: int, b: int): int { if a < b then b else a }

  /** The worksite between two sectors of one chain: both, everything between, and one position beyond each end. */
  function Worksite(net: Network, s: nat, e: nat): set<nat>
    requires s < |net.locations| && e < |net.locations| && KeyOf(net.locations[s]) in net.chains
  {
    var i, j := net.locations[s].chainIndex, net.locations[e].chainIndex;
    Stretch(net.chains[KeyOf(net.locations[s])], Lower(i, j) - 1, Upper(i, j) + 1)
  }

  datatype SpanError = UnknownLocation | NotASector | CrossesLine

  datatype SpanResult = Span(locations: seq<nat>) | BadSpan(error: SpanError)

  /** The members of a set of locations in ascending order. */
  method Ascend(s: set<nat>, n: nat) returns (r: seq<nat>)
    requires forall l :: l in s ==> l < n
    ensures Ascending(r) && forall l :: l in r <==> l in s
  {
    r := [];
    for l := 0 to n
      invariant Ascending(r) && forall m :: m in r <==> m in s && m < l
    {
      if l in s {
        assert forall i :: 0 <= i < |r| ==> r[i] in r;
        r := r + [l];
      }
    }
  }

  ghost predicate SpanIs(net: Network, start: Option<nat>, end: Option<nat>, r: SpanResult)
    requires Sound(net)
  {
    match (start, end)
    case (Some(s), Some(e)) =>
      if s >= |net.locations| || e >= |net.locations| then r == BadSpan(UnknownLocation)
      else if net.locations[s].kind != Sector || net.locations[e].kind != Sector then r == BadSpan(NotASector)
      else if KeyOf(net.locations[s]) != KeyOf(net.locations[e]) then r == BadSpan(CrossesLine)
      else
        assert Placed(net.locations, net.chains, s);
        r.Span? && Ascending(r.locations) && forall l :: l in r.locations <==> l in Worksite(net, s, e)
    case _ => r == BadSpan(UnknownLocation)
  }

  /** Expands a span given by its two end sectors. */
  method ExpandSpan(net: Network, start: Option<nat>, end: Option<nat>) returns (r: SpanResult)
    requires Sound(net)
    ensures SpanIs(net, start, end, r)
    ensures r.Span? ==> r.locations != [] && forall l :: l in r.locations ==> l < |net.locations|
  {
    if start.None? || end.None? { return BadSpan(UnknownLocation); }
    var s, e := start.value, end.value;
    if s >= |net.locations| || e >= |net.locations| { return BadSpan(UnknownLocation); }
    if net.locations[s].kind != Sector || net.locations[e].kind != Sector { return BadSpan(NotASector); }
    if KeyOf(net.locations[s]) != KeyOf(net.locations[e]) { return BadSpan(CrossesLine); }
    assert Placed(net.locations, net.chains, s) && Placed(net.locations, net.chains, e);
    var chain := net.chains[KeyOf(net.locations[s])];
    var lo, hi := net.locations[s].chainIndex, net.locations[e].chainIndex;
    if lo > hi { lo, hi := hi, lo; }
    lo, hi := Upper(0, lo - 1), Lower(|chain| - 1, hi + 1);
    var site := {};
    for k := lo to hi + 1
      invariant site == Stretch(chain, lo, k - 1)
    {
      site := site + {chain[k]};
    }
    assert site == Worksite(net, s, e) && s in site;
    var listed := Ascend(site, |net.locations|);
    r := Span(listed);
  }

  // --- sectors between positions ------------------------------------------------------------------------

  predicate IsSector(net: Network, chain: seq<nat>, k: int) {
    0 <= k < |chain| && chain[k] < |net.locations| && net.locations[chain[k]].kind == Sector
  }

  /** The tunnel sectors at positions i..j-1. */
  function Sectors(net: Network, chain: seq<nat>, i: int, j: int): nat
    decreases j - i
  {
    if i >= j then 0 else Sectors(net, chain, i, j - 1) + if IsSector(net, chain, j - 1) then 1 else 0
  }

  lemma {:induction false} SectorsSplit(net: Network, chain: seq<nat>, i: int, m: int, j: int)
    requires i <= m <= j
    ensures Sectors(net, chain, i, j) == Sectors(net, chain, i, m) + Sectors(net, chain, m, j)
    decreases j - m
  {
    if m < j { SectorsSplit(net, chain, i, m, j - 1); }
  }

  /** The tunnel sectors strictly between two positions. */
  function Gap(net: Network, chain: seq<nat>, i: int, j: int): nat { Sectors(net, chain, i + 1, j) }

  /** Positions before lo with fewer than n sectors strictly between. */
  ghost function Before(net: Network, chain: seq<nat>, lo: int, n: nat): set<nat> {
    set k | 0 <= k < |chain| && k < lo && Gap(net, chain, k, lo) < n :: chain[k]
  }

  ghost function After(net: Network, chain: seq<nat>, hi: int, n: nat): set<nat> {
    set k | 0 <= k < |chain| && hi < k && Gap(net, chain, hi, k) < n :: chain[k]
  }

  /** Walks down the chain from lo, stopping on the n-th sector. */
  method GrowDown(net: Network, chain: seq<nat>, lo: int, n: nat, start: set<nat>) returns (grown: set<nat>)
    requires 0 <= lo <= |chain| && n > 0
    ensures grown == start + Before(net, chain, lo, n)
  {
    grown := start;
    var need, k := n as int, lo - 1;
    while k >= 0
      invariant -1 <= k < lo && need > 0 && need == n - Sectors(net, chain, k + 1, lo)
      invariant grown == start + Stretch(chain, k + 1, lo - 1)
    {
      SectorsSplit(net, chain, k, k + 1, lo);
      grown := grown + {chain[k]};
      if IsSector(net, chain, k) {
        need := need - 1;
        if need == 0 {
          BeforeIsStretch(net, chain, k, lo, n);
          return;
        }
      }
      k := k - 1;
    }
    if lo > 0 { SectorsSplit(net, chain, 0, 1, lo); }
    BeforeIsStretch(net, chain, 0, lo, n);
  }

  lemma BeforeIsStretch(net: Network, chain: seq<nat>, k: int, lo: int, n: nat)
    requires 0 <= k <= lo <= |chain|
    requires k < lo ==> Sectors(net, chain, k + 1, lo) < n
    requires k == 0 || Sectors(net, chain, k, lo) >= n
    ensures Before(net, chain, lo, n) == Stretch(chain, k, lo - 1)
  {
    forall p | 0 <= p < lo ensures Gap(net, chain, p, lo) < n <==> p >= k {
      if p >= k { SectorsSplit(net, chain, k + 1, p + 1, lo); } else { SectorsSplit(net, chain, p + 1, k, lo); }
    }
  }

  /** Walks up the chain from hi, stopping on the n-th sector. */
  method GrowUp(net: Network, chain: seq<nat>, hi: int, n: nat, start: set<nat>) returns (grown: set<nat>)
    requires -1 <= hi < |chain| && n > 0
    ensures grown == start + After(net, chain, hi, n)
  {
    grown := start;
    var need, k := n as int, hi + 1;
    while k < |chain|
      invariant hi < k <= |chain| && need > 0 && need == n - Sectors(net, chain, hi + 1, k)
      invariant grown == start + Stretch(chain, hi + 1, k - 1)
    {
      grown := grown + {chain[k]};
      if IsSector(net, chain, k) {
        need := need - 1;
        if need == 0 {
          AfterIsStretch(net, chain, k, hi, n);
          return;
        }
      }
      k := k + 1;
    }
    AfterIsStretch(net, chain, |chain| - 1, hi, n);
  }

  lemma AfterIsStretch(net: Network, chain: seq<nat>, k: int, hi: int, n: nat)
    requires -1 <= hi <= k < |chain|
    requires k > hi ==> Sectors(net, chain, hi + 1, k) < n
    requires k == |chain| - 1 || Sectors(net, chain, hi + 1, k + 1) >= n
    ensures After(net, chain, hi, n) == Stretch(chain, hi + 1, k)
  {
    forall p | hi < p < |chain| ensures Gap(net, chain, hi, p) < n <==> p <= k {
      if p <= k { SectorsSplit(net, chain, hi + 1, p, k); } else { SectorsSplit(net, chain, hi + 1, k + 1, p); }
    }
  }
}
