/** Building a plan in place: extraction, night assignment, slot packing and scoring. */
module Schedule {
  import opened Counting
  import opened Model
  import opened Sorting
  import opened Packing
  import opened Nights
  import opened Plans
  import opened Placement
  import opened Solver
  import opened Checker
  import opened Soundness
  import opened Completeness
  import opened Optimum

  // --- the order of the library sort ----------------------------------------------------

  function IdOf(inst: Instance, a: nat): string {
    if a < |inst.activities| then inst.activities[a].id else ""
  }

  predicate IdLe(inst: Instance, a: nat, b: nat) {
    !StrLess(IdOf(inst, b), IdOf(inst, a))
  }

  function ActivityOf(s: seq<Access>, i: nat): nat {
    if i < |s| then s[i].activity else 0
  }

  lemma StrOrder(a: string, b: string, c: string)
    ensures !StrLess(b, a) || !StrLess(a, b)
    ensures !StrLess(b, a) && !StrLess(c, b) ==> !StrLess(c, a)
  {
    StrLessTotal(a, b);
    StrLessTotal(b, c);
    StrLessIrreflexive(a);
    if StrLess(a, b) && StrLess(b, a) { StrLessTransitive(a, b, a); }
    if StrLess(c, a) && StrLess(a, b) { StrLessTransitive(c, a, b); }
    if StrLess(a, b) && StrLess(b, c) && StrLess(c, a) { StrLessTransitive(a, b, c); StrLessTransitive(a, c, a); }
  }

  lemma IdOrder(inst: Instance)
    ensures TotalPreorder((a: nat, b: nat) => IdLe(inst, a, b))
  {
    forall a: nat, b: nat ensures IdLe(inst, a, b) || IdLe(inst, b, a) {
      StrOrder(IdOf(inst, a), IdOf(inst, b), IdOf(inst, b));
    }
    forall a: nat, b: nat, c: nat | IdLe(inst, a, b) && IdLe(inst, b, c) ensures IdLe(inst, a, c) {
      StrOrder(IdOf(inst, a), IdOf(inst, b), IdOf(inst, c));
    }
  }

  lemma IndexOrder(inst: Instance, s: seq<Access>)
    ensures TotalPreorder((i: nat, j: nat) => IdLe(inst, ActivityOf(s, i), ActivityOf(s, j)))
  {
    IdOrder(inst);
    forall i: nat, j: nat
      ensures IdLe(inst, ActivityOf(s, i), ActivityOf(s, j)) || IdLe(inst, ActivityOf(s, j), ActivityOf(s, i))
    {
      StrOrder(IdOf(inst, ActivityOf(s, i)), IdOf(inst, ActivityOf(s, j)), "");
    }
    forall i: nat, j: nat, k: nat
      | IdLe(inst, ActivityOf(s, i), ActivityOf(s, j)) && IdLe(inst, ActivityOf(s, j), ActivityOf(s, k))
      ensures IdLe(inst, ActivityOf(s, i), ActivityOf(s, k))
    {
      StrOrder(IdOf(inst, ActivityOf(s, i)), IdOf(inst, ActivityOf(s, j)), IdOf(inst, ActivityOf(s, k)));
    }
  }

  /** Different activities in non-descending id order are in strictly ascending order. */
  lemma IdLeStrict(inst: Instance, a: nat, b: nat)
    requires DistinctIds(inst) && a < |inst.activities| && b < |inst.activities| && a != b && IdLe(inst, a, b)
    ensures IdLess(inst, a, b)
  {
    StrLessTotal(inst.activities[a].id, inst.activities[b].id);
  }

  // --- positions in sorted order ----------------------------------------------------------

  /** r lists the members of s in strictly ascending id order. */
  ghost predicate ListsInOrder(inst: Instance, s: set<nat>, r: seq<nat>)
    requires Members(inst, s)
  {
    && (forall a :: a in r <==> a in s)
    && (forall i, j :: 0 <= i < j < |r| && r[i] < |inst.activities| && r[j] < |inst.activities| ==>
          IdLess(inst, r[i], r[j]))
  }

  ghost function Prefix(r: seq<nat>, k: nat): set<nat>
    requires k <= |r|
  {
    set i | 0 <= i < k :: r[i]
  }

  lemma {:induction false} PrefixCard(r: seq<nat>, k: nat)
    requires k <= |r|
    requires forall i, j :: 0 <= i < j < |r| ==> r[i] != r[j]
    ensures |Prefix(r, k)| == k
  {
    if k > 0 {
      PrefixCard(r, k - 1);
      assert Prefix(r, k) == Prefix(r, k - 1) + {r[k - 1]};
      assert r[k - 1] !in Prefix(r, k - 1);
    } else {
      CardPositive(Prefix(r, k));
    }
  }

  lemma InOrderDistinct(inst: Instance, s: set<nat>, r: seq<nat>)
    requires Members(inst, s) && ListsInOrder(inst, s, r)
    ensures forall i, j :: 0 <= i < j < |r| ==> r[i] != r[j]
  {
    forall i, j | 0 <= i < j < |r| ensures r[i] != r[j] {
      assert r[i] in r && r[j] in r;
      StrLessIrreflexive(inst.activities[r[i]].id);
    }
  }

  lemma SortedRank(inst: Instance, s: set<nat>, r: seq<nat>, k: nat)
    requires Members(inst, s) && ListsInOrder(inst, s, r) && k < |r|
    ensures r[k] in s && Rank(inst, s, r[k]) == k
  {
    assert r[k] in r;
    InOrderDistinct(inst, s, r);
    PrefixCard(r, k);
    forall b ensures b in Below(inst, s, r[k]) <==> b in Prefix(r, k) {
      if b in Below(inst, s, r[k]) {
        assert b in r;
        var j :| 0 <= j < |r| && r[j] == b;
        StrLessIrreflexive(inst.activities[b].id);
        if j > k { StrLessTransitive(inst.activities[b].id, inst.activities[r[k]].id, inst.activities[b].id); }
      }
      if b in Prefix(r, k) {
        var j :| 0 <= j < k && r[j] == b;
        assert r[j] in r;
      }
    }
    assert Below(inst, s, r[k]) == Prefix(r, k);
  }

  lemma ListLength(inst: Instance, s: set<nat>, r: seq<nat>)
    requires Members(inst, s) && ListsInOrder(inst, s, r)
    ensures |r| == |s|
  {
    InOrderDistinct(inst, s, r);
    PrefixCard(r, |r|);
    assert Prefix(r, |r|) == s;
  }

  // --- packing one location-week ------------------------------------------------------------

  /** The slot of the i-th C activity: three beside each PC, then four to a slot. */
  function CoSlot(pm: nat, pc: nat, i: nat): nat {
    if i < 3 * pc then pm + i / 3 + 1 else pm + pc + (i - 3 * pc) / 4 + 1
  }

  ghost predicate NoRepeat(s: seq<nat>) {
    forall i, j :: 0 <= i < j < |s| ==> s[i] != s[j]
  }

  ghost predicate Apart(s: seq<nat>, t: seq<nat>) {
    forall a :: a in s ==> a !in t
  }

  /** The first n of s stand in consecutive slots after base. */
  ghost predicate InSlots(out: map<nat, int>, s: seq<nat>, n: nat, base: int) {
    n <= |s| && forall i :: 0 <= i < n ==> s[i] in out && out[s[i]] == base + i + 1
  }

  ghost predicate CoPlaced(out: map<nat, int>, co: seq<nat>, n: nat, pm: nat, pc: nat) {
    n <= |co| && forall i :: 0 <= i < n ==> co[i] in out && out[co[i]] == CoSlot(pm, pc, i)
  }

  ghost predicate HoldsExactly(out: map<nat, int>, members: seq<nat>) {
    forall a :: a in out <==> a in members
  }

  /** out is before with the entries lo..hi of co put into one slot. */
  ghost predicate SlotFilled(before: map<nat, int>, out: map<nat, int>, co: seq<nat>, lo: nat, hi: nat, slot: int) {
    && lo <= hi <= |co|
    && (forall a :: a in out <==> a in before || a in co[lo..hi])
    && (forall a :: a in out ==> out[a] == if a in co[lo..hi] then slot else before[a])
  }

  /** All PM, the first n PC and the first ci C are in their slots, and nothing else is. */
  ghost predicate Placed(out: map<nat, int>, pm: seq<nat>, pc: seq<nat>, co: seq<nat>, n: nat, ci: nat) {
    && n <= |pc| && ci <= |co| && HoldsExactly(out, pm + pc[..n] + co[..ci])
    && InSlots(out, pm, |pm|, 0) && InSlots(out, pc, n, |pm|) && CoPlaced(out, co, ci, |pm|, |pc|)
  }

  ghost predicate ListsApart(pm: seq<nat>, pc: seq<nat>, co: seq<nat>) {
    NoRepeat(pm) && NoRepeat(pc) && NoRepeat(co) && Apart(pm, pc) && Apart(pm, co) && Apart(pc, co)
  }

  /** Puts up to limit entries of s, from position start, into one slot. */
  method FillSlot(before: map<nat, int>, s: seq<nat>, start: nat, limit: nat, slot: int)
    returns (out: map<nat, int>, next: nat)
    requires start <= |s|
    ensures next == if start + limit <= |s| then start + limit else |s|
    ensures SlotFilled(before, out, s, start, next, slot)
  {
    out, next := before, start;
    var k := 0;
    while k < limit && next < |s|
      invariant k <= limit && next == start + k <= |s|
      invariant SlotFilled(before, out, s, start, next, slot)
    {
      assert s[start..next + 1] == s[start..next] + [s[next]];
      out := out[s[next] := slot];
      k, next := k + 1, next + 1;
    }
  }

  /** Each PM is alone in its slot. */
  method PlacePMs(pm: seq<nat>, ghost pc: seq<nat>, ghost co: seq<nat>) returns (out: map<nat, int>)
    requires NoRepeat(pm)
    ensures Placed(out, pm, pc, co, 0, 0)
  {
    out := map[];
    for n := 0 to |pm|
      invariant HoldsExactly(out, pm[..n]) && InSlots(out, pm, n, 0)
    {
      out := out[pm[n] := n + 1];
    }
    assert pm + pc[..0] + co[..0] == pm[..|pm|];
  }

  lemma FilledCo(before: map<nat, int>, out: map<nat, int>, co: seq<nat>, n: nat, next: nat, slot: int, pm: nat,
                 pc: nat)
    requires NoRepeat(co) && CoPlaced(before, co, n, pm, pc) && SlotFilled(before, out, co, n, next, slot)
    requires forall i :: n <= i < next ==> CoSlot(pm, pc, i) == slot
    ensures CoPlaced(out, co, next, pm, pc)
  {
    forall i | 0 <= i < next ensures co[i] in out && out[co[i]] == CoSlot(pm, pc, i) {
      if i < n {
        assert co[i] !in co[n..next];
      } else {
        assert co[n..next][i - n] == co[i];
      }
    }
  }

  lemma KeptSlots(before: map<nat, int>, out: map<nat, int>, s: seq<nat>, n: nat, base: int, co: seq<nat>, lo: nat,
                  hi: nat,
                  slot: int)
    requires InSlots(before, s, n, base) && Apart(s, co) && SlotFilled(before, out, co, lo, hi, slot)
    ensures InSlots(out, s, n, base)
  {
    forall i | 0 <= i < n ensures s[i] in out && out[s[i]] == base + i + 1 {
      assert s[i] in s && s[i] !in co;
    }
  }

  lemma HeldAfterFill(before: map<nat, int>, out: map<nat, int>, held: seq<nat>, co: seq<nat>, n: nat, next: nat,
                      slot: int)
    requires SlotFilled(before, out, co, n, next, slot) && HoldsExactly(before, held + co[..n])
    ensures HoldsExactly(out, held + co[..next])
  {
    assert co[..next] == co[..n] + co[n..next];
  }

  /** Filling one slot with C that belong there keeps everything placed. */
  lemma PlacedAfterFill(before: map<nat, int>, out: map<nat, int>, pm: seq<nat>, pc: seq<nat>, co: seq<nat>, n: nat,
                        ci: nat, next: nat, slot: int)
    requires ListsApart(pm, pc, co) && Placed(before, pm, pc, co, n, ci) && SlotFilled(before, out, co, ci, next, slot)
    requires forall i :: ci <= i < next ==> CoSlot(|pm|, |pc|, i) == slot
    ensures Placed(out, pm, pc, co, n, next)
  {
    HeldAfterFill(before, out, pm + pc[..n], co, ci, next, slot);
    FilledCo(before, out, co, ci, next, slot, |pm|, |pc|);
    KeptSlots(before, out, pm, |pm|, 0, co, ci, next, slot);
    KeptSlots(before, out, pc, n, |pm|, co, ci, next, slot);
  }

  /** The next PC opens the next slot. */
  lemma PlacedAfterPC(out: map<nat, int>, pm: seq<nat>, pc: seq<nat>, co: seq<nat>, n: nat, ci: nat)
    requires ListsApart(pm, pc, co) && Placed(out, pm, pc, co, n, ci) && n < |pc|
    ensures Placed(out[pc[n] := |pm| + n + 1], pm, pc, co, n + 1, ci)
  {
    var begun := out[pc[n] := |pm| + n + 1];
    assert pc[n] in pc && pc[..n + 1] == pc[..n] + [pc[n]];
    forall i | 0 <= i < |pm| ensures pm[i] in begun && begun[pm[i]] == i + 1 { assert pm[i] in pm; }
    forall i | 0 <= i < ci ensures co[i] in begun && begun[co[i]] == CoSlot(|pm|, |pc|, i) { assert co[i] in co; }
  }

  /** Each PC opens a slot and hosts up to three C there. */
  method PlacePCs(before: map<nat, int>, pm: seq<nat>, pc: seq<nat>, co: seq<nat>)
    returns (out: map<nat, int>, ci: nat)
    requires ListsApart(pm, pc, co) && Placed(before, pm, pc, co, 0, 0)
    ensures ci == if 3 * |pc| <= |co| then 3 * |pc| else |co|
    ensures Placed(out, pm, pc, co, |pc|, ci)
  {
    out, ci := before, 0;
    for n := 0 to |pc|
      invariant ci == if 3 * n <= |co| then 3 * n else |co|
      invariant Placed(out, pm, pc, co, n, ci)
    {
      var slot := |pm| + n + 1;
      PlacedAfterPC(out, pm, pc, co, n, ci);
      var begun, next := out[pc[n] := slot], ci;
      out, next := FillSlot(begun, co, ci, 3, slot);
      PlacedAfterFill(begun, out, pm, pc, co, n + 1, ci, next, slot);
      ci := next;
    }
  }

  /** The C from 3 pc on fill the slots after the PCs', four at a time. */
  lemma RestSlot(pm: nat, pc: nat, k: nat, ci: nat, next: nat)
    requires ci == 3 * pc + 4 * k && next <= ci + 4
    ensures forall i :: ci <= i < next ==> CoSlot(pm, pc, i) == pm + pc + k + 1
  {
    forall i | ci <= i < next ensures CoSlot(pm, pc, i) == pm + pc + k + 1 {
      assert i - 3 * pc == 4 * k + (i - ci) && 0 <= i - ci < 4;
    }
  }

  /** After the PCs are served, the C left over open slots of their own, four in each but perhaps the last. */
  method PlaceRest(before: map<nat, int>, pm: seq<nat>, pc: seq<nat>, co: seq<nat>, beside: nat)
    returns (out: map<nat, int>, slot: nat)
    requires ListsApart(pm, pc, co) && Placed(before, pm, pc, co, |pc|, beside)
    requires beside == if 3 * |pc| <= |co| then 3 * |pc| else |co|
    ensures Placed(out, pm, pc, co, |pc|, |co|)
    ensures slot == |pm| + |pc| + (|co| - beside + 3) / 4
  {
    out, slot := before, |pm| + |pc|;
    var ci := beside;
    while ci < |co|
      invariant beside <= ci <= |co|
      invariant slot == |pm| + |pc| + (ci - beside + 3) / 4
      invariant ci == |co| || (ci - beside) % 4 == 0
      invariant Placed(out, pm, pc, co, |pc|, ci)
    {
      slot := slot + 1;
      var full, next := out, ci;
      out, next := FillSlot(full, co, ci, 4, slot);
      RestSlot(|pm|, |pc|, (ci - beside) / 4, ci, next);
      PlacedAfterFill(full, out, pm, pc, co, |pc|, ci, next, slot);
      ci := next;
    }
  }

  /** Greedy packing: each PM alone, each PC with up to three C, the remaining C four to a slot. */
  method PackSlots(pm: seq<nat>, pc: seq<nat>, co: seq<nat>) returns (out: map<nat, int>, used: nat)
    requires ListsApart(pm, pc, co)
    ensures HoldsExactly(out, pm + pc + co)
    ensures InSlots(out, pm, |pm|, 0) && InSlots(out, pc, |pc|, |pm|) && CoPlaced(out, co, |co|, |pm|, |pc|)
    ensures used == SlotsNeeded(|pm|, |pc|, |co|)
  {
    out := PlacePMs(pm, pc, co);
    var ci;
    out, ci := PlacePCs(out, pm, pc, co);
    out, used := PlaceRest(out, pm, pc, co, ci);
    assert pc[..|pc|] == pc && co[..|co|] == co;
  }

  // --- one location-week -----------------------------------------------------------------------

  ghost predicate Indices(inst: Instance, s: seq<nat>) {
    forall a :: a in s ==> a < |inst.activities| && inst.activities[a].contract < |inst.contracts|
  }

  ghost predicate Ordered(inst: Instance, u: seq<nat>) {
    && (forall i :: 0 <= i < |u| ==> u[i] < |inst.activities|)
    && (forall i, j :: 0 <= i < j < |u| && u[i] < |inst.activities| && u[j] < |inst.activities| ==>
          IdLess(inst, u[i], u[j]))
  }

  lemma OrderedSnoc(inst: Instance, u: seq<nat>, a: nat)
    requires Ordered(inst, u) && u != [] && a < |inst.activities| && IdLess(inst, u[|u| - 1], a)
    ensures Ordered(inst, u + [a])
  {
    forall i | 0 <= i < |u| ensures IdLess(inst, u[i], a) {
      if i < |u| - 1 {
        StrLessTransitive(inst.activities[u[i]].id, inst.activities[u[|u| - 1]].id, inst.activities[a].id);
      }
    }
  }

  /** Drops the repeats of a list sorted by id. */
  method Deduplicated(inst: Instance, r: seq<nat>) returns (u: seq<nat>)
    requires DistinctIds(inst) && forall i :: 0 <= i < |r| ==> r[i] < |inst.activities|
    requires forall i :: 0 < i < |r| ==> IdLe(inst, r[i - 1], r[i])
    ensures Ordered(inst, u) && forall a :: a in u <==> a in r
  {
    u := [];
    for i := 0 to |r|
      invariant forall a :: a in u <==> a in r[..i]
      invariant u != [] ==> i > 0 && u[|u| - 1] == r[i - 1]
      invariant Ordered(inst, u)
    {
      if u == [] || u[|u| - 1] != r[i] {
        if u != [] {
          IdLeStrict(inst, r[i - 1], r[i]);
          OrderedSnoc(inst, u, r[i]);
        }
        u := u + [r[i]];
      }
    }
    assert r[..|r|] == r;
  }

  /** The activities present, sorted by id, each once. */
  method SortedOnce(inst: Instance, acts: seq<nat>) returns (u: seq<nat>)
    requires DistinctIds(inst) && Indices(inst, acts)
    ensures Members(inst, SetOf(acts)) && ListsInOrder(inst, SetOf(acts), u)
  {
    var le := (a: nat, b: nat) => IdLe(inst, a, b);
    var r := Sorted(acts, le);
    IdOrder(inst);
    SortedIsSorted(acts, le);
    forall a ensures a in r <==> a in acts { SameMembers(acts, r, a); }
    forall i | 0 <= i < |r| ensures r[i] < |inst.activities| { assert r[i] in r; }
    forall i | 0 < i < |r| ensures IdLe(inst, r[i - 1], r[i]) { assert le(r[i - 1], r[i]); }
    u := Deduplicated(inst, r);
  }

  /** Splits a sorted list by access type, keeping the order. */
  method SplitByType(inst: Instance, u: seq<nat>, t: AccessType) returns (v: seq<nat>)
    requires Indices(inst, u) && Members(inst, SetOf(u)) && Ordered(inst, u)
    ensures ListsInOrder(inst, OfType(inst, SetOf(u), t), v) && Ordered(inst, v)
  {
    v := [];
    for i := 0 to |u|
      invariant forall a :: a in v <==>
        (a in u[..i] && a < |inst.activities| && inst.activities[a].contract < |inst.contracts| && TypeOf(inst, a) == t)
      invariant Ordered(inst, v)
    {
      assert u[i] in u;
      if TypeOf(inst, u[i]) == t {
        if v != [] {
          assert v[|v| - 1] in v;
          var j :| 0 <= j < i && u[j] == v[|v| - 1];
          OrderedSnoc(inst, v, u[i]);
        }
        v := v + [u[i]];
      }
    }
    assert u[..|u|] == u;
  }

  /** Packs the activities of one location-week. */
  method PackCell(inst: Instance, acts: seq<nat>) returns (out: map<nat, int>, used: nat)
    requires DistinctIds(inst) && Indices(inst, acts)
    ensures Members(inst, SetOf(acts))
    ensures out == Packed(inst, SetOf(acts)) && used == Needed(inst, SetOf(acts))
  {
    var u := SortedOnce(inst, acts);
    ghost var s := SetOf(acts);
    assert SetOf(u) == s;
    forall i | 0 <= i < |u| ensures u[i] < |inst.activities| { assert u[i] in u; }
    var pm := SplitByType(inst, u, PM);
    var pc := SplitByType(inst, u, PC);
    var co := SplitByType(inst, u, CO);
    InOrderDistinct(inst, OfType(inst, s, PM), pm);
    InOrderDistinct(inst, OfType(inst, s, PC), pc);
    InOrderDistinct(inst, OfType(inst, s, CO), co);
    out, used := PackSlots(pm, pc, co);
    ListLength(inst, OfType(inst, s, PM), pm);
    ListLength(inst, OfType(inst, s, PC), pc);
    ListLength(inst, OfType(inst, s, CO), co);
    PMsInPlace(inst, s, pm, out);
    PCsInPlace(inst, s, pc, out);
    COsInPlace(inst, s, co, out);
    forall a | a in s ensures a in pm || a in pc || a in co {
      assert a in OfType(inst, s, TypeOf(inst, a));
    }
    PackedIsSlotOf(inst, s, pm, pc, co, out);
  }

  /** A member's slot follows from its place in the list of its type. */
  lemma ListedSlot(inst: Instance, s: set<nat>, list: seq<nat>, i: nat, t: AccessType)
    requires Members(inst, s) && ListsInOrder(inst, OfType(inst, s, t), list) && i < |list|
    ensures list[i] in s && TypeOf(inst, list[i]) == t
    ensures var pm, pc := |OfType(inst, s, PM)|, |OfType(inst, s, PC)|;
      SlotOf(inst, s, list[i]) == match t case PM => i + 1 case PC => pm + i + 1 case CO => CoSlot(pm, pc, i)
  {
    SortedRank(inst, OfType(inst, s, t), list, i);
  }

  ghost predicate InPlace(inst: Instance, s: set<nat>, out: map<nat, int>, list: seq<nat>)
    requires Members(inst, s)
  {
    forall a :: a in list ==> a in s && a in out && out[a] == SlotOf(inst, s, a)
  }

  lemma PMsInPlace(inst: Instance, s: set<nat>, list: seq<nat>, out: map<nat, int>)
    requires Members(inst, s) && ListsInOrder(inst, OfType(inst, s, PM), list) && InSlots(out, list, |list|, 0)
    ensures InPlace(inst, s, out, list)
  {
    forall i | 0 <= i < |list| ensures list[i] in s && out[list[i]] == SlotOf(inst, s, list[i]) {
      ListedSlot(inst, s, list, i, PM);
    }
  }

  lemma PCsInPlace(inst: Instance, s: set<nat>, list: seq<nat>, out: map<nat, int>)
    requires Members(inst, s) && ListsInOrder(inst, OfType(inst, s, PC), list)
    requires InSlots(out, list, |list|, |OfType(inst, s, PM)|)
    ensures InPlace(inst, s, out, list)
  {
    forall i | 0 <= i < |list| ensures list[i] in s && out[list[i]] == SlotOf(inst, s, list[i]) {
      ListedSlot(inst, s, list, i, PC);
    }
  }

  lemma COsInPlace(inst: Instance, s: set<nat>, list: seq<nat>, out: map<nat, int>)
    requires Members(inst, s) && ListsInOrder(inst, OfType(inst, s, CO), list)
    requires CoPlaced(out, list, |list|, |OfType(inst, s, PM)|, |OfType(inst, s, PC)|)
    ensures InPlace(inst, s, out, list)
  {
    forall i | 0 <= i < |list| ensures list[i] in s && out[list[i]] == SlotOf(inst, s, list[i]) {
      ListedSlot(inst, s, list, i, CO);
    }
  }

  lemma PackedIsSlotOf(inst: Instance, s: set<nat>, pm: seq<nat>, pc: seq<nat>, co: seq<nat>, out: map<nat, int>)
    requires Members(inst, s) && HoldsExactly(out, pm + pc + co)
    requires InPlace(inst, s, out, pm) && InPlace(inst, s, out, pc) && InPlace(inst, s, out, co)
    requires forall a :: a in s ==> a in pm || a in pc || a in co
    ensures out == Packed(inst, s)
  {
  }

  // --- who is where -------------------------------------------------------------------------------

  ghost predicate ListedAt(present: map<Cell, seq<nat>>, k: Cell, a: nat) {
    k in present && a in present[k]
  }

  ghost predicate NoneEmpty(present: map<Cell, seq<nat>>) {
    forall k :: k in present ==> present[k] != []
  }

  /** Adds activity a to the lists of its locations in week w. */
  method AddOccupied(before: map<Cell, seq<nat>>, occupied: seq<nat>, a: nat, w: int)
    returns (present: map<Cell, seq<nat>>)
    requires NoneEmpty(before)
    ensures NoneEmpty(present)
    ensures forall k: Cell, b :: ListedAt(present, k, b) <==>
              (ListedAt(before, k, b) || (b == a && k.1 == w && k.0 in occupied))
  {
    present := before;
    for j := 0 to |occupied|
      invariant NoneEmpty(present)
      invariant forall k: Cell, b :: ListedAt(present, k, b) <==>
                  (ListedAt(before, k, b) || (b == a && k.1 == w && k.0 in occupied[..j]))
    {
      var k := (occupied[j], w);
      ghost var was := present;
      present := present[k := (if k in present then present[k] else []) + [a]];
      forall m: Cell, b: nat
        ensures ListedAt(present, m, b) <==> (ListedAt(was, m, b) || (b == a && m == k))
      {
      }
      assert occupied[..j + 1] == occupied[..j] + [occupied[j]];
    }
    assert occupied[..|occupied|] == occupied;
  }

  lemma AtSnoc(inst: Instance, s: seq<Access>, i: nat, k: Cell, b: nat)
    requires i < |s| && s[i].activity < |inst.activities|
    ensures b in At(inst, XOf(s[..i + 1]), k.0, k.1) <==>
      (b in At(inst, XOf(s[..i]), k.0, k.1)
       || (b == s[i].activity && k.1 == s[i].week && k.0 in inst.activities[s[i].activity].occupied))
  {
    assert s[..i + 1][..i] == s[..i];
    XOfSnoc(s[..i + 1]);
  }

  /** The activities present at each location-week, in access order. */
  method PresentLists(inst: Instance, s: seq<Access>) returns (present: map<Cell, seq<nat>>)
    requires InHorizon(inst, XOf(s))
    ensures PresentUpTo(inst, XOf(s), present)
  {
    present := map[];
    for i := 0 to |s|
      invariant NoneEmpty(present)
      invariant forall k: Cell, b :: ListedAt(present, k, b) <==> b in At(inst, XOf(s[..i]), k.0, k.1)
    {
      AccessIn(s, i);
      present := AddOccupied(present, inst.activities[s[i].activity].occupied, s[i].activity, s[i].week);
      forall k: Cell, b ensures ListedAt(present, k, b) <==> b in At(inst, XOf(s[..i + 1]), k.0, k.1) {
        AtSnoc(inst, s, i, k, b);
      }
    }
    assert s[..|s|] == s;
    forall k: Cell | k in present ensures SetOf(present[k]) == At(inst, XOf(s), k.0, k.1) {
      forall b: nat ensures b in SetOf(present[k]) <==> b in At(inst, XOf(s), k.0, k.1) {
        assert ListedAt(present, k, b) <==> b in present[k];
      }
    }
    forall k: Cell | At(inst, XOf(s), k.0, k.1) != {} ensures k in present {
      var b := Pick(At(inst, XOf(s), k.0, k.1));
      assert ListedAt(present, k, b);
    }
  }

  /** The lists hold exactly the occupied location-weeks and their activities. */
  ghost predicate PresentUpTo(inst: Instance, x: Grid, present: map<Cell, seq<nat>>) {
    && (forall k: Cell :: k in present ==> SetOf(present[k]) == At(inst, x, k.0, k.1) && present[k] != [])
    && (forall k: Cell :: At(inst, x, k.0, k.1) != {} ==> k in present)
  }

  ghost predicate CellPacked(inst: Instance, present: map<Cell, seq<nat>>, k: Cell, out: map<nat, int>, used: int) {
    && k in present && Members(inst, SetOf(present[k]))
    && out == Packed(inst, SetOf(present[k])) && used == Needed(inst, SetOf(present[k]))
  }

  ghost predicate AllIndices(inst: Instance, present: map<Cell, seq<nat>>) {
    forall k :: k in present ==> Indices(inst, present[k])
  }

  /** Packs every listed location-week. */
  method PackAll(inst: Instance, present: map<Cell, seq<nat>>) returns (slots: Slots, used: map<Cell, int>)
    requires DistinctIds(inst) && AllIndices(inst, present)
    ensures slots.Keys == present.Keys && used.Keys == present.Keys
    ensures forall k :: k in slots && k in used ==> CellPacked(inst, present, k, slots[k], used[k])
  {
    slots, used := map[], map[];
    var todo := present.Keys;
    while todo != {}
      invariant todo <= present.Keys
      invariant slots.Keys == present.Keys - todo && used.Keys == present.Keys - todo
      invariant forall k :: k in slots && k in used ==> CellPacked(inst, present, k, slots[k], used[k])
      decreases todo
    {
      var k: Cell :| k in todo;
      todo := todo - {k};
      var out, n := PackCell(inst, present[k]);
      assert CellPacked(inst, present, k, out, n);
      slots, used := slots[k := out], used[k := n];
    }
  }

  // --- nights ------------------------------------------------------------------------------------

  type NightKey = (nat, AccessType, int)     // contract, access type, week

  ghost predicate KnownAccesses(inst: Instance, s: seq<Access>) {
    forall i :: 0 <= i < |s| ==> s[i].activity < |inst.activities|
                                 && inst.activities[s[i].activity].contract < |inst.contracts|
  }

  function KeyOf(inst: Instance, a: Access): NightKey
    requires a.activity < |inst.activities| && inst.activities[a.activity].contract < |inst.contracts|
  {
    (inst.activities[a.activity].contract, TypeOf(inst, a.activity), a.week)
  }

  /** idxs lists, each once, those of the first n accesses that have the key. */
  ghost predicate IndexesUpTo(inst: Instance, s: seq<Access>, n: nat, key: NightKey, idxs: seq<nat>)
    requires KnownAccesses(inst, s) && n <= |s|
  {
    NoRepeat(idxs) && forall i: nat :: i in idxs <==> i < n && KeyOf(inst, s[i]) == key
  }

  ghost predicate IndexesOf(inst: Instance, s: seq<Access>, key: NightKey, idxs: seq<nat>)
    requires KnownAccesses(inst, s)
  {
    IndexesUpTo(inst, s, |s|, key, idxs)
  }

  ghost predicate Bucketed(inst: Instance, s: seq<Access>, n: nat, bucket: map<NightKey, seq<nat>>)
    requires KnownAccesses(inst, s) && n <= |s|
  {
    && (forall key :: key in bucket ==> bucket[key] != [] && IndexesUpTo(inst, s, n, key, bucket[key]))
    && (forall i :: 0 <= i < n ==> KeyOf(inst, s[i]) in bucket)
  }

  lemma IndexesStep(inst: Instance, s: seq<Access>, n: nat, key: NightKey, idxs: seq<nat>)
    requires KnownAccesses(inst, s) && n < |s| && IndexesUpTo(inst, s, n, key, idxs)
    ensures IndexesUpTo(inst, s, n + 1, key, if KeyOf(inst, s[n]) == key then idxs + [n] else idxs)
  {
    assert n !in idxs;
  }

  /** The accesses of each contract, type and week. */
  method Buckets(inst: Instance, s: seq<Access>) returns (bucket: map<NightKey, seq<nat>>)
    requires KnownAccesses(inst, s)
    ensures Bucketed(inst, s, |s|, bucket)
  {
    bucket := map[];
    for i := 0 to |s|
      invariant Bucketed(inst, s, i, bucket)
    {
      var key := KeyOf(inst, s[i]);
      ghost var was := bucket;
      bucket := bucket[key := (if key in bucket then bucket[key] else []) + [i]];
      forall k | k in bucket ensures bucket[k] != [] && IndexesUpTo(inst, s, i + 1, k, bucket[k]) {
        if k in was {
          IndexesStep(inst, s, i, k, was[k]);
        } else {
          IndexesStep(inst, s, i, k, []);
        }
      }
    }
  }

  ghost function Activities(s: seq<Access>, r: seq<nat>): (acts: seq<nat>)
    ensures |acts| == |r|
    ensures forall k :: 0 <= k < |r| ==> acts[k] == ActivityOf(s, r[k])
  {
    seq(|r|, k requires 0 <= k < |r| => ActivityOf(s, r[k]))
  }

  ghost predicate Ready(inst: Instance, s: seq<Access>) {
    Wellformed(inst) && InHorizon(inst, XOf(s)) && Distinct(s) && KnownAccesses(inst, s)
  }

  /** Sorted by id, a bucket's accesses list the activities of the contract-week in order. */
  lemma BucketInOrder(inst: Instance, s: seq<Access>, key: NightKey, idxs: seq<nat>) returns (r: seq<nat>)
    requires Ready(inst, s) && IndexesOf(inst, s, key, idxs) && idxs != []
    ensures r == Sorted(idxs, (i: nat, j: nat) => IdLe(inst, ActivityOf(s, i), ActivityOf(s, j)))
    ensures |r| == |idxs| && NoRepeat(r) && forall i :: i in r <==> i in idxs
    ensures ListsInOrder(inst, Bucket(inst, XOf(s), key.0, key.2), Activities(s, r))
  {
    var le := (i: nat, j: nat) => IdLe(inst, ActivityOf(s, i), ActivityOf(s, j));
    r := Sorted(idxs, le);
    IndexOrder(inst, s);
    SortedIsSorted(idxs, le);
    forall i ensures i in r <==> i in idxs { SameMembers(idxs, r, i); }
    NoRepeats(idxs, r);
    forall i, j | 0 <= i < j < |r| ensures IdLe(inst, ActivityOf(s, r[i]), ActivityOf(s, r[j])) {
      assert le(r[i], r[j]);
    }
    ListInOrder(inst, s, key, idxs, r);
  }

  lemma ListInOrder(inst: Instance, s: seq<Access>, key: NightKey, idxs: seq<nat>, r: seq<nat>)
    requires Ready(inst, s) && IndexesOf(inst, s, key, idxs) && idxs != []
    requires NoRepeat(r) && forall i :: i in r <==> i in idxs
    requires forall i, j :: 0 <= i < j < |r| ==> IdLe(inst, ActivityOf(s, r[i]), ActivityOf(s, r[j]))
    ensures ListsInOrder(inst, Bucket(inst, XOf(s), key.0, key.2), Activities(s, r))
  {
    var acts := Activities(s, r);
    forall k | 0 <= k < |r| ensures r[k] < |s| && KeyOf(inst, s[r[k]]) == key { assert r[k] in r; }
    forall i, j | 0 <= i < j < |r| ensures IdLess(inst, acts[i], acts[j]) {
      IdLeStrict(inst, acts[i], acts[j]);
    }
    forall a ensures a in acts <==> a in Bucket(inst, XOf(s), key.0, key.2) {
      BucketMembers(inst, s, key, idxs, r, a);
    }
  }

  lemma BucketMembers(inst: Instance, s: seq<Access>, key: NightKey, idxs: seq<nat>, r: seq<nat>, a: nat)
    requires Ready(inst, s) && IndexesOf(inst, s, key, idxs) && idxs != []
    requires forall i :: i in r <==> i in idxs
    ensures a in Activities(s, r) <==> a in Bucket(inst, XOf(s), key.0, key.2)
  {
    if a in Activities(s, r) {
      var k :| 0 <= k < |r| && Activities(s, r)[k] == a;
      assert r[k] in r;
      AccessIn(s, r[k]);
    }
    if a in Bucket(inst, XOf(s), key.0, key.2) {
      var i := AccessFor(s, a, key.2);
      assert idxs[0] in idxs;
      assert KeyOf(inst, s[i]) == key;
      assert i in r;
      var k :| 0 <= k < |r| && r[k] == i;
      assert Activities(s, r)[k] == a;
    }
  }

  /** Only nights differ. */
  ghost predicate SameButNights(s: seq<Access>, t: seq<Access>) {
    |t| == |s| && forall i :: 0 <= i < |s| ==> t[i] == s[i].(night := t[i].night)
  }

  lemma SameButNightsKeeps(s: seq<Access>, t: seq<Access>)
    requires SameButNights(s, t)
    ensures XOf(t) == XOf(s) && EOf(t) == EOf(s) && (Distinct(s) ==> Distinct(t))
  {
    SameKeys(s, t);
  }

  /** Fills night 1 to its workfronts, then night 2, and so on, in the order r. */
  method FillNights(s: seq<Access>, r: seq<nat>, workfronts: nat) returns (t: seq<Access>)
    requires workfronts >= 1 && NoRepeat(r) && forall i :: i in r ==> i < |s|
    ensures SameButNights(s, t)
    ensures forall k :: 0 <= k < |r| ==> r[k] < |t| && t[r[k]].night == k / workfronts + 1
    ensures forall i :: 0 <= i < |s| && i !in r ==> t[i] == s[i]
  {
    t := s;
    for k := 0 to |r|
      invariant SameButNights(s, t)
      invariant forall j :: 0 <= j < k ==> r[j] < |t| && t[r[j]].night == j / workfronts + 1
      invariant forall i :: 0 <= i < |s| && i !in r ==> t[i] == s[i]
    {
      assert r[k] in r;
      t := t[r[k] := t[r[k]].(night := k / workfronts + 1)];
    }
  }

  ghost predicate NightDone(inst: Instance, s: seq<Access>, a: Access)
    requires Ready(inst, s)
  {
    (a.activity, a.week) in XOf(s) && a.night == NightAt(inst, XOf(s), a.activity, a.week)
  }

  ghost predicate KeyFits(inst: Instance, s: seq<Access>, key: NightKey) {
    key.0 < |inst.contracts| &&
    |Bucket(inst, XOf(s), key.0, key.2)| <= inst.contracts[key.0].maxPerWeek * inst.contracts[key.0].workfronts
  }

  lemma FilledIsNightAt(inst: Instance, s: seq<Access>, key: NightKey, r: seq<nat>, k: nat, t: seq<Access>)
    requires Ready(inst, s) && SameButNights(s, t) && k < |r| && r[k] < |s| && KeyOf(inst, s[r[k]]) == key
    requires ListsInOrder(inst, Bucket(inst, XOf(s), key.0, key.2), Activities(s, r))
    requires t[r[k]].night == k / inst.contracts[key.0].workfronts + 1
    ensures NightDone(inst, s, t[r[k]])
  {
    AccessIn(s, r[k]);
    SortedRank(inst, Bucket(inst, XOf(s), key.0, key.2), Activities(s, r), k);
  }

  /** Assigns one bucket: every access of the key gets its night, the others keep theirs. */
  method FillBucket(inst: Instance, ghost s: seq<Access>, before: seq<Access>, key: NightKey, idxs: seq<nat>)
    returns (t: seq<Access>)
    requires Ready(inst, s) && SameButNights(s, before) && IndexesOf(inst, s, key, idxs) && idxs != []
    ensures SameButNights(s, t)
    ensures forall i :: 0 <= i < |s| && i < |t| ==>
              if KeyOf(inst, s[i]) == key then NightDone(inst, s, t[i]) else t[i] == before[i]
  {
    assert idxs[0] in idxs;
    var r := Sorted(idxs, (i: nat, j: nat) => IdLe(inst, ActivityOf(before, i), ActivityOf(before, j)));
    ghost var r' := BucketInOrder(inst, s, key, idxs);
    SameOrder(inst, s, before, idxs);
    t := FillNights(before, r, inst.contracts[key.0].workfronts);
    forall i | 0 <= i < |s| && KeyOf(inst, s[i]) == key ensures NightDone(inst, s, t[i]) {
      assert i in idxs && i in r;
      var k :| 0 <= k < |r| && r[k] == i;
      FilledIsNightAt(inst, s, key, r, k, t);
    }
  }

  /** Nights play no part in the order. */
  lemma SameOrder(inst: Instance, s: seq<Access>, t: seq<Access>, idxs: seq<nat>)
    requires SameButNights(s, t)
    ensures Sorted(idxs, (i: nat, j: nat) => IdLe(inst, ActivityOf(s, i), ActivityOf(s, j)))
         == Sorted(idxs, (i: nat, j: nat) => IdLe(inst, ActivityOf(t, i), ActivityOf(t, j)))
  {
    SortedExt(idxs, (i: nat, j: nat) => IdLe(inst, ActivityOf(s, i), ActivityOf(s, j)),
              (i: nat, j: nat) => IdLe(inst, ActivityOf(t, i), ActivityOf(t, j)));
  }

  lemma BucketLoad(inst: Instance, s: seq<Access>, key: NightKey, idxs: seq<nat>)
    requires Ready(inst, s) && IndexesOf(inst, s, key, idxs) && idxs != []
    ensures idxs[0] < |s| && KeyOf(inst, s[idxs[0]]) == key
    ensures key.0 < |inst.contracts| && |idxs| == |Bucket(inst, XOf(s), key.0, key.2)|
  {
    assert idxs[0] in idxs;
    var r := BucketInOrder(inst, s, key, idxs);
    ListLength(inst, Bucket(inst, XOf(s), key.0, key.2), Activities(s, r));
  }

  /** The nights keep the allowance and the workfronts of every contract-week. */
  ghost predicate NightsLegal(inst: Instance, s: seq<Access>) {
    AllocationOk(inst, s) && WorkfrontsOk(inst, s)
  }

  /** s can be placed on legal nights. */
  ghost predicate Assignable(inst: Instance, s: seq<Access>) {
    exists t :: SameButNights(s, t) && NightsLegal(inst, t)
  }

  /** No assignment within the workfronts uses fewer nights in any contract-week. */
  ghost predicate FewestNights(inst: Instance, t: seq<Access>) {
    forall other, c: nat, w :: SameButNights(t, other) && WorkfrontsOk(inst, other) && c < |inst.contracts| ==>
      |ContractNights(inst, t, c, w)| <= |ContractNights(inst, other, c, w)|
  }

  /** Outside the keys still to do, every bucket fits and every access has its night. */
  ghost predicate Settled(inst: Instance, s: seq<Access>, t: seq<Access>, bucket: map<NightKey, seq<nat>>,
                          todo: set<NightKey>)
    requires Ready(inst, s)
  {
    && SameButNights(s, t)
    && (forall key :: key in bucket && key !in todo ==> KeyFits(inst, s, key))
    && (forall i :: 0 <= i < |s| && i < |t| && KeyOf(inst, s[i]) !in todo ==> NightDone(inst, s, t[i]))
  }

  lemma SettledStep(inst: Instance, s: seq<Access>, before: seq<Access>, t: seq<Access>,
                    bucket: map<NightKey, seq<nat>>, todo: set<NightKey>, key: NightKey)
    requires Ready(inst, s) && Settled(inst, s, before, bucket, todo) && SameButNights(s, t) && KeyFits(inst, s, key)
    requires forall i :: 0 <= i < |s| && i < |t| && i < |before| ==>
               if KeyOf(inst, s[i]) == key then NightDone(inst, s, t[i]) else t[i] == before[i]
    ensures Settled(inst, s, t, bucket, todo - {key})
  {
  }

  /** Distributes every contract-week over its nights; fails when some load exceeds nights x workfronts. */
  method AssignNights(inst: Instance, s: seq<Access>) returns (ok: bool, t: seq<Access>)
    requires Ready(inst, s)
    ensures SameButNights(s, t)
    ensures ok <==> WeeklyAllocation(inst, XOf(s))
    ensures ok <==> Assignable(inst, s)
    ensures ok ==> NightsAssigned(inst, XOf(t), t) && NightsLegal(inst, t) && FewestNights(inst, t)
    ensures ok ==> NightsInIdOrder(inst, t)
  {
    t := s;
    var bucket := Buckets(inst, s);
    var todo := bucket.Keys;
    AssignableExact(inst, s);
    while todo != {}
      invariant todo <= bucket.Keys && Settled(inst, s, t, bucket, todo)
      decreases todo
    {
      var key: NightKey :| key in todo;
      var idxs := bucket[key];
      BucketLoad(inst, s, key, idxs);
      var c := inst.contracts[key.0];
      if |idxs| > c.maxPerWeek * c.workfronts {
        OverloadedWeek(inst, s, key, idxs[0]);
        return false, t;
      }
      var before := t;
      t := FillBucket(inst, s, before, key, idxs);
      SettledStep(inst, s, before, t, bucket, todo, key);
      todo := todo - {key};
    }
    AllBucketsFit(inst, s, bucket);
    SameButNightsKeeps(s, t);
    AssignedIsBest(inst, t);
    NightsSpelled(inst, t);
    return true, t;
  }

  lemma AssignedIsBest(inst: Instance, t: seq<Access>)
    requires Wellformed(inst) && InHorizon(inst, XOf(t)) && WeeklyAllocation(inst, XOf(t))
    requires NightsAssigned(inst, XOf(t), t)
    ensures NightsLegal(inst, t) && FewestNights(inst, t)
  {
    NightsHold(inst, XOf(t), t);
    forall other, c: nat, w | SameButNights(t, other) && WorkfrontsOk(inst, other) && c < |inst.contracts|
      ensures |ContractNights(inst, t, c, w)| <= |ContractNights(inst, other, c, w)|
    {
      SameButNightsKeeps(t, other);
      FewerNightsNeeded(inst, t, other, c, w);
    }
  }

  ghost predicate Recorded(inst: Instance, other: seq<Access>, c: nat, w: int, m: map<nat, int>) {
    && m.Keys == Bucket(inst, XOf(other), c, w)
    && forall a :: a in m ==> OnSomeNight(inst, other, c, w, a, m[a])
  }

  /** The nights other records for a contract-week, as an assignment of its activities. */
  lemma RecordedNights(inst: Instance, other: seq<Access>, c: nat, w: int) returns (m: map<nat, int>)
    ensures Recorded(inst, other, c, w, m)
  {
    var b := Bucket(inst, XOf(other), c, w);
    forall a | a in b ensures exists n :: OnSomeNight(inst, other, c, w, a, n) {
      var n := BucketNight(inst, other, c, w, a);
      assert OnSomeNight(inst, other, c, w, a, n);
    }
    m := map a | a in b :: ChosenNight(inst, other, c, w, a);
  }

  lemma RecordedWithin(inst: Instance, other: seq<Access>, c: nat, w: int, m: map<nat, int>)
    requires Recorded(inst, other, c, w, m) && WorkfrontsOk(inst, other) && c < |inst.contracts|
    ensures WithinWorkfronts(inst.contracts[c], m) && |m.Values| <= |ContractNights(inst, other, c, w)|
  {
    forall n ensures |Group(m, n)| <= inst.contracts[c].workfronts {
      forall a | a in Group(m, n) ensures a in OnNight(inst, other, c, w, n) {
        assert OnSomeNight(inst, other, c, w, a, m[a]);
      }
      CardLe(Group(m, n), OnNight(inst, other, c, w, n));
    }
    forall n | n in m.Values ensures n in ContractNights(inst, other, c, w) {
      var a :| a in m && m[a] == n;
      assert OnSomeNight(inst, other, c, w, a, m[a]);
    }
    CardLe(m.Values, ContractNights(inst, other, c, w));
  }

  lemma FewerNightsNeeded(inst: Instance, t: seq<Access>, other: seq<Access>, c: nat, w: int)
    requires Wellformed(inst) && InHorizon(inst, XOf(t)) && NightsAssigned(inst, XOf(t), t)
    requires XOf(other) == XOf(t) && WorkfrontsOk(inst, other) && c < |inst.contracts|
    ensures |ContractNights(inst, t, c, w)| <= |ContractNights(inst, other, c, w)|
  {
    var x, greedy := XOf(t), BucketNights(inst, XOf(t), c, w);
    forall n | n in ContractNights(inst, t, c, w) ensures n in greedy.Values {
      var i :| 0 <= i < |t| && t[i].activity < |inst.activities|
               && inst.activities[t[i].activity].contract == c && t[i].week == w && t[i].night == n;
      NightOfAccess(inst, x, t, i);
    }
    CardLe(ContractNights(inst, t, c, w), greedy.Values);
    var m := RecordedNights(inst, other, c, w);
    RecordedWithin(inst, other, c, w, m);
    BucketMembersKnown(inst, x, c, w);
    NightsMinimal(inst, inst.contracts[c], Bucket(inst, x, c, w), m);
  }

  lemma BucketMembersKnown(inst: Instance, x: Grid, c: nat, w: int)
    requires Wellformed(inst)
    ensures Members(inst, Bucket(inst, x, c, w))
  {
    forall a | a in Bucket(inst, x, c, w) ensures inst.activities[a].contract < |inst.contracts| {
      assert ValidActivity(inst, inst.activities[a]);
    }
  }

  /** Legal nights exist exactly when every contract-week's load fits nights x workfronts. */
  lemma AssignableExact(inst: Instance, s: seq<Access>)
    requires Ready(inst, s)
    ensures Assignable(inst, s) <==> WeeklyAllocation(inst, XOf(s))
  {
    if WeeklyAllocation(inst, XOf(s)) {
      forall i | 0 <= i < |s| ensures (s[i].activity, s[i].week) in XOf(s) { AccessIn(s, i); }
      var t := seq(|s|, i requires 0 <= i < |s| =>
        s[i].(night := NightAt(inst, XOf(s), s[i].activity, s[i].week)));
      SameButNightsKeeps(s, t);
      NightsHold(inst, XOf(s), t);
    }
    if t :| SameButNights(s, t) && NightsLegal(inst, t) {
      SameButNightsKeeps(s, t);
      forall c: nat, w | c < |inst.contracts| && 1 <= w <= inst.weeks
        ensures |Bucket(inst, XOf(s), c, w)| <= inst.contracts[c].maxPerWeek * inst.contracts[c].workfronts
      {
        BucketFits(inst, t, c, w);
      }
    }
  }

  lemma OverloadedWeek(inst: Instance, s: seq<Access>, key: NightKey, i: nat)
    requires Ready(inst, s) && i < |s| && KeyOf(inst, s[i]) == key && !KeyFits(inst, s, key)
    ensures !WeeklyAllocation(inst, XOf(s))
  {
    AccessIn(s, i);
    assert key.0 < |inst.contracts| && 1 <= key.2 <= inst.weeks;
  }

  lemma AllBucketsFit(inst: Instance, s: seq<Access>, bucket: map<NightKey, seq<nat>>)
    requires Ready(inst, s) && Bucketed(inst, s, |s|, bucket)
    requires forall key :: key in bucket ==> KeyFits(inst, s, key)
    ensures WeeklyAllocation(inst, XOf(s))
  {
    forall c: nat, w | c < |inst.contracts| && 1 <= w <= inst.weeks
      ensures |Bucket(inst, XOf(s), c, w)| <= inst.contracts[c].maxPerWeek * inst.contracts[c].workfronts
    {
      var b := Bucket(inst, XOf(s), c, w);
      if b != {} {
        var a := Pick(b);
        var i := AccessFor(s, a, w);
        assert KeyFits(inst, s, KeyOf(inst, s[i]));
      } else {
        CardPositive(b);
      }
    }
  }

  // --- the plan under construction -----------------------------------------------------------------

  class WorkingPlan {
    var accesses: seq<Access>
    var slots: Slots
    var slotsUsed: map<Cell, int>

    constructor ()
      ensures accesses == [] && slots == map[] && slotsUsed == map[]
    {
      accesses, slots, slotsUsed := [], map[], map[];
    }

    /** Appends one access per true x[a][w], by activity and then week. */
    method Extract(inst: Instance, sol: Solution)
      requires accesses == []
      modifies this`accesses
      ensures accesses == Extracted(sol.x, sol.e, |inst.activities|, inst.weeks)
    {
      for a := 0 to |inst.activities|
        invariant accesses == Extracted(sol.x, sol.e, a, inst.weeks)
      {
        for w := 0 to inst.weeks
          invariant accesses == Extracted(sol.x, sol.e, a, inst.weeks) + ExtractRow(sol.x, sol.e, a, w)
        {
          if (a, w + 1) in sol.x {
            accesses := accesses + [Access(a, w + 1, (a, w + 1) in sol.e, 0, 0)];
          }
        }
      }
    }

    /** Places every access on a night of its contract-week, or reports that some week cannot fit. */
    method AssignAccessNights(inst: Instance) returns (ok: bool)
      requires Ready(inst, accesses)
      modifies this`accesses
      ensures SameButNights(old(accesses), accesses)
      ensures ok <==> WeeklyAllocation(inst, XOf(old(accesses)))
      ensures ok <==> Assignable(inst, old(accesses))
      ensures ok ==> NightsAssigned(inst, XOf(accesses), accesses)
      ensures ok ==> NightsLegal(inst, accesses) && FewestNights(inst, accesses)
      ensures ok ==> NightsInIdOrder(inst, accesses)
    {
      ok, accesses := AssignNights(inst, accesses);
    }

    /** Packs every occupied location-week afresh from the accesses. */
    method ComputeOccupancy(inst: Instance)
      requires Wellformed(inst) && InHorizon(inst, XOf(accesses))
      modifies this`slots, this`slotsUsed
      ensures SlotsOf(inst, XOf(accesses), slots, slotsUsed)
      ensures LabelsInIdOrder(inst, accesses, slots)
    {
      slots, slotsUsed := map[], map[];
      var present := PresentLists(inst, accesses);
      PresentIsCells(inst, XOf(accesses), present);
      slots, slotsUsed := PackAll(inst, present);
      PackedEverywhere(inst, XOf(accesses), present, slots, slotsUsed);
      LabelsSpelled(inst, accesses, slots, slotsUsed);
    }
  }

  lemma PackedEverywhere(inst: Instance, x: Grid, present: map<Cell, seq<nat>>, slots: Slots, used: map<Cell, int>)
    requires Wellformed(inst) && InHorizon(inst, x) && PresentUpTo(inst, x, present)
    requires slots.Keys == present.Keys && used.Keys == present.Keys
    requires forall k :: k in slots && k in used ==> CellPacked(inst, present, k, slots[k], used[k])
    ensures SlotsOf(inst, x, slots, used)
  {
    PresentIsCells(inst, x, present);
    forall k | k in slots
      ensures slots[k] == Packed(inst, At(inst, x, k.0, k.1)) && used[k] == Needed(inst, At(inst, x, k.0, k.1))
    {
      assert CellPacked(inst, present, k, slots[k], used[k]);
    }
  }

  lemma PresentIsCells(inst: Instance, x: Grid, present: map<Cell, seq<nat>>)
    requires Wellformed(inst) && InHorizon(inst, x) && PresentUpTo(inst, x, present)
    ensures present.Keys == Cells(inst, x)
    ensures forall k :: k in present ==> SetOf(present[k]) == At(inst, x, k.0, k.1) && Indices(inst, present[k])
  {
    forall k | k in present ensures Indices(inst, present[k]) {
      PresentIndices(inst, x, k, present[k]);
    }
    forall k ensures k in present <==> k in Cells(inst, x) {
      CellsMember(inst, x, k.0, k.1);
      if k in present {
        var a := present[k][0];
        assert a in SetOf(present[k]);
        assert ValidActivity(inst, inst.activities[a]);
      }
    }
  }

  lemma PresentIndices(inst: Instance, x: Grid, k: Cell, acts: seq<nat>)
    requires Wellformed(inst) && SetOf(acts) == At(inst, x, k.0, k.1)
    ensures Indices(inst, acts)
  {
    forall a | a in acts ensures a < |inst.activities| && inst.activities[a].contract < |inst.contracts| {
      assert a in SetOf(acts);
      assert ValidActivity(inst, inst.activities[a]);
    }
  }
}
