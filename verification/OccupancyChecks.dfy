/** The checker's passes over the occupancy: exact spans, and closures from the emitted rows alone. */
module OccupancyChecks {
  import opened Counting
  import opened Model
  import opened Plans
  import opened Checker
  import opened Soundness
  import opened Scoring
  import opened Violations
  import opened Rules

  type Bookings = map<(nat, int), set<nat>>

  ghost predicate BookedAt(b: Bookings, a: nat, l: nat, w: int) {
    (a, w) in b && l in b[(a, w)]
  }

  /** Adds one location-week's activities to the bookings. */
  method BookCell(before: Bookings, k: Cell, m: map<nat, int>) returns (b: Bookings)
    ensures forall a: nat, l: nat, w: int :: BookedAt(b, a, l, w) <==>
        (BookedAt(before, a, l, w) || (a in m && (l, w) == k))
    ensures (forall p :: p in before ==> before[p] != {}) ==> forall p :: p in b ==> b[p] != {}
  {
    b := before;
    var todo := m.Keys;
    while todo != {}
      invariant todo <= m.Keys
      invariant forall a: nat, l: nat, w: int :: BookedAt(b, a, l, w) <==>
                  (BookedAt(before, a, l, w) || (a in m.Keys - todo && (l, w) == k))
      invariant (forall p :: p in before ==> before[p] != {}) ==> forall p :: p in b ==> b[p] != {}
      decreases todo
    {
      var a: nat :| a in todo;
      todo := todo - {a};
      b := b[(a, k.1) := (if (a, k.1) in b then b[(a, k.1)] else {}) + {k.0}];
    }
  }

  /** The locations each activity books in each week. */
  method CollectBookings(slots: Slots) returns (b: Bookings)
    ensures forall a: nat, l: nat, w: int :: BookedAt(b, a, l, w) <==> PresentAt(slots, a, l, w)
    ensures forall p :: p in b ==> b[p] != {}
  {
    b := map[];
    var todo := slots.Keys;
    while todo != {}
      invariant todo <= slots.Keys
      invariant forall a: nat, l: nat, w: int :: BookedAt(b, a, l, w) <==>
          (PresentAt(slots, a, l, w) && (l, w) !in todo)
      invariant forall p :: p in b ==> b[p] != {}
      decreases todo
    {
      var k: Cell :| k in todo;
      todo := todo - {k};
      b := BookCell(b, k, slots[k]);
    }
  }

  lemma PresentIsBooked(slots: Slots, b: Bookings, a: nat, w: int)
    requires forall a: nat, l: nat, w: int :: BookedAt(b, a, l, w) <==> PresentAt(slots, a, l, w)
    requires forall p :: p in b ==> b[p] != {}
    ensures (a, w) in b <==> Present(slots, a, w)
  {
    if (a, w) in b {
      var l := Pick(b[(a, w)]);
      assert BookedAt(b, a, l, w);
    }
    if Present(slots, a, w) {
      var l: nat :| PresentAt(slots, a, l, w);
      assert BookedAt(b, a, l, w);
    }
  }

  lemma BookedSpan(inst: Instance, slots: Slots, b: Bookings, a: nat, w: int)
    requires a < |inst.activities|
    requires forall a: nat, l: nat, w: int :: BookedAt(b, a, l, w) <==> PresentAt(slots, a, l, w)
    ensures BooksSpan(inst, slots, a, w) <==>
      (if (a, w) in b then b[(a, w)] else {}) == set l | l in inst.activities[a].occupied
  {
    var got, want := if (a, w) in b then b[(a, w)] else {}, set l | l in inst.activities[a].occupied;
    assert forall l: nat :: l in got <==> BookedAt(b, a, l, w);
    if BooksSpan(inst, slots, a, w) {
      forall l: nat ensures l in got <==> l in want {
        assert BookedAt(b, a, l, w) <==> PresentAt(slots, a, l, w);
      }
      assert got == want;
    }
    if got == want {
      forall l: nat ensures PresentAt(slots, a, l, w) <==> l in inst.activities[a].occupied {
        assert l in got <==> l in want;
        assert BookedAt(b, a, l, w) <==> PresentAt(slots, a, l, w);
      }
    }
  }

  ghost predicate OccupancyBreach(inst: Instance, x: Grid, slots: Slots, v: Violation) {
    match v
    case WrongSpan(a, w) => (a, w) in x && a < |inst.activities| && !BooksSpan(inst, slots, a, w)
    case StrayBooking(a, w) => Present(slots, a, w) && (a, w) !in x
    case _ => false
  }

  lemma InGrid(inst: Instance, s: seq<Access>, k: (nat, int))
    requires AccessesInRange(inst, s) && k in XOf(s)
    ensures k.0 < |inst.activities|
  {
    var i := AccessFor(s, k.0, k.1);
  }

  ghost predicate BookingsOf(slots: Slots, b: Bookings) {
    && (forall a: nat, l: nat, w: int :: BookedAt(b, a, l, w) <==> PresentAt(slots, a, l, w))
    && (forall p :: p in b ==> b[p] != {})
  }

  /** Every access books exactly its span. */
  method CheckSpans(inst: Instance, perWeek: map<(nat, int), nat>, ghost slots: Slots, b: Bookings)
    returns (vs: seq<Violation>)
    requires BookingsOf(slots, b) && forall k :: k in perWeek ==> k.0 < |inst.activities|
    ensures forall v :: v in vs <==>
      (v.WrongSpan? && (v.activity, v.week) in perWeek && v.activity < |inst.activities|
       && !BooksSpan(inst, slots, v.activity, v.week))
  {
    vs := [];
    var todo := perWeek.Keys;
    while todo != {}
      invariant todo <= perWeek.Keys
      invariant forall v :: v in vs <==>
        (v.WrongSpan? && (v.activity, v.week) in perWeek.Keys - todo && v.activity < |inst.activities|
         && !BooksSpan(inst, slots, v.activity, v.week))
      decreases todo
    {
      var k: (nat, int) :| k in todo;
      todo := todo - {k};
      var span := inst.activities[k.0].occupied;
      var got, want := if k in b then b[k] else {}, set l | l in span;
      BookedSpan(inst, slots, b, k.0, k.1);
      if got != want { vs := vs + [WrongSpan(k.0, k.1)]; }
    }
  }

  /** Every booking has its access. */
  method CheckStray(perWeek: map<(nat, int), nat>, ghost slots: Slots, b: Bookings) returns (vs: seq<Violation>)
    requires BookingsOf(slots, b)
    ensures forall v :: v in vs <==>
      (v.StrayBooking? && Present(slots, v.activity, v.week) && (v.activity, v.week) !in perWeek)
  {
    vs := [];
    var left := b.Keys;
    while left != {}
      invariant left <= b.Keys
      invariant forall v :: v in vs <==>
        (v.StrayBooking? && (v.activity, v.week) in b.Keys - left && (v.activity, v.week) !in perWeek)
      decreases left
    {
      var k: (nat, int) :| k in left;
      left := left - {k};
      if k !in perWeek { vs := vs + [StrayBooking(k.0, k.1)]; }
    }
    forall a: nat, w ensures (a, w) in b <==> Present(slots, a, w) { PresentIsBooked(slots, b, a, w); }
  }

  lemma OccupancySpelled(inst: Instance, s: seq<Access>, slots: Slots, v: Violation)
    ensures OccupancyBreach(inst, XOf(s), slots, v) <==> OccupancyRuleBroken(inst, s, slots, v)
  {
    forall a: nat, l: nat, w: int ensures PresentAt(slots, a, l, w) <==> Held(slots, a, l, w) {}
    match v
    case WrongSpan(a, w) =>
      if a < |inst.activities| {
        assert BooksSpan(inst, slots, a, w) <==>
          forall l: nat :: Held(slots, a, l, w) == (l in inst.activities[a].occupied);
      }
    case _ =>
  }

  lemma OccupancyVerdict(inst: Instance, s: seq<Access>, slots: Slots, vs: seq<Violation>)
    requires AccessesInRange(inst, s)
    requires forall v :: v in vs <==> OccupancyBreach(inst, XOf(s), slots, v)
    ensures vs == [] <==> OccupancyOk(inst, s, slots)
  {
    if vs == [] {
      forall i | 0 <= i < |s| && s[i].activity < |inst.activities|
        ensures BooksSpan(inst, slots, s[i].activity, s[i].week)
      {
        AccessIn(s, i);
        assert WrongSpan(s[i].activity, s[i].week) !in vs;
      }
      forall k, a | k in slots && a in slots[k] ensures (a, k.1) in XOf(s) {
        var l, w := k.0, k.1;
        assert k == (l, w) && PresentAt(slots, a, l, w) && StrayBooking(a, w) !in vs;
      }
    } else {
      assert vs[0] in vs;
      if vs[0].WrongSpan? {
        var i := AccessFor(s, vs[0].activity, vs[0].week);
      } else {
        var a, w := vs[0].activity, vs[0].week;
        var l: nat :| PresentAt(slots, a, l, w);
        var k := (l, w);
        assert k in slots && a in slots[k];
      }
    }
  }

  /** Every access books exactly its span, and every booking has its access. */
  method CheckOccupancy(inst: Instance, ghost s: seq<Access>, perWeek: map<(nat, int), nat>, slots: Slots)
    returns (vs: seq<Violation>)
    requires AccessesInRange(inst, s) && forall k :: k in perWeek <==> k in XOf(s)
    ensures forall v :: v in vs <==> OccupancyBreach(inst, XOf(s), slots, v)
    ensures forall v :: v in vs <==> OccupancyRuleBroken(inst, s, slots, v)
    ensures vs == [] <==> OccupancyOk(inst, s, slots)
  {
    forall v ensures OccupancyBreach(inst, XOf(s), slots, v) <==> OccupancyRuleBroken(inst, s, slots, v) {
      OccupancySpelled(inst, s, slots, v);
    }
    forall k | k in perWeek ensures k.0 < |inst.activities| { InGrid(inst, s, k); }
    var b := CollectBookings(slots);
    vs := CheckSpans(inst, perWeek, slots, b);
    var more := CheckStray(perWeek, slots, b);
    vs := vs + more;
    OccupancyVerdict(inst, s, slots, vs);
  }

  // --- closures -------------------------------------------------------------------------------------------

  /** The first location of the zone outside its owner's worksite and inside the other's. */
  method FindHit(zone: seq<nat>, own: seq<nat>, other: seq<nat>) returns (hit: bool)
    ensures hit <==> Hit(zone, own, other)
  {
    hit := false;
    for i := 0 to |zone|
      invariant hit <==> Hit(zone[..i], own, other)
    {
      assert zone[..i + 1] == zone[..i] + [zone[i]];
      if zone[i] !in own && zone[i] in other { hit := true; }
    }
    assert zone[..|zone|] == zone;
  }

  method FindClash(a: Activity, b: Activity) returns (clash: bool)
    ensures clash <==> Clash(a, b)
  {
    clash := FindHit(a.closure, a.occupied, b.occupied);
    if !clash { clash := FindHit(b.closure, b.occupied, a.occupied); }
    if !clash && a.carriesBuffer && b.carriesBuffer {
      clash := FindHit(a.bufferZone, a.occupied, b.occupied);
      if !clash { clash := FindHit(b.bufferZone, b.occupied, a.occupied); }
    }
  }

  /** Whether two present activities share a possession, or a location on different nights. */
  method FindShared(slots: Slots, b: Bookings, i: nat, j: nat, w: int) returns (same: bool, different: bool)
    requires BookingsOf(slots, b) && (i, w) in b && (j, w) in b
    ensures (same || different) <==> SharesLocation(slots, i, j, w)
  {
    same, different := false, false;
    var todo := b[(i, w)];
    while todo != {}
      invariant todo <= b[(i, w)]
      invariant (same || different) <==> exists l :: l in b[(i, w)] - todo && l in b[(j, w)]
      decreases todo
    {
      var l: nat :| l in todo;
      todo := todo - {l};
      if l in b[(j, w)] {
        assert BookedAt(b, i, l, w) && BookedAt(b, j, l, w);
        if slots[(l, w)][i] == slots[(l, w)][j] { same := true; } else { different := true; }
      }
    }
    SharedIsBooked(slots, b, i, j, w);
  }

  lemma SharedIsBooked(slots: Slots, b: Bookings, i: nat, j: nat, w: int)
    requires BookingsOf(slots, b) && (i, w) in b && (j, w) in b
    ensures SharesLocation(slots, i, j, w) <==> exists l :: l in b[(i, w)] && l in b[(j, w)]
  {
    forall l: nat
      ensures (PresentAt(slots, i, l, w) && PresentAt(slots, j, l, w)) <==> (l in b[(i, w)] && l in b[(j, w)])
    {
      assert BookedAt(b, i, l, w) <==> PresentAt(slots, i, l, w);
      assert BookedAt(b, j, l, w) <==> PresentAt(slots, j, l, w);
    }
  }

  /** The pairs of week w in which the first activity is a. */
  method CheckPairs(inst: Instance, slots: Slots, b: Bookings, w: int, a: nat) returns (vs: seq<Violation>)
    requires BookingsOf(slots, b) && a < |inst.activities|
    ensures forall v :: v in vs <==>
        (v.ClosureClash? && v.week == w && v.a == a && ClosureBreach(inst, slots, w, a, v.b))
  {
    vs := [];
    PresentIsBooked(slots, b, a, w);
    if (a, w) !in b { return; }
    for j := a + 1 to |inst.activities|
      invariant forall v :: v in vs <==>
        (v.ClosureClash? && v.week == w && v.a == a && v.b < j && ClosureBreach(inst, slots, w, a, v.b))
    {
      PresentIsBooked(slots, b, j, w);
      if (j, w) in b {
        var same, different := FindShared(slots, b, a, j, w);
        if !same && !different {
          var clash := FindClash(inst.activities[a], inst.activities[j]);
          if clash { vs := vs + [ClosureClash(w, a, j)]; }
        }
      }
    }
  }

  lemma HitSpelled(zone: seq<nat>, own: seq<nat>, other: seq<nat>)
    ensures Hit(zone, own, other) <==> Reached(zone, own, other)
  {
    if Hit(zone, own, other) {
      var l :| l in zone && l !in own && l in other;
      var i :| 0 <= i < |zone| && zone[i] == l;
      var j :| 0 <= j < |other| && other[j] == l;
    }
  }

  lemma IntrusionSpelled(p: Activity, q: Activity)
    ensures Clash(p, q) <==> Intrudes(p, q)
  {
    HitSpelled(p.closure, p.occupied, q.occupied);
    HitSpelled(q.closure, q.occupied, p.occupied);
    HitSpelled(p.bufferZone, p.occupied, q.occupied);
    HitSpelled(q.bufferZone, q.occupied, p.occupied);
  }

  lemma ClosureSpelled(inst: Instance, slots: Slots, w: int, a: nat, b: nat)
    ensures ClosureBreach(inst, slots, w, a, b) <==> ClosureRuleBroken(inst, slots, w, a, b)
  {
    forall c: nat, l: nat ensures PresentAt(slots, c, l, w) <==> Held(slots, c, l, w) {}
    if a < |inst.activities| && b < |inst.activities| { IntrusionSpelled(inst.activities[a], inst.activities[b]); }
  }

  lemma ClosuresVerdict(inst: Instance, slots: Slots, vs: seq<Violation>)
    requires forall v :: v in vs <==> (v.ClosureClash? && ClosureBreach(inst, slots, v.week, v.a, v.b))
    ensures vs == [] <==> ClosureOk(inst, slots)
  {
    if vs == [] {
      forall w, a: nat, b: nat ensures !ClosureBreach(inst, slots, w, a, b) {
        assert ClosureClash(w, a, b) !in vs;
      }
    } else {
      assert vs[0] in vs;
    }
  }

  /** Rule 4 from the emitted occupancy alone: no possession inside another's closure or buffer. */
  method CheckClosures(inst: Instance, slots: Slots) returns (vs: seq<Violation>)
    requires forall k :: k in slots ==> 1 <= k.1 <= inst.weeks
    ensures forall v :: v in vs <==> (v.ClosureClash? && ClosureBreach(inst, slots, v.week, v.a, v.b))
    ensures forall v :: v in vs <==> (v.ClosureClash? && ClosureRuleBroken(inst, slots, v.week, v.a, v.b))
    ensures vs == [] <==> ClosureOk(inst, slots)
  {
    forall w, a: nat, b: nat ensures ClosureBreach(inst, slots, w, a, b) <==> ClosureRuleBroken(inst, slots, w, a, b) {
      ClosureSpelled(inst, slots, w, a, b);
    }
    var b := CollectBookings(slots);
    vs := [];
    for w := 1 to inst.weeks + 1
      invariant forall v :: v in vs <==>
          (v.ClosureClash? && 1 <= v.week < w && ClosureBreach(inst, slots, v.week, v.a, v.b))
    {
      for a := 0 to |inst.activities|
        invariant forall v :: v in vs <==>
          (v.ClosureClash? && ClosureBreach(inst, slots, v.week, v.a, v.b)
           && (1 <= v.week < w || (v.week == w && v.a < a)))
      {
        var more := CheckPairs(inst, slots, b, w, a);
        vs := vs + more;
      }
    }
    forall w, i: nat | Present(slots, i, w) ensures 1 <= w <= inst.weeks {
      var l: nat :| PresentAt(slots, i, l, w);
      var k := (l, w);
      assert k in slots;
    }
    ClosuresVerdict(inst, slots, vs);
  }
}
