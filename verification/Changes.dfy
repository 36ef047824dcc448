/** How much a plan changes: the expression the second pass minimises, and the count a result reports. */
module Changes {
  import opened Counting
  import opened Model

  /** The weeks 1..h of activity a that change. */
  ghost function ChurnRow(base: Grid, x: Grid, a: nat, h: nat): int {
    if h == 0 then 0
    else
      var taken := if (a, h) in x then 1 else 0;
      ChurnRow(base, x, a, h - 1) + if (a, h) in base then 1 - taken else taken
  }

  /** The expression minimised by the second pass: 1 - x where the baseline works, x elsewhere. */
  ghost function ChurnExpr(base: Grid, x: Grid, n: nat, h: nat): int {
    if n == 0 then 0 else ChurnExpr(base, x, n - 1, h) + ChurnRow(base, x, n - 1, h)
  }

  ghost function Changed(base: Grid, x: Grid): Grid { (base - x) + (x - base) }

  ghost function ChangedIn(base: Grid, x: Grid, n: nat, a: nat, w: nat, h: nat): Grid {
    set p | p in Changed(base, x) && ((p.0 < n && 1 <= p.1 <= h) || (p.0 == a && 1 <= p.1 <= w))
  }

  lemma {:induction false} ChurnRowCounts(base: Grid, x: Grid, n: nat, h: nat, w: nat)
    requires w <= h && ChurnExpr(base, x, n, h) == |ChangedIn(base, x, n, n, 0, h)|
    ensures ChurnExpr(base, x, n, h) + ChurnRow(base, x, n, w) == |ChangedIn(base, x, n, n, w, h)|
  {
    if w > 0 {
      ChurnRowCounts(base, x, n, h, w - 1);
      var before, after := ChangedIn(base, x, n, n, w - 1, h), ChangedIn(base, x, n, n, w, h);
      var p: (nat, int) := (n, w);
      assert p !in before;
      if p in Changed(base, x) {
        assert after == before + {p};
      } else {
        assert after == before;
      }
    }
  }

  lemma {:induction false} ChurnCounts(base: Grid, x: Grid, n: nat, h: nat)
    ensures ChurnExpr(base, x, n, h) == |ChangedIn(base, x, n, n, 0, h)|
  {
    if n > 0 {
      ChurnCounts(base, x, n - 1, h);
      ChurnRowCounts(base, x, n - 1, h, h);
      assert ChangedIn(base, x, n, n, 0, h) == ChangedIn(base, x, n - 1, n - 1, h, h);
    } else {
      CardPositive(ChangedIn(base, x, 0, 0, 0, h));
    }
  }

  /** The baseline's activity-weeks the model has variables for. */
  ghost function Modelled(inst: Instance, was: Grid): Grid {
    set p | p in was && p.0 < |inst.activities| && 1 <= p.1 <= inst.weeks
  }

  /** The expression the second pass minimises is the number of activity-weeks that change. */
  lemma ChurnIsDifference(inst: Instance, was: Grid, x: Grid)
    requires InHorizon(inst, x)
    ensures ChurnExpr(Modelled(inst, was), x, |inst.activities|, inst.weeks) + |was - Modelled(inst, was)|
         == Difference(x, was)
  {
    var base, n, h := Modelled(inst, was), |inst.activities|, inst.weeks;
    forall p | p in x ensures p.0 < n && 1 <= p.1 <= h { assert (p.0, p.1) in x; }
    ChurnCounts(base, x, n, h);
    assert ChangedIn(base, x, n, n, 0, h) == Changed(base, x);
    assert |Changed(base, x)| == |base - x| + |x - base|;
    assert x - base == x - was;
    assert was - x == (base - x) + (was - base) && (base - x) !! (was - base);
  }

  /** The activity-weeks only one of two plans takes. */
  ghost function Difference(x: Grid, was: Grid): int {
    |x - was| + |was - x|
  }

  lemma DifferenceFromItself(x: Grid, y: Grid)
    ensures Difference(y, y) == 0 && Difference(x, y) >= 0 && (Difference(x, y) == 0 <==> x == y)
  {
    CardPositive(x - y);
    CardPositive(y - x);
    assert y - y == {};
  }

  lemma DifferenceIsChanged(x: Grid, y: Grid)
    ensures Difference(x, y) == |Changed(y, x)|
  {
  }

  lemma DifferenceSwaps(x: Grid, y: Grid)
    ensures Difference(x, y) == Difference(y, x)
  {
  }

  /** One activity-week taken where it was not, or not taken where it was. */
  ghost function Flip(x: Grid, c: (nat, int)): Grid {
    if c in x then x - {c} else x + {c}
  }

  /** A flip brings a grid one step nearer to those that differ there, and one step away from the others. */
  lemma FlipStep(x: Grid, y: Grid, c: (nat, int))
    ensures Difference(x, Flip(y, c)) == Difference(x, y) + if c in Changed(y, x) then -1 else 1
  {
    DifferenceIsChanged(x, y);
    DifferenceIsChanged(x, Flip(y, c));
    if c in Changed(y, x) {
      assert Changed(y, x) == Changed(Flip(y, c), x) + {c};
    } else {
      assert Changed(Flip(y, c), x) == Changed(y, x) + {c};
    }
  }

  /** Grids one step apart differ by a flip. */
  lemma OneStepIsFlip(x: Grid, y: Grid) returns (c: (nat, int))
    requires Difference(x, y) == 1
    ensures x == Flip(y, c)
  {
    DifferenceIsChanged(x, y);
    c :| c in Changed(y, x);
    FlipStep(x, y, c);
    DifferenceFromItself(x, Flip(y, c));
  }

  /** Seen from anywhere, grids one step apart are at distances one apart. */
  lemma OneStepApart(x: Grid, y: Grid, w: Grid)
    requires Difference(x, y) == 1
    ensures Difference(x, w) == Difference(y, w) + 1 || Difference(x, w) == Difference(y, w) - 1
  {
    var c := OneStepIsFlip(x, y);
    FlipStep(w, y, c);
    DifferenceSwaps(w, y);
    DifferenceSwaps(w, x);
  }

  /** Of two grids equally far from s, one differs from s somewhere the other does not. */
  lemma PlaceOfOne(p: Grid, q: Grid, s: Grid) returns (c: (nat, int))
    requires p != q && Difference(p, s) == Difference(q, s)
    ensures c in Changed(s, q) && c !in Changed(s, p)
  {
    DifferenceIsChanged(p, s);
    DifferenceIsChanged(q, s);
    var d, e := Changed(s, p), Changed(s, q);
    if e <= d {
      CardLe(e, d);
      SameChange(p, q, s);
    }
    c :| c in e && c !in d;
  }

  lemma SameChange(p: Grid, q: Grid, s: Grid)
    requires Changed(s, p) == Changed(s, q)
    ensures p == q
  {
    forall c ensures c in p <==> c in q {
      assert c in Changed(s, p) <==> c in Changed(s, q);
    }
  }

  /** The churn reported for a result: keys only in one of the two plans. */
  method ReportChurn(now: set<(nat, int)>, was: set<(nat, int)>) returns (diff: nat)
    ensures diff == Difference(now, was)
  {
    var added := CountMissing(now, was);
    var removed := CountMissing(was, now);
    diff := added + removed;
  }

  method CountMissing(s: set<(nat, int)>, t: set<(nat, int)>) returns (n: nat)
    ensures n == |s - t|
  {
    n := 0;
    var todo := s;
    while todo != {}
      invariant todo <= s && n == |s - todo - t|
      decreases todo
    {
      var k: (nat, int) :| k in todo;
      MissingStep(s, t, todo, k);
      todo := todo - {k};
      if k !in t { n := n + 1; }
    }
    assert s - todo == s;
  }

  lemma MissingStep(s: Grid, t: Grid, todo: Grid, k: (nat, int))
    requires todo <= s && k in todo
    ensures |s - (todo - {k}) - t| == |s - todo - t| + if k in t then 0 else 1
  {
    var before, after := s - todo - t, s - (todo - {k}) - t;
    if k in t { assert after == before; } else { assert after == before + {k}; }
  }
}
