/** The numbering rule over rows: each is numbered one more than the rows before it, and none repeats another. */
module Numbering {
  import opened Model
  import opened Sorting
  import opened Checker
  import opened Soundness
  import opened Rules

  ghost predicate Below(p: (int, int), q: (int, int)) {
    p.0 < q.0 || (p.0 == q.0 && p.1 < q.1)
  }

  /** How many entries lie below q. */
  ghost function CountBelow(v: seq<(int, int)>, q: (int, int)): nat {
    if v == [] then 0 else (if Below(v[0], q) then 1 else 0) + CountBelow(v[1..], q)
  }

  lemma {:induction false} CountBelowSnoc(v: seq<(int, int)>, p: (int, int), q: (int, int))
    ensures CountBelow(v + [p], q) == CountBelow(v, q) + if Below(p, q) then 1 else 0
  {
    if v == [] {
      assert v + [p] == [p];
    } else {
      assert (v + [p])[1..] == v[1..] + [p];
      CountBelowSnoc(v[1..], p, q);
    }
  }

  lemma {:induction false} CountBelowInsert(v: seq<(int, int)>, p: (int, int), q: (int, int))
    ensures CountBelow(Insert(v, p, PairLe), q) == CountBelow(v, q) + if Below(p, q) then 1 else 0
  {
    if v != [] && !PairLe(p, v[0]) { CountBelowInsert(v[1..], p, q); }
  }

  lemma {:induction false} CountBelowSorted(v: seq<(int, int)>, q: (int, int))
    ensures CountBelow(Sorted(v, PairLe), q) == CountBelow(v, q)
  {
    if v != [] {
      CountBelowSorted(v[1..], q);
      CountBelowInsert(Sorted(v[1..], PairLe), v[0], q);
    }
  }

  /** In a sorted list without repeats k entries lie below the k-th. */
  lemma {:induction false} CountIsPosition(r: seq<(int, int)>, k: nat, q: (int, int))
    requires k <= |r|
    requires (forall j :: 0 <= j < k ==> Below(r[j], q)) && forall j :: k <= j < |r| ==> !Below(r[j], q)
    ensures CountBelow(r, q) == k
  {
    if r != [] { CountIsPosition(r[1..], if k == 0 then 0 else k - 1, q); }
  }

  ghost predicate Unrepeated(v: seq<(int, int)>) {
    forall i, j :: 0 <= i < j < |v| ==> v[i] != v[j]
  }

  ghost predicate EachOneMore(v: seq<(int, int)>) {
    forall q :: q in v ==> q.1 == 1 + CountBelow(v, q)
  }

  lemma SortedPlaces(v: seq<(int, int)>, r: seq<(int, int)>)
    requires r == Sorted(v, PairLe) && Unrepeated(r)
    ensures forall k :: 0 <= k < |r| ==> CountBelow(v, r[k]) == k
  {
    PairOrder();
    SortedIsSorted(v, PairLe);
    forall k | 0 <= k < |r| ensures CountBelow(v, r[k]) == k {
      CountBelowSorted(v, r[k]);
      forall j | 0 <= j < k ensures Below(r[j], r[k]) { assert PairLe(r[j], r[k]) && r[j] != r[k]; }
      forall j | k <= j < |r| ensures !Below(r[j], r[k]) { assert j == k || PairLe(r[k], r[j]); }
      CountIsPosition(r, k, r[k]);
    }
  }

  /** Sorted numbers run 1, 2, 3, ... exactly when none repeats and each is one more than the entries below it. */
  lemma InOrderExact(v: seq<(int, int)>)
    ensures NumberedInOrder(v) <==> Unrepeated(v) && EachOneMore(v)
  {
    var r := Sorted(v, PairLe);
    forall q ensures q in r <==> q in v { SameMembers(v, r, q); }
    if NumberedInOrder(v) { Sorting.NoRepeats(r, v); }
    if Unrepeated(v) {
      Sorting.NoRepeats(v, r);
      SortedPlaces(v, r);
      if EachOneMore(v) {
        forall k | 0 <= k < |r| ensures r[k].1 == k + 1 { assert r[k] in r; }
      }
      if NumberedInOrder(v) {
        forall q | q in v ensures q.1 == 1 + CountBelow(v, q) {
          assert q in r;
          var k :| 0 <= k < |r| && r[k] == q;
        }
      }
    }
  }

  // --- the rows ----------------------------------------------------------------------------------

  ghost function RowsBelow(s: seq<Access>, a: nat, q: (int, int)): set<int> {
    set j | 0 <= j < |s| && s[j].activity == a && Below((s[j].week, s[j].accessSeq), q)
  }

  lemma {:induction false} RowsCounted(s: seq<Access>, a: nat, q: (int, int))
    ensures |RowsBelow(s, a, q)| == CountBelow(Numbers(s, a), q)
  {
    if s != [] {
      var t, z := s[..|s| - 1], s[|s| - 1];
      RowsCounted(t, a, q);
      if z.activity == a {
        CountBelowSnoc(Numbers(t, a), (z.week, z.accessSeq), q);
      } else {
        assert Numbers(s, a) == Numbers(t, a);
      }
      var mine := z.activity == a && Below((z.week, z.accessSeq), q);
      assert RowsBelow(s, a, q) == RowsBelow(t, a, q) + if mine then {|t| as int} else {};
    }
  }

  lemma {:induction false} RepeatsListed(s: seq<Access>, a: nat)
    ensures RepeatedNumber(s, a) <==> !Unrepeated(Numbers(s, a))
  {
    if s != [] {
      var t, z := s[..|s| - 1], s[|s| - 1];
      var p := (z.week, z.accessSeq);
      RepeatsListed(t, a);
      RepeatSnoc(s, a);
      if z.activity == a {
        NumbersMembers(t, a, p);
        UnrepeatedSnoc(Numbers(t, a), p);
      } else {
        assert Numbers(s, a) == Numbers(t, a);
      }
    }
  }

  lemma UnrepeatedSnoc(v: seq<(int, int)>, p: (int, int))
    ensures Unrepeated(v + [p]) <==> Unrepeated(v) && p !in v
  {
    var u := v + [p];
    if Unrepeated(u) {
      forall i, j | 0 <= i < j < |v| ensures v[i] != v[j] { assert u[i] != u[j]; }
      assert forall i :: 0 <= i < |v| ==> u[i] == v[i] && u[i] != u[|v|];
    }
  }

  /** A row of activity a gives this week and number. */
  ghost predicate Seen(s: seq<Access>, a: nat, p: (int, int)) {
    exists i :: 0 <= i < |s| && s[i].activity == a && p == (s[i].week, s[i].accessSeq)
  }

  lemma RepeatSnoc(s: seq<Access>, a: nat)
    requires s != []
    ensures var t, z := s[..|s| - 1], s[|s| - 1];
      RepeatedNumber(s, a) <==> RepeatedNumber(t, a) || (z.activity == a && Seen(t, a, (z.week, z.accessSeq)))
  {
    var t, z := s[..|s| - 1], s[|s| - 1];
    if RepeatedNumber(s, a) {
      var i, j :| 0 <= i < j < |s| && s[i].activity == a && s[j].activity == a
        && s[i].week == s[j].week && s[i].accessSeq == s[j].accessSeq;
      assert t[i] == s[i];
      if j < |t| { assert t[j] == s[j]; }
    }
    if RepeatedNumber(t, a) {
      var i, j :| 0 <= i < j < |t| && t[i].activity == a && t[j].activity == a
        && t[i].week == t[j].week && t[i].accessSeq == t[j].accessSeq;
      assert t[i] == s[i] && t[j] == s[j];
    }
    if z.activity == a && Seen(t, a, (z.week, z.accessSeq)) {
      var i :| 0 <= i < |t| && t[i].activity == a && (z.week, z.accessSeq) == (t[i].week, t[i].accessSeq);
      assert t[i] == s[i];
    }
  }

  lemma WrongIsListed(s: seq<Access>, a: nat)
    ensures WrongNumber(s, a) <==> !EachOneMore(Numbers(s, a))
  {
    var v := Numbers(s, a);
    forall i | 0 <= i < |s| && s[i].activity == a
      ensures |RowsBefore(s, i)| == CountBelow(v, (s[i].week, s[i].accessSeq))
      ensures (s[i].week, s[i].accessSeq) in v
    {
      var q := (s[i].week, s[i].accessSeq);
      RowsCounted(s, a, q);
      assert RowsBefore(s, i) == RowsBelow(s, a, q);
      NumbersMembers(s, a, q);
    }
    forall q | q in v ensures exists i :: 0 <= i < |s| && s[i].activity == a && q == (s[i].week, s[i].accessSeq) {
      NumbersMembers(s, a, q);
    }
  }

  /** The rule as the checker applies it, by sorting, is the rule over rows. */
  lemma NumberingSpelled(s: seq<Access>, a: nat)
    ensures !NumberedInOrder(Numbers(s, a)) <==> WrongNumber(s, a) || RepeatedNumber(s, a)
  {
    InOrderExact(Numbers(s, a));
    RepeatsListed(s, a);
    WrongIsListed(s, a);
  }
}
