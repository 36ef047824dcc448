/** Sorting a sequence under a caller's order: the library sort the source relies on. */
module Sorting {

  ghost predicate TotalPreorder<T(!new)>(le: (T, T) -> bool) {
    && (forall a, b :: le(a, b) || le(b, a))
    && (forall a, b, c :: le(a, b) && le(b, c) ==> le(a, c))
  }

  ghost predicate SortedBy<T>(s: seq<T>, le: (T, T) -> bool) {
    forall i, j :: 0 <= i < j < |s| ==> le(s[i], s[j])
  }

  function Insert<T>(s: seq<T>, x: T, le: (T, T) -> bool): (r: seq<T>)
    ensures multiset(r) == multiset(s) + multiset{x}
    ensures |r| == |s| + 1
  {
    if s == [] then [x]
    else if le(x, s[0]) then assert s == [s[0]] + s[1..]; [x] + s
    else
      assert s == [s[0]] + s[1..];
      [s[0]] + Insert(s[1..], x, le)
  }

  function Sorted<T>(s: seq<T>, le: (T, T) -> bool): (r: seq<T>)
    ensures multiset(r) == multiset(s)
    ensures |r| == |s|
  {
    if s == [] then []
    else
      assert s == [s[0]] + s[1..];
      Insert(Sorted(s[1..], le), s[0], le)
  }

  lemma SameMembers<T>(s: seq<T>, r: seq<T>, x: T)
    requires multiset(s) == multiset(r)
    ensures x in s <==> x in r
  {
    assert x in multiset(s) <==> x in multiset(r);
  }

  lemma {:induction false} InsertSorted<T(!new)>(s: seq<T>, x: T, le: (T, T) -> bool)
    requires TotalPreorder(le) && SortedBy(s, le)
    ensures SortedBy(Insert(s, x, le), le)
  {
    if s != [] && !le(x, s[0]) {
      InsertSorted(s[1..], x, le);
      var r := Insert(s[1..], x, le);
      forall j | 0 <= j < |r| ensures le(s[0], r[j]) {
        assert r[j] in multiset(r);
        if r[j] != x {
          assert r[j] in multiset(s[1..]);
          var k :| 0 <= k < |s[1..]| && s[1..][k] == r[j];
          assert le(s[0], s[k + 1]);
        }
      }
    }
  }

  lemma {:induction false} SortedIsSorted<T(!new)>(s: seq<T>, le: (T, T) -> bool)
    requires TotalPreorder(le)
    ensures SortedBy(Sorted(s, le), le)
  {
    if s != [] {
      SortedIsSorted(s[1..], le);
      InsertSorted(Sorted(s[1..], le), s[0], le);
    }
  }

  lemma {:induction false} InsertExt<T(!new)>(s: seq<T>, x: T, le: (T, T) -> bool, le': (T, T) -> bool)
    requires forall a, b :: le(a, b) == le'(a, b)
    ensures Insert(s, x, le) == Insert(s, x, le')
  {
    if s != [] { InsertExt(s[1..], x, le, le'); }
  }

  /** Orders that agree everywhere sort alike. */
  lemma {:induction false} SortedExt<T(!new)>(s: seq<T>, le: (T, T) -> bool, le': (T, T) -> bool)
    requires forall a, b :: le(a, b) == le'(a, b)
    ensures Sorted(s, le) == Sorted(s, le')
  {
    if s != [] {
      SortedExt(s[1..], le, le');
      InsertExt(Sorted(s[1..], le), s[0], le, le');
    }
  }

  /** A permutation of a sequence without repeats has none either. */
  lemma NoRepeats<T>(s: seq<T>, r: seq<T>)
    requires multiset(s) == multiset(r)
    requires forall i, j :: 0 <= i < j < |s| ==> s[i] != s[j]
    ensures forall i, j :: 0 <= i < j < |r| ==> r[i] != r[j]
  {
    forall i, j | 0 <= i < j < |r| ensures r[i] != r[j] {
      if r[i] == r[j] {
        RepeatCount(r, i, j);
        OnceCount(s, r[i]);
      }
    }
  }

  lemma RepeatCount<T>(r: seq<T>, i: nat, j: nat)
    requires i < j < |r| && r[i] == r[j]
    ensures multiset(r)[r[i]] >= 2
  {
    assert r == r[..j] + [r[j]] + r[j + 1..];
    assert r[..j][i] in multiset(r[..j]);
  }

  lemma {:induction false} OnceCount<T>(s: seq<T>, x: T)
    requires forall i, j :: 0 <= i < j < |s| ==> s[i] != s[j]
    ensures multiset(s)[x] <= 1
  {
    if s != [] {
      assert s == [s[0]] + s[1..];
      OnceCount(s[1..], x);
      if x == s[0] {
        assert forall k :: 0 <= k < |s[1..]| ==> s[1..][k] == s[k + 1] && s[k + 1] != s[0];
        assert x !in s[1..];
      }
    }
  }
}
