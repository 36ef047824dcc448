/** Cardinalities and the pigeonhole arguments the scheduling proofs rest on. */
module Counting {

  lemma {:induction false} CardLe<T>(a: set<T>, b: set<T>)
    requires a <= b
    ensures |a| <= |b|
    ensures a != b ==> |a| < |b|
  {
    assert b == a + (b - a);
    assert |b| == |a| + |b - a|;
  }

  lemma CardPositive<T>(s: set<T>)
    ensures s == {} <==> |s| == 0
  {
  }

  /** A set split by a two-way partition. */
  lemma CardSplit<T>(s: set<T>, a: set<T>, b: set<T>)
    requires s == a + b && a !! b
    ensures |s| == |a| + |b|
  {
  }

  /** The integers lo, ..., hi - 1. */
  ghost function Range(lo: int, hi: int): (r: set<int>)
    ensures forall k :: k in r <==> lo <= k < hi
    decreases hi - lo
  {
    if lo >= hi then {} else Range(lo, hi - 1) + {hi - 1}
  }

  lemma {:induction false} RangeCard(lo: int, hi: int)
    requires lo <= hi
    ensures |Range(lo, hi)| == hi - lo
    decreases hi - lo
  {
    if lo < hi { RangeCard(lo, hi - 1); }
  }

  ghost function Pick<T>(s: set<T>): (x: T)
    requires s != {}
    ensures x in s
  {
    var x :| x in s; x
  }

  lemma StepProduct(n: nat, b: nat)
    requires n >= 1
    ensures n * b == (n - 1) * b + b
  {
  }

  /** The members of s with label k. */
  ghost function Class<T>(s: set<T>, tag: map<T, int>, k: int): set<T>
    requires s <= tag.Keys
  {
    set a | a in s && tag[a] == k
  }

  lemma OtherClass<T>(s: set<T>, tag: map<T, int>, k: int, j: int)
    requires s <= tag.Keys && j != k
    ensures Class(s - Class(s, tag, k), tag, j) == Class(s, tag, j)
  {
  }

  /** If every label class holds at most b members, the whole holds at most |K| * b. */
  lemma {:induction false} Pigeonhole<T>(s: set<T>, tag: map<T, int>, K: set<int>, b: nat)
    requires s <= tag.Keys
    requires forall a :: a in s ==> tag[a] in K
    requires forall k :: k in K ==> |Class(s, tag, k)| <= b
    ensures |s| <= |K| * b
    decreases K
  {
    if K == {} {
      assert s == {};
    } else {
      var k := Pick(K);
      var here := Class(s, tag, k);
      var rest := s - here;
      forall j | j in K - {k}
        ensures |Class(rest, tag, j)| <= b
      {
        OtherClass(s, tag, k, j);
      }
      Pigeonhole(rest, tag, K - {k}, b);
      CardSplit(s, here, rest);
      StepProduct(|K|, b);
    }
  }

  /** Members with distinct labels drawn from hi - lo values number at most hi - lo. */
  lemma InjectiveCard<T>(s: set<T>, tag: map<T, int>, lo: int, hi: int)
    requires lo <= hi
    requires s <= tag.Keys
    requires forall a :: a in s ==> lo <= tag[a] < hi
    requires forall a, b :: a in s && b in s && a != b ==> tag[a] != tag[b]
    ensures |s| <= hi - lo
  {
    forall k | k in Range(lo, hi)
      ensures |Class(s, tag, k)| <= 1
    {
      var c := Class(s, tag, k);
      if c != {} {
        var a := Pick(c);
        assert c == {a};
      }
    }
    Pigeonhole(s, tag, Range(lo, hi), 1);
    RangeCard(lo, hi);
  }

  /** A map whose values lie in lo .. hi - 1 has at most hi - lo distinct ones. */
  lemma FewValues<T>(m: map<T, int>, lo: int, hi: int)
    requires lo <= hi
    requires forall a :: a in m ==> lo <= m[a] < hi
    ensures m.Values <= Range(lo, hi)
    ensures |m.Values| <= hi - lo
  {
    forall v | v in m.Values ensures v in Range(lo, hi) {
      var a :| a in m && m[a] == v;
    }
    RangeCard(lo, hi);
    CardLe(m.Values, Range(lo, hi));
  }
}
