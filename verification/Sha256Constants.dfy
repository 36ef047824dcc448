/** The SHA-256 constants are fractional parts of roots of primes (sections 4.2.2 and 5.3.3 of FIPS 180-4). */
module Sha256Constants {
  import opened Arithmetic
  import opened Sha256

  const TWO32 := 0x1_0000_0000
  const TWO64 := 0x1_0000_0000_0000_0000
  const TWO96 := 0x1_0000_0000_0000_0000_0000_0000

  /** c and the 32-bit fraction w begin the cube root of p. */
  predicate CubeRoot(p: nat, c: nat, w: nat) {
    var m := c * TWO32 + w;
    m * m * m <= p * TWO96 < (m + 1) * (m + 1) * (m + 1)
  }

  predicate SquareRoot(p: nat, c: nat, w: nat) {
    var m := c * TWO32 + w;
    m * m <= p * TWO64 < (m + 1) * (m + 1)
  }

  lemma CubeRootIs(p: nat, c: nat, w: bv32, n: nat)
    requires w as nat == n && CubeRoot(p, c, n)
    ensures HasCubeRoot(p, w)
  {
    assert CubeRootOf(p, c, w);
  }

  lemma SquareRootIs(p: nat, c: nat, w: bv32, n: nat)
    requires w as nat == n && SquareRoot(p, c, n)
    ensures HasSquareRoot(p, w)
  {
    assert SquareRootOf(p, c, w);
  }

  // --- the primes ------------------------------------------------------------------------------------

  predicate Prime(n: nat) {
    n >= 2 && forall d :: 2 <= d < n ==> n % d != 0
  }

  /** For n below 19 squared: no prime up to 17 is a proper divisor. */
  predicate Unsieved(n: nat) {
    && n >= 2 && (n == 2 || n % 2 != 0) && (n == 3 || n % 3 != 0) && (n == 5 || n % 5 != 0) && (n == 7 || n % 7 != 0)
    && (n == 11 || n % 11 != 0) && (n == 13 || n % 13 != 0) && (n == 17 || n % 17 != 0)
  }

  /** A divisor beyond the square root has a partner below it. */
  lemma Cofactor(n: nat, d: nat) returns (e: nat)
    requires 2 <= d < n && n % d == 0 && d * d > n
    ensures 2 <= e < n && e * e <= n && n % e == 0
  {
    e := n / d;
    assert n == e * d;
    if e < 2 { SmallProduct(e, d); }
    if e >= d { MulMore(d, d, e); }
    MulMore(e, e, d);
    MultipleModulo(d, e);
  }

  lemma SmallProduct(e: nat, d: nat)
    requires e < 2
    ensures e * d <= d
  {
  }

  lemma MultipleModulo(d: nat, e: nat)
    requires e > 0
    ensures (e * d) % e == 0
  {
    assert e * d == d * e;
    QuotientIs(e * d, e, d, 0);
  }

  lemma SmallDivisor(n: nat, e: nat)
    requires 2 <= e <= 18 && e < n && n % e == 0
    ensures !Unsieved(n)
  {
    if e % 2 == 0 {
      EvenMultiple(n, e);
    } else if e == 9 {
      NinthMultiple(n);
    } else if e == 15 {
      FifteenthMultiple(n);
    }
  }

  lemma EvenMultiple(n: nat, e: nat)
    requires e > 0 && e % 2 == 0 && n % e == 0
    ensures n % 2 == 0
  {
    assert n == e * (n / e) && e == 2 * (e / 2);
    assert n == 2 * (e / 2 * (n / e));
  }

  lemma NinthMultiple(n: nat)
    requires n % 9 == 0
    ensures n % 3 == 0
  {
    assert n == n / 9 * 3 * 3;
    QuotientIs(n, 3, n / 9 * 3, 0);
  }

  lemma FifteenthMultiple(n: nat)
    requires n % 15 == 0
    ensures n % 3 == 0
  {
    assert n == n / 15 * 5 * 3;
    QuotientIs(n, 3, n / 15 * 5, 0);
  }

  /** Sieving by the primes up to 17 decides primality below 19 squared. */
  lemma SieveDecides(n: nat)
    requires 2 <= n < 361
    ensures Unsieved(n) <==> Prime(n)
  {
    if Unsieved(n) {
      forall d | 2 <= d < n ensures n % d != 0 {
        if n % d == 0 {
          var e := d;
          if d * d > n { e := Cofactor(n, d); }
          if e >= 19 { MulMore(e, 19, e); }
          SmallDivisor(n, e);
        }
      }
    }
  }

  predicate Ascends(s: seq<nat>) {
    forall i, j :: 0 <= i < j < |s| ==> s[i] < s[j]
  }

  /** ps lists the primes from lo below hi, ascending. */
  ghost predicate ListsPrimes(ps: seq<nat>, lo: nat, hi: nat) {
    Ascends(ps) && forall p: nat :: p in ps <==> lo <= p < hi && Prime(p)
  }

  lemma ListsPrimesAppend(ps: seq<nat>, qs: seq<nat>, lo: nat, mid: nat, hi: nat)
    requires lo <= mid <= hi && ListsPrimes(ps, lo, mid) && ListsPrimes(qs, mid, hi)
    ensures ListsPrimes(ps + qs, lo, hi)
  {
    forall i, j | 0 <= i < j < |ps + qs| ensures (ps + qs)[i] < (ps + qs)[j] {
      if i < |ps| <= j { assert ps[i] in ps && qs[j - |ps|] in qs; }
    }
  }

  /** The k numbers after p fall to the sieve. */
  predicate Composites(p: nat, k: nat) {
    k == 0 || (!Unsieved(p + k) && Composites(p, k - 1))
  }

  lemma {:induction false} CompositesMeans(p: nat, k: nat, n: nat)
    requires Composites(p, k) && p < n <= p + k
    ensures !Unsieved(n)
  {
    if n < p + k { CompositesMeans(p, k - 1, n); }
  }

  /** q is the next number after p, itself unsieved, that the sieve may leave. */
  predicate Next(p: nat, q: nat) {
    2 <= p < q <= 361 && Unsieved(p) && Composites(p, q - p - 1)
  }

  lemma OneMore(p: nat, q: nat, ps: seq<nat>, hi: nat)
    requires Next(p, q) && ListsPrimes(ps, q, hi) && q <= hi
    ensures ListsPrimes([p] + ps, p, hi)
  {
    forall n: nat | p <= n < q ensures Prime(n) <==> n == p {
      SieveDecides(n);
      if n > p { CompositesMeans(p, q - p - 1, n); }
    }
    forall j | 0 <= j < |ps| ensures p < ps[j] { assert ps[j] in ps; }
  }

  lemma EightPrimes(a: nat, b: nat, c: nat, d: nat, e: nat, f: nat, g: nat, h: nat, hi: nat)
    requires Next(a, b) && Next(b, c) && Next(c, d) && Next(d, e) && Next(e, f) && Next(f, g) && Next(g, h)
        && Next(h, hi)
    ensures ListsPrimes([a, b, c, d, e, f, g, h], a, hi)
  {
    var none: seq<nat> := [];
    OneMore(h, hi, none, hi);
    assert [h] + none == [h];
    OneMore(g, h, [h], hi);
    OneMore(f, g, [g, h], hi);
    OneMore(e, f, [f, g, h], hi);
    FourMore(a, b, c, d, e, [e, f, g, h], hi);
    assert [a, b, c, d] + [e, f, g, h] == [a, b, c, d, e, f, g, h];
  }

  lemma FourMore(a: nat, b: nat, c: nat, d: nat, e: nat, ps: seq<nat>, hi: nat)
    requires Next(a, b) && Next(b, c) && Next(c, d) && Next(d, e) && e <= hi && ListsPrimes(ps, e, hi)
    ensures ListsPrimes([a, b, c, d] + ps, a, hi)
  {
    OneMore(d, e, ps, hi);
    OneMore(c, d, [d] + ps, hi);
    assert [c] + ([d] + ps) == [c, d] + ps;
    OneMore(b, c, [c, d] + ps, hi);
    assert [b] + ([c, d] + ps) == [b, c, d] + ps;
    OneMore(a, b, [b, c, d] + ps, hi);
    assert [a] + ([b, c, d] + ps) == [a, b, c, d] + ps;
  }

  // --- the round words ----------------------------------------------------------------------------------

  /** Each word is the fraction of the cube root of its prime. */
  ghost predicate CubeRoots(ps: seq<nat>, words: seq<bv32>) {
    |ps| == |words| && forall i :: 0 <= i < |ps| ==> HasCubeRoot(ps[i], words[i])
  }

  ghost predicate CubeRootOf(p: nat, c: nat, w: bv32) { CubeRoot(p, c, w as nat) }

  ghost predicate SquareRootOf(p: nat, c: nat, w: bv32) { SquareRoot(p, c, w as nat) }

  ghost predicate HasCubeRoot(p: nat, w: bv32) {
    exists c :: CubeRootOf(p, c, w)
  }

  ghost predicate SquareRoots(ps: seq<nat>, words: seq<bv32>) {
    |ps| == |words| && forall i :: 0 <= i < |ps| ==> HasSquareRoot(ps[i], words[i])
  }

  ghost predicate HasSquareRoot(p: nat, w: bv32) {
    exists c :: SquareRootOf(p, c, w)
  }

  lemma EightCubeRoots(ps: seq<nat>, w: seq<bv32>)
    requires |ps| == |w| == 8
    requires HasCubeRoot(ps[0], w[0]) && HasCubeRoot(ps[1], w[1]) && HasCubeRoot(ps[2], w[2])
        && HasCubeRoot(ps[3], w[3])
    requires HasCubeRoot(ps[4], w[4]) && HasCubeRoot(ps[5], w[5]) && HasCubeRoot(ps[6], w[6])
        && HasCubeRoot(ps[7], w[7])
    ensures CubeRoots(ps, w)
  {
  }

  lemma EightSquareRoots(ps: seq<nat>, w: seq<bv32>)
    requires |ps| == |w| == 8
    requires HasSquareRoot(ps[0], w[0]) && HasSquareRoot(ps[1], w[1])
    requires HasSquareRoot(ps[2], w[2]) && HasSquareRoot(ps[3], w[3])
    requires HasSquareRoot(ps[4], w[4]) && HasSquareRoot(ps[5], w[5])
    requires HasSquareRoot(ps[6], w[6]) && HasSquareRoot(ps[7], w[7])
    ensures SquareRoots(ps, w)
  {
  }

  lemma CubeRootsAppend(ps: seq<nat>, qs: seq<nat>, v: seq<bv32>, w: seq<bv32>)
    requires CubeRoots(ps, v) && CubeRoots(qs, w)
    ensures CubeRoots(ps + qs, v + w)
  {
  }

  const PRIMES0: seq<nat> := [2, 3, 5, 7, 11, 13, 17, 19]

  lemma Primes0()
    ensures ListsPrimes(PRIMES0, 2, 23)
  {
    EightPrimes(2, 3, 5, 7, 11, 13, 17, 19, 23);
  }

  lemma Words0()
    ensures CubeRoots(PRIMES0, WORDS0)
  {
    CubeRootIs(2, 1, WORDS0[0], 0x428a2f98);
    CubeRootIs(3, 1, WORDS0[1], 0x71374491);
    CubeRootIs(5, 1, WORDS0[2], 0xb5c0fbcf);
    CubeRootIs(7, 1, WORDS0[3], 0xe9b5dba5);
    CubeRootIs(11, 2, WORDS0[4], 0x3956c25b);
    CubeRootIs(13, 2, WORDS0[5], 0x59f111f1);
    CubeRootIs(17, 2, WORDS0[6], 0x923f82a4);
    CubeRootIs(19, 2, WORDS0[7], 0xab1c5ed5);
    EightCubeRoots(PRIMES0, WORDS0);
  }

  const PRIMES1: seq<nat> := [23, 29, 31, 37, 41, 43, 47, 53]

  lemma Primes1()
    ensures ListsPrimes(PRIMES1, 23, 59)
  {
    EightPrimes(23, 29, 31, 37, 41, 43, 47, 53, 59);
  }

  lemma Words1()
    ensures CubeRoots(PRIMES1, WORDS1)
  {
    CubeRootIs(23, 2, WORDS1[0], 0xd807aa98);
    CubeRootIs(29, 3, WORDS1[1], 0x12835b01);
    CubeRootIs(31, 3, WORDS1[2], 0x243185be);
    CubeRootIs(37, 3, WORDS1[3], 0x550c7dc3);
    CubeRootIs(41, 3, WORDS1[4], 0x72be5d74);
    CubeRootIs(43, 3, WORDS1[5], 0x80deb1fe);
    CubeRootIs(47, 3, WORDS1[6], 0x9bdc06a7);
    CubeRootIs(53, 3, WORDS1[7], 0xc19bf174);
    EightCubeRoots(PRIMES1, WORDS1);
  }

  const PRIMES2: seq<nat> := [59, 61, 67, 71, 73, 79, 83, 89]

  lemma Primes2()
    ensures ListsPrimes(PRIMES2, 59, 97)
  {
    EightPrimes(59, 61, 67, 71, 73, 79, 83, 89, 97);
  }

  lemma Words2()
    ensures CubeRoots(PRIMES2, WORDS2)
  {
    CubeRootIs(59, 3, WORDS2[0], 0xe49b69c1);
    CubeRootIs(61, 3, WORDS2[1], 0xefbe4786);
    CubeRootIs(67, 4, WORDS2[2], 0x0fc19dc6);
    CubeRootIs(71, 4, WORDS2[3], 0x240ca1cc);
    CubeRootIs(73, 4, WORDS2[4], 0x2de92c6f);
    CubeRootIs(79, 4, WORDS2[5], 0x4a7484aa);
    CubeRootIs(83, 4, WORDS2[6], 0x5cb0a9dc);
    CubeRootIs(89, 4, WORDS2[7], 0x76f988da);
    EightCubeRoots(PRIMES2, WORDS2);
  }

  const PRIMES3: seq<nat> := [97, 101, 103, 107, 109, 113, 127, 131]

  lemma Primes3()
    ensures ListsPrimes(PRIMES3, 97, 137)
  {
    EightPrimes(97, 101, 103, 107, 109, 113, 127, 131, 137);
  }

  lemma Words3()
    ensures CubeRoots(PRIMES3, WORDS3)
  {
    CubeRootIs(97, 4, WORDS3[0], 0x983e5152);
    CubeRootIs(101, 4, WORDS3[1], 0xa831c66d);
    CubeRootIs(103, 4, WORDS3[2], 0xb00327c8);
    CubeRootIs(107, 4, WORDS3[3], 0xbf597fc7);
    CubeRootIs(109, 4, WORDS3[4], 0xc6e00bf3);
    CubeRootIs(113, 4, WORDS3[5], 0xd5a79147);
    CubeRootIs(127, 5, WORDS3[6], 0x06ca6351);
    CubeRootIs(131, 5, WORDS3[7], 0x14292967);
    EightCubeRoots(PRIMES3, WORDS3);
  }

  const PRIMES4: seq<nat> := [137, 139, 149, 151, 157, 163, 167, 173]

  lemma Primes4()
    ensures ListsPrimes(PRIMES4, 137, 179)
  {
    EightPrimes(137, 139, 149, 151, 157, 163, 167, 173, 179);
  }

  lemma Words4()
    ensures CubeRoots(PRIMES4, WORDS4)
  {
    CubeRootIs(137, 5, WORDS4[0], 0x27b70a85);
    CubeRootIs(139, 5, WORDS4[1], 0x2e1b2138);
    CubeRootIs(149, 5, WORDS4[2], 0x4d2c6dfc);
    CubeRootIs(151, 5, WORDS4[3], 0x53380d13);
    CubeRootIs(157, 5, WORDS4[4], 0x650a7354);
    CubeRootIs(163, 5, WORDS4[5], 0x766a0abb);
    CubeRootIs(167, 5, WORDS4[6], 0x81c2c92e);
    CubeRootIs(173, 5, WORDS4[7], 0x92722c85);
    EightCubeRoots(PRIMES4, WORDS4);
  }

  const PRIMES5: seq<nat> := [179, 181, 191, 193, 197, 199, 211, 223]

  lemma Primes5()
    ensures ListsPrimes(PRIMES5, 179, 227)
  {
    EightPrimes(179, 181, 191, 193, 197, 199, 211, 223, 227);
  }

  lemma Words5()
    ensures CubeRoots(PRIMES5, WORDS5)
  {
    CubeRootIs(179, 5, WORDS5[0], 0xa2bfe8a1);
    CubeRootIs(181, 5, WORDS5[1], 0xa81a664b);
    CubeRootIs(191, 5, WORDS5[2], 0xc24b8b70);
    CubeRootIs(193, 5, WORDS5[3], 0xc76c51a3);
    CubeRootIs(197, 5, WORDS5[4], 0xd192e819);
    CubeRootIs(199, 5, WORDS5[5], 0xd6990624);
    CubeRootIs(211, 5, WORDS5[6], 0xf40e3585);
    CubeRootIs(223, 6, WORDS5[7], 0x106aa070);
    EightCubeRoots(PRIMES5, WORDS5);
  }

  const PRIMES6: seq<nat> := [227, 229, 233, 239, 241, 251, 257, 263]

  lemma Primes6()
    ensures ListsPrimes(PRIMES6, 227, 269)
  {
    EightPrimes(227, 229, 233, 239, 241, 251, 257, 263, 269);
  }

  lemma Words6()
    ensures CubeRoots(PRIMES6, WORDS6)
  {
    CubeRootIs(227, 6, WORDS6[0], 0x19a4c116);
    CubeRootIs(229, 6, WORDS6[1], 0x1e376c08);
    CubeRootIs(233, 6, WORDS6[2], 0x2748774c);
    CubeRootIs(239, 6, WORDS6[3], 0x34b0bcb5);
    CubeRootIs(241, 6, WORDS6[4], 0x391c0cb3);
    CubeRootIs(251, 6, WORDS6[5], 0x4ed8aa4a);
    CubeRootIs(257, 6, WORDS6[6], 0x5b9cca4f);
    CubeRootIs(263, 6, WORDS6[7], 0x682e6ff3);
    EightCubeRoots(PRIMES6, WORDS6);
  }

  const PRIMES7: seq<nat> := [269, 271, 277, 281, 283, 293, 307, 311]

  lemma Primes7()
    ensures ListsPrimes(PRIMES7, 269, 312)
  {
    EightPrimes(269, 271, 277, 281, 283, 293, 307, 311, 312);
  }

  lemma Words7()
    ensures CubeRoots(PRIMES7, WORDS7)
  {
    CubeRootIs(269, 6, WORDS7[0], 0x748f82ee);
    CubeRootIs(271, 6, WORDS7[1], 0x78a5636f);
    CubeRootIs(277, 6, WORDS7[2], 0x84c87814);
    CubeRootIs(281, 6, WORDS7[3], 0x8cc70208);
    CubeRootIs(283, 6, WORDS7[4], 0x90befffa);
    CubeRootIs(293, 6, WORDS7[5], 0xa4506ceb);
    CubeRootIs(307, 6, WORDS7[6], 0xbef9a3f7);
    CubeRootIs(311, 6, WORDS7[7], 0xc67178f2);
    EightCubeRoots(PRIMES7, WORDS7);
  }

  const PRIMES: seq<nat> := PRIMES0 + PRIMES1 + PRIMES2 + PRIMES3 + PRIMES4 + PRIMES5 + PRIMES6 + PRIMES7

  /** The list holds the first 64 primes, in order. */
  lemma PrimesExact()
    ensures |PRIMES| == 64 && ListsPrimes(PRIMES, 2, 312)
  {
    Primes0();
    Primes1();
    ListsPrimesAppend(PRIMES0, PRIMES1, 2, 23, 59);
    Primes2();
    ListsPrimesAppend(PRIMES0 + PRIMES1, PRIMES2, 2, 59, 97);
    Primes3();
    ListsPrimesAppend(PRIMES0 + PRIMES1 + PRIMES2, PRIMES3, 2, 97, 137);
    Primes4();
    ListsPrimesAppend(PRIMES0 + PRIMES1 + PRIMES2 + PRIMES3, PRIMES4, 2, 137, 179);
    Primes5();
    ListsPrimesAppend(PRIMES0 + PRIMES1 + PRIMES2 + PRIMES3 + PRIMES4, PRIMES5, 2, 179, 227);
    Primes6();
    ListsPrimesAppend(PRIMES0 + PRIMES1 + PRIMES2 + PRIMES3 + PRIMES4 + PRIMES5, PRIMES6, 2, 227, 269);
    Primes7();
    ListsPrimesAppend(PRIMES0 + PRIMES1 + PRIMES2 + PRIMES3 + PRIMES4 + PRIMES5 + PRIMES6, PRIMES7, 2, 269, 312);
  }

  /** The round words are the fractions of the cube roots of the first 64 primes, in order. */
  lemma RoundWordsAreRoots()
    ensures CubeRoots(PRIMES, ROUND_WORDS)
  {
    Words0();
    Words1();
    CubeRootsAppend(PRIMES0, PRIMES1, WORDS0, WORDS1);
    Words2();
    CubeRootsAppend(PRIMES0 + PRIMES1, PRIMES2, WORDS0 + WORDS1, WORDS2);
    Words3();
    CubeRootsAppend(PRIMES0 + PRIMES1 + PRIMES2, PRIMES3, WORDS0 + WORDS1 + WORDS2, WORDS3);
    Words4();
    CubeRootsAppend(PRIMES0 + PRIMES1 + PRIMES2 + PRIMES3, PRIMES4, WORDS0 + WORDS1 + WORDS2 + WORDS3, WORDS4);
    Words5();
    CubeRootsAppend(PRIMES0 + PRIMES1 + PRIMES2 + PRIMES3 + PRIMES4, PRIMES5,
                    WORDS0 + WORDS1 + WORDS2 + WORDS3 + WORDS4, WORDS5);
    Words6();
    CubeRootsAppend(PRIMES0 + PRIMES1 + PRIMES2 + PRIMES3 + PRIMES4 + PRIMES5, PRIMES6,
                    WORDS0 + WORDS1 + WORDS2 + WORDS3 + WORDS4 + WORDS5, WORDS6);
    Words7();
    CubeRootsAppend(PRIMES0 + PRIMES1 + PRIMES2 + PRIMES3 + PRIMES4 + PRIMES5 + PRIMES6, PRIMES7,
                    WORDS0 + WORDS1 + WORDS2 + WORDS3 + WORDS4 + WORDS5 + WORDS6, WORDS7);
  }

  function InitialWords(): seq<bv32> {
    [INITIAL.a, INITIAL.b, INITIAL.c, INITIAL.d, INITIAL.e, INITIAL.f, INITIAL.g, INITIAL.h]
  }

  /** The initial hash words are the fractions of the square roots of the first 8 primes, in order. */
  lemma InitialWordsAreRoots()
    ensures SquareRoots(PRIMES[..8], InitialWords())
  {
    var ps := PRIMES0;
    assert PRIMES[..8] == ps;
    SquareRootIs(2, 1, INITIAL.a, 0x6a09e667);
    SquareRootIs(3, 1, INITIAL.b, 0xbb67ae85);
    SquareRootIs(5, 2, INITIAL.c, 0x3c6ef372);
    SquareRootIs(7, 2, INITIAL.d, 0xa54ff53a);
    SquareRootIs(11, 3, INITIAL.e, 0x510e527f);
    SquareRootIs(13, 3, INITIAL.f, 0x9b05688c);
    SquareRootIs(17, 4, INITIAL.g, 0x1f83d9ab);
    SquareRootIs(19, 4, INITIAL.h, 0x5be0cd19);
    EightSquareRoots(ps, InitialWords());
  }

  // --- a prime determines its word ---------------------------------------------------------------------------

  lemma CubeMonotone(m: nat, n: nat)
    requires m <= n
    ensures m * m * m <= n * n * n
  {
    assert m * m <= n * n;
    assert m * m * m <= n * n * m <= n * n * n;
  }

  lemma OneRoot(p: nat, m: nat, n: nat)
    requires m * m * m <= p * TWO96 < (m + 1) * (m + 1) * (m + 1)
    requires n * n * n <= p * TWO96 < (n + 1) * (n + 1) * (n + 1)
    ensures m == n
  {
    if m < n { CubeMonotone(m + 1, n); }
    if n < m { CubeMonotone(n + 1, m); }
  }

  lemma SameFraction(m: nat, c: nat, v: nat, d: nat, w: nat)
    requires m == c * TWO32 + v == d * TWO32 + w && v < TWO32 && w < TWO32
    ensures v == w
  {
    QuotientIs(m, TWO32, c, v);
    QuotientIs(m, TWO32, d, w);
  }

  lemma FractionDetermined(p: nat, c: nat, v: nat, d: nat, w: nat)
    requires CubeRoot(p, c, v) && CubeRoot(p, d, w) && v < TWO32 && w < TWO32
    ensures v == w
  {
    OneRoot(p, c * TWO32 + v, d * TWO32 + w);
    SameFraction(c * TWO32 + v, c, v, d, w);
  }

  /** No other word is the fraction of the same cube root. */
  lemma WordDetermined(p: nat, v: bv32, w: bv32)
    requires HasCubeRoot(p, v) && HasCubeRoot(p, w)
    ensures v as nat == w as nat
  {
    var c: nat :| CubeRootOf(p, c, v);
    var d: nat :| CubeRootOf(p, d, w);
    FractionDetermined(p, c, v as nat, d, w as nat);
  }
}
