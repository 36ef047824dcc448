/** Printing and reading integers in decimal. */
module Decimal {
  import opened Model

  predicate IsDigit(c: char) { '0' <= c <= '9' }

  function Digit(n: nat): char
    requires n < 10
  {
    '0' + n as char
  }

  function ValueOf(c: char): nat
    requires IsDigit(c)
  {
    (c - '0') as nat
  }

  predicate AllDigits(s: string) {
    forall i :: 0 <= i < |s| ==> IsDigit(s[i])
  }

  lemma NotAllDigits(s: string, i: nat)
    requires i < |s| && !IsDigit(s[i])
    ensures !AllDigits(s)
  {
  }

  /** The decimal digits of n, without leading zeros. */
  function Digits(n: nat): (s: string)
    ensures s != [] && AllDigits(s)
  {
    if n < 10 then [Digit(n)] else Digits(n / 10) + [Digit(n % 10)]
  }

  function Print(n: int): string {
    if n >= 0 then Digits(n) else "-" + Digits(-n)
  }

  /** One digit is its own character; more are the text of the tens with the last digit; a minus sign goes first. */
  lemma PrintSpelled(n: int)
    ensures 0 <= n < 10 ==> Print(n) == ["0123456789"[n]]
    ensures n >= 10 ==> Print(n) == Print(n / 10) + Print(n % 10)
    ensures n < 0 ==> Print(n) == "-" + Print(-n)
  {
  }

  /** The value of a digit string. */
  function Value(s: string): nat
    requires AllDigits(s)
  {
    if s == [] then 0 else 10 * Value(s[..|s| - 1]) + ValueOf(s[|s| - 1])
  }

  lemma {:induction false} ValueOfDigits(n: nat)
    ensures Value(Digits(n)) == n
  {
    if n >= 10 {
      ValueOfDigits(n / 10);
      assert Digits(n)[..|Digits(n)| - 1] == Digits(n / 10);
    } else {
      assert Digits(n)[..0] == [];
    }
  }

  const INT_MAX := 2147483647

  /** from_chars over a whole cell: an optional minus sign, digits only, within 32 bits. */
  function ParseInt(s: string): Option<int> {
    if s != [] && s[0] == '-' then
      if |s| > 1 && AllDigits(s[1..]) && Value(s[1..]) <= INT_MAX + 1 then Some(0 - Value(s[1..])) else None
    else
      if s != [] && AllDigits(s) && Value(s) <= INT_MAX then Some(Value(s) as int) else None
  }

  /** Printed integers of 32 bits read back as themselves. */
  lemma ParsePrint(n: int)
    requires -2147483648 <= n <= 2147483647
    ensures ParseInt(Print(n)) == Some(n)
  {
    if n >= 0 {
      ValueOfDigits(n);
    } else {
      ValueOfDigits(-n);
      assert Print(n)[1..] == Digits(-n);
    }
  }

  lemma TooLargeToParse(n: int)
    requires n > 2147483647
    ensures ParseInt(Print(n)) == None
  {
    ValueOfDigits(n);
  }

  /** Zero-padded to a width. */
  function Pad(n: nat, width: nat): (s: string)
    ensures AllDigits(s)
    ensures width > 0 ==> |s| >= width
  {
    Zeros(width - |Digits(n)|) + Digits(n)
  }

  function Zeros(k: int): (s: string)
    ensures AllDigits(s) && |s| == if k > 0 then k else 0
    ensures forall i :: 0 <= i < |s| ==> s[i] == '0'
  {
    if k <= 0 then [] else Zeros(k - 1) + ['0']
  }

  lemma {:induction false} ValuePrepend(z: string, s: string)
    requires AllDigits(z) && AllDigits(s) && forall i :: 0 <= i < |z| ==> z[i] == '0'
    ensures AllDigits(z + s) && Value(z + s) == Value(s)
  {
    if s == [] {
      assert z + s == z;
      if z != [] {
        ValuePrepend(z[..|z| - 1], s);
        assert z[..|z| - 1] + s == z[..|z| - 1];
      }
    } else {
      ValuePrepend(z, s[..|s| - 1]);
      assert (z + s)[..|z + s| - 1] == z + s[..|s| - 1];
    }
  }

  lemma PadValue(n: nat, width: nat)
    ensures Value(Pad(n, width)) == n
  {
    ValueOfDigits(n);
    ValuePrepend(Zeros(width - |Digits(n)|), Digits(n));
  }

  /** n has at most w digits exactly when it is below 10 to the w. */
  lemma DigitCount(n: nat)
    ensures n < 10 <==> |Digits(n)| <= 1
    ensures n < 100 <==> |Digits(n)| <= 2
    ensures n < 1000 <==> |Digits(n)| <= 3
    ensures n < 10000 <==> |Digits(n)| <= 4
  {
    if n >= 10 {
      assert |Digits(n)| == |Digits(n / 10)| + 1;
      if n >= 100 {
        assert |Digits(n / 10)| == |Digits(n / 100)| + 1;
        if n >= 1000 { assert |Digits(n / 100)| == |Digits(n / 1000)| + 1; }
      }
    }
  }

  lemma PadLength(n: nat, width: nat)
    requires 1 <= width <= 4
    ensures (|Pad(n, width)| == width) <==> (if width == 1 then n < 10 else if width == 2 then n < 100
                                             else if width == 3 then n < 1000 else n < 10000)
  {
    DigitCount(n);
  }

  /** A digit string is its value padded to its own length. */
  lemma {:induction false} PadOfValue(s: string)
    requires AllDigits(s) && s != []
    ensures Pad(Value(s), |s|) == s
  {
    var t := s[..|s| - 1];
    var k := ValueOf(s[|s| - 1]);
    assert Digit(k) == s[|s| - 1];
    assert s == t + [s[|s| - 1]];
    if t == [] {
      assert Value(s) == k;
    } else {
      PadOfValue(t);
      var v := Value(t);
      assert Value(s) == 10 * v + k;
      if v == 0 {
        LeadingZeros(t);
        assert Zeros(|t|) + [Digit(k)] == s;
      } else {
        assert (10 * v + k) / 10 == v && (10 * v + k) % 10 == k;
        assert Digits(10 * v + k) == Digits(v) + [Digit(k)];
      }
    }
  }

  lemma LeadingZeros(t: string)
    requires t != [] && AllDigits(t) && Value(t) == 0 && Pad(0, |t|) == t
    ensures Zeros(|t|) == t
  {
  }

  lemma PadOnly(s: string, n: nat)
    requires s != ""
    ensures s == Pad(n, |s|) <==> AllDigits(s) && Value(s) == n
  {
    PadValue(n, |s|);
    if AllDigits(s) { PadOfValue(s); }
  }

  lemma DigitsHaveNoSign(s: string)
    requires s != "" && AllDigits(s)
    ensures s[0] != '-'
  {
  }

  /** What is read: digits, perhaps with leading zeros and a minus sign before them, of a number of 32 bits. */
  lemma ParseExact(s: string, n: int)
    ensures ParseInt(s) == Some(n) <==>
      || (0 <= n <= 2147483647 && s != "" && s == Pad(n, |s|))
      || (-2147483648 <= n <= 0 && |s| > 1 && s[0] == '-' && s[1..] == Pad(-n, |s| - 1))
  {
    if s != "" {
      if n >= 0 { PadOnly(s, n); }
      if n <= 0 && |s| > 1 { PadOnly(s[1..], -n); }
      if AllDigits(s) { DigitsHaveNoSign(s); }
    }
  }
}
