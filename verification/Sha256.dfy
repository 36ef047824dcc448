/** SHA-256 over bytes: the streaming context, against sections 5.1.1 and 6.2 of FIPS 180-4. */
module Sha256 {
  import opened Arithmetic

  type Byte = bv8

  /** The eight working variables, and the eight words of a hash value. */
  datatype Regs = Regs(a: bv32, b: bv32, c: bv32, d: bv32, e: bv32, f: bv32, g: bv32, h: bv32)

  /** The words of section 4.2.2, eight at a time. */
  const WORDS0: seq<bv32> := [0x428a2f98, 0x71374491, 0xb5c0fbcf, 0xe9b5dba5, 0x3956c25b, 0x59f111f1, 0x923f82a4,
                              0xab1c5ed5]
  const WORDS1: seq<bv32> := [0xd807aa98, 0x12835b01, 0x243185be, 0x550c7dc3, 0x72be5d74, 0x80deb1fe, 0x9bdc06a7,
                              0xc19bf174]
  const WORDS2: seq<bv32> := [0xe49b69c1, 0xefbe4786, 0x0fc19dc6, 0x240ca1cc, 0x2de92c6f, 0x4a7484aa, 0x5cb0a9dc,
                              0x76f988da]
  const WORDS3: seq<bv32> := [0x983e5152, 0xa831c66d, 0xb00327c8, 0xbf597fc7, 0xc6e00bf3, 0xd5a79147, 0x06ca6351,
                              0x14292967]
  const WORDS4: seq<bv32> := [0x27b70a85, 0x2e1b2138, 0x4d2c6dfc, 0x53380d13, 0x650a7354, 0x766a0abb, 0x81c2c92e,
                              0x92722c85]
  const WORDS5: seq<bv32> := [0xa2bfe8a1, 0xa81a664b, 0xc24b8b70, 0xc76c51a3, 0xd192e819, 0xd6990624, 0xf40e3585,
                              0x106aa070]
  const WORDS6: seq<bv32> := [0x19a4c116, 0x1e376c08, 0x2748774c, 0x34b0bcb5, 0x391c0cb3, 0x4ed8aa4a, 0x5b9cca4f,
                              0x682e6ff3]
  const WORDS7: seq<bv32> := [0x748f82ee, 0x78a5636f, 0x84c87814, 0x8cc70208, 0x90befffa, 0xa4506ceb, 0xbef9a3f7,
                              0xc67178f2]

  const ROUND_WORDS: seq<bv32> := WORDS0 + WORDS1 + WORDS2 + WORDS3 + WORDS4 + WORDS5 + WORDS6 + WORDS7

  const INITIAL := Regs(0x6a09e667, 0xbb67ae85, 0x3c6ef372, 0xa54ff53a, 0x510e527f, 0x9b05688c, 0x1f83d9ab, 0x5be0cd19)

  // --- the functions of section 4.1.2 --------------------------------------------------------------

  function SmallSigma0(x: bv32): bv32 {
    ((x >> 7) | (x << 25)) ^ ((x >> 18) | (x << 14)) ^ (x >> 3)
  }

  function SmallSigma1(x: bv32): bv32 {
    ((x >> 17) | (x << 15)) ^ ((x >> 19) | (x << 13)) ^ (x >> 10)
  }

  function BigSigma0(x: bv32): bv32 {
    ((x >> 2) | (x << 30)) ^ ((x >> 13) | (x << 19)) ^ ((x >> 22) | (x << 10))
  }

  function BigSigma1(x: bv32): bv32 {
    ((x >> 6) | (x << 26)) ^ ((x >> 11) | (x << 21)) ^ ((x >> 25) | (x << 7))
  }

  /** Addition modulo 2 to the 32. */
  function Add(x: bv32, y: bv32): bv32 { x + y }

  function Choose(x: bv32, y: bv32, z: bv32): bv32 { (x & y) ^ (!x & z) }

  function Majority(x: bv32, y: bv32, z: bv32): bv32 { (x & y) ^ (x & z) ^ (y & z) }

  /** Where x has a 1, Choose is y; where it has a 0, it is z. */
  lemma ChooseBits(x: bv32, y: bv32, z: bv32)
    ensures Choose(x, y, z) & x == y & x
    ensures Choose(x, y, z) & !x == z & !x
  {
  }

  /** Majority agrees with any two arguments that agree. */
  lemma MajorityBits(x: bv32, y: bv32, z: bv32)
    ensures Majority(x, x, z) == x && Majority(x, y, x) == x && Majority(x, y, y) == y
  {
  }

  // --- section 6.2.2: one block -----------------------------------------------------------------------

  /** Four bytes, most significant first. */
  function WordOf(b0: Byte, b1: Byte, b2: Byte, b3: Byte): bv32 {
    (b0 as bv32 << 24) | (b1 as bv32 << 16) | (b2 as bv32 << 8) | (b3 as bv32)
  }

  /** The t-th word of the message schedule. */
  function Schedule(block: seq<Byte>, t: nat): bv32
    requires |block| == 64
  {
    if t < 16 then WordOf(block[4 * t], block[4 * t + 1], block[4 * t + 2], block[4 * t + 3])
    else
      Add(Add(Add(SmallSigma1(Schedule(block, t - 2)), Schedule(block, t - 7)),
              SmallSigma0(Schedule(block, t - 15))), Schedule(block, t - 16))
  }

  function Round(r: Regs, k: bv32, w: bv32): Regs {
    var t1 := Add(Add(Add(Add(r.h, BigSigma1(r.e)), Choose(r.e, r.f, r.g)), k), w);
    var t2 := Add(BigSigma0(r.a), Majority(r.a, r.b, r.c));
    Regs(Add(t1, t2), r.a, r.b, r.c, Add(r.d, t1), r.e, r.f, r.g)
  }

  /** The working variables after the first t rounds. */
  function Rounds(ks: seq<bv32>, start: Regs, block: seq<Byte>, t: nat): Regs
    requires |ks| == 64 && |block| == 64 && t <= 64
  {
    if t == 0 then start else Round(Rounds(ks, start, block, t - 1), ks[t - 1], Schedule(block, t - 1))
  }

  function Added(x: Regs, y: Regs): Regs {
    Regs(Add(x.a, y.a), Add(x.b, y.b), Add(x.c, y.c), Add(x.d, y.d),
         Add(x.e, y.e), Add(x.f, y.f), Add(x.g, y.g), Add(x.h, y.h))
  }

  function Compress(ks: seq<bv32>, h: Regs, block: seq<Byte>): Regs
    requires |ks| == 64 && |block| == 64
  {
    Added(h, Rounds(ks, h, block, 64))
  }

  /** The hash value after every whole block of m. */
  function HashBlocks(ks: seq<bv32>, h: Regs, m: seq<Byte>): Regs
    requires |ks| == 64
    decreases |m|
  {
    if |m| < 64 then h else HashBlocks(ks, Compress(ks, h, m[..64]), m[64..])
  }

  lemma {:induction false} HashSnoc(ks: seq<bv32>, h: Regs, m: seq<Byte>, block: seq<Byte>)
    requires |ks| == 64 && |m| % 64 == 0 && |block| == 64
    ensures HashBlocks(ks, h, m + block) == Compress(ks, HashBlocks(ks, h, m), block)
    decreases |m|
  {
    if m == [] {
      assert m + block == block && block[..64] == block && block[64..] == [];
    } else {
      HashSnoc(ks, Compress(ks, h, m[..64]), m[64..], block);
      assert (m + block)[..64] == m[..64] && (m + block)[64..] == m[64..] + block;
    }
  }

  // --- section 5.1.1: padding ------------------------------------------------------------------------------

  function Zeros(k: nat): (s: seq<Byte>)
    ensures |s| == k
  {
    if k == 0 then [] else Zeros(k - 1) + [0]
  }

  /** The zero bytes after the byte 0x80 in a message of n bytes. */
  function ZeroCount(n: nat): nat { (119 - n % 64) % 64 }

  /** n as k bytes, most significant first. */
  function BigEndian(n: nat, k: nat): (s: seq<Byte>)
    ensures |s| == k
  {
    if k == 0 then [] else BigEndian(n / 256, k - 1) + [(n % 256) as Byte]
  }

  function Padded(m: seq<Byte>): seq<Byte> {
    m + [0x80] + Zeros(ZeroCount(|m|)) + BigEndian(8 * |m|, 8)
  }

  lemma ZeroCountFits(n: nat)
    ensures (n + 1 + ZeroCount(n) + 8) % 64 == 0
  {
  }

  /** Two numbers of the same remainder differ by a multiple. */
  lemma SameRemainder(x: nat, y: nat)
    requires y < x < y + 512 && x % 512 == 448
    ensures y % 512 != 448
  {
  }

  /** In bits: one 1, then the least number of 0 that leaves room for 64 bits of length in the last block. */
  lemma PaddingIsLeast(n: nat, zeros: nat)
    ensures var l, k := 8 * n, 8 * ZeroCount(n) + 7;
      (l + 1 + k) % 512 == 448 && (zeros < k ==> (l + 1 + zeros) % 512 != 448)
  {
    var l, k := 8 * n, 8 * ZeroCount(n) + 7;
    PaddingFills(n);
    if zeros < k { SameRemainder(l + 1 + k, l + 1 + zeros); }
  }

  lemma PaddingFills(n: nat)
    ensures (8 * n + 1 + (8 * ZeroCount(n) + 7)) % 512 == 448
  {
    var q := (n + 1 + ZeroCount(n) + 8) / 64;
    ZeroCountFits(n);
    assert 8 * n + 1 + (8 * ZeroCount(n) + 7) == 512 * (q - 1) + 448;
  }

  lemma PaddedLength(m: seq<Byte>)
    ensures |Padded(m)| == |m| + 1 + ZeroCount(|m|) + 8
  {
  }

  lemma PaddedIsWhole(m: seq<Byte>)
    ensures |Padded(m)| % 64 == 0
  {
    PaddedLength(m);
    ZeroCountFits(|m|);
  }

  /** The hash of a message. */
  function Hash(m: seq<Byte>): Regs {
    HashBlocks(ROUND_WORDS, INITIAL, Padded(m))
  }

  // --- one block, as computed ---------------------------------------------------------------------------------

  lemma AddCommutes(x: bv32, y: bv32)
    ensures Add(x, y) == Add(y, x)
  {
  }

  lemma AddRegroups(x: bv32, y: bv32, z: bv32)
    ensures Add(Add(x, y), z) == Add(x, Add(y, z))
  {
    calc {
      Add(Add(x, y), z);
      Add(x + y, z);
      x + y + z;
      x + (y + z);
      Add(x, y + z);
      Add(x, Add(y, z));
    }
  }

  lemma SumOrder(a: bv32, b: bv32, c: bv32, d: bv32)
    ensures Add(Add(Add(a, b), c), d) == Add(Add(Add(d, c), b), a)
  {
    AddCommutes(Add(Add(a, b), c), d);
    AddCommutes(Add(a, b), c);
    AddCommutes(a, b);
    AddRegroups(d, c, Add(b, a));
    AddRegroups(Add(d, c), b, a);
  }

  /** Expands the schedule into an array. */
  method Expand(block: seq<Byte>) returns (w: seq<bv32>)
    requires |block| == 64
    ensures |w| == 64 && forall t: nat :: t < 64 ==> w[t] == Schedule(block, t)
  {
    w := [];
    for i := 0 to 16
      invariant |w| == i && forall t: nat :: t < i ==> w[t] == Schedule(block, t)
    {
      w := w + [WordOf(block[4 * i], block[4 * i + 1], block[4 * i + 2], block[4 * i + 3])];
    }
    for i := 16 to 64
      invariant |w| == i && forall t: nat :: t < i ==> w[t] == Schedule(block, t)
    {
      var s0, s1 := SmallSigma0(w[i - 15]), SmallSigma1(w[i - 2]);
      SumOrder(w[i - 16], s0, w[i - 7], s1);
      w := w + [Add(Add(Add(w[i - 16], s0), w[i - 7]), s1)];
    }
  }

  /** Sixty-four rounds over rolling registers, added to the hash value. */
  method Block(ks: seq<bv32>, h: Regs, block: seq<Byte>) returns (r: Regs)
    requires |ks| == 64 && |block| == 64
    ensures r == Compress(ks, h, block)
  {
    var w := Expand(block);
    var a, b, c, d := h.a, h.b, h.c, h.d;
    var e, f, g, hh := h.e, h.f, h.g, h.h;
    for i := 0 to 64
      invariant Regs(a, b, c, d, e, f, g, hh) == Rounds(ks, h, block, i)
    {
      var t1 := Add(Add(Add(Add(hh, BigSigma1(e)), Choose(e, f, g)), ks[i]), w[i]);
      var t2 := Add(BigSigma0(a), Majority(a, b, c));
      hh, g, f, e := g, f, e, Add(d, t1);
      d, c, b, a := c, b, a, Add(t1, t2);
    }
    r := Regs(Add(h.a, a), Add(h.b, b), Add(h.c, c), Add(h.d, d), Add(h.e, e), Add(h.f, f), Add(h.g, g), Add(h.h, hh));
  }

  // --- the streaming context --------------------------------------------------------------------------------------

  const WRAP := 0x1_0000_0000_0000_0000

  /** h is the hash of the whole blocks of fed, and rest is what follows them. */
  ghost predicate Digested(ks: seq<bv32>, start: Regs, h: Regs, rest: seq<Byte>, fed: seq<Byte>)
    requires |ks| == 64
  {
    && |rest| == |fed| % 64 && rest == fed[|fed| - |rest|..]
    && h == HashBlocks(ks, start, fed[..|fed| - |rest|])
  }

  lemma SplitOff(whole: seq<Byte>, rest: seq<Byte>)
    requires |whole| % 64 == 0 && |rest| < 64
    ensures var m := whole + rest;
      |m| % 64 == |rest| && m[..|m| - |rest|] == whole && m[|m| - |rest|..] == rest
  {
  }

  lemma DigestedParts(ks: seq<bv32>, start: Regs, whole: seq<Byte>, rest: seq<Byte>)
    requires |ks| == 64 && |whole| % 64 == 0 && |rest| < 64
    ensures Digested(ks, start, HashBlocks(ks, start, whole), rest, whole + rest)
  {
    SplitOff(whole, rest);
  }

  /** A chunk that does not complete a block waits; one that does is hashed with what waited. */
  lemma FedMore(ks: seq<bv32>, start: Regs, h: Regs, rest: seq<Byte>, fed: seq<Byte>, chunk: seq<Byte>)
    requires |ks| == 64 && Digested(ks, start, h, rest, fed) && |rest| + |chunk| <= 64
    ensures |rest| + |chunk| < 64 ==> Digested(ks, start, h, rest + chunk, fed + chunk)
    ensures |rest| + |chunk| == 64 ==> Digested(ks, start, Compress(ks, h, rest + chunk), [], fed + chunk)
  {
    var whole, more := fed[..|fed| - |rest|], rest + chunk;
    FedParts(fed, whole, rest, chunk);
    if |more| < 64 {
      DigestedParts(ks, start, whole, more);
    } else {
      HashSnoc(ks, start, whole, more);
      DigestedParts(ks, start, whole + more, []);
    }
  }

  lemma FedParts(fed: seq<Byte>, whole: seq<Byte>, rest: seq<Byte>, chunk: seq<Byte>)
    requires |rest| == |fed| % 64 && rest == fed[|fed| - |rest|..] && whole == fed[..|fed| - |rest|]
    ensures |whole| % 64 == 0 && fed + chunk == whole + (rest + chunk)
    ensures whole + (rest + chunk) + [] == fed + chunk
  {
    assert fed == whole + rest;
  }

  class Context {
    const ks: seq<bv32>
    const start: Regs
    var h: Regs
    var len: nat
    var buf: array<Byte>
    var bufLen: nat
    ghost var fed: seq<Byte>

    /** The hash of every whole block fed so far, and the rest in the buffer. */
    ghost predicate Valid()
      reads this, buf
    {
      && |ks| == 64 && buf.Length == 64 && len < WRAP && bufLen < 64
      && Digested(ks, start, h, buf[..bufLen], fed)
    }

    constructor (ks: seq<bv32>, start: Regs)
      requires |ks| == 64
      ensures Valid() && fresh(buf) && fed == [] && len == 0 && this.ks == ks && this.start == start
    {
      this.ks, this.start := ks, start;
      h, len, bufLen, fed := start, 0, 0, [];
      buf := new Byte[64];
    }

    /** Feeds bytes: fills the buffer, hashes it whenever it is full. */
    method Update(p: seq<Byte>)
      requires Valid()
      modifies this, buf
      ensures Valid() && buf == old(buf) && fed == old(fed) + p
      ensures len == (old(len) + |p|) % WRAP
    {
      len := (len + |p|) % WRAP;
      ghost var before := fed;
      var i := 0;
      while i < |p|
        invariant i <= |p| && Valid() && buf == old(buf) && fed == before + p[..i]
        invariant len == (old(len) + |p|) % WRAP
      {
        var take := if |p| - i < 64 - bufLen then |p| - i else 64 - bufLen;
        Feed(p[i..i + take]);
        TakeMore(before, p, i, take);
        i := i + take;
      }
      assert p[..|p|] == p;
    }

    /** Takes n bytes off the message length, so that feeding them does not count. */
    method Rewind(n: nat)
      requires Valid() && n < WRAP
      modifies this`len
      ensures Valid() && len == (old(len) + WRAP - n) % WRAP
    {
      len := (len + WRAP - n) % WRAP;
    }

    /** Appends to the buffer at most what fits, and hashes a full buffer. */
    method Feed(chunk: seq<Byte>)
      requires Valid() && 0 < |chunk| <= 64 - bufLen
      modifies this`h, this`bufLen, this`fed, buf
      ensures Valid() && buf == old(buf) && fed == old(fed) + chunk
    {
      ghost var held := buf[..bufLen] + chunk;
      FedMore(ks, start, h, buf[..bufLen], fed, chunk);
      CopyIn(chunk);
      bufLen := bufLen + |chunk|;
      fed := fed + chunk;
      assert buf[..bufLen] == held;
      if bufLen == 64 {
        assert buf[..] == held;
        h := Block(ks, h, buf[..]);
        bufLen := 0;
        assert buf[..bufLen] == [];
      }
    }

    /** Copies the chunk behind what the buffer holds. */
    method CopyIn(chunk: seq<Byte>)
      requires buf.Length == 64 && bufLen + |chunk| <= 64
      modifies buf
      ensures buf[..bufLen + |chunk|] == old(buf[..bufLen]) + chunk
    {
      for j := 0 to |chunk|
        invariant forall k :: 0 <= k < bufLen ==> buf[k] == old(buf[k])
        invariant forall k :: 0 <= k < j ==> buf[bufLen + k] == chunk[k]
      {
        buf[bufLen + j] := chunk[j];
      }
      forall k | 0 <= k < bufLen + |chunk| ensures buf[k] == (old(buf[..bufLen]) + chunk)[k] {
        if k >= bufLen { assert buf[bufLen + (k - bufLen)] == chunk[k - bufLen]; }
      }
    }
  }

  lemma TakeMore(start: seq<Byte>, p: seq<Byte>, i: nat, take: nat)
    requires i + take <= |p|
    ensures start + p[..i] + p[i..i + take] == start + p[..i + take]
  {
  }

  /** What a context holds depends on the bytes fed, never on how they were split into calls. */
  lemma SplitsDoNotMatter(c: Context, d: Context)
    requires c.Valid() && d.Valid() && c.ks == d.ks && c.start == d.start && c.fed == d.fed
    ensures c.h == d.h && c.bufLen == d.bufLen && c.buf[..c.bufLen] == d.buf[..d.bufLen]
  {
  }

  // --- the digest as text -----------------------------------------------------------------------------------------

  const HEX := "0123456789abcdef"

  function HexDigit(v: Byte): char
    requires v < 16
  {
    HEX[v as nat]
  }

  function HexByte(v: Byte): string { [HexDigit(v >> 4), HexDigit(v & 0xF)] }

  /** Byte b of a word, counted from the least significant. */
  function ByteAt(w: bv32, b: nat): Byte
    requires b < 4
  {
    if b == 3 then ((w >> 24) & 0xFF) as Byte
    else if b == 2 then ((w >> 16) & 0xFF) as Byte
    else if b == 1 then ((w >> 8) & 0xFF) as Byte
    else (w & 0xFF) as Byte
  }

  function BytesOf(w: bv32): (s: seq<Byte>)
    ensures |s| == 4 && forall k :: 0 <= k < 4 ==> s[k] == ByteAt(w, 3 - k)
  {
    [ByteAt(w, 3), ByteAt(w, 2), ByteAt(w, 1), ByteAt(w, 0)]
  }

  function HexBytes(bs: seq<Byte>): (s: string)
    ensures |s| == 2 * |bs|
  {
    if bs == [] then [] else HexBytes(bs[..|bs| - 1]) + HexByte(bs[|bs| - 1])
  }

  function WordsOf(r: Regs): (s: seq<bv32>)
    ensures |s| == 8
  {
    [r.a, r.b, r.c, r.d, r.e, r.f, r.g, r.h]
  }

  function HexWords(ws: seq<bv32>): (s: string)
    ensures |s| == 8 * |ws|
  {
    if ws == [] then [] else HexWords(ws[..|ws| - 1]) + HexBytes(BytesOf(ws[|ws| - 1]))
  }

  function HexOf(r: Regs): (s: string)
    ensures |s| == 64
  {
    HexWords(WordsOf(r))
  }

  lemma HexDigitTells(v: Byte, w: Byte)
    requires v < 16 && w < 16 && HexDigit(v) == HexDigit(w)
    ensures v == w
  {
  }

  lemma HexByteTells(v: Byte, w: Byte)
    requires HexByte(v) == HexByte(w)
    ensures v == w
  {
    assert HexByte(v)[0] == HexByte(w)[0] && HexByte(v)[1] == HexByte(w)[1];
    HexDigitTells(v >> 4, w >> 4);
    HexDigitTells(v & 0xF, w & 0xF);
    NibblesTell(v, w);
  }

  lemma NibblesTell(v: Byte, w: Byte)
    requires v >> 4 == w >> 4 && v & 0xF == w & 0xF
    ensures v == w
  {
  }

  lemma {:induction false} HexBytesTell(x: seq<Byte>, y: seq<Byte>)
    requires HexBytes(x) == HexBytes(y)
    ensures x == y
  {
    if x != [] && y != [] {
      var n := 2 * (|x| - 1);
      assert HexBytes(x)[..n] == HexBytes(x[..|x| - 1]) && HexBytes(y)[..n] == HexBytes(y[..|y| - 1]);
      assert HexBytes(x)[n..] == HexByte(x[|x| - 1]) && HexBytes(y)[n..] == HexByte(y[|y| - 1]);
      HexBytesTell(x[..|x| - 1], y[..|y| - 1]);
      HexByteTells(x[|x| - 1], y[|y| - 1]);
      assert x == x[..|x| - 1] + [x[|x| - 1]] && y == y[..|y| - 1] + [y[|y| - 1]];
    }
  }

  lemma BytesTell(v: bv32, w: bv32)
    requires ByteAt(v, 0) == ByteAt(w, 0) && ByteAt(v, 1) == ByteAt(w, 1)
    requires ByteAt(v, 2) == ByteAt(w, 2) && ByteAt(v, 3) == ByteAt(w, 3)
    ensures v == w
  {
  }

  lemma WordTells(v: bv32, w: bv32)
    requires HexBytes(BytesOf(v)) == HexBytes(BytesOf(w))
    ensures v == w
  {
    HexBytesTell(BytesOf(v), BytesOf(w));
    assert BytesOf(v)[0] == BytesOf(w)[0] && BytesOf(v)[1] == BytesOf(w)[1];
    assert BytesOf(v)[2] == BytesOf(w)[2] && BytesOf(v)[3] == BytesOf(w)[3];
    BytesTell(v, w);
  }

  lemma {:induction false} HexWordsTell(x: seq<bv32>, y: seq<bv32>)
    requires HexWords(x) == HexWords(y)
    ensures x == y
  {
    if x != [] && y != [] {
      var n := 8 * (|x| - 1);
      assert HexWords(x)[..n] == HexWords(x[..|x| - 1]) && HexWords(y)[..n] == HexWords(y[..|y| - 1]);
      assert HexWords(x)[n..] == HexBytes(BytesOf(x[|x| - 1])) && HexWords(y)[n..] == HexBytes(BytesOf(y[|y| - 1]));
      HexWordsTell(x[..|x| - 1], y[..|y| - 1]);
      WordTells(x[|x| - 1], y[|y| - 1]);
      assert x == x[..|x| - 1] + [x[|x| - 1]] && y == y[..|y| - 1] + [y[|y| - 1]];
    }
  }

  /** Different hash values print differently. */
  lemma DigestTells(x: Regs, y: Regs)
    requires HexOf(x) == HexOf(y)
    ensures x == y
  {
    HexWordsTell(WordsOf(x), WordsOf(y));
    var v, w := WordsOf(x), WordsOf(y);
    assert v[0] == w[0] && v[1] == w[1] && v[2] == w[2] && v[3] == w[3];
    assert v[4] == w[4] && v[5] == w[5] && v[6] == w[6] && v[7] == w[7];
  }

  // --- the whole computation ----------------------------------------------------------------------------------------

  function Power256(k: nat): nat {
    if k == 0 then 1 else 256 * Power256(k - 1)
  }

  lemma {:induction false} PowerPositive(k: nat)
    ensures Power256(k) > 0
  {
    if k > 0 { PowerPositive(k - 1); }
  }

  /** Byte i of the big-endian form. */
  lemma {:induction false} BigEndianAt(n: nat, k: nat, i: nat)
    requires i < k
    ensures Power256(k - 1 - i) > 0
    ensures BigEndian(n, k)[i] == ((n / Power256(k - 1 - i)) % 256) as Byte
  {
    PowerPositive(k - 1 - i);
    if i < k - 1 {
      BigEndianAt(n / 256, k - 1, i);
      PowerPositive(k - 2 - i);
      DivTwice(n, 256, Power256(k - 2 - i));
    } else {
      assert Power256(0) == 1 && n / 1 == n;
    }
  }

  /** The bit length as eight bytes. */
  method LengthBytes(bitlen: nat) returns (s: seq<Byte>)
    ensures s == BigEndian(bitlen, 8)
  {
    s := [];
    for i := 0 to 8
      invariant s == BigEndian(bitlen, 8)[..i]
    {
      BigEndianAt(bitlen, 8, i);
      s := s + [((bitlen / Power256(7 - i)) % 256) as Byte];
    }
  }

  lemma ZerosStopAt(n: nat, z: nat)
    requires z <= ZeroCount(n)
    ensures (n + 1 + z) % 64 == 56 <==> z == ZeroCount(n)
  {
  }

  lemma ZerosSnoc(s: seq<Byte>, z: nat)
    ensures s + Zeros(0) == s
    ensures s + Zeros(z) + [0] == s + Zeros(z + 1) && |s + Zeros(z)| == |s| + z
  {
  }

  lemma BufferedCount(c: Context)
    requires c.Valid()
    ensures c.bufLen == |c.fed| % 64
  {
  }

  lemma WholeDigest(ks: seq<bv32>, start: Regs, h: Regs, rest: seq<Byte>, fed: seq<Byte>)
    requires |ks| == 64 && Digested(ks, start, h, rest, fed) && |fed| % 64 == 0
    ensures h == HashBlocks(ks, start, fed)
  {
    assert fed[..|fed|] == fed;
  }

  /** The zeros are enough exactly when the buffer holds all but eight bytes of a block. */
  lemma ZerosAreEnough(held: nat, fed: nat, n: nat, z: nat)
    requires held == fed % 64 && fed == n + 1 + z && z <= ZeroCount(n)
    ensures held == 56 <==> z == ZeroCount(n)
  {
    ZerosStopAt(n, z);
  }

  /** Feeds zeros until eight bytes of the block are left. */
  method PadZeros(c: Context, ghost n: nat)
    requires c.Valid() && |c.fed| == n + 1
    modifies c, c.buf
    ensures c.Valid() && c.buf == old(c.buf) && c.fed == old(c.fed) + Zeros(ZeroCount(n))
  {
    ghost var before, z := c.fed, 0;
    ZerosSnoc(before, 0);
    BufferedCount(c);
    ZerosAreEnough(c.bufLen, |c.fed|, n, 0);
    while c.bufLen != 56
      invariant c.Valid() && c.buf == old(c.buf)
      invariant z <= ZeroCount(n) && c.fed == before + Zeros(z)
      invariant c.bufLen == 56 <==> z == ZeroCount(n)
      decreases ZeroCount(n) - z
    {
      ZerosSnoc(before, z);
      c.Update([0]);
      z := z + 1;
      BufferedCount(c);
      ZerosAreEnough(c.bufLen, |c.fed|, n, z);
    }
  }

  lemma NoWrap(n: nat)
    requires 8 * n < WRAP
    ensures n * 8 % WRAP == 8 * n
  {
  }

  lemma PaddedParts(m: seq<Byte>, bytes: seq<Byte>)
    requires bytes == BigEndian(8 * |m|, 8)
    ensures m + [0x80] + Zeros(ZeroCount(|m|)) + bytes == Padded(m)
  {
  }

  /** Feeds the padding: one byte 0x80, zeros, and the bit length. */
  method Pad(c: Context, ghost m: seq<Byte>)
    requires c.Valid() && c.fed == m && c.len == |m| && 8 * |m| < WRAP
    modifies c, c.buf
    ensures c.Valid() && c.buf == old(c.buf) && c.fed == Padded(m)
  {
    var bitlen := c.len * 8 % WRAP;
    c.Update([0x80]);
    NoWrap(|m|);
    PadZeros(c, |m|);
    var lenbe := LengthBytes(bitlen);
    PaddedParts(m, lenbe);
    c.Rewind(8);
    c.Update(lenbe);
  }

  /** Pads and hashes a message, and prints the digest. */
  method Sha256Hex(bytes: seq<Byte>) returns (out: string)
    requires 8 * |bytes| < WRAP
    ensures out == HexOf(Hash(bytes))
  {
    var h := Digest(ROUND_WORDS, INITIAL, bytes);
    out := PrintDigest(h);
  }

  method Digest(ks: seq<bv32>, start: Regs, bytes: seq<Byte>) returns (h: Regs)
    requires |ks| == 64 && 8 * |bytes| < WRAP
    ensures h == HashBlocks(ks, start, Padded(bytes))
  {
    var c := Start(ks, start, bytes);
    Pad(c, bytes);
    PaddedIsWhole(bytes);
    h := Finish(c);
  }

  /** A new context fed with the message. */
  method Start(ks: seq<bv32>, start: Regs, bytes: seq<Byte>) returns (c: Context)
    requires |ks| == 64 && |bytes| < WRAP
    ensures fresh(c) && fresh(c.buf) && c.Valid() && c.ks == ks && c.start == start
    ensures c.fed == bytes && c.len == |bytes|
  {
    c := new Context(ks, start);
    c.Update(bytes);
    FirstFed(c.fed, c.len, bytes);
  }

  lemma FirstFed(fed: seq<Byte>, len: nat, bytes: seq<Byte>)
    requires fed == [] + bytes && len == (0 + |bytes|) % WRAP && |bytes| < WRAP
    ensures fed == bytes && len == |bytes|
  {
  }

  method Finish(c: Context) returns (h: Regs)
    requires c.Valid() && |c.fed| % 64 == 0
    ensures h == HashBlocks(c.ks, c.start, c.fed)
  {
    WholeDigest(c.ks, c.start, c.h, c.buf[..c.bufLen], c.fed);
    h := c.h;
  }

  method PrintWord(w: bv32) returns (s: string)
    ensures s == HexBytes(BytesOf(w))
  {
    s := [];
    var bytes := BytesOf(w);
    for b := 4 downto 0
      invariant s == HexBytes(bytes[..4 - b])
    {
      var v := ByteAt(w, b);
      var next := bytes[..4 - b];
      assert next[..|next| - 1] == bytes[..3 - b] && next[|next| - 1] == v;
      s := s + HexByte(v);
    }
    assert bytes[..4] == bytes;
  }

  method PrintDigest(h: Regs) returns (out: string)
    ensures out == HexOf(h)
  {
    out := [];
    var ws := WordsOf(h);
    for i := 0 to 8
      invariant out == HexWords(ws[..i])
    {
      var word := PrintWord(ws[i]);
      var next := ws[..i + 1];
      assert next[..|next| - 1] == ws[..i] && next[|next| - 1] == ws[i];
      out := out + word;
    }
    assert ws[..8] == ws;
  }
}
