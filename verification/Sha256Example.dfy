/** A worked example: the message "abc", step by step to its digest (appendix B.1 of FIPS 180-2). */
module Sha256Example {
  import opened Sha256

  const ABC: seq<Byte> := [0x61, 0x62, 0x63]

  // --- the schedule ------------------------------------------------------------------------------------

  /** The schedule of its only block, eight words at a time. */
  const W0: seq<bv32> := [0x61626380, 0x00000000, 0x00000000, 0x00000000, 0x00000000, 0x00000000, 0x00000000,
                          0x00000000]
  const W1: seq<bv32> := [0x00000000, 0x00000000, 0x00000000, 0x00000000, 0x00000000, 0x00000000, 0x00000000,
                          0x00000018]
  const W2: seq<bv32> := [0x61626380, 0x000f0000, 0x7da86405, 0x600003c6, 0x3e9d7b78, 0x0183fc00, 0x12dcbfdb,
                          0xe2e2c38e]
  const W3: seq<bv32> := [0xc8215c1a, 0xb73679a2, 0xe5bc3909, 0x32663c5b, 0x9d209d67, 0xec8726cb, 0x702138a4,
                          0xd3b7973b]
  const W4: seq<bv32> := [0x93f5997f, 0x3b68ba73, 0xaff4ffc1, 0xf10a5c62, 0x0a8b3996, 0x72af830a, 0x9409e33e,
                          0x24641522]
  const W5: seq<bv32> := [0x9f47bf94, 0xf0a64f5a, 0x3e246a79, 0x27333ba3, 0x0c4763f2, 0x840abf27, 0x7a290d5d,
                          0x065c43da]
  const W6: seq<bv32> := [0xfb3e89cb, 0xcc7617db, 0xb9e66c34, 0xa9993667, 0x84badedd, 0xc21462bc, 0x1487472c,
                          0xb20f7a99]
  const W7: seq<bv32> := [0xef57b9cd, 0xebe6b238, 0x9fe3095e, 0x78bc8d4b, 0xa43fcf15, 0x668b2ff8, 0xeeaba2cc,
                          0x12b1edeb]

  /** The word of the schedule that follows from those two, seven, fifteen and sixteen before it. */
  function NextWord(w2: bv32, w7: bv32, w15: bv32, w16: bv32): bv32 {
    Add(Add(Add(SmallSigma1(w2), w7), SmallSigma0(w15)), w16)
  }

  type Next = (bv32, bv32, bv32, bv32) -> bv32

  /** w is a schedule from its first sixteen words on. */
  ghost predicate Expanded(next: Next, w: seq<bv32>) {
    |w| == 64 && forall t: nat :: 16 <= t < 64 ==> ExpandedAt(next, w, t)
  }

  ghost predicate ExpandedAt(next: Next, w: seq<bv32>, t: nat)
    requires 16 <= t < |w|
  {
    w[t] == next(w[t - 2], w[t - 7], w[t - 15], w[t - 16])
  }

  ghost predicate EightAt(w: seq<bv32>, t: nat, ws: seq<bv32>) {
    && |ws| == 8 && t + 8 <= |w|
    && w[t] == ws[0] && w[t + 1] == ws[1] && w[t + 2] == ws[2] && w[t + 3] == ws[3]
    && w[t + 4] == ws[4] && w[t + 5] == ws[5] && w[t + 6] == ws[6] && w[t + 7] == ws[7]
  }

  /** The schedule of a block as a sequence. */
  ghost function ScheduleOf(block: seq<Byte>): (w: seq<bv32>)
    requires |block| == 64
    ensures |w| == 64
  {
    seq(64, t requires 0 <= t < 64 => Schedule(block, t))
  }

  lemma ScheduleWord(block: seq<Byte>, t: nat)
    requires |block| == 64 && t < 64
    ensures ScheduleOf(block)[t] == Schedule(block, t)
  {
  }

  lemma ScheduleNext(block: seq<Byte>, t: nat)
    requires |block| == 64 && t >= 16
    ensures Schedule(block, t) == NextWord(Schedule(block, t - 2), Schedule(block, t - 7), Schedule(block, t - 15),
                                           Schedule(block, t - 16))
  {
  }

  lemma ScheduleExpandsAt(block: seq<Byte>, t: nat)
    requires |block| == 64 && 16 <= t < 64
    ensures ExpandedAt(NextWord, ScheduleOf(block), t)
  {
    ScheduleNext(block, t);
    ScheduleWord(block, t);
    ScheduleWord(block, t - 2);
    ScheduleWord(block, t - 7);
    ScheduleWord(block, t - 15);
    ScheduleWord(block, t - 16);
  }

  lemma ScheduleExpands(block: seq<Byte>)
    requires |block| == 64
    ensures Expanded(NextWord, ScheduleOf(block))
  {
    forall t: nat | 16 <= t < 64 ensures ExpandedAt(NextWord, ScheduleOf(block), t) { ScheduleExpandsAt(block, t); }
  }

  /** Eight words of the schedule, from the sixteen before them. */
  ghost predicate Extends(next: Next, p: seq<bv32>, q: seq<bv32>, ws: seq<bv32>)
    requires |p| == 8 && |q| == 8 && |ws| == 8
  {
    && ws[0] == next(q[6], q[1], p[1], p[0]) && ws[1] == next(q[7], q[2], p[2], p[1])
    && ws[2] == next(ws[0], q[3], p[3], p[2]) && ws[3] == next(ws[1], q[4], p[4], p[3])
    && ws[4] == next(ws[2], q[5], p[5], p[4]) && ws[5] == next(ws[3], q[6], p[6], p[5])
    && ws[6] == next(ws[4], q[7], p[7], p[6]) && ws[7] == next(ws[5], ws[0], q[0], p[7])
  }

  lemma ScheduleExtends(next: Next, w: seq<bv32>, t: nat, p: seq<bv32>, q: seq<bv32>, ws: seq<bv32>)
    requires Expanded(next, w) && EightAt(w, t, p) && EightAt(w, t + 8, q) && t + 24 <= 64
    requires |ws| == 8 && Extends(next, p, q, ws)
    ensures EightAt(w, t + 16, ws)
  {
    assert ExpandedAt(next, w, t + 16) && ExpandedAt(next, w, t + 17);
    assert ExpandedAt(next, w, t + 18) && ExpandedAt(next, w, t + 19);
    assert ExpandedAt(next, w, t + 20) && ExpandedAt(next, w, t + 21);
    assert ExpandedAt(next, w, t + 22) && ExpandedAt(next, w, t + 23);
  }

  lemma Words2()
    ensures Extends(NextWord, W0, W1, W2)
  {
    assert NextWord(0x00000000, 0x00000000, 0x00000000, 0x61626380) == 0x61626380;
    assert NextWord(0x00000018, 0x00000000, 0x00000000, 0x00000000) == 0x000f0000;
    assert NextWord(0x61626380, 0x00000000, 0x00000000, 0x00000000) == 0x7da86405;
    assert NextWord(0x000f0000, 0x00000000, 0x00000000, 0x00000000) == 0x600003c6;
    assert NextWord(0x7da86405, 0x00000000, 0x00000000, 0x00000000) == 0x3e9d7b78;
    assert NextWord(0x600003c6, 0x00000000, 0x00000000, 0x00000000) == 0x0183fc00;
    assert NextWord(0x3e9d7b78, 0x00000018, 0x00000000, 0x00000000) == 0x12dcbfdb;
    assert NextWord(0x0183fc00, 0x61626380, 0x00000000, 0x00000000) == 0xe2e2c38e;
  }

  lemma Words3()
    ensures Extends(NextWord, W1, W2, W3)
  {
    assert NextWord(0x12dcbfdb, 0x000f0000, 0x00000000, 0x00000000) == 0xc8215c1a;
    assert NextWord(0xe2e2c38e, 0x7da86405, 0x00000000, 0x00000000) == 0xb73679a2;
    assert NextWord(0xc8215c1a, 0x600003c6, 0x00000000, 0x00000000) == 0xe5bc3909;
    assert NextWord(0xb73679a2, 0x3e9d7b78, 0x00000000, 0x00000000) == 0x32663c5b;
    assert NextWord(0xe5bc3909, 0x0183fc00, 0x00000000, 0x00000000) == 0x9d209d67;
    assert NextWord(0x32663c5b, 0x12dcbfdb, 0x00000000, 0x00000000) == 0xec8726cb;
    assert NextWord(0x9d209d67, 0xe2e2c38e, 0x00000018, 0x00000000) == 0x702138a4;
    assert NextWord(0xec8726cb, 0xc8215c1a, 0x61626380, 0x00000018) == 0xd3b7973b;
  }

  lemma Words4()
    ensures Extends(NextWord, W2, W3, W4)
  {
    assert NextWord(0x702138a4, 0xb73679a2, 0x000f0000, 0x61626380) == 0x93f5997f;
    assert NextWord(0xd3b7973b, 0xe5bc3909, 0x7da86405, 0x000f0000) == 0x3b68ba73;
    assert NextWord(0x93f5997f, 0x32663c5b, 0x600003c6, 0x7da86405) == 0xaff4ffc1;
    assert NextWord(0x3b68ba73, 0x9d209d67, 0x3e9d7b78, 0x600003c6) == 0xf10a5c62;
    assert NextWord(0xaff4ffc1, 0xec8726cb, 0x0183fc00, 0x3e9d7b78) == 0x0a8b3996;
    assert NextWord(0xf10a5c62, 0x702138a4, 0x12dcbfdb, 0x0183fc00) == 0x72af830a;
    assert NextWord(0x0a8b3996, 0xd3b7973b, 0xe2e2c38e, 0x12dcbfdb) == 0x9409e33e;
    assert NextWord(0x72af830a, 0x93f5997f, 0xc8215c1a, 0xe2e2c38e) == 0x24641522;
  }

  lemma Words5()
    ensures Extends(NextWord, W3, W4, W5)
  {
    assert NextWord(0x9409e33e, 0x3b68ba73, 0xb73679a2, 0xc8215c1a) == 0x9f47bf94;
    assert NextWord(0x24641522, 0xaff4ffc1, 0xe5bc3909, 0xb73679a2) == 0xf0a64f5a;
    assert NextWord(0x9f47bf94, 0xf10a5c62, 0x32663c5b, 0xe5bc3909) == 0x3e246a79;
    assert NextWord(0xf0a64f5a, 0x0a8b3996, 0x9d209d67, 0x32663c5b) == 0x27333ba3;
    assert NextWord(0x3e246a79, 0x72af830a, 0xec8726cb, 0x9d209d67) == 0x0c4763f2;
    assert NextWord(0x27333ba3, 0x9409e33e, 0x702138a4, 0xec8726cb) == 0x840abf27;
    assert NextWord(0x0c4763f2, 0x24641522, 0xd3b7973b, 0x702138a4) == 0x7a290d5d;
    assert NextWord(0x840abf27, 0x9f47bf94, 0x93f5997f, 0xd3b7973b) == 0x065c43da;
  }

  lemma Words6()
    ensures Extends(NextWord, W4, W5, W6)
  {
    assert NextWord(0x7a290d5d, 0xf0a64f5a, 0x3b68ba73, 0x93f5997f) == 0xfb3e89cb;
    assert NextWord(0x065c43da, 0x3e246a79, 0xaff4ffc1, 0x3b68ba73) == 0xcc7617db;
    assert NextWord(0xfb3e89cb, 0x27333ba3, 0xf10a5c62, 0xaff4ffc1) == 0xb9e66c34;
    assert NextWord(0xcc7617db, 0x0c4763f2, 0x0a8b3996, 0xf10a5c62) == 0xa9993667;
    assert NextWord(0xb9e66c34, 0x840abf27, 0x72af830a, 0x0a8b3996) == 0x84badedd;
    assert NextWord(0xa9993667, 0x7a290d5d, 0x9409e33e, 0x72af830a) == 0xc21462bc;
    assert NextWord(0x84badedd, 0x065c43da, 0x24641522, 0x9409e33e) == 0x1487472c;
    assert NextWord(0xc21462bc, 0xfb3e89cb, 0x9f47bf94, 0x24641522) == 0xb20f7a99;
  }

  lemma Words7()
    ensures Extends(NextWord, W5, W6, W7)
  {
    assert NextWord(0x1487472c, 0xcc7617db, 0xf0a64f5a, 0x9f47bf94) == 0xef57b9cd;
    assert NextWord(0xb20f7a99, 0xb9e66c34, 0x3e246a79, 0xf0a64f5a) == 0xebe6b238;
    assert NextWord(0xef57b9cd, 0xa9993667, 0x27333ba3, 0x3e246a79) == 0x9fe3095e;
    assert NextWord(0xebe6b238, 0x84badedd, 0x0c4763f2, 0x27333ba3) == 0x78bc8d4b;
    assert NextWord(0x9fe3095e, 0xc21462bc, 0x840abf27, 0x0c4763f2) == 0xa43fcf15;
    assert NextWord(0x78bc8d4b, 0x1487472c, 0x7a290d5d, 0x840abf27) == 0x668b2ff8;
    assert NextWord(0xa43fcf15, 0xb20f7a99, 0x065c43da, 0x7a290d5d) == 0xeeaba2cc;
    assert NextWord(0x668b2ff8, 0xef57b9cd, 0xfb3e89cb, 0x065c43da) == 0x12b1edeb;
  }

  /** w is the schedule of the example. */
  ghost predicate IsExample(w: seq<bv32>) {
    && EightAt(w, 0, W0) && EightAt(w, 8, W1) && EightAt(w, 16, W2) && EightAt(w, 24, W3)
    && EightAt(w, 32, W4) && EightAt(w, 40, W5) && EightAt(w, 48, W6) && EightAt(w, 56, W7)
  }

  lemma ScheduleIsExample(w: seq<bv32>)
    requires Expanded(NextWord, w) && EightAt(w, 0, W0) && EightAt(w, 8, W1)
    ensures IsExample(w)
  {
    Words2();
    ScheduleExtends(NextWord, w, 0, W0, W1, W2);
    Words3();
    ScheduleExtends(NextWord, w, 8, W1, W2, W3);
    Words4();
    ScheduleExtends(NextWord, w, 16, W2, W3, W4);
    Words5();
    ScheduleExtends(NextWord, w, 24, W3, W4, W5);
    Words6();
    ScheduleExtends(NextWord, w, 32, W4, W5, W6);
    Words7();
    ScheduleExtends(NextWord, w, 40, W5, W6, W7);
  }

  // --- the rounds ---------------------------------------------------------------------------------------

  /** The working variables after every fourth round. */
  const R0 := Regs(0x6a09e667, 0xbb67ae85, 0x3c6ef372, 0xa54ff53a,
                 0x510e527f, 0x9b05688c, 0x1f83d9ab, 0x5be0cd19)
  const R4 := Regs(0xd550f666, 0xc8c347a7, 0x5a6ad9ad, 0x5d6aebcd,
                 0x24e00850, 0xf92939eb, 0x78ce7989, 0xfa2a4622)
  const R8 := Regs(0x85a07b5f, 0xe5030380, 0x2b4209f5, 0x04409a6a,
                 0x0c657a79, 0x9b27a401, 0x714260ad, 0x43ada245)
  const R12 := Regs(0xf71fc5a9, 0x4798a3f4, 0x8c87346b, 0x8e04ecb9,
                  0x816fd6e9, 0x436b23e8, 0x1cc92596, 0x32ca2d8c)
  const R16 := Regs(0xb0fa238e, 0xc0645fde, 0xd932eb16, 0x87912990,
                  0x07590dcd, 0x0b92f20c, 0x745a48de, 0x1e578218)
  const R20 := Regs(0xe1f20c33, 0xfe777bbf, 0xc2fbd9d1, 0x21da9a9b,
                  0xb0638179, 0xcc899961, 0x846ee454, 0x8034229c)
  const R24 := Regs(0xc5d53d8d, 0xa7a3623f, 0xc2606d6d, 0x9dc68b63,
                  0xaa47c347, 0x49f5114a, 0xe1257970, 0x8ada8930)
  const R28 := Regs(0x77d37528, 0xb62ec4bc, 0xcde8037d, 0x1c2c2838,
                  0xedffbff8, 0xc74c6516, 0x14383d8e, 0x2823ef91)
  const R32 := Regs(0x73b33bf5, 0xea992a22, 0xa0060b30, 0x363482c9,
                  0xba591112, 0x0109ab3a, 0xade79437, 0x6112a3b7)
  const R36 := Regs(0x65a0cfe4, 0xa9a7738c, 0xfe604df5, 0x98e12507,
                  0xf4b002d6, 0x085f3833, 0x59249dd3, 0x9cd9f5f6)
  const R40 := Regs(0x79ea687a, 0x6dc57a8a, 0x34df1604, 0x41a65cb1,
                  0x1efbc0a0, 0xf0781bc8, 0xa507a53d, 0x0772a26b)
  const R44 := Regs(0x9d4baf93, 0x17aa0dfe, 0xdf46652f, 0xd6670766,
                  0xfda24c2e, 0xdecd4715, 0x838b2711, 0x26352d63)
  const R48 := Regs(0x4172328d, 0xa14c14b0, 0x72ab4b91, 0x26628815,
                  0xfecf0bc6, 0xd57b94a9, 0xb7755da1, 0xa80f11f0)
  const R52 := Regs(0x886e7a22, 0x7a0508a1, 0xf11bfaa8, 0x05757ceb,
                  0x49231c1e, 0x52f1ccf7, 0x6e5c390c, 0xbd714038)
  const R56 := Regs(0x38cc9913, 0x3ec45cdb, 0xf5702fdb, 0x101fd28f,
                  0x54cb266b, 0xe50e1b4f, 0x9f4787c3, 0x529e7d00)
  const R60 := Regs(0xb6ae8fff, 0xffb70472, 0xc062d46f, 0xfcd1887b,
                  0xb21bad3d, 0x6d83bfc6, 0x7e44008e, 0x9b5e906c)
  const R64 := Regs(0x506e3058, 0xd39a2165, 0x04d24d6c, 0xb85e2ce9,
                  0x5ef50f24, 0xfb121210, 0x948d25b6, 0x961f4894)

  function FourRounds(r: Regs, k: seq<bv32>, w: seq<bv32>, i: nat): Regs
    requires i + 4 <= |k| && i + 4 <= |w|
  {
    Round(Round(Round(Round(r, k[i], w[i]), k[i + 1], w[i + 1]), k[i + 2], w[i + 2]), k[i + 3], w[i + 3])
  }

  lemma Rounds0()
    ensures FourRounds(R0, WORDS0, W0, 0) == R4
  {
    var r1 := Regs(0x5d6aebcd, 0x6a09e667, 0xbb67ae85, 0x3c6ef372,
                   0xfa2a4622, 0x510e527f, 0x9b05688c, 0x1f83d9ab);
    var r2 := Regs(0x5a6ad9ad, 0x5d6aebcd, 0x6a09e667, 0xbb67ae85,
                   0x78ce7989, 0xfa2a4622, 0x510e527f, 0x9b05688c);
    var r3 := Regs(0xc8c347a7, 0x5a6ad9ad, 0x5d6aebcd, 0x6a09e667,
                   0xf92939eb, 0x78ce7989, 0xfa2a4622, 0x510e527f);
    assert Round(R0, 0x428a2f98, 0x61626380) == r1;
    assert Round(r1, 0x71374491, 0x00000000) == r2;
    assert Round(r2, 0xb5c0fbcf, 0x00000000) == r3;
    assert Round(r3, 0xe9b5dba5, 0x00000000) == R4;
  }

  lemma Rounds4()
    ensures FourRounds(R4, WORDS0, W0, 4) == R8
  {
    var r1 := Regs(0x04409a6a, 0xd550f666, 0xc8c347a7, 0x5a6ad9ad,
                   0x43ada245, 0x24e00850, 0xf92939eb, 0x78ce7989);
    var r2 := Regs(0x2b4209f5, 0x04409a6a, 0xd550f666, 0xc8c347a7,
                   0x714260ad, 0x43ada245, 0x24e00850, 0xf92939eb);
    var r3 := Regs(0xe5030380, 0x2b4209f5, 0x04409a6a, 0xd550f666,
                   0x9b27a401, 0x714260ad, 0x43ada245, 0x24e00850);
    assert Round(R4, 0x3956c25b, 0x00000000) == r1;
    assert Round(r1, 0x59f111f1, 0x00000000) == r2;
    assert Round(r2, 0x923f82a4, 0x00000000) == r3;
    assert Round(r3, 0xab1c5ed5, 0x00000000) == R8;
  }

  lemma Rounds8()
    ensures FourRounds(R8, WORDS1, W1, 0) == R12
  {
    var r1 := Regs(0x8e04ecb9, 0x85a07b5f, 0xe5030380, 0x2b4209f5,
                   0x32ca2d8c, 0x0c657a79, 0x9b27a401, 0x714260ad);
    var r2 := Regs(0x8c87346b, 0x8e04ecb9, 0x85a07b5f, 0xe5030380,
                   0x1cc92596, 0x32ca2d8c, 0x0c657a79, 0x9b27a401);
    var r3 := Regs(0x4798a3f4, 0x8c87346b, 0x8e04ecb9, 0x85a07b5f,
                   0x436b23e8, 0x1cc92596, 0x32ca2d8c, 0x0c657a79);
    assert Round(R8, 0xd807aa98, 0x00000000) == r1;
    assert Round(r1, 0x12835b01, 0x00000000) == r2;
    assert Round(r2, 0x243185be, 0x00000000) == r3;
    assert Round(r3, 0x550c7dc3, 0x00000000) == R12;
  }

  lemma Rounds12()
    ensures FourRounds(R12, WORDS1, W1, 4) == R16
  {
    var r1 := Regs(0x87912990, 0xf71fc5a9, 0x4798a3f4, 0x8c87346b,
                   0x1e578218, 0x816fd6e9, 0x436b23e8, 0x1cc92596);
    var r2 := Regs(0xd932eb16, 0x87912990, 0xf71fc5a9, 0x4798a3f4,
                   0x745a48de, 0x1e578218, 0x816fd6e9, 0x436b23e8);
    var r3 := Regs(0xc0645fde, 0xd932eb16, 0x87912990, 0xf71fc5a9,
                   0x0b92f20c, 0x745a48de, 0x1e578218, 0x816fd6e9);
    assert Round(R12, 0x72be5d74, 0x00000000) == r1;
    assert Round(r1, 0x80deb1fe, 0x00000000) == r2;
    assert Round(r2, 0x9bdc06a7, 0x00000000) == r3;
    assert Round(r3, 0xc19bf174, 0x00000018) == R16;
  }

  lemma Rounds16()
    ensures FourRounds(R16, WORDS2, W2, 0) == R20
  {
    var r1 := Regs(0x21da9a9b, 0xb0fa238e, 0xc0645fde, 0xd932eb16,
                   0x8034229c, 0x07590dcd, 0x0b92f20c, 0x745a48de);
    var r2 := Regs(0xc2fbd9d1, 0x21da9a9b, 0xb0fa238e, 0xc0645fde,
                   0x846ee454, 0x8034229c, 0x07590dcd, 0x0b92f20c);
    var r3 := Regs(0xfe777bbf, 0xc2fbd9d1, 0x21da9a9b, 0xb0fa238e,
                   0xcc899961, 0x846ee454, 0x8034229c, 0x07590dcd);
    assert Round(R16, 0xe49b69c1, 0x61626380) == r1;
    assert Round(r1, 0xefbe4786, 0x000f0000) == r2;
    assert Round(r2, 0x0fc19dc6, 0x7da86405) == r3;
    assert Round(r3, 0x240ca1cc, 0x600003c6) == R20;
  }

  lemma Rounds20()
    ensures FourRounds(R20, WORDS2, W2, 4) == R24
  {
    var r1 := Regs(0x9dc68b63, 0xe1f20c33, 0xfe777bbf, 0xc2fbd9d1,
                   0x8ada8930, 0xb0638179, 0xcc899961, 0x846ee454);
    var r2 := Regs(0xc2606d6d, 0x9dc68b63, 0xe1f20c33, 0xfe777bbf,
                   0xe1257970, 0x8ada8930, 0xb0638179, 0xcc899961);
    var r3 := Regs(0xa7a3623f, 0xc2606d6d, 0x9dc68b63, 0xe1f20c33,
                   0x49f5114a, 0xe1257970, 0x8ada8930, 0xb0638179);
    assert Round(R20, 0x2de92c6f, 0x3e9d7b78) == r1;
    assert Round(r1, 0x4a7484aa, 0x0183fc00) == r2;
    assert Round(r2, 0x5cb0a9dc, 0x12dcbfdb) == r3;
    assert Round(r3, 0x76f988da, 0xe2e2c38e) == R24;
  }

  lemma Rounds24()
    ensures FourRounds(R24, WORDS3, W3, 0) == R28
  {
    var r1 := Regs(0x1c2c2838, 0xc5d53d8d, 0xa7a3623f, 0xc2606d6d,
                   0x2823ef91, 0xaa47c347, 0x49f5114a, 0xe1257970);
    var r2 := Regs(0xcde8037d, 0x1c2c2838, 0xc5d53d8d, 0xa7a3623f,
                   0x14383d8e, 0x2823ef91, 0xaa47c347, 0x49f5114a);
    var r3 := Regs(0xb62ec4bc, 0xcde8037d, 0x1c2c2838, 0xc5d53d8d,
                   0xc74c6516, 0x14383d8e, 0x2823ef91, 0xaa47c347);
    assert Round(R24, 0x983e5152, 0xc8215c1a) == r1;
    assert Round(r1, 0xa831c66d, 0xb73679a2) == r2;
    assert Round(r2, 0xb00327c8, 0xe5bc3909) == r3;
    assert Round(r3, 0xbf597fc7, 0x32663c5b) == R28;
  }

  lemma Rounds28()
    ensures FourRounds(R28, WORDS3, W3, 4) == R32
  {
    var r1 := Regs(0x363482c9, 0x77d37528, 0xb62ec4bc, 0xcde8037d,
                   0x6112a3b7, 0xedffbff8, 0xc74c6516, 0x14383d8e);
    var r2 := Regs(0xa0060b30, 0x363482c9, 0x77d37528, 0xb62ec4bc,
                   0xade79437, 0x6112a3b7, 0xedffbff8, 0xc74c6516);
    var r3 := Regs(0xea992a22, 0xa0060b30, 0x363482c9, 0x77d37528,
                   0x0109ab3a, 0xade79437, 0x6112a3b7, 0xedffbff8);
    assert Round(R28, 0xc6e00bf3, 0x9d209d67) == r1;
    assert Round(r1, 0xd5a79147, 0xec8726cb) == r2;
    assert Round(r2, 0x06ca6351, 0x702138a4) == r3;
    assert Round(r3, 0x14292967, 0xd3b7973b) == R32;
  }

  lemma Rounds32()
    ensures FourRounds(R32, WORDS4, W4, 0) == R36
  {
    var r1 := Regs(0x98e12507, 0x73b33bf5, 0xea992a22, 0xa0060b30,
                   0x9cd9f5f6, 0xba591112, 0x0109ab3a, 0xade79437);
    var r2 := Regs(0xfe604df5, 0x98e12507, 0x73b33bf5, 0xea992a22,
                   0x59249dd3, 0x9cd9f5f6, 0xba591112, 0x0109ab3a);
    var r3 := Regs(0xa9a7738c, 0xfe604df5, 0x98e12507, 0x73b33bf5,
                   0x085f3833, 0x59249dd3, 0x9cd9f5f6, 0xba591112);
    assert Round(R32, 0x27b70a85, 0x93f5997f) == r1;
    assert Round(r1, 0x2e1b2138, 0x3b68ba73) == r2;
    assert Round(r2, 0x4d2c6dfc, 0xaff4ffc1) == r3;
    assert Round(r3, 0x53380d13, 0xf10a5c62) == R36;
  }

  lemma Rounds36()
    ensures FourRounds(R36, WORDS4, W4, 4) == R40
  {
    var r1 := Regs(0x41a65cb1, 0x65a0cfe4, 0xa9a7738c, 0xfe604df5,
                   0x0772a26b, 0xf4b002d6, 0x085f3833, 0x59249dd3);
    var r2 := Regs(0x34df1604, 0x41a65cb1, 0x65a0cfe4, 0xa9a7738c,
                   0xa507a53d, 0x0772a26b, 0xf4b002d6, 0x085f3833);
    var r3 := Regs(0x6dc57a8a, 0x34df1604, 0x41a65cb1, 0x65a0cfe4,
                   0xf0781bc8, 0xa507a53d, 0x0772a26b, 0xf4b002d6);
    assert Round(R36, 0x650a7354, 0x0a8b3996) == r1;
    assert Round(r1, 0x766a0abb, 0x72af830a) == r2;
    assert Round(r2, 0x81c2c92e, 0x9409e33e) == r3;
    assert Round(r3, 0x92722c85, 0x24641522) == R40;
  }

  lemma Rounds40()
    ensures FourRounds(R40, WORDS5, W5, 0) == R44
  {
    var r1 := Regs(0xd6670766, 0x79ea687a, 0x6dc57a8a, 0x34df1604,
                   0x26352d63, 0x1efbc0a0, 0xf0781bc8, 0xa507a53d);
    var r2 := Regs(0xdf46652f, 0xd6670766, 0x79ea687a, 0x6dc57a8a,
                   0x838b2711, 0x26352d63, 0x1efbc0a0, 0xf0781bc8);
    var r3 := Regs(0x17aa0dfe, 0xdf46652f, 0xd6670766, 0x79ea687a,
                   0xdecd4715, 0x838b2711, 0x26352d63, 0x1efbc0a0);
    assert Round(R40, 0xa2bfe8a1, 0x9f47bf94) == r1;
    assert Round(r1, 0xa81a664b, 0xf0a64f5a) == r2;
    assert Round(r2, 0xc24b8b70, 0x3e246a79) == r3;
    assert Round(r3, 0xc76c51a3, 0x27333ba3) == R44;
  }

  lemma Rounds44()
    ensures FourRounds(R44, WORDS5, W5, 4) == R48
  {
    var r1 := Regs(0x26628815, 0x9d4baf93, 0x17aa0dfe, 0xdf46652f,
                   0xa80f11f0, 0xfda24c2e, 0xdecd4715, 0x838b2711);
    var r2 := Regs(0x72ab4b91, 0x26628815, 0x9d4baf93, 0x17aa0dfe,
                   0xb7755da1, 0xa80f11f0, 0xfda24c2e, 0xdecd4715);
    var r3 := Regs(0xa14c14b0, 0x72ab4b91, 0x26628815, 0x9d4baf93,
                   0xd57b94a9, 0xb7755da1, 0xa80f11f0, 0xfda24c2e);
    assert Round(R44, 0xd192e819, 0x0c4763f2) == r1;
    assert Round(r1, 0xd6990624, 0x840abf27) == r2;
    assert Round(r2, 0xf40e3585, 0x7a290d5d) == r3;
    assert Round(r3, 0x106aa070, 0x065c43da) == R48;
  }

  lemma Rounds48()
    ensures FourRounds(R48, WORDS6, W6, 0) == R52
  {
    var r1 := Regs(0x05757ceb, 0x4172328d, 0xa14c14b0, 0x72ab4b91,
                   0xbd714038, 0xfecf0bc6, 0xd57b94a9, 0xb7755da1);
    var r2 := Regs(0xf11bfaa8, 0x05757ceb, 0x4172328d, 0xa14c14b0,
                   0x6e5c390c, 0xbd714038, 0xfecf0bc6, 0xd57b94a9);
    var r3 := Regs(0x7a0508a1, 0xf11bfaa8, 0x05757ceb, 0x4172328d,
                   0x52f1ccf7, 0x6e5c390c, 0xbd714038, 0xfecf0bc6);
    assert Round(R48, 0x19a4c116, 0xfb3e89cb) == r1;
    assert Round(r1, 0x1e376c08, 0xcc7617db) == r2;
    assert Round(r2, 0x2748774c, 0xb9e66c34) == r3;
    assert Round(r3, 0x34b0bcb5, 0xa9993667) == R52;
  }

  lemma Rounds52()
    ensures FourRounds(R52, WORDS6, W6, 4) == R56
  {
    var r1 := Regs(0x101fd28f, 0x886e7a22, 0x7a0508a1, 0xf11bfaa8,
                   0x529e7d00, 0x49231c1e, 0x52f1ccf7, 0x6e5c390c);
    var r2 := Regs(0xf5702fdb, 0x101fd28f, 0x886e7a22, 0x7a0508a1,
                   0x9f4787c3, 0x529e7d00, 0x49231c1e, 0x52f1ccf7);
    var r3 := Regs(0x3ec45cdb, 0xf5702fdb, 0x101fd28f, 0x886e7a22,
                   0xe50e1b4f, 0x9f4787c3, 0x529e7d00, 0x49231c1e);
    assert Round(R52, 0x391c0cb3, 0x84badedd) == r1;
    assert Round(r1, 0x4ed8aa4a, 0xc21462bc) == r2;
    assert Round(r2, 0x5b9cca4f, 0x1487472c) == r3;
    assert Round(r3, 0x682e6ff3, 0xb20f7a99) == R56;
  }

  lemma Rounds56()
    ensures FourRounds(R56, WORDS7, W7, 0) == R60
  {
    var r1 := Regs(0xfcd1887b, 0x38cc9913, 0x3ec45cdb, 0xf5702fdb,
                   0x9b5e906c, 0x54cb266b, 0xe50e1b4f, 0x9f4787c3);
    var r2 := Regs(0xc062d46f, 0xfcd1887b, 0x38cc9913, 0x3ec45cdb,
                   0x7e44008e, 0x9b5e906c, 0x54cb266b, 0xe50e1b4f);
    var r3 := Regs(0xffb70472, 0xc062d46f, 0xfcd1887b, 0x38cc9913,
                   0x6d83bfc6, 0x7e44008e, 0x9b5e906c, 0x54cb266b);
    assert Round(R56, 0x748f82ee, 0xef57b9cd) == r1;
    assert Round(r1, 0x78a5636f, 0xebe6b238) == r2;
    assert Round(r2, 0x84c87814, 0x9fe3095e) == r3;
    assert Round(r3, 0x8cc70208, 0x78bc8d4b) == R60;
  }

  lemma Rounds60()
    ensures FourRounds(R60, WORDS7, W7, 4) == R64
  {
    var r1 := Regs(0xb85e2ce9, 0xb6ae8fff, 0xffb70472, 0xc062d46f,
                   0x961f4894, 0xb21bad3d, 0x6d83bfc6, 0x7e44008e);
    var r2 := Regs(0x04d24d6c, 0xb85e2ce9, 0xb6ae8fff, 0xffb70472,
                   0x948d25b6, 0x961f4894, 0xb21bad3d, 0x6d83bfc6);
    var r3 := Regs(0xd39a2165, 0x04d24d6c, 0xb85e2ce9, 0xb6ae8fff,
                   0xfb121210, 0x948d25b6, 0x961f4894, 0xb21bad3d);
    assert Round(R60, 0x90befffa, 0xa43fcf15) == r1;
    assert Round(r1, 0xa4506ceb, 0x668b2ff8) == r2;
    assert Round(r2, 0xbef9a3f7, 0xeeaba2cc) == r3;
    assert Round(r3, 0xc67178f2, 0x12b1edeb) == R64;
  }

  ghost predicate Reached(block: seq<Byte>, t: nat, r: Regs)
    requires |block| == 64
  {
    t <= 64 && Rounds(ROUND_WORDS, INITIAL, block, t) == r
  }

  /** The words of the schedule from t on. */
  ghost predicate Scheduled(block: seq<Byte>, t: nat, w: seq<bv32>)
    requires |block| == 64
  {
    && |w| == 8 && t + 8 <= 64
    && Schedule(block, t) == w[0] && Schedule(block, t + 1) == w[1]
    && Schedule(block, t + 2) == w[2] && Schedule(block, t + 3) == w[3]
    && Schedule(block, t + 4) == w[4] && Schedule(block, t + 5) == w[5]
    && Schedule(block, t + 6) == w[6] && Schedule(block, t + 7) == w[7]
  }

  lemma EightScheduled(block: seq<Byte>, t: nat, w: seq<bv32>)
    requires |block| == 64 && EightAt(ScheduleOf(block), t, w)
    ensures Scheduled(block, t, w)
  {
    ScheduleWord(block, t);
    ScheduleWord(block, t + 1);
    ScheduleWord(block, t + 2);
    ScheduleWord(block, t + 3);
    ScheduleWord(block, t + 4);
    ScheduleWord(block, t + 5);
    ScheduleWord(block, t + 6);
    ScheduleWord(block, t + 7);
  }

  lemma FourFrom(ks: seq<bv32>, start: Regs, block: seq<Byte>, t: nat, k: seq<bv32>, w: seq<bv32>)
    requires |ks| == 64 && |block| == 64 && EightAt(ks, t, k) && Scheduled(block, t, w)
    ensures Rounds(ks, start, block, t + 4) == FourRounds(Rounds(ks, start, block, t), k, w, 0)
  {
    OneRound(ks, start, block, t);
    OneRound(ks, start, block, t + 1);
    OneRound(ks, start, block, t + 2);
    OneRound(ks, start, block, t + 3);
  }

  lemma NextFourFrom(ks: seq<bv32>, start: Regs, block: seq<Byte>, t: nat, k: seq<bv32>, w: seq<bv32>)
    requires |ks| == 64 && |block| == 64 && EightAt(ks, t, k) && Scheduled(block, t, w)
    ensures Rounds(ks, start, block, t + 8) == FourRounds(Rounds(ks, start, block, t + 4), k, w, 4)
  {
    OneRound(ks, start, block, t + 4);
    OneRound(ks, start, block, t + 5);
    OneRound(ks, start, block, t + 6);
    OneRound(ks, start, block, t + 7);
  }

  lemma OneRound(ks: seq<bv32>, start: Regs, block: seq<Byte>, t: nat)
    requires |ks| == 64 && |block| == 64 && t < 64
    ensures Rounds(ks, start, block, t + 1) == Round(Rounds(ks, start, block, t), ks[t], Schedule(block, t))
  {
  }

  lemma EightFrom(block: seq<Byte>, t: nat, k: seq<bv32>, w: seq<bv32>, r: Regs, mid: Regs, last: Regs)
    requires |block| == 64 && EightAt(ROUND_WORDS, t, k) && EightAt(ScheduleOf(block), t, w) && Reached(block, t, r)
    requires FourRounds(r, k, w, 0) == mid && FourRounds(mid, k, w, 4) == last
    ensures Reached(block, t + 8, last)
  {
    EightScheduled(block, t, w);
    FourFrom(ROUND_WORDS, INITIAL, block, t, k, w);
    NextFourFrom(ROUND_WORDS, INITIAL, block, t, k, w);
  }

  lemma RoundWordsByEight()
    ensures EightAt(ROUND_WORDS, 0, WORDS0)
    ensures EightAt(ROUND_WORDS, 8, WORDS1)
    ensures EightAt(ROUND_WORDS, 16, WORDS2)
    ensures EightAt(ROUND_WORDS, 24, WORDS3)
    ensures EightAt(ROUND_WORDS, 32, WORDS4)
    ensures EightAt(ROUND_WORDS, 40, WORDS5)
    ensures EightAt(ROUND_WORDS, 48, WORDS6)
    ensures EightAt(ROUND_WORDS, 56, WORDS7)
  {
  }

  lemma FirstSixteen(block: seq<Byte>, t: nat)
    requires |block| == 64 && Reached(block, t, R0)
    requires EightAt(ROUND_WORDS, t, WORDS0) && EightAt(ROUND_WORDS, t + 8, WORDS1)
    requires EightAt(ScheduleOf(block), t, W0) && EightAt(ScheduleOf(block), t + 8, W1)
    ensures Reached(block, t + 16, R16)
  {
    Rounds0();
    Rounds4();
    EightFrom(block, t, WORDS0, W0, R0, R4, R8);
    Rounds8();
    Rounds12();
    EightFrom(block, t + 8, WORDS1, W1, R8, R12, R16);
  }

  lemma SecondSixteen(block: seq<Byte>, t: nat)
    requires |block| == 64 && Reached(block, t, R16)
    requires EightAt(ROUND_WORDS, t, WORDS2) && EightAt(ROUND_WORDS, t + 8, WORDS3)
    requires EightAt(ScheduleOf(block), t, W2) && EightAt(ScheduleOf(block), t + 8, W3)
    ensures Reached(block, t + 16, R32)
  {
    Rounds16();
    Rounds20();
    EightFrom(block, t, WORDS2, W2, R16, R20, R24);
    Rounds24();
    Rounds28();
    EightFrom(block, t + 8, WORDS3, W3, R24, R28, R32);
  }

  lemma ThirdSixteen(block: seq<Byte>, t: nat)
    requires |block| == 64 && Reached(block, t, R32)
    requires EightAt(ROUND_WORDS, t, WORDS4) && EightAt(ROUND_WORDS, t + 8, WORDS5)
    requires EightAt(ScheduleOf(block), t, W4) && EightAt(ScheduleOf(block), t + 8, W5)
    ensures Reached(block, t + 16, R48)
  {
    Rounds32();
    Rounds36();
    EightFrom(block, t, WORDS4, W4, R32, R36, R40);
    Rounds40();
    Rounds44();
    EightFrom(block, t + 8, WORDS5, W5, R40, R44, R48);
  }

  lemma FourthSixteen(block: seq<Byte>, t: nat)
    requires |block| == 64 && Reached(block, t, R48)
    requires EightAt(ROUND_WORDS, t, WORDS6) && EightAt(ROUND_WORDS, t + 8, WORDS7)
    requires EightAt(ScheduleOf(block), t, W6) && EightAt(ScheduleOf(block), t + 8, W7)
    ensures Reached(block, t + 16, R64)
  {
    Rounds48();
    Rounds52();
    EightFrom(block, t, WORDS6, W6, R48, R52, R56);
    Rounds56();
    Rounds60();
    EightFrom(block, t + 8, WORDS7, W7, R56, R60, R64);
  }

  // --- the block ----------------------------------------------------------------------------------------

  lemma {:induction false} ZeroAt(k: nat, i: nat)
    requires i < k
    ensures Sha256.Zeros(k)[i] == 0
  {
    if i < k - 1 { ZeroAt(k - 1, i); }
  }

  lemma {:induction false} LeadingZeros(n: nat, k: nat)
    requires n < 256 && k > 0
    ensures BigEndian(n, k)[k - 1] == n as Byte && forall i :: 0 <= i < k - 1 ==> BigEndian(n, k)[i] == 0
  {
    if k > 1 { LeadingZeros(0, k - 1); }
  }

  /** The message, the byte 0x80, zeros, and the length of 24 bits. */
  ghost predicate IsBlock(block: seq<Byte>, m: seq<Byte>)
    requires |m| == 3
  {
    && |block| == 64 && block[..3] == m && block[3] == 0x80 && block[63] == 24
    && forall i :: 4 <= i < 63 ==> block[i] == 0
  }

  lemma PaddedBytes(m: seq<Byte>, zeros: nat, bits: nat)
    requires |m| == 3 && zeros == ZeroCount(|m|) && bits == 8 * |m|
    ensures IsBlock(Padded(m), m)
  {
    forall i: nat | i < zeros ensures Sha256.Zeros(zeros)[i] == 0 { ZeroAt(zeros, i); }
    LeadingZeros(bits, 8);
  }

  lemma FirstWords(block: seq<Byte>)
    requires IsBlock(block, ABC)
    ensures EightAt(ScheduleOf(block), 0, W0) && EightAt(ScheduleOf(block), 8, W1)
  {
    assert block[0] == block[..3][0] && block[1] == block[..3][1] && block[2] == block[..3][2];
    assert WordOf(0x61, 0x62, 0x63, 0x80) == 0x61626380 && WordOf(0, 0, 0, 0) == 0 && WordOf(0, 0, 0, 24) == 0x18;
    forall t: nat | 1 <= t < 15 ensures Schedule(block, t) == 0 {}
  }

  lemma HashOfOneBlock(m: seq<Byte>)
    requires |Padded(m)| == 64
    ensures Hash(m) == Compress(ROUND_WORDS, INITIAL, Padded(m))
  {
    HashSnoc(ROUND_WORDS, INITIAL, [], Padded(m));
    assert [] + Padded(m) == Padded(m);
  }

  lemma RoundsOfMessage(block: seq<Byte>, t: nat)
    requires |block| == 64 && IsExample(ScheduleOf(block)) && t == 0
    ensures Reached(block, t + 64, R64)
  {
    RoundWordsByEight();
    assert Rounds(ROUND_WORDS, INITIAL, block, t) == R0;
    FirstSixteen(block, t);
    SecondSixteen(block, t + 16);
    ThirdSixteen(block, t + 32);
    FourthSixteen(block, t + 48);
  }

  lemma CompressMessage(block: seq<Byte>)
    requires IsBlock(block, ABC)
    ensures Rounds(ROUND_WORDS, INITIAL, block, 64) == R64
  {
    FirstWords(block);
    ScheduleExpands(block);
    ScheduleIsExample(ScheduleOf(block));
    RoundsOfMessage(block, |block| - 64);
  }

  /** The digest of "abc". */
  lemma DigestOfAbc(m: seq<Byte>)
    requires m == ABC
    ensures Hash(m) == Regs(0xba7816bf, 0x8f01cfea, 0x414140de, 0x5dae2223,
                            0xb00361a3, 0x96177a9c, 0xb410ff61, 0xf20015ad)
  {
    PaddedBytes(m, ZeroCount(|m|), 8 * |m|);
    HashOfOneBlock(m);
    CompressMessage(Padded(m));
  }

  // --- its text -------------------------------------------------------------------------------------------

  function HexWord(w: bv32): string {
    HexByte(ByteAt(w, 3)) + HexByte(ByteAt(w, 2)) + HexByte(ByteAt(w, 1)) + HexByte(ByteAt(w, 0))
  }

  lemma HexBytesStep(bs: seq<Byte>, k: nat)
    requires 0 < k <= |bs|
    ensures HexBytes(bs[..k]) == HexBytes(bs[..k - 1]) + HexByte(bs[k - 1])
  {
    assert bs[..k][..k - 1] == bs[..k - 1];
  }

  lemma HexBytesOf(w: bv32)
    ensures HexBytes(BytesOf(w)) == HexWord(w)
  {
    var bs := BytesOf(w);
    HexBytesStep(bs, 1);
    HexBytesStep(bs, 2);
    HexBytesStep(bs, 3);
    HexBytesStep(bs, 4);
    assert bs[..4] == bs;
  }

  ghost function Joined(f: bv32 -> string, ws: seq<bv32>): string {
    if ws == [] then [] else Joined(f, ws[..|ws| - 1]) + f(ws[|ws| - 1])
  }

  lemma {:induction false} HexWordsJoined(ws: seq<bv32>)
    ensures HexWords(ws) == Joined(HexWord, ws)
  {
    if ws != [] {
      HexWordsJoined(ws[..|ws| - 1]);
      HexBytesOf(ws[|ws| - 1]);
    }
  }

  lemma JoinStep(f: bv32 -> string, ws: seq<bv32>, k: nat)
    requires 0 < k <= |ws|
    ensures Joined(f, ws[..k]) == Joined(f, ws[..k - 1]) + f(ws[k - 1])
  {
    assert ws[..k][..k - 1] == ws[..k - 1];
  }

  lemma FourJoined(f: bv32 -> string, ws: seq<bv32>, k: nat)
    requires k + 4 <= |ws|
    ensures Joined(f, ws[..k + 4]) == Joined(f, ws[..k]) + f(ws[k]) + f(ws[k + 1]) + f(ws[k + 2]) + f(ws[k + 3])
  {
    JoinStep(f, ws, k + 1);
    JoinStep(f, ws, k + 2);
    JoinStep(f, ws, k + 3);
    JoinStep(f, ws, k + 4);
  }

  lemma EightJoined(f: bv32 -> string, ws: seq<bv32>)
    requires |ws| == 8
    ensures Joined(f, ws) == f(ws[0]) + f(ws[1]) + f(ws[2]) + f(ws[3]) + f(ws[4]) + f(ws[5]) + f(ws[6]) + f(ws[7])
  {
    FourJoined(f, ws, 0);
    FourJoined(f, ws, 4);
    assert ws[..0] == [] && ws[..8] == ws;
    assert Joined(f, ws[..0]) + f(ws[0]) == f(ws[0]);
  }

  lemma TextOfFirst()
    ensures HexWord(0xba7816bf) == "ba7816bf"
    ensures HexWord(0x8f01cfea) == "8f01cfea"
    ensures HexWord(0x414140de) == "414140de"
    ensures HexWord(0x5dae2223) == "5dae2223"
  {
  }

  lemma TextOfLast()
    ensures HexWord(0xb00361a3) == "b00361a3"
    ensures HexWord(0x96177a9c) == "96177a9c"
    ensures HexWord(0xb410ff61) == "b410ff61"
    ensures HexWord(0xf20015ad) == "f20015ad"
  {
  }

  /** The digest of "abc" as text. */
  lemma TextOfAbc(m: seq<Byte>)
    requires m == [0x61, 0x62, 0x63]
    ensures HexOf(Hash(m)) == "ba7816bf" + "8f01cfea" + "414140de" + "5dae2223"
                              + "b00361a3" + "96177a9c" + "b410ff61" + "f20015ad"
  {
    DigestOfAbc(m);
    HexWordsJoined(WordsOf(Hash(m)));
    EightJoined(HexWord, WordsOf(Hash(m)));
    TextOfFirst();
    TextOfLast();
  }
}
