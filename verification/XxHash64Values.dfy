/** The values of XXH64 that xxhsum checks itself with, and two inputs that differ in one double word alone and
    have the same hash. */
module XxHash64Values {
  import opened Stripes
  import opened XxHash64
  import opened XxHashSamples
  import XxHash32
  import XxHash32Values
  import XxHash64Differs

  // ---------- the steps, with their constants written out ----------

  lemma RoundIs(acc: bv64, input: bv64, r: bv64)
    requires Times(Rotl(Plus(acc, Times(input, 14029467366897019727)), 31), 11400714785074694791) == r
    ensures Round(acc, input) == r
  {
    hide Times, Rotl, Plus;
    assert PRIME2 == 14029467366897019727 && PRIME1 == 11400714785074694791;
  }

  lemma MergeRoundIs(acc: bv64, val: bv64, k: bv64, r: bv64)
    requires Times(Rotl(Plus(0, Times(val, 14029467366897019727)), 31), 11400714785074694791) == k
    requires Plus(Times(Xor(acc, k), 11400714785074694791), 9650029242287828579) == r
    ensures MergeRound(acc, val) == r
  {
    hide Times, Rotl, Plus, Xor, Round;
    RoundIs(0, val, k);
    assert PRIME1 == 11400714785074694791 && PRIME4 == 9650029242287828579;
  }

  lemma LongIs(h: bv64, s: seq<bv8>, long: bv64, k: bv64, r: bv64)
    requires |s| == 8 && Read64(s) == long
    requires Times(Rotl(Plus(0, Times(long, 14029467366897019727)), 31), 11400714785074694791) == k
    requires Plus(Times(Rotl(Xor(h, k), 27), 11400714785074694791), 9650029242287828579) == r
    ensures Process8(h, s) == r
  {
    hide Times, Rotl, Plus, Xor, Round, Read64;
    RoundIs(0, long, k);
    assert PRIME1 == 11400714785074694791 && PRIME4 == 9650029242287828579;
  }

  lemma WordIs(h: bv64, s: seq<bv8>, word: bv64, r: bv64)
    requires |s| == 4 && Read32(s) == word
    requires
      Plus(Times(Rotl(Xor(h, Times(word, 11400714785074694791)), 23), 14029467366897019727), 1609587929392839161) == r
    ensures Process4(h, s) == r
  {
    hide Times, Rotl, Plus, Xor, Read32;
    assert PRIME1 == 11400714785074694791 && PRIME2 == 14029467366897019727 && PRIME3 == 1609587929392839161;
  }

  lemma ByteIs(h: bv64, b: bv8, r: bv64)
    requires Times(Rotl(Xor(h, Times(Wide(b), 2870177450012600261)), 11), 11400714785074694791) == r
    ensures Process1(h, b) == r
  {
    hide Times, Rotl, Xor, Wide;
    assert PRIME1 == 11400714785074694791 && PRIME5 == 2870177450012600261;
  }

  lemma AvalancheIs(h: bv64, r: bv64)
    requires Fold32(Times(Fold29(Times(Fold33(h), 14029467366897019727)), 1609587929392839161)) == r
    ensures Avalanche(h) == r
  {
    hide Times, Fold29, Fold32, Fold33;
    assert PRIME2 == 14029467366897019727 && PRIME3 == 1609587929392839161;
  }

  // ---------- no byte ----------

  lemma NoByte()
    ensures XXH64(Generated(PRIME, 0), 0) == 0xEF46DB3751D8E999
  {
    hide Avalanche;
    AvalancheIs(0x27D4EB2F165667C5, 0xEF46DB3751D8E999);
    assert Short(0) == 0x27D4EB2F165667C5;
  }

  // ---------- 14 bytes ----------

  lemma TailLong(h: bv64, s: seq<bv8>, p: nat, long: bv64, k: bv64, r: bv64)
    requires p + 8 <= |s| && Read64(s[p..p + 8]) == long
    requires Times(Rotl(Plus(0, Times(long, 14029467366897019727)), 31), 11400714785074694791) == k
    requires Plus(Times(Rotl(Xor(h, k), 27), 11400714785074694791), 9650029242287828579) == r
    ensures Tail(h, s[p..]) == Tail(r, s[p + 8..])
  {
    hide Times, Rotl, Plus, Xor, Read64, Process8, Process4, Process1;
    LongIs(h, s[p..p + 8], long, k, r);
    assert s[p..][..8] == s[p..p + 8] && s[p..][8..] == s[p + 8..];
  }

  lemma TailWord(h: bv64, s: seq<bv8>, p: nat, word: bv64, r: bv64)
    requires p + 4 <= |s| < p + 8 && Read32(s[p..p + 4]) == word
    requires
      Plus(Times(Rotl(Xor(h, Times(word, 11400714785074694791)), 23), 14029467366897019727), 1609587929392839161) == r
    ensures Tail(h, s[p..]) == Tail(r, s[p + 4..])
  {
    hide Times, Rotl, Plus, Xor, Read32, Process8, Process4, Process1;
    WordIs(h, s[p..p + 4], word, r);
    assert s[p..][..4] == s[p..p + 4] && s[p..][4..] == s[p + 4..];
  }

  lemma TailByte(h: bv64, s: seq<bv8>, p: nat, b: bv8, r: bv64)
    requires p < |s| < p + 4 && s[p] == b
    requires Times(Rotl(Xor(h, Times(Wide(b), 2870177450012600261)), 11), 11400714785074694791) == r
    ensures Tail(h, s[p..]) == Tail(r, s[p + 1..])
  {
    hide Times, Rotl, Xor, Wide, Process8, Process4, Process1;
    ByteIs(h, b, r);
    assert s[p..][1..] == s[p + 1..];
  }

  lemma FirstLongs()
    ensures Read64(FIRST[..8]) == 0xDD2F535E4B1FFF9E && Read64(FIRST[8..]) == 0xAE572B952A4D54B5
    ensures Read32(FIRST[8..12]) == 0x000000002A4D54B5
  {
    hide XxHash32.Read32;
    XxHash32Values.Words14();
    assert FIRST[..8][..4] == FIRST[0..4] && FIRST[..8][4..] == FIRST[4..8];
    assert FIRST[8..][..4] == FIRST[8..12] && FIRST[8..][4..] == FIRST[12..16];
  }

  lemma Steps14()
    ensures Times(Rotl(Plus(0, Times(0xDD2F535E4B1FFF9E, 14029467366897019727)), 31), 11400714785074694791)
      == 0xD5AC89023563E205
    ensures Plus(Times(Rotl(Xor(0x27D4EB2F165667D3, 0xD5AC89023563E205), 27),
            11400714785074694791), 9650029242287828579)
      == 0xB398A4B20F24F65A
    ensures
      Plus(Times(Rotl(Xor(0xB398A4B20F24F65A, Times(0x000000002A4D54B5, 11400714785074694791)), 23),
            14029467366897019727), 1609587929392839161)
      == 0x2A21F1E064603CA7
  {}

  lemma Tail14()
    ensures Tail(0x27D4EB2F165667D3, FIRST[..14]) == 0x126D25287043FBB5
  {
    hide Tail, Read64, Read32, Times, Rotl, Xor, Plus;
    Steps14();
    var s := FIRST[..14];
    FirstLongs();
    assert s[0..8] == FIRST[..8] && s[8..12] == FIRST[8..12];
    TailLong(0x27D4EB2F165667D3, s, 0, 0xDD2F535E4B1FFF9E, 0xD5AC89023563E205, 0xB398A4B20F24F65A);
    TailWord(0xB398A4B20F24F65A, s, 8, 0x000000002A4D54B5, 0x2A21F1E064603CA7);
    TwoBytes14();
    assert s[0..] == s;
  }

  lemma TwoBytes14()
    ensures Tail(0x2A21F1E064603CA7, FIRST[..14][12..]) == 0x126D25287043FBB5
  {
    hide Tail;
    var s := FIRST[..14];
    TailByte(0x2A21F1E064603CA7, s, 12, 0x95, 0xECBA526D8113200A);
    TailByte(0xECBA526D8113200A, s, 13, 0x2B, 0x126D25287043FBB5);
    TailEnd(0x126D25287043FBB5, s[14..]);
  }

  lemma Length14()
    ensures Low64(14) == 14
  {}

  lemma FourteenBytes()
    ensures XXH64(Generated(PRIME, 14), 0) == 0xCFFA8DB881BC3A3D
  {
    hide Avalanche, Tail, Generated, Low64;
    Brief(14);
    Length14();
    AvalancheIs(0x126D25287043FBB5, 0xCFFA8DB881BC3A3D);
    assert AddLength(Short(0), 14) == 0x27D4EB2F165667D3;
    Tail14();
  }

  // ---------- 222 bytes ----------

  lemma RoundsAre(v: Lanes, s: seq<bv8>, a: bv64, b: bv64, c: bv64, d: bv64, u: Lanes)
    requires |s| == STRIPE && Read64(s[..8]) == a && Read64(s[8..16]) == b
    requires Read64(s[16..24]) == c && Read64(s[24..]) == d
    requires Times(Rotl(Plus(v.v1, Times(a, 14029467366897019727)), 31), 11400714785074694791) == u.v1
    requires Times(Rotl(Plus(v.v2, Times(b, 14029467366897019727)), 31), 11400714785074694791) == u.v2
    requires Times(Rotl(Plus(v.v3, Times(c, 14029467366897019727)), 31), 11400714785074694791) == u.v3
    requires Times(Rotl(Plus(v.v4, Times(d, 14029467366897019727)), 31), 11400714785074694791) == u.v4
    ensures RoundAll(v, s) == u
  {
    hide Times, Rotl, Plus, Read64, Round;
    RoundIs(v.v1, a, u.v1);
    RoundIs(v.v2, b, u.v2);
    RoundIs(v.v3, c, u.v3);
    RoundIs(v.v4, d, u.v4);
  }

  lemma ZeroLong(s: seq<bv8>)
    requires s == [0, 0, 0, 0, 0, 0, 0, 0]
    ensures Read64(s) == 0
  {
    hide XxHash32.Read32;
    XxHash32Values.ZeroWord();
    assert s[..4] == [0, 0, 0, 0] && s[4..] == [0, 0, 0, 0];
  }

  lemma ZeroLongs(n: nat, from: nat)
    requires from + 8 <= n
    ensures Read64(Zeros(n)[from..from + 8]) == 0
  {
    hide Read64, Zeros;
    XxHash32Values.AllZero(n);
    ZeroLong(Zeros(n)[from..from + 8]);
  }

  /** A stripe of zeros. */
  lemma ZeroStripe(v: Lanes, u: Lanes, n: nat)
    requires Times(Rotl(v.v1, 31), 11400714785074694791) == u.v1 && Times(Rotl(v.v2, 31), 11400714785074694791) == u.v2
    requires Times(Rotl(v.v3, 31), 11400714785074694791) == u.v3 && Times(Rotl(v.v4, 31), 11400714785074694791) == u.v4
    ensures Consume(RoundAll, STRIPE, v, Zeros(STRIPE + n)) == Consume(RoundAll, STRIPE, u, Zeros(n))
    ensures Rest(STRIPE, Zeros(STRIPE + n)) == Rest(STRIPE, Zeros(n))
  {
    hide Times, Rotl, Plus, Read64, RoundAll, Consume, Rest, Zeros;
    var s := Zeros(STRIPE);
    MoreZeros(STRIPE, n);
    ZeroLongs(STRIPE, 0);
    ZeroLongs(STRIPE, 8);
    ZeroLongs(STRIPE, 16);
    ZeroLongs(STRIPE, 24);
    assert s[..8] == s[0..8] && s[24..] == s[24..32];
    NothingAdded(v.v1);
    NothingAdded(v.v2);
    NothingAdded(v.v3);
    NothingAdded(v.v4);
    RoundsAre(v, s, 0, 0, 0, 0, u);
    ConsumeFirst(RoundAll, STRIPE, v, s, Zeros(n));
  }

  lemma NothingAdded(x: bv64)
    ensures Plus(x, Times(0, 14029467366897019727)) == x
  {}

  /** The five stripes of zeros. */
  lemma ZeroStripes()
    ensures Consume(RoundAll, STRIPE, Lanes(0xD720D6104B9F4F46, 0xA3FBF2C752ADAD9A,
                                            0x18511BF07C42E533, 0x4B891310298BA6B1), Zeros(190))
      == Lanes(0xE8FC2CDDEA489B2F, 0x2D7A72F0C81933EC, 0x8AE63AFD14BDE7BF, 0x6C517C4018984BD0)
    ensures Rest(STRIPE, Zeros(190)) == Zeros(30)
  {
    hide RoundAll, Consume, Rest, Zeros;
    var v1 := Lanes(0xD720D6104B9F4F46, 0xA3FBF2C752ADAD9A,
                    0x18511BF07C42E533, 0x4B891310298BA6B1);
    var v2 := Lanes(0x24D6E7C315F4C138, 0x161AB8200097A135,
                    0xC441B30514108DC8, 0x1BB20C726701D6B8);
    var v3 := Lanes(0xE8824C3EC4A4A5A7, 0xDEE0C05FB1602C70,
                    0x636191E7DF49478E, 0x6EA27555DFAE420F);
    var v4 := Lanes(0xF3F4FF8C4FE49059, 0xC459A551264CCEC9,
                    0x2E23CBF268DAB625, 0x393EE64CF02E13A6);
    var v5 := Lanes(0xC1011832A4AD9D6A, 0xBC9A17694C13A698,
                    0x31A65E134279C04F, 0x8D6673615AD3B50A);
    var v6 := Lanes(0xE8FC2CDDEA489B2F, 0x2D7A72F0C81933EC,
                    0x8AE63AFD14BDE7BF, 0x6C517C4018984BD0);
    ZeroStripe(v1, v2, 158);
    ZeroStripe(v2, v3, 126);
    ZeroStripe(v3, v4, 94);
    ZeroStripe(v4, v5, 62);
    ZeroStripe(v5, v6, 30);
    NoStripe(RoundAll, STRIPE, v6, Zeros(30));
  }

  lemma SecondLongs()
    ensures Read64(SECOND[..8]) == 0x984CA6D3E974BA5D && Read64((SECOND + Zeros(4))[8..]) == 0x0000000080C06030
  {
    hide XxHash32.Read32, Zeros;
    XxHash32Values.SecondWords();
    XxHash32Values.ZeroWord();
    XxHash32Values.AllZero(4);
    assert SECOND[..8][..4] == SECOND[..4] && SECOND[..8][4..] == SECOND[4..8];
    var s := SECOND + Zeros(4);
    assert s[8..][..4] == SECOND[8..] && s[8..][4..] == [0, 0, 0, 0];
  }

  /** The stripe before them. */
  lemma FirstStripe()
    ensures RoundAll(Lanes(0x60EA27EF4BF82F87, 0xC2B2AE3DC60C6500,
                           0x000000009E3779B1, 0x61C8864F184BAF2A), FIRST + (SECOND + Zeros(4)))
      == Lanes(0xD720D6104B9F4F46, 0xA3FBF2C752ADAD9A, 0x18511BF07C42E533, 0x4B891310298BA6B1)
  {
    hide RoundAll, Read64, Zeros;
    FirstLongs();
    SecondLongs();
    var s := FIRST + (SECOND + Zeros(4));
    assert s[..8] == FIRST[..8] && s[8..16] == FIRST[8..] && s[16..24] == SECOND[..8];
    assert s[24..] == (SECOND + Zeros(4))[8..];
    var v0 := Lanes(0x60EA27EF4BF82F87, 0xC2B2AE3DC60C6500,
                    0x000000009E3779B1, 0x61C8864F184BAF2A);
    var v1 := Lanes(0xD720D6104B9F4F46, 0xA3FBF2C752ADAD9A,
                    0x18511BF07C42E533, 0x4B891310298BA6B1);
    RoundsAre(v0, s, 0xDD2F535E4B1FFF9E, 0xAE572B952A4D54B5,
              0x984CA6D3E974BA5D, 0x0000000080C06030, v1);
  }

  lemma AllStripes()
    ensures Consume(RoundAll, STRIPE, Start(PRIME as bv64), Generated(PRIME, 222))
      == Lanes(0xE8FC2CDDEA489B2F, 0x2D7A72F0C81933EC, 0x8AE63AFD14BDE7BF, 0x6C517C4018984BD0)
    ensures Rest(STRIPE, Generated(PRIME, 222)) == Zeros(30)
  {
    hide RoundAll, Consume, Rest, Zeros, Generated, Read64, Times, Rotl, Plus;
    var v0 := Lanes(0x60EA27EF4BF82F87, 0xC2B2AE3DC60C6500,
                    0x000000009E3779B1, 0x61C8864F184BAF2A);
    var v1 := Lanes(0xD720D6104B9F4F46, 0xA3FBF2C752ADAD9A,
                    0x18511BF07C42E533, 0x4B891310298BA6B1);
    assert Start(PRIME as bv64) == v0;
    Long(190);
    FirstStripe();
    var s := FIRST + (SECOND + Zeros(4));
    assert FIRST + (SECOND + Zeros(4) + Zeros(190)) == s + Zeros(190);
    ConsumeFirst(RoundAll, STRIPE, v0, s, Zeros(190));
    ZeroStripes();
  }

  lemma ZeroLongSteps()
    ensures Times(Rotl(Plus(0, Times(0, 14029467366897019727)), 31), 11400714785074694791) == 0
    ensures Plus(Times(Rotl(Xor(0xA2F9941AB05E15C4, 0), 27), 11400714785074694791), 9650029242287828579)
      == 0x748FA45A1095D6C3
    ensures Plus(Times(Rotl(Xor(0x748FA45A1095D6C3, 0), 27), 11400714785074694791), 9650029242287828579)
      == 0xE57509D3A9637F51
    ensures Plus(Times(Rotl(Xor(0xE57509D3A9637F51, 0), 27), 11400714785074694791), 9650029242287828579)
      == 0x847C9803BB1FFB85
  {}

  lemma ZeroTail()
    ensures Tail(0xA2F9941AB05E15C4, Zeros(30)) == 0x81E91115C7980D10
  {
    hide Tail, Read64, Read32, Zeros, Times, Rotl, Xor, Plus;
    ZeroLongSteps();
    var s := Zeros(30);
    ZeroLongs(30, 0);
    ZeroLongs(30, 8);
    ZeroLongs(30, 16);
    TailLong(0xA2F9941AB05E15C4, s, 0, 0, 0, 0x748FA45A1095D6C3);
    TailLong(0x748FA45A1095D6C3, s, 8, 0, 0, 0xE57509D3A9637F51);
    TailLong(0xE57509D3A9637F51, s, 16, 0, 0, 0x847C9803BB1FFB85);
    ZeroEnd();
    assert s[0..] == s;
  }

  lemma XorZero(h: bv64)
    ensures Xor(h, Times(0, 11400714785074694791)) == h && Xor(h, Times(Wide(0), 2870177450012600261)) == h
  {}

  lemma ZeroByteStep(h: bv64, s: seq<bv8>, p: nat, r: bv64)
    requires p < |s| < p + 4 && s[p] == 0 && Times(Rotl(h, 11), 11400714785074694791) == r
    ensures Tail(h, s[p..]) == Tail(r, s[p + 1..])
  {
    hide Tail, Times, Rotl, Xor, Wide;
    XorZero(h);
    TailByte(h, s, p, 0, r);
  }

  lemma ZeroEndSteps()
    ensures Plus(Times(Rotl(0x847C9803BB1FFB85, 23), 14029467366897019727), 1609587929392839161) == 0x4B2D293E3248776D
    ensures Times(Rotl(0x4B2D293E3248776D, 11), 11400714785074694791) == 0xCE07F16776724EEF
    ensures Times(Rotl(0xCE07F16776724EEF, 11), 11400714785074694791) == 0x81E91115C7980D10
  {}

  lemma ZeroEnd()
    ensures Tail(0x847C9803BB1FFB85, Zeros(30)[24..]) == 0x81E91115C7980D10
  {
    hide Tail, Read32, Zeros, Xor, Times, Rotl, Plus;
    ZeroWordAt();
    ZeroEndSteps();
    XorZero(0x847C9803BB1FFB85);
    TailWord(0x847C9803BB1FFB85, Zeros(30), 24, 0, 0x4B2D293E3248776D);
    ZeroBytes();
  }

  lemma ZeroBytes()
    ensures Tail(0x4B2D293E3248776D, Zeros(30)[28..]) == 0x81E91115C7980D10
  {
    hide Tail, Zeros, Xor, Times, Rotl, Plus;
    var s := Zeros(30);
    XxHash32Values.AllZero(30);
    ZeroEndSteps();
    ZeroByteStep(0x4B2D293E3248776D, s, 28, 0xCE07F16776724EEF);
    ZeroByteStep(0xCE07F16776724EEF, s, 29, 0x81E91115C7980D10);
    TailEnd(0x81E91115C7980D10, s[30..]);
  }

  lemma ZeroWordAt()
    ensures Read32(Zeros(30)[24..28]) == 0
  {
    hide XxHash32.Read32, Zeros;
    XxHash32Values.ZeroWord();
    XxHash32Values.AllZero(30);
    assert Zeros(30)[24..28] == [0, 0, 0, 0];
  }

  lemma RotationsAre(v: Lanes, a: bv64, b: bv64, c: bv64, d: bv64, r: bv64)
    requires Rotl(v.v1, 1) == a && Rotl(v.v2, 7) == b && Rotl(v.v3, 12) == c && Rotl(v.v4, 18) == d
    requires Plus(Plus(Plus(a, b), c), d) == r
    ensures Rotations(v) == r
  {
    hide Rotl, Plus;
  }

  lemma LongMerge()
    ensures Merge(Lanes(0xE8FC2CDDEA489B2F, 0x2D7A72F0C81933EC,
                        0x8AE63AFD14BDE7BF, 0x6C517C4018984BD0)) == 0xA2F9941AB05E14E6
  {
    hide Rotations, MergeRound;
    var v6 := Lanes(0xE8FC2CDDEA489B2F, 0x2D7A72F0C81933EC,
                    0x8AE63AFD14BDE7BF, 0x6C517C4018984BD0);
    RotationsAre(v6, 0xD1F859BBD491365F, 0xBD3978640C99F616,
                 0x63AFD14BDE7BF8AE, 0xF10062612F41B145, 0xE3E205CCEEE8D668);
    MergeRoundIs(0xE3E205CCEEE8D668, v6.v1, 0x0DEEDDD4C8875D47, 0x50597BBB3A7D2A2C);
    MergeRoundIs(0x50597BBB3A7D2A2C, v6.v2, 0x1364E9CC7BB22280, 0x59D264C3259BF917);
    MergeRoundIs(0x59D264C3259BF917, v6.v3, 0x2EBB9A3E0F1A80C4, 0xB7EF448BCACB6AA8);
    MergeRoundIs(0xB7EF448BCACB6AA8, v6.v4, 0x1D8D4DF70B787D8D, 0xA2F9941AB05E14E6);
  }

  lemma Length222()
    ensures Low64(222) == 222
  {
    assert 222 % TWO64 == 222;
    assert (222 as bv64) == 222;
  }

  lemma LongHead()
    ensures Head(Generated(PRIME, 222), PRIME as bv64) == 0xA2F9941AB05E14E6
  {
    hide Generated, Consume, Rest, RoundAll, Start, Zeros, Merge;
    AllStripes();
    LongMerge();
  }

  lemma LongSample()
    ensures XXH64(Generated(PRIME, 222), PRIME as bv64) == 0xDC515172B8EE0600
  {
    hide Avalanche, Tail, Generated, Consume, Rest, RoundAll, Start, Zeros, Head, Low64;
    LongHead();
    Length222();
    assert AddLength(0xA2F9941AB05E14E6, 222) == 0xA2F9941AB05E15C4;
    AllStripes();
    ZeroTail();
    AvalancheIs(0x81E91115C7980D10, 0xDC515172B8EE0600);
  }

  // ---------- a collision ----------

  /** One double word, then zeros. */
  const ONE: seq<bv8> := [0x1B, 0x74, 0xE6, 0xDC, 0xD9, 0xDE, 0xB7, 0x3E] + Zeros(24)
  const OTHER: seq<bv8> := [0x99, 0x88, 0x47, 0xD0, 0xDE, 0x97, 0x95, 0x9E] + Zeros(24)

  lemma FirstWords()
    ensures |ONE| == |OTHER| == STRIPE && DifferAt(ONE, OTHER, 0, 8)
    ensures Read64(ONE[..8]) == 0x3EB7DED9DCE6741B && Read64(OTHER[..8]) == 0x9E9597DED0478899
  {
    assert ONE[..8] == [0x1B, 0x74, 0xE6, 0xDC, 0xD9, 0xDE, 0xB7, 0x3E];
    assert OTHER[..8] == [0x99, 0x88, 0x47, 0xD0, 0xDE, 0x97, 0x95, 0x9E];
    assert ONE[8..] == OTHER[8..] == Zeros(24);
    assert ONE[..8][..4] == [0x1B, 0x74, 0xE6, 0xDC] && ONE[..8][4..] == [0xD9, 0xDE, 0xB7, 0x3E];
    assert OTHER[..8][..4] == [0x99, 0x88, 0x47, 0xD0] && OTHER[..8][4..] == [0xDE, 0x97, 0x95, 0x9E];
    assert ONE[0..0 + 8] == ONE[..8] && OTHER[0..0 + 8] == OTHER[..8];
  }

  lemma OtherWords(s: seq<bv8>, t: seq<bv8>)
    requires |s| == 8 && t == s + Zeros(24)
    ensures Read64(t[8..16]) == 0 && Read64(t[16..24]) == 0 && Read64(t[24..]) == 0
  {
    hide Read64, Zeros;
    ZeroLongs(24, 0);
    ZeroLongs(24, 8);
    ZeroLongs(24, 16);
    assert t[8..16] == Zeros(24)[0..8] && t[16..24] == Zeros(24)[8..16] && t[24..] == Zeros(24)[16..24];
  }

  lemma StartZero()
    ensures Start(0) == Lanes(0x60EA27EEADC0B5D6, 0xC2B2AE3D27D4EB4F,
                              0x0000000000000000, 0x61C8864E7A143579)
  {}

  lemma FirstRound(s: seq<bv8>, long: bv64, r: bv64)
    requires |s| == 8 && Read64(s) == long
    requires Times(Rotl(Plus(0x60EA27EEADC0B5D6, Times(long, 14029467366897019727)), 31), 11400714785074694791) == r
    ensures RoundAll(Start(0), s + Zeros(24))
      == Lanes(r, 0x7F0E345BE3649CD2, 0x0000000000000000, 0x6D7AD2794D292F91)
  {
    hide RoundAll, Read64, Zeros, Start;
    var t := s + Zeros(24);
    OtherWords(s, t);
    assert t[..8] == s;
    StartZero();
    RoundsAre(Start(0), t, long, 0, 0, 0,
              Lanes(r, 0x7F0E345BE3649CD2, 0x0000000000000000, 0x6D7AD2794D292F91));
  }

  lemma FirstProducts()
    ensures 0x8C1001A6F437ECAC ==
      Times(Rotl(Plus(0x60EA27EEADC0B5D6, Times(0x3EB7DED9DCE6741B, 14029467366897019727)), 31), 11400714785074694791)
    ensures 0x0D6F09EFF6D6B95E ==
      Times(Rotl(Plus(0x60EA27EEADC0B5D6, Times(0x9E9597DED0478899, 14029467366897019727)), 31), 11400714785074694791)
  {}

  lemma OneRounds()
    ensures RoundAll(Start(0), ONE)
      == Lanes(0x8C1001A6F437ECAC, 0x7F0E345BE3649CD2, 0x0000000000000000, 0x6D7AD2794D292F91)
    ensures RoundAll(Start(0), OTHER)
      == Lanes(0x0D6F09EFF6D6B95E, 0x7F0E345BE3649CD2, 0x0000000000000000, 0x6D7AD2794D292F91)
  {
    hide RoundAll, Read64, Zeros, Start, Times, Rotl, Plus, DifferAt;
    FirstWords();
    FirstProducts();
    FirstRound(ONE[..8], 0x3EB7DED9DCE6741B, 0x8C1001A6F437ECAC);
    FirstRound(OTHER[..8], 0x9E9597DED0478899, 0x0D6F09EFF6D6B95E);
    assert ONE[..8] + Zeros(24) == ONE;
    assert OTHER[..8] + Zeros(24) == OTHER;
  }

  lemma OneSteps()
    ensures Times(Rotl(Plus(0, Times(0x8C1001A6F437ECAC, 14029467366897019727)), 31), 11400714785074694791)
      == 0xFCED92BD31E63331
    ensures Times(Rotl(Plus(0, Times(0x0D6F09EFF6D6B95E, 14029467366897019727)), 31), 11400714785074694791)
      == 0xFE2F812F36A45A54
    ensures Plus(Times(Xor(0xE91F65E45903F883, 0xFCED92BD31E63331), 11400714785074694791), 9650029242287828579)
      == 0x16326D3ADD018D41
    ensures Plus(Times(Xor(0xEBDD76765E4191E6, 0xFE2F812F36A45A54), 11400714785074694791), 9650029242287828579)
      == 0x16326D3ADD018D41
  {}

  lemma OneRotations()
    ensures Rotations(Lanes(0x8C1001A6F437ECAC, 0x7F0E345BE3649CD2, 0x0000000000000000, 0x6D7AD2794D292F91))
      == 0xE91F65E45903F883
    ensures Rotations(Lanes(0x0D6F09EFF6D6B95E, 0x7F0E345BE3649CD2, 0x0000000000000000, 0x6D7AD2794D292F91))
      == 0xEBDD76765E4191E6
  {
    hide Rotations;
    var u := Lanes(0x8C1001A6F437ECAC, 0x7F0E345BE3649CD2, 0x0000000000000000, 0x6D7AD2794D292F91);
    var v := Lanes(0x0D6F09EFF6D6B95E, 0x7F0E345BE3649CD2, 0x0000000000000000, 0x6D7AD2794D292F91);
    RotationsAre(u, 0x1820034DE86FD959, 0x871A2DF1B24E693F,
                 0x0000000000000000, 0x49E534A4BE45B5EB, 0xE91F65E45903F883);
    RotationsAre(v, 0x1ADE13DFEDAD72BC, 0x871A2DF1B24E693F,
                 0x0000000000000000, 0x49E534A4BE45B5EB, 0xEBDD76765E4191E6);
  }

  /** The rotated sums differ, and so do the rounds of the first lanes; their exclusive or does not. */
  lemma OneMerges()
    ensures Merge(Lanes(0x8C1001A6F437ECAC, 0x7F0E345BE3649CD2, 0x0000000000000000, 0x6D7AD2794D292F91))
      == Merge(Lanes(0x0D6F09EFF6D6B95E, 0x7F0E345BE3649CD2, 0x0000000000000000, 0x6D7AD2794D292F91))
  {
    hide Rotations, MergeRound, Times, Rotl, Plus, Xor;
    var u := Lanes(0x8C1001A6F437ECAC, 0x7F0E345BE3649CD2, 0x0000000000000000, 0x6D7AD2794D292F91);
    var v := Lanes(0x0D6F09EFF6D6B95E, 0x7F0E345BE3649CD2, 0x0000000000000000, 0x6D7AD2794D292F91);
    OneRotations();
    OneSteps();
    MergeRoundIs(0xE91F65E45903F883, u.v1, 0xFCED92BD31E63331, 0x16326D3ADD018D41);
    MergeRoundIs(0xEBDD76765E4191E6, v.v1, 0xFE2F812F36A45A54, 0x16326D3ADD018D41);
  }

  /** Two inputs of one stripe that differ in their first double word alone and have the same hash. */
  lemma Collision()
    ensures DifferAt(ONE, OTHER, 0, 8) && XXH64(ONE, 0) == XXH64(OTHER, 0)
  {
    hide RoundAll, Merge, Zeros, XXH64, DifferAt, Start;
    FirstWords();
    OneRounds();
    OneMerges();
    assert ONE + [] == ONE && OTHER + [] == OTHER;
    ConsumeFirst(RoundAll, STRIPE, Start(0), ONE, []);
    ConsumeFirst(RoundAll, STRIPE, Start(0), OTHER, []);
    XxHash64Differs.SameMerged(ONE, OTHER, 0);
  }
}
