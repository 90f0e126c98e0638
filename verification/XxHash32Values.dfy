/** The values of XXH32 that xxhsum checks itself with. */
module XxHash32Values {
  import opened Stripes
  import opened XxHash32
  import opened XxHashSamples

  // ---------- the steps, with their constants written out ----------

  lemma RoundIs(acc: bv32, input: bv32, r: bv32)
    requires Times(Rotl(Plus(acc, Times(input, 2246822519)), 13), 2654435761) == r
    ensures Round(acc, input) == r
  {
    hide Times, Rotl, Plus;
    assert PRIME2 == 2246822519 && PRIME1 == 2654435761;
  }

  lemma WordIs(h: bv32, s: seq<bv8>, word: bv32, r: bv32)
    requires |s| == 4 && Read32(s) == word && Times(Rotl(Plus(h, Times(word, 3266489917)), 17), 668265263) == r
    ensures Process4(h, s) == r
  {
    hide Times, Rotl, Plus, Read32;
    assert PRIME3 == 3266489917 && PRIME4 == 668265263;
  }

  lemma ByteIs(h: bv32, b: bv8, r: bv32)
    requires Times(Rotl(Plus(h, Times(Wide(b), 374761393)), 11), 2654435761) == r
    ensures Process1(h, b) == r
  {
    hide Times, Rotl, Plus, Wide;
    assert PRIME5 == 374761393 && PRIME1 == 2654435761;
  }

  lemma AvalancheIs(h: bv32, r: bv32)
    requires Fold16(Times(Fold13(Times(Fold15(h), 2246822519)), 3266489917)) == r
    ensures Avalanche(h) == r
  {
    hide Times, Fold13, Fold15, Fold16;
    assert PRIME2 == 2246822519 && PRIME3 == 3266489917;
  }

  // ---------- no byte ----------

  lemma NoByte()
    ensures XXH32(Generated(PRIME, 0), 0) == 0x02CC5D05
  {
    hide Avalanche;
    AvalancheIs(0x165667B1, 0x02CC5D05);
    assert Short(0) == 0x165667B1;
  }

  // ---------- 14 bytes ----------

  lemma TailWord(h: bv32, s: seq<bv8>, p: nat, word: bv32, r: bv32)
    requires p + 4 <= |s|
    requires Read32(s[p..p + 4]) == word && Times(Rotl(Plus(h, Times(word, 3266489917)), 17), 668265263) == r
    ensures Tail(h, s[p..]) == Tail(r, s[p + 4..])
  {
    hide Times, Rotl, Plus, Read32, Process4, Process1;
    WordIs(h, s[p..p + 4], word, r);
    assert s[p..][..4] == s[p..p + 4] && s[p..][4..] == s[p + 4..];
  }

  lemma TailByte(h: bv32, s: seq<bv8>, p: nat, b: bv8, r: bv32)
    requires p < |s| < p + 4 && s[p] == b && Times(Rotl(Plus(h, Times(Wide(b), 374761393)), 11), 2654435761) == r
    ensures Tail(h, s[p..]) == Tail(r, s[p + 1..])
  {
    hide Times, Rotl, Plus, Wide, Process4, Process1;
    ByteIs(h, b, r);
    assert s[p..][1..] == s[p + 1..];
  }

  lemma Words14()
    ensures Read32(FIRST[0..4]) == 0x4B1FFF9E && Read32(FIRST[4..8]) == 0xDD2F535E
    ensures Read32(FIRST[8..12]) == 0x2A4D54B5 && Read32(FIRST[12..16]) == 0xAE572B95
  {
    assert FIRST[0..4] == [0x9E, 0xFF, 0x1F, 0x4B];
    assert FIRST[4..8] == [0x5E, 0x53, 0x2F, 0xDD];
    assert FIRST[8..12] == [0xB5, 0x54, 0x4D, 0x2A];
    assert FIRST[12..16] == [0x95, 0x2B, 0x57, 0xAE];
  }

  lemma Tail14()
    ensures Tail(0x165667BF, FIRST[..14]) == 0x18635ECC
  {
    hide Tail, Read32;
    var s := FIRST[..14];
    Words14();
    assert s[0..4] == FIRST[0..4] && s[4..8] == FIRST[4..8] && s[8..12] == FIRST[8..12];
    TailWord(0x165667BF, s, 0, 0x4B1FFF9E, 0xD254C1B1);
    TailWord(0xD254C1B1, s, 4, 0xDD2F535E, 0xE102744D);
    TailWord(0xE102744D, s, 8, 0x2A4D54B5, 0xF81B7BF7);
    TailByte(0xF81B7BF7, s, 12, 0x95, 0x910F68D3);
    TailByte(0x910F68D3, s, 13, 0x2B, 0x18635ECC);
    TailEnd(0x18635ECC, s[14..]);
    assert s[0..] == s;
  }

  lemma FourteenBytes()
    ensures XXH32(Generated(PRIME, 14), 0) == 0xE5AA0AB4
  {
    hide Avalanche, Tail, Generated;
    Brief(14);
    AvalancheIs(0x18635ECC, 0xE5AA0AB4);
    assert AddLength(Short(0), Low32(14)) == 0x165667BF;
    Tail14();
  }

  // ---------- 222 bytes ----------

  lemma RoundsAre(v: Lanes, s: seq<bv8>, a: bv32, b: bv32, c: bv32, d: bv32, u: Lanes)
    requires |s| == STRIPE && Read32(s[..4]) == a && Read32(s[4..8]) == b
    requires Read32(s[8..12]) == c && Read32(s[12..]) == d
    requires Times(Rotl(Plus(v.v1, Times(a, 2246822519)), 13), 2654435761) == u.v1
    requires Times(Rotl(Plus(v.v2, Times(b, 2246822519)), 13), 2654435761) == u.v2
    requires Times(Rotl(Plus(v.v3, Times(c, 2246822519)), 13), 2654435761) == u.v3
    requires Times(Rotl(Plus(v.v4, Times(d, 2246822519)), 13), 2654435761) == u.v4
    ensures RoundAll(v, s) == u
  {
    hide Times, Rotl, Plus, Read32, Round;
    RoundIs(v.v1, a, u.v1);
    RoundIs(v.v2, b, u.v2);
    RoundIs(v.v3, c, u.v3);
    RoundIs(v.v4, d, u.v4);
  }

  lemma ZeroWord()
    ensures Read32([0, 0, 0, 0]) == 0
  {}

  lemma {:induction false} AllZero(n: nat)
    ensures forall i | 0 <= i < n :: Zeros(n)[i] == 0
  {
    if n > 0 {
      AllZero(n - 1);
    }
  }

  /** A stripe of zeros. */
  lemma ZeroStripe(v: Lanes, u: Lanes, n: nat)
    requires Times(Rotl(v.v1, 13), 2654435761) == u.v1 && Times(Rotl(v.v2, 13), 2654435761) == u.v2
    requires Times(Rotl(v.v3, 13), 2654435761) == u.v3 && Times(Rotl(v.v4, 13), 2654435761) == u.v4
    ensures Consume(RoundAll, STRIPE, v, Zeros(STRIPE + n)) == Consume(RoundAll, STRIPE, u, Zeros(n))
    ensures Rest(STRIPE, Zeros(STRIPE + n)) == Rest(STRIPE, Zeros(n))
  {
    hide Times, Rotl, Plus, Read32, RoundAll, Consume, Rest, Zeros;
    var s := Zeros(STRIPE);
    MoreZeros(STRIPE, n);
    ZeroWord();
    AllZero(STRIPE);
    assert s[..4] == [0, 0, 0, 0] && s[4..8] == [0, 0, 0, 0] && s[8..12] == [0, 0, 0, 0] && s[12..] == [0, 0, 0, 0];
    NothingAdded(v.v1);
    NothingAdded(v.v2);
    NothingAdded(v.v3);
    NothingAdded(v.v4);
    RoundsAre(v, s, 0, 0, 0, 0, u);
    ConsumeFirst(RoundAll, STRIPE, v, s, Zeros(n));
  }

  lemma NothingAdded(x: bv32)
    ensures Plus(x, Times(0, 2246822519)) == x
  {}

  /** The eleven stripes of zeros. */
  lemma ZeroStripes()
    ensures Consume(RoundAll, STRIPE, Lanes(0x0D97528E, 0xBB6BFCA6, 0x3E32935C, 0xE3C57A06), Zeros(190))
      == Lanes(0x14D08D13, 0xDBF5D405, 0x7FC79A93, 0x653232F7)
    ensures Rest(STRIPE, Zeros(190)) == Zeros(14)
  {
    hide RoundAll, Consume, Rest, Zeros;
    var v2 := Lanes(0x0D97528E, 0xBB6BFCA6, 0x3E32935C, 0xE3C57A06);
    var v3 := Lanes(0x20520E12, 0x1E26775D, 0x2F0F75E6, 0x41D526F8);
    var v4 := Lanes(0x139FC4EA, 0x986FDE84, 0xAB632991, 0xF98E1A1A);
    var v5 := Lanes(0x79D84C83, 0x4E81D0FD, 0xD52AFBAC, 0x8B19F9E1);
    var v6 := Lanes(0x311CCACB, 0x02D7B8D0, 0xA5DAE915, 0xE23AF073);
    var v7 := Lanes(0xD39B2933, 0xC27AC83A, 0x0A98584B, 0x66027C17);
    var v8 := Lanes(0x68300483, 0xC1CA659F, 0x33518563, 0x38AC70C0);
    var v9 := Lanes(0xC7AD3726, 0x9B009069, 0x9060E94A, 0x1578D285);
    var v10 := Lanes(0x6168CE65, 0x0208E560, 0xB9ED664C, 0x443E31FF);
    var v11 := Lanes(0x578F501D, 0x4B01E5F1, 0xE3F8662D, 0x8E189457);
    var v12 := Lanes(0x001C19A1, 0x04A8FB60, 0x2C185ACF, 0xC93B52D3);
    var v13 := Lanes(0x14D08D13, 0xDBF5D405, 0x7FC79A93, 0x653232F7);
    ZeroStripe(v2, v3, 174);
    ZeroStripe(v3, v4, 158);
    ZeroStripe(v4, v5, 142);
    ZeroStripe(v5, v6, 126);
    ZeroStripe(v6, v7, 110);
    ZeroStripe(v7, v8, 94);
    ZeroStripe(v8, v9, 78);
    ZeroStripe(v9, v10, 62);
    ZeroStripe(v10, v11, 46);
    ZeroStripe(v11, v12, 30);
    ZeroStripe(v12, v13, 14);
    NoStripe(RoundAll, STRIPE, v13, Zeros(14));
  }

  /** The two stripes before them. */
  lemma FirstStripes()
    ensures Consume(RoundAll, STRIPE, Start(PRIME), Generated(PRIME, 222))
      == Lanes(0x14D08D13, 0xDBF5D405, 0x7FC79A93, 0x653232F7)
    ensures Rest(STRIPE, Generated(PRIME, 222)) == Zeros(14)
  {
    hide RoundAll, Consume, Rest, Zeros, Generated, Read32, Times, Rotl, Plus;
    var v0 := Lanes(0xC25ABDD9, 0x24234428, 0x9E3779B1, 0x00000000);
    var v1 := Lanes(0x82C65DDE, 0x4A3E0B66, 0x3F7D79C4, 0xAF374125);
    var v2 := Lanes(0x0D97528E, 0xBB6BFCA6, 0x3E32935C, 0xE3C57A06);
    assert Start(PRIME) == v0;
    Long(190);
    FirstStripe();
    SecondStripe();
    ConsumeFirst(RoundAll, STRIPE, v0, FIRST, SECOND + Zeros(4) + Zeros(190));
    ConsumeFirst(RoundAll, STRIPE, v1, SECOND + Zeros(4), Zeros(190));
    ZeroStripes();
  }

  lemma FirstStripe()
    ensures RoundAll(Lanes(0xC25ABDD9, 0x24234428, 0x9E3779B1, 0x00000000), FIRST)
      == Lanes(0x82C65DDE, 0x4A3E0B66, 0x3F7D79C4, 0xAF374125)
  {
    hide RoundAll, Read32;
    Words14();
    assert FIRST[..4] == FIRST[0..4] && FIRST[12..] == FIRST[12..16];
    var v0 := Lanes(0xC25ABDD9, 0x24234428, 0x9E3779B1, 0x00000000);
    var v1 := Lanes(0x82C65DDE, 0x4A3E0B66, 0x3F7D79C4, 0xAF374125);
    RoundsAre(v0, FIRST, 0x4B1FFF9E, 0xDD2F535E, 0x2A4D54B5, 0xAE572B95, v1);
  }

  lemma SecondStripe()
    ensures RoundAll(Lanes(0x82C65DDE, 0x4A3E0B66, 0x3F7D79C4, 0xAF374125), SECOND + Zeros(4))
      == Lanes(0x0D97528E, 0xBB6BFCA6, 0x3E32935C, 0xE3C57A06)
  {
    hide RoundAll, Read32, Zeros;
    AllZero(4);
    ZeroWord();
    SecondWords();
    var s := SECOND + Zeros(4);
    assert s[..4] == SECOND[..4] && s[4..8] == SECOND[4..8] && s[8..12] == SECOND[8..] && s[12..] == [0, 0, 0, 0];
    var v1 := Lanes(0x82C65DDE, 0x4A3E0B66, 0x3F7D79C4, 0xAF374125);
    var v2 := Lanes(0x0D97528E, 0xBB6BFCA6, 0x3E32935C, 0xE3C57A06);
    RoundsAre(v1, s, 0xE974BA5D, 0x984CA6D3, 0x80C06030, 0, v2);
  }

  lemma SecondWords()
    ensures Read32(SECOND[..4]) == 0xE974BA5D && Read32(SECOND[4..8]) == 0x984CA6D3
    ensures Read32(SECOND[8..]) == 0x80C06030
  {
    assert SECOND[..4] == [0x5D, 0xBA, 0x74, 0xE9];
    assert SECOND[4..8] == [0xD3, 0xA6, 0x4C, 0x98];
    assert SECOND[8..] == [0x30, 0x60, 0xC0, 0x80];
  }

  lemma ZeroTail()
    ensures Tail(0x6A11EAB5, Zeros(14)) == 0x7472ACD2
  {
    hide Tail, Read32, Zeros;
    var s := Zeros(14);
    AllZero(14);
    ZeroWord();
    assert s[0..4] == [0, 0, 0, 0] && s[4..8] == [0, 0, 0, 0] && s[8..12] == [0, 0, 0, 0];
    TailWord(0x6A11EAB5, s, 0, 0, 0x4155136D);
    TailWord(0x4155136D, s, 4, 0, 0xD2D80B36);
    TailWord(0xD2D80B36, s, 8, 0, 0xCAF9FB50);
    TailByte(0xCAF9FB50, s, 12, 0, 0x8E470127);
    TailByte(0x8E470127, s, 13, 0, 0x7472ACD2);
    TailEnd(0x7472ACD2, s[14..]);
    assert s[0..] == s;
  }

  lemma LongHead()
    ensures Head(Generated(PRIME, 222), PRIME) == 0x6A11E9D7
  {
    hide Generated, Consume, Rest, RoundAll, Start, Zeros, Merge;
    FirstStripes();
    MergedSample();
  }

  lemma MergeIs(v: Lanes, a: bv32, b: bv32, c: bv32, d: bv32, r: bv32)
    requires Rotl(v.v1, 1) == a && Rotl(v.v2, 7) == b && Rotl(v.v3, 12) == c && Rotl(v.v4, 18) == d
    requires Plus(Plus(Plus(a, b), c), d) == r
    ensures Merge(v) == r
  {
    hide Rotl, Plus;
  }

  lemma MergedSample()
    ensures Merge(Lanes(0x14D08D13, 0xDBF5D405, 0x7FC79A93, 0x653232F7)) == 0x6A11E9D7
  {
    hide Merge;
    var v13 := Lanes(0x14D08D13, 0xDBF5D405, 0x7FC79A93, 0x653232F7);
    MergeIs(v13, 0x29A11A26, 0xFAEA02ED, 0x79A937FC, 0xCBDD94C8, 0x6A11E9D7);
  }

  lemma Length222()
    ensures Low32(222) == 222
  {
    assert 222 % TWO32 == 222;
    assert (222 as bv32) == 222;
  }

  lemma LongLength()
    ensures AddLength(0x6A11E9D7, Low32(222)) == 0x6A11EAB5
  {
    hide Low32;
    Length222();
  }

  lemma LongSample()
    ensures XXH32(Generated(PRIME, 222), PRIME) == 0xF3CFC852
  {
    hide Avalanche, Tail, Generated, Consume, Rest, RoundAll, Start, Zeros, Head, AddLength, Low32;
    LongHead();
    LongLength();
    FirstStripes();
    ZeroTail();
    AvalancheIs(0x7472ACD2, 0xF3CFC852);
  }
}
