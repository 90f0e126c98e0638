/** The values of XXH3 that xxhsum checks itself with, for each way to hash a short input. */
module Xxh3Values {
  import opened ByteTables
  import opened Xxh3
  import opened Xxh3Multiply
  import opened XxHashSamples
  import LittleEndian
  import XxHash64
  import XxHash32Values
  import Xxh3Windows

  const SEED: U64 := 2654435761

  // ---------- the end of the hash ----------

  lemma FinishIs(n: U64, w: bv64, r: bv64)
    requires XxHash64.Word64(n) == w
    requires XxHash64.Fold32(XxHash64.Times(XxHash64.Fold29(w), 1609587929392839161)) == r
    ensures Finish(n) == r
  {
    hide XxHash64.Word64, XxHash64.Fold29, XxHash64.Fold32, XxHash64.Times;
    assert XxHash64.PRIME3 == 1609587929392839161;
  }

  // ---------- the words of the sample ----------

  lemma Numbers()
    ensures NumberOf(0x9E) == 0x9E && NumberOf(0xFF) == 0xFF && NumberOf(0x1F) == 0x1F && NumberOf(0x4B) == 0x4B
    ensures NumberOf(0x5E) == 0x5E && NumberOf(0x53) == 0x53 && NumberOf(0x2F) == 0x2F && NumberOf(0xDD) == 0xDD
    ensures NumberOf(0xB5) == 0xB5 && NumberOf(0x54) == 0x54 && NumberOf(0x4D) == 0x4D && NumberOf(0x2A) == 0x2A
    ensures NumberOf(0x95) == 0x95 && NumberOf(0x2B) == 0x2B && NumberOf(0x57) == 0x57 && NumberOf(0xAE) == 0xAE
    ensures NumberOf(0x5D) == 0x5D && NumberOf(0xBA) == 0xBA && NumberOf(0x74) == 0x74 && NumberOf(0xE9) == 0xE9
    ensures NumberOf(0xD3) == 0xD3 && NumberOf(0xA6) == 0xA6 && NumberOf(0x4C) == 0x4C && NumberOf(0x98) == 0x98
    ensures NumberOf(0x30) == 0x30 && NumberOf(0x60) == 0x60 && NumberOf(0xC0) == 0xC0 && NumberOf(0x80) == 0x80
    ensures NumberOf(0) == 0
  {}

  lemma Words()
    ensures Read32(FIRST[0..4]) == 0x4B1FFF9E && Read32(FIRST[4..8]) == 0xDD2F535E
    ensures Read32(FIRST[8..12]) == 0x2A4D54B5 && Read32(FIRST[12..16]) == 0xAE572B95
    ensures Read32(SECOND[..4]) == 0xE974BA5D && Read32(SECOND[4..8]) == 0x984CA6D3
    ensures Read32(SECOND[8..]) == 0x80C06030
  {
    hide LittleEndian.Word32, NumberOf;
    Numbers();
    LittleEndian.Word32Value(FIRST[0..4]);
    LittleEndian.Word32Value(FIRST[4..8]);
    LittleEndian.Word32Value(FIRST[8..12]);
    LittleEndian.Word32Value(FIRST[12..16]);
    LittleEndian.Word32Value(SECOND[..4]);
    LittleEndian.Word32Value(SECOND[4..8]);
    LittleEndian.Word32Value(SECOND[8..]);
  }

  lemma FirstKeys()
    ensures Key64(0) == 0x23A44BBEB8FE6C39 && Key64(1) == 0xF721AD1C7C01812C
    ensures Key64(2) == 0x839097DBDED46DE9 && Key64(3) == 0xB7B3671F7240A4A4
    ensures Key64(4) == 0xCCC0E578CB79E64E && Key64(5) == 0xCCFF7221825AD07D
    ensures Key64(6) == 0xF743248EB8084674 && Key64(7) == 0x813A264CE03590E6
  {}

  lemma LastKeys()
    ensures Key64(8) == 0x91C300CB3C2852BB && Key64(9) == 0x1B532EA388D0658B
    ensures Key64(10) == 0xA20DF94E71644897 && Key64(11) == 0xA9DEACD83819EF46
    ensures Key64(12) == 0xE39C343FA8FA763F && Key64(13) == 0xC70B4F1DF9DCBBC7
    ensures Key64(14) == 0xCDB459318A51E04B && Key64(15) == 0xD9787364C89F7EC9
  {}

  // ---------- 1 byte ----------

  lemma OneByte(long: (seq<bv8>, U64) -> bv64)
    ensures XXH3(long, Generated(PRIME, 1), SEED) == 0xCEE5DF124E6135DC
  {
    hide Generated, NumberOf, Finish;
    Numbers();
    Brief(1);
    TinySample();
    FinishIs(0x0C246DB0D837E938, 0x0C246DB0D837E938, 0xCEE5DF124E6135DC);
  }

  lemma TinySample()
    ensures Tiny(FIRST[..1], SEED) == 0x0C246DB0D837E938
  {
    hide NumberOf;
    Numbers();
    assert FIRST[..1][0] == 0x9E;
    assert Mult32to64(0x9E + 0x9E * 256 + SEED + 3103681593, 1 + 0x9E * 4 + 597969854) == 0x0C246DB0D837E938;
  }

  // ---------- 6 bytes ----------

  lemma SixBytes(long: (seq<bv8>, U64) -> bv64)
    ensures XXH3(long, Generated(PRIME, 6), SEED) == 0x133EC8CA1739250F
  {
    hide Generated, Finish, Small;
    Brief(6);
    SmallSample();
    FinishIs(0x09E261A62D69A81C, 0x09E261A62D69A81C, 0x133EC8CA1739250F);
  }

  lemma SmallSample()
    ensures Small(FIRST[..6], SEED) == 0x09E261A62D69A81C
  {
    hide NumberOf, LittleEndian.Word32;
    Numbers();
    Words();
    var s := FIRST[..6];
    assert s[..4] == FIRST[0..4];
    LittleEndian.Word32Value(s[2..]);
    assert Read32(s[2..]) == 0x535E4B1F;
    assert Mult32to64(0x4B1FFF9E + 3103681593, 0x535E4B1F + 597969854) == 0x01EA2ECB2A21129B;
    assert Start(6, SEED) == 0x07F832DB03489581;
  }

  // ---------- 12 bytes ----------

  lemma LastLong()
    ensures Read64(FIRST[..12][4..]) == 0x2A4D54B5DD2F535E && Read64(FIRST[..12][..8]) == 0xDD2F535E4B1FFF9E
  {
    hide LittleEndian.Word32, LittleEndian.Word64;
    Words();
    var s := FIRST[..12];
    LittleEndian.Word64Value(s[4..]);
    LittleEndian.Word64Value(s[..8]);
    assert s[4..][..4] == FIRST[4..8] && s[4..][4..] == FIRST[8..12];
    assert s[..8][..4] == FIRST[0..4] && s[..8][4..] == FIRST[4..8];
  }

  lemma MiddleSample()
    ensures Middle(FIRST[..12], SEED) == 0x53B123E7C4719528
  {
    hide Read64, Key64;
    LastLong();
    FirstKeys();
    assert Sum(0xDD2F535E4B1FFF9E, 0x23A44BBEB8FE6C39) == 0x00D39F1D041E6BD7;
    assert Sum(0x2A4D54B5DD2F535E, 0xF721AD1C7C01812C) == 0x216F01D25930D48A;
    assert Folded(0x00D39F1D041E6BD7, 0x216F01D25930D48A) == 0x966C16E39DA2407D;
    assert Start(12, SEED) == 0xBD450D0426CF54AB;
  }

  lemma TwelveBytes(long: (seq<bv8>, U64) -> bv64)
    ensures XXH3(long, Generated(PRIME, 12), SEED) == 0xE0DB5E70DA67EB16
  {
    hide Generated, Finish, Middle;
    Brief(12);
    MiddleSample();
    FinishIs(0x53B123E7C4719528, 0x53B123E7C4719528, 0xE0DB5E70DA67EB16);
  }

  // ---------- 112 bytes ----------

  lemma ZeroRead(b: seq<bv8>)
    requires |b| == 8 && forall i | 0 <= i < 8 :: b[i] == 0
    ensures Read64(b) == 0
  {
    hide LittleEndian.Word32, LittleEndian.Word64, NumberOf;
    Numbers();
    LittleEndian.Word64Value(b);
    LittleEndian.Word32Value(b[..4]);
    LittleEndian.Word32Value(b[4..]);
  }

  lemma XorZero(k: U64)
    ensures Xor(0, k) == k
  {
    hide Number64;
    assert XxHash64.Word64(0) ^ XxHash64.Word64(k) == XxHash64.Word64(k);
    Xxh3Windows.NumberWord(k);
  }

  /** A window of zeros multiplies its part of the key. */
  lemma ZeroWindow(b: seq<bv8>, m: nat)
    requires |b| == 16 && m < 12 && forall i | 0 <= i < 16 :: b[i] == 0
    ensures Mix16(b, m) == Folded(Key64(2 * m), Key64(2 * m + 1))
  {
    hide Read64, Xor, Key64, Folded;
    ZeroRead(b[..8]);
    ZeroRead(b[8..]);
    XorZero(Key64(2 * m));
    XorZero(Key64(2 * m + 1));
  }

  lemma FoldedIs(a: U64, b: U64, high: U64, low: U64, r: U64)
    requires a * b == high * TWO64 + low && r == (low + high) % TWO64
    ensures Folded(a, b) == r
  {
    TwoHalves(a * b, high, low);
  }

  lemma KeyProducts()
    ensures Folded(Key64(2), Key64(3)) == 0x05620F86C419CD08
    ensures Folded(Key64(6), Key64(7)) == 0x2179992A8010F01F
    ensures Folded(Key64(8), Key64(9)) == 0xD9021EB9FAE9BB39
    ensures Folded(Key64(10), Key64(11)) == 0xF7E64C80FD9FE2E9
    ensures Folded(Key64(12), Key64(13)) == 0x083242FACA45A505
    ensures Folded(Key64(14), Key64(15)) == 0x94F941389A746972
  {
    hide Key64, Folded;
    FirstKeys();
    LastKeys();
    FoldedIs(0x839097DBDED46DE9, 0xB7B3671F7240A4A4,
             0x5E688FA7B15A1FC4, 0xA6F97FDF12BFAD44, 0x05620F86C419CD08);
    FoldedIs(0xF743248EB8084674, 0x813A264CE03590E6,
             0x7CD0FFA06AFC63E7, 0xA4A8998A15148C38, 0x2179992A8010F01F);
    FoldedIs(0x91C300CB3C2852BB, 0x1B532EA388D0658B,
             0x0F8EEDDCD87108B0, 0xC97330DD2278B289, 0xD9021EB9FAE9BB39);
    FoldedIs(0xA20DF94E71644897, 0xA9DEACD83819EF46,
             0x6B882F1D3DB0109F, 0x8C5E1D63BFEFD24A, 0xF7E64C80FD9FE2E9);
    FoldedIs(0xE39C343FA8FA763F, 0xC70B4F1DF9DCBBC7,
             0xB0F87AAB960FB50C, 0x5739C84F3435EFF9, 0x083242FACA45A505);
    FoldedIs(0xCDB459318A51E04B, 0xD9787364C89F7EC9,
             0xAEBEA8DDCD31648F, 0xE63A985ACD4304E3, 0x94F941389A746972);
  }

  lemma FirstXors()
    ensures Xor(0xDD2F535E4B1FFF9E, 0x23A44BBEB8FE6C39) == 0xFE8B18E0F3E193A7
    ensures Xor(0xAE572B952A4D54B5, 0xF721AD1C7C01812C) == 0x59768689564CD599
  {}

  lemma SecondXors()
    ensures Xor(0x984CA6D3E974BA5D, 0xCCC0E578CB79E64E) == 0x548C43AB220D5C13
    ensures Xor(0x0000000080C06030, 0xCCFF7221825AD07D) == 0xCCFF7221029AB04D
  {}

  lemma FirstFolds()
    ensures Folded(0xFE8B18E0F3E193A7, 0x59768689564CD599) == 0xDF7ADBD66AFE3831
    ensures Folded(0x548C43AB220D5C13, 0xCCFF7221029AB04D) == 0x5D47106C1A6C6FC0
  {
    hide Folded;
    FoldedIs(0xFE8B18E0F3E193A7, 0x59768689564CD599,
             0x58F4358909BF0662, 0x8686A64D613F31CF, 0xDF7ADBD66AFE3831);
    FoldedIs(0x548C43AB220D5C13, 0xCCFF7221029AB04D,
             0x43B4235523ACAE09, 0x1992ED16F6BFC1B7, 0x5D47106C1A6C6FC0);
  }

  lemma FirstWindow()
    ensures Mix16(FIRST, 0) == 0xDF7ADBD66AFE3831
  {
    hide LittleEndian.Word32, LittleEndian.Word64, Key64, Xor, Folded;
    LongsOf(FIRST, FIRST[0..4], FIRST[4..8], FIRST[8..12], FIRST[12..16]);
    Words();
    FirstKeys();
    FirstXors();
    FirstFolds();
  }

  lemma SecondWindow(b: seq<bv8>)
    requires b == SECOND + [0, 0, 0, 0]
    ensures Mix16(b, 2) == 0x5D47106C1A6C6FC0
  {
    hide LittleEndian.Word32, LittleEndian.Word64, Key64, Xor, Folded;
    LongsOf(b, SECOND[..4], SECOND[4..8], SECOND[8..], [0, 0, 0, 0]);
    Words();
    NoWord();
    FirstKeys();
    SecondXors();
    FirstFolds();
  }

  lemma NoWord()
    ensures Read32([0, 0, 0, 0]) == 0
  {
    hide LittleEndian.Word32, NumberOf;
    Numbers();
    LittleEndian.Word32Value([0, 0, 0, 0]);
  }

  lemma LongsOf(b: seq<bv8>, p: seq<bv8>, q: seq<bv8>, r: seq<bv8>, s: seq<bv8>)
    requires |b| == 16 && |p| == |q| == |r| == |s| == 4 && b == p + q + r + s
    ensures Read64(b[..8]) == Read32(p) + TWO32 * Read32(q) && Read64(b[8..]) == Read32(r) + TWO32 * Read32(s)
  {
    hide LittleEndian.Word32, LittleEndian.Word64;
    LittleEndian.Word64Value(b[..8]);
    LittleEndian.Word64Value(b[8..]);
    assert b[..8][..4] == p && b[..8][4..] == q && b[8..][..4] == r && b[8..][4..] == s;
  }

  /** The windows of the sample. */
  lemma Sample(data: seq<bv8>)
    requires data == Generated(PRIME, 112)
    ensures |data| == 112 && data[..16] == FIRST && data[16..32] == SECOND + [0, 0, 0, 0]
    ensures forall i | 32 <= i < 112 :: data[i] == 0
  {
    hide Generated, Zeros;
    XxHashSamples.Long(80);
    XxHash32Values.AllZero(80);
    XxHash32Values.AllZero(4);
    assert Zeros(4) == [0, 0, 0, 0];
  }

  lemma ZeroProduct(data: seq<bv8>, at: nat, m: nat)
    requires |data| == 112 && (forall i | 32 <= i < 112 :: data[i] == 0) && 32 <= at <= 96 && m < 12
    ensures Mix16(data[at..at + 16], m) == Folded(Key64(2 * m), Key64(2 * m + 1))
  {
    hide Mix16, Key64, Folded;
    ZeroWindow(data[at..at + 16], m);
  }

  lemma RoundIs(acc: U64, data: seq<bv8>, i: nat, front: U64, back: U64, r: U64)
    requires |data| == 112 && i < 4
    requires Mix16(data[16 * i..16 * i + 16], 2 * i) == front
    requires Mix16(data[112 - 16 * (i + 1)..112 - 16 * i], 2 * i + 1) == back
    requires Sum(Sum(acc, front), back) == r
    ensures MixRounds(acc, data, i + 1) == MixRounds(r, data, i)
  {
    hide Mix16, Sum;
    assert MixRound(acc, data, i) == r;
  }

  lemma SampleRounds(data: seq<bv8>)
    requires data == Generated(PRIME, 112)
    ensures |data| == 112 && MixRounds(0x8AF0965C76EA7167, data, 4) == 0x5CA21ABE9DC38318
  {
    hide Generated, MixRounds, Mix16, Folded, Key64;
    Sample(data);
    KeyProducts();
    ZeroProduct(data, 48, 6);
    ZeroProduct(data, 48, 7);
    RoundIs(0x8AF0965C76EA7167, data, 3, 0x083242FACA45A505, 0x94F941389A746972, 0x281C1A8FDBA47FDE);
    ZeroProduct(data, 32, 4);
    ZeroProduct(data, 64, 5);
    RoundIs(0x281C1A8FDBA47FDE, data, 2, 0xD9021EB9FAE9BB39, 0xF7E64C80FD9FE2E9, 0xF90485CAD42E1E00);
    SecondWindow(data[16..32]);
    ZeroProduct(data, 80, 3);
    RoundIs(0xF90485CAD42E1E00, data, 1, 0x5D47106C1A6C6FC0, 0x2179992A8010F01F, 0x77C52F616EAB7DDF);
    FirstWindow();
    assert data[0..16] == FIRST;
    ZeroProduct(data, 96, 1);
    RoundIs(0x77C52F616EAB7DDF, data, 0, 0xDF7ADBD66AFE3831, 0x05620F86C419CD08, 0x5CA21ABE9DC38318);
    NoRound(0x5CA21ABE9DC38318, data);
  }

  lemma NoRound(acc: U64, data: seq<bv8>)
    ensures MixRounds(acc, data, 0) == acc
  {}

  lemma LongSample(long: (seq<bv8>, U64) -> bv64)
    ensures XXH3(long, Generated(PRIME, 112), SEED) == 0xD6BF88A668E69F2A
  {
    hide Generated, Finish, MixRounds;
    SampleRounds(Generated(PRIME, 112));
    assert Start(112, SEED) == 0x8AF0965C76EA7167;
    FinishIs(0x5CA21ABE9DC38318, 0x5CA21ABE9DC38318, 0xD6BF88A668E69F2A);
  }
}
