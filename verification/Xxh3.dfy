/** XXH3_64bits for inputs up to 128 bytes: every way to multiply gives the same hash, and the ladder of lengths
    mixes rounds of 32 bytes from the middle outwards. */
module Xxh3 {
  import opened ByteTables
  import opened Xxh3Multiply
  import LittleEndian
  import XxHash64

  const PRIME1: U64 := 11400714785074694791

  const KEY: seq<U32> :=
    [0xb8fe6c39, 0x23a44bbe, 0x7c01812c, 0xf721ad1c, 0xded46de9, 0x839097db, 0x7240a4a4, 0xb7b3671f]
    + [0xcb79e64e, 0xccc0e578, 0x825ad07d, 0xccff7221, 0xb8084674, 0xf743248e, 0xe03590e6, 0x813a264c]
    + [0x3c2852bb, 0x91c300cb, 0x88d0658b, 0x1b532ea3, 0x71644897, 0xa20df94e, 0x3819ef46, 0xa9deacd8]
    + [0xa8fa763f, 0xe39c343f, 0xf9dcbbc7, 0xc70b4f1d, 0x8a51e04b, 0xcdb45931, 0xc89f7ec9, 0xd9787364]
    + [0xeac5ac83, 0x34d3ebc3, 0xc581a0ff, 0xfa1363eb, 0x170ddd51, 0xb7f0da49, 0xd3165526, 0x29d4689e]
    + [0x2b16be58, 0x7d47a1fc, 0x8ff8b8d1, 0x7ad031ce, 0x45cb3a8f, 0x95160428, 0xafd7fbca, 0xbb4b407e]

  /** Double word j of the key. */
  function Key64(j: nat): U64
    requires j < 24
  {
    KEY[2 * j] + KEY[2 * j + 1] * TWO32
  }

  function Read32(b: seq<bv8>): U32
    requires |b| == 4
  {
    LittleEndian.Word32(b)
  }

  function Read64(b: seq<bv8>): U64
    requires |b| == 8
  {
    LittleEndian.Word64(b)
  }

  function Number64(x: bv64): U64 { x as nat }

  function Xor(a: U64, b: U64): U64 { Number64(XxHash64.Word64(a) ^ XxHash64.Word64(b)) }

  function Sum(a: U64, b: U64): U64 { (a + b) % TWO64 }

  // ---------- the product ----------

  /** How a platform multiplies: with 128-bit integers, with multiply-accumulate steps, or by halves. */
  datatype Platform = Wide | Arm | Scalar

  method Multiply(platform: Platform, a: U64, b: U64) returns (r: U64)
    ensures r == Folded(a, b)
  {
    match platform {
      case Wide =>
        var lll := a * b;
        HighHalf(a, b);
        r := Sum(lll % TWO64, lll / TWO64);
      case Arm => r := Accumulated(a, b);
      case Scalar => r := Portable(a, b);
    }
  }

  function Mult32to64(x: nat, y: nat): U64 {
    Product32(x % TWO32, y % TWO32);
    (x % TWO32) * (y % TWO32)
  }

  function Finish(n: U64): bv64 {
    XxHash64.Fold32(XxHash64.Times(XxHash64.Fold29(XxHash64.Word64(n)), XxHash64.PRIME3))
  }

  // ---------- what the hash is ----------

  /** Sixteen bytes with the part m of the key. */
  function Mix16(b: seq<bv8>, m: nat): U64
    requires |b| == 16 && m < 12
  {
    Folded(Xor(Read64(b[..8]), Key64(2 * m)), Xor(Read64(b[8..]), Key64(2 * m + 1)))
  }

  /** Round i takes the bytes 16 * i from the start and those as far from the end, where there are any. */
  function MixRound(acc: U64, data: seq<bv8>, i: nat): U64 {
    if i >= 4 || 16 * (i + 1) > |data| then acc
    else
      Sum(Sum(acc, Mix16(data[16 * i..16 * i + 16], 2 * i)),
          Mix16(data[|data| - 16 * (i + 1)..|data| - 16 * i], 2 * i + 1))
  }

  /** The rounds from n - 1 down to 0. */
  function Down<A>(round: (A, nat) -> A, acc: A, n: nat): A {
    if n == 0 then acc else Down(round, round(acc, n - 1), n - 1)
  }

  function MixRounds(acc: U64, data: seq<bv8>, n: nat): U64 {
    Down((a: U64, i: nat) => MixRound(a, data, i), acc, n)
  }

  function Start(len: nat, seed: U64): U64 { PRIME1 * (len + seed) % TWO64 }

  function Tiny(data: seq<bv8>, seed: U64): U64
    requires 1 <= |data| <= 3
  {
    var l1 := NumberOf(data[0]) + NumberOf(data[|data| / 2]) * 256;
    var l2 := |data| + NumberOf(data[|data| - 1]) * 4;
    Mult32to64(l1 + seed + KEY[0], l2 + KEY[1])
  }

  function Small(data: seq<bv8>, seed: U64): U64
    requires 4 <= |data| <= 8
  {
    Sum(Start(|data|, seed), Mult32to64(Read32(data[..4]) + KEY[0], Read32(data[|data| - 4..]) + KEY[1]))
  }

  function Middle(data: seq<bv8>, seed: U64): U64
    requires 9 <= |data| <= 16
  {
    var ll1, ll2 := Sum(Read64(data[..8]), Key64(0)), Sum(Read64(data[|data| - 8..]), Key64(1));
    Sum(Start(|data|, seed), Folded(ll1, ll2))
  }

  /** As many rounds of 32 bytes as the input touches; longer inputs are hashed by a function of their own. */
  function XXH3(long: (seq<bv8>, U64) -> bv64, data: seq<bv8>, seed: U64): bv64 {
    if data == [] then XxHash64.Word64(seed)
    else if |data| <= 3 then Finish(Tiny(data, seed))
    else if |data| <= 8 then Finish(Small(data, seed))
    else if |data| <= 16 then Finish(Middle(data, seed))
    else if |data| <= 128 then Finish(MixRounds(Start(|data|, seed), data, (|data| + 31) / 32))
    else long(data, seed)
  }

  // ---------- the code ----------

  method Mix16B(platform: Platform, b: seq<bv8>, m: nat) returns (r: U64)
    requires |b| == 16 && m < 12
    ensures r == Mix16(b, m)
  {
    hide Folded, Read64, Key64, Xor;
    r := Multiply(platform, Xor(Read64(b[..8]), Key64(2 * m)), Xor(Read64(b[8..]), Key64(2 * m + 1)));
  }

  /** Two windows, one from either side. */
  method MixBoth(platform: Platform, acc: U64, data: seq<bv8>, i: nat) returns (r: U64)
    requires 16 * (i + 1) <= |data| && i < 4
    ensures r == MixRound(acc, data, i)
  {
    hide Mix16, Sum;
    var front := Mix16B(platform, data[16 * i..16 * i + 16], 2 * i);
    var back := Mix16B(platform, data[|data| - 16 * (i + 1)..|data| - 16 * i], 2 * i + 1);
    r := Sum(Sum(acc, front), back);
  }

  method Hash9to16(platform: Platform, data: seq<bv8>, seed: U64) returns (h: bv64)
    requires 9 <= |data| <= 16
    ensures h == Finish(Middle(data, seed))
  {
    hide Folded, Sum, Read64, Key64, Finish, Start;
    var acc := Start(|data|, seed);
    var ll1, ll2 := Sum(Read64(data[..8]), Key64(0)), Sum(Read64(data[|data| - 8..]), Key64(1));
    var product := Multiply(platform, ll1, ll2);
    h := Finish(Sum(acc, product));
  }

  /** The hash of 17 to 128 bytes, with the tests of the length one inside the other. */
  method HashRounds(platform: Platform, data: seq<bv8>, seed: U64) returns (h: bv64)
    requires 16 < |data| <= 128
    ensures h == Finish(MixRounds(Start(|data|, seed), data, (|data| + 31) / 32))
  {
    hide MixRound, Finish, Start;
    var len := |data|;
    var acc := Start(len, seed);
    ghost var start, n := acc, (len + 31) / 32;
    assert MixRounds(acc, data, n) == MixRounds(start, data, n);
    if len > 32 {
      if len > 64 {
        if len > 96 {
          acc := MixBoth(platform, acc, data, 3);
        }
        assert MixRounds(acc, data, 3) == MixRounds(start, data, n);
        acc := MixBoth(platform, acc, data, 2);
      }
      assert MixRounds(acc, data, 2) == MixRounds(start, data, n);
      acc := MixBoth(platform, acc, data, 1);
    }
    assert MixRounds(acc, data, 1) == MixRounds(start, data, n);
    acc := MixBoth(platform, acc, data, 0);
    h := Finish(acc);
  }

  method Hash64(platform: Platform, long: (seq<bv8>, U64) -> bv64, data: seq<bv8>, seed: U64) returns (h: bv64)
    ensures h == XXH3(long, data, seed)
  {
    hide Finish, Tiny, Small, Middle, MixRounds, Start;
    var len := |data|;
    if len <= 16 {
      if len > 8 {
        h := Hash9to16(platform, data, seed);
      } else if len >= 4 {
        h := Finish(Small(data, seed));
      } else if len > 0 {
        h := Finish(Tiny(data, seed));
      } else {
        h := XxHash64.Word64(seed);
      }
    } else if len > 128 {
      h := long(data, seed);
    } else {
      h := HashRounds(platform, data, seed);
    }
  }
}
