/** XXH64 tells inputs apart that differ in one double word, word or byte of the tail. A double word of a stripe
    goes into one lane, which the merge uses twice: such inputs have different hashes exactly when the two uses do
    not cancel out. */
module XxHash64Differs {
  import opened Stripes
  import opened XxHash64
  import XxHash32
  import XxHash32Differs

  // ---------- what undoes a step ----------

  const INVERSE1: bv64 := 614540362697595703
  const INVERSE2: bv64 := 839798700976720815
  const INVERSE3: bv64 := 16855272203555305545
  const INVERSE5: bv64 := 14236653164957433613

  lemma Literal1(x: bv64)
    ensures Times(Times(x, 11400714785074694791), 614540362697595703) == x
  {
    assert Times(x * 11400714785074694791, 614540362697595703) == x;
  }

  lemma Literal2(x: bv64)
    ensures Times(Times(x, 14029467366897019727), 839798700976720815) == x
  {
    assert Times(x * 14029467366897019727, 839798700976720815) == x;
  }

  lemma Literal3(x: bv64)
    ensures Times(Times(x, 1609587929392839161), 16855272203555305545) == x
  {
    assert Times(x * 1609587929392839161, 16855272203555305545) == x;
  }

  lemma Literal5(x: bv64)
    ensures Times(Times(x, 2870177450012600261), 14236653164957433613) == x
  {
    assert Times(x * 2870177450012600261, 14236653164957433613) == x;
  }

  lemma Times1Back(x: bv64)
    ensures Times(Times(x, PRIME1), INVERSE1) == x
  {
    hide Times;
    assert PRIME1 == 11400714785074694791 && INVERSE1 == 614540362697595703;
    Literal1(x);
  }

  lemma Times2Back(x: bv64)
    ensures Times(Times(x, PRIME2), INVERSE2) == x
  {
    hide Times;
    assert PRIME2 == 14029467366897019727 && INVERSE2 == 839798700976720815;
    Literal2(x);
  }

  lemma Times3Back(x: bv64)
    ensures Times(Times(x, PRIME3), INVERSE3) == x
  {
    hide Times;
    assert PRIME3 == 1609587929392839161 && INVERSE3 == 16855272203555305545;
    Literal3(x);
  }

  lemma Times5Back(x: bv64)
    ensures Times(Times(x, PRIME5), INVERSE5) == x
  {
    hide Times;
    assert PRIME5 == 2870177450012600261 && INVERSE5 == 14236653164957433613;
    Literal5(x);
  }

  lemma Rotl11Back(x: bv64)
    ensures Rotl(Rotl(x, 11), 53) == x
  {}

  lemma Rotl23Back(x: bv64)
    ensures Rotl(Rotl(x, 23), 41) == x
  {}

  lemma Rotl27Back(x: bv64)
    ensures Rotl(Rotl(x, 27), 37) == x
  {}

  lemma Rotl31Back(x: bv64)
    ensures Rotl(Rotl(x, 31), 33) == x
  {}

  function Without(sum: bv64, part: bv64): bv64 { sum - part }

  lemma SumBack(x: bv64, y: bv64)
    ensures Without(Plus(x, y), x) == y && Without(Plus(x, y), y) == x
  {
    assert Without(x + y, x) == y && Without(x + y, y) == x;
  }

  lemma PlusSame(x: bv64, y: bv64, x': bv64, y': bv64)
    requires Plus(x, y) == Plus(x', y')
    ensures x == x' <==> y == y'
  {
    hide Plus, Without;
    SumBack(x, y);
    SumBack(x', y');
  }

  lemma XorBack(x: bv64, y: bv64)
    ensures Xor(Xor(x, y), x) == y && Xor(Xor(x, y), y) == x
  {
    assert Xor(x ^ y, x) == y && Xor(x ^ y, y) == x;
  }

  lemma XorSame(x: bv64, y: bv64, x': bv64, y': bv64)
    requires Xor(x, y) == Xor(x', y')
    ensures x == x' <==> y == y'
  {
    hide Xor;
    XorBack(x, y);
    XorBack(x', y');
  }

  function Unfold29(t: bv64): bv64 { t ^ (t >> 29) ^ (t >> 58) }

  function Unfold32(t: bv64): bv64 { t ^ (t >> 32) }

  function Unfold33(t: bv64): bv64 { t ^ (t >> 33) }

  lemma FoldBack29(x: bv64)
    ensures Unfold29(Fold29(x)) == x
  {
    assert Unfold29(x ^ (x >> 29)) == x;
  }

  lemma FoldBack32(x: bv64)
    ensures Unfold32(Fold32(x)) == x
  {
    assert Unfold32(x ^ (x >> 32)) == x;
  }

  lemma FoldBack33(x: bv64)
    ensures Unfold33(Fold33(x)) == x
  {
    assert Unfold33(x ^ (x >> 33)) == x;
  }

  lemma WideSame(b: bv8, b': bv8)
    ensures Wide(b) == Wide(b') <==> b == b'
  {}

  lemma Widened(x: bv32, y: bv32)
    ensures x as bv64 == y as bv64 <==> x == y
  {}

  lemma Read32Same(a: seq<bv8>, b: seq<bv8>)
    requires |a| == |b| == 4
    ensures Read32(a) == Read32(b) <==> a == b
  {
    hide XxHash32.Read32;
    Widened(XxHash32.Read32(a), XxHash32.Read32(b));
    XxHash32Differs.Read32Same(a, b);
  }

  function Low(x: bv64): bv32 { (x & 0xFFFF_FFFF) as bv32 }

  function High(x: bv64): bv32 { (x >> 32) as bv32 }

  lemma HalvesBack(low: bv32, high: bv32)
    ensures Low(Join(low, high)) == low && High(Join(low, high)) == high
  {
    var x := (low as bv64) | ((high as bv64) << 32);
    assert (x & 0xFFFF_FFFF) == low as bv64 && (x >> 32) == high as bv64;
  }

  lemma Read64Same(a: seq<bv8>, b: seq<bv8>)
    requires |a| == |b| == 8
    ensures Read64(a) == Read64(b) <==> a == b
  {
    hide XxHash32.Read32, Join, Low, High;
    HalvesBack(XxHash32.Read32(a[..4]), XxHash32.Read32(a[4..]));
    HalvesBack(XxHash32.Read32(b[..4]), XxHash32.Read32(b[4..]));
    XxHash32Differs.Read32Same(a[..4], b[..4]);
    XxHash32Differs.Read32Same(a[4..], b[4..]);
    assert a == a[..4] + a[4..] && b == b[..4] + b[4..];
  }

  // ---------- one step ----------

  lemma RoundBack(acc: bv64, x: bv64)
    ensures Rotl(Times(Round(acc, x), INVERSE1), 33) == Plus(acc, Times(x, PRIME2))
  {
    hide Times, Rotl, Plus;
    var sum := Plus(acc, Times(x, PRIME2));
    Times1Back(Rotl(sum, 31));
    Rotl31Back(sum);
  }

  /** A round is one-to-one in the accumulator and in the double word. */
  lemma RoundSame(acc: bv64, x: bv64, acc': bv64, x': bv64)
    requires Round(acc, x) == Round(acc', x')
    ensures acc == acc' <==> x == x'
  {
    hide Times, Rotl, Plus, Round, Without;
    RoundBack(acc, x);
    RoundBack(acc', x');
    SumBack(acc, Times(x, PRIME2));
    SumBack(acc', Times(x', PRIME2));
    Times2Back(x);
    Times2Back(x');
  }

  lemma LongBack(h: bv64, b: seq<bv8>)
    requires |b| == 8
    ensures Rotl(Times(Without(Process8(h, b), PRIME4), INVERSE1), 37) == Xor(h, Round(0, Read64(b)))
  {
    hide Times, Rotl, Plus, Xor, Read64, Round, Without;
    var x := Xor(h, Round(0, Read64(b)));
    SumBack(Times(Rotl(x, 27), PRIME1), PRIME4);
    Times1Back(Rotl(x, 27));
    Rotl27Back(x);
  }

  lemma LongSame(h: bv64, b: seq<bv8>, h': bv64, b': seq<bv8>)
    requires |b| == |b'| == 8 && Process8(h, b) == Process8(h', b')
    ensures h == h' <==> b == b'
  {
    hide Process8, Rotl, Xor, Read64, Round, Without;
    LongBack(h, b);
    LongBack(h', b');
    XorSame(h, Round(0, Read64(b)), h', Round(0, Read64(b')));
    if Round(0, Read64(b)) == Round(0, Read64(b')) {
      RoundSame(0, Read64(b), 0, Read64(b'));
    }
    Read64Same(b, b');
  }

  lemma WordBack(h: bv64, b: seq<bv8>)
    requires |b| == 4
    ensures Rotl(Times(Without(Process4(h, b), PRIME3), INVERSE2), 41) == Xor(h, Times(Read32(b), PRIME1))
  {
    hide Times, Rotl, Plus, Xor, Read32, Without;
    var x := Xor(h, Times(Read32(b), PRIME1));
    SumBack(Times(Rotl(x, 23), PRIME2), PRIME3);
    Times2Back(Rotl(x, 23));
    Rotl23Back(x);
  }

  lemma WordSame(h: bv64, b: seq<bv8>, h': bv64, b': seq<bv8>)
    requires |b| == |b'| == 4 && Process4(h, b) == Process4(h', b')
    ensures h == h' <==> b == b'
  {
    hide Times, Rotl, Xor, Read32, Process4, Without;
    WordBack(h, b);
    WordBack(h', b');
    XorSame(h, Times(Read32(b), PRIME1), h', Times(Read32(b'), PRIME1));
    Times1Back(Read32(b));
    Times1Back(Read32(b'));
    Read32Same(b, b');
  }

  lemma ByteBack(h: bv64, b: bv8)
    ensures Rotl(Times(Process1(h, b), INVERSE1), 53) == Xor(h, Times(Wide(b), PRIME5))
  {
    hide Times, Rotl, Xor, Wide;
    var x := Xor(h, Times(Wide(b), PRIME5));
    Times1Back(Rotl(x, 11));
    Rotl11Back(x);
  }

  lemma ByteSame(h: bv64, b: bv8, h': bv64, b': bv8)
    requires Process1(h, b) == Process1(h', b')
    ensures h == h' <==> b == b'
  {
    hide Times, Rotl, Xor, Wide, Process1;
    ByteBack(h, b);
    ByteBack(h', b');
    XorSame(h, Times(Wide(b), PRIME5), h', Times(Wide(b'), PRIME5));
    Times5Back(Wide(b));
    Times5Back(Wide(b'));
    WideSame(b, b');
  }

  lemma AvalancheBack(h: bv64)
    ensures Unfold33(Times(Unfold29(Times(Unfold32(Avalanche(h)), INVERSE3)), INVERSE2)) == h
  {
    hide Times, Fold29, Fold32, Fold33, Unfold29, Unfold32, Unfold33;
    var h1 := Times(Fold33(h), PRIME2);
    var h2 := Times(Fold29(h1), PRIME3);
    FoldBack33(h);
    Times2Back(Fold33(h));
    FoldBack29(h1);
    Times3Back(Fold29(h1));
    FoldBack32(h2);
  }

  lemma AvalancheSame(g: bv64, h: bv64)
    requires Avalanche(g) == Avalanche(h)
    ensures g == h
  {
    hide Times, Avalanche, Unfold29, Unfold32, Unfold33;
    AvalancheBack(g);
    AvalancheBack(h);
  }

  // ---------- the lanes ----------

  function Lane(v: Lanes, j: nat): bv64
    requires j < 4
  {
    if j == 0 then v.v1 else if j == 1 then v.v2 else if j == 2 then v.v3 else v.v4
  }

  /** Accumulators that differ in lane j alone. */
  predicate OneLane(u: Lanes, v: Lanes, j: nat) {
    && (u.v1 != v.v1 <==> j == 0) && (u.v2 != v.v2 <==> j == 1)
    && (u.v3 != v.v3 <==> j == 2) && (u.v4 != v.v4 <==> j == 3)
  }

  /** The rotated sum with the first n lanes merged into it. */
  function Merged(v: Lanes, n: nat): bv64
    requires n <= 4
  {
    if n == 0 then Rotations(v) else MergeRound(Merged(v, n - 1), Lane(v, n - 1))
  }

  lemma MergedAll(v: Lanes)
    ensures Merge(v) == Merged(v, 4)
  {
    hide MergeRound, Rotations;
    assert Merged(v, 1) == MergeRound(Rotations(v), v.v1);
    assert Merged(v, 2) == MergeRound(Merged(v, 1), v.v2);
    assert Merged(v, 3) == MergeRound(Merged(v, 2), v.v3);
  }

  /** The two uses of lane j: in the rotated sum, with the lanes before it merged, and in its own merge. */
  function Crossed(v: Lanes, j: nat): bv64
    requires j < 4
  {
    Xor(Merged(v, j), Round(0, Lane(v, j)))
  }

  lemma CrossedMerged(u: Lanes, v: Lanes, j: nat)
    requires j < 4
    ensures Crossed(u, j) == Crossed(v, j) <==> Merged(u, j + 1) == Merged(v, j + 1)
  {
    hide Xor, Round, Plus, Times, Without;
    var x, y := Crossed(u, j), Crossed(v, j);
    SumBack(Times(x, PRIME1), PRIME4);
    SumBack(Times(y, PRIME1), PRIME4);
    Times1Back(x);
    Times1Back(y);
  }

  lemma {:induction false} MergedOn(u: Lanes, v: Lanes, i: nat, n: nat)
    requires i <= n <= 4 && forall k: nat | i <= k < n :: Lane(u, k) == Lane(v, k)
    ensures Merged(u, i) == Merged(v, i) <==> Merged(u, n) == Merged(v, n)
    decreases n
  {
    hide Lane, Xor, Round, MergeRound, Rotations;
    if i < n {
      MergedOn(u, v, i, n - 1);
      CrossedMerged(u, v, n - 1);
      assert Lane(u, n - 1) == Lane(v, n - 1);
      if Crossed(u, n - 1) == Crossed(v, n - 1) {
        XorSame(Merged(u, n - 1), Round(0, Lane(u, n - 1)), Merged(v, n - 1), Round(0, Lane(v, n - 1)));
      }
    }
  }

  /** The merge tells such accumulators apart unless the two uses of the lane cancel out. */
  lemma MergeDiffers(u: Lanes, v: Lanes, j: nat)
    requires j < 4 && OneLane(u, v, j)
    ensures Merge(u) == Merge(v) <==> Crossed(u, j) == Crossed(v, j)
  {
    hide Merge, Merged, Crossed;
    MergedAll(u);
    MergedAll(v);
    CrossedMerged(u, v, j);
    MergedOn(u, v, j + 1, 4);
  }

  lemma LaneKept(x: bv64, y: bv64, word: bv64)
    ensures x == y <==> Round(x, word) == Round(y, word)
  {
    hide Round;
    if Round(x, word) == Round(y, word) {
      RoundSame(x, word, y, word);
    }
  }

  lemma LongKept(acc: bv64, a: seq<bv8>, b: seq<bv8>)
    requires |a| == |b| == 8
    ensures a == b <==> Round(acc, Read64(a)) == Round(acc, Read64(b))
  {
    hide Round, Read64;
    Read64Same(a, b);
    if Round(acc, Read64(a)) == Round(acc, Read64(b)) {
      RoundSame(acc, Read64(a), acc, Read64(b));
    }
  }

  lemma StripeKeeps(j: nat)
    requires j < 4
    ensures Keeps(RoundAll, STRIPE, (u: Lanes, v: Lanes) => OneLane(u, v, j))
  {
    hide Round, Read64;
    forall u: Lanes, v: Lanes, s: seq<bv8> | |s| == STRIPE && OneLane(u, v, j)
      ensures OneLane(RoundAll(u, s), RoundAll(v, s), j)
    {
      LaneKept(u.v1, v.v1, Read64(s[..8]));
      LaneKept(u.v2, v.v2, Read64(s[8..16]));
      LaneKept(u.v3, v.v3, Read64(s[16..24]));
      LaneKept(u.v4, v.v4, Read64(s[24..]));
    }
  }

  /** Lane j takes in the bytes 8 * j to 8 * j + 8 of a stripe and no others. */
  lemma StripeSplits(s: seq<bv8>, t: seq<bv8>, j: nat)
    requires j < 4 && |s| == STRIPE && DifferAt(s, t, 8 * j, 8)
    ensures Splits(RoundAll, (u: Lanes, v: Lanes) => OneLane(u, v, j), s, t)
  {
    hide Round, Read64, DifferAt;
    assert |t| == STRIPE by { InRange(s, t, 8 * j, 8); }
    PartDiffers(s, t, 8 * j, 8, 0);
    PartDiffers(s, t, 8 * j, 8, 8);
    PartDiffers(s, t, 8 * j, 8, 16);
    PartDiffers(s, t, 8 * j, 8, 24);
    assert s[0..8] == s[..8] && t[0..8] == t[..8] && s[24..32] == s[24..] && t[24..32] == t[24..];
    forall x: Lanes ensures OneLane(RoundAll(x, s), RoundAll(x, t), j) {
      LongKept(x.v1, s[..8], t[..8]);
      LongKept(x.v2, s[8..16], t[8..16]);
      LongKept(x.v3, s[16..24], t[16..24]);
      LongKept(x.v4, s[24..], t[24..]);
    }
  }

  // ---------- the tail ----------

  lemma {:induction false} TailDiffers(g: bv64, h: bv64, s: seq<bv8>)
    requires g != h
    ensures Tail(g, s) != Tail(h, s)
    decreases |s|
  {
    hide Process8, Process4, Process1;
    if |s| >= 8 {
      if Process8(g, s[..8]) == Process8(h, s[..8]) {
        LongSame(g, s[..8], h, s[..8]);
      }
      TailDiffers(Process8(g, s[..8]), Process8(h, s[..8]), s[8..]);
    } else if |s| >= 4 {
      if Process4(g, s[..4]) == Process4(h, s[..4]) {
        WordSame(g, s[..4], h, s[..4]);
      }
      TailDiffers(Process4(g, s[..4]), Process4(h, s[..4]), s[4..]);
    } else if |s| > 0 {
      if Process1(g, s[0]) == Process1(h, s[0]) {
        ByteSame(g, s[0], h, s[0]);
      }
      TailDiffers(Process1(g, s[0]), Process1(h, s[0]), s[1..]);
    }
  }

  /** The n bytes from p on of a tail of len bytes are taken in by one step. */
  predicate OneStep(len: nat, p: nat, n: nat) {
    || (n == 8 && p % 8 == 0)
    || (n == 4 && p == len - len % 8)
    || (n == 1 && p >= len - len % 4)
  }

  /** How many bytes the first step on len bytes takes in. */
  function StepSize(len: nat): (k: nat)
    requires len > 0
    ensures 0 < k <= len
  {
    if len >= 8 then 8 else if len >= 4 then 4 else 1
  }

  lemma StepAfter(len: nat, p: nat, n: nat)
    requires OneStep(len, p, n) && p + n <= len
    ensures p == 0 ==> n == StepSize(len)
    ensures p > 0 ==> p >= StepSize(len) && OneStep(len - StepSize(len), p - StepSize(len), n)
  {}

  lemma TailFirst(h: bv64, a: seq<bv8>, b: seq<bv8>, n: nat)
    requires |a| > 0 && n == StepSize(|a|) && DifferAt(a, b, 0, n)
    ensures Tail(h, a) != Tail(h, b)
  {
    hide Process8, Process4, Process1;
    assert a[0..0 + n] == a[..n] && b[0..0 + n] == b[..n];
    if n == 8 {
      if Process8(h, a[..8]) == Process8(h, b[..8]) {
        LongSame(h, a[..8], h, b[..8]);
      }
      TailDiffers(Process8(h, a[..8]), Process8(h, b[..8]), a[8..]);
    } else if n == 4 {
      if Process4(h, a[..4]) == Process4(h, b[..4]) {
        WordSame(h, a[..4], h, b[..4]);
      }
      TailDiffers(Process4(h, a[..4]), Process4(h, b[..4]), a[4..]);
    } else {
      assert a[..1] == [a[0]] && b[..1] == [b[0]];
      if Process1(h, a[0]) == Process1(h, b[0]) {
        ByteSame(h, a[0], h, b[0]);
      }
      TailDiffers(Process1(h, a[0]), Process1(h, b[0]), a[1..]);
    }
  }

  lemma {:induction false} TailStep(h: bv64, a: seq<bv8>, b: seq<bv8>, p: nat, n: nat)
    requires OneStep(|a|, p, n) && DifferAt(a, b, p, n)
    ensures Tail(h, a) != Tail(h, b)
    decreases |a|
  {
    hide Process8, Process4, Process1, DifferAt, OneStep;
    InRange(a, b, p, n);
    StepAfter(|a|, p, n);
    var k := StepSize(|a|);
    if p == 0 {
      TailFirst(h, a, b, n);
    } else {
      DifferAfter(a, b, p, n, k);
      if k == 8 {
        TailStep(Process8(h, a[..8]), a[8..], b[8..], p - 8, n);
      } else if k == 4 {
        TailStep(Process4(h, a[..4]), a[4..], b[4..], p - 4, n);
      } else {
        assert a[0] == a[..1][0] && b[0] == b[..1][0];
        TailStep(Process1(h, a[0]), a[1..], b[1..], p - 1, n);
      }
    }
  }

  // ---------- the hash ----------

  lemma FinishSame(g: bv64, h: bv64, len: bv64, tail: seq<bv8>)
    ensures Avalanche(Tail(AddLength(g, len), tail)) == Avalanche(Tail(AddLength(h, len), tail)) <==> g == h
  {
    hide Avalanche, Tail, Plus;
    var k, l := AddLength(g, len), AddLength(h, len);
    if Avalanche(Tail(k, tail)) == Avalanche(Tail(l, tail)) {
      AvalancheSame(Tail(k, tail), Tail(l, tail));
      if k != l {
        TailDiffers(k, l, tail);
      } else {
        PlusSame(g, len, h, len);
      }
    }
  }

  /** The accumulators after all stripes. */
  function Accumulated(data: seq<bv8>, seed: bv64): Lanes { Consume(RoundAll, STRIPE, Start(seed), data) }

  lemma LanesChanged(a: seq<bv8>, b: seq<bv8>, q: nat, j: nat, seed: bv64)
    requires j < 4 && q == Whole(STRIPE, q) && q + STRIPE <= |a| && DifferAt(a, b, q + 8 * j, 8)
    ensures OneLane(Accumulated(a, seed), Accumulated(b, seed), j) && Rest(STRIPE, a) == Rest(STRIPE, b)
  {
    hide RoundAll, OneLane, Consume, Rest, Whole, Start, DifferAt;
    InRange(a, b, q + 8 * j, 8);
    var r := (u: Lanes, v: Lanes) => OneLane(u, v, j);
    DifferIn(a, b, q + 8 * j, 8, q, q + STRIPE);
    StripeKeeps(j);
    StripeSplits(a[q..q + STRIPE], b[q..q + STRIPE], j);
    ConsumeOneStripe(RoundAll, STRIPE, r, Start(seed), a, b, q);
    assert r(Accumulated(a, seed), Accumulated(b, seed));
  }

  lemma {:induction false} WholeStripes(n: nat)
    ensures Whole(STRIPE, n) == n - n % STRIPE
  {
    if n >= STRIPE {
      WholeStripes(n - STRIPE);
    }
  }

  lemma SameMerged(a: seq<bv8>, b: seq<bv8>, seed: bv64)
    requires |a| == |b| >= STRIPE && Rest(STRIPE, a) == Rest(STRIPE, b)
    ensures XXH64(a, seed) == XXH64(b, seed) <==> Merge(Accumulated(a, seed)) == Merge(Accumulated(b, seed))
  {
    hide Merge, Tail, Avalanche, AddLength, Consume, Rest;
    FinishSame(Merge(Accumulated(a, seed)), Merge(Accumulated(b, seed)), Low64(|a|), Rest(STRIPE, a));
  }

  lemma LaneOf(p: nat) returns (q: nat, j: nat)
    requires p % 8 == 0
    ensures q == p - p % STRIPE && j == p % STRIPE / 8 && p == q + 8 * j && j < 4 && q == Whole(STRIPE, q)
  {
    q, j := p - p % STRIPE, p % STRIPE / 8;
    WholeStripes(q);
    var k := p / 8;
    assert p == 8 * k && p % STRIPE == 8 * (k % 4);
  }

  /** Inputs of the same length that differ in one double word of a stripe alone: their accumulators differ in one
      lane, and their hashes are equal exactly when the two uses of that lane cancel out. */
  lemma StripeChanged(a: seq<bv8>, b: seq<bv8>, p: nat, seed: bv64)
    requires p % 8 == 0 && DifferAt(a, b, p, 8) && p - p % STRIPE + STRIPE <= |a|
    ensures var u, v, j := Accumulated(a, seed), Accumulated(b, seed), p % STRIPE / 8;
      && OneLane(u, v, j)
      && (XXH64(a, seed) == XXH64(b, seed) <==> Crossed(u, j) == Crossed(v, j))
  {
    hide Accumulated, Merge, OneLane, Rest, Crossed, DifferAt, XXH64, Whole;
    InRange(a, b, p, 8);
    var q, j := LaneOf(p);
    LanesChanged(a, b, q, j, seed);
    MergeDiffers(Accumulated(a, seed), Accumulated(b, seed), j);
    SameMerged(a, b, seed);
  }

  lemma SameHead(a: seq<bv8>, b: seq<bv8>, m: nat, seed: bv64)
    requires |a| == |b| && m == |a| - |a| % STRIPE && a[..m] == b[..m]
    ensures Head(a, seed) == Head(b, seed) && Rest(STRIPE, a) == a[m..]
  {
    hide RoundAll, Merge, Consume, Short;
    WholeStripes(|a|);
    ConsumeWhole(RoundAll, STRIPE, Start(seed), a, b);
  }

  lemma Remainder8(q: nat, r: nat)
    ensures (8 * q + r) % 8 == r % 8
  {}

  lemma Remainder4(q: nat, r: nat)
    ensures (4 * q + r) % 4 == r % 4
  {}

  lemma Remainders(n: nat)
    ensures n % STRIPE % 8 == n % 8 && n % STRIPE % 4 == n % 4
  {
    var q, r := n / STRIPE, n % STRIPE;
    Remainder8(4 * q, r);
    Remainder4(8 * q, r);
  }

  lemma StartsAligned(n: nat, p: nat)
    requires p >= n - n % STRIPE && p % 8 == 0
    ensures (p - (n - n % STRIPE)) % 8 == 0
  {
    var q := n / STRIPE;
    Remainder8(4 * q, p - (n - n % STRIPE));
  }

  lemma StepBefore(n: nat, p: nat, k: nat)
    requires p >= n - n % STRIPE && OneStep(n, p, k)
    ensures OneStep(n % STRIPE, p - (n - n % STRIPE), k)
  {
    Remainders(n);
    if p % 8 == 0 {
      StartsAligned(n, p);
    }
  }

  /** Inputs of the same length that differ in one double word, word or byte of the tail alone never have the same
      hash. */
  lemma TailChanged(a: seq<bv8>, b: seq<bv8>, p: nat, n: nat, seed: bv64)
    requires p >= |a| - |a| % STRIPE && OneStep(|a|, p, n) && DifferAt(a, b, p, n)
    ensures XXH64(a, seed) != XXH64(b, seed)
  {
    hide Head, Tail, Avalanche, AddLength, Rest, DifferAt, OneStep;
    var m := |a| - |a| % STRIPE;
    InRange(a, b, p, n);
    DifferAfter(a, b, p, n, m);
    SameHead(a, b, m, seed);
    SameHead(b, a, m, seed);
    var k := AddLength(Head(a, seed), Low64(|a|));
    StepBefore(|a|, p, n);
    TailStep(k, a[m..], b[m..], p - m, n);
    if XXH64(a, seed) == XXH64(b, seed) {
      AvalancheSame(Tail(k, a[m..]), Tail(k, b[m..]));
    }
  }
}
