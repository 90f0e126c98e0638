/** XXH32 tells inputs apart that differ in one word of a stripe, or in one word or byte of the tail: every step is
    one-to-one in the accumulator and in what it takes in. */
module XxHash32Differs {
  import opened Stripes
  import opened XxHash32

  // ---------- what undoes a step ----------

  const INVERSE1: bv32 := 244002641
  const INVERSE2: bv32 := 3066638151
  const INVERSE3: bv32 := 2828982549
  const INVERSE4: bv32 := 2701016015
  const INVERSE5: bv32 := 2923004241

  /** The factors are odd: nothing is lost modulo 2^32. */
  lemma Literal1(x: bv32)
    ensures Times(Times(x, 2654435761), 244002641) == x
  {
    assert Times(x * 2654435761, 244002641) == x;
  }

  lemma Literal2(x: bv32)
    ensures Times(Times(x, 2246822519), 3066638151) == x
  {
    assert Times(x * 2246822519, 3066638151) == x;
  }

  lemma Literal3(x: bv32)
    ensures Times(Times(x, 3266489917), 2828982549) == x
  {
    assert Times(x * 3266489917, 2828982549) == x;
  }

  lemma Literal4(x: bv32)
    ensures Times(Times(x, 668265263), 2701016015) == x
  {
    assert Times(x * 668265263, 2701016015) == x;
  }

  lemma Literal5(x: bv32)
    ensures Times(Times(x, 374761393), 2923004241) == x
  {
    assert Times(x * 374761393, 2923004241) == x;
  }

  lemma Times1Back(x: bv32)
    ensures Times(Times(x, PRIME1), INVERSE1) == x
  {
    hide Times;
    assert PRIME1 == 2654435761 && INVERSE1 == 244002641;
    Literal1(x);
  }

  lemma Times2Back(x: bv32)
    ensures Times(Times(x, PRIME2), INVERSE2) == x
  {
    hide Times;
    assert PRIME2 == 2246822519 && INVERSE2 == 3066638151;
    Literal2(x);
  }

  lemma Times3Back(x: bv32)
    ensures Times(Times(x, PRIME3), INVERSE3) == x
  {
    hide Times;
    assert PRIME3 == 3266489917 && INVERSE3 == 2828982549;
    Literal3(x);
  }

  lemma Times4Back(x: bv32)
    ensures Times(Times(x, PRIME4), INVERSE4) == x
  {
    hide Times;
    assert PRIME4 == 668265263 && INVERSE4 == 2701016015;
    Literal4(x);
  }

  lemma Times5Back(x: bv32)
    ensures Times(Times(x, PRIME5), INVERSE5) == x
  {
    hide Times;
    assert PRIME5 == 374761393 && INVERSE5 == 2923004241;
    Literal5(x);
  }

  lemma Rotl1Back(x: bv32)
    ensures Rotl(Rotl(x, 1), 31) == x
  {}

  lemma Rotl7Back(x: bv32)
    ensures Rotl(Rotl(x, 7), 25) == x
  {}

  lemma Rotl11Back(x: bv32)
    ensures Rotl(Rotl(x, 11), 21) == x
  {}

  lemma Rotl12Back(x: bv32)
    ensures Rotl(Rotl(x, 12), 20) == x
  {}

  lemma Rotl13Back(x: bv32)
    ensures Rotl(Rotl(x, 13), 19) == x
  {}

  lemma Rotl17Back(x: bv32)
    ensures Rotl(Rotl(x, 17), 15) == x
  {}

  lemma Rotl18Back(x: bv32)
    ensures Rotl(Rotl(x, 18), 14) == x
  {}

  function Without(sum: bv32, part: bv32): bv32 { sum - part }

  lemma SumBack(x: bv32, y: bv32)
    ensures Without(Plus(x, y), x) == y && Without(Plus(x, y), y) == x
  {
    assert Without(x + y, x) == y && Without(x + y, y) == x;
  }

  function Unfold15(t: bv32): bv32 { t ^ (t >> 15) ^ (t >> 30) }

  function Unfold13(t: bv32): bv32 { t ^ (t >> 13) ^ (t >> 26) }

  function Unfold16(t: bv32): bv32 { t ^ (t >> 16) }

  lemma FoldBack15(x: bv32)
    ensures Unfold15(Fold15(x)) == x
  {
    assert Unfold15(x ^ (x >> 15)) == x;
  }

  lemma FoldBack13(x: bv32)
    ensures Unfold13(Fold13(x)) == x
  {
    assert Unfold13(x ^ (x >> 13)) == x;
  }

  lemma FoldBack16(x: bv32)
    ensures Unfold16(Fold16(x)) == x
  {
    assert Unfold16(x ^ (x >> 16)) == x;
  }

  function ByteOf(word: bv32, shift: nat): bv32
    requires shift < 32
  {
    (word >> shift) & 0xFF
  }

  lemma BytesOf(b: seq<bv8>)
    requires |b| == 4
    ensures ByteOf(Read32(b), 0) == b[0] as bv32 && ByteOf(Read32(b), 8) == b[1] as bv32
    ensures ByteOf(Read32(b), 16) == b[2] as bv32 && ByteOf(Read32(b), 24) == b[3] as bv32
  {}

  lemma Read32Same(a: seq<bv8>, b: seq<bv8>)
    requires |a| == |b| == 4
    ensures Read32(a) == Read32(b) <==> a == b
  {
    hide Read32, ByteOf;
    BytesOf(a);
    BytesOf(b);
  }

  // ---------- one step ----------

  lemma RoundBack(acc: bv32, x: bv32)
    ensures Rotl(Times(Round(acc, x), INVERSE1), 19) == Plus(acc, Times(x, PRIME2))
  {
    hide Times, Rotl, Plus;
    var sum := Plus(acc, Times(x, PRIME2));
    Times1Back(Rotl(sum, 13));
    Rotl13Back(sum);
  }

  /** A round is one-to-one in the accumulator and in the word. */
  lemma RoundSame(acc: bv32, x: bv32, acc': bv32, x': bv32)
    requires Round(acc, x) == Round(acc', x')
    ensures acc == acc' <==> x == x'
  {
    hide Times, Rotl, Plus, Round, Without;
    RoundBack(acc, x);
    RoundBack(acc', x');
    SumBack(acc, Times(x, PRIME2));
    SumBack(acc', Times(x', PRIME2));
    Times2Back(x);
    Times2Back(x');
  }

  lemma WordBack(h: bv32, b: seq<bv8>)
    requires |b| == 4
    ensures Rotl(Times(Process4(h, b), INVERSE4), 15) == Plus(h, Times(Read32(b), PRIME3))
  {
    hide Times, Rotl, Plus, Read32;
    var sum := Plus(h, Times(Read32(b), PRIME3));
    Times4Back(Rotl(sum, 17));
    Rotl17Back(sum);
  }

  lemma WordSame(h: bv32, b: seq<bv8>, h': bv32, b': seq<bv8>)
    requires |b| == |b'| == 4 && Process4(h, b) == Process4(h', b')
    ensures h == h' <==> b == b'
  {
    hide Times, Rotl, Plus, Read32, Process4, Without;
    WordBack(h, b);
    WordBack(h', b');
    SumBack(h, Times(Read32(b), PRIME3));
    SumBack(h', Times(Read32(b'), PRIME3));
    Times3Back(Read32(b));
    Times3Back(Read32(b'));
    Read32Same(b, b');
  }

  lemma ByteBack(h: bv32, b: bv8)
    ensures Rotl(Times(Process1(h, b), INVERSE1), 21) == Plus(h, Times(Wide(b), PRIME5))
  {
    hide Times, Rotl, Plus, Wide;
    var sum := Plus(h, Times(Wide(b), PRIME5));
    Times1Back(Rotl(sum, 11));
    Rotl11Back(sum);
  }

  lemma WideSame(b: bv8, b': bv8)
    ensures Wide(b) == Wide(b') <==> b == b'
  {}

  lemma ByteSame(h: bv32, b: bv8, h': bv32, b': bv8)
    requires Process1(h, b) == Process1(h', b')
    ensures h == h' <==> b == b'
  {
    hide Times, Rotl, Plus, Wide, Process1, Without;
    ByteBack(h, b);
    ByteBack(h', b');
    SumBack(h, Times(Wide(b), PRIME5));
    SumBack(h', Times(Wide(b'), PRIME5));
    Times5Back(Wide(b));
    Times5Back(Wide(b'));
    WideSame(b, b');
  }

  lemma AvalancheBack(h: bv32)
    ensures Unfold15(Times(Unfold13(Times(Unfold16(Avalanche(h)), INVERSE3)), INVERSE2)) == h
  {
    hide Times, Fold13, Fold15, Fold16, Unfold13, Unfold15, Unfold16;
    var h1 := Times(Fold15(h), PRIME2);
    var h2 := Times(Fold13(h1), PRIME3);
    FoldBack15(h);
    Times2Back(Fold15(h));
    FoldBack13(h1);
    Times3Back(Fold13(h1));
    FoldBack16(h2);
  }

  lemma AvalancheSame(g: bv32, h: bv32)
    requires Avalanche(g) == Avalanche(h)
    ensures g == h
  {
    hide Times, Avalanche, Unfold13, Unfold15, Unfold16;
    AvalancheBack(g);
    AvalancheBack(h);
  }

  // ---------- the lanes ----------

  lemma PlusSame(x: bv32, y: bv32, x': bv32, y': bv32)
    requires Plus(x, y) == Plus(x', y')
    ensures x == x' <==> y == y'
  {
    hide Plus, Without;
    SumBack(x, y);
    SumBack(x', y');
  }

  /** Accumulators that differ in lane j alone. */
  predicate OneLane(u: Lanes, v: Lanes, j: nat) {
    && (u.v1 != v.v1 <==> j == 0) && (u.v2 != v.v2 <==> j == 1)
    && (u.v3 != v.v3 <==> j == 2) && (u.v4 != v.v4 <==> j == 3)
  }

  lemma MergeDiffers(u: Lanes, v: Lanes, j: nat)
    requires j < 4 && OneLane(u, v, j)
    ensures Merge(u) != Merge(v)
  {
    hide Rotl, Plus;
    var a, b, c, d := Rotl(u.v1, 1), Rotl(u.v2, 7), Rotl(u.v3, 12), Rotl(u.v4, 18);
    var a', b', c', d' := Rotl(v.v1, 1), Rotl(v.v2, 7), Rotl(v.v3, 12), Rotl(v.v4, 18);
    if Merge(u) == Merge(v) {
      PlusSame(Plus(Plus(a, b), c), d, Plus(Plus(a', b'), c'), d');
      Rotl18Back(u.v4);
      Rotl18Back(v.v4);
      assert d == d';
      PlusSame(Plus(a, b), c, Plus(a', b'), c');
      Rotl12Back(u.v3);
      Rotl12Back(v.v3);
      assert c == c';
      PlusSame(a, b, a', b');
      Rotl7Back(u.v2);
      Rotl7Back(v.v2);
      Rotl1Back(u.v1);
      Rotl1Back(v.v1);
      assert false;
    }
  }

  lemma StripeKeeps(j: nat)
    requires j < 4
    ensures Keeps(RoundAll, STRIPE, (u: Lanes, v: Lanes) => OneLane(u, v, j))
  {
    hide Round, Read32;
    forall u: Lanes, v: Lanes, s: seq<bv8> | |s| == STRIPE && OneLane(u, v, j)
      ensures OneLane(RoundAll(u, s), RoundAll(v, s), j)
    {
      LaneKept(u.v1, v.v1, Read32(s[..4]));
      LaneKept(u.v2, v.v2, Read32(s[4..8]));
      LaneKept(u.v3, v.v3, Read32(s[8..12]));
      LaneKept(u.v4, v.v4, Read32(s[12..]));
    }
  }

  lemma LaneKept(x: bv32, y: bv32, word: bv32)
    ensures x == y <==> Round(x, word) == Round(y, word)
  {
    hide Round;
    if Round(x, word) == Round(y, word) {
      RoundSame(x, word, y, word);
    }
  }

  lemma WordKept(acc: bv32, a: seq<bv8>, b: seq<bv8>)
    requires |a| == |b| == 4
    ensures a == b <==> Round(acc, Read32(a)) == Round(acc, Read32(b))
  {
    hide Round, Read32;
    Read32Same(a, b);
    if Round(acc, Read32(a)) == Round(acc, Read32(b)) {
      RoundSame(acc, Read32(a), acc, Read32(b));
    }
  }

  /** Lane j takes in the bytes 4 * j to 4 * j + 4 of a stripe and no others. */
  lemma StripeSplits(s: seq<bv8>, t: seq<bv8>, j: nat)
    requires j < 4 && |s| == STRIPE && DifferAt(s, t, 4 * j, 4)
    ensures Splits(RoundAll, (u: Lanes, v: Lanes) => OneLane(u, v, j), s, t)
  {
    hide Round, Read32, DifferAt;
    assert |t| == STRIPE by { InRange(s, t, 4 * j, 4); }
    PartDiffers(s, t, 4 * j, 4, 0);
    PartDiffers(s, t, 4 * j, 4, 4);
    PartDiffers(s, t, 4 * j, 4, 8);
    PartDiffers(s, t, 4 * j, 4, 12);
    assert s[0..4] == s[..4] && t[0..4] == t[..4] && s[12..16] == s[12..] && t[12..16] == t[12..];
    forall x: Lanes ensures OneLane(RoundAll(x, s), RoundAll(x, t), j) {
      WordKept(x.v1, s[..4], t[..4]);
      WordKept(x.v2, s[4..8], t[4..8]);
      WordKept(x.v3, s[8..12], t[8..12]);
      WordKept(x.v4, s[12..], t[12..]);
    }
  }

  // ---------- the tail ----------

  lemma {:induction false} TailDiffers(g: bv32, h: bv32, s: seq<bv8>)
    requires g != h
    ensures Tail(g, s) != Tail(h, s)
    decreases |s|
  {
    hide Process4, Process1;
    if |s| >= 4 {
      if Process4(g, s[..4]) == Process4(h, s[..4]) {
        WordSame(g, s[..4], h, s[..4]);
      }
      TailDiffers(Process4(g, s[..4]), Process4(h, s[..4]), s[4..]);
    } else if |s| > 0 {
      if Process1(g, s[0]) == Process1(h, s[0]) {
        ByteSame(g, s[0], h, s[0]);
      }
      TailDiffers(Process1(g, s[0]), Process1(h, s[0]), s[1..]);
    }
  }

  lemma {:induction false} TailWord(h: bv32, a: seq<bv8>, b: seq<bv8>, p: nat)
    requires p % 4 == 0 && DifferAt(a, b, p, 4)
    ensures Tail(h, a) != Tail(h, b)
    decreases |a|
  {
    hide Process4, Process1;
    if p == 0 {
      assert a[0..0 + 4] == a[..4] && b[0..0 + 4] == b[..4];
      if Process4(h, a[..4]) == Process4(h, b[..4]) {
        WordSame(h, a[..4], h, b[..4]);
      }
      TailDiffers(Process4(h, a[..4]), Process4(h, b[..4]), a[4..]);
    } else {
      DifferAfter(a, b, p, 4, 4);
      TailWord(Process4(h, a[..4]), a[4..], b[4..], p - 4);
    }
  }

  lemma {:induction false} TailByte(h: bv32, a: seq<bv8>, b: seq<bv8>, p: nat)
    requires p >= |a| - |a| % 4 && DifferAt(a, b, p, 1)
    ensures Tail(h, a) != Tail(h, b)
    decreases |a|
  {
    hide Process4, Process1, DifferAt;
    InRange(a, b, p, 1);
    if |a| >= 4 {
      DifferAfter(a, b, p, 1, 4);
      TailByte(Process4(h, a[..4]), a[4..], b[4..], p - 4);
    } else if p == 0 {
      FirstByte(a, b);
      if Process1(h, a[0]) == Process1(h, b[0]) {
        ByteSame(h, a[0], h, b[0]);
      }
      TailDiffers(Process1(h, a[0]), Process1(h, b[0]), a[1..]);
    } else {
      DifferAfter(a, b, p, 1, 1);
      assert a[0] == a[..1][0] && b[0] == b[..1][0];
      TailByte(Process1(h, a[0]), a[1..], b[1..], p - 1);
    }
  }

  lemma FirstByte(a: seq<bv8>, b: seq<bv8>)
    requires DifferAt(a, b, 0, 1)
    ensures a[0] != b[0] && a[1..] == b[1..]
  {
    assert a[0..0 + 1] == [a[0]] && b[0..0 + 1] == [b[0]];
  }

  // ---------- the hash ----------

  lemma FinishDiffers(g: bv32, h: bv32, len: bv32, tail: seq<bv8>)
    requires g != h
    ensures Avalanche(Tail(AddLength(g, len), tail)) != Avalanche(Tail(AddLength(h, len), tail))
  {
    hide Avalanche, Tail, Plus;
    if AddLength(g, len) == AddLength(h, len) {
      PlusSame(g, len, h, len);
    }
    TailDiffers(AddLength(g, len), AddLength(h, len), tail);
    if Avalanche(Tail(AddLength(g, len), tail)) == Avalanche(Tail(AddLength(h, len), tail)) {
      AvalancheSame(Tail(AddLength(g, len), tail), Tail(AddLength(h, len), tail));
    }
  }

  /** The accumulators after all stripes. */
  function Accumulated(data: seq<bv8>, seed: bv32): Lanes { Consume(RoundAll, STRIPE, Start(seed), data) }

  lemma LanesChanged(a: seq<bv8>, b: seq<bv8>, q: nat, j: nat, seed: bv32)
    requires j < 4 && q == Whole(STRIPE, q) && q + STRIPE <= |a| && DifferAt(a, b, q + 4 * j, 4)
    ensures OneLane(Accumulated(a, seed), Accumulated(b, seed), j) && Rest(STRIPE, a) == Rest(STRIPE, b)
  {
    hide RoundAll, OneLane, Consume, Rest, Whole, Start, DifferAt;
    InRange(a, b, q + 4 * j, 4);
    var r := (u: Lanes, v: Lanes) => OneLane(u, v, j);
    DifferIn(a, b, q + 4 * j, 4, q, q + STRIPE);
    StripeKeeps(j);
    StripeSplits(a[q..q + STRIPE], b[q..q + STRIPE], j);
    ConsumeOneStripe(RoundAll, STRIPE, r, Start(seed), a, b, q);
    assert r(Accumulated(a, seed), Accumulated(b, seed));
  }

  lemma {:induction false} WholeStripes(n: nat)
    ensures Whole(STRIPE, n) == n - n % STRIPE
  {
    if n >= STRIPE {
      WholeStripes(n - STRIPE);
    }
  }

  lemma MergedDiffers(a: seq<bv8>, b: seq<bv8>, seed: bv32)
    requires |a| == |b| >= STRIPE && Rest(STRIPE, a) == Rest(STRIPE, b)
    requires Merge(Accumulated(a, seed)) != Merge(Accumulated(b, seed))
    ensures XXH32(a, seed) != XXH32(b, seed)
  {
    hide Merge, Tail, Avalanche, AddLength, Consume, Rest;
    FinishDiffers(Merge(Accumulated(a, seed)), Merge(Accumulated(b, seed)), Low32(|a|), Rest(STRIPE, a));
  }

  lemma LaneOf(p: nat) returns (q: nat, j: nat)
    requires p % 4 == 0
    ensures q == p - p % STRIPE && p == q + 4 * j && j < 4 && q == Whole(STRIPE, q)
  {
    q, j := p - p % STRIPE, p % STRIPE / 4;
    WholeStripes(q);
    var k := p / 4;
    assert p == 4 * k && p % STRIPE == 4 * (k % 4);
  }

  /** A word of a stripe goes into one lane, and the merge is one-to-one in each lane. */
  lemma StripeChanged(a: seq<bv8>, b: seq<bv8>, p: nat, seed: bv32)
    requires p % 4 == 0 && DifferAt(a, b, p, 4) && p - p % STRIPE + STRIPE <= |a|
    ensures XXH32(a, seed) != XXH32(b, seed)
  {
    hide Accumulated, Merge, OneLane, Rest, DifferAt, XXH32, Whole;
    InRange(a, b, p, 4);
    var q, j := LaneOf(p);
    LanesChanged(a, b, q, j, seed);
    MergeDiffers(Accumulated(a, seed), Accumulated(b, seed), j);
    MergedDiffers(a, b, seed);
  }

  lemma SameHead(a: seq<bv8>, b: seq<bv8>, m: nat, seed: bv32)
    requires |a| == |b| && m == |a| - |a| % STRIPE && a[..m] == b[..m]
    ensures Head(a, seed) == Head(b, seed) && Rest(STRIPE, a) == a[m..]
  {
    hide RoundAll, Merge, Consume, Short;
    WholeStripes(|a|);
    ConsumeWhole(RoundAll, STRIPE, Start(seed), a, b);
  }

  lemma TailChanged(a: seq<bv8>, b: seq<bv8>, p: nat, n: nat, seed: bv32)
    requires DifferAt(a, b, p, n) && p >= |a| - |a| % STRIPE
    requires (n == 4 && p % 4 == 0) || (n == 1 && p >= |a| - |a| % 4)
    ensures XXH32(a, seed) != XXH32(b, seed)
  {
    hide Head, Tail, Avalanche, AddLength, Rest, DifferAt;
    var m := |a| - |a| % STRIPE;
    InRange(a, b, p, n);
    DifferAfter(a, b, p, n, m);
    SameHead(a, b, m, seed);
    SameHead(b, a, m, seed);
    var k := AddLength(Head(a, seed), Low32(|a|));
    WordsBefore(|a|, p);
    AnyTail(k, a[m..], b[m..], p - m, n);
    if XXH32(a, seed) == XXH32(b, seed) {
      AvalancheSame(Tail(k, a[m..]), Tail(k, b[m..]));
    }
  }

  lemma WordsBefore(n: nat, p: nat)
    requires p >= n - n % STRIPE
    ensures var m := n - n % STRIPE;
      (p % 4 == 0 ==> (p - m) % 4 == 0) && (p >= n - n % 4 ==> p - m >= n - m - (n - m) % 4)
  {
    var q, r := n / STRIPE, n % STRIPE;
    assert n == 4 * (4 * q) + r;
    assert n % 4 == r % 4;
    assert p - 4 * (4 * q) == p - (n - r);
  }

  lemma AnyTail(h: bv32, a: seq<bv8>, b: seq<bv8>, p: nat, n: nat)
    requires DifferAt(a, b, p, n)
    requires (n == 4 && p % 4 == 0) || (n == 1 && p >= |a| - |a| % 4)
    ensures Tail(h, a) != Tail(h, b)
  {
    hide Tail, DifferAt;
    if n == 4 {
      TailWord(h, a, b, p);
    } else {
      TailByte(h, a, b, p);
    }
  }

  /** Inputs of the same length that differ in one aligned word alone never have the same hash. */
  lemma WordChanged(a: seq<bv8>, b: seq<bv8>, p: nat, seed: bv32)
    requires p % 4 == 0 && DifferAt(a, b, p, 4)
    ensures XXH32(a, seed) != XXH32(b, seed)
  {
    hide XXH32;
    if p - p % STRIPE + STRIPE <= |a| {
      StripeChanged(a, b, p, seed);
    } else {
      TailChanged(a, b, p, 4, seed);
    }
  }

  /** Nor do inputs that differ in one of the bytes after the last word. */
  lemma ByteChanged(a: seq<bv8>, b: seq<bv8>, p: nat, seed: bv32)
    requires p >= |a| - |a| % 4 && DifferAt(a, b, p, 1)
    ensures XXH32(a, seed) != XXH32(b, seed)
  {
    hide XXH32;
    TailChanged(a, b, p, 1, seed);
  }
}
