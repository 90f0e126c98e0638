/** What the rounds of XXH3 take in: the hash of 17 to 128 bytes adds up one product for each of its windows, the
    windows cover the input, and a change in one window alone changes the hash exactly when it changes that product. */
module Xxh3Windows {
  import opened Stripes
  import opened Xxh3
  import opened Xxh3Multiply
  import LittleEndian
  import XxHash64
  import XxHash64Differs

  const WINDOW := 16

  /** How many windows an input has: two a round. */
  function Windows(len: nat): nat { 2 * ((len + 31) / 32) }

  /** Where window m starts: the even ones one after another from the start, the odd ones from the end. */
  function WindowAt(len: nat, m: nat): int { if m % 2 == 0 then 8 * m else len - 8 * (m + 1) }

  lemma WindowInside(len: nat, m: nat)
    requires 17 <= len <= 128 && m < Windows(len)
    ensures 0 <= WindowAt(len, m) && WindowAt(len, m) + WINDOW <= len && m < 8
  {
    var i := m / 2;
    assert m == 2 * i || m == 2 * i + 1;
    assert 32 * i < len;
  }

  /** Every byte is in some window. */
  lemma EveryByteMixed(len: nat, k: nat) returns (m: nat)
    requires 17 <= len <= 128 && k < len
    ensures m < Windows(len) && WindowAt(len, m) <= k < WindowAt(len, m) + WINDOW
  {
    if 32 * (k / 16) < len {
      m := 2 * (k / 16);
    } else {
      m := 2 * ((len - 1 - k) / 16) + 1;
    }
  }

  /** The product of window m. */
  function Product(data: seq<bv8>, m: nat): U64
    requires 17 <= |data| <= 128 && m < Windows(|data|)
  {
    WindowInside(|data|, m);
    var at := WindowAt(|data|, m);
    Mix16(data[at..at + WINDOW], m)
  }

  function Products(data: seq<bv8>, n: nat): nat
    requires 17 <= |data| <= 128 && n <= Windows(|data|)
  {
    if n == 0 then 0 else Products(data, n - 1) + Product(data, n - 1)
  }

  lemma SumOnce(acc: nat, p: nat, q: nat, more: nat)
    ensures (((acc + p) % TWO64 + q) % TWO64 + more) % TWO64 == (acc + p + q + more) % TWO64
  {
    SumTwice(acc + p, q);
    SumTwice((acc + p) + q, more);
    SumTwice((acc + p) % TWO64 + q, more);
  }

  lemma SumTwice(x: nat, y: nat)
    ensures (x % TWO64 + y) % TWO64 == (x + y) % TWO64
  {}

  lemma OneRound(acc: U64, data: seq<bv8>, i: nat)
    requires 17 <= |data| <= 128 && 2 * i + 1 < Windows(|data|)
    ensures MixRound(acc, data, i) == ((acc + Product(data, 2 * i)) % TWO64 + Product(data, 2 * i + 1)) % TWO64
  {
    hide Mix16;
    WindowInside(|data|, 2 * i);
    WindowInside(|data|, 2 * i + 1);
    var len := |data|;
    assert data[16 * i..16 * i + 16] == data[WindowAt(len, 2 * i)..WindowAt(len, 2 * i) + WINDOW];
    assert data[len - 16 * (i + 1)..len - 16 * i]
      == data[WindowAt(len, 2 * i + 1)..WindowAt(len, 2 * i + 1) + WINDOW];
  }

  /** The rounds add up the products of the windows, modulo 2^64. */
  lemma {:induction false} RoundsAdd(acc: U64, data: seq<bv8>, n: nat)
    requires 17 <= |data| <= 128 && 2 * n <= Windows(|data|)
    ensures MixRounds(acc, data, n) == (acc + Products(data, 2 * n)) % TWO64
    decreases n
  {
    hide MixRound, Product, Windows;
    if n > 0 {
      var next := MixRound(acc, data, n - 1);
      OneRound(acc, data, n - 1);
      RoundsAdd(next, data, n - 1);
      var p, q := Product(data, 2 * n - 2), Product(data, 2 * n - 1);
      var more := Products(data, 2 * n - 2);
      SumOnce(acc, p, q, more);
      assert Products(data, 2 * n) == Products(data, 2 * n - 1) + q == more + p + q;
      assert MixRounds(acc, data, n) == MixRounds(next, data, n - 1);
    }
  }

  // ---------- the end of the hash is one-to-one ----------

  lemma NotMore(n: U64)
    ensures Number64(XxHash64.Word64(n)) <= n
  {}

  lemma NotLess(n: U64)
    ensures Number64(XxHash64.Word64(n)) >= n
  {}

  lemma NumberWord(n: U64)
    ensures Number64(XxHash64.Word64(n)) == n
  {
    hide Number64, XxHash64.Word64;
    NotMore(n);
    NotLess(n);
  }

  lemma FinishBack(n: U64)
    ensures XxHash64Differs.Unfold29(XxHash64.Times(XxHash64Differs.Unfold32(Finish(n)), XxHash64Differs.INVERSE3))
      == XxHash64.Word64(n)
  {
    hide XxHash64.Times, XxHash64.Fold29, XxHash64.Fold32, XxHash64Differs.Unfold29, XxHash64Differs.Unfold32;
    var h := XxHash64.Fold29(XxHash64.Word64(n));
    XxHash64Differs.FoldBack29(XxHash64.Word64(n));
    XxHash64Differs.Times3Back(h);
    XxHash64Differs.FoldBack32(XxHash64.Times(h, XxHash64.PRIME3));
  }

  lemma FinishSame(m: U64, n: U64)
    ensures Finish(m) == Finish(n) <==> m == n
  {
    hide Finish, XxHash64.Times, XxHash64Differs.Unfold29, XxHash64Differs.Unfold32, XxHash64.Word64, Number64;
    FinishBack(m);
    FinishBack(n);
    NumberWord(m);
    NumberWord(n);
  }

  // ---------- one changed window ----------

  /** The bytes p to p + n are in window w and in no other window. */
  predicate InWindow(len: nat, p: nat, n: nat, w: nat) {
    && w < Windows(len) && WindowAt(len, w) <= p && p + n <= WindowAt(len, w) + WINDOW
    && forall m: nat | m < Windows(len) && m != w :: WindowAt(len, m) + WINDOW <= p || p + n <= WindowAt(len, m)
  }

  lemma ProductKept(a: seq<bv8>, b: seq<bv8>, p: nat, n: nat, w: nat, m: nat)
    requires 17 <= |a| <= 128 && DifferAt(a, b, p, n) && InWindow(|a|, p, n, w)
    requires m < Windows(|a|) && m != w
    ensures |b| == |a| && Product(a, m) == Product(b, m)
  {
    hide Mix16, DifferAt, Windows;
    InRange(a, b, p, n);
    WindowInside(|a|, m);
    PartKept(a, b, p, n, WindowAt(|a|, m), WINDOW);
  }

  lemma {:induction false} ProductsChanged(a: seq<bv8>, b: seq<bv8>, p: nat, n: nat, w: nat, k: nat)
    requires 17 <= |a| <= 128 && DifferAt(a, b, p, n) && InWindow(|a|, p, n, w) && k <= Windows(|a|)
    ensures |b| == |a|
    ensures Products(a, k) - Products(b, k) == if w < k then Product(a, w) - Product(b, w) else 0
    decreases k
  {
    hide Product, DifferAt, InWindow;
    InRange(a, b, p, n);
    if k > 0 {
      ProductsChanged(a, b, p, n, w, k - 1);
      if k - 1 != w {
        ProductKept(a, b, p, n, w, k - 1);
      }
    }
  }

  lemma SumSame(x: nat, p: U64, q: U64)
    requires (x + p) % TWO64 == (x + q) % TWO64
    ensures p == q
  {}

  /** Inputs that differ inside one window alone have the same hash exactly when the product of that window is the
      same. */
  lemma WindowChanged(long: (seq<bv8>, U64) -> bv64, a: seq<bv8>, b: seq<bv8>, p: nat, n: nat, w: nat, seed: U64)
    requires 17 <= |a| <= 128 && DifferAt(a, b, p, n) && InWindow(|a|, p, n, w)
    ensures |b| == |a| && w < Windows(|a|)
    ensures XXH3(long, a, seed) == XXH3(long, b, seed) <==> Product(a, w) == Product(b, w)
  {
    hide Finish, MixRounds, Start, Product, DifferAt;
    InRange(a, b, p, n);
    var len := |a|;
    var rounds := (len + 31) / 32;
    ProductsChanged(a, b, p, n, w, Windows(len));
    RoundsAdd(Start(len, seed), a, rounds);
    RoundsAdd(Start(len, seed), b, rounds);
    FinishSame(MixRounds(Start(len, seed), a, rounds), MixRounds(Start(len, seed), b, rounds));
    var x := Start(len, seed) + Products(a, Windows(len)) - Product(a, w);
    OneOfAll(a, w, Windows(len));
    if MixRounds(Start(len, seed), a, rounds) == MixRounds(Start(len, seed), b, rounds) {
      SumSame(x, Product(a, w), Product(b, w));
    }
  }

  lemma {:induction false} OneOfAll(data: seq<bv8>, w: nat, k: nat)
    requires 17 <= |data| <= 128 && w < k <= Windows(|data|)
    ensures Products(data, k) >= Product(data, w)
    decreases k
  {
    hide Product;
    if w < k - 1 {
      OneOfAll(data, w, k - 1);
    }
  }

  // ---------- a factor of 0 ----------

  lemma XorSelf(k: U64)
    ensures Xor(k, k) == 0
  {
    assert XxHash64.Word64(k) ^ XxHash64.Word64(k) == 0;
  }

  lemma ZeroFactor(x: U64)
    ensures Folded(x, 0) == 0 && Folded(0, x) == 0
  {}

  /** A window whose second half is its part of the key has the product 0, whatever the first half is. */
  lemma FirstHalfLost(b: seq<bv8>, m: nat)
    requires |b| == WINDOW && m < 12 && Read64(b[8..]) == Key64(2 * m + 1)
    ensures Mix16(b, m) == 0
  {
    hide Folded, Xor, Read64, Key64;
    XorSelf(Key64(2 * m + 1));
    ZeroFactor(Xor(Read64(b[..8]), Key64(2 * m)));
  }

  /** And the other way round. */
  lemma SecondHalfLost(b: seq<bv8>, m: nat)
    requires |b| == WINDOW && m < 12 && Read64(b[..8]) == Key64(2 * m)
    ensures Mix16(b, m) == 0
  {
    hide Folded, Xor, Read64, Key64;
    XorSelf(Key64(2 * m));
    ZeroFactor(Xor(Read64(b[8..]), Key64(2 * m + 1)));
  }

  /** So a change of the first half of such a window is not seen at all, whatever the seed. */
  lemma FirstHalfIgnored(long: (seq<bv8>, U64) -> bv64, a: seq<bv8>, b: seq<bv8>, w: nat, seed: U64)
    requires 17 <= |a| <= 128 && w < Windows(|a|)
    requires var at := WindowAt(|a|, w);
      0 <= at && at + WINDOW <= |a| && InWindow(|a|, at, 8, w) && DifferAt(a, b, at, 8)
      && Read64(a[at + 8..at + WINDOW]) == Key64(2 * w + 1)
    ensures XXH3(long, a, seed) == XXH3(long, b, seed)
  {
    hide XXH3, Mix16, Read64, Key64, InWindow, DifferAt;
    WindowInside(|a|, w);
    var at := WindowAt(|a|, w);
    InRange(a, b, at, 8);
    WindowChanged(long, a, b, at, 8, w, seed);
    PartKept(a, b, at, 8, at + 8, 8);
    assert a[at..at + WINDOW][8..] == a[at + 8..at + WINDOW];
    assert b[at..at + WINDOW][8..] == b[at + 8..at + WINDOW];
    FirstHalfLost(a[at..at + WINDOW], w);
    FirstHalfLost(b[at..at + WINDOW], w);
  }

  /** In 32 bytes with the second double word of the key in the middle, the eight bytes before it do not count. */
  lemma Ignored(long: (seq<bv8>, U64) -> bv64, x: seq<bv8>, y: seq<bv8>, rest: seq<bv8>, seed: U64)
    requires |x| == |y| == 8 && |rest| == 16
    ensures var key := LittleEndian.Bytes64(Key64(1));
      XXH3(long, x + key + rest, seed) == XXH3(long, y + key + rest, seed)
  {
    hide XXH3, LittleEndian.Bytes64, Key64, Read64;
    var key := LittleEndian.Bytes64(Key64(1));
    LittleEndian.Word64Bytes(Key64(1));
    var a, b := x + key + rest, y + key + rest;
    if x != y {
      assert a[0..0 + 8] == x && b[0..0 + 8] == y && a[0 + 8..] == key + rest == b[0 + 8..];
      assert a[8..16] == key;
      KeyRead();
      OnlyFirst();
      FirstHalfIgnored(long, a, b, 0, seed);
    }
  }

  lemma KeyRead()
    ensures Read64(LittleEndian.Bytes64(Key64(1))) == Key64(1)
  {
    hide Key64, LittleEndian.Bytes64, LittleEndian.Word64;
    LittleEndian.Word64Bytes(Key64(1));
  }

  lemma OnlyFirst()
    ensures WindowAt(32, 0) == 0 && InWindow(32, 0, 8, 0)
  {}
}
