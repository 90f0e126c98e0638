/** XXH3_mul128: the folded product of two 64-bit numbers, exact, with four 32-bit products and carries, and
    with the multiply-accumulate steps of 32-bit ARM. */
module Xxh3Multiply {

  const TWO32: nat := 0x1_0000_0000
  const TWO64: nat := 0x1_0000_0000_0000_0000

  type U32 = n: nat | n < TWO32
  type U64 = n: nat | n < TWO64

  /** The low half plus the high half of the 128-bit product. */
  function Folded(a: U64, b: U64): U64 {
    (a * b % TWO64 + a * b / TWO64) % TWO64
  }

  lemma ProductBound(a: nat, b: nat, m: nat, n: nat)
    requires a <= m && b <= n
    ensures a * b <= m * n
  {}

  lemma Product32(a: U32, b: U32)
    ensures a * b <= (TWO32 - 1) * (TWO32 - 1)
  {
    ProductBound(a, b, TWO32 - 1, TWO32 - 1);
  }

  /** The product by halves. */
  lemma Halves(a: U64, b: U64, h1: U32, l1: U32, h2: U32, l2: U32)
    requires a == h1 * TWO32 + l1 && b == h2 * TWO32 + l2
    ensures a * b == h1 * h2 * TWO64 + (l1 * h2 + h1 * l2) * TWO32 + l1 * l2
  {}

  /** Both halves of a number, from any way to write it. */
  lemma TwoHalves(n: nat, high: nat, low: U64)
    requires n == high * TWO64 + low
    ensures n % TWO64 == low && n / TWO64 == high
  {}

  /** The sum of a shifted number and its carry out of 64 bits. */
  lemma Carried(x: U64, m: U64, t: U64, carry: nat)
    requires t == (x + m % TWO32 * TWO32) % TWO64 && carry == if t < x then 1 else 0
    ensures x + m * TWO32 == t + (m / TWO32 + carry) * TWO64
  {}

  /** The portable version; no intermediate product or sum exceeds 64 bits, except where the carries say
      so. */
  method Portable(ll1: U64, ll2: U64) returns (r: U64)
    ensures r == Folded(ll1, ll2)
  {
    var h1: U32, h2: U32 := ll1 / TWO32, ll2 / TWO32;
    var l1: U32, l2: U32 := ll1 % TWO32, ll2 % TWO32;
    Product32(h1, h2);
    Product32(l1, h2);
    Product32(h1, l2);
    Product32(l1, l2);
    var llh: U64 := h1 * h2;
    var llm1: U64 := l1 * h2;
    var llm2: U64 := h1 * l2;
    var lll: U64 := l1 * l2;
    var t: U64 := (lll + llm1 % TWO32 * TWO32) % TWO64;
    var carry1 := if t < lll then 1 else 0;
    var lllow: U64 := (t + llm2 % TWO32 * TWO32) % TWO64;
    var carry2 := if lllow < t then 1 else 0;
    var llhigh: nat := llh + llm1 / TWO32 + llm2 / TWO32 + carry1 + carry2;
    Carried(lll, llm1, t, carry1);
    Carried(t, llm2, lllow, carry2);
    Halves(ll1, ll2, h1, l1, h2, l2);
    TwoHalves(ll1 * ll2, llhigh, lllow);
    HighHalf(ll1, ll2);
    assert llhigh < TWO64;
    r := (llhigh + lllow) % TWO64;
  }

  /** The high half fits 64 bits. */
  lemma HighHalf(a: U64, b: U64)
    ensures a * b / TWO64 < TWO64
  {
    ProductBound(a, b, TWO64 - 1, TWO64 - 1);
  }

  /** umaal: a product and two summands still fit 64 bits. */
  method MultiplyAccumulate(low: U32, high: U32, n: U32, m: U32) returns (low1: U32, high1: U32)
    ensures low1 + high1 * TWO32 == n * m + low + high
  {
    Product32(n, m);
    var sum: U64 := n * m + low + high;
    low1, high1 := sum % TWO32, sum / TWO32;
  }

  /** The version for 32-bit ARM. */
  method Accumulated(ll1: U64, ll2: U64) returns (r: U64)
    ensures r == Folded(ll1, ll2)
  {
    var u0: U32, u1: U32 := ll1 / TWO32, ll1 % TWO32;
    var v0: U32, v1: U32 := ll2 / TWO32, ll2 % TWO32;
    var w0: U32, w1: U32, w2: U32, w3: U32, k: U32 := 0, 0, 0, 0, 0;
    w3, k := MultiplyAccumulate(0, 0, u1, v1);
    w2, k := MultiplyAccumulate(w2, k, u0, v1);
    w1 := k;
    k := 0;
    w2, k := MultiplyAccumulate(w2, k, u1, v0);
    w1, k := MultiplyAccumulate(w1, k, u0, v0);
    w0 := k;
    Halves(ll1, ll2, u0, u1, v0, v1);
    TwoHalves(ll1 * ll2, w0 * TWO32 + w1, w2 * TWO32 + w3);
    r := (w1 + w0 * TWO32 + (w3 + w2 * TWO32)) % TWO64;
  }
}
