/** Choosing the extent for a payload: the smallest free one that holds it, or new blocks at the end. */
module ArchiveAllocation {
  import opened ArchiveFormat
  import opened ArchiveLayout
  import opened LittleEndian

  predicate Holds(e: Entry, bpb: u32, need: nat) {
    e.numBlocks < NO_BLOCKS && Product(e.numBlocks, bpb) >= need
  }

  /** The first of the smallest free extents that hold need bytes. */
  predicate BestFit(entries: seq<Entry>, bpb: u32, need: nat, i: nat) {
    && i < |entries| && Holds(entries[i], bpb, need)
    && (forall k | 0 <= k < |entries| && Holds(entries[k], bpb, need) :: entries[i].numBlocks <= entries[k].numBlocks)
    && (forall k | 0 <= k < i && Holds(entries[k], bpb, need) :: entries[i].numBlocks < entries[k].numBlocks)
  }

  predicate NoFit(entries: seq<Entry>, bpb: u32, need: nat) {
    forall k | 0 <= k < |entries| :: !Holds(entries[k], bpb, need)
  }

  /** The loop shared by Write and WriteRawData; blocks stays at its initial value when nothing fits. */
  method FindFit(entries: seq<Entry>, bpb: u32, need: nat) returns (idx: nat, blocks: u32)
    ensures blocks == NO_BLOCKS ==> idx == |entries| && NoFit(entries, bpb, need)
    ensures blocks != NO_BLOCKS ==> BestFit(entries, bpb, need, idx) && blocks == entries[idx].numBlocks
  {
    hide Product;
    blocks, idx := NO_BLOCKS, |entries|;
    for it := 0 to |entries|
      invariant blocks == NO_BLOCKS ==> idx == |entries| && NoFit(entries[..it], bpb, need)
      invariant blocks != NO_BLOCKS ==> BestFit(entries[..it], bpb, need, idx) && blocks == entries[idx].numBlocks
    {
      if entries[it].numBlocks < blocks && Product(entries[it].numBlocks, bpb) >= need {
        blocks, idx := entries[it].numBlocks, it;
      }
    }
    assert entries[..|entries|] == entries;
  }

  // ---------- new blocks ----------

  /** The ALIGNTO macro, which always adds, a whole block when x is aligned already. */
  function Align(x: nat, a: nat): nat
    requires a > 0
  {
    x + (a - x % a)
  }

  lemma AlignBlocks(x: nat, a: nat)
    requires a > 0
    ensures x / a + 1 > 0 && Align(x, a) == (x / a + 1) * a && Align(x, a) / a == x / a + 1
    ensures x < Align(x, a) <= x + a
  {
    var q := x / a;
    assert x == a * q + x % a;
    assert Align(x, a) == a * q + a == (q + 1) * a;
    MultipleDivided(q + 1, a);
  }

  lemma MultipleDivided(q: nat, a: nat)
    requires a > 0
    ensures q * a / a == q
  {
    var n := q * a;
    var d, r := n / a, n % a;
    assert n == a * d + r;
    Distance(a, q, d, r);
  }

  lemma Distance(a: nat, q: nat, d: nat, r: nat)
    requires r < a && q * a == a * d + r
    ensures q == d
  {
    if q > d {
      AtLeast(a, q - d);
    } else if q < d {
      AtLeast(a, d - q);
    }
  }

  lemma AtLeast(a: nat, k: nat)
    requires k >= 1
    ensures a * k >= a
  {}

  /** The number of blocks of a new extent for size bytes of payload, as a 32-bit integer. */
  function NewBlocks(size: nat, bpb: u32): u32
    requires bpb > 0
  {
    Align(size + ENTRY_SIZE, bpb) / bpb % TWO32
  }

  /** Where the size of a new extent does not wrap around. */
  predicate Roomy(size: nat, bpb: u32)
    requires bpb > 0
  {
    Align(size + ENTRY_SIZE, bpb) < TWO32
  }

  lemma ModProduct(n: nat, a: nat)
    ensures n % TWO32 * a % TWO32 == n * a % TWO32
  {
    var q := n / TWO32;
    assert n == TWO32 * q + n % TWO32;
    assert n * a == TWO32 * (q * a) + n % TWO32 * a;
    ModShift(n % TWO32 * a, q * a);
  }

  lemma ModShift(x: nat, k: nat)
    ensures (TWO32 * k + x) % TWO32 == x % TWO32
  {}

  /** The bytes allocated at the end hold entry and payload exactly when the aligned size is below 2^32;
      otherwise the product of two 32-bit integers wraps around. */
  lemma NewExtent(size: u32, bpb: u32)
    requires bpb > 0
    ensures Product(NewBlocks(size, bpb), bpb) >= size + ENTRY_SIZE <==> Roomy(size, bpb)
    ensures Roomy(size, bpb) ==> NewBlocks(size, bpb) * bpb == Product(NewBlocks(size, bpb), bpb) == Align(size + ENTRY_SIZE, bpb)
  {
    hide Align;
    var x := size + ENTRY_SIZE;
    AlignBlocks(x, bpb);
    var blocks := x / bpb + 1;
    ModProduct(blocks, bpb);
    var n := Align(x, bpb);
    assert Product(NewBlocks(size, bpb), bpb) == n % TWO32;
    if n < TWO32 {
      assert blocks <= n by { FactorBound(blocks, bpb); }
    } else {
      assert n - TWO32 < x < TWO32 + TWO32;
      assert n < TWO32 + x;
      WrappedBelow(n, x);
    }
  }

  lemma FactorBound(q: nat, a: nat)
    requires a > 0
    ensures q <= q * a
  {}

  lemma WrappedBelow(n: nat, x: nat)
    requires TWO32 <= n < TWO32 + x && x < TWO32 + ENTRY_SIZE
    ensures n % TWO32 < x
  {}

  /** A payload that fits the extent it had before never makes the file grow: that extent is free again
      when the new one is chosen. */
  lemma RewriteFits(entries: seq<Entry>, freed: Entry, bpb: u32, need: nat)
    requires Product(freed.numBlocks, bpb) >= need && freed.numBlocks < NO_BLOCKS
    ensures !NoFit(entries + [freed], bpb, need)
  {
    assert (entries + [freed])[|entries|] == freed;
  }
}
