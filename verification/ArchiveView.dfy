/** CVFSFile::Map: what a mapped view of an archive shows, and when that is the payload of a file. */
module ArchiveViews {
  import opened ArchiveAllocation
  import opened ArchiveFormat
  import opened ArchiveLayout
  import opened ArchivePayload
  import opened ArchiveSteps
  import opened ArchiveWalk
  import opened LittleEndian

  /** Where a view starts: the remainder added to the mapped address is that of the rounded offset. */
  function Start(offset: nat, granularity: nat): int
    requires granularity > 0
  {
    var rounded := offset - offset % granularity;
    rounded + rounded % granularity
  }

  /** No size stands for that of the whole file. */
  function MappedSize(size: u32, length: nat): u32 {
    var n := if size == 0 then length % TWO32 else size;
    if n < length then n else length
  }

  /** The bytes of a view; beyond is what the memory after the end of the file holds. */
  function View(bytes: seq<bv8>, offset: nat, size: u32, granularity: nat, beyond: nat -> bv8): (v: seq<bv8>)
    requires granularity > 0
    ensures |v| == MappedSize(size, |bytes|)
  {
    Rounded(offset, granularity);
    var start := Start(offset, granularity);
    seq(MappedSize(size, |bytes|), i requires 0 <= i =>
      if start + i < |bytes| then bytes[start + i] else beyond(start + i - |bytes|))
  }

  /** The start is the offset rounded down. */
  lemma Rounded(offset: nat, granularity: nat)
    requires granularity > 0
    ensures 0 <= Start(offset, granularity) == offset - offset % granularity <= offset
  {
    var q, n := offset / granularity, offset - offset % granularity;
    assert n == q * granularity;
    MultipleDivided(q, granularity);
  }

  /** A view that does not reach the end of the file is a part of the file. */
  lemma ViewInside(bytes: seq<bv8>, offset: nat, size: u32, granularity: nat, beyond: nat -> bv8)
    requires granularity > 0 && size > 0 && offset + size <= |bytes|
    ensures 0 <= Start(offset, granularity) <= offset
    ensures View(bytes, offset, size, granularity, beyond) == bytes[Start(offset, granularity)..][..size]
  {
    Rounded(offset, granularity);
  }

  /** The view is the payload if its offset is a multiple of the granularity. */
  lemma ViewAligned(bytes: seq<bv8>, offset: nat, size: u32, granularity: nat, beyond: nat -> bv8)
    requires granularity > 0 && size > 0 && offset % granularity == 0 && offset + size <= |bytes|
    ensures View(bytes, offset, size, granularity, beyond) == bytes[offset..offset + size]
  {
    Rounded(offset, granularity);
    ViewInside(bytes, offset, size, granularity, beyond);
  }

  /** Zeros up to a last byte that is 1. */
  function Marked(n: nat): seq<bv8>
    requires n > 0
  {
    seq(n, i => if i == n - 1 then 1 else 0)
  }

  lemma MarkedMissed(offset: nat, size: u32, granularity: nat, beyond: nat -> bv8)
    requires granularity > 0 && size > 0 && offset % granularity != 0
    ensures
      var bytes := Marked(offset + size);
      View(bytes, offset, size, granularity, beyond) != bytes[offset..offset + size]
  {
    var bytes := Marked(offset + size);
    Rounded(offset, granularity);
    ViewInside(bytes, offset, size, granularity, beyond);
    assert bytes[offset..offset + size][size - 1] == 1;
    assert View(bytes, offset, size, granularity, beyond)[size - 1] == 0;
  }

  /** Views at an offset show the payload there in every file if and only if the offset is a multiple of the
      granularity. */
  lemma ViewRight(offset: nat, size: u32, granularity: nat, beyond: nat -> bv8)
    requires granularity > 0 && size > 0
    ensures
      (forall bytes: seq<bv8> | offset + size <= |bytes| ::
         View(bytes, offset, size, granularity, beyond) == bytes[offset..offset + size])
      <==> offset % granularity == 0
  {
    hide View;
    if offset % granularity == 0 {
      forall bytes: seq<bv8> | offset + size <= |bytes|
        ensures View(bytes, offset, size, granularity, beyond) == bytes[offset..offset + size]
      {
        ViewAligned(bytes, offset, size, granularity, beyond);
      }
    } else {
      MarkedMissed(offset, size, granularity, beyond);
      var bytes := Marked(offset + size);
      assert offset + size <= |bytes|;
    }
  }

  // ---------- offsets in a consistent archive ----------

  lemma {:induction false} ImageBlocks(xs: seq<Extent>, at: nat, bpb: u32) returns (q: nat)
    requires Tiled(xs, at, bpb)
    ensures |Image(xs)| == q * bpb
  {
    hide ExtentBytes;
    if xs == [] {
      q := 0;
    } else {
      q := ImageBlocks(xs[1..], at + ExtentSize(xs[0]), bpb);
      assert |Image(xs)| == xs[0].entry.numBlocks * bpb + q * bpb;
      q := xs[0].entry.numBlocks + q;
    }
  }

  lemma OffsetBlocks(xs: seq<Extent>, at: nat, bpb: u32, i: nat) returns (q: nat)
    requires Tiled(xs, at, bpb) && i < |xs|
    ensures xs[i].entry.offset == at + q * bpb + ENTRY_SIZE
  {
    hide ExtentBytes, Image, Sound;
    Placed(xs, at, bpb, i);
    Split(xs, i, xs[i]);
    TiledAppend(xs[..i], [xs[i]] + xs[i + 1..], at, bpb);
    q := ImageBlocks(xs[..i], at, bpb);
  }

  /** With a first entry at a block boundary, blocks larger than an entry and a granularity of whole blocks,
      no payload ever starts at a multiple of the granularity. */
  lemma NeverAligned(xs: seq<Extent>, at: nat, first: nat, bpb: u32, i: nat, granularity: nat)
    requires Tiled(xs, at, bpb) && at == first * bpb && i < |xs| && bpb > ENTRY_SIZE && granularity > 0
    ensures xs[i].entry.offset % (granularity * bpb) != 0
  {
    hide Tiled;
    var q := OffsetBlocks(xs, at, bpb, i);
    Distribute(first, q, bpb);
    OffBoundary(xs[i].entry.offset, first + q, bpb, ENTRY_SIZE, granularity);
  }

  lemma OffBoundary(n: nat, m: nat, b: nat, r: nat, g: nat)
    requires n == m * b + r && 0 < r < b && g > 0
    ensures n % (g * b) != 0
  {
    var a := g * b;
    var k := n / a;
    assert n == a * k + n % a;
    if n % a == 0 {
      Regrouped(g, b, k);
      Distance(b, g * k, m, r);
    }
  }

  lemma Regrouped(g: nat, b: nat, k: nat)
    ensures g * b * k == g * k * b
  {}

  lemma Distribute(p: nat, q: nat, a: nat)
    ensures p * a + q * a == (p + q) * a
  {}
}
