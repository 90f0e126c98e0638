/** What Load reads: the walk over the entries of a file, and what it rebuilds from them. */
module ArchiveWalk {
  import opened ArchiveFormat
  import opened ArchiveLayout
  import opened LittleEndian

  const TWO63 := 0x8000_0000_0000_0000
  const TWO64 := 0x1_0000_0000_0000_0000

  /** The position after an entry, computed on 64-bit integers; a position that turns negative is
      refused and the file stays where it is. */
  function NextPosition(e: Entry, bpb: u32): int {
    var p := (e.offset - ENTRY_SIZE + Product(e.numBlocks, bpb)) % TWO64;
    if p >= TWO63 then p - TWO64 else p
  }

  /** What the record into which an entry is read holds before, by the position in the file. */
  type Stack = (nat, nat) -> bv8

  /** The entry at a position; what a torn one lacks stays as it is in the record. */
  function EntryAt(bytes: seq<bv8>, at: nat, stack: Stack): Entry
    requires at < |bytes|
  {
    EntryOf(if at + ENTRY_SIZE <= |bytes| then bytes[at..at + ENTRY_SIZE]
            else bytes[at..] + Lacking(stack, at, ENTRY_SIZE - (|bytes| - at)))
  }

  function Lacking(stack: Stack, at: nat, n: nat): (s: seq<bv8>)
    requires n <= ENTRY_SIZE
    ensures |s| == n
  {
    seq(n, k requires 0 <= k => stack(at, ENTRY_SIZE - n + k))
  }

  /** The position after reading an entry. */
  function ReadEnd(bytes: seq<bv8>, at: nat): nat {
    if at + ENTRY_SIZE <= |bytes| then at + ENTRY_SIZE else |bytes|
  }

  function After(bytes: seq<bv8>, bpb: u32, at: nat, stack: Stack): nat
    requires at < |bytes|
  {
    var p := NextPosition(EntryAt(bytes, at, stack), bpb);
    if p < 0 then ReadEnd(bytes, at) else p
  }

  /** The walk reaches the end of the file in at most n entries. */
  predicate WalkEnds(bytes: seq<bv8>, bpb: u32, at: nat, n: nat, stack: Stack)
    decreases n
  {
    at < |bytes| ==> n > 0 && WalkEnds(bytes, bpb, After(bytes, bpb, at, stack), n - 1, stack)
  }

  function Visited(bytes: seq<bv8>, bpb: u32, at: nat, n: nat, stack: Stack): seq<Entry>
    requires WalkEnds(bytes, bpb, at, n, stack)
    decreases n
  {
    if at >= |bytes| then []
    else [EntryAt(bytes, at, stack)] + Visited(bytes, bpb, After(bytes, bpb, at, stack), n - 1, stack)
  }

  lemma {:induction false} VisitedBound(bytes: seq<bv8>, bpb: u32, at: nat, n: nat, m: nat, stack: Stack)
    requires WalkEnds(bytes, bpb, at, n, stack) && WalkEnds(bytes, bpb, at, m, stack)
    ensures Visited(bytes, bpb, at, n, stack) == Visited(bytes, bpb, at, m, stack)
    decreases n
  {
    if at < |bytes| {
      VisitedBound(bytes, bpb, After(bytes, bpb, at, stack), n - 1, m - 1, stack);
    }
  }

  /** Entries that are not free go into the map; the first one with an index stays. */
  function LoadedFiles(es: seq<Entry>): map<u32, Entry> {
    if es == [] then map[]
    else if es[0].info.index == 0 then LoadedFiles(es[1..])
    else LoadedFiles(es[1..])[es[0].info.index := es[0]]
  }

  function LoadedFree(es: seq<Entry>): seq<Entry> {
    if es == [] then []
    else if es[0].info.index == 0 then [es[0]] + LoadedFree(es[1..])
    else LoadedFree(es[1..])
  }

  /** One more entry. */
  lemma {:induction false} LoadedMore(es: seq<Entry>, e: Entry)
    ensures LoadedFiles(es + [e]) ==
      if e.info.index == 0 || e.info.index in LoadedFiles(es) then LoadedFiles(es)
      else LoadedFiles(es)[e.info.index := e]
    ensures LoadedFree(es + [e]) == if e.info.index == 0 then LoadedFree(es) + [e] else LoadedFree(es)
  {
    if es == [] {
      assert (es + [e])[1..] == [];
    } else {
      LoadedMore(es[1..], e);
      assert (es + [e])[1..] == es[1..] + [e];
    }
  }

  function EntriesOf(xs: seq<Extent>): seq<Entry> {
    if xs == [] then [] else [xs[0].entry] + EntriesOf(xs[1..])
  }

  lemma NextOfSound(x: Extent, at: nat, bpb: u32)
    requires Sound(x, bpb) && x.entry.offset == at + ENTRY_SIZE && at + ExtentSize(x) < TWO63
    ensures NextPosition(x.entry, bpb) == at + ExtentSize(x)
  {}

  lemma EntryAtExtent(prefix: seq<bv8>, x: Extent, rest: seq<bv8>, stack: Stack)
    ensures EntryAt(prefix + (ExtentBytes(x) + rest), |prefix|, stack) == x.entry
  {
    hide EntryBytes, EntryOf;
    EntryOfBytes(x.entry);
    var bytes := prefix + (ExtentBytes(x) + rest);
    assert bytes[|prefix|..|prefix| + ENTRY_SIZE] == EntryBytes(x.entry);
  }

  lemma AfterExtent(prefix: seq<bv8>, x: Extent, rest: seq<bv8>, bytes: seq<bv8>, bpb: u32, stack: Stack)
    requires bytes == prefix + (ExtentBytes(x) + rest) && |bytes| < TWO63
    requires Sound(x, bpb) && x.entry.offset == |prefix| + ENTRY_SIZE
    ensures EntryAt(bytes, |prefix|, stack) == x.entry && After(bytes, bpb, |prefix|, stack) == |prefix| + ExtentSize(x)
  {
    hide EntryAt, NextPosition;
    EntryAtExtent(prefix, x, rest, stack);
    NextOfSound(x, |prefix|, bpb);
  }

  /** The walk over a tiled file visits its extents one by one and ends. */
  lemma {:induction false} WalkTiled(prefix: seq<bv8>, xs: seq<Extent>, bpb: u32, bytes: seq<bv8>, stack: Stack)
    requires bytes == prefix + Image(xs) && |bytes| < TWO63 && Tiled(xs, |prefix|, bpb)
    ensures WalkEnds(bytes, bpb, |prefix|, |xs|, stack)
    ensures Visited(bytes, bpb, |prefix|, |xs|, stack) == EntriesOf(xs)
    decreases |xs|
  {
    hide ExtentBytes, EntryAt, After, Sound;
    if xs != [] {
      var x, rest := xs[0], Image(xs[1..]);
      AfterExtent(prefix, x, rest, bytes, bpb, stack);
      var next := prefix + ExtentBytes(x);
      Regroup3(prefix, ExtentBytes(x), rest);
      WalkTiled(next, xs[1..], bpb, bytes, stack);
    }
  }

  lemma {:induction false} NeverZero(es: seq<Entry>)
    ensures 0 !in LoadedFiles(es)
  {
    if es != [] {
      NeverZero(es[1..]);
    }
  }

  lemma {:induction false} LoadedAll(xs: seq<Extent>, at: nat, bpb: u32)
    requires Tiled(xs, at, bpb) && 0 !in FilesOf(xs)
    ensures LoadedFiles(EntriesOf(xs)) == FilesOf(xs) && LoadedFree(EntriesOf(xs)) == FreeOf(xs)
  {
    if xs != [] {
      LoadedAll(xs[1..], at + ExtentSize(xs[0]), bpb);
    }
  }

  /** Load rebuilds the files and the free extents exactly when no live file has index 0. */
  lemma Reloaded(prefix: seq<bv8>, xs: seq<Extent>, bpb: u32, bytes: seq<bv8>, stack: Stack)
    requires bytes == prefix + Image(xs) && |bytes| < TWO63 && Tiled(xs, |prefix|, bpb)
    ensures WalkEnds(bytes, bpb, |prefix|, |xs|, stack)
    ensures
      var es := Visited(bytes, bpb, |prefix|, |xs|, stack);
      && (LoadedFiles(es) == FilesOf(xs) <==> 0 !in FilesOf(xs))
      && (0 !in FilesOf(xs) ==> LoadedFree(es) == FreeOf(xs))
  {
    WalkTiled(prefix, xs, bpb, bytes, stack);
    NeverZero(EntriesOf(xs));
    if 0 !in FilesOf(xs) {
      LoadedAll(xs, |prefix|, bpb);
    }
  }

  lemma {:induction false} VisitedStep(bytes: seq<bv8>, bpb: u32, at: nat, n: nat, stack: Stack)
    requires WalkEnds(bytes, bpb, at, n, stack) && at < |bytes|
    ensures n > 0 && WalkEnds(bytes, bpb, After(bytes, bpb, at, stack), n - 1, stack)
    ensures Visited(bytes, bpb, at, n, stack) == [EntryAt(bytes, at, stack)] + Visited(bytes, bpb, After(bytes, bpb, at, stack), n - 1, stack)
  {
    hide EntryAt, After;
  }

  /** If the header is there and right, the walk over the entries ends. */
  ghost predicate Loadable(bytes: seq<bv8>, stack: Stack) {
    HasHeader(bytes) ==> exists n: nat :: WalkEnds(bytes, HeaderAt(bytes).bytesPerBlock, HeaderAt(bytes).firstEntry, n, stack)
  }

  predicate HasHeader(bytes: seq<bv8>) {
    |bytes| >= HEADER_SIZE && HeaderOf(bytes[..HEADER_SIZE]).magic == MAGIC
  }

  function HeaderAt(bytes: seq<bv8>): Header
    requires HasHeader(bytes)
  {
    HeaderOf(bytes[..HEADER_SIZE])
  }

  /** The maps are what the walk over a file gives. */
  ghost predicate LoadedFrom(bytes: seq<bv8>, files: map<u32, Entry>, entries: seq<Entry>, stack: Stack)
    requires HasHeader(bytes)
  {
    var h := HeaderAt(bytes);
    exists n: nat :: WalkEnds(bytes, h.bytesPerBlock, h.firstEntry, n, stack)
      && files == LoadedFiles(Visited(bytes, h.bytesPerBlock, h.firstEntry, n, stack))
      && entries == LoadedFree(Visited(bytes, h.bytesPerBlock, h.firstEntry, n, stack))
  }

  /** A consistent file can be loaded; what is loaded is what the memory held, exactly when no live file has
      index 0. */
  lemma LoadedConsistent(bytes: seq<bv8>, h: Header, prefix: seq<bv8>, xs: seq<Extent>,
                         files: map<u32, Entry>, entries: seq<Entry>, stack: Stack)
    requires bytes == prefix + Image(xs) && |bytes| < TWO63 && Tiled(xs, |prefix|, h.bytesPerBlock)
    requires HasHeader(bytes) && HeaderAt(bytes) == h && h.firstEntry == |prefix|
    ensures Loadable(bytes, stack)
    ensures LoadedFrom(bytes, files, entries, stack) && 0 !in LiveOf(xs) ==> files == FilesOf(xs) && entries == FreeOf(xs)
    ensures LoadedFrom(bytes, files, entries, stack) && 0 in LiveOf(xs) ==> files != FilesOf(xs)
  {
    hide Tiled, LiveOf, WalkEnds, Visited, HeaderOf, LoadedFiles, LoadedFree, Image, FilesOf;
    var bpb, at := h.bytesPerBlock, h.firstEntry;
    Reloaded(prefix, xs, bpb, bytes, stack);
    if LoadedFrom(bytes, files, entries, stack) {
      var n: nat :| WalkEnds(bytes, bpb, at, n, stack)
        && files == LoadedFiles(Visited(bytes, bpb, at, n, stack)) && entries == LoadedFree(Visited(bytes, bpb, at, n, stack));
      VisitedBound(bytes, bpb, at, n, |xs|, stack);
      FilesKeys(xs);
    }
  }

  lemma FilesKeys(xs: seq<Extent>)
    ensures FilesOf(xs).Keys == LiveOf(xs).Keys
  {}
}
