/** The effect of the archive operations on the extents, as values. */
module ArchiveSteps {
  import opened ArchiveAllocation
  import opened ArchiveFormat
  import opened ArchiveLayout
  import opened ArchivePayload
  import opened ArchiveWalk
  import opened LittleEndian

  const MAX_BLOCK := 0x4000_0000
  const MAX_PAYLOAD := 0x8000_0010

  /** The stored bytes of an extent. */
  function Payload(x: Extent): seq<bv8> {
    if x.entry.finalSize <= |x.body| then x.body[..x.entry.finalSize] else x.body
  }

  /** What Open answers for an index. */
  ghost function Opened(codec: Codec, key: Key, xs: seq<Extent>, index: u32): Option<seq<bv8>>
  {
    if index in LiveOf(xs) then Unpacked(codec, key, LiveOf(xs)[index].entry.info, Payload(LiveOf(xs)[index])) else None
  }

  /** A file that is its prefix and the extents that tile the rest, with the entries in memory. */
  ghost predicate Laid(
    bytes: seq<bv8>, prefix: seq<bv8>, xs: seq<Extent>, bpb: u32, files: map<u32, Entry>, entries: seq<Entry>)
  {
    && bytes == prefix + Image(xs) && |bytes| < TWO63 && bpb > 1
    && Tiled(xs, |prefix|, bpb) && Distinct(xs)
    && files == FilesOf(xs) && multiset(entries) == multiset(FreeOf(xs))
  }

  /** Two writes, one after the other. */
  lemma OverwriteTwice(bytes: seq<bv8>, at: nat, a: seq<bv8>, b: seq<bv8>)
    requires at <= |bytes|
    ensures Overwrite(Overwrite(bytes, at, a), at + |a|, b) == Overwrite(bytes, at, a + b)
  {}

  /** Where a live file is stored. */
  lemma PayloadPlace(bytes: seq<bv8>, prefix: seq<bv8>, xs: seq<Extent>, bpb: u32, index: u32)
    requires bytes == prefix + Image(xs) && Tiled(xs, |prefix|, bpb) && index in LiveOf(xs)
    ensures
      var e := LiveOf(xs)[index].entry;
      && e.offset + e.finalSize <= |bytes| && bytes[e.offset..e.offset + e.finalSize] == Payload(LiveOf(xs)[index])
      && ENTRY_SIZE + e.finalSize < TWO32
  {
    hide EntryBytes;
    var i := FindLive(xs, index);
    var a, x, b := xs[..i], xs[i], xs[i + 1..];
    Placed(xs, |prefix|, bpb, i);
    Split(xs, i, x);
    ImageAround(a, x, b);
    SliceInside(prefix, Image(a), EntryBytes(x.entry), x.body, Image(b), x.entry.finalSize, ExtentBytes(x));
  }

  lemma SliceInside(p: seq<bv8>, a: seq<bv8>, e: seq<bv8>, body: seq<bv8>, b: seq<bv8>, n: nat, x: seq<bv8>)
    requires n <= |body| && x == e + body
    ensures
      var at := |p| + |a| + |e|;
      at + n <= |p + (a + (x + b))| && (p + (a + (x + b)))[at..at + n] == body[..n]
  {}

  /** A live extent becomes free. */
  lemma FreeStep(bytes: seq<bv8>, prefix: seq<bv8>, xs: seq<Extent>, bpb: u32, files: map<u32, Entry>, entries: seq<Entry>,
                 index: u32, freed: Entry) returns (ys: seq<Extent>)
    requires Laid(bytes, prefix, xs, bpb, files, entries) && index in files
    requires freed.info.index == 0 && freed.finalSize == 0
    requires freed.numBlocks == files[index].numBlocks && freed.offset == files[index].offset
    ensures ENTRY_SIZE <= freed.offset <= |bytes|
    ensures Laid(Overwrite(bytes, freed.offset - ENTRY_SIZE, EntryBytes(freed)), prefix, ys, bpb,
                 files - {index}, entries + [freed])
    ensures |Overwrite(bytes, freed.offset - ENTRY_SIZE, EntryBytes(freed))| == |bytes|
    ensures LiveOf(ys) == LiveOf(xs) - {index}
    ensures freed.numBlocks < NO_BLOCKS && Product(freed.numBlocks, bpb) >= ENTRY_SIZE + files[index].finalSize
  {
    hide EntryBytes, ExtentBytes, Overwrite, Image, Tiled, LiveOf, FreeOf, Distinct;
    var i := FindLive(xs, index);
    var a, x, b := xs[..i], xs[i], xs[i + 1..];
    Placed(xs, |prefix|, bpb, i);
    var y := Extent(freed, false, x.body);
    ys := xs[i := y];
    ReplaceExtent(xs, |prefix|, bpb, i, y);
    Split(xs, i, y);
    assert x.body == [] + x.body[0..];
    OverwriteExtent(prefix, a, x, b, y, []);
    assert EntryBytes(freed) + [] == EntryBytes(freed);
    assert FilesOf(ys) == FilesOf(xs) - {index};
    BlocksBelow(x, bpb);
  }

  lemma BlocksBelow(x: Extent, bpb: u32)
    requires Sound(x, bpb) && bpb > 1
    ensures x.entry.numBlocks < NO_BLOCKS && Product(x.entry.numBlocks, bpb) == ExtentSize(x)
  {}

  /** A free extent takes a payload. */
  lemma ReuseStep(bytes: seq<bv8>, prefix: seq<bv8>, xs: seq<Extent>, bpb: u32, files: map<u32, Entry>, entries: seq<Entry>,
                  idx: nat, e: Entry, payload: seq<bv8>) returns (ys: seq<Extent>, y: Extent)
    requires Laid(bytes, prefix, xs, bpb, files, entries) && idx < |entries|
    requires Holds(entries[idx], bpb, |payload| + ENTRY_SIZE)
    requires e.numBlocks == entries[idx].numBlocks && e.offset == entries[idx].offset
    requires e.finalSize == |payload| && e.info.index !in files
    ensures ENTRY_SIZE <= e.offset <= |bytes|
    ensures Laid(Overwrite(bytes, e.offset - ENTRY_SIZE, EntryBytes(e) + payload), prefix, ys, bpb,
                 files[e.info.index := e], entries[..idx] + entries[idx + 1..])
    ensures |Overwrite(bytes, e.offset - ENTRY_SIZE, EntryBytes(e) + payload)| == |bytes|
    ensures LiveOf(ys) == LiveOf(xs)[e.info.index := y]
    ensures y.entry == e && Payload(y) == payload
  {
    hide EntryBytes, ExtentBytes, Overwrite, Image, Tiled, LiveOf, FreeOf, Distinct;
    assert entries[idx] in multiset(entries);
    var i := FindFree(xs, entries[idx]);
    var a, x, b := xs[..i], xs[i], xs[i + 1..];
    Placed(xs, |prefix|, bpb, i);
    BlocksBelow(x, bpb);
    y := Extent(e, true, payload + x.body[|payload|..]);
    ys := xs[i := y];
    ReplaceExtent(xs, |prefix|, bpb, i, y);
    Split(xs, i, y);
    OverwriteExtent(prefix, a, x, b, y, payload);
    assert FilesOf(ys) == FilesOf(xs)[e.info.index := e];
    WithoutOne(entries, idx);
  }

  lemma WithoutOne<T>(s: seq<T>, i: nat)
    requires i < |s|
    ensures multiset(s[..i] + s[i + 1..]) == multiset(s) - multiset{s[i]}
  {
    assert s == s[..i] + [s[i]] + s[i + 1..];
  }

  /** New blocks at the end take a payload; room is what was allocated for them. */
  lemma GrowStep(bytes: seq<bv8>, prefix: seq<bv8>, xs: seq<Extent>, bpb: u32, files: map<u32, Entry>, entries: seq<Entry>,
                 room: seq<bv8>, e: Entry, payload: seq<bv8>) returns (ys: seq<Extent>, y: Extent)
    requires Laid(bytes, prefix, xs, bpb, files, entries)
    requires e.numBlocks * bpb == |room| < TWO32 && |room| >= |payload| + ENTRY_SIZE && |bytes| + |room| < TWO63
    requires e.offset == |bytes| + ENTRY_SIZE && e.finalSize == |payload| && e.info.index !in files
    ensures Laid(Overwrite(bytes + room, |bytes|, EntryBytes(e) + payload), prefix, ys, bpb,
                 files[e.info.index := e], entries)
    ensures |Overwrite(bytes + room, |bytes|, EntryBytes(e) + payload)| == |bytes| + |room|
    ensures LiveOf(ys) == LiveOf(xs)[e.info.index := y]
    ensures y.entry == e && Payload(y) == payload
  {
    hide EntryBytes, Overwrite, Image, Tiled, LiveOf, FreeOf, Distinct;
    var n := |payload| + ENTRY_SIZE;
    y := Extent(e, true, payload + room[n..]);
    ys := xs + [y];
    AppendExtent(xs, |prefix|, bpb, y);
    OverwriteEnd(bytes, room, EntryBytes(e) + payload);
    Regroup3(EntryBytes(e), payload, room[n..]);
    Regroup3(prefix, Image(xs), ExtentBytes(y));
    assert FilesOf(ys) == FilesOf(xs)[e.info.index := e];
  }

  lemma OverwriteEnd(bytes: seq<bv8>, room: seq<bv8>, d: seq<bv8>)
    requires |d| <= |room|
    ensures Overwrite(bytes + room, |bytes|, d) == bytes + (d + room[|d|..])
  {}

  /** Whether a payload finds a free extent, or the sizes of a new one stay within the integers of the
      source. */
  predicate Space(free: seq<Entry>, bpb: u32, fileSize: nat, size: nat)
    requires bpb > 0
  {
    !NoFit(free, bpb, size + ENTRY_SIZE) || (Roomy(size, bpb) && fileSize + Align(size + ENTRY_SIZE, bpb) < TWO63)
  }

  /** The extent that was chosen, or the new blocks for it. */
  ghost predicate Allocated(entries: seq<Entry>, bpb: u32, fileSize: nat, size: u32, idx: nat, numBlocks: u32, offset: u64, room: nat)
    requires bpb > 0
  {
    && idx <= |entries| && (idx == |entries| <==> NoFit(entries, bpb, size + ENTRY_SIZE))
    && (idx < |entries| ==>
         && BestFit(entries, bpb, size + ENTRY_SIZE, idx)
         && numBlocks == entries[idx].numBlocks && offset == entries[idx].offset && room == 0)
    && (idx == |entries| ==>
         && numBlocks == NewBlocks(size, bpb) && offset == (fileSize + ENTRY_SIZE) % TWO64
         && room == Product(numBlocks, bpb))
  }

  /** A free extent that holds the payload: there is space, and nothing is appended. */
  lemma FitsFreed(free: seq<Entry>, freed: Entry, bpb: u32, fileSize: nat, size: u32, idx: nat, numBlocks: u32, offset: u64, room: nat)
    requires bpb > 0 && Allocated(free + [freed], bpb, fileSize, size, idx, numBlocks, offset, room)
    requires Holds(freed, bpb, size + ENTRY_SIZE)
    ensures Space(free + [freed], bpb, fileSize, size) && room == 0
  {
    RewriteFits(free, freed, bpb, size + ENTRY_SIZE);
  }

  lemma WithoutSpace(entries: seq<Entry>, bpb: u32, fileSize: nat, size: u32, idx: nat, numBlocks: u32, offset: u64, room: nat)
    requires bpb > 0 && Allocated(entries, bpb, fileSize, size, idx, numBlocks, offset, room)
    requires !Space(entries, bpb, fileSize, size) && fileSize < TWO63
    ensures offset == fileSize + ENTRY_SIZE
  {}

  function Remaining(entries: seq<Entry>, idx: nat): seq<Entry> {
    if idx < |entries| then entries[..idx] + entries[idx + 1..] else entries
  }

  /** A payload is stored, in a free extent or in new blocks. */
  lemma StoreStep(bytes: seq<bv8>, prefix: seq<bv8>, xs: seq<Extent>, bpb: u32, files: map<u32, Entry>, entries: seq<Entry>,
                  idx: nat, room: seq<bv8>, e: Entry, payload: seq<bv8>) returns (ys: seq<Extent>, y: Extent)
    requires Laid(bytes, prefix, xs, bpb, files, entries) && |payload| < TWO32
    requires Allocated(entries, bpb, |bytes|, |payload|, idx, e.numBlocks, e.offset, |room|)
    requires Space(entries, bpb, |bytes|, |payload|)
    requires e.finalSize == |payload| && e.info.index !in files
    ensures ENTRY_SIZE <= e.offset <= |bytes| + ENTRY_SIZE
    ensures Laid(Overwrite(bytes + room, e.offset - ENTRY_SIZE, EntryBytes(e) + payload), prefix, ys, bpb,
                 files[e.info.index := e], Remaining(entries, idx))
    ensures |Overwrite(bytes + room, e.offset - ENTRY_SIZE, EntryBytes(e) + payload)| == |bytes| + |room|
    ensures LiveOf(ys) == LiveOf(xs)[e.info.index := y]
    ensures y.entry == e && Payload(y) == payload
  {
    hide EntryBytes, Overwrite, LiveOf, NewBlocks, Align, Product, Payload;
    if idx < |entries| {
      assert bytes + room == bytes;
      ys, y := ReuseStep(bytes, prefix, xs, bpb, files, entries, idx, e, payload);
    } else {
      NewExtent(|payload|, bpb);
      ys, y := GrowStep(bytes, prefix, xs, bpb, files, entries, room, e, payload);
    }
  }

  /** The file and the extents once a payload is stored. */
  ghost predicate StoredAs(
    after: seq<bv8>, prefix: seq<bv8>, xs: seq<Extent>, ys: seq<Extent>, y: Extent, bpb: u32,
    files: map<u32, Entry>, entries: seq<Entry>, size: nat, e: Entry, payload: seq<bv8>)
  {
    && Laid(after, prefix, ys, bpb, files[e.info.index := e], entries) && |after| == size
    && LiveOf(ys) == LiveOf(xs)[e.info.index := y] && Payload(y) == payload
  }

  lemma StoreOutcome(bytes: seq<bv8>, prefix: seq<bv8>, xs: seq<Extent>, bpb: u32, files: map<u32, Entry>, entries: seq<Entry>,
                     idx: nat, room: seq<bv8>, e: Entry, payload: seq<bv8>) returns (ys: seq<Extent>, y: Extent)
    requires Laid(bytes, prefix, xs, bpb, files, entries) && |payload| < TWO32
    requires Allocated(entries, bpb, |bytes|, |payload|, idx, e.numBlocks, e.offset, |room|)
    requires e.finalSize == |payload| && e.info.index !in files
    ensures ENTRY_SIZE <= e.offset <= |bytes| + ENTRY_SIZE && y.entry == e
    ensures Space(entries, bpb, |bytes|, |payload|) ==>
      StoredAs(Overwrite(bytes + room, e.offset - ENTRY_SIZE, EntryBytes(e) + payload), prefix, xs, ys, y, bpb,
               files, Remaining(entries, idx), |bytes| + |room|, e, payload)
  {
    hide EntryBytes, Overwrite, LiveOf, NewBlocks, Align, Product, Payload, Allocated, Space, Remaining;
    if Space(entries, bpb, |bytes|, |payload|) {
      ys, y := StoreStep(bytes, prefix, xs, bpb, files, entries, idx, room, e, payload);
    } else {
      ys, y := xs, Extent(e, true, payload);
      WithoutSpace(entries, bpb, |bytes|, |payload|, idx, e.numBlocks, e.offset, |room|);
    }
  }

  /** The file grows only when no free extent holds the payload; otherwise the first of the smallest that
      do is taken. */
  ghost predicate Chosen(
    free: seq<Entry>, bpb: u32, before: nat, need: nat, left: seq<Entry>, after: nat, numBlocks: u32, offset: u64)
    requires bpb > 0
  {
    if NoFit(free, bpb, need) then
      left == free && after == before + Align(need, bpb) && offset == before + ENTRY_SIZE && numBlocks * bpb == Align(need, bpb)
    else
      && after == before
      && exists idx: nat :: BestFit(free, bpb, need, idx) && numBlocks == free[idx].numBlocks && offset == free[idx].offset
                       && left == Remaining(free, idx)
  }

  lemma ChosenAllocated(free: seq<Entry>, bpb: u32, fileSize: nat, size: u32, idx: nat, numBlocks: u32, offset: u64, room: nat)
    requires bpb > 1 && Allocated(free, bpb, fileSize, size, idx, numBlocks, offset, room)
    requires Space(free, bpb, fileSize, size)
    ensures Chosen(free, bpb, fileSize, size + ENTRY_SIZE, Remaining(free, idx), fileSize + room, numBlocks, offset)
  {
    hide Product, NewBlocks, Align;
    NewExtent(size, bpb);
  }

  /** Payloads up to about 2^31 bytes always find space, and need less than 2^32 bytes more. */
  lemma SpaceInRange(free: seq<Entry>, bpb: u32, fileSize: nat, size: nat)
    requires 0 < bpb <= MAX_BLOCK && fileSize + TWO32 < TWO63 && size <= MAX_PAYLOAD
    ensures Space(free, bpb, fileSize, size) && Align(size + ENTRY_SIZE, bpb) < TWO32
  {}

  // ---------- what is read back ----------

  /** What was stored under an index is opened again, as long as encryption can be undone. */
  lemma OpenedStored(codec: Codec, key: Key, ys: seq<Extent>, data: seq<bv8>, flags: bv8, index: u32)
    requires Lossless(codec) && index in LiveOf(ys)
    requires
      var (buffer, f) := Packed(codec, data, flags);
      var x := LiveOf(ys)[index];
      && x.entry.info.flags == f && x.entry.info.hash == Hash(data) && x.entry.info.rawsize == |data|
      && x.entry.info.compressedsize == |buffer| && Payload(x) == Stored(key, buffer, f) && Decryptable(buffer, f)
    ensures Opened(codec, key, ys, index) == Some(data)
  {
    hide Packed, Stored, Unpacked, Hash, Payload;
    UnpackedPacked(codec, key, data, flags, LiveOf(ys)[index].entry.info);
  }

  lemma OpenedRaw(codec: Codec, key: Key, ys: seq<Extent>, info: Info, payload: seq<bv8>)
    requires info.index in LiveOf(ys) && Payload(LiveOf(ys)[info.index]) == payload
    requires LiveOf(ys)[info.index].entry.info == info.(filename := LiveOf(ys)[info.index].entry.info.filename)
    ensures Opened(codec, key, ys, info.index) == Unpacked(codec, key, info, payload)
  {
    hide Unpacked, Payload;
    UnpackedRenamed(codec, key, info, LiveOf(ys)[info.index].entry.info.filename, payload);
  }

  /** The other files are opened as before. */
  lemma OpenedOthers(codec: Codec, key: Key, xs: seq<Extent>, ys: seq<Extent>, index: u32, y: Extent)
    requires LiveOf(ys) == LiveOf(xs)[index := y]
    ensures forall other | other != index :: Opened(codec, key, ys, other) == Opened(codec, key, xs, other)
  {
    hide Unpacked, Payload;
  }

  lemma OpenedWithout(codec: Codec, key: Key, xs: seq<Extent>, ys: seq<Extent>, index: u32)
    requires LiveOf(ys) == LiveOf(xs) - {index}
    ensures Opened(codec, key, ys, index) == None
    ensures forall other | other != index :: Opened(codec, key, ys, other) == Opened(codec, key, xs, other)
  {
    hide Unpacked, Payload;
  }
}
