/** Copying files between archives: ReadRawData from one and WriteRawData into the other. */
module ArchiveCopies {
  import opened AesImpl
  import opened ArchiveFormat
  import opened ArchiveLayout
  import opened ArchivePayload
  import opened Archives
  import opened ArchiveSteps
  import opened ArchiveViews
  import opened ArchiveWalk
  import opened ByteTables
  import opened LittleEndian
  import CryptHelper

  // ---------- archives with a file at a given place ----------

  /** The bytes of a consistent archive with a live file under an index. */
  ghost predicate Holding(h: Header, prefix: seq<bv8>, xs: seq<Extent>, index: u32) {
    && Headed(prefix, h) && index in LiveOf(xs)
    && Laid(prefix + Image(xs), prefix, xs, h.bytesPerBlock, FilesOf(xs), FreeOf(xs))
  }

  const FILLER := 0x4000_0000

  function Zeros(n: nat): (s: seq<bv8>)
    ensures |s| == n
  {
    seq(n, _ => 0)
  }

  /** A free extent of 2^30 bytes in blocks of two. */
  function Filler(at: nat): Extent
    requires at < TWO63
  {
    Extent(Entry(Info(0, 0, 0, 0, 0, 0, 0, Zeros(NAME_SIZE)), 0, FILLER / 2, at + ENTRY_SIZE), false,
           Zeros(FILLER - ENTRY_SIZE))
  }

  function Fillers(m: nat, at: nat): seq<Extent>
    requires at + m * FILLER < TWO63
  {
    if m == 0 then [] else [Filler(at)] + Fillers(m - 1, at + FILLER)
  }

  lemma {:induction false} FillersTiled(m: nat, at: nat)
    requires at + m * FILLER < TWO63
    ensures Tiled(Fillers(m, at), at, 2) && |Image(Fillers(m, at))| == m * FILLER
    ensures LiveOf(Fillers(m, at)) == map[] && Distinct(Fillers(m, at))
  {
    hide EntryBytes;
    if m > 0 {
      FillersTiled(m - 1, at + FILLER);
      assert Fillers(m, at)[1..] == Fillers(m - 1, at + FILLER);
    }
  }

  /** Free extents and a live one behind them are a consistent archive. */
  lemma Held(h: Header, prefix: seq<bv8>, free: seq<Extent>, x: Extent)
    requires Headed(prefix, h) && h.bytesPerBlock > 1 && x.live && Sound(x, h.bytesPerBlock)
    requires Tiled(free, |prefix|, h.bytesPerBlock) && LiveOf(free) == map[] && Distinct(free)
    requires x.entry.offset == |prefix| + |Image(free)| + ENTRY_SIZE
    requires |prefix| + |Image(free)| + ExtentSize(x) < TWO63
    ensures Holding(h, prefix, free + [x], x.entry.info.index)
    ensures x.entry.info.index in LiveOf(free + [x]) && LiveOf(free + [x])[x.entry.info.index] == x
    ensures prefix + Image(free + [x]) == prefix + Image(free) + EntryBytes(x.entry) + x.body
  {
    hide EntryBytes, Headed, Sound, Tiled, Image, LiveOf, Distinct, FilesOf, FreeOf;
    Alone(x, |prefix| + |Image(free)|, h.bytesPerBlock);
    TiledAppend(free, [x], |prefix|, h.bytesPerBlock);
    ImageAppend(free, [x]);
    DistinctAppend(free, [x]);
    LiveAppend(free, [x]);
    SameTail(prefix + Image(free), EntryBytes(x.entry), x.body);
    SameTail(prefix, Image(free), Image([x]));
  }

  lemma Alone(x: Extent, at: nat, bpb: u32)
    requires x.live && Sound(x, bpb) && x.entry.offset == at + ENTRY_SIZE
    ensures Tiled([x], at, bpb) && Distinct([x]) && LiveOf([x]) == map[x.entry.info.index := x]
    ensures Image([x]) == EntryBytes(x.entry) + x.body
  {
    hide EntryBytes, Sound;
    assert [x][1..] == [];
  }

  /** The extents before a file at an offset, and the bytes before its payload, whatever the payload is. */
  datatype Front = Front(h: Header, prefix: seq<bv8>, free: seq<Extent>, entry: Entry)

  function FrontBytes(f: Front): seq<bv8> { f.prefix + Image(f.free) + EntryBytes(f.entry) }

  function FrontExtent(f: Front, payload: seq<bv8>): Extent {
    Extent(f.entry, true, payload + Zeros((ENTRY_SIZE + |payload|) % 2))
  }

  /** Blocks of two bytes with a file of some size at an offset. */
  function FrontAt(offset: nat, size: nat): Front
    requires HEADER_SIZE + ENTRY_SIZE <= offset && offset + size + 1 < TWO63 && ENTRY_SIZE + size + 1 < TWO32
  {
    var base := offset - ENTRY_SIZE;
    var m := (base - HEADER_SIZE) / FILLER;
    var h := Header(MAGIC, 2, base - m * FILLER);
    Front(h, HeaderBytes(h) + Zeros(h.firstEntry - HEADER_SIZE), Fillers(m, h.firstEntry),
          Entry(Info(1, 0, 0, 0, size, size, size, Zeros(NAME_SIZE)), size, (ENTRY_SIZE + size + 1) / 2, offset))
  }

  lemma FrontHolds(offset: nat, size: nat, payload: seq<bv8>)
    requires HEADER_SIZE + ENTRY_SIZE <= offset && offset + size + 1 < TWO63 && ENTRY_SIZE + size + 1 < TWO32
    requires |payload| == size
    ensures
      var f := FrontAt(offset, size);
      var x := FrontExtent(f, payload);
      && |FrontBytes(f)| == offset
      && Holding(f.h, f.prefix, f.free + [x], f.entry.info.index)
      && LiveOf(f.free + [x])[f.entry.info.index] == x
      && f.prefix + Image(f.free + [x]) == FrontBytes(f) + x.body
  {
    hide EntryBytes, Image, Tiled, LiveOf, Distinct, Holding, HeaderBytes;
    var f := FrontAt(offset, size);
    FillersTiled((offset - ENTRY_SIZE - HEADER_SIZE) / FILLER, f.h.firstEntry);
    Held(f.h, f.prefix, f.free, FrontExtent(f, payload));
  }

  // ---------- what ReadRawData shows of such an archive ----------

  /** Of every file at some offset in a consistent archive the view is the payload. */
  ghost predicate ShownRight(offset: nat, size: u32, granularity: nat, beyond: nat -> bv8)
    requires granularity > 0
  {
    forall h, prefix, xs, index |
        && Holding(h, prefix, xs, index)
        && LiveOf(xs)[index].entry.offset == offset && LiveOf(xs)[index].entry.finalSize == size ::
      View(prefix + Image(xs), offset, size, granularity, beyond) == Payload(LiveOf(xs)[index])
  }

  /** A payload whose last byte is not the one that the view has there. */
  function Other(front: seq<bv8>, start: nat, size: nat): (payload: seq<bv8>)
    requires start < |front| && size > 0
    ensures |payload| == size
  {
    var last: bv8 := if start + size - 1 < |front| then front[start + size - 1] else 0;
    seq(size, i => if i == size - 1 then last + 1 else 0)
  }

  lemma OtherMissed(front: seq<bv8>, size: u32, granularity: nat, beyond: nat -> bv8, pad: seq<bv8>)
    requires granularity > 0 && size > 0 && |front| % granularity != 0
    ensures 0 <= Start(|front|, granularity) < |front|
    ensures
      var payload := Other(front, Start(|front|, granularity), size);
      View(front + (payload + pad), |front|, size, granularity, beyond) != payload
  {
    var offset := |front|;
    Rounded(offset, granularity);
    var start := Start(offset, granularity);
    var payload := Other(front, start, size);
    var bytes := front + (payload + pad);
    ViewInside(bytes, offset, size, granularity, beyond);
    var k := start + size - 1;
    assert View(bytes, offset, size, granularity, beyond)[size - 1] == bytes[k];
    assert k < offset ==> bytes[k] == front[k];
    assert k >= offset ==> k - offset < size - 1 && bytes[k] == payload[k - offset] == 0;
    assert payload[size - 1] != bytes[k];
  }

  /** The files at an offset are shown right in every consistent archive if and only if the offset is a
      multiple of the granularity. */
  lemma ArchiveShown(offset: nat, size: u32, granularity: nat, beyond: nat -> bv8)
    requires granularity > 0 && size > 0
    requires HEADER_SIZE + ENTRY_SIZE <= offset && offset + size + 1 < TWO63 && ENTRY_SIZE + size + 1 < TWO32
    ensures ShownRight(offset, size, granularity, beyond) <==> offset % granularity == 0
  {
    hide EntryBytes, Image, Tiled, LiveOf, Distinct, FilesOf, FreeOf, Headed, View, Payload;
    if offset % granularity == 0 {
      forall h, prefix, xs, index |
          && Holding(h, prefix, xs, index)
          && LiveOf(xs)[index].entry.offset == offset && LiveOf(xs)[index].entry.finalSize == size
        ensures View(prefix + Image(xs), offset, size, granularity, beyond) == Payload(LiveOf(xs)[index])
      {
        PayloadPlace(prefix + Image(xs), prefix, xs, h.bytesPerBlock, index);
        ViewAligned(prefix + Image(xs), offset, size, granularity, beyond);
      }
    } else {
      ArchiveMissed(offset, size, granularity, beyond);
    }
  }

  lemma ArchiveMissed(offset: nat, size: u32, granularity: nat, beyond: nat -> bv8)
    requires granularity > 0 && size > 0 && offset % granularity != 0
    requires HEADER_SIZE + ENTRY_SIZE <= offset && offset + size + 1 < TWO63 && ENTRY_SIZE + size + 1 < TWO32
    ensures !ShownRight(offset, size, granularity, beyond)
  {
    hide EntryBytes, Image, LiveOf, Holding, View, FrontBytes, Other, ShownRight;
    var f := FrontAt(offset, size);
    FrontHolds(offset, size, Zeros(size));
    OtherMissed(FrontBytes(f), size, granularity, beyond, Zeros((ENTRY_SIZE + size) % 2));
    var payload := Other(FrontBytes(f), Start(offset, granularity), size);
    FrontHolds(offset, size, payload);
    if ShownRight(offset, size, granularity, beyond) {
      var xs := f.free + [FrontExtent(f, payload)];
      Instance(f.h, f.prefix, xs, f.entry.info.index, offset, size, granularity, beyond);
    }
  }

  lemma Instance(h: Header, prefix: seq<bv8>, xs: seq<Extent>, index: u32, offset: nat, size: u32,
                 granularity: nat, beyond: nat -> bv8)
    requires granularity > 0 && Holding(h, prefix, xs, index) && ShownRight(offset, size, granularity, beyond)
    requires LiveOf(xs)[index].entry.offset == offset && LiveOf(xs)[index].entry.finalSize == size
    ensures View(prefix + Image(xs), offset, size, granularity, beyond) == Payload(LiveOf(xs)[index])
  {
    hide View, Holding, Image, LiveOf, Payload;
  }

  lemma FirstByte(n: nat, k: nat)
    requires k > 0
    ensures Encode(n, k)[0] == ByteOf(n % 256)
  {}

  /** The first byte of the header. */
  lemma HeaderStart(h: Header)
    requires h.magic == MAGIC
    ensures HeaderBytes(h)[0] == 0x69
  {
    hide Encode;
    FirstByte(h.magic, 4);
  }

  lemma Remainder(n: nat, a: nat)
    requires n < a
    ensures n % a == n
  {}

  /** A file in the first stretch of any consistent archive is shown wrong unless it starts like the archive. */
  lemma FirstShown(h: Header, prefix: seq<bv8>, xs: seq<Extent>, index: u32, granularity: nat, beyond: nat -> bv8)
    requires Holding(h, prefix, xs, index)
    requires LiveOf(xs)[index].entry.offset < granularity && LiveOf(xs)[index].entry.finalSize > 0
    ensures
      var e := LiveOf(xs)[index].entry;
      var payload := Payload(LiveOf(xs)[index]);
      View(prefix + Image(xs), e.offset, e.finalSize, granularity, beyond) == payload ==>
        |payload| > 0 && payload[0] == 0x69
  {
    hide EntryBytes, Image, LiveOf, View, Tiled, Distinct, FilesOf, FreeOf, HeaderBytes;
    var e := LiveOf(xs)[index].entry;
    var bytes := prefix + Image(xs);
    PayloadPlace(bytes, prefix, xs, h.bytesPerBlock, index);
    Remainder(e.offset, granularity);
    Rounded(e.offset, granularity);
    ViewInside(bytes, e.offset, e.finalSize, granularity, beyond);
    HeaderStart(h);
    assert View(bytes, e.offset, e.finalSize, granularity, beyond)[0] == bytes[0] == prefix[..HEADER_SIZE][0];
  }

  /** Blocks of 4096 bytes, as Create makes them, with the first file of the archive: a single zero. */
  const FIRST_HEADER := Header(MAGIC, 4096, 4096)

  ghost function FirstFile(): Extent {
    Extent(Entry(Info(1, Hash([0]), 0, 0, 1, 1, 1, Zeros(NAME_SIZE)), 1, 1, 4096 + ENTRY_SIZE), true,
           [0] + Zeros(4096 - ENTRY_SIZE - 1))
  }

  /** Its archive is consistent and opens it, but with a granularity of 64 KiB what ReadRawData shows is not the
      entry and the payload, and what is opened of the view is not the file. */
  lemma FirstFileMissed(codec: Codec, key: Key, beyond: nat -> bv8)
    ensures
      var prefix, x := HeaderBytes(FIRST_HEADER) + Zeros(4096 - HEADER_SIZE), FirstFile();
      var view := View(prefix + Image([x]), x.entry.offset, x.entry.finalSize, 0x1_0000, beyond);
      && FIRST_HEADER == NewHeader(4096) && Holding(FIRST_HEADER, prefix, [x], 1)
      && LiveOf([x])[1] == x && Opened(codec, key, [x], 1) == Some([0])
      && EntryBytes(x.entry) + view != EntryBytes(x.entry) + Payload(x)
      && Unpacked(codec, key, x.entry.info, view) != Some([0])
  {
    hide EntryBytes, Hash, View, HeaderBytes, Tiled, Image, Holding, LiveOf, Distinct;
    hide CryptHelper.PlainText, CryptHelper.IvOf;
    var prefix, x := HeaderBytes(FIRST_HEADER) + Zeros(4096 - HEADER_SIZE), FirstFile();
    Nothing(prefix);
    Held(FIRST_HEADER, prefix, [], x);
    assert [] + [x] == [x];
    FirstShown(FIRST_HEADER, prefix, [x], 1, 0x1_0000, beyond);
    NoFlags(codec, key, x.entry.info, [0]);
    NoFlags(codec, key, x.entry.info, View(prefix + Image([x]), x.entry.offset, x.entry.finalSize, 0x1_0000, beyond));
    assert Payload(x) == [0];
    SameFront(EntryBytes(x.entry), View(prefix + Image([x]), x.entry.offset, x.entry.finalSize, 0x1_0000, beyond), [0]);
  }

  lemma Nothing(prefix: seq<bv8>)
    ensures Image([]) == [] && LiveOf([]) == map[] && Tiled([], |prefix|, 4096) && Distinct([])
  {}

  lemma SameFront<T>(a: seq<T>, b: seq<T>, c: seq<T>)
    ensures a + b == a + c <==> b == c
  {
    if a + b == a + c {
      assert (a + b)[|a|..] == b && (a + c)[|a|..] == c;
    }
  }

  /** Without flags the contents are the stored bytes when the hash agrees. */
  lemma NoFlags(codec: Codec, key: Key, info: Info, raw: seq<bv8>)
    requires info.flags == 0
    ensures Unpacked(codec, key, info, raw) == if Hash(raw) == info.hash then Some(raw) else None
  {
    hide Hash, CryptHelper.PlainText, CryptHelper.IvOf;
  }

  lemma PlainCopy(codec: Codec, key: Key, info: Info, raw: seq<bv8>, copy: seq<bv8>)
    requires info.flags == 0
    ensures Unpacked(codec, key, info, raw).Some? ==>
      (Unpacked(codec, key, info, copy) == Unpacked(codec, key, info, raw) <==> copy == raw)
  {
    hide Unpacked, Hash;
    NoFlags(codec, key, info, raw);
    NoFlags(codec, key, info, copy);
  }

  // ---------- what is opened of a copy ----------

  /** Of whatever is stored at some offset and opens, the view opens to the same contents. */
  ghost predicate OpenedRight(codec: Codec, key: Key, offset: nat, size: u32, granularity: nat, beyond: nat -> bv8)
    requires granularity > 0
  {
    forall bytes: seq<bv8>, info: Info |
        offset + size <= |bytes| && Unpacked(codec, key, info, bytes[offset..offset + size]).Some? ::
      Unpacked(codec, key, info, View(bytes, offset, size, granularity, beyond))
      == Unpacked(codec, key, info, bytes[offset..offset + size])
  }

  /** Copies of the files at an offset open as the files do if and only if the offset is a multiple of the
      granularity. */
  lemma CopiesOpened(codec: Codec, key: Key, offset: nat, size: u32, granularity: nat, beyond: nat -> bv8)
    requires granularity > 0 && size > 0
    ensures OpenedRight(codec, key, offset, size, granularity, beyond) <==> offset % granularity == 0
  {
    hide View, Unpacked, Hash;
    if offset % granularity == 0 {
      forall bytes: seq<bv8>, info: Info |
          offset + size <= |bytes| && Unpacked(codec, key, info, bytes[offset..offset + size]).Some?
        ensures Unpacked(codec, key, info, View(bytes, offset, size, granularity, beyond))
                == Unpacked(codec, key, info, bytes[offset..offset + size])
      {
        ViewAligned(bytes, offset, size, granularity, beyond);
      }
    } else {
      MarkedMissed(offset, size, granularity, beyond);
      var bytes := Marked(offset + size);
      var payload := bytes[offset..offset + size];
      var info := Info(1, Hash(payload), 0, 0, size, size, size, Zeros(NAME_SIZE));
      NoFlags(codec, key, info, payload);
      NoFlags(codec, key, info, View(bytes, offset, size, granularity, beyond));
    }
  }

  // ---------- copying ----------

  /** The allocation granularity of the system. */
  type Granularity = n: nat | n > 0 witness 1

  /** What is handed over for a file: an entry and the bytes behind it. */
  type Block = s: seq<bv8> | |s| >= ENTRY_SIZE witness Zeros(ENTRY_SIZE)

  function Left(memory: nat -> bv8): (s: seq<bv8>)
    ensures |s| == ENTRY_SIZE
  {
    seq(ENTRY_SIZE, memory)
  }

  /** The entry and the view, or for an empty file, of which ReadRawData copies nothing, what malloc has left. */
  function Sent(e: Entry, bytes: seq<bv8>, granularity: Granularity, beyond: nat -> bv8, memory: nat -> bv8): Block {
    if e.finalSize == 0 then Left(memory)
    else EntryBytes(e) + View(bytes, e.offset, e.finalSize, granularity, beyond)
  }

  function SentFrom(from: Archive, index: u32, granularity: Granularity, beyond: nat -> bv8, memory: nat -> bv8): Block
    reads from, from.file
  {
    if from.file == null || index !in from.files then Left(memory)
    else Sent(from.files[index], from.file.bytes, granularity, beyond, memory)
  }

  function SentEntry(s: Block): Entry { EntryOf(s[..ENTRY_SIZE]) }

  function SentPayload(s: Block): seq<bv8> {
    var n := SentEntry(s).finalSize;
    if ENTRY_SIZE + n <= |s| then s[ENTRY_SIZE..][..n] else s[ENTRY_SIZE..]
  }

  /** What WriteRawData demands of a block: the payload is in it and the name ends. */
  predicate Receivable(s: Block, nameLength: nat) {
    ENTRY_SIZE + SentEntry(s).finalSize <= |s| && EndsAfter(SentEntry(s).info.filename, nameLength)
  }

  lemma SentFile(e: Entry, bytes: seq<bv8>, granularity: Granularity, beyond: nat -> bv8, memory: nat -> bv8)
    requires e.finalSize > 0 && e.offset + e.finalSize <= |bytes|
    ensures
      var s := Sent(e, bytes, granularity, beyond, memory);
      && |s| == ENTRY_SIZE + e.finalSize && SentEntry(s) == e
      && SentPayload(s) == View(bytes, e.offset, e.finalSize, granularity, beyond)
  {
    hide EntryBytes, EntryOf, View;
    EntryOfBytes(e);
  }

  /** Contents are those of a file when its offset is a multiple of the granularity; for a file that is neither
      compressed nor encrypted, exactly when the view is the payload. */
  ghost predicate OpensAs(from: Archive, copy: Option<seq<bv8>>, index: u32, granularity: Granularity,
                          beyond: nat -> bv8)
    reads from, from.file
  {
    from.file != null && index in from.files && index in LiveOf(from.extents) &&
    var e := from.files[index];
    && (e.offset % granularity == 0 ==> copy == from.Contents(index))
    && (e.info.flags == 0 && from.Contents(index).Some? ==>
         (copy == from.Contents(index) <==>
            View(from.file.bytes, e.offset, e.finalSize, granularity, beyond) == Payload(LiveOf(from.extents)[index])))
  }

  lemma SentRight(from: Archive, index: u32, granularity: Granularity, beyond: nat -> bv8, memory: nat -> bv8)
    requires from.Consistent() && index in from.files && from.files[index].finalSize > 0
    ensures
      var s := SentFrom(from, index, granularity, beyond, memory);
      && SentEntry(s) == from.files[index] && SentEntry(s).info.index == index
      && OpensAs(from, Unpacked(from.codec, from.key, SentEntry(s).info, SentPayload(s)), index, granularity, beyond)
  {
    hide Laid, Headed, LiveOf, Unpacked, View, Sent, SentEntry, SentPayload, Payload;
    var e := from.files[index];
    from.ReadPlace(index);
    SentFile(e, from.file.bytes, granularity, beyond, memory);
    from.FileIndex(index);
    if e.offset % granularity == 0 {
      ViewAligned(from.file.bytes, e.offset, e.finalSize, granularity, beyond);
    }
    if e.info.flags == 0 {
      PlainCopy(from.codec, from.key, e.info, Payload(LiveOf(from.extents)[index]),
                View(from.file.bytes, e.offset, e.finalSize, granularity, beyond));
    }
  }

  /** An archive holds what a block says, and opens it accordingly; all other files are as they were. */
  twostate predicate Received(to: Archive, s: Block)
    reads to, to.file
  {
    var e := SentEntry(s);
    && to.Replaced(e.info, e.finalSize)
    && (old(to.SpaceFor(e.info.index, e.finalSize)) ==>
         && to.OthersKept(e.info.index)
         && to.Contents(e.info.index) == Unpacked(to.codec, to.key, e.info, SentPayload(s)))
  }

  /** A file that is not empty opens in the archive it is copied to, if it has space, the same key and the same
      codec, as it does in the other. */
  twostate predicate CopiedRight(from: Archive, to: Archive, index: u32, granularity: Granularity, beyond: nat -> bv8)
    reads from, from.file, to, to.file
  {
    index in from.files ==>
      var size := from.files[index].finalSize;
      size > 0 && from.codec == to.codec && from.key == to.key && old(to.SpaceFor(index, size)) ==>
        OpensAs(from, to.Contents(index), index, granularity, beyond)
  }

  /** One round of the loop of CopyArchive: read a file, write it. nameLength is where the name ends, memory
      what malloc leaves. */
  method CopyFile(from: Archive, to: Archive, index: u32, granularity: Granularity, beyond: nat -> bv8, nameLength: nat,
                  memory: nat -> bv8) returns (ok: bool)
    requires from.Valid() && to.Valid() && from != to && (from.file == null || from.file != to.file)
    requires to.Writeable() ==> from.file != null && index in from.files ==>
      Receivable(SentFrom(from, index, granularity, beyond, memory), nameLength)
    modifies to`files, to`entries, to`extents, to.file
    ensures ok == (from.file != null && index in from.files && old(to.Writeable()))
    ensures ok ==> CopiedRight(from, to, index, granularity, beyond)
    ensures !ok ==> to.Unchanged() && to.Valid()
    ensures ok ==> Received(to, SentFrom(from, index, granularity, beyond, memory))
  {
    hide Correct, IntSized, LiveOf, Laid, Headed, Unpacked, View, EntryBytes, EntryOf, Space, OpensAs;
    var blocksize, none := from.ReadRawData(index, 0, granularity, beyond);
    if blocksize == 0 {
      return false;
    }
    var block := seq(blocksize, memory);
    var size, filled := from.ReadRawData(index, blocksize, granularity, beyond);
    from.ReadPlace(index);
    if size == 0 {
      return false;
    }
    var s := filled + block[|filled|..];
    assert s == SentFrom(from, index, granularity, beyond, memory);
    if from.files[index].finalSize > 0 {
      SentRight(from, index, granularity, beyond, memory);
    }
    ok := to.WriteRawData(SentEntry(s), s[ENTRY_SIZE..], nameLength, memory);
  }

  /** The first loop of CopyArchive. */
  method DeleteAll(to: Archive)
    requires to.Valid()
    modifies to`files, to`entries, to`extents, to.file
    ensures to.Valid()
    ensures old(to.Writeable()) ==> to.files == map[]
    ensures !old(to.Writeable()) ==> to.Unchanged()
  {
    hide Correct, IntSized, LiveOf, Laid, Headed, Opened;
    var infos := to.EnumerateFiles();
    if to.file != null {
      forall index | index in to.files ensures exists k :: 0 <= k < |infos| && infos[k].index == index {
        to.FileIndex(index);
        assert to.files[index].info in infos;
      }
    }
    for i := 0 to |infos|
      invariant to.Valid() && (!old(to.Writeable()) ==> to.Unchanged())
      invariant old(to.Writeable()) ==> forall index | index in to.files ::
        index in old(to.files) && forall k | 0 <= k < i :: infos[k].index != index
    {
      var deleted := to.Delete(infos[i].index);
    }
  }

  /** The second loop, over the files that are left in the target. */
  method CopyFiles(from: Archive, to: Archive, infos: seq<Info>, granularity: Granularity, beyond: nat -> bv8,
                   memory: nat -> bv8) returns (ok: bool)
    requires from.Valid() && to.Valid() && from != to && (from.file == null || from.file != to.file)
    requires to.Writeable() ==> infos == []
    modifies to`files, to`entries, to`extents, to.file
    ensures ok == (infos == []) && to.Unchanged() && to.Valid()
  {
    hide Correct, IntSized, LiveOf, Laid, Headed, Opened, Received, CopiedRight, SentFrom;
    for i := 0 to |infos|
      invariant i == 0 && to.Unchanged() && to.Valid()
    {
      var copied := CopyFile(from, to, infos[i].index, granularity, beyond, 0, memory);
      if !copied {
        return false;
      }
    }
    ok := true;
  }

  /** The files of the target are deleted first, and then those of the target are enumerated again, so that
      nothing is ever copied. */
  method CopyArchive(from: Archive, to: Archive, granularity: Granularity, beyond: nat -> bv8, memory: nat -> bv8)
      returns (ok: bool)
    requires from.Valid() && to.Valid() && from != to && (from.file == null || from.file != to.file)
    modifies to`files, to`entries, to`extents, to.file
    ensures to.Valid()
    ensures old(to.Writeable()) ==> ok && to.files == map[] && forall index :: to.Contents(index) == None
    ensures !old(to.Writeable()) ==> ok == (to.files == map[]) && to.Unchanged()
  {
    hide Correct, IntSized, LiveOf, Laid, Headed;
    DeleteAll(to);
    var infos := to.EnumerateFiles();
    ok := CopyFiles(from, to, infos, granularity, beyond, memory);
    to.FilesLive();
  }
}
