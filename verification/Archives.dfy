/** CVFSArchive over a file of bytes: the in-memory maps, the file, and the invariant between them. */
module Archives {
  import opened AesImpl
  import opened ArchiveAllocation
  import opened ArchiveFormat
  import opened ArchiveLayout
  import opened ArchiveNames
  import opened ArchivePayload
  import opened ArchiveSteps
  import opened ArchiveViews
  import opened ArchiveWalk
  import opened Chunking
  import opened LittleEndian
  import CryptHelper

  /** CVFSFile as a sequence of bytes with a position. */
  class File {
    var bytes: seq<bv8>
    var pos: nat
    const writeable: bool

    constructor (bytes: seq<bv8>, writeable: bool)
      ensures this.bytes == bytes && this.writeable == writeable && pos == 0
    {
      this.bytes, this.writeable, pos := bytes, writeable, 0;
    }

    method SetPosition(p: int)
      modifies this`pos
      ensures pos == if p < 0 then old(pos) else p
    {
      if p >= 0 {
        pos := p;
      }
    }

    method Read(n: nat) returns (data: seq<bv8>)
      modifies this`pos
      ensures old(pos) + n <= |bytes| ==> data == bytes[old(pos)..old(pos) + n]
      ensures old(pos) + n > |bytes| ==> data == if old(pos) <= |bytes| then bytes[old(pos)..] else []
      ensures pos == old(pos) + |data|
    {
      if pos >= |bytes| {
        data := [];
      } else if pos + n <= |bytes| {
        data := bytes[pos..pos + n];
      } else {
        data := bytes[pos..];
      }
      pos := pos + |data|;
    }

    method Write(data: seq<bv8>) returns (n: nat)
      modifies this
      ensures !writeable ==> n == 0 && bytes == old(bytes) && pos == old(pos)
      ensures writeable ==> n == |data| && bytes == Overwrite(old(bytes), old(pos), data) && pos == old(pos) + n
    {
      if !writeable {
        return 0;
      }
      bytes := Overwrite(bytes, pos, data);
      pos := pos + |data|;
      n := |data|;
    }
  }

  /** wcscpy_s: a text with its terminator over the start of a name. */
  function Renamed(name: Name, text: seq<bv8>): Name
    requires |text| <= NAME_SIZE
  {
    text + name[|text|..]
  }

  /** The entry of a chosen extent, with the fields of the file it will hold. */
  function Filled(e: Entry, info: Info, text: seq<bv8>, size: u32): Entry
    requires |text| <= NAME_SIZE
  {
    e.(info := info.(filename := Renamed(e.info.filename, text)), finalSize := size)
  }

  /** The first n characters of a name with their terminator; a name is up to 254 characters and one. */
  function Text(name: Name, n: nat): seq<bv8>
    requires n < 255
  {
    name[..2 * n] + [0, 0]
  }

  /** The name of an entry ends after n characters. */
  predicate EndsAfter(name: Name, n: nat) {
    n < 255 && name[2 * n] == 0 && name[2 * n + 1] == 0
  }

  /** An entry says how data are stored: the hash, the flags and the size after each stage. */
  ghost predicate Describes(codec: Codec, key: Key, info: Info, data: seq<bv8>, flags: bv8, buffer: seq<bv8>, stored: seq<bv8>) {
    && info.hash == Hash(data)
    && (buffer, info.flags) == Packed(codec, data, flags) && stored == Stored(key, buffer, info.flags)
    && info.rawsize == |data| && info.compressedsize == |buffer| && info.cryptedsize == |stored|
  }

  /** What Delete leaves of an entry. */
  function Freed(e: Entry): Entry {
    e.(info := Info(0, 0, 0, 0, 0, 0, 0, Renamed(e.info.filename, [0, 0])), finalSize := 0)
  }

  /** The free extents once a file is gone. */
  function FreeWithout(files: map<u32, Entry>, entries: seq<Entry>, index: u32): seq<Entry> {
    if index in files then entries + [Freed(files[index])] else entries
  }

  /** Position a file and write. */
  method WriteAt(file: File, p: nat, data: seq<bv8>)
    requires file.writeable
    modifies file
    ensures file.bytes == Overwrite(old(file.bytes), p, data) && file.pos == p + |data|
  {
    file.SetPosition(p);
    var n := file.Write(data);
  }

  /** Choose the extent for a payload, or append one; memory is what malloc leaves. */
  method Allocate(file: File, entries: seq<Entry>, bpb: u32, size: u32, memory: nat -> bv8)
      returns (idx: nat, e: Entry, ghost room: seq<bv8>)
    requires file.writeable && bpb > 0
    modifies file
    ensures Allocated(entries, bpb, |old(file.bytes)|, size, idx, e.numBlocks, e.offset, |room|)
    ensures file.bytes == old(file.bytes) + room
  {
    hide Holds, NewBlocks, Product;
    var blocks;
    idx, blocks := FindFit(entries, bpb, size + ENTRY_SIZE);
    if blocks == NO_BLOCKS {
      file.SetPosition(|file.bytes|);
      blocks := NewBlocks(size, bpb);
      e := Entry(Info(0, 0, 0, 0, 0, 0, 0, BLANK_NAME), 0, blocks, (file.pos + ENTRY_SIZE) % TWO64);
      room := seq(Product(blocks, bpb), memory);
      OverwriteAtEnd(file.bytes, room);
      var n := file.Write(seq(Product(blocks, bpb), memory));
    } else {
      e := entries[idx];
      room := [];
      assert file.bytes + room == file.bytes;
    }
  }

  /** Write an entry and its payload to their place. */
  method WriteEntry(file: File, e: Entry, payload: seq<bv8>)
    requires file.writeable && ENTRY_SIZE <= e.offset <= |file.bytes| + ENTRY_SIZE
    modifies file
    ensures file.bytes == Overwrite(old(file.bytes), e.offset - ENTRY_SIZE, EntryBytes(e) + payload)
  {
    hide EntryBytes, Overwrite;
    OverwriteTwice(file.bytes, e.offset - ENTRY_SIZE, EntryBytes(e), payload);
    WriteAt(file, e.offset - ENTRY_SIZE, EntryBytes(e));
    var n := file.Write(payload);
  }

  /** Find the extent for a payload and write the entry and the payload there. */
  method Place(
    file: File, ghost prefix: seq<bv8>, ghost xs: seq<Extent>, bpb: u32, ghost files: map<u32, Entry>, entries: seq<Entry>,
    info: Info, text: seq<bv8>, payload: seq<bv8>, memory: nat -> bv8)
      returns (idx: nat, e: Entry, ghost ys: seq<Extent>, ghost y: Extent, ghost grown: nat)
    requires file.writeable && Laid(file.bytes, prefix, xs, bpb, files, entries)
    requires info.index !in files && |text| <= NAME_SIZE && |payload| < TWO32
    modifies file
    ensures Allocated(entries, bpb, |old(file.bytes)|, |payload|, idx, e.numBlocks, e.offset, grown)
    ensures e.info == info.(filename := e.info.filename) && y.entry == e
    ensures Space(entries, bpb, |old(file.bytes)|, |payload|) ==>
      StoredAs(file.bytes, prefix, xs, ys, y, bpb, files, Remaining(entries, idx), |old(file.bytes)| + grown, e, payload)
  {
    assert bpb > 1;
    hide EntryBytes, Overwrite, Laid, Allocated, Space, Remaining, Renamed, StoredAs;
    ghost var bytes := file.bytes;
    ghost var room;
    idx, e, room := Allocate(file, entries, bpb, |payload|, memory);
    e := Filled(e, info, text, |payload|);
    ys, y := StoreOutcome(bytes, prefix, xs, bpb, files, entries, idx, room, e, payload);
    grown := |room|;
    WriteEntry(file, e, payload);
  }

  /** The loop of Load. */
  method ReadEntries(file: File, h: Header, stack: Stack) returns (files: map<u32, Entry>, entries: seq<Entry>)
    requires Loadable(file.bytes, stack) && HasHeader(file.bytes) && HeaderAt(file.bytes) == h
    modifies file`pos
    ensures LoadedFrom(file.bytes, files, entries, stack)
  {
    hide HeaderOf, EntryOf, NextPosition, Visited, WalkEnds, LoadedFiles, LoadedFree;
    ghost var n: nat :| WalkEnds(file.bytes, h.bytesPerBlock, h.firstEntry, n, stack);
    ghost var left, seen := n, [];
    files, entries := map[], [];
    file.SetPosition(h.firstEntry);
    NothingLoaded();
    while file.pos < |file.bytes|
      invariant WalkEnds(file.bytes, h.bytesPerBlock, file.pos, left, stack)
      invariant Visited(file.bytes, h.bytesPerBlock, h.firstEntry, n, stack)
             == seen + Visited(file.bytes, h.bytesPerBlock, file.pos, left, stack)
      invariant files == LoadedFiles(seen) && entries == LoadedFree(seen)
      decreases left
    {
      VisitedStep(file.bytes, h.bytesPerBlock, file.pos, left, stack);
      var at := file.pos;
      var data := file.Read(ENTRY_SIZE);
      var entry := EntryOf(data + Lacking(stack, at, ENTRY_SIZE - |data|));
      assert entry == EntryAt(file.bytes, at, stack) by { WholeEntry(file.bytes, at, data, stack); }
      LoadedMore(seen, entry);
      if entry.info.index == 0 {
        entries := entries + [entry];
      } else if entry.info.index !in files {
        files := files[entry.info.index := entry];
      }
      file.SetPosition(NextPosition(entry, h.bytesPerBlock));
      assert file.pos == After(file.bytes, h.bytesPerBlock, at, stack);
      left, seen := left - 1, seen + [entry];
    }
    VisitedNone(file.bytes, h.bytesPerBlock, file.pos, left, stack);
    assert Visited(file.bytes, h.bytesPerBlock, h.firstEntry, n, stack) == seen;
  }

  lemma WholeEntry(bytes: seq<bv8>, at: nat, data: seq<bv8>, stack: Stack)
    requires at < |bytes| && data == if at + ENTRY_SIZE <= |bytes| then bytes[at..at + ENTRY_SIZE] else bytes[at..]
    ensures EntryAt(bytes, at, stack) == EntryOf(data + Lacking(stack, at, ENTRY_SIZE - |data|))
  {
    hide EntryOf;
    if at + ENTRY_SIZE <= |bytes| {
      assert data + Lacking(stack, at, 0) == data;
    }
  }

  lemma NothingLoaded()
    ensures LoadedFiles([]) == map[] && LoadedFree([]) == []
  {}

  lemma VisitedNone(bytes: seq<bv8>, bpb: u32, at: nat, n: nat, stack: Stack)
    requires WalkEnds(bytes, bpb, at, n, stack) && at >= |bytes|
    ensures Visited(bytes, bpb, at, n, stack) == []
  {}

  /** Write the header and what fills the space to the first entry. */
  method StartFile(f: File, h: Header, memory: nat -> bv8)
    requires f.writeable && h.firstEntry >= HEADER_SIZE
    modifies f
    ensures |f.bytes| == if |old(f.bytes)| < h.firstEntry then h.firstEntry as nat else |old(f.bytes)|
    ensures f.bytes[..HEADER_SIZE] == HeaderBytes(h)
  {
    hide HeaderBytes;
    f.SetPosition(0);
    var n := f.Write(HeaderBytes(h));
    n := f.Write(seq(h.firstEntry - HEADER_SIZE, memory));
  }

  /** The operations that change an archive. */
  datatype Op =
    | Put(name: seq<wchar>, data: seq<bv8>, flags: bv8, version: u32)
    | Remove(index: u32)
    | PutRaw(ent: Entry, rest: seq<bv8>, nameLength: nat)

  predicate InRange(op: Op) {
    match op
    case Put(name, data, flags, version) => |name| < 255 && |data| < INT_LIMIT
    case Remove(index) => true
    case PutRaw(ent, rest, nameLength) =>
      ent.finalSize <= |rest| < INT_LIMIT && EndsAfter(ent.info.filename, nameLength)
  }

  /** An operation may put a file under an index. */
  predicate Adds(lower: wchar -> wchar, op: Op, index: u32) {
    match op
    case Put(name, data, flags, version) => NameIndex(lower, name) == index
    case Remove(_) => false
    case PutRaw(ent, rest, nameLength) => ent.info.index == index
  }

  /** The bytes before the first entry start with the header. */
  predicate Headed(prefix: seq<bv8>, h: Header) {
    h.magic == MAGIC && |prefix| == h.firstEntry >= HEADER_SIZE && prefix[..HEADER_SIZE] == HeaderBytes(h)
  }

  class Archive {
    const tables: Tables
    const codec: Codec
    const lower: wchar -> wchar
    var file: File?
    var key: Key
    var header: Header
    var files: map<u32, Entry>
    var entries: seq<Entry>
    ghost var prefix: seq<bv8>
    ghost var extents: seq<Extent>

    /** The layout invariant: after the header and its padding the extents tile the file; the map holds
        the live ones and the list the free ones. */
    ghost predicate Consistent()
      reads this, file
    {
      && file != null
      && Laid(file.bytes, prefix, extents, header.bytesPerBlock, files, entries)
      && Headed(prefix, header)
    }

    ghost predicate Valid()
      reads this, file
    {
      Correct(tables) && IntSized(codec) && (file != null ==> Consistent())
    }

    /** What Open answers for an index. */
    ghost function Contents(index: u32): Option<seq<bv8>>
      reads this
    {
      Opened(codec, key, extents, index)
    }

    constructor (tables: Tables, codec: Codec, lower: wchar -> wchar)
      requires Correct(tables) && IntSized(codec)
      ensures Valid() && file == null && files == map[] && entries == []
      ensures this.tables == tables && this.codec == codec && this.lower == lower
    {
      this.tables, this.codec, this.lower := tables, codec, lower;
      file, key, header := null, seq(KEY_LENGTH, _ => 0), Header(0, 0, 0);
      files, entries, prefix, extents := map[], [], [], [];
    }

    predicate Writeable()
      reads this
    {
      file != null && file.writeable
    }

    /** The file and its layout are what they were. */
    twostate predicate Unchanged()
      reads this, file
    {
      && file == old(file) && key == old(key) && header == old(header)
      && files == old(files) && entries == old(entries) && extents == old(extents) && prefix == old(prefix)
      && (file != null ==> file.bytes == old(file.bytes))
    }

    /** What Open answers for any other index is what it was. */
    twostate predicate OthersKept(index: u32)
      reads this
    {
      forall other | other != index :: Contents(other) == old(Contents(other))
    }

    /** A file is gone and its extent free; nothing else has changed. */
    twostate predicate Removed(index: u32)
      requires index in old(files) && file != null && file == old(file)
      reads this, file
    {
      && files == old(files) - {index} && entries == FreeWithout(old(files), old(entries), index)
      && LiveOf(extents) == old(LiveOf(extents)) - {index} && |file.bytes| == old(|file.bytes|)
      && Holds(Freed(old(files)[index]), header.bytesPerBlock, ENTRY_SIZE + old(files)[index].finalSize)
      && Contents(index) == None && OthersKept(index)
    }

    method Delete(index: u32) returns (ok: bool)
      requires Valid()
      modifies this`files, this`entries, this`extents, file
      ensures Valid() && ok == (old(Writeable()) && index in old(files))
      ensures !ok ==> Unchanged()
      ensures ok ==> Removed(index)
    {
      hide Correct, IntSized, Laid, LiveOf, EntryBytes, Overwrite, Headed, Opened;
      if file == null || !file.writeable {
        return false;
      }
      if index !in files {
        return false;
      }
      var entry := files[index];
      ghost var ys := FreeStep(file.bytes, prefix, extents, header.bytesPerBlock, files, entries, index, Freed(entry));
      files := files - {index};
      entry := Freed(entry);
      WriteAt(file, entry.offset - ENTRY_SIZE, EntryBytes(entry));
      entries := entries + [entry];
      OpenedWithout(codec, key, extents, ys, index);
      extents := ys;
      return true;
    }

    /** The part that Write and WriteRawData have in common: find the extent, write the entry and the
        payload, and take the extent over into the map. */
    method Store(info: Info, text: seq<bv8>, payload: seq<bv8>, memory: nat -> bv8) returns (idx: nat, ghost y: Extent, ghost grown: nat)
      requires Valid() && Writeable() && info.index !in files && |text| <= NAME_SIZE && |payload| < TWO32
      modifies this`files, this`entries, this`extents, file
      ensures entries == Remaining(old(entries), idx)
      ensures Allocated(old(entries), header.bytesPerBlock, |old(file.bytes)|, |payload|,
                        idx, y.entry.numBlocks, y.entry.offset, grown)
      ensures y.entry.info == info.(filename := y.entry.info.filename)
      ensures files == old(files)[info.index := y.entry]
      ensures Space(old(entries), header.bytesPerBlock, |old(file.bytes)|, |payload|) ==>
        && Valid() && Payload(y) == payload && LiveOf(extents) == old(LiveOf(extents))[info.index := y]
        && |file.bytes| == |old(file.bytes)| + grown
    {
      assert header.bytesPerBlock > 1;
      hide Correct, IntSized, LiveOf, Headed, Payload, Laid, Allocated, Space, Remaining;
      var e;
      ghost var ys;
      idx, e, ys, y, grown := Place(file, prefix, extents, header.bytesPerBlock, files, entries, info, text, payload, memory);
      extents := if Space(entries, header.bytesPerBlock, |old(file.bytes)|, |payload|) then ys else extents;
      entries := Remaining(entries, idx);
      files := files[info.index := e];
    }

    /** Whether a payload finds a place once what its index holds is deleted. */
    ghost predicate SpaceFor(index: u32, size: nat)
      reads this, file
    {
      && file != null && header.bytesPerBlock > 0
      && Space(FreeWithout(files, entries, index), header.bytesPerBlock, |file.bytes|, size)
    }

    /** An index holds a new payload of some size. The file grows only if no free extent holds it, so never
        when the extent that the index had before holds it. */
    twostate predicate Replaced(info: Info, size: nat)
      reads this, file
    {
      var index, bpb, free := info.index, header.bytesPerBlock, FreeWithout(old(files), old(entries), info.index);
      && file != null && file == old(file) && bpb > 0 && header == old(header)
      && index in files && files == old(files)[index := files[index]]
      && files[index].info == info.(filename := files[index].info.filename)
      && (old(SpaceFor(index, size)) ==>
           && Valid()
           && Chosen(free, bpb, |old(file.bytes)|, size + ENTRY_SIZE, entries, |file.bytes|,
                     files[index].numBlocks, files[index].offset))
      && (index in old(files) && Product(old(files)[index].numBlocks, bpb) >= size + ENTRY_SIZE ==>
           Valid() && |file.bytes| == |old(file.bytes)|)
    }

    /** Delete what an index holds and store a payload under it. */
    method Replace(info: Info, text: seq<bv8>, payload: seq<bv8>, memory: nat -> bv8) returns (ghost y: Extent)
      requires Valid() && Writeable() && |text| <= NAME_SIZE && |payload| < TWO32
      modifies this`files, this`entries, this`extents, file
      ensures y.entry.info == info.(filename := y.entry.info.filename)
      ensures Replaced(info, |payload|)
      ensures old(SpaceFor(info.index, |payload|)) ==>
        Payload(y) == payload && LiveOf(extents) == old(LiveOf(extents))[info.index := y]
    {
      hide Correct, IntSized, LiveOf, Headed, Payload, Laid, Allocated, Space, Remaining, Product, Renamed, Chosen;
      assert header.bytesPerBlock > 1 by { BlockSize(); }
      ghost var size := |file.bytes|;
      var deleted := Delete(info.index);
      ghost var free := entries;
      var idx;
      ghost var grown;
      idx, y, grown := Store(info, text, payload, memory);
      if deleted {
        PutBack(old(files), info.index, y.entry);
        PutBack(old(LiveOf(extents)), info.index, y);
        ghost var freed := Freed(old(files)[info.index]);
        if Product(freed.numBlocks, header.bytesPerBlock) >= |payload| + ENTRY_SIZE {
          FitsFreed(old(entries), freed, header.bytesPerBlock, size, |payload|, idx, y.entry.numBlocks, y.entry.offset, grown);
        }
      }
      if Space(free, header.bytesPerBlock, size, |payload|) {
        ChosenAllocated(free, header.bytesPerBlock, size, |payload|, idx, y.entry.numBlocks, y.entry.offset, grown);
      }
    }

    lemma BlockSize()
      requires Consistent()
      ensures header.bytesPerBlock > 1 && |file.bytes| < TWO63
    {}

    /** Compress and encrypt. */
    method Pack(data: seq<bv8>, flags: bv8) returns (buffer: seq<bv8>, f: bv8, crypted: seq<bv8>)
      requires Correct(tables) && IntSized(codec) && |data| < TWO32
      ensures (buffer, f) == Packed(codec, data, flags) && crypted == Stored(key, buffer, f)
      ensures |buffer| < TWO32 && |crypted| < TWO32
    {
      hide Correct, IsCompressed, IsCrypted, Uncompressed, CryptHelper.CipherText, CryptHelper.IvOf;
      buffer, f := Compress(codec, data, flags);
      ArchiveIvLength();
      CryptHelper.CipherLength(key, Iv(), buffer);
      if IsCrypted(f) {
        crypted := CryptHelper.Encrypt(tables, buffer, ARCHIVE_IV, key);
      } else {
        crypted := buffer;
      }
    }

    /** Whether Write has something to do: the index is new or holds other contents. */
    predicate Fresh(index: u32, hash: u32)
      reads this
    {
      index in files ==> files[index].info.hash != hash
    }

    method Write(filename: seq<wchar>, data: seq<bv8>, flags: bv8, version: u32, memory: nat -> bv8)
        returns (ok: bool, ghost info: Info, ghost buffer: seq<bv8>, ghost stored: seq<bv8>)
      requires Valid() && |data| < TWO32 && |filename| < 255
      modifies this`files, this`entries, this`extents, file
      ensures ok == old(Writeable())
      ensures !ok || !old(Fresh(NameIndex(lower, filename), Hash(data))) ==> Unchanged() && Valid()
      ensures ok && old(Fresh(NameIndex(lower, filename), Hash(data))) ==>
        && info.index == NameIndex(lower, filename) && info.version == version
        && Describes(codec, key, info, data, flags, buffer, stored)
        && Replaced(info, |stored|)
        && (old(SpaceFor(info.index, |stored|)) ==>
             && (Lossless(codec) && Decryptable(buffer, info.flags) ==> Contents(info.index) == Some(data))
             && OthersKept(info.index))
    {
      hide Correct, IntSized, LiveOf, Headed, Payload, Laid, Space, Hash, Packed, Stored, NameIndex, Opened, Chosen, Product,
        FreeWithout, Lossless;
      buffer, stored, info := [], [], Info(0, 0, 0, 0, 0, 0, 0, BLANK_NAME);
      if file == null || !file.writeable {
        return false, info, buffer, stored;
      }
      var index := GenerateNameIndex(lower, filename);
      var hash := HashOf(data);
      if index in files && files[index].info.hash == hash {
        return true, info, buffer, stored;
      }
      var compressed, f, crypted := Pack(data, flags);
      var fields := Info(index, hash, version, f, |data|, |compressed|, |crypted|, BLANK_NAME);
      info, buffer, stored := fields, compressed, crypted;
      ghost var y := Replace(fields, WideBytes(filename) + [0, 0], crypted, memory);
      if old(SpaceFor(index, |crypted|)) {
        OpenedOthers(codec, key, old(extents), extents, index, y);
        if Lossless(codec) && Decryptable(compressed, f) {
          OpenedStored(codec, key, extents, data, flags, index);
        }
      }
      ok := true;
    }

    /** What the entries say of the files, in some order. */
    method EnumerateFiles() returns (infos: seq<Info>)
      ensures |infos| == |files| && forall index | index in files :: files[index].info in infos
      ensures forall info | info in infos :: exists index | index in files :: info == files[index].info
    {
      infos := [];
      var left := files;
      while left != map[]
        invariant left.Keys <= files.Keys && |infos| + |left| == |files|
        invariant forall index | index in files :: index in left || files[index].info in infos
        invariant forall info | info in infos :: exists index | index in files :: info == files[index].info
        decreases |left|
      {
        var index :| index in left;
        assert left.Keys == (left - {index}).Keys + {index};
        infos, left := infos + [files[index].info], left - {index};
      }
    }

    /** The contents of a file, or nothing when a size or the hash does not agree. */
    method Open(index: u32) returns (r: Option<seq<bv8>>)
      requires Valid()
      ensures r == if file == null then None else Contents(index)
      ensures r.Some? ==> index in files && Hash(r.value) == files[index].info.hash
    {
      hide Correct, IntSized, Headed, IsCrypted, IsCompressed, Hash, CryptHelper.CipherText, CryptHelper.PlainText, CryptHelper.IvOf, Laid, LiveOf;
      if file == null || index !in files {
        FilesLive();
        return None;
      }
      var e := files[index];
      ReadPlace(index);
      if e.offset + e.finalSize > |file.bytes| {
        return None;
      }
      var rawdata := file.bytes[e.offset..e.offset + e.finalSize];
      var decrypted := rawdata;
      if IsCrypted(e.info.flags) {
        ArchiveIvLength();
        decrypted := CryptHelper.Decrypt(tables, rawdata, ARCHIVE_IV, key);
      }
      var decompressed := decrypted;
      if IsCompressed(e.info.flags) {
        var (data, size) := codec.decompress(decrypted, e.info.rawsize);
        if size % TWO32 != e.info.compressedsize {
          return None;
        }
        decompressed := data;
      }
      var hash := HashOf(decompressed);
      if hash != e.info.hash {
        return None;
      }
      return Some(decompressed);
    }

    lemma FilesLive()
      requires Valid()
      ensures file != null ==> files.Keys == LiveOf(extents).Keys
    {}

    /** Where a file is stored. */
    lemma ReadPlace(index: u32)
      requires Consistent() && index in files
      ensures index in LiveOf(extents) && files[index] == LiveOf(extents)[index].entry
      ensures
        var e := files[index];
        e.offset + e.finalSize <= |file.bytes| && ENTRY_SIZE + e.finalSize < TWO32
        && file.bytes[e.offset..e.offset + e.finalSize] == Payload(LiveOf(extents)[index])
    {
      PayloadPlace(file.bytes, prefix, extents, header.bytesPerBlock, index);
    }

    lemma FileIndex(index: u32)
      requires Consistent() && index in files
      ensures files[index].info.index == index
    {
      var i := FindLive(extents, index);
    }

    /** Store an entry and the payload behind it as another archive holds them. nameLength is where the
        name of the entry ends. */
    method WriteRawData(ent: Entry, rest: seq<bv8>, nameLength: nat, memory: nat -> bv8) returns (ok: bool)
      requires Valid() && (Writeable() ==> |rest| >= ent.finalSize && EndsAfter(ent.info.filename, nameLength))
      modifies this`files, this`entries, this`extents, file
      ensures ok == old(Writeable())
      ensures !ok ==> Unchanged() && Valid()
      ensures ok ==> Replaced(ent.info, ent.finalSize)
      ensures ok && old(SpaceFor(ent.info.index, ent.finalSize)) ==>
        && OthersKept(ent.info.index)
        && Contents(ent.info.index) == Unpacked(codec, key, ent.info, rest[..ent.finalSize])
    {
      hide Correct, IntSized, LiveOf, Headed, Payload, Laid, Space, Opened, Chosen, Product, FreeWithout, Unpacked;
      if file == null || !file.writeable {
        return false;
      }
      var payload := rest[..ent.finalSize];
      ghost var y := Replace(ent.info, Text(ent.info.filename, nameLength), payload, memory);
      if old(SpaceFor(ent.info.index, ent.finalSize)) {
        OpenedOthers(codec, key, old(extents), extents, ent.info.index, y);
        OpenedRaw(codec, key, extents, ent.info, payload);
      }
      ok := true;
    }

    /** The entry of a file and, behind it, what a mapped view of the archive shows, cut at maxlength; nothing
        is copied unless there is room for more than the entry. A file of size 0 maps the whole archive. */
    method ReadRawData(index: u32, maxlength: u32, granularity: nat, beyond: nat -> bv8)
        returns (blocksize: u32, buffer: seq<bv8>)
      requires Valid() && granularity > 0
      ensures file == null || index !in files ==> blocksize == 0 && buffer == []
      ensures file != null && index in files ==>
        && ENTRY_SIZE + files[index].finalSize < TWO32
        && (maxlength <= ENTRY_SIZE ==> blocksize == ENTRY_SIZE + files[index].finalSize && buffer == [])
        && (maxlength > ENTRY_SIZE ==>
             var e := files[index];
             var all := EntryBytes(e) + View(file.bytes, e.offset, e.finalSize, granularity, beyond);
             && blocksize == |all| % TWO32
             && buffer == if maxlength < |all| then all[..maxlength] else all)
    {
      hide Correct, IntSized, Headed, EntryBytes, Laid, LiveOf, Payload, View;
      if file == null || index !in files {
        return 0, [];
      }
      var e := files[index];
      ReadPlace(index);
      blocksize, buffer := ENTRY_SIZE + e.finalSize, [];
      if maxlength > ENTRY_SIZE {
        var view := View(file.bytes, e.offset, e.finalSize, granularity, beyond);
        blocksize := (ENTRY_SIZE + |view|) % TWO32;
        var n := if maxlength - ENTRY_SIZE < |view| then maxlength - ENTRY_SIZE else |view|;
        buffer := EntryBytes(e) + view[..n];
      }
    }

    method Unload()
      modifies this
      ensures file == null && files == map[] && entries == []
    {
      key := seq(KEY_LENGTH, _ => 0);
      entries, files := [], map[];
      header := Header(0, 0, 0);
      file := null;
    }

    /** Read an archive. The ghost arguments are a layout the file is known to have, if there is one; stack is
        what memory holds where an entry is torn. */
    method Load(f: File?, keydata: Key, ghost pre: seq<bv8>, ghost xs: seq<Extent>, stack: Stack)
        returns (ok: bool)
      requires (f != null ==> Loadable(f.bytes, stack))
      modifies this, f
      ensures f != null ==> f.bytes == old(f.bytes)
      ensures ok == (f != null && HasHeader(f.bytes))
      ensures ok ==> file == f && key == keydata && header == HeaderAt(f.bytes) && LoadedFrom(f.bytes, files, entries, stack)
      ensures ok && Laid(f.bytes, pre, xs, header.bytesPerBlock, FilesOf(xs), FreeOf(xs)) && Headed(pre, header)
                 && 0 !in LiveOf(xs)
        ==> Consistent() && extents == xs && entries == FreeOf(xs)
      ensures !ok ==> files == map[] && entries == []
    {
      hide HeaderOf, LoadedFrom, Laid, Headed, Loadable;
      Unload();
      if f == null {
        return false;
      }
      file := f;
      key := keydata;
      f.SetPosition(0);
      var data := f.Read(HEADER_SIZE);
      if |data| != HEADER_SIZE {
        key := seq(KEY_LENGTH, _ => 0);
        return false;
      }
      assert data == f.bytes[..HEADER_SIZE];
      header := HeaderOf(data);
      if header.magic != MAGIC {
        file := null;
        key := seq(KEY_LENGTH, _ => 0);
        return false;
      }
      files, entries := ReadEntries(f, header, stack);
      prefix, extents := pre, xs;
      if Laid(f.bytes, pre, xs, header.bytesPerBlock, FilesOf(xs), FreeOf(xs)) && Headed(pre, header) && 0 !in LiveOf(xs) {
        LoadedLaid(f.bytes, header, pre, xs, files, entries, stack);
      }
      ok := true;
    }

    /** Loading the file of a consistent archive ends, and gives its map and its free extents exactly when no
        live file has index 0. */
    lemma Reloads(loaded: map<u32, Entry>, free: seq<Entry>, stack: Stack)
      requires Consistent()
      ensures HasHeader(file.bytes) && HeaderAt(file.bytes) == header && Loadable(file.bytes, stack)
      ensures LoadedFrom(file.bytes, loaded, free, stack) ==>
        (loaded == files && multiset(free) == multiset(entries) <==> 0 !in files)
    {
      HeaderOfBytes(header);
      assert file.bytes[..HEADER_SIZE] == prefix[..HEADER_SIZE];
      hide Tiled, LiveOf, FilesOf, FreeOf, LoadedFrom, HeaderOf, HeaderBytes, Distinct, Image, Loadable;
      LoadedConsistent(file.bytes, header, prefix, extents, loaded, free, stack);
      FilesKeys(extents);
    }

    /** The file of a consistent archive can be loaded and has its layout. */
    lemma Loads(stack: Stack)
      requires Consistent()
      ensures HasHeader(file.bytes) && HeaderAt(file.bytes) == header && Loadable(file.bytes, stack)
      ensures Laid(file.bytes, prefix, extents, header.bytesPerBlock, FilesOf(extents), FreeOf(extents)) && Headed(prefix, header)
    {
      Reloads(files, entries, stack);
    }

    /** Open an archive, or start a new one in a file that is none. Bytes of such a file beyond the first
        entry stay where they are, so that the new archive is consistent exactly when there are none. */
    method Create(f: File?, keydata: Key, pageSize: u32, memory: nat -> bv8, ghost pre: seq<bv8>,
                  ghost xs: seq<Extent>, stack: Stack) returns (ok: bool)
      requires (f != null && f.writeable ==> Loadable(f.bytes, stack)) && pageSize < INT_LIMIT
      modifies this, f
      ensures ok == (f != null && f.writeable)
      ensures ok && !old(HasHeader(f.bytes)) ==>
        && file == f && key == keydata && files == map[] && entries == [] && extents == []
        && header == NewHeader(pageSize)
        && |file.bytes| == (if |old(f.bytes)| < header.firstEntry then header.firstEntry as nat else |old(f.bytes)|)
        && (pageSize != 1 ==> (Consistent() <==> |old(f.bytes)| <= header.firstEntry))
      ensures ok && old(HasHeader(f.bytes)) ==>
        && file == f && f.bytes == old(f.bytes) && key == keydata && header == HeaderAt(f.bytes)
        && LoadedFrom(f.bytes, files, entries, stack)
        && (Laid(f.bytes, pre, xs, header.bytesPerBlock, FilesOf(xs), FreeOf(xs)) && Headed(pre, header) && 0 !in LiveOf(xs)
            ==> Consistent() && extents == xs && entries == FreeOf(xs))
    {
      if f == null || !f.writeable {
        return false;
      }
      var loaded := Load(f, keydata, pre, xs, stack);
      if !loaded {
        file := f;
        key := keydata;
        header := NewHeader(pageSize);
        HeaderRoom(pageSize);
        StartFile(f, header, memory);
        prefix, extents := f.bytes[..header.firstEntry], [];
        hide Laid, Headed, HeaderBytes, NewHeader;
        LaidEmpty(f.bytes, header);
      }
      ok := true;
    }

    /** Any run of operations keeps the archive consistent, whatever they do to it, as long as the sizes stay
        in range: payloads below 2^31, and a file that cannot reach 2^63 bytes. */
    method Run(ops: seq<Op>, memory: nat -> bv8)
      requires Valid() && Writeable() && header.bytesPerBlock <= MAX_BLOCK
      requires |file.bytes| + |ops| * TWO32 < TWO63
      requires forall op | op in ops :: InRange(op)
      modifies this`files, this`entries, this`extents, file
      ensures Valid() && Consistent() && header == old(header) && key == old(key)
      ensures |file.bytes| <= |old(file.bytes)| + |ops| * TWO32
      ensures forall index | index in files :: index in old(files) || exists op | op in ops :: Adds(lower, op, index)
    {
      hide Laid, Headed, LiveOf, Correct, IntSized, Space, Chosen, Packed, Stored, Hash, NameIndex, Opened, Product, FreeWithout;
      for i := 0 to |ops|
        invariant Valid() && Writeable()
        invariant |file.bytes| <= |old(file.bytes)| + i * TWO32
        invariant forall index | index in files :: index in old(files) || exists op | op in ops :: Adds(lower, op, index)
      {
        assert InRange(ops[i]);
        Step(ops[i], memory);
      }
    }

    method PutStep(name: seq<wchar>, data: seq<bv8>, flags: bv8, version: u32, memory: nat -> bv8)
      requires Valid() && Writeable() && header.bytesPerBlock <= MAX_BLOCK && InRange(Put(name, data, flags, version))
      requires |file.bytes| + TWO32 < TWO63
      modifies this`files, this`entries, this`extents, file
      ensures Valid() && |file.bytes| <= |old(file.bytes)| + TWO32
      ensures files.Keys <= old(files).Keys + {NameIndex(lower, name)}
    {
      hide Headed, Correct, IntSized, Packed, Stored, Hash, NameIndex, EndsAfter, OthersKept, Lossless, Decryptable, Contents,
        Unpacked, Align, FreeWithout, Space, BestFit, Product;
      assert header.bytesPerBlock > 1;
      hide Laid;
      ghost var free, size := FreeWithout(files, entries, NameIndex(lower, name)), |file.bytes|;
      var ok;
      ghost var info, buffer, stored;
      ok, info, buffer, stored := Write(name, data, flags, version, memory);
      if old(Fresh(NameIndex(lower, name), Hash(data))) {
        StoredSize(codec, key, data, flags);
        SpaceInRange(free, header.bytesPerBlock, size, |stored|);
      }
    }

    method RawStep(ent: Entry, rest: seq<bv8>, nameLength: nat, memory: nat -> bv8)
      requires Valid() && Writeable() && header.bytesPerBlock <= MAX_BLOCK && InRange(PutRaw(ent, rest, nameLength))
      requires |file.bytes| + TWO32 < TWO63
      modifies this`files, this`entries, this`extents, file
      ensures Valid() && |file.bytes| <= |old(file.bytes)| + TWO32
      ensures files.Keys <= old(files).Keys + {ent.info.index}
    {
      hide Headed, Correct, IntSized, Packed, Stored, Hash, NameIndex, EndsAfter, OthersKept, Lossless, Decryptable, Contents,
        Unpacked, Align, FreeWithout, Space, BestFit, Product;
      assert header.bytesPerBlock > 1;
      hide Laid;
      SpaceInRange(FreeWithout(files, entries, ent.info.index), header.bytesPerBlock, |file.bytes|, ent.finalSize);
      var ok := WriteRawData(ent, rest, nameLength, memory);
    }

    method RemoveStep(index: u32)
      requires Valid() && Writeable()
      modifies this`files, this`entries, this`extents, file
      ensures Valid() && |file.bytes| == |old(file.bytes)|
      ensures files.Keys <= old(files).Keys
    {
      hide Laid, Headed, Correct, IntSized, OthersKept, Contents, LiveOf;
      var ok := Delete(index);
    }

    method Step(op: Op, memory: nat -> bv8)
      requires Valid() && Writeable() && header.bytesPerBlock <= MAX_BLOCK && InRange(op)
      requires |file.bytes| + TWO32 < TWO63
      modifies this`files, this`entries, this`extents, file
      ensures Valid() && |file.bytes| <= |old(file.bytes)| + TWO32
      ensures forall index | index in files :: index in old(files) || Adds(lower, op, index)
    {
      hide Laid, Headed, Correct, IntSized, EndsAfter;
      match op
      case Put(name, data, flags, version) => PutStep(name, data, flags, version, memory);
      case Remove(index) => RemoveStep(index);
      case PutRaw(ent, rest, nameLength) => RawStep(ent, rest, nameLength, memory);
    }
  }

  /** From a new archive on: after any run of operations that puts no file under index 0, the file can be loaded
      into another archive, which has the same files, free extents and layout. */
  method RunAndLoad(a: Archive, again: Archive, f: File, keydata: Key, pageSize: u32, ops: seq<Op>,
                    memory: nat -> bv8, stack: Stack)
    requires a.Valid() && again.Valid() && a != again && f.writeable && !HasHeader(f.bytes)
    requires pageSize <= MAX_BLOCK && pageSize != 1 && |f.bytes| <= NewHeader(pageSize).firstEntry
    requires TWO32 + |ops| * TWO32 < TWO63 && forall op | op in ops :: InRange(op) && !Adds(a.lower, op, 0)
    modifies a, again, f
    ensures a.Consistent() && again.Consistent() && a.file == again.file == f
    ensures again.files == a.files && multiset(again.entries) == multiset(a.entries) && again.extents == a.extents
  {
    hide Correct, IntSized, NewHeader, Laid, Headed, LiveOf, InRange, Adds, LoadedFrom, HasHeader;
    var created := a.Create(f, keydata, pageSize, memory, [], [], stack);
    NewHeaderBlocks(pageSize);
    a.Run(ops, memory);
    a.FilesLive();
    a.Loads(stack);
    hide Loadable;
    var loaded := again.Load(f, keydata, a.prefix, a.extents, stack);
    SameMemory(a, again);
  }

  /** What the memory of a consistent archive holds is determined by its extents. */
  lemma SameMemory(a: Archive, b: Archive)
    requires a.Consistent() && b.Consistent() && a.extents == b.extents
    ensures a.files == b.files && multiset(a.entries) == multiset(b.entries)
  {
    hide Headed, Tiled, Image, Distinct, FilesOf, FreeOf;
  }

  /** A file without extents is one that ends at its first entry. */
  lemma LaidEmpty(bytes: seq<bv8>, h: Header)
    requires HEADER_SIZE <= h.firstEntry <= |bytes| && h.magic == MAGIC && bytes[..HEADER_SIZE] == HeaderBytes(h)
    ensures Headed(bytes[..h.firstEntry], h)
    ensures h.bytesPerBlock > 1 ==>
      (Laid(bytes, bytes[..h.firstEntry], [], h.bytesPerBlock, map[], []) <==> |bytes| == h.firstEntry)
  {}

  /** Blocks of a page, or of 4096 bytes when the page size is not known; the first entry after the header. */
  function NewHeader(pageSize: u32): Header
    requires pageSize < INT_LIMIT
  {
    var bpb: u32 := if pageSize == 0 then 4096 else pageSize;
    Header(MAGIC, bpb, Align(HEADER_SIZE, bpb) % TWO32)
  }

  lemma NewHeaderBlocks(pageSize: u32)
    requires pageSize <= MAX_BLOCK
    ensures NewHeader(pageSize).bytesPerBlock <= MAX_BLOCK
  {}

  lemma HeaderRoom(pageSize: u32)
    requires pageSize < INT_LIMIT
    ensures NewHeader(pageSize).firstEntry > HEADER_SIZE
  {}

  lemma LoadedLaid(bytes: seq<bv8>, h: Header, pre: seq<bv8>, xs: seq<Extent>, files: map<u32, Entry>,
                   entries: seq<Entry>, stack: Stack)
    requires Laid(bytes, pre, xs, h.bytesPerBlock, FilesOf(xs), FreeOf(xs)) && Headed(pre, h) && 0 !in LiveOf(xs)
    requires HasHeader(bytes) && HeaderAt(bytes) == h && LoadedFrom(bytes, files, entries, stack)
    ensures Laid(bytes, pre, xs, h.bytesPerBlock, files, entries) && entries == FreeOf(xs)
  {
    hide Tiled, LiveOf, FilesOf, FreeOf, LoadedFrom, HeaderOf, HeaderBytes, Distinct, Image;
    LoadedConsistent(bytes, h, pre, xs, files, entries, stack);
  }

  lemma PutBack<K, V>(m: map<K, V>, k: K, v: V)
    ensures (m - {k})[k := v] == m[k := v]
  {}

  const BLANK_NAME: Name := seq(NAME_SIZE, _ => 0)

  lemma OverwriteAtEnd(bytes: seq<bv8>, d: seq<bv8>)
    ensures Overwrite(bytes, |bytes|, d) == bytes + d
  {}
}
