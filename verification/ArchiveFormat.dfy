/** The packed records of an archive file. */
module ArchiveFormat {
  import opened LittleEndian

  const MAGIC: u32 := 0x3169
  const HEADER_SIZE := 12
  const NAME_SIZE := 510
  const ENTRY_SIZE := 551

  type Name = s: seq<bv8> | |s| == NAME_SIZE witness seq(NAME_SIZE, _ => 0)

  datatype Header = Header(magic: u32, bytesPerBlock: u32, firstEntry: u32)

  /** SFileInformation; the name is 255 characters of two bytes. */
  datatype Info = Info(
    index: u32, hash: u32, version: u32, flags: bv8, rawsize: u32, compressedsize: u32, cryptedsize: u32, filename: Name)

  /** SFileEntry. */
  datatype Entry = Entry(info: Info, finalSize: u32, numBlocks: u32, offset: u64)

  function HeaderBytes(h: Header): (s: seq<bv8>)
    ensures |s| == HEADER_SIZE
  {
    Bytes32(h.magic) + Bytes32(h.bytesPerBlock) + Bytes32(h.firstEntry)
  }

  function HeaderOf(s: seq<bv8>): Header
    requires |s| == HEADER_SIZE
  {
    Header(Word32(s[..4]), Word32(s[4..8]), Word32(s[8..]))
  }

  lemma HeaderOfBytes(h: Header)
    ensures HeaderOf(HeaderBytes(h)) == h
  {
    hide Bytes32, Word32;
    Word32Bytes(h.magic);
    Word32Bytes(h.bytesPerBlock);
    Word32Bytes(h.firstEntry);
    var s := HeaderBytes(h);
    assert s[..4] == Bytes32(h.magic) && s[4..8] == Bytes32(h.bytesPerBlock) && s[8..] == Bytes32(h.firstEntry);
  }

  function NumbersBytes(i: Info): (s: seq<bv8>)
    ensures |s| == 25
  {
    Bytes32(i.index) + Bytes32(i.hash) + Bytes32(i.version) + [i.flags]
    + Bytes32(i.rawsize) + Bytes32(i.compressedsize) + Bytes32(i.cryptedsize)
  }

  function InfoBytes(i: Info): (s: seq<bv8>)
    ensures |s| == 25 + NAME_SIZE
  {
    NumbersBytes(i) + i.filename
  }

  function InfoOf(s: seq<bv8>): Info
    requires |s| == 25 + NAME_SIZE
  {
    Info(Word32(s[..4]), Word32(s[4..8]), Word32(s[8..12]), s[12],
         Word32(s[13..17]), Word32(s[17..21]), Word32(s[21..25]), s[25..])
  }

  function EntryBytes(e: Entry): (s: seq<bv8>)
    ensures |s| == ENTRY_SIZE
  {
    InfoBytes(e.info) + Bytes32(e.finalSize) + Bytes32(e.numBlocks) + Bytes64(e.offset)
  }

  function EntryOf(s: seq<bv8>): Entry
    requires |s| == ENTRY_SIZE
  {
    Entry(InfoOf(s[..535]), Word32(s[535..539]), Word32(s[539..543]), Word64(s[543..]))
  }

  lemma InfoOfBytes(i: Info)
    ensures InfoOf(InfoBytes(i)) == i
  {
    hide Bytes32, Word32;
    Word32Bytes(i.index);
    Word32Bytes(i.hash);
    Word32Bytes(i.version);
    Word32Bytes(i.rawsize);
    Word32Bytes(i.compressedsize);
    Word32Bytes(i.cryptedsize);
    var s := InfoBytes(i);
    assert s[..4] == Bytes32(i.index) && s[4..8] == Bytes32(i.hash) && s[8..12] == Bytes32(i.version);
    assert s[13..17] == Bytes32(i.rawsize) && s[17..21] == Bytes32(i.compressedsize);
    assert s[21..25] == Bytes32(i.cryptedsize) && s[25..] == i.filename;
  }

  /** What is written for an entry is read back as that entry. */
  lemma EntryOfBytes(e: Entry)
    ensures EntryOf(EntryBytes(e)) == e
  {
    hide Bytes32, Word32, Bytes64, Word64, InfoBytes, InfoOf;
    InfoOfBytes(e.info);
    Word32Bytes(e.finalSize);
    Word32Bytes(e.numBlocks);
    Word64Bytes(e.offset);
    var s := EntryBytes(e);
    assert s[..535] == InfoBytes(e.info);
    assert s[535..539] == Bytes32(e.finalSize) && s[539..543] == Bytes32(e.numBlocks) && s[543..] == Bytes64(e.offset);
  }

  /** Where each field of the header lies. */
  lemma HeaderOffsets(h: Header)
    ensures var s := HeaderBytes(h);
      s[0..4] == Bytes32(h.magic) && s[4..8] == Bytes32(h.bytesPerBlock) && s[8..12] == Bytes32(h.firstEntry)
  {
    hide Bytes32;
    var s := HeaderBytes(h);
    assert s[0..4] == Bytes32(h.magic) && s[4..8] == Bytes32(h.bytesPerBlock) && s[8..12] == Bytes32(h.firstEntry);
  }

  /** Where each field of an entry lies, in the order of the structures, without padding. */
  lemma EntryOffsets(e: Entry)
    ensures var s, i := EntryBytes(e), e.info;
      && s[0..4] == Bytes32(i.index) && s[4..8] == Bytes32(i.hash) && s[8..12] == Bytes32(i.version)
      && s[12] == i.flags && s[13..17] == Bytes32(i.rawsize) && s[17..21] == Bytes32(i.compressedsize)
      && s[21..25] == Bytes32(i.cryptedsize) && s[25..535] == i.filename
      && s[535..539] == Bytes32(e.finalSize) && s[539..543] == Bytes32(e.numBlocks) && s[543..551] == Bytes64(e.offset)
  {
    hide Bytes32, Bytes64, InfoBytes;
    InfoOffsets(e.info);
    var s, t := EntryBytes(e), InfoBytes(e.info);
    assert s[..535] == t;
    assert s[0..4] == t[0..4] && s[4..8] == t[4..8] && s[8..12] == t[8..12] && s[13..17] == t[13..17];
    assert s[17..21] == t[17..21] && s[21..25] == t[21..25] && s[25..535] == t[25..];
    assert s[535..539] == Bytes32(e.finalSize) && s[539..543] == Bytes32(e.numBlocks);
    assert s[543..551] == Bytes64(e.offset);
  }

  lemma InfoOffsets(i: Info)
    ensures var s := InfoBytes(i);
      && s[0..4] == Bytes32(i.index) && s[4..8] == Bytes32(i.hash) && s[8..12] == Bytes32(i.version)
      && s[12] == i.flags && s[13..17] == Bytes32(i.rawsize) && s[17..21] == Bytes32(i.compressedsize)
      && s[21..25] == Bytes32(i.cryptedsize) && s[25..] == i.filename
  {
    hide Bytes32;
    var s := InfoBytes(i);
    assert s[0..4] == Bytes32(i.index) && s[4..8] == Bytes32(i.hash) && s[8..12] == Bytes32(i.version);
    assert s[13..17] == Bytes32(i.rawsize) && s[17..21] == Bytes32(i.compressedsize);
    assert s[21..25] == Bytes32(i.cryptedsize) && s[25..] == i.filename;
  }
}
