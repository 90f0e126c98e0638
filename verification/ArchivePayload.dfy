/** How the contents of a file are compressed, encrypted and checked. LZ4 is given by function values. */
module ArchivePayload {
  import opened AesSpec
  import opened ArchiveFormat
  import opened Chunking
  import opened CryptHelper
  import opened LittleEndian
  import opened XxHash32

  const ARCHIVE_IV := "000102030405060708090A0B0C0D0E0F"
  const KEY_LENGTH := 32

  type Key = k: seq<bv8> | |k| == KEY_LENGTH witness seq(KEY_LENGTH, _ => 0)

  datatype Option<T> = None | Some(value: T)

  /** LZ4_compressBound, LZ4_compress_HC (nothing when it fails) and LZ4_decompress_fast, which is told
      the original size and answers the data and the number of bytes it has read. */
  datatype Codec = Codec(
    bound: nat -> nat, compress: seq<bv8> -> seq<bv8>, decompress: (seq<bv8>, nat) -> (seq<bv8>, int))

  ghost predicate Lossless(codec: Codec) {
    forall d :: codec.compress(d) != [] ==> codec.decompress(codec.compress(d), |d|) == (d, |codec.compress(d)|)
  }

  /** LZ4_compress_HC answers an int. */
  ghost predicate IntSized(codec: Codec) {
    forall d :: |codec.compress(d)| < INT_LIMIT
  }

  function IsCompressed(flags: bv8): bool { flags & 1 != 0 }

  function IsCrypted(flags: bv8): bool { flags & 2 != 0 }

  function Uncompressed(flags: bv8): bv8 { flags & 0xFE }

  lemma ClearedFlag(flags: bv8)
    ensures !IsCompressed(Uncompressed(flags)) && IsCrypted(Uncompressed(flags)) == IsCrypted(flags)
  {}

  function HashNumber(h: bv32): u32 { h as int }

  function Hash(data: seq<bv8>): u32 { HashNumber(XXH32(data, 0)) }

  // ---------- writing ----------

  /** The compressed data and the flags; what does not shrink below the bound is stored as it is. */
  function Packed(codec: Codec, data: seq<bv8>, flags: bv8): (seq<bv8>, bv8) {
    var c := codec.compress(data);
    if IsCompressed(flags) && 0 < |c| < codec.bound(|data|) then (c, flags) else (data, Uncompressed(flags))
  }

  method Compress(codec: Codec, data: seq<bv8>, flags: bv8) returns (buffer: seq<bv8>, f: bv8)
    ensures (buffer, f) == Packed(codec, data, flags)
  {
    hide IsCompressed, Uncompressed;
    var capacity := codec.bound(|data|);
    var compressedsize := 0;
    buffer, f := [], flags;
    if IsCompressed(flags) {
      var compressed := codec.compress(data);
      compressedsize := |compressed|;
      if compressedsize >= capacity || compressedsize == 0 {
        buffer, f := data, Uncompressed(f);
      } else {
        buffer := compressed;
      }
    }
    if compressedsize == 0 {
      ClearedTwice(flags);
      buffer, f := data, Uncompressed(f);
    }
  }

  lemma ClearedTwice(flags: bv8)
    ensures Uncompressed(Uncompressed(flags)) == Uncompressed(flags)
  {}

  ghost function Iv(): Block {
    ArchiveIvLength();
    IvOf(ARCHIVE_IV)
  }

  lemma ArchiveIvLength()
    ensures |ARCHIVE_IV| == 2 * BLOCK && IsAscii(ARCHIVE_IV)
  {}

  ghost function Stored(key: Key, buffer: seq<bv8>, flags: bv8): seq<bv8>
  {
    if IsCrypted(flags) then CipherText(key, Iv(), buffer) else buffer
  }

  lemma StoredSize(codec: Codec, key: Key, data: seq<bv8>, flags: bv8)
    requires IntSized(codec) && |data| < INT_LIMIT
    ensures var (buffer, f) := Packed(codec, data, flags); |Stored(key, buffer, f)| <= INT_LIMIT + BLOCK
  {
    hide CipherText, IvOf, IsCompressed, IsCrypted, Uncompressed;
    CipherLength(key, Iv(), Packed(codec, data, flags).0);
  }

  // ---------- reading ----------

  /** The contents from the stored bytes, when sizes and hash agree. */
  ghost function Unpacked(codec: Codec, key: Key, e: Info, raw: seq<bv8>): Option<seq<bv8>>
  {
    var decrypted := if IsCrypted(e.flags) then PlainText(key, Iv(), raw) else raw;
    var (data, size) := codec.decompress(decrypted, e.rawsize);
    if IsCompressed(e.flags) && size % UINT_LIMIT != e.compressedsize then None
    else
      var decompressed := if IsCompressed(e.flags) then data else decrypted;
      if Hash(decompressed) == e.hash then Some(decompressed) else None
  }

  /** Stored bytes open as some contents exactly when those have the hash of the entry and are what the flags
      say: the bytes themselves, decrypted if bit 1 is set, and decompressed if bit 0 is set, where the codec must
      have read as many bytes as the entry says. */
  lemma UnpackedExactly(codec: Codec, key: Key, e: Info, raw: seq<bv8>, data: seq<bv8>)
    ensures Unpacked(codec, key, e, raw) == Some(data) <==>
      && Hash(data) == e.hash
      && var plain := if e.flags & 2 == 2 then PlainText(key, Iv(), raw) else raw;
         if e.flags & 1 == 1 then
           data == codec.decompress(plain, e.rawsize).0
           && codec.decompress(plain, e.rawsize).1 % UINT_LIMIT == e.compressedsize
         else data == plain
  {
    hide PlainText, Hash, IvOf, CipherText;
    FlagBits(e.flags);
  }

  lemma FlagBits(flags: bv8)
    ensures IsCompressed(flags) <==> flags & 1 == 1
    ensures IsCrypted(flags) <==> flags & 2 == 2
  {}

  /** So damaged bytes open only if their contents have the same hash. */
  lemma UnpackedHash(codec: Codec, key: Key, e: Info, raw: seq<bv8>)
    ensures Unpacked(codec, key, e, raw).Some? ==> Hash(Unpacked(codec, key, e, raw).value) == e.hash
  {
    hide Unpacked, Hash;
    if Unpacked(codec, key, e, raw).Some? {
      UnpackedExactly(codec, key, e, raw, Unpacked(codec, key, e, raw).value);
    }
  }

  /** Encryption is undone when the sizes stay below 2^31. */
  predicate Decryptable(buffer: seq<bv8>, flags: bv8) {
    IsCrypted(flags) ==> |buffer| < INT_LIMIT - BLOCK
  }

  lemma DecryptedStored(key: Key, buffer: seq<bv8>, flags: bv8)
    requires IsCrypted(flags)
    ensures PlainText(key, Iv(), Stored(key, buffer, flags)) == buffer <==> Decryptable(buffer, flags)
  {
    hide CipherText, PlainText, IvOf, IsCrypted;
    PlainOfCipher(key, Iv(), buffer);
  }

  /** Whatever was stored is read back as the data, for all four combinations of compression and
      encryption; without compression, the size limit of encryption is necessary too. */
  lemma UnpackedPacked(codec: Codec, key: Key, data: seq<bv8>, flags: bv8, e: Info)
    requires Lossless(codec)
    requires e.flags == Packed(codec, data, flags).1 && e.hash == Hash(data) && e.rawsize == |data|
    requires e.compressedsize == |Packed(codec, data, flags).0|
    ensures
      var buffer := Packed(codec, data, flags).0;
      var raw := Stored(key, buffer, e.flags);
      && (Decryptable(buffer, e.flags) ==> Unpacked(codec, key, e, raw) == Some(data))
      && (Unpacked(codec, key, e, raw) == Some(data) && !IsCompressed(e.flags) ==> Decryptable(buffer, e.flags))
  {
    hide CipherText, PlainText, IvOf, IsCrypted, IsCompressed, Uncompressed, Hash;
    ClearedFlag(flags);
    var (buffer, f) := Packed(codec, data, flags);
    if IsCrypted(f) {
      DecryptedStored(key, buffer, f);
    }
  }

  /** The name plays no part in reading. */
  lemma UnpackedRenamed(codec: Codec, key: Key, e: Info, name: Name, raw: seq<bv8>)
    ensures Unpacked(codec, key, e.(filename := name), raw) == Unpacked(codec, key, e, raw)
  {
    hide PlainText, Hash, IvOf;
  }
}
