/** Cipher block chaining over AES-256 as a step on streams, the two paddings, and the round trip. */
module Cbc {
  import opened AesImpl
  import opened AesKeys
  import opened AesSpec
  import opened ByteTables
  import opened Chunking
  import opened Columns
  import opened GaloisField
  import opened Quads
  import opened Words

  // ---------- blocks and bytes ----------

  /** The block laid out in sixteen bytes, a column after another; absent bytes read as zero. */
  function BlockOf(bytes: seq<bv8>): Block {
    Quad(ColumnAt(bytes, 0), ColumnAt(bytes, 4), ColumnAt(bytes, 8), ColumnAt(bytes, 12))
  }

  function ColumnAt(bytes: seq<bv8>, i: nat): Column {
    if i + 4 <= |bytes| then Column(bytes[i], bytes[i + 1], bytes[i + 2], bytes[i + 3]) else BLANK
  }

  function ColumnBytes(c: Column): seq<bv8> { [c.b0, c.b1, c.b2, c.b3] }

  function BytesOf(b: Block): (s: seq<bv8>)
    ensures |s| == BLOCK
  {
    ColumnBytes(b.c0) + ColumnBytes(b.c1) + ColumnBytes(b.c2) + ColumnBytes(b.c3)
  }

  lemma BlockOfBytes(b: Block)
    ensures BlockOf(BytesOf(b)) == b
  {}

  lemma BytesOfBlock(s: seq<bv8>)
    requires |s| == BLOCK
    ensures BytesOf(BlockOf(s)) == s
  {}

  lemma BlockOfChunk(chunk: seq<bv8>)
    requires |chunk| == BLOCK
    ensures BlockOfWords(GetWord(chunk, 0), GetWord(chunk, 4), GetWord(chunk, 8), GetWord(chunk, 12)) == BlockOf(chunk)
  {
    hide Word, Byte0, Byte1, Byte2, Byte3;
    WordBytes(chunk[0], chunk[1], chunk[2], chunk[3]);
    WordBytes(chunk[4], chunk[5], chunk[6], chunk[7]);
    WordBytes(chunk[8], chunk[9], chunk[10], chunk[11]);
    WordBytes(chunk[12], chunk[13], chunk[14], chunk[15]);
  }

  function WordBytes4(w: bv32): seq<bv8> { [Byte0(w), Byte1(w), Byte2(w), Byte3(w)] }

  lemma BytesOfWords(s0: bv32, s1: bv32, s2: bv32, s3: bv32)
    ensures WordBytes4(s0) + WordBytes4(s1) + WordBytes4(s2) + WordBytes4(s3) == BytesOf(BlockOfWords(s0, s1, s2, s3))
  {
    hide Byte0, Byte1, Byte2, Byte3;
  }

  // ---------- the steps ----------

  /** The encrypted block is the next chaining value. */
  ghost function EncStep(ks: seq<Column>): Step<Block> {
    (chain: Block, chunk: seq<bv8>) =>
      var c := Encrypt(ks, AddBlocks(chain, BlockOf(chunk))); (c, BytesOf(c))
  }

  /** The block before decryption is the next chaining value. */
  ghost function DecStep(dk: seq<Column>): Step<Block> {
    (chain: Block, chunk: seq<bv8>) =>
      (BlockOf(chunk), BytesOf(AddBlocks(Decrypt(dk, BlockOf(chunk)), chain)))
  }

  lemma AddBlocksTwice(a: Block, b: Block)
    ensures AddBlocks(AddBlocks(a, b), a) == b
  {
    AddColumnsTwiceLeft(a.c0, b.c0); AddColumnsTwiceLeft(a.c1, b.c1);
    AddColumnsTwiceLeft(a.c2, b.c2); AddColumnsTwiceLeft(a.c3, b.c3);
  }

  lemma AddColumnsTwiceLeft(c: Column, d: Column)
    ensures AddColumns(AddColumns(c, d), c) == d
  {
    AddTwiceLeft(c.b0, d.b0); AddTwiceLeft(c.b1, d.b1); AddTwiceLeft(c.b2, d.b2); AddTwiceLeft(c.b3, d.b3);
  }

  lemma AddTwiceLeft(x: bv8, y: bv8)
    ensures Add(Add(x, y), x) == y
  {}

  /** For every expanded key, chaining value and block, decrypting a step undoes it. */
  lemma DecStepUndoes(ks: seq<Column>)
    requires |ks| == SCHEDULE_WORDS
    ensures Undoes(EncStep(ks), DecStep(DecryptKeys(ks)))
  {
    hide Encrypt, Decrypt, DecryptKeys, BytesOf, BlockOf, AddBlocks;
    forall chain: Block, b: seq<bv8> | |b| == BLOCK
      ensures
        var (c', o) := EncStep(ks)(chain, b);
        |o| == BLOCK && DecStep(DecryptKeys(ks))(chain, o) == (c', b)
    {
      var x := AddBlocks(chain, BlockOf(b));
      DecryptEncrypt(ks, x);
      BlockOfBytes(Encrypt(ks, x));
      AddBlocksTwice(chain, BlockOf(b));
      BytesOfBlock(b);
    }
  }

  // ---------- padding ----------

  /** The size in 32 bits. */
  function PadSize(pkcs7: bool, extra: uint, filled: nat): (n: uint)
    requires filled < BLOCK
    ensures (filled + n) % BLOCK == 0
  {
    if pkcs7 then BLOCK - filled else (BLOCK - filled + BLOCK * extra) % UINT_LIMIT
  }

  function Run(n: nat, b: bv8): (s: seq<bv8>)
    ensures |s| == n
  {
    seq(n, _ => b)
  }

  /** Section 6.3 of RFC 5652, or section 6.2.3.2 of RFC 2246 with whole blocks added; filled is the
      number of bytes of the last, incomplete block. Nothing is added when the size does not fit an int. */
  function Padding(pkcs7: bool, extra: uint, filled: nat): (p: seq<bv8>)
    requires filled < BLOCK
    ensures p != [] ==> (filled + |p|) % BLOCK == 0
  {
    var n := PadSize(pkcs7, extra, filled);
    Taken(Run(n, ByteOf(if pkcs7 then n else (n - 1) % 256)))
  }

  /** The extra blocks, once their size is taken in 32 bits, leave the length byte of the padding right. */
  predicate FewBlocks(pkcs7: bool, extra: uint) {
    pkcs7 || extra % 0x1000_0000 <= 15
  }

  /** Every byte of the padding is its length, or for TLS the last byte of one less than it. */
  lemma PaddingBytes(pkcs7: bool, extra: uint, filled: nat)
    requires filled < BLOCK
    ensures
      var p, blocks: nat := Padding(pkcs7, extra, filled), extra;
      && (pkcs7 ==> |p| == BLOCK - filled)
      && (!pkcs7 && BLOCK * blocks + BLOCK < INT_LIMIT ==> |p| == BLOCK - filled + BLOCK * blocks)
      && forall k | 0 <= k < |p| :: NumberOf(p[k]) == if pkcs7 then |p| else (|p| - 1) % 256
  {
    hide ByteOf, NumberOf;
    var n: int := PadSize(pkcs7, extra, filled);
    PadSizeBounds(pkcs7, extra, filled);
    NumberOfByte(if pkcs7 then n else (n - 1) % 256);
  }

  /** What the last byte says of the padding, and the data with that padding removed. */
  function Unpadded(pkcs7: bool, data: seq<bv8>): (r: (bool, seq<bv8>))
    requires |data| >= BLOCK
  {
    var pad := NumberOf(data[|data| - 1]);
    if pkcs7 then
      if pad == 0 || pad > BLOCK then (false, data) else (true, data[..|data| - pad])
    else
      if |data| < pad + 1 then (false, data) else (true, data[..|data| - (pad + 1)])
  }

  /** Padding is removed exactly if and only if the length byte of TLS padding does not wrap around: with up to
      15 extra blocks, or 2^28 times any number more, whose bytes are 2^32 times as many. */
  lemma UnpaddedPadded(pkcs7: bool, extra: uint, m: seq<bv8>)
    ensures
      var d := m + Padding(pkcs7, extra, |m| % BLOCK);
      |d| >= BLOCK && Unpadded(pkcs7, d) == (true, m) <==> FewBlocks(pkcs7, extra)
  {
    hide ByteOf, NumberOf, PadSize, FewBlocks;
    var n := PadSize(pkcs7, extra, |m| % BLOCK);
    var p := Padding(pkcs7, extra, |m| % BLOCK);
    var d := m + p;
    PadSizeBounds(pkcs7, extra, |m| % BLOCK);
    if p == [] {
      assert d == m;
      if |d| >= BLOCK {
        UnpaddedShorter(pkcs7, d);
      }
    } else {
      assert d[|d| - 1] == p[n - 1];
      assert d[..|d| - n] == m;
      MultipleOfBlock(|m|, n);
      NumberOfByte(if pkcs7 then n else (n - 1) % 256);
    }
  }

  lemma UnpaddedShorter(pkcs7: bool, data: seq<bv8>)
    requires |data| >= BLOCK
    ensures Unpadded(pkcs7, data).0 ==> |Unpadded(pkcs7, data).1| < |data|
  {}

  lemma PadSizeBounds(pkcs7: bool, extra: uint, filled: nat)
    requires filled < BLOCK
    ensures pkcs7 ==> 0 < PadSize(pkcs7, extra, filled) <= BLOCK
    ensures FewBlocks(pkcs7, extra) <==> 0 < PadSize(pkcs7, extra, filled) <= 256
  {
    var q, e := extra / 0x1000_0000, extra % 0x1000_0000;
    assert BLOCK - filled + BLOCK * extra == (BLOCK - filled + BLOCK * e) + q * UINT_LIMIT;
    if BLOCK - filled + BLOCK * e < UINT_LIMIT {
      Remainder(BLOCK - filled + BLOCK * e, q);
    } else {
      Remainder(0, q + 1);
    }
  }

  lemma Remainder(r: nat, q: nat)
    requires r < UINT_LIMIT
    ensures (r + q * UINT_LIMIT) % UINT_LIMIT == r
  {}

  lemma MultipleOfBlock(m: nat, n: nat)
    requires n > 0 && (m % BLOCK + n) % BLOCK == 0
    ensures m + n >= BLOCK
  {}

  // ---------- the round trip ----------

  lemma {:induction false} FeedPending<S>(step: Step<S>, st: Stream<S>, data: seq<bv8>)
    requires |st.pending| < BLOCK
    ensures |Feed(step, false, st, data).pending| == (|st.pending| + |data|) % BLOCK
    decreases |data|
  {
    if data != [] {
      FeedPending(step, Push(step, false, st, data[0]), data[1..]);
    }
  }

  /** A message fed to a fresh encrypter, then its padding. */
  ghost function Encrypted(ks: seq<Column>, iv: Block, m: seq<bv8>, pkcs7: bool, extra: uint): Stream<Block> {
    Feed(EncStep(ks), false, Stream(iv, [], []), m + Padding(pkcs7, extra, |m| % BLOCK))
  }

  ghost function Decrypted(dk: seq<Column>, iv: Block, c: seq<bv8>): Stream<Block> {
    Feed(DecStep(dk), true, Stream(iv, [], []), c)
  }

  /** A decrypter that holds a block gives a message back once the padding is removed. */
  ghost predicate Recovers(dk: seq<Column>, d: Stream<Block>, pkcs7: bool, m: seq<bv8>) {
    var p := Process(DecStep(dk), d).out;
    |d.pending| == BLOCK && |p| >= BLOCK && Unpadded(pkcs7, p) == (true, m)
  }

  /** Decrypting the encryption of any message and removing the padding gives the message back if and only if
      the length byte of the padding does not wrap around; otherwise what is missing or too much of the padding
      shows. */
  lemma RoundTrip(ks: seq<Column>, iv: Block, m: seq<bv8>, pkcs7: bool, extra: uint)
    requires |ks| == SCHEDULE_WORDS
    ensures
      var e := Encrypted(ks, iv, m, pkcs7, extra);
      var d := Decrypted(DecryptKeys(ks), iv, e.out);
      && (FewBlocks(pkcs7, extra) ==> e.pending == [] && |e.out| == |m| + |Padding(pkcs7, extra, |m| % BLOCK)|)
      && (Recovers(DecryptKeys(ks), d, pkcs7, m) <==> FewBlocks(pkcs7, extra))
  {
    hide EncStep, DecStep, DecryptKeys, Padding, Unpadded, FewBlocks, Process, Feed;
    var padding := Padding(pkcs7, extra, |m| % BLOCK);
    UnpaddedPadded(pkcs7, extra, m);
    if padding == [] {
      assert m + padding == m;
      Unpaddable(ks, iv, m, pkcs7);
      if |m| >= BLOCK {
        UnpaddedShorter(pkcs7, m);
      }
    } else {
      PaddedBlocks(pkcs7, extra, m);
      BlocksBack(ks, iv, m + padding);
    }
  }

  lemma PaddedBlocks(pkcs7: bool, extra: uint, m: seq<bv8>)
    requires Padding(pkcs7, extra, |m| % BLOCK) != []
    ensures |m + Padding(pkcs7, extra, |m| % BLOCK)| % BLOCK == 0
  {
    hide Padding;
    var k := |Padding(pkcs7, extra, |m| % BLOCK)|;
    Rounded(|m|, k);
  }

  lemma Rounded(m: nat, n: nat)
    requires (m % BLOCK + n) % BLOCK == 0
    ensures (m + n) % BLOCK == 0
  {}

  /** Whole blocks come back as they were. */
  lemma BlocksBack(ks: seq<Column>, iv: Block, data: seq<bv8>)
    requires |ks| == SCHEDULE_WORDS && data != [] && |data| % BLOCK == 0
    ensures
      var e := Feed(EncStep(ks), false, Stream(iv, [], []), data);
      var d := Decrypted(DecryptKeys(ks), iv, e.out);
      && e.pending == [] && |e.out| == |data|
      && |d.pending| == BLOCK && Process(DecStep(DecryptKeys(ks)), d).out == data
  {
    hide EncStep, DecStep, DecryptKeys, Feed;
    DecStepUndoes(ks);
    WholeBlocks(EncStep(ks), DecStep(DecryptKeys(ks)), iv, data);
  }

  lemma StepSizes(ks: seq<Column>)
    ensures BlockSized(EncStep(ks)) && BlockSized(DecStep(ks))
  {
    hide BytesOf, BlockOf, AddBlocks, Encrypt, Decrypt;
  }

  /** Without padding nothing is recovered: what is removed as padding belongs to the message. */
  lemma Unpaddable(ks: seq<Column>, iv: Block, m: seq<bv8>, pkcs7: bool)
    requires |ks| == SCHEDULE_WORDS
    ensures
      var e := Feed(EncStep(ks), false, Stream(iv, [], []), m);
      !Recovers(DecryptKeys(ks), Decrypted(DecryptKeys(ks), iv, e.out), pkcs7, m)
  {
    hide EncStep, DecStep, DecryptKeys, Unpadded;
    var dk := DecryptKeys(ks);
    StepSizes(ks);
    StepSizes(dk);
    FeedLength(EncStep(ks), false, Stream(iv, [], []), m);
    var e := Feed(EncStep(ks), false, Stream(iv, [], []), m);
    FeedLength(DecStep(dk), true, Stream(iv, [], []), e.out);
    var d := Decrypted(dk, iv, e.out);
    if |d.pending| == BLOCK && |Process(DecStep(dk), d).out| >= BLOCK {
      UnpaddedShorter(pkcs7, Process(DecStep(dk), d).out);
    }
  }

  // ---------- the mode: which blocks are combined ----------

  /** Block i of sixteen bytes. */
  function Part(s: seq<bv8>, i: nat): seq<bv8>
    requires BLOCK * i + BLOCK <= |s|
  {
    s[BLOCK * i..BLOCK * i + BLOCK]
  }

  /** What block i is combined with: the cipher block before it, the initialisation vector at first. */
  function Previous(iv: Block, cipher: seq<bv8>, i: nat): Block
    requires BLOCK * i <= |cipher|
  {
    if i == 0 then iv else BlockOf(Part(cipher, i - 1))
  }

  /** Each cipher block is the encryption of a message block combined with the cipher block before it
      (section 6.2 of NIST SP 800-38A). */
  ghost predicate CbcEncrypted(ks: seq<Column>, iv: Block, m: seq<bv8>, cipher: seq<bv8>) {
    && |cipher| == |m|
    && forall i: nat | BLOCK * i + BLOCK <= |m| ::
         Part(cipher, i) == BytesOf(Encrypt(ks, AddBlocks(Previous(iv, cipher, i), BlockOf(Part(m, i)))))
  }

  /** Each message block is the decryption of a cipher block combined with the cipher block before it. */
  ghost predicate CbcDecrypted(dk: seq<Column>, iv: Block, cipher: seq<bv8>, m: seq<bv8>) {
    && |m| == |cipher|
    && forall i: nat | BLOCK * i + BLOCK <= |cipher| ::
         Part(m, i) == BytesOf(AddBlocks(Decrypt(dk, BlockOf(Part(cipher, i))), Previous(iv, cipher, i)))
  }

  /** Parts of a longer text are those of its start, and its end. */
  lemma Parts(front: seq<bv8>, block: seq<bv8>, i: nat)
    requires |front| % BLOCK == 0 && |block| == BLOCK && BLOCK * i + BLOCK <= |front + block|
    ensures
      Part(front + block, i) == if BLOCK * i < |front| then Part(front, i) else block
  {}

  lemma PreviousIn(iv: Block, front: seq<bv8>, block: seq<bv8>, i: nat)
    requires |front| % BLOCK == 0 && |block| == BLOCK && BLOCK * i <= |front|
    ensures Previous(iv, front + block, i) == Previous(iv, front, i)
  {
    if i > 0 {
      Parts(front, block, i - 1);
    }
  }

  lemma EncryptedMore(ks: seq<Column>, iv: Block, front: seq<bv8>, block: seq<bv8>, out: seq<bv8>)
    requires |front| % BLOCK == 0 && |block| == BLOCK && CbcEncrypted(ks, iv, front, out)
    ensures
      var c := Encrypt(ks, AddBlocks(Previous(iv, out, |front| / BLOCK), BlockOf(block)));
      && CbcEncrypted(ks, iv, front + block, out + BytesOf(c))
      && Previous(iv, out + BytesOf(c), |front + block| / BLOCK) == c
  {
    hide Encrypt, AddBlocks, BlockOf, BytesOf, Part, Previous;
    var n := |front| / BLOCK;
    var c := Encrypt(ks, AddBlocks(Previous(iv, out, n), BlockOf(block)));
    BlockOfBytes(c);
    forall i: nat | BLOCK * i + BLOCK <= |front + block|
      ensures Part(out + BytesOf(c), i)
           == BytesOf(Encrypt(ks, AddBlocks(Previous(iv, out + BytesOf(c), i), BlockOf(Part(front + block, i)))))
    {
      Parts(out, BytesOf(c), i);
      Parts(front, block, i);
      PreviousIn(iv, out, BytesOf(c), i);
    }
    PreviousLast(iv, out, BytesOf(c));
  }

  lemma PreviousLast(iv: Block, front: seq<bv8>, block: seq<bv8>)
    requires |front| % BLOCK == 0 && |block| == BLOCK
    ensures Previous(iv, front + block, |front + block| / BLOCK) == BlockOf(block)
  {
    Parts(front, block, |front| / BLOCK);
  }

  lemma OneEncrypted(ks: seq<Column>, e: Stream<Block>, block: seq<bv8>)
    ensures
      var c := Encrypt(ks, AddBlocks(e.chain, BlockOf(block)));
      Process(EncStep(ks), e.(pending := block)) == Stream(c, [], e.out + BytesOf(c))
  {
    hide Encrypt, AddBlocks, BlockOf, BytesOf;
  }

  lemma OneDecrypted(dk: seq<Column>, d: Stream<Block>, block: seq<bv8>)
    ensures
      var p := BytesOf(AddBlocks(Decrypt(dk, BlockOf(block)), d.chain));
      Process(DecStep(dk), d.(pending := block)) == Stream(BlockOf(block), [], d.out + p)
  {
    hide Decrypt, AddBlocks, BlockOf, BytesOf;
  }

  lemma NothingEncrypted(ks: seq<Column>, iv: Block)
    ensures Feed(EncStep(ks), false, Stream(iv, [], []), []) == Stream(iv, [], [])
    ensures CbcEncrypted(ks, iv, [], []) && Previous(iv, [], 0) == iv
  {
    hide EncStep;
  }

  lemma NothingDecrypted(dk: seq<Column>, iv: Block)
    ensures Decrypted(dk, iv, []) == Stream(iv, [], []) && CbcDecrypted(dk, iv, [], []) && Previous(iv, [], 0) == iv
  {
    hide DecStep;
  }

  /** The encrypter chains the blocks of every message that way, and keeps the last cipher block. */
  lemma {:induction false} EncryptsCbc(ks: seq<Column>, iv: Block, m: seq<bv8>)
    requires |m| % BLOCK == 0
    ensures
      var e := Feed(EncStep(ks), false, Stream(iv, [], []), m);
      e.pending == [] && CbcEncrypted(ks, iv, m, e.out) && e.chain == Previous(iv, e.out, |m| / BLOCK)
    decreases |m|
  {
    hide Encrypt, AddBlocks, BlockOf, BytesOf, Part, Previous, CbcEncrypted, Feed, EncStep;
    if m == [] {
      NothingEncrypted(ks, iv);
    } else {
      var n := |m| - BLOCK;
      var front, block, start := m[..n], m[n..], Stream(iv, [], []);
      EncryptsCbc(ks, iv, front);
      var e0 := Feed(EncStep(ks), false, start, front);
      assert m == front + block;
      FeedConcat(EncStep(ks), false, start, front, block);
      FeedBlockEager(EncStep(ks), e0, block);
      OneEncrypted(ks, e0, block);
      EncryptedMore(ks, iv, front, block, e0.out);
    }
  }

  lemma DecryptedMore(dk: seq<Column>, iv: Block, front: seq<bv8>, block: seq<bv8>, out: seq<bv8>)
    requires |front| % BLOCK == 0 && |block| == BLOCK && CbcDecrypted(dk, iv, front, out)
    ensures
      var p := BytesOf(AddBlocks(Decrypt(dk, BlockOf(block)), Previous(iv, front, |front| / BLOCK)));
      CbcDecrypted(dk, iv, front + block, out + p)
  {
    hide Decrypt, AddBlocks, BlockOf, BytesOf, Part, Previous;
    var p := BytesOf(AddBlocks(Decrypt(dk, BlockOf(block)), Previous(iv, front, |front| / BLOCK)));
    forall i: nat | BLOCK * i + BLOCK <= |front + block|
      ensures Part(out + p, i)
           == BytesOf(AddBlocks(Decrypt(dk, BlockOf(Part(front + block, i))), Previous(iv, front + block, i)))
    {
      Parts(out, p, i);
      Parts(front, block, i);
      PreviousIn(iv, front, block, i);
    }
  }

  /** So does the decrypter, which holds the last block back until it is asked for the rest. */
  lemma {:induction false} DecryptsCbc(dk: seq<Column>, iv: Block, c: seq<bv8>)
    requires |c| % BLOCK == 0
    ensures
      var d := Flush(DecStep(dk), Decrypted(dk, iv, c));
      && |Decrypted(dk, iv, c).pending| == (if c == [] then 0 else BLOCK)
      && d.pending == [] && CbcDecrypted(dk, iv, c, d.out) && d.chain == Previous(iv, c, |c| / BLOCK)
    decreases |c|
  {
    hide Decrypt, AddBlocks, BlockOf, BytesOf, Part, Previous, CbcDecrypted, Feed, DecStep, Process;
    if c == [] {
      NothingDecrypted(dk, iv);
    } else {
      var n := |c| - BLOCK;
      var front, block, start := c[..n], c[n..], Stream(iv, [], []);
      DecryptsCbc(dk, iv, front);
      var d0 := Decrypted(dk, iv, front);
      assert c == front + block;
      FeedConcat(DecStep(dk), true, start, front, block);
      FeedBlockHeld(DecStep(dk), d0, block);
      OneDecrypted(dk, Flush(DecStep(dk), d0), block);
      DecryptedMore(dk, iv, front, block, Flush(DecStep(dk), d0).out);
      PreviousLast(iv, front, block);
    }
  }

  // ---------- splitting over several calls ----------

  function Flatten(parts: seq<seq<bv8>>): seq<bv8> {
    if parts == [] then [] else parts[0] + Flatten(parts[1..])
  }

  function FeedAll<S>(step: Step<S>, held: bool, st: Stream<S>, parts: seq<seq<bv8>>): Stream<S>
    decreases |parts|
  {
    if parts == [] then st else FeedAll(step, held, Feed(step, held, st, parts[0]), parts[1..])
  }

  lemma {:induction false} FeedAllFlattened<S>(step: Step<S>, held: bool, st: Stream<S>, parts: seq<seq<bv8>>)
    ensures FeedAll(step, held, st, parts) == Feed(step, held, st, Flatten(parts))
    decreases |parts|
  {
    if parts != [] {
      FeedAllFlattened(step, held, Feed(step, held, st, parts[0]), parts[1..]);
      FeedConcat(step, held, st, parts[0], Flatten(parts[1..]));
    }
  }

  /** The round trip for every way of splitting the message and the encrypted bytes over calls. */
  lemma SplitRoundTrip(ks: seq<Column>, iv: Block, parts: seq<seq<bv8>>, cuts: seq<seq<bv8>>, pkcs7: bool, extra: uint)
    requires |ks| == SCHEDULE_WORDS
    requires
      var e := FeedAll(EncStep(ks), false, Stream(iv, [], []), parts);
      |e.pending| < BLOCK ==> Flatten(cuts) == Feed(EncStep(ks), false, e, Padding(pkcs7, extra, |e.pending|)).out
    ensures
      var d := FeedAll(DecStep(DecryptKeys(ks)), true, Stream(iv, [], []), cuts);
      Recovers(DecryptKeys(ks), d, pkcs7, Flatten(parts)) <==> FewBlocks(pkcs7, extra)
  {
    hide EncStep, DecStep, DecryptKeys, Padding, Unpadded, Process, FewBlocks, Recovers;
    var m, start := Flatten(parts), Stream(iv, [], []);
    var e := FeedAll(EncStep(ks), false, start, parts);
    FeedAllFlattened(EncStep(ks), false, start, parts);
    FeedPending(EncStep(ks), start, m);
    FeedConcat(EncStep(ks), false, start, m, Padding(pkcs7, extra, |m| % BLOCK));
    FeedAllFlattened(DecStep(DecryptKeys(ks)), true, start, cuts);
    RoundTrip(ks, iv, m, pkcs7, extra);
  }
}
