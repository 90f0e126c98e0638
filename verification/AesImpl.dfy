/** The table-driven rounds and key schedules of VFSCryptLib, on 32-bit words. */
module AesImpl {
  import opened AesSpec
  import opened AesTables
  import opened ByteTables
  import opened Columns
  import opened GaloisField
  import opened Quads
  import opened RoundCipher
  import opened SBoxes
  import opened Words

  /** The static tables; they are filled once and then only read. */
  datatype Tables = Tables(
    sbox: seq<bv32>, inv: seq<bv32>, rcon: seq<bv32>,
    e0: seq<bv32>, e1: seq<bv32>, e2: seq<bv32>, e3: seq<bv32>,
    d0: seq<bv32>, d1: seq<bv32>, d2: seq<bv32>, d3: seq<bv32>)

  ghost predicate Correct(t: Tables) {
    && IsTable(t.sbox, SBoxEntry) && IsTable(t.inv, InvSBoxEntry) && IsRconTable(t.rcon)
    && IsTable(t.e0, E0Entry) && IsTable(t.e1, E1Entry) && IsTable(t.e2, E2Entry) && IsTable(t.e3, E3Entry)
    && IsTable(t.d0, D0Entry) && IsTable(t.d1, D1Entry) && IsTable(t.d2, D2Entry) && IsTable(t.d3, D3Entry)
  }

  method CreateTables() returns (t: Tables)
    ensures Correct(t)
  {
    hide IsTable, IsPowerTable, IsLogTable, IsRconTable;
    var power, logarithm := new bv8[256], new int[256];
    FillPowers(power, logarithm);
    var rcon := CreateRcon();
    var sbox, inv := new bv32[256], new bv32[256];
    FillBoxes(power, logarithm, sbox, inv);
    var e0, e1, e2, e3 := CreateEncryptTables(sbox);
    var d0, d1, d2, d3 := CreateDecryptTables(power, logarithm, inv);
    t := Tables(sbox[..], inv[..], rcon, e0, e1, e2, e3, d0, d1, d2, d3);
  }

  method CreateRcon() returns (rcon: seq<bv32>)
    ensures IsRconTable(rcon)
  {
    var a := new bv32[10];
    FillRcon(a);
    rcon := a[..];
  }

  method CreateEncryptTables(sbox: array<bv32>) returns (e0: seq<bv32>, e1: seq<bv32>, e2: seq<bv32>, e3: seq<bv32>)
    requires IsTable(sbox[..], SBoxEntry)
    ensures IsTable(e0, E0Entry) && IsTable(e1, E1Entry) && IsTable(e2, E2Entry) && IsTable(e3, E3Entry)
  {
    var a0, a1, a2, a3 := new bv32[256], new bv32[256], new bv32[256], new bv32[256];
    hide IsTable;
    FillEncryptTables(sbox, a0, a1, a2, a3);
    e0, e1, e2, e3 := a0[..], a1[..], a2[..], a3[..];
  }

  method CreateDecryptTables(power: array<bv8>, logarithm: array<int>, inv: array<bv32>)
      returns (d0: seq<bv32>, d1: seq<bv32>, d2: seq<bv32>, d3: seq<bv32>)
    requires IsPowerTable(power[..]) && IsLogTable(logarithm[..]) && IsTable(inv[..], InvSBoxEntry)
    ensures IsTable(d0, D0Entry) && IsTable(d1, D1Entry) && IsTable(d2, D2Entry) && IsTable(d3, D3Entry)
  {
    hide IsTable, IsPowerTable, IsLogTable;
    var a0, a1, a2, a3 := new bv32[256], new bv32[256], new bv32[256], new bv32[256];
    FillDecryptTables(power, logarithm, inv, a0, a1, a2, a3);
    d0, d1, d2, d3 := a0[..], a1[..], a2[..], a3[..];
  }

  function Lookup(table: seq<bv32>, b: bv8): bv32
    requires |table| == 256
  {
    table[NumberOf(b)]
  }

  // ---------- one word of a round ----------

  function AddWords(v: bv32, w: bv32): bv32 { v ^ w }

  function AddFour(w0: bv32, w1: bv32, w2: bv32, w3: bv32): bv32 {
    AddWords(AddWords(AddWords(w0, w1), w2), w3)
  }

  function EncryptWord(t: Tables, a: bv32, b: bv32, c: bv32, d: bv32, k: bv32): bv32
    requires |t.e0| == 256 && |t.e1| == 256 && |t.e2| == 256 && |t.e3| == 256
  {
    AddWords(AddFour(Lookup(t.e0, Byte0(a)), Lookup(t.e1, Byte1(b)),
                     Lookup(t.e2, Byte2(c)), Lookup(t.e3, Byte3(d))), k)
  }

  function DecryptWord(t: Tables, a: bv32, b: bv32, c: bv32, d: bv32, k: bv32): bv32
    requires |t.d0| == 256 && |t.d1| == 256 && |t.d2| == 256 && |t.d3| == 256
  {
    AddWords(AddFour(Lookup(t.d0, Byte0(a)), Lookup(t.d1, Byte1(b)),
                     Lookup(t.d2, Byte2(c)), Lookup(t.d3, Byte3(d))), k)
  }

  /** One byte from the box entry of each argument, in the four places of a word. */
  function BoxWord(box: seq<bv32>, b0: bv8, b1: bv8, b2: bv8, b3: bv8): bv32
    requires |box| == 256
  {
    AddFour(Lookup(box, b0) & 0xFF000000, Lookup(box, b1) & 0x00FF0000,
            Lookup(box, b2) & 0x0000FF00, Lookup(box, b3) & 0x000000FF)
  }

  lemma OfSum(v: bv32, w: bv32)
    ensures OfWord(AddWords(v, w)) == AddColumns(OfWord(v), OfWord(w))
  {
    OfWordXor(v, w);
  }

  /** A column as it comes out of the four tables. */
  lemma FourWords(w0: bv32, w1: bv32, w2: bv32, w3: bv32, c0: Column, c1: Column, c2: Column, c3: Column)
    requires w0 == ToWord(c0) && w1 == ToWord(c1) && w2 == ToWord(c2) && w3 == ToWord(c3)
    ensures OfWord(AddFour(w0, w1, w2, w3)) == Sum4(c0, c1, c2, c3)
  {
    hide ToWord, AddColumns, OfWord, AddWords;
    WordColumn(0, c0); WordColumn(0, c1); WordColumn(0, c2); WordColumn(0, c3);
    OfSum(w0, w1);
    OfSum(AddWords(w0, w1), w2);
    OfSum(AddWords(AddWords(w0, w1), w2), w3);
  }

  lemma EncryptColumn(t: Tables, a: bv32, b: bv32, c: bv32, d: bv32, k: bv32)
    requires Correct(t)
    ensures OfWord(EncryptWord(t, a, b, c, d, k))
         == AddColumns(MixColumn(SubColumn(Column(Byte0(a), Byte1(b), Byte2(c), Byte3(d)))), OfWord(k))
  {
    hide ToWord, AddColumns, OfWord, MixColumn, SBox, E0, E1, E2, E3, Byte0, Byte1, Byte2, Byte3, AddWords, AddFour;
    var s0, s1, s2, s3 := SBox(Byte0(a)), SBox(Byte1(b)), SBox(Byte2(c)), SBox(Byte3(d));
    var w0, w1, w2, w3 := Lookup(t.e0, Byte0(a)), Lookup(t.e1, Byte1(b)), Lookup(t.e2, Byte2(c)), Lookup(t.e3, Byte3(d));
    FourWords(w0, w1, w2, w3, E0(s0), E1(s1), E2(s2), E3(s3));
    OfSum(AddFour(w0, w1, w2, w3), k);
    EncryptEntries(s0, s1, s2, s3);
  }

  lemma DecryptColumn(t: Tables, a: bv32, b: bv32, c: bv32, d: bv32, k: bv32)
    requires Correct(t)
    ensures OfWord(DecryptWord(t, a, b, c, d, k))
         == AddColumns(InvMixColumn(InvSubColumn(Column(Byte0(a), Byte1(b), Byte2(c), Byte3(d)))), OfWord(k))
  {
    hide ToWord, AddColumns, OfWord, InvMixColumn, InvSBox, D0, D1, D2, D3, Byte0, Byte1, Byte2, Byte3, AddWords, AddFour;
    var s0, s1, s2, s3 := InvSBox(Byte0(a)), InvSBox(Byte1(b)), InvSBox(Byte2(c)), InvSBox(Byte3(d));
    var w0, w1, w2, w3 := Lookup(t.d0, Byte0(a)), Lookup(t.d1, Byte1(b)), Lookup(t.d2, Byte2(c)), Lookup(t.d3, Byte3(d));
    FourWords(w0, w1, w2, w3, D0(s0), D1(s1), D2(s2), D3(s3));
    OfSum(AddFour(w0, w1, w2, w3), k);
    DecryptEntries(s0, s1, s2, s3);
  }

  lemma BoxColumn(box: seq<bv32>, f: bv8 -> bv8, entry: bv8 -> bv32, b0: bv8, b1: bv8, b2: bv8, b3: bv8)
    requires IsTable(box, entry) && forall b :: entry(b) == Rep(f(b))
    ensures OfWord(BoxWord(box, b0, b1, b2, b3)) == Column(f(b0), f(b1), f(b2), f(b3))
  {}

  lemma SBoxColumn(t: Tables, b0: bv8, b1: bv8, b2: bv8, b3: bv8)
    requires Correct(t)
    ensures OfWord(BoxWord(t.sbox, b0, b1, b2, b3)) == SubColumn(Column(b0, b1, b2, b3))
  {
    BoxColumn(t.sbox, SBox, SBoxEntry, b0, b1, b2, b3);
  }

  lemma InvSBoxColumn(t: Tables, b0: bv8, b1: bv8, b2: bv8, b3: bv8)
    requires Correct(t)
    ensures OfWord(BoxWord(t.inv, b0, b1, b2, b3)) == InvSubColumn(Column(b0, b1, b2, b3))
  {
    BoxColumn(t.inv, InvSBox, InvSBoxEntry, b0, b1, b2, b3);
  }

  // ---------- a block ----------

  function BlockOfWords(s0: bv32, s1: bv32, s2: bv32, s3: bv32): Block {
    Quad(OfWord(s0), OfWord(s1), OfWord(s2), OfWord(s3))
  }

  function KeyColumns(ke: seq<bv32>): (ks: seq<Column>)
    ensures |ks| == |ke|
  {
    seq(|ke|, i requires 0 <= i < |ke| => OfWord(ke[i]))
  }

  function AddBlocks(a: Block, b: Block): Block { Zipped(AddColumns)(a, b) }

  lemma KeyBlock(ke: seq<bv32>, r: nat)
    requires |ke| == SCHEDULE_WORDS && r <= ROUNDS
    ensures RoundKeys(BLANK, KeyColumns(ke))(r)
         == BlockOfWords(ke[4 * r], ke[4 * r + 1], ke[4 * r + 2], ke[4 * r + 3])
  {}

  lemma BlockSum(s0: bv32, s1: bv32, s2: bv32, s3: bv32, k0: bv32, k1: bv32, k2: bv32, k3: bv32)
    ensures BlockOfWords(AddWords(s0, k0), AddWords(s1, k1), AddWords(s2, k2), AddWords(s3, k3))
         == AddBlocks(BlockOfWords(s0, s1, s2, s3), BlockOfWords(k0, k1, k2, k3))
  {
    hide OfWord, AddWords, AddColumns;
    OfSum(s0, k0); OfSum(s1, k1); OfSum(s2, k2); OfSum(s3, k3);
  }

  /** The state before round r + 1 of encryption, with the words of an expanded key. */
  ghost function EncryptState(ke: seq<bv32>, b: Block, r: nat): Block {
    Rounds(SubShift, Mapped(MixColumn), Zipped(AddColumns), RoundKeys(BLANK, KeyColumns(ke)), b, r)
  }

  ghost function DecryptState(ke: seq<bv32>, b: Block, r: nat): Block {
    Rounds(InvSubShift, Mapped(InvMixColumn), Zipped(AddColumns), RoundKeys(BLANK, KeyColumns(ke)), b, r)
  }

  lemma EncryptRound(t: Tables, ke: seq<bv32>, b: Block, r: nat, s0: bv32, s1: bv32, s2: bv32, s3: bv32)
    requires Correct(t) && |ke| == SCHEDULE_WORDS && 1 <= r < ROUNDS
    requires BlockOfWords(s0, s1, s2, s3) == EncryptState(ke, b, r - 1)
    ensures BlockOfWords(EncryptWord(t, s0, s1, s2, s3, ke[4 * r]), EncryptWord(t, s1, s2, s3, s0, ke[4 * r + 1]),
                         EncryptWord(t, s2, s3, s0, s1, ke[4 * r + 2]), EncryptWord(t, s3, s0, s1, s2, ke[4 * r + 3]))
         == EncryptState(ke, b, r)
  {
    hide Byte0, Byte1, Byte2, Byte3, AddColumns, MixColumn, SBox, EncryptWord, RoundKeys, KeyColumns;
    EncryptColumn(t, s0, s1, s2, s3, ke[4 * r]);
    EncryptColumn(t, s1, s2, s3, s0, ke[4 * r + 1]);
    EncryptColumn(t, s2, s3, s0, s1, ke[4 * r + 2]);
    EncryptColumn(t, s3, s0, s1, s2, ke[4 * r + 3]);
    KeyBlock(ke, r);
  }

  /** The words of the last round before its key is added. */
  function LastBlock(sbox: seq<bv32>, s0: bv32, s1: bv32, s2: bv32, s3: bv32): Block
    requires |sbox| == 256
  {
    BlockOfWords(BoxWord(sbox, Byte0(s0), Byte1(s1), Byte2(s2), Byte3(s3)),
                 BoxWord(sbox, Byte0(s1), Byte1(s2), Byte2(s3), Byte3(s0)),
                 BoxWord(sbox, Byte0(s2), Byte1(s3), Byte2(s0), Byte3(s1)),
                 BoxWord(sbox, Byte0(s3), Byte1(s0), Byte2(s1), Byte3(s2)))
  }

  function InvLastBlock(inv: seq<bv32>, s0: bv32, s1: bv32, s2: bv32, s3: bv32): Block
    requires |inv| == 256
  {
    BlockOfWords(BoxWord(inv, Byte0(s0), Byte1(s3), Byte2(s2), Byte3(s1)),
                 BoxWord(inv, Byte0(s1), Byte1(s0), Byte2(s3), Byte3(s2)),
                 BoxWord(inv, Byte0(s2), Byte1(s1), Byte2(s0), Byte3(s3)),
                 BoxWord(inv, Byte0(s3), Byte1(s2), Byte2(s1), Byte3(s0)))
  }

  lemma EncryptLast(t: Tables, ke: seq<bv32>, b: Block, r: nat, s0: bv32, s1: bv32, s2: bv32, s3: bv32, last: Block, key: Block)
    requires Correct(t) && |ke| == SCHEDULE_WORDS
    requires key == BlockOfWords(ke[56], ke[57], ke[58], ke[59])
    requires r == ROUNDS - 1 && BlockOfWords(s0, s1, s2, s3) == EncryptState(ke, b, r)
    requires last == LastBlock(t.sbox, s0, s1, s2, s3)
    ensures AddBlocks(last, key) == Encrypt(KeyColumns(ke), b)
  {
    hide Byte0, Byte1, Byte2, Byte3, AddColumns, MixColumn, SBox, BoxWord, RoundKeys, KeyColumns, Rounds;
    SBoxColumn(t, Byte0(s0), Byte1(s1), Byte2(s2), Byte3(s3));
    SBoxColumn(t, Byte0(s1), Byte1(s2), Byte2(s3), Byte3(s0));
    SBoxColumn(t, Byte0(s2), Byte1(s3), Byte2(s0), Byte3(s1));
    SBoxColumn(t, Byte0(s3), Byte1(s0), Byte2(s1), Byte3(s2));
    KeyBlock(ke, ROUNDS);
  }

  lemma DecryptRound(t: Tables, ke: seq<bv32>, b: Block, r: nat, s0: bv32, s1: bv32, s2: bv32, s3: bv32)
    requires Correct(t) && |ke| == SCHEDULE_WORDS && 1 <= r < ROUNDS
    requires BlockOfWords(s0, s1, s2, s3) == DecryptState(ke, b, r - 1)
    ensures BlockOfWords(DecryptWord(t, s0, s3, s2, s1, ke[4 * r]), DecryptWord(t, s1, s0, s3, s2, ke[4 * r + 1]),
                         DecryptWord(t, s2, s1, s0, s3, ke[4 * r + 2]), DecryptWord(t, s3, s2, s1, s0, ke[4 * r + 3]))
         == DecryptState(ke, b, r)
  {
    hide Byte0, Byte1, Byte2, Byte3, AddColumns, InvMixColumn, InvSBox, DecryptWord, RoundKeys, KeyColumns;
    DecryptColumn(t, s0, s3, s2, s1, ke[4 * r]);
    DecryptColumn(t, s1, s0, s3, s2, ke[4 * r + 1]);
    DecryptColumn(t, s2, s1, s0, s3, ke[4 * r + 2]);
    DecryptColumn(t, s3, s2, s1, s0, ke[4 * r + 3]);
    KeyBlock(ke, r);
  }

  lemma DecryptLast(t: Tables, ke: seq<bv32>, b: Block, r: nat, s0: bv32, s1: bv32, s2: bv32, s3: bv32, last: Block, key: Block)
    requires Correct(t) && |ke| == SCHEDULE_WORDS
    requires key == BlockOfWords(ke[56], ke[57], ke[58], ke[59])
    requires r == ROUNDS - 1 && BlockOfWords(s0, s1, s2, s3) == DecryptState(ke, b, r)
    requires last == InvLastBlock(t.inv, s0, s1, s2, s3)
    ensures AddBlocks(last, key) == Decrypt(KeyColumns(ke), b)
  {
    hide Byte0, Byte1, Byte2, Byte3, AddColumns, InvMixColumn, InvSBox, BoxWord, RoundKeys, KeyColumns, Rounds;
    InvSBoxColumn(t, Byte0(s0), Byte1(s3), Byte2(s2), Byte3(s1));
    InvSBoxColumn(t, Byte0(s1), Byte1(s0), Byte2(s3), Byte3(s2));
    InvSBoxColumn(t, Byte0(s2), Byte1(s1), Byte2(s0), Byte3(s3));
    InvSBoxColumn(t, Byte0(s3), Byte1(s2), Byte2(s1), Byte3(s0));
    KeyBlock(ke, ROUNDS);
  }

  /** The rounds of encryption from the first round key on; x0..x3 are the words of the block. */
  method EncryptBlock(t: Tables, ke: array<bv32>, x0: bv32, x1: bv32, x2: bv32, x3: bv32)
      returns (s0: bv32, s1: bv32, s2: bv32, s3: bv32)
    requires Correct(t) && ke.Length == SCHEDULE_WORDS
    ensures BlockOfWords(s0, s1, s2, s3) == Encrypt(KeyColumns(ke[..]), BlockOfWords(x0, x1, x2, x3))
  {
    hide BlockOfWords, EncryptWord, BoxWord, Encrypt, EncryptState, KeyColumns, AddWords, AddBlocks;
    ghost var b, keys := BlockOfWords(x0, x1, x2, x3), ke[..];
    s0, s1, s2, s3 := AddWords(x0, ke[0]), AddWords(x1, ke[1]), AddWords(x2, ke[2]), AddWords(x3, ke[3]);
    EncryptFirst(keys, x0, x1, x2, x3);
    for r := 1 to ROUNDS
      invariant BlockOfWords(s0, s1, s2, s3) == EncryptState(keys, b, r - 1)
    {
      EncryptRound(t, keys, b, r, s0, s1, s2, s3);
      s0, s1, s2, s3 :=
        EncryptWord(t, s0, s1, s2, s3, ke[4 * r]), EncryptWord(t, s1, s2, s3, s0, ke[4 * r + 1]),
        EncryptWord(t, s2, s3, s0, s1, ke[4 * r + 2]), EncryptWord(t, s3, s0, s1, s2, ke[4 * r + 3]);
    }
    var z0, z1, z2, z3 :=
      BoxWord(t.sbox, Byte0(s0), Byte1(s1), Byte2(s2), Byte3(s3)), BoxWord(t.sbox, Byte0(s1), Byte1(s2), Byte2(s3), Byte3(s0)),
      BoxWord(t.sbox, Byte0(s2), Byte1(s3), Byte2(s0), Byte3(s1)), BoxWord(t.sbox, Byte0(s3), Byte1(s0), Byte2(s1), Byte3(s2));
    EncryptLast(t, keys, b, ROUNDS - 1, s0, s1, s2, s3, BlockOfWords(z0, z1, z2, z3),
                BlockOfWords(ke[56], ke[57], ke[58], ke[59]));
    BlockSum(z0, z1, z2, z3, ke[56], ke[57], ke[58], ke[59]);
    s0, s1, s2, s3 := AddWords(z0, ke[56]), AddWords(z1, ke[57]), AddWords(z2, ke[58]), AddWords(z3, ke[59]);
  }

  lemma EncryptFirst(ke: seq<bv32>, x0: bv32, x1: bv32, x2: bv32, x3: bv32)
    requires |ke| == SCHEDULE_WORDS
    ensures BlockOfWords(AddWords(x0, ke[0]), AddWords(x1, ke[1]), AddWords(x2, ke[2]), AddWords(x3, ke[3]))
         == EncryptState(ke, BlockOfWords(x0, x1, x2, x3), 0)
    ensures BlockOfWords(AddWords(x0, ke[0]), AddWords(x1, ke[1]), AddWords(x2, ke[2]), AddWords(x3, ke[3]))
         == DecryptState(ke, BlockOfWords(x0, x1, x2, x3), 0)
  {
    hide AddWords, OfWord, AddColumns, RoundKeys;
    BlockSum(x0, x1, x2, x3, ke[0], ke[1], ke[2], ke[3]);
    KeyBlock(ke, 0);
  }

  /** The rounds of decryption; x0..x3 are the words of the encrypted block. */
  method DecryptBlock(t: Tables, ke: array<bv32>, x0: bv32, x1: bv32, x2: bv32, x3: bv32)
      returns (s0: bv32, s1: bv32, s2: bv32, s3: bv32)
    requires Correct(t) && ke.Length == SCHEDULE_WORDS
    ensures BlockOfWords(s0, s1, s2, s3) == Decrypt(KeyColumns(ke[..]), BlockOfWords(x0, x1, x2, x3))
  {
    hide BlockOfWords, DecryptWord, BoxWord, Decrypt, DecryptState, KeyColumns, AddWords, AddBlocks;
    ghost var b, keys := BlockOfWords(x0, x1, x2, x3), ke[..];
    s0, s1, s2, s3 := AddWords(x0, ke[0]), AddWords(x1, ke[1]), AddWords(x2, ke[2]), AddWords(x3, ke[3]);
    EncryptFirst(keys, x0, x1, x2, x3);
    for r := 1 to ROUNDS
      invariant BlockOfWords(s0, s1, s2, s3) == DecryptState(keys, b, r - 1)
    {
      DecryptRound(t, keys, b, r, s0, s1, s2, s3);
      s0, s1, s2, s3 :=
        DecryptWord(t, s0, s3, s2, s1, ke[4 * r]), DecryptWord(t, s1, s0, s3, s2, ke[4 * r + 1]),
        DecryptWord(t, s2, s1, s0, s3, ke[4 * r + 2]), DecryptWord(t, s3, s2, s1, s0, ke[4 * r + 3]);
    }
    var z0, z1, z2, z3 :=
      BoxWord(t.inv, Byte0(s0), Byte1(s3), Byte2(s2), Byte3(s1)), BoxWord(t.inv, Byte0(s1), Byte1(s0), Byte2(s3), Byte3(s2)),
      BoxWord(t.inv, Byte0(s2), Byte1(s1), Byte2(s0), Byte3(s3)), BoxWord(t.inv, Byte0(s3), Byte1(s2), Byte2(s1), Byte3(s0));
    DecryptLast(t, keys, b, ROUNDS - 1, s0, s1, s2, s3, BlockOfWords(z0, z1, z2, z3),
                BlockOfWords(ke[56], ke[57], ke[58], ke[59]));
    BlockSum(z0, z1, z2, z3, ke[56], ke[57], ke[58], ke[59]);
    s0, s1, s2, s3 := AddWords(z0, ke[56]), AddWords(z1, ke[57]), AddWords(z2, ke[58]), AddWords(z3, ke[59]);
  }
}
