/** The AES-256 block cipher of FIPS 197 on a state of four columns, the key schedule, and the
    equivalent inverse cipher. */
module AesSpec {
  import opened Columns
  import opened GaloisField
  import opened Quads
  import opened RoundCipher
  import opened SBoxes
  import opened Words

  const ROUNDS := 14
  const KEY_WORDS := 8
  const SCHEDULE_WORDS := 60

  type Block = Quad<Column>

  // ---------- the layers of a round ----------

  ghost function SubColumn(c: Column): Column {
    Column(SBox(c.b0), SBox(c.b1), SBox(c.b2), SBox(c.b3))
  }

  ghost function InvSubColumn(c: Column): Column {
    Column(InvSBox(c.b0), InvSBox(c.b1), InvSBox(c.b2), InvSBox(c.b3))
  }

  ghost function SubBytes(s: Block): Block {
    Quad(SubColumn(s.c0), SubColumn(s.c1), SubColumn(s.c2), SubColumn(s.c3))
  }

  ghost function InvSubBytes(s: Block): Block {
    Quad(InvSubColumn(s.c0), InvSubColumn(s.c1), InvSubColumn(s.c2), InvSubColumn(s.c3))
  }

  /** Row r moves r columns to the left. */
  function ShiftRows(s: Block): Block {
    Quad(Column(s.c0.b0, s.c1.b1, s.c2.b2, s.c3.b3), Column(s.c1.b0, s.c2.b1, s.c3.b2, s.c0.b3),
          Column(s.c2.b0, s.c3.b1, s.c0.b2, s.c1.b3), Column(s.c3.b0, s.c0.b1, s.c1.b2, s.c2.b3))
  }

  /** Row r moves r columns to the right. */
  function InvShiftRows(s: Block): Block {
    Quad(Column(s.c0.b0, s.c3.b1, s.c2.b2, s.c1.b3), Column(s.c1.b0, s.c0.b1, s.c3.b2, s.c2.b3),
          Column(s.c2.b0, s.c1.b1, s.c0.b2, s.c3.b3), Column(s.c3.b0, s.c2.b1, s.c1.b2, s.c0.b3))
  }

  ghost function SubShift(s: Block): Block { ShiftRows(SubBytes(s)) }

  ghost function InvSubShift(s: Block): Block { InvSubBytes(InvShiftRows(s)) }

  // ---------- words and round keys ----------

  function OfWord(w: bv32): Column { Column(Byte0(w), Byte1(w), Byte2(w), Byte3(w)) }

  function ToWord(c: Column): bv32 { Word(c.b0, c.b1, c.b2, c.b3) }

  lemma WordColumn(w: bv32, c: Column)
    ensures ToWord(OfWord(w)) == w && OfWord(ToWord(c)) == c
  {}

  const BLANK := Column(0, 0, 0, 0)

  /** Cipher of section 5.1; four columns of ks make a round key. */
  ghost function Encrypt(ks: seq<Column>, b: Block): Block {
    Cipher(SubShift, Mapped(MixColumn), Zipped(AddColumns), RoundKeys(BLANK, ks), ROUNDS, b)
  }

  /** EqInvCipher of section 5.3.5. */
  ghost function Decrypt(dk: seq<Column>, c: Block): Block {
    Cipher(InvSubShift, Mapped(InvMixColumn), Zipped(AddColumns), RoundKeys(BLANK, dk), ROUNDS, c)
  }

  /** The round keys in reverse order, with InvMixColumns applied to all but the first and last. */
  function DecryptKeys(ks: seq<Column>): seq<Column>
    requires |ks| == SCHEDULE_WORDS
  {
    InverseKeys(InvMixColumn, ks, ROUNDS)
  }

  // ---------- the key schedule (section 5.2) ----------

  function RotWord(c: Column): Column { Column(c.b1, c.b2, c.b3, c.b0) }

  /** {02} to the power i - 1, as a column. */
  function Rcon(i: nat): Column
    requires i > 0
  {
    Column(RconByte(i - 1), 0, 0, 0)
  }

  function RconByte(n: nat): bv8 {
    if n == 0 then 1 else XTime(RconByte(n - 1))
  }

  /** Word i of the expanded 256-bit key. */
  ghost function KeyColumn(key: seq<bv8>, i: nat): Column
    requires |key| == 4 * KEY_WORDS
  {
    if i < KEY_WORDS then Column(key[4 * i], key[4 * i + 1], key[4 * i + 2], key[4 * i + 3])
    else
      var temp := KeyColumn(key, i - 1);
      var step :=
        if i % KEY_WORDS == 0 then AddColumns(SubColumn(RotWord(temp)), Rcon(i / KEY_WORDS))
        else if i % KEY_WORDS == 4 then SubColumn(temp)
        else temp;
      AddColumns(KeyColumn(key, i - KEY_WORDS), step)
  }

  ghost function ExpandedKey(key: seq<bv8>): (ks: seq<Column>)
    requires |key| == 4 * KEY_WORDS
    ensures |ks| == SCHEDULE_WORDS
  {
    seq(SCHEDULE_WORDS, i requires 0 <= i < SCHEDULE_WORDS => KeyColumn(key, i))
  }

  // ---------- the equivalent inverse cipher ----------

  lemma InvSubColumnSub(c: Column)
    ensures InvSubColumn(SubColumn(c)) == c
  {
    InvSBoxSBox(c.b0); InvSBoxSBox(c.b1); InvSBoxSBox(c.b2); InvSBoxSBox(c.b3);
  }

  lemma InvSubShiftSubShift(s: Block)
    ensures InvSubShift(SubShift(s)) == s
  {
    InvSubColumnSub(s.c0); InvSubColumnSub(s.c1); InvSubColumnSub(s.c2); InvSubColumnSub(s.c3);
    assert InvShiftRows(ShiftRows(SubBytes(s))) == SubBytes(s);
  }

  lemma AddColumnsTwice(c: Column, k: Column)
    ensures AddColumns(AddColumns(c, k), k) == c
  {
    AddTwice(c.b0, k.b0); AddTwice(c.b1, k.b1); AddTwice(c.b2, k.b2); AddTwice(c.b3, k.b3);
  }

  lemma AddTwice(x: bv8, k: bv8)
    ensures Add(Add(x, k), k) == x
  {}

  lemma Layers()
    ensures InverseLayers(SubShift, Mapped(MixColumn), InvSubShift, Mapped(InvMixColumn), Zipped(AddColumns))
  {
    forall s ensures InvSubShift(SubShift(s)) == s { InvSubShiftSubShift(s); }
    forall c, d ensures ColumnLaws(MixColumn, InvMixColumn, AddColumns, c, d) {
      InvMixColumnMixed(c);
      InvMixColumnAdd(c, d);
      AddColumnsTwice(c, d);
    }
    BlockLaws(SubShift, InvSubShift, MixColumn, InvMixColumn, AddColumns);
  }

  /** Decryption with the transformed key undoes encryption, for every expanded key and block. */
  lemma DecryptEncrypt(ks: seq<Column>, b: Block)
    requires |ks| == SCHEDULE_WORDS
    ensures Decrypt(DecryptKeys(ks), Encrypt(ks, b)) == b
  {
    Layers();
    EquivalentRoundKeys(BLANK, InvMixColumn, ks, ROUNDS);
    EquivalentInverse(SubShift, Mapped(MixColumn), InvSubShift, Mapped(InvMixColumn), Zipped(AddColumns),
                      RoundKeys(BLANK, ks), RoundKeys(BLANK, DecryptKeys(ks)), ROUNDS, b);
  }
}
