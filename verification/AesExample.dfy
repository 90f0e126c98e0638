/** The example for AES-256 in Appendix C.3 of FIPS 197, round by round. */
module AesExample {
  import opened AesSpec
  import opened Columns
  import opened Doublings
  import opened GaloisField
  import opened Generator
  import opened Quads
  import opened SBoxes
  import RoundCipher

  // ---------- the layers on words ----------

  /** The product of two bytes, with the doublings written out. */
  function Product(a: bv8, b: bv8): bv8 {
    var b1 := (b << 1) ^ (if b & 0x80 != 0 then 0x1B else 0);
    var b2 := (b1 << 1) ^ (if b1 & 0x80 != 0 then 0x1B else 0);
    var b3 := (b2 << 1) ^ (if b2 & 0x80 != 0 then 0x1B else 0);
    var b4 := (b3 << 1) ^ (if b3 & 0x80 != 0 then 0x1B else 0);
    var b5 := (b4 << 1) ^ (if b4 & 0x80 != 0 then 0x1B else 0);
    var b6 := (b5 << 1) ^ (if b5 & 0x80 != 0 then 0x1B else 0);
    var b7 := (b6 << 1) ^ (if b6 & 0x80 != 0 then 0x1B else 0);
    Chosen(a, b, b1, b2, b3, b4, b5, b6, b7)
  }

  function Chosen(a: bv8, b0: bv8, b1: bv8, b2: bv8, b3: bv8, b4: bv8, b5: bv8, b6: bv8, b7: bv8): bv8 {
    var s7 := if a & 0x80 != 0 then b7 else 0;
    var s6 := if a & 0x40 != 0 then Add(b6, s7) else s7;
    var s5 := if a & 0x20 != 0 then Add(b5, s6) else s6;
    var s4 := if a & 0x10 != 0 then Add(b4, s5) else s5;
    var s3 := if a & 0x08 != 0 then Add(b3, s4) else s4;
    var s2 := if a & 0x04 != 0 then Add(b2, s3) else s3;
    var s1 := if a & 0x02 != 0 then Add(b1, s2) else s2;
    if a & 0x01 != 0 then Add(b0, s1) else s1
  }

  lemma ChosenIs(a: bv8, b0: bv8, b1: bv8, b2: bv8, b3: bv8, b4: bv8, b5: bv8, b6: bv8, b7: bv8)
    ensures EightSum(0, Add, Bits(a), b0, b1, b2, b3, b4, b5, b6, b7) == Chosen(a, b0, b1, b2, b3, b4, b5, b6, b7)
  {
    hide Add, Bits;
    BitsAre(a);
  }

  lemma BitsAre(a: bv8)
    ensures var d := Bits(a);
      && |d| == 8
      && (d[0] <==> a & 0x01 != 0) && (d[1] <==> a & 0x02 != 0) && (d[2] <==> a & 0x04 != 0)
      && (d[3] <==> a & 0x08 != 0) && (d[4] <==> a & 0x10 != 0) && (d[5] <==> a & 0x20 != 0)
      && (d[6] <==> a & 0x40 != 0) && (d[7] <==> a & 0x80 != 0)
  {}

  lemma DoubledIs(b: bv8)
    ensures XTime(b) == (b << 1) ^ (if b & 0x80 != 0 then 0x1B else 0)
  {}

  lemma ProductIs(a: bv8, b: bv8)
    ensures Mul(a, b) == Product(a, b)
  {
    hide Chosen, EightSum, Mul, XTime, Bits;
    MulWrittenOut(a, b);
    var b1 := XTime(b);
    var b2 := XTime(b1);
    var b3 := XTime(b2);
    var b4 := XTime(b3);
    var b5 := XTime(b4);
    var b6 := XTime(b5);
    var b7 := XTime(b6);
    DoubledIs(b);
    DoubledIs(b1);
    DoubledIs(b2);
    DoubledIs(b3);
    DoubledIs(b4);
    DoubledIs(b5);
    DoubledIs(b6);
    ChosenIs(a, b, b1, b2, b3, b4, b5, b6, b7);
  }

  lemma InvAffineIs(v: bv8)
    ensures InvAffine(v) == ((v << 1) | (v >> 7)) ^ ((v << 3) | (v >> 5)) ^ ((v << 6) | (v >> 2)) ^ 0x05
  {}

  predicate Inverted(x: bv8, v: bv8) {
    Product(x, ((v << 1) | (v >> 7)) ^ ((v << 3) | (v >> 5)) ^ ((v << 6) | (v >> 2)) ^ 0x05) == 1
  }

  /** What makes v the value of the S-box at x. */
  predicate Substitutes(x: bv8, v: bv8) { if x == 0 then v == 0x63 else Inverted(x, v) }

  lemma SBoxIs(x: bv8, v: bv8)
    requires Substitutes(x, v)
    ensures SBox(x) == v
  {
    hide InvAffine, Product, Mul;
    if x != 0 {
      InvAffineIs(v);
      ProductIs(x, InvAffine(v));
      InverseUnique(x, InvAffine(v));
      AffineInvAffine(v);
    }
  }

  lemma SubWordIs(a: bv8, b: bv8, c: bv8, d: bv8, p: bv8, q: bv8, r: bv8, s: bv8)
    requires Substitutes(a, p) && Substitutes(b, q) && Substitutes(c, r) && Substitutes(d, s)
    ensures SubColumn(Column(a, b, c, d)) == Column(p, q, r, s)
  {
    hide SBox, Substitutes;
    SBoxIs(a, p);
    SBoxIs(b, q);
    SBoxIs(c, r);
    SBoxIs(d, s);
  }

  /** MixColumns of one column with x_time. */
  function Mixed(c: Column): Column {
    Column(Sum(XTime(c.b0), Times3(c.b1), c.b2, c.b3), Sum(XTime(c.b1), Times3(c.b2), c.b3, c.b0),
           Sum(XTime(c.b2), Times3(c.b3), c.b0, c.b1), Sum(XTime(c.b3), Times3(c.b0), c.b1, c.b2))
  }

  lemma MixedIs(c: Column)
    ensures MixColumn(c) == Mixed(c)
  {
    hide Mul, XTime, Sum;
    MulTwoThree(c.b0);
    MulTwoThree(c.b1);
    MulTwoThree(c.b2);
    MulTwoThree(c.b3);
    MulUnit(c.b0);
    MulUnit(c.b1);
    MulUnit(c.b2);
    MulUnit(c.b3);
  }

  // ---------- the expanded key ----------

  lemma SteppedColumn(key: seq<bv8>, i: nat)
    requires |key| == 4 * KEY_WORDS && i >= 8 && i % 4 == 0
    ensures var temp := KeyColumn(key, i - 1);
      KeyColumn(key, i) == AddColumns(KeyColumn(key, i - 8),
        if i % 8 == 0 then AddColumns(SubColumn(RotWord(temp)), Rcon(i / 8)) else SubColumn(temp))
  {
    hide SubColumn, RotWord, Rcon, AddColumns;
  }

  lemma PlainColumn(key: seq<bv8>, i: nat)
    requires |key| == 4 * KEY_WORDS && i > 8 && i % 4 != 0
    ensures KeyColumn(key, i) == AddColumns(KeyColumn(key, i - 8), KeyColumn(key, i - 1))
  {
    hide SubColumn, RotWord, Rcon, AddColumns;
  }

  ghost predicate KeyWordsAre(key: seq<bv8>, i: nat, w0: bv32, w1: bv32, w2: bv32, w3: bv32)
    requires |key| == 4 * KEY_WORDS
  {
    && KeyColumn(key, i) == OfWord(w0) && KeyColumn(key, i + 1) == OfWord(w1)
    && KeyColumn(key, i + 2) == OfWord(w2) && KeyColumn(key, i + 3) == OfWord(w3)
  }

  predicate Adds(v: bv32, w: bv32, sum: bv32) { AddColumns(OfWord(v), OfWord(w)) == OfWord(sum) }

  /** Four words of which the first takes in the substituted word sub of the word before it. */
  lemma NextWords(key: seq<bv8>, i: nat, a: bv32, b: bv32, c: bv32, d: bv32, last: bv32, sub: bv32, step: bv32,
                  w0: bv32, w1: bv32, w2: bv32, w3: bv32)
    requires |key| == 4 * KEY_WORDS && i >= 8 && i % 4 == 0
    requires KeyWordsAre(key, i - 8, a, b, c, d) && KeyColumn(key, i - 1) == OfWord(last)
    requires SubColumn(if i % 8 == 0 then RotWord(OfWord(last)) else OfWord(last)) == OfWord(sub)
    requires OfWord(step) == if i % 8 == 0 then AddColumns(OfWord(sub), Rcon(i / 8)) else OfWord(sub)
    requires Adds(a, step, w0) && Adds(b, w0, w1) && Adds(c, w1, w2) && Adds(d, w2, w3)
    ensures KeyWordsAre(key, i, w0, w1, w2, w3)
  {
    hide KeyColumn, SubColumn, RotWord, Rcon, OfWord, AddColumns;
    SteppedColumn(key, i);
    assert KeyColumn(key, i) == OfWord(w0);
    PlainWords(key, i, b, c, d, w0, w1, w2, w3);
  }

  lemma PlainWords(key: seq<bv8>, i: nat, b: bv32, c: bv32, d: bv32, w0: bv32, w1: bv32, w2: bv32, w3: bv32)
    requires |key| == 4 * KEY_WORDS && i >= 8 && i % 4 == 0 && KeyColumn(key, i) == OfWord(w0)
    requires KeyColumn(key, i - 7) == OfWord(b) && KeyColumn(key, i - 6) == OfWord(c)
    requires KeyColumn(key, i - 5) == OfWord(d)
    requires Adds(b, w0, w1) && Adds(c, w1, w2) && Adds(d, w2, w3)
    ensures KeyWordsAre(key, i, w0, w1, w2, w3)
  {
    hide KeyColumn, OfWord, AddColumns;
    PlainColumn(key, i + 1);
    PlainColumn(key, i + 2);
    PlainColumn(key, i + 3);
  }

  lemma Rcons()
    ensures Rcon(1) == Column(0x01, 0, 0, 0) && Rcon(2) == Column(0x02, 0, 0, 0) && Rcon(3) == Column(0x04, 0, 0, 0)
    ensures Rcon(4) == Column(0x08, 0, 0, 0) && Rcon(5) == Column(0x10, 0, 0, 0) && Rcon(6) == Column(0x20, 0, 0, 0)
    ensures Rcon(7) == Column(0x40, 0, 0, 0)
  {}

  /** The key of the example. */
  const KEY: seq<bv8> :=
    [0x00, 0x01, 0x02, 0x03, 0x04, 0x05, 0x06, 0x07, 0x08, 0x09, 0x0A, 0x0B, 0x0C, 0x0D, 0x0E, 0x0F]
    + [0x10, 0x11, 0x12, 0x13, 0x14, 0x15, 0x16, 0x17, 0x18, 0x19, 0x1A, 0x1B, 0x1C, 0x1D, 0x1E, 0x1F]

  lemma Words0()
    ensures KeyWordsAre(KEY, 0, 0x00010203, 0x04050607, 0x08090A0B, 0x0C0D0E0F)
    ensures KeyWordsAre(KEY, 4, 0x10111213, 0x14151617, 0x18191A1B, 0x1C1D1E1F)
  {}

  lemma Words8()
    ensures KeyWordsAre(KEY, 8, 0xA573C29F, 0xA176C498, 0xA97FCE93, 0xA572C09C)
  {
    hide KeyColumn, SubColumn;
    SubWordIs(0x1D, 0x1E, 0x1F, 0x1C, 0xA4, 0x72, 0xC0, 0x9C);
    Words0();
    Rcons();
    NextWords(KEY, 8, 0x00010203, 0x04050607, 0x08090A0B, 0x0C0D0E0F,
              0x1C1D1E1F, 0xA472C09C, 0xA572C09C, 0xA573C29F, 0xA176C498, 0xA97FCE93, 0xA572C09C);
  }

  lemma Words12()
    ensures KeyWordsAre(KEY, 12, 0x1651A8CD, 0x0244BEDA, 0x1A5DA4C1, 0x0640BADE)
  {
    hide KeyColumn, SubColumn;
    SubWordIs(0xA5, 0x72, 0xC0, 0x9C, 0x06, 0x40, 0xBA, 0xDE);
    Words0();
    Words8();
    NextWords(KEY, 12, 0x10111213, 0x14151617, 0x18191A1B, 0x1C1D1E1F,
              0xA572C09C, 0x0640BADE, 0x0640BADE, 0x1651A8CD, 0x0244BEDA, 0x1A5DA4C1, 0x0640BADE);
  }

  lemma Words16()
    ensures KeyWordsAre(KEY, 16, 0xAE87DFF0, 0x0FF11B68, 0xA68ED5FB, 0x03FC1567)
  {
    hide KeyColumn, SubColumn;
    SubWordIs(0x40, 0xBA, 0xDE, 0x06, 0x09, 0xF4, 0x1D, 0x6F);
    Words8();
    Words12();
    Rcons();
    NextWords(KEY, 16, 0xA573C29F, 0xA176C498, 0xA97FCE93, 0xA572C09C,
              0x0640BADE, 0x09F41D6F, 0x0BF41D6F, 0xAE87DFF0, 0x0FF11B68, 0xA68ED5FB, 0x03FC1567);
  }

  lemma Words20()
    ensures KeyWordsAre(KEY, 20, 0x6DE1F148, 0x6FA54F92, 0x75F8EB53, 0x73B8518D)
  {
    hide KeyColumn, SubColumn;
    SubWordIs(0x03, 0xFC, 0x15, 0x67, 0x7B, 0xB0, 0x59, 0x85);
    Words12();
    Words16();
    NextWords(KEY, 20, 0x1651A8CD, 0x0244BEDA, 0x1A5DA4C1, 0x0640BADE,
              0x03FC1567, 0x7BB05985, 0x7BB05985, 0x6DE1F148, 0x6FA54F92, 0x75F8EB53, 0x73B8518D);
  }

  lemma Words24()
    ensures KeyWordsAre(KEY, 24, 0xC656827F, 0xC9A79917, 0x6F294CEC, 0x6CD5598B)
  {
    hide KeyColumn, SubColumn;
    SubWordIs(0xB8, 0x51, 0x8D, 0x73, 0x6C, 0xD1, 0x5D, 0x8F);
    Words16();
    Words20();
    Rcons();
    NextWords(KEY, 24, 0xAE87DFF0, 0x0FF11B68, 0xA68ED5FB, 0x03FC1567,
              0x73B8518D, 0x6CD15D8F, 0x68D15D8F, 0xC656827F, 0xC9A79917, 0x6F294CEC, 0x6CD5598B);
  }

  lemma Words28()
    ensures KeyWordsAre(KEY, 28, 0x3DE23A75, 0x524775E7, 0x27BF9EB4, 0x5407CF39)
  {
    hide KeyColumn, SubColumn;
    SubWordIs(0x6C, 0xD5, 0x59, 0x8B, 0x50, 0x03, 0xCB, 0x3D);
    Words20();
    Words24();
    NextWords(KEY, 28, 0x6DE1F148, 0x6FA54F92, 0x75F8EB53, 0x73B8518D,
              0x6CD5598B, 0x5003CB3D, 0x5003CB3D, 0x3DE23A75, 0x524775E7, 0x27BF9EB4, 0x5407CF39);
  }

  lemma Words32()
    ensures KeyWordsAre(KEY, 32, 0x0BDC905F, 0xC27B0948, 0xAD5245A4, 0xC1871C2F)
  {
    hide KeyColumn, SubColumn;
    SubWordIs(0x07, 0xCF, 0x39, 0x54, 0xC5, 0x8A, 0x12, 0x20);
    Words24();
    Words28();
    Rcons();
    NextWords(KEY, 32, 0xC656827F, 0xC9A79917, 0x6F294CEC, 0x6CD5598B,
              0x5407CF39, 0xC58A1220, 0xCD8A1220, 0x0BDC905F, 0xC27B0948, 0xAD5245A4, 0xC1871C2F);
  }

  lemma Words36()
    ensures KeyWordsAre(KEY, 36, 0x45F5A660, 0x17B2D387, 0x300D4D33, 0x640A820A)
  {
    hide KeyColumn, SubColumn;
    SubWordIs(0xC1, 0x87, 0x1C, 0x2F, 0x78, 0x17, 0x9C, 0x15);
    Words28();
    Words32();
    NextWords(KEY, 36, 0x3DE23A75, 0x524775E7, 0x27BF9EB4, 0x5407CF39,
              0xC1871C2F, 0x78179C15, 0x78179C15, 0x45F5A660, 0x17B2D387, 0x300D4D33, 0x640A820A);
  }

  lemma Words40()
    ensures KeyWordsAre(KEY, 40, 0x7CCFF71C, 0xBEB4FE54, 0x13E6BBF0, 0xD261A7DF)
  {
    hide KeyColumn, SubColumn;
    SubWordIs(0x0A, 0x82, 0x0A, 0x64, 0x67, 0x13, 0x67, 0x43);
    Words32();
    Words36();
    Rcons();
    NextWords(KEY, 40, 0x0BDC905F, 0xC27B0948, 0xAD5245A4, 0xC1871C2F,
              0x640A820A, 0x67136743, 0x77136743, 0x7CCFF71C, 0xBEB4FE54, 0x13E6BBF0, 0xD261A7DF);
  }

  lemma Words44()
    ensures KeyWordsAre(KEY, 44, 0xF01AFAFE, 0xE7A82979, 0xD7A5644A, 0xB3AFE640)
  {
    hide KeyColumn, SubColumn;
    SubWordIs(0xD2, 0x61, 0xA7, 0xDF, 0xB5, 0xEF, 0x5C, 0x9E);
    Words36();
    Words40();
    NextWords(KEY, 44, 0x45F5A660, 0x17B2D387, 0x300D4D33, 0x640A820A,
              0xD261A7DF, 0xB5EF5C9E, 0xB5EF5C9E, 0xF01AFAFE, 0xE7A82979, 0xD7A5644A, 0xB3AFE640);
  }

  lemma Words48()
    ensures KeyWordsAre(KEY, 48, 0x2541FE71, 0x9BF50025, 0x8813BBD5, 0x5A721C0A)
  {
    hide KeyColumn, SubColumn;
    SubWordIs(0xAF, 0xE6, 0x40, 0xB3, 0x79, 0x8E, 0x09, 0x6D);
    Words40();
    Words44();
    Rcons();
    NextWords(KEY, 48, 0x7CCFF71C, 0xBEB4FE54, 0x13E6BBF0, 0xD261A7DF,
              0xB3AFE640, 0x798E096D, 0x598E096D, 0x2541FE71, 0x9BF50025, 0x8813BBD5, 0x5A721C0A);
  }

  lemma Words52()
    ensures KeyWordsAre(KEY, 52, 0x4E5A6699, 0xA9F24FE0, 0x7E572BAA, 0xCDF8CDEA)
  {
    hide KeyColumn, SubColumn;
    SubWordIs(0x5A, 0x72, 0x1C, 0x0A, 0xBE, 0x40, 0x9C, 0x67);
    Words44();
    Words48();
    NextWords(KEY, 52, 0xF01AFAFE, 0xE7A82979, 0xD7A5644A, 0xB3AFE640,
              0x5A721C0A, 0xBE409C67, 0xBE409C67, 0x4E5A6699, 0xA9F24FE0, 0x7E572BAA, 0xCDF8CDEA);
  }

  lemma Words56()
    ensures KeyWordsAre(KEY, 56, 0x24FC79CC, 0xBF0979E9, 0x371AC23C, 0x6D68DE36)
  {
    hide KeyColumn, SubColumn;
    SubWordIs(0xF8, 0xCD, 0xEA, 0xCD, 0x41, 0xBD, 0x87, 0xBD);
    Words48();
    Words52();
    Rcons();
    NextWords(KEY, 56, 0x2541FE71, 0x9BF50025, 0x8813BBD5, 0x5A721C0A,
              0xCDF8CDEA, 0x41BD87BD, 0x01BD87BD, 0x24FC79CC, 0xBF0979E9, 0x371AC23C, 0x6D68DE36);
  }

  // ---------- the rounds ----------

  /** Four columns as words, as the standard prints them. */
  function State(w0: bv32, w1: bv32, w2: bv32, w3: bv32): Block { Quad(OfWord(w0), OfWord(w1), OfWord(w2), OfWord(w3)) }

  /** The plaintext of the example. */
  const INPUT: Block := State(0x00112233, 0x44556677, 0x8899AABB, 0xCCDDEEFF)

  /** The two other layers of a round. */
  ghost function MixAdd(t: Block, k: Block): Block { Zipped(AddColumns)(Mapped(MixColumn)(t), k) }

  lemma MixAddIs(t: Block, m: Block, k: Block, u: Block)
    requires Mixed(t.c0) == m.c0 && Mixed(t.c1) == m.c1 && Mixed(t.c2) == m.c2 && Mixed(t.c3) == m.c3
    requires AddColumns(m.c0, k.c0) == u.c0 && AddColumns(m.c1, k.c1) == u.c1
    requires AddColumns(m.c2, k.c2) == u.c2 && AddColumns(m.c3, k.c3) == u.c3
    ensures MixAdd(t, k) == u
  {
    hide MixColumn, Mixed, AddColumns;
    MixedIs(t.c0);
    MixedIs(t.c1);
    MixedIs(t.c2);
    MixedIs(t.c3);
  }

  lemma Sub1()
    ensures SubShift(State(0x00102030, 0x40506070, 0x8090A0B0, 0xC0D0E0F0))
      == State(0x6353E08C, 0x0960E104, 0xCD70B751, 0xBACAD0E7)
  {
    hide SubColumn;
    SubWordIs(0x00, 0x10, 0x20, 0x30, 0x63, 0xCA, 0xB7, 0x04);
    SubWordIs(0x40, 0x50, 0x60, 0x70, 0x09, 0x53, 0xD0, 0x51);
    SubWordIs(0x80, 0x90, 0xA0, 0xB0, 0xCD, 0x60, 0xE0, 0xE7);
    SubWordIs(0xC0, 0xD0, 0xE0, 0xF0, 0xBA, 0x70, 0xE1, 0x8C);
  }

  lemma Mix1()
    ensures MixAdd(State(0x6353E08C, 0x0960E104, 0xCD70B751, 0xBACAD0E7),
                   State(0x10111213, 0x14151617, 0x18191A1B, 0x1C1D1E1F))
      == State(0x4F637606, 0x43E0AA85, 0xEFA72132, 0x01A4E705)
  {
    hide MixAdd;
    MixAddIs(State(0x6353E08C, 0x0960E104, 0xCD70B751, 0xBACAD0E7),
             State(0x5F726415, 0x57F5BC92, 0xF7BE3B29, 0x1DB9F91A),
             State(0x10111213, 0x14151617, 0x18191A1B, 0x1C1D1E1F),
             State(0x4F637606, 0x43E0AA85, 0xEFA72132, 0x01A4E705));
  }

  lemma Sub2()
    ensures SubShift(State(0x4F637606, 0x43E0AA85, 0xEFA72132, 0x01A4E705))
      == State(0x84E1FD6B, 0x1A5C946F, 0xDF493897, 0x7CFBAC23)
  {
    hide SubColumn;
    SubWordIs(0x4F, 0x63, 0x76, 0x06, 0x84, 0xFB, 0x38, 0x6F);
    SubWordIs(0x43, 0xE0, 0xAA, 0x85, 0x1A, 0xE1, 0xAC, 0x97);
    SubWordIs(0xEF, 0xA7, 0x21, 0x32, 0xDF, 0x5C, 0xFD, 0x23);
    SubWordIs(0x01, 0xA4, 0xE7, 0x05, 0x7C, 0x49, 0x94, 0x6B);
  }

  lemma Mix2()
    ensures MixAdd(State(0x84E1FD6B, 0x1A5C946F, 0xDF493897, 0x7CFBAC23),
                   State(0xA573C29F, 0xA176C498, 0xA97FCE93, 0xA572C09C))
      == State(0x1859FBC2, 0x8A1C00A0, 0x78ED8AAD, 0xC42F6109)
  {
    hide MixAdd;
    MixAddIs(State(0x84E1FD6B, 0x1A5C946F, 0xDF493897, 0x7CFBAC23),
             State(0xBD2A395D, 0x2B6AC438, 0xD192443E, 0x615DA195),
             State(0xA573C29F, 0xA176C498, 0xA97FCE93, 0xA572C09C),
             State(0x1859FBC2, 0x8A1C00A0, 0x78ED8AAD, 0xC42F6109));
  }

  lemma Sub3()
    ensures SubShift(State(0x1859FBC2, 0x8A1C00A0, 0x78ED8AAD, 0xC42F6109))
      == State(0xAD9C7E01, 0x7E55EF25, 0xBC150FE0, 0x1CCB6395)
  {
    hide SubColumn;
    SubWordIs(0x18, 0x59, 0xFB, 0xC2, 0xAD, 0xCB, 0x0F, 0x25);
    SubWordIs(0x8A, 0x1C, 0x00, 0xA0, 0x7E, 0x9C, 0x63, 0xE0);
    SubWordIs(0x78, 0xED, 0x8A, 0xAD, 0xBC, 0x55, 0x7E, 0x95);
    SubWordIs(0xC4, 0x2F, 0x61, 0x09, 0x1C, 0x15, 0xEF, 0x01);
  }

  lemma Mix3()
    ensures MixAdd(State(0xAD9C7E01, 0x7E55EF25, 0xBC150FE0, 0x1CCB6395),
                   State(0x1651A8CD, 0x0244BEDA, 0x1A5DA4C1, 0x0640BADE))
      == State(0x975C66C1, 0xCB9F3FA8, 0xA93A28DF, 0x8EE10F63)
  {
    hide MixAdd;
    MixAddIs(State(0xAD9C7E01, 0x7E55EF25, 0xBC150FE0, 0x1CCB6395),
             State(0x810DCE0C, 0xC9DB8172, 0xB3678C1E, 0x88A1B5BD),
             State(0x1651A8CD, 0x0244BEDA, 0x1A5DA4C1, 0x0640BADE),
             State(0x975C66C1, 0xCB9F3FA8, 0xA93A28DF, 0x8EE10F63));
  }

  lemma Sub4()
    ensures SubShift(State(0x975C66C1, 0xCB9F3FA8, 0xA93A28DF, 0x8EE10F63))
      == State(0x88DB34FB, 0x1F807678, 0xD3F833C2, 0x194A759E)
  {
    hide SubColumn;
    SubWordIs(0x97, 0x5C, 0x66, 0xC1, 0x88, 0x4A, 0x33, 0x78);
    SubWordIs(0xCB, 0x9F, 0x3F, 0xA8, 0x1F, 0xDB, 0x75, 0xC2);
    SubWordIs(0xA9, 0x3A, 0x28, 0xDF, 0xD3, 0x80, 0x34, 0x9E);
    SubWordIs(0x8E, 0xE1, 0x0F, 0x63, 0x19, 0xF8, 0x76, 0xFB);
  }

  lemma Mix4()
    ensures MixAdd(State(0x88DB34FB, 0x1F807678, 0xD3F833C2, 0x194A759E),
                   State(0xAE87DFF0, 0x0FF11B68, 0xA68ED5FB, 0x03FC1567))
      == State(0x1C05F271, 0xA417E04F, 0xF921C5C1, 0x04701554)
  {
    hide MixAdd;
    MixAddIs(State(0x88DB34FB, 0x1F807678, 0xD3F833C2, 0x194A759E),
             State(0xB2822D81, 0xABE6FB27, 0x5FAF103A, 0x078C0033),
             State(0xAE87DFF0, 0x0FF11B68, 0xA68ED5FB, 0x03FC1567),
             State(0x1C05F271, 0xA417E04F, 0xF921C5C1, 0x04701554));
  }

  lemma Sub5()
    ensures SubShift(State(0x1C05F271, 0xA417E04F, 0xF921C5C1, 0x04701554))
      == State(0x9CF0A620, 0x49FD59A3, 0x99518984, 0xF26BE178)
  {
    hide SubColumn;
    SubWordIs(0x1C, 0x05, 0xF2, 0x71, 0x9C, 0x6B, 0x89, 0xA3);
    SubWordIs(0xA4, 0x17, 0xE0, 0x4F, 0x49, 0xF0, 0xE1, 0x84);
    SubWordIs(0xF9, 0x21, 0xC5, 0xC1, 0x99, 0xFD, 0xA6, 0x78);
    SubWordIs(0x04, 0x70, 0x15, 0x54, 0xF2, 0x51, 0x59, 0x20);
  }

  lemma Mix5()
    ensures MixAdd(State(0x9CF0A620, 0x49FD59A3, 0x99518984, 0xF26BE178),
                   State(0x6DE1F148, 0x6FA54F92, 0x75F8EB53, 0x73B8518D))
      == State(0xC357AAE1, 0x1B45B7B0, 0xA2C7BD28, 0xA8DC99FA)
  {
    hide MixAdd;
    MixAddIs(State(0x9CF0A620, 0x49FD59A3, 0x99518984, 0xF26BE178),
             State(0xAEB65BA9, 0x74E0F822, 0xD73F567B, 0xDB64C877),
             State(0x6DE1F148, 0x6FA54F92, 0x75F8EB53, 0x73B8518D),
             State(0xC357AAE1, 0x1B45B7B0, 0xA2C7BD28, 0xA8DC99FA));
  }

  lemma Sub6()
    ensures SubShift(State(0xC357AAE1, 0x1B45B7B0, 0xA2C7BD28, 0xA8DC99FA))
      == State(0x2E6E7A2D, 0xAFC6EEF8, 0x3A86ACE7, 0xC25BA934)
  {
    hide SubColumn;
    SubWordIs(0xC3, 0x57, 0xAA, 0xE1, 0x2E, 0x5B, 0xAC, 0xF8);
    SubWordIs(0x1B, 0x45, 0xB7, 0xB0, 0xAF, 0x6E, 0xA9, 0xE7);
    SubWordIs(0xA2, 0xC7, 0xBD, 0x28, 0x3A, 0xC6, 0x7A, 0x34);
    SubWordIs(0xA8, 0xDC, 0x99, 0xFA, 0xC2, 0x86, 0xEE, 0x2D);
  }

  lemma Mix6()
    ensures MixAdd(State(0x2E6E7A2D, 0xAFC6EEF8, 0x3A86ACE7, 0xC25BA934),
                   State(0xC656827F, 0xC9A79917, 0x6F294CEC, 0x6CD5598B))
      == State(0x7F074143, 0xCB4E243E, 0xC10C815D, 0x8375D54C)
  {
    hide MixAdd;
    MixAddIs(State(0x2E6E7A2D, 0xAFC6EEF8, 0x3A86ACE7, 0xC25BA934),
             State(0xB951C33C, 0x02E9BD29, 0xAE25CDB1, 0xEFA08CC7),
             State(0xC656827F, 0xC9A79917, 0x6F294CEC, 0x6CD5598B),
             State(0x7F074143, 0xCB4E243E, 0xC10C815D, 0x8375D54C));
  }

  lemma Sub7()
    ensures SubShift(State(0x7F074143, 0xCB4E243E, 0xC10C815D, 0x8375D54C))
      == State(0xD22F0C29, 0x1FFE031A, 0x789D83B2, 0xECC5364C)
  {
    hide SubColumn;
    SubWordIs(0x7F, 0x07, 0x41, 0x43, 0xD2, 0xC5, 0x83, 0x1A);
    SubWordIs(0xCB, 0x4E, 0x24, 0x3E, 0x1F, 0x2F, 0x36, 0xB2);
    SubWordIs(0xC1, 0x0C, 0x81, 0x5D, 0x78, 0xFE, 0x0C, 0x4C);
    SubWordIs(0x83, 0x75, 0xD5, 0x4C, 0xEC, 0x9D, 0x03, 0x29);
  }

  lemma Mix7()
    ensures MixAdd(State(0xD22F0C29, 0x1FFE031A, 0x789D83B2, 0xECC5364C),
                   State(0x3DE23A75, 0x524775E7, 0x27BF9EB4, 0x5407CF39))
      == State(0xD653A469, 0x6CA0BC0F, 0x5ACAAB5D, 0xB96C5E7D)
  {
    hide MixAdd;
    MixAddIs(State(0xD22F0C29, 0x1FFE031A, 0x789D83B2, 0xECC5364C),
             State(0xEBB19E1C, 0x3EE7C9E8, 0x7D7535E9, 0xED6B9144),
             State(0x3DE23A75, 0x524775E7, 0x27BF9EB4, 0x5407CF39),
             State(0xD653A469, 0x6CA0BC0F, 0x5ACAAB5D, 0xB96C5E7D));
  }

  lemma Sub8()
    ensures SubShift(State(0xD653A469, 0x6CA0BC0F, 0x5ACAAB5D, 0xB96C5E7D))
      == State(0xF6E062FF, 0x507458F9, 0xBE504976, 0x56ED654C)
  {
    hide SubColumn;
    SubWordIs(0xD6, 0x53, 0xA4, 0x69, 0xF6, 0xED, 0x49, 0xF9);
    SubWordIs(0x6C, 0xA0, 0xBC, 0x0F, 0x50, 0xE0, 0x65, 0x76);
    SubWordIs(0x5A, 0xCA, 0xAB, 0x5D, 0xBE, 0x74, 0x62, 0x4C);
    SubWordIs(0xB9, 0x6C, 0x5E, 0x7D, 0x56, 0x50, 0x58, 0xFF);
  }

  lemma Mix8()
    ensures MixAdd(State(0xF6E062FF, 0x507458F9, 0xBE504976, 0x56ED654C),
                   State(0x0BDC905F, 0xC27B0948, 0xAD5245A4, 0xC1871C2F))
      == State(0x5AA85839, 0x5FD28D7D, 0x05E1A388, 0x68F3B9C5)
  {
    hide MixAdd;
    MixAddIs(State(0xF6E062FF, 0x507458F9, 0xBE504976, 0x56ED654C),
             State(0x5174C866, 0x9DA98435, 0xA8B3E62C, 0xA974A5EA),
             State(0x0BDC905F, 0xC27B0948, 0xAD5245A4, 0xC1871C2F),
             State(0x5AA85839, 0x5FD28D7D, 0x05E1A388, 0x68F3B9C5));
  }

  lemma Sub9()
    ensures SubShift(State(0x5AA85839, 0x5FD28D7D, 0x05E1A388, 0x68F3B9C5))
      == State(0xBEB50AA6, 0xCFF85612, 0x6B0D6AFF, 0x45C25DC4)
  {
    hide SubColumn;
    SubWordIs(0x5A, 0xA8, 0x58, 0x39, 0xBE, 0xC2, 0x6A, 0x12);
    SubWordIs(0x5F, 0xD2, 0x8D, 0x7D, 0xCF, 0xB5, 0x5D, 0xFF);
    SubWordIs(0x05, 0xE1, 0xA3, 0x88, 0x6B, 0xF8, 0x0A, 0xC4);
    SubWordIs(0x68, 0xF3, 0xB9, 0xC5, 0x45, 0x0D, 0x56, 0xA6);
  }

  lemma Mix9()
    ensures MixAdd(State(0xBEB50AA6, 0xCFF85612, 0x6B0D6AFF, 0x45C25DC4),
                   State(0x45F5A660, 0x17B2D387, 0x300D4D33, 0x640A820A))
      == State(0x4A824851, 0xC57E7E47, 0x643DE50C, 0x2AF3E8C9)
  {
    hide MixAdd;
    MixAddIs(State(0xBEB50AA6, 0xCFF85612, 0x6B0D6AFF, 0x45C25DC4),
             State(0x0F77EE31, 0xD2CCADC0, 0x5430A83F, 0x4EF96AC3),
             State(0x45F5A660, 0x17B2D387, 0x300D4D33, 0x640A820A),
             State(0x4A824851, 0xC57E7E47, 0x643DE50C, 0x2AF3E8C9));
  }

  lemma Sub10()
    ensures SubShift(State(0x4A824851, 0xC57E7E47, 0x643DE50C, 0x2AF3E8C9))
      == State(0xD6F3D9DD, 0xA6279BD1, 0x430D52A0, 0xE513F3FE)
  {
    hide SubColumn;
    SubWordIs(0x4A, 0x82, 0x48, 0x51, 0xD6, 0x13, 0x52, 0xD1);
    SubWordIs(0xC5, 0x7E, 0x7E, 0x47, 0xA6, 0xF3, 0xF3, 0xA0);
    SubWordIs(0x64, 0x3D, 0xE5, 0x0C, 0x43, 0x27, 0xD9, 0xFE);
    SubWordIs(0x2A, 0xF3, 0xE8, 0xC9, 0xE5, 0x0D, 0x9B, 0xDD);
  }

  lemma Mix10()
    ensures MixAdd(State(0xD6F3D9DD, 0xA6279BD1, 0x430D52A0, 0xE513F3FE),
                   State(0x7CCFF71C, 0xBEB4FE54, 0x13E6BBF0, 0xD261A7DF))
      == State(0xC14907F6, 0xCA3B3AA0, 0x70E9AA31, 0x3B52B5EC)
  {
    hide MixAdd;
    MixAddIs(State(0xD6F3D9DD, 0xA6279BD1, 0x430D52A0, 0xE513F3FE),
             State(0xBD86F0EA, 0x748FC4F4, 0x630F11C1, 0xE9331233),
             State(0x7CCFF71C, 0xBEB4FE54, 0x13E6BBF0, 0xD261A7DF),
             State(0xC14907F6, 0xCA3B3AA0, 0x70E9AA31, 0x3B52B5EC));
  }

  lemma Sub11()
    ensures SubShift(State(0xC14907F6, 0xCA3B3AA0, 0x70E9AA31, 0x3B52B5EC))
      == State(0x78E2ACCE, 0x741ED542, 0x5100C5E0, 0xE23B80C7)
  {
    hide SubColumn;
    SubWordIs(0xC1, 0x49, 0x07, 0xF6, 0x78, 0x3B, 0xC5, 0x42);
    SubWordIs(0xCA, 0x3B, 0x3A, 0xA0, 0x74, 0xE2, 0x80, 0xE0);
    SubWordIs(0x70, 0xE9, 0xAA, 0x31, 0x51, 0x1E, 0xAC, 0xC7);
    SubWordIs(0x3B, 0x52, 0xB5, 0xEC, 0xE2, 0x00, 0xD5, 0xCE);
  }

  lemma Mix11()
    ensures MixAdd(State(0x78E2ACCE, 0x741ED542, 0x5100C5E0, 0xE23B80C7),
                   State(0xF01AFAFE, 0xE7A82979, 0xD7A5644A, 0xB3AFE640))
      == State(0x5F9C6ABF, 0xBAC634AA, 0x50409FA7, 0x66677653)
  {
    hide MixAdd;
    MixAddIs(State(0x78E2ACCE, 0x741ED542, 0x5100C5E0, 0xE23B80C7),
             State(0xAF869041, 0x5D6E1DD3, 0x87E5FBED, 0xD5C89013),
             State(0xF01AFAFE, 0xE7A82979, 0xD7A5644A, 0xB3AFE640),
             State(0x5F9C6ABF, 0xBAC634AA, 0x50409FA7, 0x66677653));
  }

  lemma Sub12()
    ensures SubShift(State(0x5F9C6ABF, 0xBAC634AA, 0x50409FA7, 0x66677653))
      == State(0xCFB4DBED, 0xF4093808, 0x538502AC, 0x33DE185C)
  {
    hide SubColumn;
    SubWordIs(0x5F, 0x9C, 0x6A, 0xBF, 0xCF, 0xDE, 0x02, 0x08);
    SubWordIs(0xBA, 0xC6, 0x34, 0xAA, 0xF4, 0xB4, 0x18, 0xAC);
    SubWordIs(0x50, 0x40, 0x9F, 0xA7, 0x53, 0x09, 0xDB, 0x5C);
    SubWordIs(0x66, 0x67, 0x76, 0x53, 0x33, 0x85, 0x38, 0xED);
  }

  lemma Mix12()
    ensures MixAdd(State(0xCFB4DBED, 0xF4093808, 0x538502AC, 0x33DE185C),
                   State(0x2541FE71, 0x9BF50025, 0x8813BBD5, 0x5A721C0A))
      == State(0x51660495, 0x43539503, 0x14FB86E4, 0x01922521)
  {
    hide MixAdd;
    MixAddIs(State(0xCFB4DBED, 0xF4093808, 0x538502AC, 0x33DE185C),
             State(0x7427FAE4, 0xD8A69526, 0x9CE83D31, 0x5BE0392B),
             State(0x2541FE71, 0x9BF50025, 0x8813BBD5, 0x5A721C0A),
             State(0x51660495, 0x43539503, 0x14FB86E4, 0x01922521));
  }

  lemma Sub13()
    ensures SubShift(State(0x51660495, 0x43539503, 0x14FB86E4, 0x01922521))
      == State(0xD1ED44FD, 0x1A0F3F2A, 0xFA4FF27B, 0x7C332A69)
  {
    hide SubColumn;
    SubWordIs(0x51, 0x66, 0x04, 0x95, 0xD1, 0x33, 0xF2, 0x2A);
    SubWordIs(0x43, 0x53, 0x95, 0x03, 0x1A, 0xED, 0x2A, 0x7B);
    SubWordIs(0x14, 0xFB, 0x86, 0xE4, 0xFA, 0x0F, 0x44, 0x69);
    SubWordIs(0x01, 0x92, 0x25, 0x21, 0x7C, 0x4F, 0x3F, 0xFD);
  }

  lemma Mix13()
    ensures MixAdd(State(0xD1ED44FD, 0x1A0F3F2A, 0xFA4FF27B, 0x7C332A69),
                   State(0x4E5A6699, 0xA9F24FE0, 0x7E572BAA, 0xCDF8CDEA))
      == State(0x627BCEB9, 0x999D5AAA, 0xC945ECF4, 0x23F56DA5)
  {
    hide MixAdd;
    MixAddIs(State(0xD1ED44FD, 0x1A0F3F2A, 0xFA4FF27B, 0x7C332A69),
             State(0x2C21A820, 0x306F154A, 0xB712C75E, 0xEE0DA04F),
             State(0x4E5A6699, 0xA9F24FE0, 0x7E572BAA, 0xCDF8CDEA),
             State(0x627BCEB9, 0x999D5AAA, 0xC945ECF4, 0x23F56DA5));
  }

  lemma Sub14()
    ensures SubShift(State(0x627BCEB9, 0x999D5AAA, 0xC945ECF4, 0x23F56DA5))
      == State(0xAA5ECE06, 0xEE6E3C56, 0xDDE68BAC, 0x2621BEBF)
  {
    hide SubColumn;
    SubWordIs(0x62, 0x7B, 0xCE, 0xB9, 0xAA, 0x21, 0x8B, 0x56);
    SubWordIs(0x99, 0x9D, 0x5A, 0xAA, 0xEE, 0x5E, 0xBE, 0xAC);
    SubWordIs(0xC9, 0x45, 0xEC, 0xF4, 0xDD, 0x6E, 0xCE, 0xBF);
    SubWordIs(0x23, 0xF5, 0x6D, 0xA5, 0x26, 0xE6, 0x3C, 0x06);
  }

  lemma LastKey()
    ensures Zipped(AddColumns)(State(0xAA5ECE06, 0xEE6E3C56, 0xDDE68BAC, 0x2621BEBF),
                               State(0x24FC79CC, 0xBF0979E9, 0x371AC23C, 0x6D68DE36))
      == State(0x8EA2B7CA, 0x516745BF, 0xEAFC4990, 0x4B496089)
  {
    var t := State(0xAA5ECE06, 0xEE6E3C56, 0xDDE68BAC, 0x2621BEBF);
    var k := State(0x24FC79CC, 0xBF0979E9, 0x371AC23C, 0x6D68DE36);
    assert AddColumns(t.c0, k.c0) == OfWord(0x8EA2B7CA);
    assert AddColumns(t.c1, k.c1) == OfWord(0x516745BF);
    assert AddColumns(t.c2, k.c2) == OfWord(0xEAFC4990);
    assert AddColumns(t.c3, k.c3) == OfWord(0x4B496089);
  }

  // ---------- all rounds ----------

  ghost function ExampleKey(r: nat): Block { RoundKeys(BLANK, ExpandedKey(KEY))(r) }

  ghost function StateAfter(r: nat): Block {
    RoundCipher.Rounds(SubShift, Mapped(MixColumn), Zipped(AddColumns), RoundKeys(BLANK, ExpandedKey(KEY)), INPUT, r)
  }

  lemma RoundKey(r: nat, w0: bv32, w1: bv32, w2: bv32, w3: bv32)
    requires r <= ROUNDS && KeyWordsAre(KEY, 4 * r, w0, w1, w2, w3)
    ensures ExampleKey(r) == State(w0, w1, w2, w3)
  {
    hide KeyColumn, OfWord;
  }

  lemma NextState(r: nat)
    requires r > 0
    ensures StateAfter(r) == MixAdd(SubShift(StateAfter(r - 1)), ExampleKey(r))
  {
    hide SubShift, MixColumn, AddColumns, ExpandedKey;
  }

  lemma State0()
    ensures StateAfter(0) == State(0x00102030, 0x40506070, 0x8090A0B0, 0xC0D0E0F0)
  {
    hide KeyColumn, ExpandedKey;
    Words0();
    RoundKey(0, 0x00010203, 0x04050607, 0x08090A0B, 0x0C0D0E0F);
    var k := State(0x00010203, 0x04050607, 0x08090A0B, 0x0C0D0E0F);
    assert AddColumns(INPUT.c0, k.c0) == OfWord(0x00102030);
    assert AddColumns(INPUT.c1, k.c1) == OfWord(0x40506070);
    assert AddColumns(INPUT.c2, k.c2) == OfWord(0x8090A0B0);
    assert AddColumns(INPUT.c3, k.c3) == OfWord(0xC0D0E0F0);
  }

  lemma FirstRounds()
    ensures StateAfter(7) == State(0xD653A469, 0x6CA0BC0F, 0x5ACAAB5D, 0xB96C5E7D)
  {
    hide StateAfter, SubShift, MixAdd, ExampleKey, KeyColumn, State;
    State0();
    Words0();
    RoundKey(1, 0x10111213, 0x14151617, 0x18191A1B, 0x1C1D1E1F);
    NextState(1);
    Sub1();
    Mix1();
    Words8();
    RoundKey(2, 0xA573C29F, 0xA176C498, 0xA97FCE93, 0xA572C09C);
    NextState(2);
    Sub2();
    Mix2();
    Words12();
    RoundKey(3, 0x1651A8CD, 0x0244BEDA, 0x1A5DA4C1, 0x0640BADE);
    NextState(3);
    Sub3();
    Mix3();
    Words16();
    RoundKey(4, 0xAE87DFF0, 0x0FF11B68, 0xA68ED5FB, 0x03FC1567);
    NextState(4);
    Sub4();
    Mix4();
    Words20();
    RoundKey(5, 0x6DE1F148, 0x6FA54F92, 0x75F8EB53, 0x73B8518D);
    NextState(5);
    Sub5();
    Mix5();
    Words24();
    RoundKey(6, 0xC656827F, 0xC9A79917, 0x6F294CEC, 0x6CD5598B);
    NextState(6);
    Sub6();
    Mix6();
    Words28();
    RoundKey(7, 0x3DE23A75, 0x524775E7, 0x27BF9EB4, 0x5407CF39);
    NextState(7);
    Sub7();
    Mix7();
  }

  lemma MoreRounds()
    ensures StateAfter(13) == State(0x627BCEB9, 0x999D5AAA, 0xC945ECF4, 0x23F56DA5)
  {
    hide StateAfter, SubShift, MixAdd, ExampleKey, KeyColumn, State;
    FirstRounds();
    Words32();
    RoundKey(8, 0x0BDC905F, 0xC27B0948, 0xAD5245A4, 0xC1871C2F);
    NextState(8);
    Sub8();
    Mix8();
    Words36();
    RoundKey(9, 0x45F5A660, 0x17B2D387, 0x300D4D33, 0x640A820A);
    NextState(9);
    Sub9();
    Mix9();
    Words40();
    RoundKey(10, 0x7CCFF71C, 0xBEB4FE54, 0x13E6BBF0, 0xD261A7DF);
    NextState(10);
    Sub10();
    Mix10();
    Words44();
    RoundKey(11, 0xF01AFAFE, 0xE7A82979, 0xD7A5644A, 0xB3AFE640);
    NextState(11);
    Sub11();
    Mix11();
    Words48();
    RoundKey(12, 0x2541FE71, 0x9BF50025, 0x8813BBD5, 0x5A721C0A);
    NextState(12);
    Sub12();
    Mix12();
    Words52();
    RoundKey(13, 0x4E5A6699, 0xA9F24FE0, 0x7E572BAA, 0xCDF8CDEA);
    NextState(13);
    Sub13();
    Mix13();
  }

  /** The cipher gives the output of the example. */
  lemma Example()
    ensures Encrypt(ExpandedKey(KEY), INPUT) == State(0x8EA2B7CA, 0x516745BF, 0xEAFC4990, 0x4B496089)
  {
    hide SubShift, MixColumn, AddColumns, KeyColumn, ExpandedKey, RoundKeys, RoundCipher.Rounds, State;
    MoreRounds();
    Words56();
    RoundKey(14, 0x24FC79CC, 0xBF0979E9, 0x371AC23C, 0x6D68DE36);
    Sub14();
    LastKey();
  }
}
