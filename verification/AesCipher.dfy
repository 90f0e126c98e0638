/** A block cipher of n rounds over an arbitrary block type, and its equivalent inverse cipher:
    the same rounds with the inverse layers and transformed round keys (section 5.3.5 of FIPS 197). */
module RoundCipher {

  /** The state before round r + 1: round key 0 added, then r full rounds. */
  function Rounds<B>(sub: B -> B, mix: B -> B, add: (B, B) -> B, key: nat -> B, b: B, r: nat): B {
    if r == 0 then add(b, key(0))
    else add(mix(sub(Rounds(sub, mix, add, key, b, r - 1))), key(r))
  }

  /** n - 1 full rounds and a last one without the mixing layer. */
  function Cipher<B>(sub: B -> B, mix: B -> B, add: (B, B) -> B, key: nat -> B, n: nat, b: B): B
    requires n > 0
  {
    add(sub(Rounds(sub, mix, add, key, b, n - 1)), key(n))
  }

  ghost predicate EquivalentKeys<B>(imix: B -> B, key: nat -> B, dkey: nat -> B, n: nat) {
    dkey(0) == key(n) && dkey(n) == key(0) && forall i: nat | 0 < i < n :: dkey(i) == imix(key(n - i))
  }

  ghost predicate InverseAt<B>(
    sub: B -> B, mix: B -> B, isub: B -> B, imix: B -> B, add: (B, B) -> B, x: B, y: B) {
    && isub(sub(x)) == x
    && imix(mix(x)) == x
    && imix(add(x, y)) == add(imix(x), imix(y))
    && add(add(x, y), y) == x
  }

  ghost predicate InverseLayers<B(!new)>(
    sub: B -> B, mix: B -> B, isub: B -> B, imix: B -> B, add: (B, B) -> B) {
    forall x, y :: InverseAt(sub, mix, isub, imix, add, x, y)
  }

  /** After r inverse rounds the state is where the cipher was r rounds before its end. */
  lemma {:induction false} InverseRounds<B(!new)>(
    sub: B -> B, mix: B -> B, isub: B -> B, imix: B -> B, add: (B, B) -> B,
    key: nat -> B, dkey: nat -> B, n: nat, b: B, r: nat)
    requires r < n
    requires InverseLayers(sub, mix, isub, imix, add)
    requires EquivalentKeys(imix, key, dkey, n)
    ensures Rounds(isub, imix, add, dkey, Cipher(sub, mix, add, key, n, b), r)
         == sub(Rounds(sub, mix, add, key, b, n - 1 - r))
  {
    if r == 0 {
      assert InverseAt(sub, mix, isub, imix, add, sub(Rounds(sub, mix, add, key, b, n - 1)), key(n));
    } else {
      InverseRounds(sub, mix, isub, imix, add, key, dkey, n, b, r - 1);
      var x := Rounds(sub, mix, add, key, b, n - r);
      var y := sub(Rounds(sub, mix, add, key, b, n - r - 1));
      assert InverseAt(sub, mix, isub, imix, add, x, x);
      assert InverseAt(sub, mix, isub, imix, add, y, y);
      assert InverseAt(sub, mix, isub, imix, add, mix(y), key(n - r));
      assert InverseAt(sub, mix, isub, imix, add, y, imix(key(n - r)));
    }
  }

  lemma EquivalentInverse<B(!new)>(
    sub: B -> B, mix: B -> B, isub: B -> B, imix: B -> B, add: (B, B) -> B,
    key: nat -> B, dkey: nat -> B, n: nat, b: B)
    requires n > 0
    requires InverseLayers(sub, mix, isub, imix, add)
    requires EquivalentKeys(imix, key, dkey, n)
    ensures Cipher(isub, imix, add, dkey, n, Cipher(sub, mix, add, key, n, b)) == b
  {
    InverseRounds(sub, mix, isub, imix, add, key, dkey, n, b, n - 1);
    assert InverseAt(sub, mix, isub, imix, add, Rounds(sub, mix, add, key, b, 0), key(0));
    assert InverseAt(sub, mix, isub, imix, add, b, key(0));
  }
}

/** Blocks of four columns, layers that act column by column, and expanded keys as sequences of
    columns, four to a round. Stated for any type of column. */
module Quads {
  import RoundCipher

  datatype Quad<C> = Quad(c0: C, c1: C, c2: C, c3: C)

  function Mapped<C>(f: C -> C): Quad<C> -> Quad<C> {
    (s: Quad<C>) => Quad(f(s.c0), f(s.c1), f(s.c2), f(s.c3))
  }

  function Zipped<C>(add: (C, C) -> C): (Quad<C>, Quad<C>) -> Quad<C> {
    (s: Quad<C>, t: Quad<C>) => Quad(add(s.c0, t.c0), add(s.c1, t.c1), add(s.c2, t.c2), add(s.c3, t.c3))
  }

  ghost predicate ColumnLaws<C>(mix: C -> C, imix: C -> C, add: (C, C) -> C, c: C, d: C) {
    && imix(mix(c)) == c
    && imix(add(c, d)) == add(imix(c), imix(d))
    && add(add(c, d), d) == c
  }

  /** The laws of the layers of a block follow from those of its columns. */
  lemma BlockLaws<C(!new)>(
    sub: Quad<C> -> Quad<C>, isub: Quad<C> -> Quad<C>, mix: C -> C, imix: C -> C, add: (C, C) -> C)
    requires forall s :: isub(sub(s)) == s
    requires forall c, d :: ColumnLaws(mix, imix, add, c, d)
    ensures RoundCipher.InverseLayers(sub, Mapped(mix), isub, Mapped(imix), Zipped(add))
  {
    forall s, t ensures RoundCipher.InverseAt(sub, Mapped(mix), isub, Mapped(imix), Zipped(add), s, t) {
      assert ColumnLaws(mix, imix, add, s.c0, t.c0);
      assert ColumnLaws(mix, imix, add, s.c1, t.c1);
      assert ColumnLaws(mix, imix, add, s.c2, t.c2);
      assert ColumnLaws(mix, imix, add, s.c3, t.c3);
    }
  }

  /** The round keys of an expanded key; past its end, columns of blank. */
  function RoundKeys<C>(blank: C, ks: seq<C>): nat -> Quad<C> {
    (i: nat) =>
      if 4 * i + 3 < |ks| then Quad(ks[4 * i], ks[4 * i + 1], ks[4 * i + 2], ks[4 * i + 3])
      else Quad(blank, blank, blank, blank)
  }

  /** Column j of the round keys in reverse order, mixed unless it is in the first or last. */
  function InverseKeyAt<C>(imix: C -> C, ks: seq<C>, n: nat, j: nat): C
    requires |ks| == 4 * n + 4 && j < |ks|
  {
    var c := ks[4 * (n - j / 4) + j % 4];
    if 4 <= j < 4 * n then imix(c) else c
  }

  function InverseKeys<C>(imix: C -> C, ks: seq<C>, n: nat): (dk: seq<C>)
    requires |ks| == 4 * n + 4
    ensures |dk| == 4 * n + 4
    ensures forall j | 0 <= j < 4 * n + 4 :: dk[j] == InverseKeyAt(imix, ks, n, j)
  {
    seq(4 * n + 4, j requires 0 <= j < 4 * n + 4 => InverseKeyAt(imix, ks, n, j))
  }

  lemma InverseRoundKey<C>(blank: C, imix: C -> C, ks: seq<C>, n: nat, i: nat)
    requires |ks| == 4 * n + 4 && i <= n
    ensures
      var k := RoundKeys(blank, ks)(n - i);
      RoundKeys(blank, InverseKeys(imix, ks, n))(i) == if 0 < i < n then Mapped(imix)(k) else k
  {
    InverseKeyPosition(imix, ks, n, i, 0);
    InverseKeyPosition(imix, ks, n, i, 1);
    InverseKeyPosition(imix, ks, n, i, 2);
    InverseKeyPosition(imix, ks, n, i, 3);
  }

  lemma InverseKeyPosition<C>(imix: C -> C, ks: seq<C>, n: nat, i: nat, q: nat)
    requires |ks| == 4 * n + 4 && i <= n && q < 4
    ensures
      var c := ks[4 * (n - i) + q];
      InverseKeys(imix, ks, n)[4 * i + q] == if 0 < i < n then imix(c) else c
  {
    assert (4 * i + q) / 4 == i && (4 * i + q) % 4 == q;
  }

  lemma EquivalentRoundKeys<C>(blank: C, imix: C -> C, ks: seq<C>, n: nat)
    requires |ks| == 4 * n + 4
    ensures RoundCipher.EquivalentKeys(
              Mapped(imix), RoundKeys(blank, ks), RoundKeys(blank, InverseKeys(imix, ks, n)), n)
  {
    InverseRoundKey(blank, imix, ks, n, 0);
    InverseRoundKey(blank, imix, ks, n, n);
    forall i: nat | 0 < i < n
      ensures RoundKeys(blank, InverseKeys(imix, ks, n))(i) == Mapped(imix)(RoundKeys(blank, ks)(n - i))
    {
      InverseRoundKey(blank, imix, ks, n, i);
    }
  }
}

/** Words of four bytes, most significant first, as get_word and put_word lay them out. */
module Words {

  function Word(b0: bv8, b1: bv8, b2: bv8, b3: bv8): bv32 {
    (b0 as bv32 << 24) | (b1 as bv32 << 16) | (b2 as bv32 << 8) | (b3 as bv32)
  }

  function Byte0(w: bv32): bv8 { (w >> 24) as bv8 }
  function Byte1(w: bv32): bv8 { ((w >> 16) & 0xFF) as bv8 }
  function Byte2(w: bv32): bv8 { ((w >> 8) & 0xFF) as bv8 }
  function Byte3(w: bv32): bv8 { (w & 0xFF) as bv8 }

  lemma WordBytes(b0: bv8, b1: bv8, b2: bv8, b3: bv8)
    ensures Byte0(Word(b0, b1, b2, b3)) == b0 && Byte1(Word(b0, b1, b2, b3)) == b1
    ensures Byte2(Word(b0, b1, b2, b3)) == b2 && Byte3(Word(b0, b1, b2, b3)) == b3
  {}

  lemma BytesXor(v: bv32, w: bv32)
    ensures Byte0(v ^ w) == Byte0(v) ^ Byte0(w) && Byte1(v ^ w) == Byte1(v) ^ Byte1(w)
    ensures Byte2(v ^ w) == Byte2(v) ^ Byte2(w) && Byte3(v ^ w) == Byte3(v) ^ Byte3(w)
  {}
}

/** Columns of the state, and MixColumns and InvMixColumns on one of them
    (sections 5.1.3 and 5.3.3 of FIPS 197). */
module Columns {
  import opened GaloisField
  import opened Generator
  import opened SBoxes

  datatype Column = Column(b0: bv8, b1: bv8, b2: bv8, b3: bv8)

  function AddColumns(v: Column, w: Column): Column {
    Column(Add(v.b0, w.b0), Add(v.b1, w.b1), Add(v.b2, w.b2), Add(v.b3, w.b3))
  }

  function Sum(p: bv8, q: bv8, r: bv8, s: bv8): bv8 { Add(Add(p, q), Add(r, s)) }

  function MixByte(a0: bv8, a1: bv8, a2: bv8, a3: bv8): bv8 {
    Sum(Mul(2, a0), Mul(3, a1), Mul(1, a2), Mul(1, a3))
  }

  function InvMixByte(a0: bv8, a1: bv8, a2: bv8, a3: bv8): bv8 {
    Sum(Mul(0xE, a0), Mul(0xB, a1), Mul(0xD, a2), Mul(0x9, a3))
  }

  function MixColumn(w: Column): Column {
    Column(MixByte(w.b0, w.b1, w.b2, w.b3), MixByte(w.b1, w.b2, w.b3, w.b0),
           MixByte(w.b2, w.b3, w.b0, w.b1), MixByte(w.b3, w.b0, w.b1, w.b2))
  }

  function InvMixColumn(w: Column): Column {
    Column(InvMixByte(w.b0, w.b1, w.b2, w.b3), InvMixByte(w.b1, w.b2, w.b3, w.b0),
           InvMixByte(w.b2, w.b3, w.b0, w.b1), InvMixByte(w.b3, w.b0, w.b1, w.b2))
  }

  // ---------- linearity ----------

  lemma SumAdd(p: bv8, q: bv8, r: bv8, s: bv8, p': bv8, q': bv8, r': bv8, s': bv8)
    ensures Sum(Add(p, p'), Add(q, q'), Add(r, r'), Add(s, s')) == Add(Sum(p, q, r, s), Sum(p', q', r', s'))
  {
    AddInterchange(p, p', q, q');
    AddInterchange(r, r', s, s');
    AddInterchange(Add(p, q), Add(p', q'), Add(r, s), Add(r', s'));
  }

  lemma InvMixByteAdd(a0: bv8, a1: bv8, a2: bv8, a3: bv8, b0: bv8, b1: bv8, b2: bv8, b3: bv8)
    ensures InvMixByte(Add(a0, b0), Add(a1, b1), Add(a2, b2), Add(a3, b3))
         == Add(InvMixByte(a0, a1, a2, a3), InvMixByte(b0, b1, b2, b3))
  {
    MulAdd(0xE, a0, b0);
    MulAdd(0xB, a1, b1);
    MulAdd(0xD, a2, b2);
    MulAdd(0x9, a3, b3);
    SumAdd(Mul(0xE, a0), Mul(0xB, a1), Mul(0xD, a2), Mul(0x9, a3),
           Mul(0xE, b0), Mul(0xB, b1), Mul(0xD, b2), Mul(0x9, b3));
  }

  lemma InvMixColumnAdd(v: Column, w: Column)
    ensures InvMixColumn(AddColumns(v, w)) == AddColumns(InvMixColumn(v), InvMixColumn(w))
  {
    InvMixByteAdd(v.b0, v.b1, v.b2, v.b3, w.b0, w.b1, w.b2, w.b3);
    InvMixByteAdd(v.b1, v.b2, v.b3, v.b0, w.b1, w.b2, w.b3, w.b0);
    InvMixByteAdd(v.b2, v.b3, v.b0, v.b1, w.b2, w.b3, w.b0, w.b1);
    InvMixByteAdd(v.b3, v.b0, v.b1, v.b2, w.b3, w.b0, w.b1, w.b2);
  }

  // ---------- InvMixColumn undoes MixColumn ----------

  /** A multiple of the combination of four bytes, as a combination of multiples. */
  lemma MulSum(c: bv8, p: bv8, q: bv8, r: bv8, s: bv8)
    ensures Mul(c, Sum(p, q, r, s)) == Sum(Mul(c, p), Mul(c, q), Mul(c, r), Mul(c, s))
  {
    MulAdd(c, Add(p, q), Add(r, s));
    MulAdd(c, p, q);
    MulAdd(c, r, s);
  }

  lemma SumMul(p: bv8, q: bv8, r: bv8, s: bv8, x: bv8)
    ensures Sum(Mul(p, x), Mul(q, x), Mul(r, x), Mul(s, x)) == Mul(Sum(p, q, r, s), x)
  {
    MulSum(x, p, q, r, s);
    MulComm(x, p); MulComm(x, q); MulComm(x, r); MulComm(x, s);
    MulComm(x, Sum(p, q, r, s));
  }

  /** The sum of a square of terms by rows is its sum by columns. */
  lemma Transposed(a: Column, b: Column, c: Column, d: Column)
    ensures Sum(Sum(a.b0, a.b1, a.b2, a.b3), Sum(b.b0, b.b1, b.b2, b.b3),
                Sum(c.b0, c.b1, c.b2, c.b3), Sum(d.b0, d.b1, d.b2, d.b3))
         == Sum(Sum(a.b0, b.b0, c.b0, d.b0), Sum(a.b1, b.b1, c.b1, d.b1),
                Sum(a.b2, b.b2, c.b2, d.b2), Sum(a.b3, b.b3, c.b3, d.b3))
  {
    SumAdd(a.b0, a.b1, a.b2, a.b3, b.b0, b.b1, b.b2, b.b3);
    SumAdd(c.b0, c.b1, c.b2, c.b3, d.b0, d.b1, d.b2, d.b3);
    SumAdd(Add(a.b0, b.b0), Add(a.b1, b.b1), Add(a.b2, b.b2), Add(a.b3, b.b3),
           Add(c.b0, d.b0), Add(c.b1, d.b1), Add(c.b2, d.b2), Add(c.b3, d.b3));
  }

  lemma SumRotate(p: bv8, q: bv8, r: bv8, s: bv8)
    ensures Sum(p, q, r, s) == Sum(s, p, q, r)
  {
    AddComm(Add(p, q), Add(r, s));
    AddComm(r, s);
    AddInterchange(s, r, p, q);
    AddComm(r, q);
  }

  /** c times MixByte, with the multipliers combined. */
  lemma MulMixByte(c: bv8, a0: bv8, a1: bv8, a2: bv8, a3: bv8)
    ensures Mul(c, MixByte(a0, a1, a2, a3))
         == Sum(Mul(Mul(c, 2), a0), Mul(Mul(c, 3), a1), Mul(Mul(c, 1), a2), Mul(Mul(c, 1), a3))
  {
    MulSum(c, Mul(2, a0), Mul(3, a1), Mul(1, a2), Mul(1, a3));
    MulAssoc(c, 2, a0);
    MulAssoc(c, 3, a1);
    MulAssoc(c, 1, a2);
    MulAssoc(c, 1, a3);
  }

  /** The four products that InvMixByte sums, each over the same four bytes in the same order. */
  lemma ProductRows(a0: bv8, a1: bv8, a2: bv8, a3: bv8)
    ensures Mul(0xE, MixByte(a0, a1, a2, a3))
         == Sum(Mul(Mul(0xE, 2), a0), Mul(Mul(0xE, 3), a1), Mul(Mul(0xE, 1), a2), Mul(Mul(0xE, 1), a3))
    ensures Mul(0xB, MixByte(a1, a2, a3, a0))
         == Sum(Mul(Mul(0xB, 1), a0), Mul(Mul(0xB, 2), a1), Mul(Mul(0xB, 3), a2), Mul(Mul(0xB, 1), a3))
    ensures Mul(0xD, MixByte(a2, a3, a0, a1))
         == Sum(Mul(Mul(0xD, 1), a0), Mul(Mul(0xD, 1), a1), Mul(Mul(0xD, 2), a2), Mul(Mul(0xD, 3), a3))
    ensures Mul(0x9, MixByte(a3, a0, a1, a2))
         == Sum(Mul(Mul(0x9, 3), a0), Mul(Mul(0x9, 1), a1), Mul(Mul(0x9, 1), a2), Mul(Mul(0x9, 2), a3))
  {
    ProductRow(0xE, Mul(0xE, 1), Mul(0xE, 2), Mul(0xE, 3), a0, a1, a2, a3);
    ProductRow(0xB, Mul(0xB, 1), Mul(0xB, 2), Mul(0xB, 3), a1, a2, a3, a0);
    ProductRow(0xD, Mul(0xD, 1), Mul(0xD, 2), Mul(0xD, 3), a2, a3, a0, a1);
    ProductRow(0x9, Mul(0x9, 1), Mul(0x9, 2), Mul(0x9, 3), a3, a0, a1, a2);
  }

  lemma ProductRow(c: bv8, c1: bv8, c2: bv8, c3: bv8, p: bv8, q: bv8, r: bv8, s: bv8)
    requires c1 == Mul(c, 1) && c2 == Mul(c, 2) && c3 == Mul(c, 3)
    ensures Mul(c, MixByte(p, q, r, s)) == Sum(Mul(c2, p), Mul(c3, q), Mul(c1, r), Mul(c1, s))
    ensures Mul(c, MixByte(p, q, r, s)) == Sum(Mul(c1, s), Mul(c2, p), Mul(c3, q), Mul(c1, r))
    ensures Mul(c, MixByte(p, q, r, s)) == Sum(Mul(c1, r), Mul(c1, s), Mul(c2, p), Mul(c3, q))
    ensures Mul(c, MixByte(p, q, r, s)) == Sum(Mul(c3, q), Mul(c1, r), Mul(c1, s), Mul(c2, p))
  {
    MulMixByte(c, p, q, r, s);
    SumRotate(Mul(c2, p), Mul(c3, q), Mul(c1, r), Mul(c1, s));
    SumRotate(Mul(c1, s), Mul(c2, p), Mul(c3, q), Mul(c1, r));
    SumRotate(Mul(c1, r), Mul(c1, s), Mul(c2, p), Mul(c3, q));
  }

  /** The product of the two multiplier polynomials {0b}x^3 + {0d}x^2 + {09}x + {0e} and
      {03}x^3 + {01}x^2 + {01}x + {02}, modulo x^4 + 1, is {01}. */
  lemma Multipliers()
    ensures Sum(Mul(0xE, 2), Mul(0xB, 1), Mul(0xD, 1), Mul(0x9, 3)) == 1
    ensures Sum(Mul(0xE, 3), Mul(0xB, 2), Mul(0xD, 1), Mul(0x9, 1)) == 0
    ensures Sum(Mul(0xE, 1), Mul(0xB, 3), Mul(0xD, 2), Mul(0x9, 1)) == 0
    ensures Sum(Mul(0xE, 1), Mul(0xB, 1), Mul(0xD, 3), Mul(0x9, 2)) == 0
  {}

  /** Four rows of products of the same bytes, summed. */
  lemma SumOfRows(m: Column, e: Column, b: Column, d: Column, n: Column, a: Column)
    requires m.b0 == Sum(Mul(e.b0, a.b0), Mul(e.b1, a.b1), Mul(e.b2, a.b2), Mul(e.b3, a.b3))
    requires m.b1 == Sum(Mul(b.b0, a.b0), Mul(b.b1, a.b1), Mul(b.b2, a.b2), Mul(b.b3, a.b3))
    requires m.b2 == Sum(Mul(d.b0, a.b0), Mul(d.b1, a.b1), Mul(d.b2, a.b2), Mul(d.b3, a.b3))
    requires m.b3 == Sum(Mul(n.b0, a.b0), Mul(n.b1, a.b1), Mul(n.b2, a.b2), Mul(n.b3, a.b3))
    ensures Sum(m.b0, m.b1, m.b2, m.b3)
         == Sum(Mul(Sum(e.b0, b.b0, d.b0, n.b0), a.b0), Mul(Sum(e.b1, b.b1, d.b1, n.b1), a.b1),
                Mul(Sum(e.b2, b.b2, d.b2, n.b2), a.b2), Mul(Sum(e.b3, b.b3, d.b3, n.b3), a.b3))
  {
    Transposed(Products(e, a), Products(b, a), Products(d, a), Products(n, a));
    SumMul(e.b0, b.b0, d.b0, n.b0, a.b0);
    SumMul(e.b1, b.b1, d.b1, n.b1, a.b1);
    SumMul(e.b2, b.b2, d.b2, n.b2, a.b2);
    SumMul(e.b3, b.b3, d.b3, n.b3, a.b3);
  }

  function Products(c: Column, a: Column): Column {
    Column(Mul(c.b0, a.b0), Mul(c.b1, a.b1), Mul(c.b2, a.b2), Mul(c.b3, a.b3))
  }

  lemma InvMixByteMixed(a0: bv8, a1: bv8, a2: bv8, a3: bv8)
    ensures InvMixByte(MixByte(a0, a1, a2, a3), MixByte(a1, a2, a3, a0),
                       MixByte(a2, a3, a0, a1), MixByte(a3, a0, a1, a2)) == a0
  {
    var m := Column(Mul(0xE, MixByte(a0, a1, a2, a3)), Mul(0xB, MixByte(a1, a2, a3, a0)),
                    Mul(0xD, MixByte(a2, a3, a0, a1)), Mul(0x9, MixByte(a3, a0, a1, a2)));
    var e := Column(Mul(0xE, 2), Mul(0xE, 3), Mul(0xE, 1), Mul(0xE, 1));
    var b := Column(Mul(0xB, 1), Mul(0xB, 2), Mul(0xB, 3), Mul(0xB, 1));
    var d := Column(Mul(0xD, 1), Mul(0xD, 1), Mul(0xD, 2), Mul(0xD, 3));
    var n := Column(Mul(0x9, 3), Mul(0x9, 1), Mul(0x9, 1), Mul(0x9, 2));
    ProductRows(a0, a1, a2, a3);
    SumOfRows(m, e, b, d, n, Column(a0, a1, a2, a3));
    Multipliers();
    OneAndZeros(a0, a1, a2, a3);
  }

  lemma OneAndZeros(a0: bv8, a1: bv8, a2: bv8, a3: bv8)
    ensures Sum(Mul(1, a0), Mul(0, a1), Mul(0, a2), Mul(0, a3)) == a0
  {}

  lemma InvMixColumnMixed(w: Column)
    ensures InvMixColumn(MixColumn(w)) == w
  {
    InvMixByteMixed(w.b0, w.b1, w.b2, w.b3);
    InvMixByteMixed(w.b1, w.b2, w.b3, w.b0);
    InvMixByteMixed(w.b2, w.b3, w.b0, w.b1);
    InvMixByteMixed(w.b3, w.b0, w.b1, w.b2);
  }
}
