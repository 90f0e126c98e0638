/** The lookup tables of AES_Impl: the boxes, the round constants and the tables that combine
    SubBytes, ShiftRows and MixColumns, generated over GF(2^8). */
module AesTables {
  import opened AesSpec
  import opened ByteTables
  import opened Columns
  import opened GaloisField
  import opened Generator
  import opened SBoxes
  import opened Words

  /** A byte in all four places of a word. */
  function Rep(x: bv8): bv32 { Word(x, x, x, x) }

  // ---------- what the entries stand for ----------

  function E0(s: bv8): Column { Column(Mul(2, s), Mul(1, s), Mul(1, s), Mul(3, s)) }
  function E1(s: bv8): Column { Column(Mul(3, s), Mul(2, s), Mul(1, s), Mul(1, s)) }
  function E2(s: bv8): Column { Column(Mul(1, s), Mul(3, s), Mul(2, s), Mul(1, s)) }
  function E3(s: bv8): Column { Column(Mul(1, s), Mul(1, s), Mul(3, s), Mul(2, s)) }

  function D0(x: bv8): Column { Column(Mul(0xE, x), Mul(0x9, x), Mul(0xD, x), Mul(0xB, x)) }
  function D1(x: bv8): Column { Column(Mul(0xB, x), Mul(0xE, x), Mul(0x9, x), Mul(0xD, x)) }
  function D2(x: bv8): Column { Column(Mul(0xD, x), Mul(0xB, x), Mul(0xE, x), Mul(0x9, x)) }
  function D3(x: bv8): Column { Column(Mul(0x9, x), Mul(0xD, x), Mul(0xB, x), Mul(0xE, x)) }

  function Sum4(a: Column, b: Column, c: Column, d: Column): Column {
    AddColumns(AddColumns(AddColumns(a, b), c), d)
  }

  lemma SumOfFour(p: bv8, q: bv8, r: bv8, s: bv8)
    ensures Add(Add(Add(p, q), r), s) == Sum(p, q, r, s)
    ensures Add(Add(Add(p, q), r), s) == Sum(q, r, s, p)
    ensures Add(Add(Add(p, q), r), s) == Sum(r, s, p, q)
    ensures Add(Add(Add(p, q), r), s) == Sum(s, p, q, r)
  {
    AddAssoc(Add(p, q), r, s);
    SumRotate(p, q, r, s);
    SumRotate(s, p, q, r);
    SumRotate(r, s, p, q);
  }

  /** Four encryption entries add up to a mixed column. */
  lemma EncryptEntries(s0: bv8, s1: bv8, s2: bv8, s3: bv8)
    ensures Sum4(E0(s0), E1(s1), E2(s2), E3(s3)) == MixColumn(Column(s0, s1, s2, s3))
  {
    SumOfFour(Mul(2, s0), Mul(3, s1), Mul(1, s2), Mul(1, s3));
    SumOfFour(Mul(1, s0), Mul(2, s1), Mul(3, s2), Mul(1, s3));
    SumOfFour(Mul(1, s0), Mul(1, s1), Mul(2, s2), Mul(3, s3));
    SumOfFour(Mul(3, s0), Mul(1, s1), Mul(1, s2), Mul(2, s3));
  }

  /** Four decryption entries add up to an inversely mixed column. */
  lemma DecryptEntries(x0: bv8, x1: bv8, x2: bv8, x3: bv8)
    ensures Sum4(D0(x0), D1(x1), D2(x2), D3(x3)) == InvMixColumn(Column(x0, x1, x2, x3))
  {
    SumOfFour(Mul(0xE, x0), Mul(0xB, x1), Mul(0xD, x2), Mul(0x9, x3));
    SumOfFour(Mul(0x9, x0), Mul(0xE, x1), Mul(0xB, x2), Mul(0xD, x3));
    SumOfFour(Mul(0xD, x0), Mul(0x9, x1), Mul(0xE, x2), Mul(0xB, x3));
    SumOfFour(Mul(0xB, x0), Mul(0xD, x1), Mul(0x9, x2), Mul(0xE, x3));
  }

  lemma OfWordXor(v: bv32, w: bv32)
    ensures OfWord(v ^ w) == AddColumns(OfWord(v), OfWord(w))
  {
    BytesXor(v, w);
  }

  // ---------- the entries ----------

  ghost function SBoxEntry(b: bv8): bv32 { Rep(SBox(b)) }
  ghost function InvSBoxEntry(b: bv8): bv32 { Rep(InvSBox(b)) }
  ghost function E0Entry(b: bv8): bv32 { ToWord(E0(SBox(b))) }
  ghost function E1Entry(b: bv8): bv32 { ToWord(E1(SBox(b))) }
  ghost function E2Entry(b: bv8): bv32 { ToWord(E2(SBox(b))) }
  ghost function E3Entry(b: bv8): bv32 { ToWord(E3(SBox(b))) }
  ghost function D0Entry(b: bv8): bv32 { ToWord(D0(InvSBox(b))) }
  ghost function D1Entry(b: bv8): bv32 { ToWord(D1(InvSBox(b))) }
  ghost function D2Entry(b: bv8): bv32 { ToWord(D2(InvSBox(b))) }
  ghost function D3Entry(b: bv8): bv32 { ToWord(D3(InvSBox(b))) }

  // ---------- the power and logarithm tables ----------

  ghost predicate IsPowerTable(power: seq<bv8>) {
    |power| == 256 && forall i: nat | i < 256 :: power[i] == Power(i)
  }

  ghost predicate IsLogTable(logarithm: seq<int>) {
    |logarithm| == 256 && forall b: bv8 | b != 0 :: logarithm[NumberOf(b)] == Log(b)
  }

  lemma PowerIsNew(cnt: nat, x: bv8)
    requires cnt < 256 && x == Power(cnt)
    ensures forall i: nat | 1 <= i < cnt :: Power(i) != x
  {
    forall i: nat | 1 <= i < cnt ensures Power(i) != x {
      if Power(i) == x { PowerInjective(i, cnt); }
    }
  }

  lemma PowersDone(power: seq<bv8>, logarithm: seq<int>)
    requires SequenceFilled(power, logarithm, Power, 256)
    ensures IsPowerTable(power) && IsLogTable(logarithm)
  {}

  /** The helper tables: every power of {03}, and for every byte but {00} its logarithm. The entry of
      {01} is written twice and ends as 255. */
  method FillPowers(power: array<bv8>, logarithm: array<int>)
    requires power.Length == 256 && logarithm.Length == 256 && power as object != logarithm
    modifies power, logarithm
    ensures IsPowerTable(power[..]) && IsLogTable(logarithm[..])
  {
    var x: bv8 := 1;
    for cnt := 0 to 256
      invariant x == Power(cnt)
      invariant SequenceFilled(power[..], logarithm[..], Power, cnt)
    {
      PowerIsNew(cnt, x);
      SetSequence(power, logarithm, Power, cnt, x);
      x := Times3(x);
    }
    PowersDone(power[..], logarithm[..]);
  }

  lemma ProductByLogs(x: bv8, y: bv8, lx: int, ly: int, i: int)
    requires x != 0 && y != 0 && lx == Log(x) && ly == Log(y) && i == (lx + ly) % 255
    ensures 0 <= i < 255 && Power(i) == Mul(x, y)
  {
    MulByLogs(x, y);
    var n: nat := (Log(x) + Log(y)) % 255;
    assert i == n;
  }

  /** The product of two bytes by their logarithms. */
  method MulValue(x: bv8, y: bv8, power: array<bv8>, logarithm: array<int>) returns (r: bv8)
    requires IsPowerTable(power[..]) && IsLogTable(logarithm[..])
    ensures r == Mul(x, y)
  {
    if x != 0 && y != 0 {
      var i := (logarithm[NumberOf(x)] + logarithm[NumberOf(y)]) % 255;
      assert logarithm[..][NumberOf(x)] == Log(x) && logarithm[..][NumberOf(y)] == Log(y);
      ProductByLogs(x, y, logarithm[NumberOf(x)], logarithm[NumberOf(y)], i);
      r := power[i];
    } else {
      MulZero(x);
      MulZeroLeft(y);
      r := 0;
    }
  }

  // ---------- the round constants ----------

  ghost predicate IsRconTable(rcon: seq<bv32>) {
    |rcon| == 10 && forall i: nat | i < 10 :: rcon[i] == ToWord(Rcon(i + 1))
  }

  method FillRcon(rcon: array<bv32>)
    requires rcon.Length == 10
    modifies rcon
    ensures IsRconTable(rcon[..])
  {
    var x: bv8 := 1;
    for cnt := 0 to 10
      invariant x == RconByte(cnt)
      invariant forall i: nat | i < cnt :: rcon[i] == ToWord(Rcon(i + 1))
    {
      rcon[cnt] := (x as bv32) << 24;
      HighByte(x);
      x := XTime(x);
    }
  }

  lemma HighByte(x: bv8)
    ensures (x as bv32) << 24 == Word(x, 0, 0, 0)
  {}

  // ---------- the boxes ----------

  /** The affine map of the S-box as a running sum of rotations: it is the map of section 5.1.1 of FIPS 197 on
      the bits, undone by the inverse map. */
  method SubstituteByte(inverse: bv8) returns (x: bv8)
    ensures forall i: nat | i < 8 :: Bit(x, i) == AffineBit(inverse, i)
    ensures InvAffine(x) == inverse
    ensures x == Affine(inverse)
  {
    AffineExactly(inverse, Affine(inverse));
    InvAffineAffine(inverse);
    hide InvAffine, AffineBit, Bit;
    x := inverse;
    var y := x;
    y := RotateByte(y);
    x := x ^ y;
    y := RotateByte(y);
    x := x ^ y;
    y := RotateByte(y);
    x := x ^ y;
    y := RotateByte(y);
    x := x ^ (y ^ 0x63);
  }

  lemma InverseByLog(b: bv8)
    requires b != 0
    ensures Power(255 - Log(b)) == Inverse(b)
  {
    PowerOfNegatedLog(b);
    InverseUnique(b, Power(255 - Log(b)));
  }

  /** The entry of the power table that the S-box of cnt is built from. */
  lemma InverseInTables(power: seq<bv8>, logarithm: seq<int>, cnt: nat)
    requires IsPowerTable(power) && IsLogTable(logarithm) && 1 <= cnt < 256
    ensures 1 <= logarithm[cnt] <= 255 && power[255 - logarithm[cnt]] == Inverse(ByteOf(cnt))
  {
    var b := ByteOf(cnt);
    NumberOfByte(cnt);
    NumberOfZero();
    assert b != 0;
    InverseByLog(b);
  }

  lemma SBoxInjective()
    ensures forall a, b | SBox(a) == SBox(b) :: a == b
  {
    forall a, b | SBox(a) == SBox(b) ensures a == b {
      InvSBoxSBox(a);
      InvSBoxSBox(b);
    }
  }

  lemma SBoxOfZero()
    ensures ByteOf(0) == 0 && SBox(0) == 0x63 && Rep(0x63) == 0x63636363 && Rep(0) == 0
  {}

  lemma InverseBoxDone(inv: seq<bv32>)
    requires InverseFilled(inv, SBox, Rep, 256)
    ensures IsTable(inv, InvSBoxEntry)
  {
    forall b ensures SBox(InvSBox(b)) == b { SBoxInvSBox(b); }
    InverseDone(inv, SBox, InvSBox, Rep, InvSBoxEntry);
  }

  method SetInverse(inv: array<bv32>, ghost cnt: nat, b: bv8, x: bv8)
    requires InverseFilled(inv[..], SBox, Rep, cnt) && cnt < 256 && b == ByteOf(cnt) && x == SBox(b)
    modifies inv
    ensures InverseFilled(inv[..], SBox, Rep, cnt + 1)
  {
    SBoxInjective();
    InverseStep(inv[..], SBox, Rep, cnt, x);
    ghost var v := inv[..][NumberOf(x) := Rep(b)];
    inv[NumberOf(x)] := Rep(b);
    assert inv[..] == v;
  }

  method FillBoxes(power: array<bv8>, logarithm: array<int>, sbox: array<bv32>, inv: array<bv32>)
    requires IsPowerTable(power[..]) && IsLogTable(logarithm[..])
    requires sbox.Length == 256 && inv.Length == 256 && sbox != inv
    requires power as object !in {sbox, inv} && logarithm as object !in {sbox, inv}
    modifies sbox, inv
    ensures IsTable(sbox[..], SBoxEntry) && IsTable(inv[..], InvSBoxEntry)
  {
    SBoxOfZero();
    SetEntry(sbox, SBoxEntry, 0, 0x63636363);
    SetInverse(inv, 0, 0, 0x63);
    for cnt := 1 to 256
      invariant TableFilled(sbox[..], SBoxEntry, cnt) && InverseFilled(inv[..], SBox, Rep, cnt)
    {
      InverseInTables(power[..], logarithm[..], cnt);
      var x := SubstituteByte(power[255 - logarithm[cnt]]);
      SetEntry(sbox, SBoxEntry, cnt, Rep(x));
      SetInverse(inv, cnt, ByteOf(cnt), x);
    }
    TableDone(sbox[..], SBoxEntry);
    InverseBoxDone(inv[..]);
  }

  // ---------- the combined tables ----------

  lemma RepByte(x: bv8)
    ensures (Rep(x) & 0xFF) as bv8 == x
  {}

  /** The words of the encryption tables for the substituted byte x, its double y and their sum z. */
  lemma EncryptWords(b: bv8, x: bv8, y: bv8, z: bv8)
    requires x == SBox(b) && y == XTime(x) && z == Add(x, y)
    ensures E0Entry(b) == Word(y, x, x, z) && E1Entry(b) == Word(z, y, x, x)
    ensures E2Entry(b) == Word(x, z, y, x) && E3Entry(b) == Word(x, x, z, y)
  {
    MulTwoThree(x);
    MulUnit(x);
  }

  lemma LowByteOfEntry(table: seq<bv32>, entry: bv8 -> bv32, cnt: nat, s: bv8, x: bv8)
    requires IsTable(table, entry) && cnt < 256 && entry(ByteOf(cnt)) == Rep(s)
    requires x == (table[cnt] & 0xFF) as bv8
    ensures x == s
  {
    TableAt(table, entry, cnt);
    RepByte(s);
  }

  method FillEncryptTables(sbox: array<bv32>, e0: array<bv32>, e1: array<bv32>, e2: array<bv32>, e3: array<bv32>)
    requires IsTable(sbox[..], SBoxEntry)
    requires e0.Length == 256 && e1.Length == 256 && e2.Length == 256 && e3.Length == 256
    requires e0 != e1 && e0 != e2 && e0 != e3 && e1 != e2 && e1 != e3 && e2 != e3
    requires sbox != e0 && sbox != e1 && sbox != e2 && sbox != e3
    modifies e0, e1, e2, e3
    ensures IsTable(e0[..], E0Entry) && IsTable(e1[..], E1Entry)
    ensures IsTable(e2[..], E2Entry) && IsTable(e3[..], E3Entry)
  {
    for cnt := 0 to 256
      invariant TableFilled(e0[..], E0Entry, cnt) && TableFilled(e1[..], E1Entry, cnt)
      invariant TableFilled(e2[..], E2Entry, cnt) && TableFilled(e3[..], E3Entry, cnt)
    {
      var x := (sbox[cnt] & 0xFF) as bv8;
      LowByteOfEntry(sbox[..], SBoxEntry, cnt, SBox(ByteOf(cnt)), x);
      var y := XTime(x);
      var z := Add(x, y);
      EncryptWords(ByteOf(cnt), x, y, z);
      SetEntry(e0, E0Entry, cnt, Word(y, x, x, z));
      SetEntry(e1, E1Entry, cnt, Word(z, y, x, x));
      SetEntry(e2, E2Entry, cnt, Word(x, z, y, x));
      SetEntry(e3, E3Entry, cnt, Word(x, x, z, y));
    }
    TableDone(e0[..], E0Entry);
    TableDone(e1[..], E1Entry);
    TableDone(e2[..], E2Entry);
    TableDone(e3[..], E3Entry);
  }

  lemma DecryptWords(v: bv8, x: bv8, a: bv8, b: bv8, c: bv8, d: bv8)
    requires x == InvSBox(v)
    requires a == Mul(0xE, x) && b == Mul(0x9, x) && c == Mul(0xD, x) && d == Mul(0xB, x)
    ensures D0Entry(v) == Word(a, b, c, d) && D1Entry(v) == Word(d, a, b, c)
    ensures D2Entry(v) == Word(c, d, a, b) && D3Entry(v) == Word(b, c, d, a)
  {
    assert D0(x) == Column(a, b, c, d);
    assert D1(x) == Column(d, a, b, c);
    assert D2(x) == Column(c, d, a, b);
    assert D3(x) == Column(b, c, d, a);
  }

  method FillDecryptTables(power: array<bv8>, logarithm: array<int>, inv: array<bv32>,
                           d0: array<bv32>, d1: array<bv32>, d2: array<bv32>, d3: array<bv32>)
    requires IsPowerTable(power[..]) && IsLogTable(logarithm[..]) && IsTable(inv[..], InvSBoxEntry)
    requires d0.Length == 256 && d1.Length == 256 && d2.Length == 256 && d3.Length == 256
    requires d0 != d1 && d0 != d2 && d0 != d3 && d1 != d2 && d1 != d3 && d2 != d3
    requires inv != d0 && inv != d1 && inv != d2 && inv != d3
    requires power as object !in {d0, d1, d2, d3} && logarithm as object !in {d0, d1, d2, d3}
    modifies d0, d1, d2, d3
    ensures IsTable(d0[..], D0Entry) && IsTable(d1[..], D1Entry)
    ensures IsTable(d2[..], D2Entry) && IsTable(d3[..], D3Entry)
  {
    for cnt := 0 to 256
      invariant TableFilled(d0[..], D0Entry, cnt) && TableFilled(d1[..], D1Entry, cnt)
      invariant TableFilled(d2[..], D2Entry, cnt) && TableFilled(d3[..], D3Entry, cnt)
    {
      var x := (inv[cnt] & 0xFF) as bv8;
      LowByteOfEntry(inv[..], InvSBoxEntry, cnt, InvSBox(ByteOf(cnt)), x);
      var a := MulValue(0xE, x, power, logarithm);
      var b := MulValue(0x9, x, power, logarithm);
      var c := MulValue(0xD, x, power, logarithm);
      var d := MulValue(0xB, x, power, logarithm);
      DecryptWords(ByteOf(cnt), x, a, b, c, d);
      SetEntry(d0, D0Entry, cnt, Word(a, b, c, d));
      SetEntry(d1, D1Entry, cnt, Word(d, a, b, c));
      SetEntry(d2, D2Entry, cnt, Word(c, d, a, b));
      SetEntry(d3, D3Entry, cnt, Word(b, c, d, a));
    }
    TableDone(d0[..], D0Entry);
    TableDone(d1[..], D1Entry);
    TableDone(d2[..], D2Entry);
    TableDone(d3[..], D3Entry);
  }
}
