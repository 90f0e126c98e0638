/** The substitution boxes of sections 5.1.1 and 5.3.2 of FIPS 197. */
module SBoxes {
  import opened GaloisField
  import opened Generator

  // ---------- the multiplicative inverse ----------

  lemma MulZero(x: bv8)
    ensures Mul(x, 0) == 0
  {
    MulAdd(x, 0, 0);
    AddCancel(Mul(x, 0), 0);
    AddCancel(0, 0);
  }

  /** The power table read backwards gives an inverse. */
  lemma PowerOfNegatedLog(x: bv8)
    requires x != 0
    ensures Mul(x, Power(255 - Log(x))) == 1
  {
    var n15, n51, n85, n255 := Milestones();
    MulPower(Log(x), 255 - Log(x));
    assert Log(x) + (255 - Log(x)) == n255;
  }

  /** The multiplicative inverse; {00} is mapped to itself. */
  ghost function Inverse(x: bv8): (y: bv8)
    ensures x == 0 ==> y == 0
    ensures x != 0 ==> Mul(x, y) == 1
  {
    if x == 0 then 0
    else
      PowerOfNegatedLog(x);
      var y :| Mul(x, y) == 1;
      y
  }

  lemma {:induction false} SameExponent(i: nat, j: nat, k: nat)
    requires 1 <= j <= k <= 255 && Power(i + j) == Power(i + k)
    ensures j == k
  {
    PowerCancel(i + j, i + k);
    if j < k {
      NoShortPeriod(k - j);
    }
  }

  lemma InverseUnique(x: bv8, y: bv8)
    requires x != 0 && Mul(x, y) == 1
    ensures y == Inverse(x) && y != 0
  {
    var z := Inverse(x);
    MulZero(x);
    MulPower(Log(x), Log(y));
    MulPower(Log(x), Log(z));
    if Log(y) <= Log(z) {
      SameExponent(Log(x), Log(y), Log(z));
    } else {
      SameExponent(Log(x), Log(z), Log(y));
    }
  }

  lemma MulComm(x: bv8, y: bv8)
    ensures Mul(x, y) == Mul(y, x)
  {
    MulZero(x);
    MulZero(y);
    MulZeroLeft(x);
    MulZeroLeft(y);
    if x != 0 && y != 0 {
      MulPower(Log(x), Log(y));
      MulPower(Log(y), Log(x));
    }
  }

  lemma MulZeroLeft(x: bv8)
    ensures Mul(0, x) == 0
  {}

  lemma MulAssoc(x: bv8, y: bv8, z: bv8)
    ensures Mul(x, Mul(y, z)) == Mul(Mul(x, y), z)
  {
    MulZero(x); MulZero(y); MulZeroLeft(y); MulZeroLeft(z);
    MulZero(Mul(x, y));
    MulZeroLeft(Mul(y, z));
    if x != 0 && y != 0 && z != 0 {
      MulPower(Log(y), Log(z));
      MulPower(Log(x), Log(y));
      MulPower(Log(x), Log(y) + Log(z));
      MulPower(Log(x) + Log(y), Log(z));
    }
  }

  lemma InverseInvolution(x: bv8)
    ensures Inverse(Inverse(x)) == x
  {
    if x != 0 {
      InverseUnique(x, Inverse(x));
      MulComm(x, Inverse(x));
      InverseUnique(Inverse(x), x);
    }
  }

  // ---------- the affine maps ----------

  function RotateByte(x: bv8): bv8 { (x << 1) | (x >> 7) }

  /** The affine map as the sum of a byte and four of its rotations. */
  function Affine(x: bv8): bv8 {
    var y1 := RotateByte(x);
    var y2 := RotateByte(y1);
    var y3 := RotateByte(y2);
    var y4 := RotateByte(y3);
    x ^ y1 ^ y2 ^ y3 ^ (y4 ^ 0x63)
  }

  /** The inverse affine map of section 5.3.2. */
  function InvAffine(x: bv8): bv8 {
    var y1 := RotateByte(x);
    var y3 := RotateByte(RotateByte(y1));
    var y6 := RotateByte(RotateByte(RotateByte(y3)));
    y1 ^ y3 ^ y6 ^ 0x05
  }

  /** Bit i of a byte, {00} or {01}. */
  function Bit(x: bv8, i: nat): bv8
    requires i < 8
  {
    match i
    case 0 => x & 1
    case 1 => (x >> 1) & 1
    case 2 => (x >> 2) & 1
    case 3 => (x >> 3) & 1
    case 4 => (x >> 4) & 1
    case 5 => (x >> 5) & 1
    case 6 => (x >> 6) & 1
    case _ => x >> 7
  }

  /** The sum of six bits, as an exclusive or. */
  function BitSum(a: bv8, b: bv8, c: bv8, d: bv8, e: bv8, f: bv8): bv8 { a ^ b ^ c ^ d ^ e ^ f }

  function Modulo8(i: nat): (r: nat)
    requires i < 16
    ensures r == i % 8
  {
    if i < 8 then i else i - 8
  }

  /** Bit i of the affine map of section 5.1.1: the sum of the bits i, i + 4, i + 5, i + 6 and i + 7 modulo 8
      and of bit i of {63}. */
  function AffineBit(x: bv8, i: nat): bv8
    requires i < 8
  {
    BitSum(Bit(x, i), Bit(x, Modulo8(i + 4)), Bit(x, Modulo8(i + 5)), Bit(x, Modulo8(i + 6)), Bit(x, Modulo8(i + 7)),
      Bit(0x63, i))
  }

  /** The sum of rotations is that map. */
  lemma AffineBitwise(x: bv8, i: nat)
    requires i < 8
    ensures Bit(Affine(x), i) == AffineBit(x, i)
  {
    match i
    case 0 => case 1 => case 2 => case 3 => case 4 => case 5 => case 6 => case _ => assert i == 7;
  }

  lemma SameBits(x: bv8, y: bv8)
    requires forall i: nat | i < 8 :: Bit(x, i) == Bit(y, i)
    ensures x == y
  {
    assert Bit(x, 0) == Bit(y, 0) && Bit(x, 1) == Bit(y, 1) && Bit(x, 2) == Bit(y, 2) && Bit(x, 3) == Bit(y, 3);
    assert Bit(x, 4) == Bit(y, 4) && Bit(x, 5) == Bit(y, 5) && Bit(x, 6) == Bit(y, 6) && Bit(x, 7) == Bit(y, 7);
  }

  /** The sum of rotations is the one byte with the bits that section 5.1.1 asks for. */
  lemma AffineExactly(x: bv8, r: bv8)
    ensures r == Affine(x) <==> forall i: nat | i < 8 :: Bit(r, i) == AffineBit(x, i)
  {
    hide Affine, AffineBit, Bit;
    forall i: nat | i < 8 ensures Bit(Affine(x), i) == AffineBit(x, i) { AffineBitwise(x, i); }
    if forall i: nat | i < 8 :: Bit(r, i) == AffineBit(x, i) {
      SameBits(r, Affine(x));
    }
  }

  lemma InvAffineAffine(x: bv8)
    ensures InvAffine(Affine(x)) == x
  {}

  lemma AffineInvAffine(x: bv8)
    ensures Affine(InvAffine(x)) == x
  {}

  // ---------- the boxes ----------

  ghost function SBox(x: bv8): bv8 { Affine(Inverse(x)) }

  ghost function InvSBox(x: bv8): bv8 { Inverse(InvAffine(x)) }

  lemma InvSBoxSBox(x: bv8)
    ensures InvSBox(SBox(x)) == x
  {
    InvAffineAffine(Inverse(x));
    InverseInvolution(x);
  }

  lemma SBoxInvSBox(x: bv8)
    ensures SBox(InvSBox(x)) == x
  {
    InverseInvolution(InvAffine(x));
    AffineInvAffine(x);
  }
}
