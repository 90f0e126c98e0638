/** Sums of repeated doublings, over any type with an addition and a doubling.
    Everything here is stated for arbitrary functions, so that the proofs use only their laws. */
module Doublings {

  /** The sum of dbl^k(b) over the positions k at which the digit is set. */
  function Selected<T>(zero: T, add: (T, T) -> T, dbl: T -> T, digits: seq<bool>, b: T): T {
    if digits == [] then zero
    else if digits[0] then add(b, Selected(zero, add, dbl, digits[1..], dbl(b)))
    else Selected(zero, add, dbl, digits[1..], dbl(b))
  }

  /** The sum respects addition of the doubled values. */
  lemma {:induction false} SelectedAdd<T(!new)>(
    zero: T, add: (T, T) -> T, dbl: T -> T, digits: seq<bool>, b: T, c: T)
    requires add(zero, zero) == zero
    requires forall p, q, r, s :: add(add(p, q), add(r, s)) == add(add(p, r), add(q, s))
    requires forall x, y :: dbl(add(x, y)) == add(dbl(x), dbl(y))
    ensures Selected(zero, add, dbl, digits, add(b, c))
         == add(Selected(zero, add, dbl, digits, b), Selected(zero, add, dbl, digits, c))
  {
    if digits != [] {
      SelectedAdd(zero, add, dbl, digits[1..], dbl(b), dbl(c));
      assert dbl(add(b, c)) == add(dbl(b), dbl(c));
    }
  }

  /** Doubling first or last is the same. */
  lemma {:induction false} SelectedDouble<T(!new)>(
    zero: T, add: (T, T) -> T, dbl: T -> T, digits: seq<bool>, b: T)
    requires dbl(zero) == zero
    requires forall x, y :: dbl(add(x, y)) == add(dbl(x), dbl(y))
    ensures Selected(zero, add, dbl, digits, dbl(b)) == dbl(Selected(zero, add, dbl, digits, b))
  {
    if digits != [] {
      SelectedDouble(zero, add, dbl, digits[1..], dbl(b));
    }
  }

  /** Eight digits written out, for the eight values they select. */
  function EightSum<T>(zero: T, add: (T, T) -> T, digits: seq<bool>,
                       b0: T, b1: T, b2: T, b3: T, b4: T, b5: T, b6: T, b7: T): T
    requires |digits| == 8
  {
    var s7 := if digits[7] then b7 else zero;
    var s6 := if digits[6] then add(b6, s7) else s7;
    var s5 := if digits[5] then add(b5, s6) else s6;
    var s4 := if digits[4] then add(b4, s5) else s5;
    var s3 := if digits[3] then add(b3, s4) else s4;
    var s2 := if digits[2] then add(b2, s3) else s3;
    var s1 := if digits[1] then add(b1, s2) else s2;
    if digits[0] then add(b0, s1) else s1
  }

  lemma SelectedEight<T(!new)>(
    zero: T, add: (T, T) -> T, dbl: T -> T, digits: seq<bool>, b: T)
    requires |digits| == 8
    requires forall x :: add(x, zero) == x
    ensures
      var b1 := dbl(b); var b2 := dbl(b1); var b3 := dbl(b2); var b4 := dbl(b3);
      var b5 := dbl(b4); var b6 := dbl(b5); var b7 := dbl(b6);
      Selected(zero, add, dbl, digits, b) == EightSum(zero, add, digits, b, b1, b2, b3, b4, b5, b6, b7)
  {
    var d1 := digits[1..]; var d2 := d1[1..]; var d3 := d2[1..]; var d4 := d3[1..];
    SelectedFour(zero, add, dbl, digits, b);
    SelectedFour(zero, add, dbl, d4, dbl(dbl(dbl(dbl(b)))));
    assert d4[1..][1..][1..][1..] == [];
  }

  lemma SelectedFour<T(!new)>(
    zero: T, add: (T, T) -> T, dbl: T -> T, digits: seq<bool>, b: T)
    requires |digits| >= 4
    ensures
      var b1 := dbl(b); var b2 := dbl(b1); var b3 := dbl(b2);
      var s4 := Selected(zero, add, dbl, digits[1..][1..][1..][1..], dbl(b3));
      var s3 := if digits[3] then add(b3, s4) else s4;
      var s2 := if digits[2] then add(b2, s3) else s3;
      var s1 := if digits[1] then add(b1, s2) else s2;
      Selected(zero, add, dbl, digits, b) == if digits[0] then add(b, s1) else s1
  {
    var b1 := dbl(b); var b2 := dbl(b1);
    var d1 := digits[1..]; var d2 := d1[1..];
    assert Selected(zero, add, dbl, d2, b2)
        == var s4 := Selected(zero, add, dbl, d2[1..][1..], dbl(dbl(b2)));
           var s3 := if d2[1] then add(dbl(b2), s4) else s4;
           if d2[0] then add(b2, s3) else s3;
  }
}

/** The field GF(2^8) of sections 4.1 and 4.2 of FIPS 197: addition is exclusive or,
    multiplication is modulo x^8 + x^4 + x^3 + x + 1. */
module GaloisField {
  import opened Doublings

  function Add(x: bv8, y: bv8): bv8 { x ^ y }

  /** Multiplication by {02}: x_time, cut back to a byte as every caller does. */
  function XTime(x: bv8): bv8 {
    (x << 1) ^ (if x & 0x80 != 0 then 0x1B else 0x00)
  }

  /** Multiplication by {03}, the step of the power table. */
  function Times3(x: bv8): bv8 { Add(x, XTime(x)) }

  /** The bits of a byte, lowest first. */
  function Bits(a: bv8): seq<bool> {
    [a & 0x01 != 0, a & 0x02 != 0, a & 0x04 != 0, a & 0x08 != 0,
     a & 0x10 != 0, a & 0x20 != 0, a & 0x40 != 0, a & 0x80 != 0]
  }

  /** The product a b, as in section 4.2.1 of FIPS 197: the sum of the x_time images of b
      selected by the bits of a. */
  function Mul(a: bv8, b: bv8): bv8 {
    Selected(0, Add, XTime, Bits(a), b)
  }

  /** {03} to the n-th power. */
  function Power(n: nat): bv8 {
    if n == 0 then 1 else Times3(Power(n - 1))
  }

  // ---------- laws of addition and x_time ----------

  lemma AddComm(p: bv8, q: bv8)
    ensures Add(p, q) == Add(q, p)
  {}

  lemma AddAssoc(p: bv8, q: bv8, r: bv8)
    ensures Add(Add(p, q), r) == Add(p, Add(q, r))
  {}

  lemma AddCancel(p: bv8, q: bv8)
    ensures Add(p, Add(p, q)) == q && Add(p, 0) == p
  {}

  lemma AddInterchange(p: bv8, q: bv8, r: bv8, s: bv8)
    ensures Add(Add(p, q), Add(r, s)) == Add(Add(p, r), Add(q, s))
  {
    AddAssoc(p, q, Add(r, s));
    AddAssoc(q, r, s);
    AddComm(q, r);
    AddAssoc(r, q, s);
    AddAssoc(p, r, Add(q, s));
  }

  lemma AddLaws()
    ensures
      var add := Add;
      && (forall p, q, r, s :: add(add(p, q), add(r, s)) == add(add(p, r), add(q, s)))
      && (forall x :: add(x, 0) == x)
  {
    var add := Add;
    forall p, q, r, s ensures add(add(p, q), add(r, s)) == add(add(p, r), add(q, s)) { AddInterchange(p, q, r, s); }
    forall x ensures add(x, 0) == x { AddCancel(x, 0); }
  }

  lemma XTimeLaws()
    ensures XTime(0) == 0 && forall x, y :: XTime(Add(x, y)) == Add(XTime(x), XTime(y))
  {}

  // ---------- laws of multiplication ----------

  /** Multiplication distributes over addition. */
  lemma MulAdd(a: bv8, b: bv8, c: bv8)
    ensures Mul(a, Add(b, c)) == Add(Mul(a, b), Mul(a, c))
  {
    AddLaws();
    XTimeLaws();
    SelectedAdd(0, Add, XTime, Bits(a), b, c);
  }

  lemma MulXTime(a: bv8, b: bv8)
    ensures Mul(a, XTime(b)) == XTime(Mul(a, b))
  {
    XTimeLaws();
    SelectedDouble(0, Add, XTime, Bits(a), b);
  }

  /** Multiplication commutes with the generator {03}. */
  lemma MulTimes3(a: bv8, b: bv8)
    ensures Mul(a, Times3(b)) == Times3(Mul(a, b))
  {
    MulAdd(a, b, XTime(b));
    MulXTime(a, b);
  }

  /** The multipliers of MixColumns written out. */
  lemma MulTwoThree(x: bv8)
    ensures Mul(2, x) == XTime(x) && Mul(3, x) == Add(x, XTime(x))
  {
    AddLaws();
    SelectedEight(0, Add, XTime, Bits(2), x);
    SelectedEight(0, Add, XTime, Bits(3), x);
  }

  /** A byte is the sum of the powers of two at its bits. */
  lemma SumOfBits(a: bv8)
    ensures EightSum(0, Add, Bits(a), 0x01, 0x02, 0x04, 0x08, 0x10, 0x20, 0x40, 0x80) == a
  {}

  lemma XTimePowers()
    ensures XTime(0x01) == 0x02 && XTime(0x02) == 0x04 && XTime(0x04) == 0x08 && XTime(0x08) == 0x10
    ensures XTime(0x10) == 0x20 && XTime(0x20) == 0x40 && XTime(0x40) == 0x80
  {}

  lemma MulOne(a: bv8)
    ensures Mul(a, 1) == a
  {
    AddLaws();
    SelectedEight(0, Add, XTime, Bits(a), 1);
    XTimePowers();
    SumOfBits(a);
  }

  /** The powers of {03} multiply by adding exponents. */
  lemma {:induction false} MulPower(i: nat, j: nat)
    ensures Mul(Power(i), Power(j)) == Power(i + j)
  {
    if j == 0 {
      MulOne(Power(i));
    } else {
      MulPower(i, j - 1);
      MulTimes3(Power(i), Power(j - 1));
    }
  }
}
