/** Sets of exponents closed under addition and cancellation: the periods of a power sequence. */
module Periods {

  ghost predicate AddsUp(p: nat -> bool, a: nat, b: nat) {
    p(b) ==> (p(a) <==> p(a + b))
  }

  ghost predicate Closed(p: nat -> bool) {
    p(0) && forall a: nat, b: nat :: AddsUp(p, a, b)
  }

  lemma {:induction false} Multiples(p: nat -> bool, d: nat, n: nat)
    requires Closed(p) && p(d)
    ensures p(d * n)
  {
    if n > 0 {
      Multiples(p, d, n - 1);
      assert AddsUp(p, d * (n - 1), d);
      assert d * n == d * (n - 1) + d;
    }
  }

  lemma InverseModulo17(r: nat) returns (s: nat)
    requires 0 < r < 17
    ensures r * s % 17 == 1
  {
    if r == 1 { s := 1; } else if r == 2 { s := 9; } else if r == 3 { s := 6; } else if r == 4 { s := 13; }
    else if r == 5 { s := 7; } else if r == 6 { s := 3; } else if r == 7 { s := 5; } else if r == 8 { s := 15; }
    else if r == 9 { s := 2; } else if r == 10 { s := 12; } else if r == 11 { s := 14; } else if r == 12 { s := 10; }
    else if r == 13 { s := 4; } else if r == 14 { s := 11; } else if r == 15 { s := 8; } else { s := 16; }
  }

  lemma InverseModulo5(r: nat) returns (s: nat)
    requires 0 < r < 5
    ensures r * s % 5 == 1
  {
    if r == 1 { s := 1; } else if r == 2 { s := 3; } else if r == 3 { s := 2; } else { s := 4; }
  }

  lemma Rearranged(q: nat, k: nat, r: nat, s: nat, t: nat, c: nat)
    requires r * s == q * t + 1
    ensures (q * k + r) * (s * c) == c + (q * c) * (k * s + t)
  {}

  /** If d has an inverse s modulo q, and d is a period, then so is c = 255 / q. */
  lemma Quotient(p: nat -> bool, d: nat, k: nat, r: nat, q: nat, c: nat, s: nat)
    requires Closed(p) && p(d) && p(255)
    requires q > 0 && q * c == 255 && d == q * k + r && r * s % q == 1
    ensures p(c)
  {
    var t := r * s / q;
    Rearranged(q, k, r, s, t, c);
    Multiples(p, d, s * c);
    Multiples(p, 255, k * s + t);
    assert AddsUp(p, c, 255 * (k * s + t));
  }

  /** If 255 is a period but none of its quotients by its primes 3, 5 and 17 is, nothing below it is. */
  lemma OrderIs255(p: nat -> bool, d: nat)
    requires Closed(p) && p(255) && !p(15) && !p(51) && !p(85)
    requires 0 < d < 255
    ensures !p(d)
  {
    if p(d) {
      if d % 17 != 0 {
        var s := InverseModulo17(d % 17);
        Quotient(p, d, d / 17, d % 17, 17, 15, s);
      } else if d % 5 != 0 {
        var s := InverseModulo5(d % 5);
        Quotient(p, d, d / 5, d % 5, 5, 51, s);
      } else {
        var r := d % 3;
        assert r == 1 || r == 2;
        Quotient(p, d, d / 3, r, 3, 85, r);
      }
    }
  }
}

/** The byte {03} generates the multiplicative group of GF(2^8), which is what makes the power
    and logarithm tables of AES_Impl::create_tables total. */
module Generator {
  import opened Doublings
  import opened GaloisField
  import Counting
  import Periods

  // ---------- the order of {03} is 255 ----------

  lemma MulWrittenOut(a: bv8, b: bv8)
    ensures
      var b1 := XTime(b); var b2 := XTime(b1); var b3 := XTime(b2); var b4 := XTime(b3);
      var b5 := XTime(b4); var b6 := XTime(b5); var b7 := XTime(b6);
      Mul(a, b) == EightSum(0, Add, Bits(a), b, b1, b2, b3, b4, b5, b6, b7)
  {
    AddLaws();
    SelectedEight(0, Add, XTime, Bits(a), b);
  }

  lemma MulUnit(x: bv8)
    ensures Mul(1, x) == x
  {}

  lemma SmallProducts()
    ensures Mul(0x0F, 0x0F) == 0x55 && Mul(0x55, 0x55) == 0xA1 && Mul(0xA1, 0x0F) == 0x35 && Mul(0x35, 0x05) == 0xE1
  {
    MulWrittenOut(0x0F, 0x0F);
    MulWrittenOut(0x55, 0x55);
    MulWrittenOut(0xA1, 0x0F);
    MulWrittenOut(0x35, 0x05);
  }

  lemma LargeProducts()
    ensures Mul(0xE1, 0xE1) == 0x5C && Mul(0x5C, 0xE1) == 0x0C && Mul(0x0C, 0x5C) == 0xBD
    ensures Mul(0xBD, 0xBD) == 0xBC && Mul(0xBC, 0xBD) == 0x01
  {
    MulWrittenOut(0xE1, 0xE1);
    MulWrittenOut(0x5C, 0xE1);
    MulWrittenOut(0x0C, 0x5C);
    MulWrittenOut(0xBD, 0xBD);
    MulWrittenOut(0xBC, 0xBD);
  }

  lemma PowerSum(i: nat, x: bv8, j: nat, y: bv8, n: nat, z: bv8)
    requires Power(i) == x && Power(j) == y && Mul(x, y) == z && n == i + j
    ensures Power(n) == z
  {
    MulPower(i, j);
  }

  /** The exponents are out-parameters so that no power is ever computed step by step. */
  lemma FirstPowers() returns (n15: nat, n17: nat)
    ensures n15 == 15 && n17 == 17 && Power(n15) == 0x35 && Power(n17) == 0xE1
  {
    SmallProducts();
    var n2, n3, n6, n12 := 2, 3, 6, 12;
    n15, n17 := 15, 17;
    assert Power(n2) == 0x05 && Power(n3) == 0x0F;
    PowerSum(n3, 0x0F, n3, 0x0F, n6, 0x55);
    PowerSum(n6, 0x55, n6, 0x55, n12, 0xA1);
    PowerSum(n12, 0xA1, n3, 0x0F, n15, 0x35);
    PowerSum(n15, 0x35, n2, 0x05, n17, 0xE1);
  }

  lemma Milestones() returns (n15: nat, n51: nat, n85: nat, n255: nat)
    ensures n15 == 15 && n51 == 51 && n85 == 85 && n255 == 255
    ensures Power(n15) == 0x35 && Power(n51) == 0x0C && Power(n85) == 0xBD && Power(n255) == 0x01
  {
    LargeProducts();
    var n17, n34, n170: nat;
    n15, n17 := FirstPowers();
    n34, n51, n85, n170, n255 := 34, 51, 85, 170, 255;
    PowerSum(n17, 0xE1, n17, 0xE1, n34, 0x5C);
    PowerSum(n34, 0x5C, n17, 0xE1, n51, 0x0C);
    PowerSum(n51, 0x0C, n34, 0x5C, n85, 0xBD);
    PowerSum(n85, 0xBD, n85, 0xBD, n170, 0xBC);
    PowerSum(n170, 0xBC, n85, 0xBD, n255, 0x01);
  }

  predicate IsPeriod(n: nat) { Power(n) == 1 }

  lemma PeriodsClosed()
    ensures Periods.Closed(IsPeriod)
  {
    forall a: nat, b: nat ensures Periods.AddsUp(IsPeriod, a, b) {
      MulPower(a, b);
      MulOne(Power(a));
    }
  }

  lemma NoShortPeriod(d: nat)
    requires 0 < d < 255
    ensures Power(d) != 1
  {
    PeriodsClosed();
    var n15, n51, n85, n255 := Milestones();
    assert IsPeriod(n255) && !IsPeriod(n15) && !IsPeriod(n51) && !IsPeriod(n85);
    Periods.OrderIs255(IsPeriod, d);
    assert !IsPeriod(d);
  }

  /** Exponents count modulo 255. */
  lemma PowerShift(n: nat)
    ensures Power(255 + n) == Power(n)
  {
    var n15, n51, n85, n255 := Milestones();
    MulUnit(Power(n));
    PowerSum(n255, 1, n, Power(n), 255 + n, Power(n));
  }

  lemma {:induction false} PowerPeriod(n: nat, m: nat, e: nat)
    requires e == 255 * n + m
    ensures Power(e) == Power(m)
  {
    if n > 0 {
      PowerPeriod(n - 1, m, e - 255);
      PowerShift(e - 255);
    }
  }

  // ---------- every byte but {00} is a power of {03} ----------

  lemma Times3Injective(x: bv8, y: bv8)
    requires Times3(x) == Times3(y)
    ensures x == y
  {}

  lemma Times3NonZero(x: bv8)
    requires x != 0
    ensures Times3(x) != 0
  {}

  lemma {:induction false} PowerCancel(i: nat, j: nat)
    requires i <= j && Power(i) == Power(j)
    ensures Power(j - i) == 1
  {
    if i > 0 {
      Times3Injective(Power(i - 1), Power(j - 1));
      PowerCancel(i - 1, j - 1);
    }
  }

  lemma {:induction false} PowerNonZero(n: nat)
    ensures Power(n) != 0
  {
    if n > 0 {
      PowerNonZero(n - 1);
      Times3NonZero(Power(n - 1));
    }
  }

  /** Distinct exponents from 1 to 255 have distinct powers. */
  lemma {:induction false} PowerInjective(i: nat, j: nat)
    requires 1 <= i <= 255 && 1 <= j <= 255 && Power(i) == Power(j)
    ensures i == j
  {
    if i < j {
      PowerCancel(i, j);
      NoShortPeriod(j - i);
    } else if j < i {
      PowerCancel(j, i);
      NoShortPeriod(i - j);
    }
  }

  /** {03}^n as a number. */
  function PowerNumber(n: nat): int { Power(n) as int }

  lemma PowerNumberInjective(i: nat, j: nat)
    requires 1 <= i <= 255 && 1 <= j <= 255 && PowerNumber(i) == PowerNumber(j)
    ensures i == j
  {
    SameNumber(Power(i), Power(j));
    PowerInjective(i, j);
  }

  lemma SameNumber(x: bv8, y: bv8)
    requires x as int == y as int
    ensures x == y
  {}

  lemma PowerNumberRange(n: nat)
    ensures 1 <= PowerNumber(n) <= 255
  {
    PowerNonZero(n);
    SameNumber(Power(n), Power(n));
    if PowerNumber(n) == 0 {
      SameNumber(Power(n), 0);
    }
  }

  /** Every number from 1 to 255 is a power of {03}. */
  lemma PowerNumberSurjective(v: int)
    requires 1 <= v <= 255
    ensures exists i: nat :: 1 <= i <= 255 && PowerNumber(i) == v
  {
    forall i: nat | 1 <= i <= 255 ensures 1 <= PowerNumber(i) <= 255 { PowerNumberRange(i); }
    forall i: nat, j: nat | 1 <= i <= 255 && 1 <= j <= 255 && PowerNumber(i) == PowerNumber(j) ensures i == j {
      PowerNumberInjective(i, j);
    }
    Counting.InjectiveIsSurjective(PowerNumber, 255, v);
  }

  /** The logarithm to base {03}, from 1 to 255. */
  ghost function Log(x: bv8): (i: nat)
    requires x != 0
    ensures 1 <= i <= 255 && Power(i) == x
  {
    var v := x as int;
    assert v != 0 by { if v == 0 { SameNumber(x, 0); } }
    PowerNumberSurjective(v);
    var i: nat :| 1 <= i <= 255 && PowerNumber(i) == v;
    SameNumber(Power(i), x);
    i
  }

  /** Multiplication by adding logarithms modulo 255, as mul_value does. */
  lemma MulByLogs(x: bv8, y: bv8)
    requires x != 0 && y != 0
    ensures Power((Log(x) + Log(y)) % 255) == Mul(x, y)
  {
    var n := Log(x) + Log(y);
    MulPower(Log(x), Log(y));
    PowerPeriod(n / 255, n % 255, n);
  }
}

/** A one-to-one map of 1..n into itself reaches every number of 1..n. */
module Counting {

  /** The values of f on 1..k. */
  ghost function Values(f: nat -> int, k: nat): (s: set<int>)
    ensures forall v :: v in s <==> exists i: nat :: 1 <= i <= k && f(i) == v
  {
    if k == 0 then {} else Values(f, k - 1) + {f(k)}
  }

  lemma {:induction false} CountValues(f: nat -> int, k: nat)
    requires forall i: nat, j: nat | 1 <= i <= k && 1 <= j <= k && f(i) == f(j) :: i == j
    ensures |Values(f, k)| == k
  {
    if k > 0 {
      CountValues(f, k - 1);
      assert f(k) !in Values(f, k - 1);
    }
  }

  lemma {:induction false} CountInRange(s: set<int>, n: nat)
    requires forall v :: v in s ==> 1 <= v <= n
    ensures |s| <= n
  {
    if n == 0 {
      assert forall v :: v !in s;
    } else {
      CountInRange(s - {n}, n - 1);
    }
  }

  lemma InjectiveIsSurjective(f: nat -> int, n: nat, v: int)
    requires forall i: nat, j: nat | 1 <= i <= n && 1 <= j <= n && f(i) == f(j) :: i == j
    requires forall i: nat | 1 <= i <= n :: 1 <= f(i) <= n
    requires 1 <= v <= n
    ensures exists i: nat :: 1 <= i <= n && f(i) == v
  {
    var s := Values(f, n);
    CountValues(f, n);
    if v !in s {
      CountInRange(s + {v}, n);
    }
  }
}
