/** itoa: decimal digits two at a time from a table, in the branches that the size of the number selects. */
module JsonItoa {
  import opened JsonNumber
  import opened JsonPrinter
  import opened JsonText
  import opened JsonTree

  const TEN8: nat := 1_0000_0000
  const TEN16: nat := 1_0000_0000_0000_0000

  type Word32 = n: nat | n < TWO32
  type Word64 = n: nat | n < TWO64

  /** Entry i of the table, which has the two digits of each number below 100. */
  function Lut(i: nat): Ch
    requires i < 200
  {
    if i % 2 == 0 then DigitChar(i / 20) else DigitChar(i / 2 % 10)
  }

  // ---------- digits with leading zeros ----------

  /** The last k digits of a number. */
  function Padded(n: nat, k: nat): (ds: Text)
    ensures |ds| == k
  {
    if k == 0 then [] else Padded(n / 10, k - 1) + [DigitChar(n % 10)]
  }

  lemma PowerPositive(k: nat)
    ensures Pow10(k) > 0
  {}

  /** The digits of a number in two parts. */
  lemma {:induction false} PaddedSplit(a: nat, b: nat, i: nat, j: nat)
    requires b < Pow10(j)
    ensures Padded(a * Pow10(j) + b, i + j) == Padded(a, i) + Padded(b, j)
    decreases j
  {
    if j > 0 {
      LastDigit(a, b, Pow10(j - 1));
      PaddedSplit(a, b / 10, i, j - 1);
      assert Padded(a, i) + Padded(b, j) == Padded(a, i) + Padded(b / 10, j - 1) + [DigitChar(b % 10)];
    } else {
      assert Padded(a, i) + Padded(b, 0) == Padded(a, i);
    }
  }

  lemma LastDigit(a: nat, b: nat, p: nat)
    requires b < 10 * p
    ensures (a * (10 * p) + b) / 10 == a * p + b / 10 && (a * (10 * p) + b) % 10 == b % 10 && b / 10 < p
  {
    assert a * (10 * p) == 10 * (a * p);
  }

  /** The digits of a number that is not just its last part. */
  lemma {:induction false} DecimalSplit(a: nat, b: nat, j: nat)
    requires a > 0 && b < Pow10(j)
    ensures Decimal(a * Pow10(j) + b) == Decimal(a) + Padded(b, j)
    decreases j
  {
    if j > 0 {
      PowerPositive(j - 1);
      LastDigit(a, b, Pow10(j - 1));
      AtLeastTen(a, b, Pow10(j - 1));
      DecimalSplit(a, b / 10, j - 1);
      assert Decimal(a) + Padded(b, j) == Decimal(a) + Padded(b / 10, j - 1) + [DigitChar(b % 10)];
    } else {
      assert Decimal(a) + Padded(b, 0) == Decimal(a);
    }
  }

  lemma AtLeastTen(a: nat, b: nat, p: nat)
    requires a > 0 && p > 0
    ensures a * (10 * p) + b >= 10
  {
    assert a * (10 * p) == 10 * (a * p) && a * p >= 1;
  }

  lemma Two(n: nat)
    requires n < 100
    ensures Padded(n, 2) == [Lut(2 * n), Lut(2 * n + 1)]
  {
    assert Padded(n / 10, 1) == Padded(n / 100, 0) + [DigitChar(n / 10)];
  }

  lemma Powers()
    ensures Pow10(0) == 1 && Pow10(1) == 10 && Pow10(2) == 100 && Pow10(3) == 1000 && Pow10(4) == 10000
    ensures Pow10(5) == 100000 && Pow10(6) == 1000000 && Pow10(7) == 10000000 && Pow10(8) == TEN8
  {}

  lemma Four(n: nat)
    requires n < 10000
    ensures
      var d1, d2 := 2 * (n / 100), 2 * (n % 100);
      Padded(n, 4) == [Lut(d1), Lut(d1 + 1), Lut(d2), Lut(d2 + 1)]
  {
    hide Lut, Padded;
    Powers();
    PaddedSplit(n / 100, n % 100, 2, 2);
    Two(n / 100);
    Two(n % 100);
  }

  lemma Eight(n: nat)
    requires n < TEN8
    ensures Padded(n, 8) == Padded(n / 10000, 4) + Padded(n % 10000, 4)
  {
    Powers();
    PaddedSplit(n / 10000, n % 10000, 4, 4);
  }

  // ---------- leading zeros ----------

  lemma {:induction false} DigitCount(n: nat, j: nat)
    requires j > 0
    ensures |Decimal(n)| > j <==> n >= Pow10(j)
    decreases j
  {
    if n >= 10 {
      if j > 1 {
        DigitCount(n / 10, j - 1);
      } else {
        assert Pow10(1) == 10;
      }
    } else {
      PowerPositive(j - 1);
    }
  }

  lemma {:induction false} DecimalPadded(n: nat, k: nat)
    requires n < Pow10(k) && k > 0
    ensures |Decimal(n)| <= k && Decimal(n) == Padded(n, k)[k - |Decimal(n)|..]
    decreases k
  {
    if n >= 10 {
      assert Pow10(1) == 10;
      DecimalPadded(n / 10, k - 1);
      assert Padded(n, k)[k - |Decimal(n)|..] == Padded(n / 10, k - 1)[k - |Decimal(n)|..] + [DigitChar(n % 10)];
    }
  }

  /** Of the first i of k digits, those that are no leading zeros. */
  predicate Leading(t: Text, n: nat, k: nat, i: nat) {
    var l := |Decimal(n)|;
    i <= k && l <= k && t == if i + l <= k then [] else Padded(n, k)[k - l..i]
  }

  /** A digit is written when the number has so many digits, the last one always. */
  lemma LeadingStep(t: Text, n: nat, k: nat, i: nat, written: bool)
    requires i < k && Leading(t, n, k, i) && (written <==> i == k - 1 || n >= Pow10(k - 1 - i))
    ensures Leading(if written then t + [Padded(n, k)[i]] else t, n, k, i + 1)
  {
    hide Decimal, Padded;
    if i < k - 1 {
      DigitCount(n, k - 1 - i);
    }
  }

  lemma LeadingStart(n: nat, k: nat)
    requires n < Pow10(k) && k > 0
    ensures Leading([], n, k, 0)
  {
    DecimalPadded(n, k);
  }

  lemma LeadingAll(t: Text, n: nat, k: nat)
    requires Leading(t, n, k, k) && n < Pow10(k) && k > 0
    ensures t == Decimal(n)
  {
    hide Decimal, Padded;
    DecimalPadded(n, k);
  }

  /** Write a digit if a test says so. */
  method PutIf(t: Text, written: bool, c: Ch, ghost n: nat, ghost k: nat, ghost i: nat) returns (r: Text)
    requires i < k && Leading(t, n, k, i) && c == Padded(n, k)[i]
    requires written <==> i == k - 1 || n >= Pow10(k - 1 - i)
    ensures Leading(r, n, k, i + 1)
  {
    hide Leading;
    LeadingStep(t, n, k, i, written);
    r := if written then t + [c] else t;
  }

  // ---------- the code ----------

  /** All four digits of a number below 10000. */
  method PutFour(t: Text, n: nat) returns (r: Text)
    requires n < 10000
    ensures r == t + Padded(n, 4)
  {
    hide Lut, Padded;
    var d1, d2 := 2 * (n / 100), 2 * (n % 100);
    Four(n);
    r := t + [Lut(d1), Lut(d1 + 1), Lut(d2), Lut(d2 + 1)];
  }

  method PutEight(t: Text, n: nat) returns (r: Text)
    requires n < TEN8
    ensures r == t + Padded(n, 8)
  {
    hide Padded;
    Eight(n);
    r := PutFour(t, n / 10000);
    r := PutFour(r, n % 10000);
  }

  /** The digits of a number below 10000 without leading zeros. The tests may be those of a number that it
      starts. */
  method PutLeadingFour(n: nat, thousands: bool, hundreds: bool, tens: bool) returns (t: Text)
    requires n < 10000 && thousands == (n >= 1000) && hundreds == (n >= 100) && tens == (n >= 10)
    ensures t == Decimal(n)
  {
    hide Lut, Padded, Leading, Decimal;
    Powers();
    Four(n);
    LeadingStart(n, 4);
    var d1, d2 := 2 * (n / 100), 2 * (n % 100);
    t := PutIf([], thousands, Lut(d1), n, 4, 0);
    t := PutIf(t, hundreds, Lut(d1 + 1), n, 4, 1);
    t := PutIf(t, tens, Lut(d2), n, 4, 2);
    t := PutIf(t, true, Lut(d2 + 1), n, 4, 3);
    LeadingAll(t, n, 4);
  }

  /** Numbers below 10^8. */
  method PutLeadingEight(value: nat) returns (t: Text)
    requires value < TEN8
    ensures t == Decimal(value)
  {
    hide Padded, Decimal;
    Powers();
    if value < 10000 {
      t := PutLeadingFour(value, value >= 1000, value >= 100, value >= 10);
    } else {
      var b, c := value / 10000, value % 10000;
      DecimalSplit(b, c, 4);
      t := PutLeadingFour(b, value >= 10000000, value >= 1000000, value >= 100000);
      t := PutFour(t, c);
    }
  }

  method U32toa(value: Word32) returns (t: Text)
    ensures t == Decimal(value)
  {
    hide Padded, Decimal, Lut;
    if value < TEN8 {
      t := PutLeadingEight(value);
    } else {
      var a, rest := value / TEN8, value % TEN8;
      Powers();
      DecimalSplit(a, rest, 8);
      if a >= 10 {
        TwoDigits(a);
        t := [Lut(2 * a), Lut(2 * a + 1)];
      } else {
        OneDigit(a);
        t := [DigitChar(a)];
      }
      t := PutEight(t, rest);
    }
  }

  lemma OneDigit(a: nat)
    requires a < 10
    ensures Decimal(a) == [DigitChar(a)]
  {}

  lemma TwoDigits(a: nat)
    requires 10 <= a < 100
    ensures Decimal(a) == [Lut(2 * a), Lut(2 * a + 1)]
  {
    OneDigit(a / 10);
  }

  /** Numbers from 10^8 to 10^16; the tests for the first eight digits are those of the number itself. */
  method PutSixteen(value: nat) returns (t: Text)
    requires TEN8 <= value < TEN16
    ensures t == Decimal(value)
  {
    hide Lut, Padded, Leading, Decimal;
    var v0, v1 := value / TEN8, value % TEN8;
    var b0, c0 := v0 / 10000, v0 % 10000;
    var d1, d2 := 2 * (b0 / 100), 2 * (b0 % 100);
    var d3, d4 := 2 * (c0 / 100), 2 * (c0 % 100);
    Powers();
    DecimalSplit(v0, v1, 8);
    Eight(v0);
    Four(b0);
    Four(c0);
    LeadingStart(v0, 8);
    t := PutIf([], value >= 10000000 * TEN8, Lut(d1), v0, 8, 0);
    t := PutIf(t, value >= 1000000 * TEN8, Lut(d1 + 1), v0, 8, 1);
    t := PutIf(t, value >= 100000 * TEN8, Lut(d2), v0, 8, 2);
    t := PutIf(t, value >= 10000 * TEN8, Lut(d2 + 1), v0, 8, 3);
    t := PutIf(t, value >= 1000 * TEN8, Lut(d3), v0, 8, 4);
    t := PutIf(t, value >= 100 * TEN8, Lut(d3 + 1), v0, 8, 5);
    t := PutIf(t, value >= 10 * TEN8, Lut(d4), v0, 8, 6);
    t := PutIf(t, true, Lut(d4 + 1), v0, 8, 7);
    LeadingAll(t, v0, 8);
    t := PutEight(t, v1);
  }

  /** The first one to four digits of a number of more than sixteen. */
  method PutFirst(a: nat) returns (t: Text)
    requires 1 <= a < 10000
    ensures t == Decimal(a)
  {
    hide Padded, Decimal, Lut;
    Powers();
    if a < 10 {
      OneDigit(a);
      t := [DigitChar(a)];
    } else if a < 100 {
      TwoDigits(a);
      t := [Lut(2 * a), Lut(2 * a + 1)];
    } else {
      Two(a % 100);
      DecimalSplit(a / 100, a % 100, 2);
      if a < 1000 {
        OneDigit(a / 100);
        t := [DigitChar(a / 100), Lut(2 * (a % 100)), Lut(2 * (a % 100) + 1)];
      } else {
        TwoDigits(a / 100);
        t := [Lut(2 * (a / 100)), Lut(2 * (a / 100) + 1), Lut(2 * (a % 100)), Lut(2 * (a % 100) + 1)];
      }
    }
  }

  method U64toa(value: Word64) returns (t: Text)
    ensures t == Decimal(value)
  {
    hide Padded, Decimal;
    if value < TEN8 {
      t := PutLeadingEight(value);
    } else if value < TEN16 {
      t := PutSixteen(value);
    } else {
      var a, rest := value / TEN16, value % TEN16;
      var v0, v1 := rest / TEN8, rest % TEN8;
      Sixteen(a, rest);
      t := PutFirst(a);
      t := PutEight(t, v0);
      t := PutEight(t, v1);
    }
  }

  lemma Sixteen(a: nat, rest: nat)
    requires a > 0 && rest < TEN16
    ensures Decimal(a * TEN16 + rest) == Decimal(a) + Padded(rest / TEN8, 8) + Padded(rest % TEN8, 8)
  {
    hide Padded, Decimal;
    Powers();
    DecimalSplit(a, rest / TEN8, 8);
    DecimalSplit(a * TEN8 + rest / TEN8, rest % TEN8, 8);
  }

  /** The magnitude of a negative number is its complement and one, in unsigned arithmetic. */
  method I32toa(value: int) returns (t: Text)
    requires 0 - TWO31 <= value < TWO31
    ensures t == IntegerText(value)
  {
    hide Decimal;
    var u: Word32 := value % TWO32;
    if value < 0 {
      u := (TWO32 - 1 - u + 1) % TWO32;
      t := U32toa(u);
      t := ['-'] + t;
    } else {
      t := U32toa(u);
    }
  }

  method I64toa(value: int) returns (t: Text)
    requires 0 - TWO63 <= value < TWO63
    ensures t == IntegerText(value)
  {
    hide Decimal;
    var u: Word64 := value % TWO64;
    if value < 0 {
      u := (TWO64 - 1 - u + 1) % TWO64;
      t := U64toa(u);
      t := ['-'] + t;
    } else {
      t := U64toa(u);
    }
  }
}
