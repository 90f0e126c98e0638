/** Which number texts drive a positive exponent beyond an int while it is read. */
module JsonExponent {
  import opened JsonNumber
  import opened JsonPrinter
  import opened JsonText

  /** The digits of a fraction that may count. */
  const MAX_COUNTED := 214748055

  /** A value that is not too big yet, and one more digit. */
  lemma OneMoreDigit(ds: Text, k: nat, counted: nat)
    requires AllDigits(ds) && StepOverflows(ds, MAX_EXPONENT + counted, k)
    ensures counted > MAX_COUNTED
  {
    hide Value;
    assert ds[..k] + [ds[k]] == ds[..k + 1];
    ValueMore(ds[..k], ds[k]);
  }

  function Zeros(n: nat): (s: Text)
    ensures |s| == n && AllDigits(s)
  {
    seq(n, _ => '0')
  }

  /** Zeros after a point all count. */
  lemma {:induction false} ZerosCount(n: nat)
    ensures AddDigits(Significand(0, 0, 0), Zeros(n)) == Significand(0, 0, n)
  {
    if n > 0 {
      ZerosCount(n - 1);
      assert Zeros(n)[..n - 1] == Zeros(n - 1);
    }
  }

  const EXPONENT := 2147483649

  /** A zero with n digits behind the point and an exponent of 2^31 + 1. */
  function LongZero(n: nat): Text { "0." + Zeros(n) + "e" + Decimal(EXPONENT) }

  lemma LongZeroParts(n: nat)
    requires n > 0
    ensures NumberParts(LongZero(n)) == Parts(false, "0", true, Zeros(n), true, false, Decimal(EXPONENT), [])
    ensures CountedDigits(NumberParts(LongZero(n))) == n
  {
    hide Decimal, DigitRun, Zeros, Value, AddDigits, FractionParts;
    var s := LongZero(n);
    var t := "e" + Decimal(EXPONENT);
    assert s[..1] == "0" && s[1..] == "." + (Zeros(n) + t);
    PointParts(n, Decimal(EXPONENT));
    ZeroValue("0");
    ZerosCount(n);
  }

  lemma PointParts(n: nat, ds: Text)
    requires n > 0 && ds != [] && AllDigits(ds)
    ensures FractionParts(false, "0", "." + (Zeros(n) + ("e" + ds)))
         == Parts(false, "0", true, Zeros(n), true, false, ds, [])
  {
    hide Decimal, DigitRun, Zeros, Value, ExponentParts;
    var t := "e" + ds;
    var s := "." + (Zeros(n) + t);
    RunOfDigits(Zeros(n), t);
    assert s[1..] == Zeros(n) + t && s[1 + n..] == t;
    PowerParts(Zeros(n), ds);
  }

  lemma PowerParts(fraction: Text, ds: Text)
    requires ds != [] && AllDigits(ds) && AllDigits(fraction)
    ensures ExponentParts(false, "0", true, fraction, "e" + ds)
         == Parts(false, "0", true, fraction, true, false, ds, [])
  {
    hide DigitRun;
    assert ("e" + ds)[1..] == ds && ds + [] == ds;
    RunOfDigits(ds, []);
  }

  lemma LongZeroOverflows(n: nat)
    requires n > MAX_COUNTED
    ensures NumberParts(LongZero(n)).Parts? && ExponentOverflows(NumberParts(LongZero(n)))
  {
    hide Decimal, NumberParts, Value, LongZero;
    LongZeroParts(n);
    var ds := Decimal(EXPONENT);
    Unrolled(EXPONENT);
    DecimalValue(EXPONENT);
    DecimalValue(EXPONENT / 10);
    var k := |ds| - 1;
    assert ds[..k] == Decimal(EXPONENT / 10) && ds[..k + 1] == ds;
    assert StepOverflows(ds, MAX_EXPONENT + n, k);
  }

  lemma Unrolled(n: nat)
    requires n >= 10
    ensures Decimal(n) == Decimal(n / 10) + [DigitChar(n % 10)] && |Decimal(n / 10)| > 0
  {}

  /** No text with that many digits that count drives its exponent beyond an int, if and only if there are at most
      214748055 of them. */
  lemma ExponentFits(n: nat)
    ensures
      (forall s: Text | NumberParts(s).Parts? && CountedDigits(NumberParts(s)) == n :: !ExponentOverflows(NumberParts(s)))
      <==> n <= MAX_COUNTED
  {
    hide NumberParts, CountedDigits, LongZero;
    if n <= MAX_COUNTED {
      forall s: Text | NumberParts(s).Parts? && CountedDigits(NumberParts(s)) == n
        ensures !ExponentOverflows(NumberParts(s))
      {
        var p := NumberParts(s);
        if ExponentOverflows(p) {
          var k: nat :| k < |p.exponent| && StepOverflows(p.exponent, MAX_EXPONENT + n, k);
          OneMoreDigit(p.exponent, k, n);
        }
      }
    } else {
      LongZeroParts(n);
      LongZeroOverflows(n);
    }
  }
}
