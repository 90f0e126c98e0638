/** The numbers of a JSON text. Integers that fit 64 bits are exact; every other number is a double, given
    by its text. */
module JsonNumber {
  import opened JsonText

  const TWO31 := 0x8000_0000
  const TWO63 := 0x8000_0000_0000_0000
  const TWO64 := 0x1_0000_0000_0000_0000
  const MAX_EXACT := 0x1F_FFFF_FFFF_FFFF
  const MAX_DIGITS := 17
  const MAX_EXPONENT := 308
  const MAX_FRACTION := 0x4000_0000

  predicate IsDigit(c: Ch) { '0' <= c <= '9' }

  function DigitOf(c: Ch): (d: nat)
    requires IsDigit(c)
    ensures d < 10
  {
    c as int - '0' as int
  }

  predicate AllDigits(s: Text) { forall i | 0 <= i < |s| :: IsDigit(s[i]) }

  /** The digits at the start of s. */
  function DigitRun(s: Text): (r: Text)
    ensures |r| <= |s| && s[..|r|] == r && AllDigits(r) && (|r| < |s| ==> !IsDigit(s[|r|]))
  {
    if s != [] && IsDigit(s[0]) then [s[0]] + DigitRun(s[1..]) else []
  }

  /** The value of decimal digits. */
  function Value(ds: Text): nat
    requires AllDigits(ds)
  {
    if ds == [] then 0 else 10 * Value(ds[..|ds| - 1]) + DigitOf(ds[|ds| - 1])
  }

  /** How many digits of a fraction count towards the decimal exponent: v is the significand while it is
      exact, sig the number of its digits after the first. */
  datatype Significand = Significand(v: nat, sig: nat, count: nat)

  function AddDigit(a: Significand, d: nat): Significand {
    if a.v <= MAX_EXACT then
      var v := 10 * a.v + d;
      Significand(v, if v != 0 then a.sig + 1 else a.sig, a.count + 1)
    else if a.sig < MAX_DIGITS then Significand(a.v, a.sig + 1, a.count + 1)
    else a
  }

  function AddDigits(a: Significand, ds: Text): Significand
    requires AllDigits(ds)
  {
    if ds == [] then a else AddDigit(AddDigits(a, ds[..|ds| - 1]), DigitOf(ds[|ds| - 1]))
  }

  /** The parts of a number; rest is what follows it. */
  datatype Parts =
    | Parts(minus: bool, whole: Text, hasFraction: bool, fraction: Text, hasExponent: bool, expMinus: bool, exponent: Text,
            rest: Text)
    | NotNumber

  ghost predicate PartsOfDigits(p: Parts) {
    p.Parts? ==> p.whole != [] && AllDigits(p.whole) && AllDigits(p.fraction) && AllDigits(p.exponent)
  }

  function Whole(s: Text): (w: Text)
    ensures |w| <= |s| && s[..|w|] == w && AllDigits(w)
  {
    if Peek(s) == '0' then s[..1] else DigitRun(s)
  }

  function NumberParts(s: Text): (p: Parts)
    ensures PartsOfDigits(p) && (p.Parts? ==> |p.rest| < |s|)
  {
    var minus := Peek(s) == '-';
    var s1 := if minus then s[1..] else s;
    var whole := Whole(s1);
    if whole == [] then NotNumber
    else FractionParts(minus, whole, s1[|whole|..])
  }

  function FractionParts(minus: bool, whole: Text, s: Text): (p: Parts)
    requires whole != [] && AllDigits(whole)
    ensures PartsOfDigits(p) && (p.Parts? ==> |p.rest| <= |s|)
  {
    if Peek(s) != '.' then ExponentParts(minus, whole, false, [], s)
    else
      var fraction := DigitRun(s[1..]);
      if fraction == [] then NotNumber
      else ExponentParts(minus, whole, true, fraction, s[1 + |fraction|..])
  }

  /** What follows the sign of an exponent. */
  function AfterSign(s: Text): Text { if Peek(s) == '+' || Peek(s) == '-' then s[1..] else s }

  function ExponentParts(minus: bool, whole: Text, hasFraction: bool, fraction: Text, s: Text): (p: Parts)
    requires whole != [] && AllDigits(whole) && AllDigits(fraction)
    ensures PartsOfDigits(p) && (p.Parts? ==> |p.rest| <= |s|)
  {
    if Peek(s) != 'e' && Peek(s) != 'E' then Parts(minus, whole, hasFraction, fraction, false, false, [], s)
    else
      var sign := Peek(s[1..]);
      var t := AfterSign(s[1..]);
      var exponent := DigitRun(t);
      if exponent == [] then NotNumber
      else Parts(minus, whole, hasFraction, fraction, true, sign == '-', exponent, t[|exponent|..])
  }

  /** Whether a whole number does not fit 64 bits. */
  predicate TooBig(minus: bool, n: nat) { if minus then n > TWO63 else n >= TWO64 }

  function IntegerEvent(minus: bool, n: nat): Event {
    if minus then (if n <= TWO31 then Int(0 - n) else Int64(0 - n))
    else if n < TWO32 then Uint(n) else Uint64(n)
  }

  datatype Numbered = Numbered(event: Event, rest: Text) | Refused

  /** The event of a number, unless it is too big for a double. */
  function Number(cfg: Config, s: Text): (r: Numbered)
    ensures r.Numbered? ==> |r.rest| < |s|
  {
    var p := NumberParts(s);
    if p.NotNumber? then Refused
    else
      var n := Value(p.whole);
      if !p.hasFraction && !p.hasExponent && !TooBig(p.minus, n) then Numbered(IntegerEvent(p.minus, n), p.rest)
      else if p.hasExponent && !p.expMinus && Value(p.exponent) > MAX_EXPONENT + CountedDigits(p) then Refused
      else
        var text := s[..|s| - |p.rest|];
        if cfg.overflows(text) then Refused else Numbered(Double(text), p.rest)
  }

  /** The digits of the fraction that count. */
  function CountedDigits(p: Parts): nat
    requires p.Parts? && PartsOfDigits(p)
  {
    AddDigits(Significand(Value(p.whole), |p.whole| - 1, 0), p.fraction).count
  }

  // ---------- digits one at a time ----------

  lemma ValueMore(a: Text, c: Ch)
    requires AllDigits(a) && IsDigit(c)
    ensures AllDigits(a + [c]) && Value(a + [c]) == 10 * Value(a) + DigitOf(c)
  {}

  lemma {:induction false} ValueMonotone(a: Text, b: Text)
    requires AllDigits(a) && AllDigits(b)
    ensures AllDigits(a + b) && Value(a) <= Value(a + b)
    decreases |b|
  {
    hide Value, DigitOf, IsDigit;
    if b == [] {
      assert a + b == a;
    } else {
      var n := |b| - 1;
      ValueMonotone(a, b[..n]);
      assert a + b == a + b[..n] + [b[n]];
      ValueMore(a + b[..n], b[n]);
    }
  }

  lemma CountMore(a: Significand, ds: Text, c: Ch)
    requires AllDigits(ds) && IsDigit(c)
    ensures AllDigits(ds + [c]) && AddDigits(a, ds + [c]) == AddDigit(AddDigits(a, ds), DigitOf(c))
  {}

  /** Digits after a significand that is full do not count. */
  lemma {:induction false} CountFull(a: Significand, ds: Text)
    requires AllDigits(ds) && a.v > MAX_EXACT && a.sig >= MAX_DIGITS
    ensures AddDigits(a, ds) == a
    decreases |ds|
  {
    if ds != [] {
      CountFull(a, ds[..|ds| - 1]);
    }
  }

  /** A run of digits, cut after n of them. */
  lemma RunFrom(s: Text, n: nat)
    requires n <= |DigitRun(s)|
    ensures DigitRun(s[n..]) == DigitRun(s)[n..]
    ensures n < |DigitRun(s)| <==> IsDigit(Peek(s[n..]))
    ensures n < |DigitRun(s)| ==> s[n] == DigitRun(s)[n] && IsDigit(s[n])
    decreases n
  {
    if n > 0 {
      assert DigitRun(s) == [s[0]] + DigitRun(s[1..]);
      RunFrom(s[1..], n - 1);
      assert s[1..][n - 1..] == s[n..];
    }
  }

  /** A value of d digits without leading zeros. */
  lemma {:induction false} LongValue(ds: Text)
    requires AllDigits(ds) && ds != [] && ds[0] != '0'
    ensures Value(ds) < Pow10(|ds|)
    decreases |ds|
  {
    var n := |ds| - 1;
    if n > 0 {
      LongValue(ds[..n]);
    } else {
      assert Value(ds[..0]) == 0;
      assert Pow10(1) == 10;
    }
  }

  function Pow10(n: nat): nat { if n == 0 then 1 else 10 * Pow10(n - 1) }

  lemma {:induction false} Pow10Monotone(a: nat, b: nat)
    requires a <= b
    ensures Pow10(a) <= Pow10(b)
    decreases b
  {
    if a < b {
      Pow10Monotone(a, b - 1);
    }
  }

  /** A value too big for 64 bits after one more digit has at least 18 digits. */
  lemma ManyDigits(ds: Text)
    requires AllDigits(ds) && ds != [] && ds[0] != '0' && Value(ds) >= 922337203685477580
    ensures |ds| > MAX_DIGITS
  {
    LongValue(ds);
    assert Pow10(9) == 1000000000;
    assert Pow10(17) == 100000000000000000;
    if |ds| <= MAX_DIGITS {
      Pow10Monotone(|ds|, 17);
    }
  }

  const LIMIT32: nat := 429496729
  const LIMIT31: nat := 214748364
  const LIMIT64: nat := 0x1999_9999_9999_9999
  const LIMIT63: nat := 0x0CCC_CCCC_CCCC_CCCC

  /** In a fraction after a whole number that is too big, nothing counts, whatever part of the number the
      64-bit significand holds. */
  lemma NothingCounts(minus: bool, w: Text, n: nat, sig: nat, fraction: Text)
    requires AllDigits(w) && w != [] && (w[0] == '0' ==> |w| == 1) && TooBig(minus, Value(w))
    requires AllDigits(fraction) && n > MAX_EXACT && sig >= MAX_DIGITS
    ensures AddDigits(Significand(Value(w), |w| - 1, 0), fraction).count == 0
    ensures AddDigits(Significand(n, sig, 0), fraction).count == 0
  {
    if w[0] == '0' {
      ZeroValue(w);
    } else {
      ManyDigits(w);
      CountFull(Significand(Value(w), |w| - 1, 0), fraction);
    }
    CountFull(Significand(n, sig, 0), fraction);
  }

  lemma ZeroValue(w: Text)
    requires w == ['0']
    ensures AllDigits(w) && Value(w) == 0
  {}

  lemma WholeZero(s: Text)
    ensures Whole(s) != [] && Whole(s)[0] == '0' ==> |Whole(s)| == 1
  {}

  ghost predicate ExponentTooBig(p: Parts)
    requires p.Parts? && PartsOfDigits(p)
  {
    p.hasExponent && !p.expMinus && Value(p.exponent) > MAX_EXPONENT + CountedDigits(p)
  }

  /** The loop over the digits of a positive exponent takes digit k, and the value with it exceeds an int: what
      the digits before it denote was not too big yet. */
  predicate StepOverflows(ds: Text, maxExp: int, k: nat)
    requires AllDigits(ds)
  {
    1 <= k < |ds| && Value(ds[..k]) <= maxExp && Value(ds[..k + 1]) >= TWO31
  }

  ghost predicate OverflowsBefore(ds: Text, maxExp: int, n: nat)
    requires AllDigits(ds)
  {
    exists k: nat :: k < n && StepOverflows(ds, maxExp, k)
  }

  /** Parsing the exponent of a number exceeds an int at some digit. */
  ghost predicate ExponentOverflows(p: Parts)
    requires p.Parts? && PartsOfDigits(p)
  {
    p.hasExponent && !p.expMinus && OverflowsBefore(p.exponent, MAX_EXPONENT + CountedDigits(p), |p.exponent|)
  }

  lemma OverflowsAt(ds: Text, maxExp: int, n: nat)
    requires AllDigits(ds) && 1 <= n < |ds| && Value(ds[..n]) <= maxExp
    ensures OverflowsBefore(ds, maxExp, n + 1) <==> OverflowsBefore(ds, maxExp, n) || Value(ds[..n + 1]) >= TWO31
  {
    hide Value;
    if Value(ds[..n + 1]) >= TWO31 {
      assert StepOverflows(ds, maxExp, n);
    }
    hide StepOverflows;
    if OverflowsBefore(ds, maxExp, n) {
      var k: nat :| k < n && StepOverflows(ds, maxExp, k);
      assert k < n + 1;
    }
  }

  /** Nothing overflows once the exponent is refused. */
  lemma OverflowsNoMore(ds: Text, maxExp: int, n: nat)
    requires AllDigits(ds) && n <= |ds| && (n < |ds| ==> Value(ds[..n]) > maxExp)
    ensures OverflowsBefore(ds, maxExp, |ds|) <==> OverflowsBefore(ds, maxExp, n)
  {
    hide Value;
    forall k: nat | n <= k < |ds| ensures !StepOverflows(ds, maxExp, k) {
      assert ds[..n] + ds[n..k] == ds[..k];
      ValueMonotone(ds[..n], ds[n..k]);
    }
  }

  /** Whether the number goes to the handler as a double. */
  ghost predicate IsDouble(p: Parts)
    requires p.Parts? && PartsOfDigits(p)
  {
    TooBig(p.minus, Value(p.whole)) || p.hasFraction || p.hasExponent
  }

  /** The cases of a number. */
  lemma NumberCases(cfg: Config, s: Text, p: Parts)
    requires p == NumberParts(s)
    ensures p.NotNumber? ==> Number(cfg, s) == Refused
    ensures p.Parts? && ExponentTooBig(p) ==> Number(cfg, s) == Refused
    ensures p.Parts? && !ExponentTooBig(p) && IsDouble(p) ==>
      var text := s[..|s| - |p.rest|];
      Number(cfg, s) == if cfg.overflows(text) then Refused else Numbered(Double(text), p.rest)
    ensures p.Parts? && !IsDouble(p) ==> Number(cfg, s) == Numbered(IntegerEvent(p.minus, Value(p.whole)), p.rest)
  {
    hide NumberParts, Value, CountedDigits;
  }
}
