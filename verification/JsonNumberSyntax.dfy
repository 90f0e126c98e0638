/** The numbers of section 6 of RFC 8259: what the reader takes for a number, and which event it is. */
module JsonNumberSyntax {
  import opened JsonNumber
  import opened JsonPrinter
  import opened JsonText

  datatype Fraction = NoFraction | Fraction(digits: Text)

  datatype Sign = NoSign | Plus | Minus

  datatype Exponent = NoExponent | Exponent(letter: Ch, sign: Sign, digits: Text)

  datatype Numeral = Numeral(minus: bool, whole: Text, fraction: Fraction, exponent: Exponent)

  // ---------- texts, followed by rest ----------

  function SignText(sign: Sign, rest: Text): Text {
    match sign
    case NoSign => rest
    case Plus => ['+'] + rest
    case Minus => ['-'] + rest
  }

  function ExponentText(e: Exponent, rest: Text): Text {
    match e
    case NoExponent => rest
    case Exponent(letter, sign, digits) => [letter] + SignText(sign, digits + rest)
  }

  function FractionText(f: Fraction, rest: Text): Text {
    match f
    case NoFraction => rest
    case Fraction(digits) => ['.'] + (digits + rest)
  }

  function NumeralText(n: Numeral, rest: Text): Text {
    var t := n.whole + FractionText(n.fraction, ExponentText(n.exponent, rest));
    if n.minus then ['-'] + t else t
  }

  predicate Digits(s: Text) { s != [] && AllDigits(s) }

  predicate ValidExponent(e: Exponent) {
    e.Exponent? ==> (e.letter == 'e' || e.letter == 'E') && Digits(e.digits)
  }

  /** No leading zeros, and digits wherever there is a point or an exponent. */
  predicate ValidNumeral(n: Numeral) {
    && Digits(n.whole) && (n.whole[0] == '0' ==> n.whole == "0")
    && (n.fraction.Fraction? ==> Digits(n.fraction.digits))
    && ValidExponent(n.exponent)
  }

  /** Nothing follows that could belong to the number. */
  predicate CannotGoOn(n: Numeral, rest: Text) {
    if n.exponent.Exponent? then !IsDigit(Peek(rest))
    else
      && Peek(rest) != 'e' && Peek(rest) != 'E'
      && if n.fraction.Fraction? then !IsDigit(Peek(rest))
         else Peek(rest) != '.' && (n.whole == "0" || !IsDigit(Peek(rest)))
  }

  /** The parts of the number, as the reader keeps them. */
  function PartsOf(n: Numeral, rest: Text): Parts {
    var f, e := n.fraction, n.exponent;
    Parts(n.minus, n.whole, f.Fraction?, if f.Fraction? then f.digits else [],
          e.Exponent?, e.Exponent? && e.sign.Minus?, if e.Exponent? then e.digits else [], rest)
  }

  // ---------- reading ----------

  lemma RunRead(ds: Text, rest: Text)
    requires Digits(ds) && !IsDigit(Peek(rest))
    ensures DigitRun(ds + rest) == ds && (ds + rest)[|ds|..] == rest
  {
    RunOfDigits(ds, rest);
  }

  lemma SignRead(sign: Sign, ds: Text, rest: Text)
    requires Digits(ds)
    ensures
      var s := SignText(sign, ds + rest);
      AfterSign(s) == ds + rest && (Peek(s) == '-' <==> sign.Minus?)
  {
    var s := SignText(sign, ds + rest);
    if !sign.NoSign? {
      assert s[1..] == ds + rest;
    }
  }

  /** The parts of an exponent and what follows it. */
  function WithExponent(minus: bool, whole: Text, hasFraction: bool, fraction: Text, e: Exponent, rest: Text): Parts {
    if e.NoExponent? then Parts(minus, whole, hasFraction, fraction, false, false, [], rest)
    else Parts(minus, whole, hasFraction, fraction, true, e.sign.Minus?, e.digits, rest)
  }

  predicate ExponentEnds(e: Exponent, rest: Text) {
    if e.Exponent? then !IsDigit(Peek(rest)) else Peek(rest) != 'e' && Peek(rest) != 'E'
  }

  lemma ExponentRead(minus: bool, whole: Text, hasFraction: bool, fraction: Text, e: Exponent, rest: Text)
    requires whole != [] && AllDigits(whole) && AllDigits(fraction) && ValidExponent(e) && ExponentEnds(e, rest)
    ensures ExponentParts(minus, whole, hasFraction, fraction, ExponentText(e, rest))
         == WithExponent(minus, whole, hasFraction, fraction, e, rest)
  {
    hide DigitRun, SignText, AfterSign;
    if e.Exponent? {
      var t := SignText(e.sign, e.digits + rest);
      assert ([e.letter] + t)[1..] == t;
      SignRead(e.sign, e.digits, rest);
      RunRead(e.digits, rest);
    }
  }

  lemma FractionRead(n: Numeral, rest: Text)
    requires ValidNumeral(n) && CannotGoOn(n, rest)
    ensures FractionParts(n.minus, n.whole, FractionText(n.fraction, ExponentText(n.exponent, rest))) == PartsOf(n, rest)
  {
    hide DigitRun, ExponentParts, ExponentText;
    var t := ExponentText(n.exponent, rest);
    ExponentFirst(n.exponent, rest);
    if n.fraction.Fraction? {
      var ds := n.fraction.digits;
      ExponentRead(n.minus, n.whole, true, ds, n.exponent, rest);
      RunRead(ds, t);
      var s := ['.'] + (ds + t);
      assert s[1..] == ds + t && s[1 + |ds|..] == t;
    } else {
      ExponentRead(n.minus, n.whole, false, [], n.exponent, rest);
    }
  }

  /** An exponent starts with its letter. */
  lemma ExponentFirst(e: Exponent, rest: Text)
    requires ValidExponent(e)
    ensures Peek(ExponentText(e, rest)) == if e.Exponent? then e.letter else Peek(rest)
  {}

  lemma WholeRead(w: Text, rest: Text)
    requires Digits(w) && (w[0] == '0' ==> w == "0") && (w == "0" || !IsDigit(Peek(rest)))
    ensures Whole(w + rest) == w && (w + rest)[|w|..] == rest && Peek(w + rest) != '-'
  {
    if w == "0" {
      assert (w + rest)[..1] == w;
    } else {
      RunRead(w, rest);
    }
  }

  lemma FractionFirst(n: Numeral, rest: Text)
    requires ValidNumeral(n)
    ensures Peek(FractionText(n.fraction, ExponentText(n.exponent, rest)))
         == if n.fraction.Fraction? then '.' else if n.exponent.Exponent? then n.exponent.letter else Peek(rest)
  {
    ExponentFirst(n.exponent, rest);
  }

  /** A number is taken off the text when nothing behind it could belong to it. */
  lemma NumeralRead(n: Numeral, rest: Text)
    requires ValidNumeral(n) && CannotGoOn(n, rest)
    ensures NumberParts(NumeralText(n, rest)) == PartsOf(n, rest)
  {
    hide Whole, FractionParts, FractionText, ExponentText;
    var t := FractionText(n.fraction, ExponentText(n.exponent, rest));
    FractionFirst(n, rest);
    WholeRead(n.whole, t);
    FractionRead(n, rest);
    assert (['-'] + (n.whole + t))[1..] == n.whole + t;
  }

  // ---------- and nothing else is a number ----------

  lemma RunFound(s: Text)
    ensures s == DigitRun(s) + s[|DigitRun(s)|..] && !IsDigit(Peek(s[|DigitRun(s)|..]))
  {}

  lemma SignFound(s: Text) returns (sign: Sign)
    ensures s == SignText(sign, AfterSign(s)) && (Peek(s) == '-' <==> sign.Minus?)
  {
    sign := if Peek(s) == '+' then Plus else if Peek(s) == '-' then Minus else NoSign;
    if s != [] {
      assert s == [s[0]] + s[1..];
    }
  }

  lemma ExponentFound(minus: bool, whole: Text, hasFraction: bool, fraction: Text, s: Text) returns (e: Exponent)
    requires whole != [] && AllDigits(whole) && AllDigits(fraction)
    requires ExponentParts(minus, whole, hasFraction, fraction, s).Parts?
    ensures ValidExponent(e)
    ensures
      var p := ExponentParts(minus, whole, hasFraction, fraction, s);
      s == ExponentText(e, p.rest) && p == WithExponent(minus, whole, hasFraction, fraction, e, p.rest)
      && ExponentEnds(e, p.rest)
  {
    hide DigitRun, SignText, AfterSign;
    if Peek(s) != 'e' && Peek(s) != 'E' {
      e := NoExponent;
    } else {
      var t := AfterSign(s[1..]);
      RunFound(t);
      var sign := SignFound(s[1..]);
      e := Exponent(s[0], sign, DigitRun(t));
      assert s == [s[0]] + s[1..];
    }
  }

  lemma FractionFound(minus: bool, whole: Text, s: Text) returns (f: Fraction, e: Exponent)
    requires whole != [] && AllDigits(whole) && FractionParts(minus, whole, s).Parts?
    ensures ValidExponent(e) && (f.Fraction? ==> Digits(f.digits))
    ensures
      var p := FractionParts(minus, whole, s);
      && s == FractionText(f, ExponentText(e, p.rest)) && p == PartsOf(Numeral(minus, whole, f, e), p.rest)
      && ExponentEnds(e, p.rest)
      && (e.NoExponent? ==> if f.Fraction? then !IsDigit(Peek(p.rest)) else Peek(p.rest) != '.')
  {
    hide DigitRun, ExponentParts, ExponentText;
    if Peek(s) != '.' {
      f := NoFraction;
      e := ExponentFound(minus, whole, false, [], s);
      ExponentFirst(e, FractionParts(minus, whole, s).rest);
    } else {
      var ds := DigitRun(s[1..]);
      RunFound(s[1..]);
      var t := s[1..][|ds|..];
      assert s[1 + |ds|..] == t;
      f := Fraction(ds);
      e := ExponentFound(minus, whole, true, ds, t);
      ExponentFirst(e, FractionParts(minus, whole, s).rest);
      assert s == ['.'] + s[1..];
    }
  }

  lemma WholeFound(s: Text)
    requires Whole(s) != []
    ensures
      var w := Whole(s);
      Digits(w) && (w[0] == '0' ==> w == "0") && s == w + s[|w|..] && (w == "0" || !IsDigit(Peek(s[|w|..])))
  {
    RunFound(s);
  }

  /** Whatever is taken for a number is one, and nothing behind it could belong to it. */
  lemma NumeralFound(s: Text) returns (n: Numeral)
    requires NumberParts(s).Parts?
    ensures
      var p := NumberParts(s);
      ValidNumeral(n) && s == NumeralText(n, p.rest) && p == PartsOf(n, p.rest) && CannotGoOn(n, p.rest)
  {
    hide Whole, FractionParts, FractionText, ExponentText;
    var minus := Peek(s) == '-';
    var s1 := if minus then s[1..] else s;
    var w := Whole(s1);
    WholeFound(s1);
    var f, e := FractionFound(minus, w, s1[|w|..]);
    n := Numeral(minus, w, f, e);
    FractionFirst(n, NumberParts(s).rest);
    if minus {
      assert s == ['-'] + s[1..];
    }
  }

  // ---------- events ----------

  lemma NumeralThen(n: Numeral, rest: Text)
    ensures NumeralText(n, rest) == NumeralText(n, []) + rest
  {
    var e, f := ExponentText(n.exponent, []), FractionText(n.fraction, ExponentText(n.exponent, []));
    ExponentThen(n.exponent, rest);
    FractionThen(n.fraction, e, rest);
    assert n.whole + (f + rest) == n.whole + f + rest;
    assert ['-'] + (n.whole + f + rest) == ['-'] + (n.whole + f) + rest;
  }

  lemma ExponentThen(e: Exponent, rest: Text)
    ensures ExponentText(e, rest) == ExponentText(e, []) + rest
  {
    if e.Exponent? {
      assert e.digits + rest == e.digits + [] + rest;
    }
  }

  lemma FractionThen(f: Fraction, t: Text, rest: Text)
    ensures FractionText(f, t + rest) == FractionText(f, t) + rest
  {
    if f.Fraction? {
      assert f.digits + (t + rest) == f.digits + t + rest;
    }
  }

  /** A number without fraction and exponent is an integer of the first type that holds it, an unsigned one if it
      has no sign; every other number is a double. */
  function NumeralEvent(n: Numeral): Event
    requires ValidNumeral(n)
  {
    var v := Value(n.whole);
    if n.fraction.Fraction? || n.exponent.Exponent? then Double(NumeralText(n, []))
    else if n.minus then
      if v <= 0x8000_0000 then Int(0 - v) else if v <= 0x8000_0000_0000_0000 then Int64(0 - v)
      else Double(NumeralText(n, []))
    else
      if v <= 0xFFFF_FFFF then Uint(v) else if v <= 0xFFFF_FFFF_FFFF_FFFF then Uint64(v)
      else Double(NumeralText(n, []))
  }

  /** A double is refused when its exponent or the conversion says that it is too big. */
  predicate TooBigNumeral(cfg: Config, n: Numeral)
    requires ValidNumeral(n)
  {
    && NumeralEvent(n).Double?
    && (|| (n.exponent.Exponent? && !n.exponent.sign.Minus?
            && Value(n.exponent.digits) > MAX_EXPONENT + CountedDigits(PartsOf(n, [])))
        || cfg.overflows(NumeralText(n, [])))
  }

  /** The event of a number on a text. */
  lemma NumberRead(cfg: Config, n: Numeral, rest: Text)
    requires ValidNumeral(n) && CannotGoOn(n, rest)
    ensures Number(cfg, NumeralText(n, rest))
         == if TooBigNumeral(cfg, n) then Refused else Numbered(NumeralEvent(n), rest)
  {
    hide NumberParts, Value, AddDigits, NumeralText;
    NumeralRead(n, rest);
    NumeralThen(n, rest);
    var s := NumeralText(n, rest);
    assert s[..|s| - |rest|] == NumeralText(n, []);
  }
}
