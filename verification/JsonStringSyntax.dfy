/** The characters of a JSON string as section 7 of RFC 8259 has them: what each is written as, what it stands for,
    and that the reader takes exactly such strings. */
module JsonStringSyntax {
  import opened JsonEncodings
  import opened JsonString
  import opened JsonText

  /** A character as it is, after a backslash, as four hexadecimal digits, or as two times four for the two units
      of UTF-16. */
  datatype Unit =
    | Plain(c: Ch) | Short(e: Ch) | Code(h: Text, n: Unit16) | Pair(high: Text, low: Text, cp: Scalar)

  const SMALL := "0123456789abcdef"
  const CAPITAL := "0123456789ABCDEF"

  /** A hexadecimal digit, in capital letters or small ones. */
  predicate WritesDigit(c: Ch, d: nat) { d < 16 && (c == SMALL[d] || c == CAPITAL[d]) }

  /** Four hexadecimal digits and the number they denote. */
  predicate Writes(h: Text, n: nat) {
    && |h| == 4 && n < 0x1_0000
    && WritesDigit(h[0], n / 0x1000) && WritesDigit(h[1], n / 0x100 % 0x10)
    && WritesDigit(h[2], n / 0x10 % 0x10) && WritesDigit(h[3], n % 0x10)
  }

  predicate Valid(u: Unit) {
    match u
    case Plain(c) => c >= ' ' && c != '"' && c != '\\'
    case Short(e) => e in "\"\\/bfnrt"
    case Code(h, n) => Writes(h, n) && !(0xD800 <= n < 0xDC00)
    case Pair(high, low, cp) => cp >= 0x1_0000 && Writes(high, Encode16(cp)[0]) && Writes(low, Encode16(cp)[1])
  }

  function UnitText(u: Unit): Text {
    match u
    case Plain(c) => [c]
    case Short(e) => ['\\', e]
    case Code(h, _) => "\\u" + h
    case Pair(high, low, _) => "\\u" + high + "\\u" + low
  }

  /** What a unit stands for, in UTF-8. */
  function UnitValue(u: Unit): Text
    requires Valid(u)
  {
    match u
    case Plain(c) => [c]
    case Short(e) => [ShortValue(e)]
    case Code(_, n) => Utf8(n)
    case Pair(_, _, cp) => Utf8(cp)
  }

  /** Backspace, form feed, line feed, carriage return, tab, and the three characters that stand for themselves. */
  function ShortValue(e: Ch): Ch {
    if e == 'b' then Byte(8) else if e == 't' then Byte(9) else if e == 'n' then Byte(10)
    else if e == 'f' then Byte(12) else if e == 'r' then Byte(13) else e
  }

  predicate AllValid(us: seq<Unit>) { forall u <- us :: Valid(u) }

  function UnitsText(us: seq<Unit>): Text { if us == [] then [] else UnitText(us[0]) + UnitsText(us[1..]) }

  function UnitsValue(us: seq<Unit>): Text
    requires AllValid(us)
  {
    if us == [] then [] else UnitValue(us[0]) + UnitsValue(us[1..])
  }

  // ---------- hexadecimal digits ----------

  lemma DigitRead(c: Ch, d: nat)
    ensures WritesDigit(c, d) <==> HexDigit(c) == d
  {}

  /** The reader takes four digits as the number they denote. */
  lemma HexRead(h: Text, n: nat, rest: Text)
    requires Writes(h, n)
    ensures Hex(h + rest, 4, 0) == n
  {
    hide HexDigit, WritesDigit;
    DigitRead(h[0], n / 0x1000);
    DigitRead(h[1], n / 0x100 % 0x10);
    DigitRead(h[2], n / 0x10 % 0x10);
    DigitRead(h[3], n % 0x10);
    HexFour(h, rest);
    Digits16(n);
  }

  lemma HexFour(h: Text, rest: Text)
    requires |h| == 4 && HexDigit(h[0]) >= 0 && HexDigit(h[1]) >= 0 && HexDigit(h[2]) >= 0 && HexDigit(h[3]) >= 0
    ensures Hex(h + rest, 4, 0)
         == 16 * (16 * (16 * HexDigit(h[0]) + HexDigit(h[1])) + HexDigit(h[2])) + HexDigit(h[3])
  {
    hide HexDigit;
    var s := h + rest;
    var a := HexDigit(h[0]);
    var b := 16 * a + HexDigit(h[1]);
    var c := 16 * b + HexDigit(h[2]);
    assert s[1..][1..] == s[2..] && s[2..][1..] == s[3..];
    assert Hex(s[3..], 1, c) == Hex(s[3..][1..], 0, 16 * c + HexDigit(h[3]));
    assert Hex(s[2..], 2, b) == Hex(s[3..], 1, c);
    assert Hex(s[1..], 3, a) == Hex(s[2..], 2, b);
  }

  lemma Digits16(n: nat)
    requires n < 0x1_0000
    ensures n == 16 * (16 * (16 * (n / 0x1000) + n / 0x100 % 0x10) + n / 0x10 % 0x10) + n % 0x10
  {}

  /** Whatever four digits are taken were written. */
  lemma HexWritten(s: Text)
    requires Hex(s, 4, 0) >= 0
    ensures |s| >= 4 && Writes(s[..4], Hex(s, 4, 0))
  {
    hide HexDigit, WritesDigit, Hex;
    HexBound(s, 4, 0);
    HexDigitsThere(s);
    HexFour(s[..4], s[4..]);
    assert s == s[..4] + s[4..];
    var a, b, c, d := HexDigit(s[0]), HexDigit(s[1]), HexDigit(s[2]), HexDigit(s[3]);
    Digits16Of(a, b, c, d);
    DigitRead(s[0], a);
    DigitRead(s[1], b);
    DigitRead(s[2], c);
    DigitRead(s[3], d);
  }

  lemma HexDigitsThere(s: Text)
    requires Hex(s, 4, 0) >= 0 && |s| >= 4
    ensures HexDigit(s[0]) >= 0 && HexDigit(s[1]) >= 0 && HexDigit(s[2]) >= 0 && HexDigit(s[3]) >= 0
  {
    hide HexDigit;
    var a := HexDigit(s[0]);
    var b := 16 * a + HexDigit(s[1]);
    var c := 16 * b + HexDigit(s[2]);
    assert s[1..][1..] == s[2..] && s[2..][1..] == s[3..];
    if a >= 0 {
      assert Hex(s, 4, 0) == Hex(s[1..], 3, a);
      if HexDigit(s[1]) >= 0 {
        assert Hex(s[1..], 3, a) == Hex(s[2..], 2, b);
        if HexDigit(s[2]) >= 0 {
          assert Hex(s[2..], 2, b) == Hex(s[3..], 1, c);
        }
      }
    }
  }

  lemma Digits16Of(a: nat, b: nat, c: nat, d: nat)
    requires a < 16 && b < 16 && c < 16 && d < 16
    ensures
      var n := 16 * (16 * (16 * a + b) + c) + d;
      n < 0x1_0000 && n / 0x1000 == a && n / 0x100 % 0x10 == b && n / 0x10 % 0x10 == c && n % 0x10 == d
  {}

  // ---------- one unit ----------

  /** The eight short escapes. */
  lemma ShortRead(e: Ch, rest: Text)
    requires e in "\"\\/bfnrt"
    ensures Escape([e] + rest) == Scanned([ShortValue(e)], rest)
  {
    hide Hex, Utf8;
    assert ([e] + rest)[1..] == rest;
  }

  lemma WritesFour(h: Text, n: nat)
    requires Writes(h, n)
    ensures |h| == 4
  {}

  /** What follows a u, its digits and an escape behind them. */
  lemma AfterDigits(h: Text, rest: Text)
    requires |h| == 4
    ensures var s := "u" + h + rest; |s| >= 5 && s[0] == 'u' && s[1..] == h + rest && s[5..] == rest
    ensures
      var t := "\\u" + h + rest;
      |t| >= 6 && t[0] == '\\' && t[1..] == "u" + h + rest && t[1..][0] == 'u' && t[2..] == h + rest && t[6..] == rest
  {}

  lemma CodeRead(h: Text, n: Unit16, rest: Text)
    requires Writes(h, n) && !(0xD800 <= n < 0xDC00)
    ensures Escape("u" + h + rest) == Scanned(Utf8(n), rest)
  {
    hide Hex, Utf8, Writes;
    WritesFour(h, n);
    AfterDigits(h, rest);
    HexRead(h, n, rest);
  }

  lemma PairRead(high: Text, low: Text, cp: Scalar, rest: Text)
    requires Valid(Unit.Pair(high, low, cp))
    ensures Escape("u" + high + "\\u" + low + rest) == Scanned(Utf8(cp), rest)
  {
    hide Hex, Utf8, Writes;
    var t := "\\u" + low + rest;
    assert "u" + high + "\\u" + low + rest == "u" + high + t;
    WritesFour(high, Encode16(cp)[0]);
    WritesFour(low, Encode16(cp)[1]);
    AfterDigits(high, t);
    AfterDigits(low, rest);
    HexRead(high, Encode16(cp)[0], t);
    HexRead(low, Encode16(cp)[1], rest);
  }

  lemma BackslashRead(t: Text)
    ensures StringBody(['\\'] + t)
         == (var e := Escape(t); if e.Malformed? then e else Prepend(e.value, StringBody(e.rest)))
  {
    hide Escape;
    assert (['\\'] + t)[1..] == t;
  }

  lemma PlainRead(c: Ch, rest: Text)
    requires Valid(Plain(c))
    ensures StringBody([c] + rest) == Prepend([c], StringBody(rest))
  {
    hide Escape;
    assert ([c] + rest)[1..] == rest;
  }

  lemma Cut(t: Text, rest: Text)
    ensures ['\\'] + t + rest == ['\\'] + (t + rest)
  {}

  lemma EscapeStart(h: Text)
    ensures ['\\'] + ("u" + h) == "\\u" + h
  {}

  lemma EscapeStarts(high: Text, low: Text)
    ensures ['\\'] + ("u" + high + "\\u" + low) == "\\u" + high + "\\u" + low
  {}

  /** A unit is read as what it stands for, whatever follows. */
  lemma UnitRead(u: Unit, rest: Text)
    requires Valid(u)
    ensures StringBody(UnitText(u) + rest) == Prepend(UnitValue(u), StringBody(rest))
  {
    hide Escape, Utf8, Encode16, Writes, StringBody, ShortValue, Prepend;
    match u
    case Plain(c) => PlainRead(c, rest);
    case Short(e) =>
      assert ['\\'] + [e] == ['\\', e];
      Cut([e], rest);
      BackslashRead([e] + rest);
      ShortRead(e, rest);
    case Code(h, n) =>
      Cut("u" + h, rest);
      EscapeStart(h);
      BackslashRead("u" + h + rest);
      CodeRead(h, n, rest);
    case Pair(high, low, cp) =>
      var t := "u" + high + "\\u" + low + rest;
      Cut("u" + high + "\\u" + low, rest);
      EscapeStarts(high, low);
      BackslashRead(t);
      PairRead(high, low, cp, rest);
  }

  /** For every scalar value, its UTF-16 units written as escapes, in capital letters or small ones, are read as its
      UTF-8 encoding. */
  lemma ScalarRead(cp: Scalar, hs: seq<Text>, rest: Text)
    requires |hs| == |Encode16(cp)| && forall i | 0 <= i < |hs| :: Writes(hs[i], Encode16(cp)[i])
    ensures
      var escaped := if |hs| == 1 then "\\u" + hs[0] else "\\u" + hs[0] + "\\u" + hs[1];
      StringBody(escaped + rest) == Prepend(Utf8(cp), StringBody(rest))
  {
    hide StringBody, Utf8, Writes;
    UnitRead(if |hs| == 1 then Unit.Code(hs[0], cp) else Pair(hs[0], hs[1], cp), rest);
  }

  /** A high surrogate without a low one behind it is an error. */
  lemma LoneHigh(high: Text, n: nat, rest: Text)
    requires Writes(high, n) && 0xD800 <= n < 0xDC00
    requires forall low: Text, m: nat | Writes(low, m) && 0xDC00 <= m < 0xE000 :: !("\\u" + low <= rest)
    ensures StringBody("\\u" + high + rest) == Malformed
  {
    hide Hex, Utf8, Writes;
    WritesFour(high, n);
    AfterDigits(high, rest);
    HexRead(high, n, rest);
    Refused(high, n, rest);
  }

  lemma Refused(high: Text, n: nat, rest: Text)
    requires |high| == 4 && 0xD800 <= n < 0xDC00 && Hex(high + rest, 4, 0) == n
    requires forall low: Text, m: nat | Writes(low, m) && 0xDC00 <= m < 0xE000 :: !("\\u" + low <= rest)
    ensures Escape("u" + high + rest) == Malformed
  {
    hide Hex, Utf8, Writes;
    AfterDigits(high, rest);
    if Peek(rest) == '\\' && Peek(rest[1..]) == 'u' && Hex(rest[2..], 4, 0) >= 0 {
      HexWritten(rest[2..]);
      var low := rest[2..][..4];
      assert rest == "\\u" + low + rest[6..];
      assert "\\u" + low <= rest;
    }
  }

  /** Whatever is taken is such a unit. */
  lemma EscapeFound(s: Text) returns (u: Unit)
    requires Escape(s).Scanned?
    ensures Valid(u) && !u.Plain? && ['\\'] + s == UnitText(u) + Escape(s).rest && Escape(s).value == UnitValue(u)
  {
    hide Hex, Utf8, Writes;
    var e := Peek(s);
    if Unescaped(e) != '\0' {
      u := Short(e);
    } else {
      u := DigitsFound(s);
    }
  }

  lemma DigitsFound(s: Text) returns (u: Unit)
    requires Escape(s).Scanned? && Unescaped(Peek(s)) == '\0'
    ensures Valid(u) && !u.Plain? && ['\\'] + s == UnitText(u) + Escape(s).rest && Escape(s).value == UnitValue(u)
  {
    hide Hex, Utf8, Writes, Unescaped;
    var n := Hex(s[1..], 4, 0);
    HexWritten(s[1..]);
    HexBound(s[1..], 4, 0);
    var h := s[1..][..4];
    assert s == "u" + h + s[5..];
    if 0xD800 <= n <= 0xDBFF {
      var t := s[5..];
      var m := Hex(t[2..], 4, 0);
      HexWritten(t[2..]);
      HexBound(t[2..], 4, 0);
      var low := t[2..][..4];
      assert t == "\\u" + low + t[6..];
      u := Pair(h, low, (n - 0xD800) * 0x400 + (m - 0xDC00) + 0x1_0000);
    } else {
      u := Unit.Code(h, n);
    }
  }

  // ---------- strings ----------

  /** A string is read as what its units stand for. */
  lemma {:induction false} UnitsRead(us: seq<Unit>, rest: Text)
    requires AllValid(us)
    ensures StringBody(UnitsText(us) + (['"'] + rest)) == Scanned(UnitsValue(us), rest)
    decreases |us|
  {
    hide UnitText, UnitValue, Valid;
    if us == [] {
      assert UnitsText(us) + (['"'] + rest) == ['"'] + rest && (['"'] + rest)[1..] == rest;
    } else {
      var more := UnitsText(us[1..]) + (['"'] + rest);
      assert UnitsText(us) + (['"'] + rest) == UnitText(us[0]) + more;
      UnitRead(us[0], more);
      UnitsRead(us[1..], rest);
    }
  }

  /** Whatever string is accepted consists of such units. */
  lemma {:induction false} UnitsFound(s: Text) returns (us: seq<Unit>)
    requires StringBody(s).Scanned?
    ensures AllValid(us) && s == UnitsText(us) + (['"'] + StringBody(s).rest) && StringBody(s).value == UnitsValue(us)
    decreases |s|
  {
    hide UnitText, UnitValue, Valid, Escape;
    var c := Peek(s);
    if c == '"' {
      us := [];
      assert s == ['"'] + s[1..];
    } else {
      var u, more;
      if c == '\\' {
        u := EscapeFound(s[1..]);
        more := Escape(s[1..]).rest;
        assert s == ['\\'] + s[1..];
      } else {
        PlainFound(c);
        u, more := Plain(c), s[1..];
        assert s == [c] + s[1..];
      }
      var vs := UnitsFound(more);
      us := [u] + vs;
      assert us[1..] == vs;
      assert UnitText(u) + (UnitsText(vs) + (['"'] + StringBody(s).rest)) == UnitsText(us) + (['"'] + StringBody(s).rest);
    }
  }

  lemma PlainFound(c: Ch)
    requires c >= ' ' && c != '"' && c != '\\'
    ensures Valid(Plain(c)) && UnitText(Plain(c)) == [c] && UnitValue(Plain(c)) == [c]
  {}
}
