/** The strings of a JSON text: escapes, surrogate pairs, UTF-8. */
module JsonString {
  import opened JsonText

  datatype Scanned = Scanned(value: Text, rest: Text) | Malformed

  /** What an escaped character stands for; a null character if nothing. */
  function Unescaped(e: Ch): Ch {
    match e
    case '"' => '"'
    case '/' => '/'
    case '\\' => '\\'
    case 'b' => '\U{0008}'
    case 'f' => '\U{000C}'
    case 'n' => '\n'
    case 'r' => '\r'
    case 't' => '\t'
    case _ => '\0'
  }

  function HexDigit(c: Ch): (d: int)
    ensures -1 <= d < 16
  {
    if '0' <= c <= '9' then c as int - '0' as int
    else if 'A' <= c <= 'F' then c as int - 'A' as int + 10
    else if 'a' <= c <= 'f' then c as int - 'a' as int + 10
    else -1
  }

  /** n hexadecimal digits after the value high, or -1. */
  function Hex(s: Text, n: nat, high: nat): int
    decreases n
  {
    if n == 0 then high
    else if HexDigit(Peek(s)) < 0 then -1
    else Hex(s[1..], n - 1, 16 * high + HexDigit(s[0]))
  }

  lemma {:induction false} HexBound(s: Text, n: nat, high: nat)
    ensures Hex(s, n, high) >= 0 ==> n <= |s|
    ensures n == 4 && high == 0 ==> Hex(s, n, high) < 0x1_0000
  {
    HexRange(s, n, high);
    assert Pow16(4) == 0x1_0000;
  }

  function Pow16(n: nat): nat { if n == 0 then 1 else 16 * Pow16(n - 1) }

  lemma {:induction false} HexRange(s: Text, n: nat, high: nat)
    ensures Hex(s, n, high) >= 0 ==> n <= |s| && Hex(s, n, high) < (high + 1) * Pow16(n)
    decreases n
  {
    if n > 0 && HexDigit(Peek(s)) >= 0 {
      var next := 16 * high + HexDigit(s[0]);
      HexRange(s[1..], n - 1, next);
      Widen(next + 1, high + 1, Pow16(n - 1));
    }
  }

  lemma Widen(a: nat, b: nat, p: nat)
    requires a <= 16 * b
    ensures a * p <= b * (16 * p)
  {}

  function Byte(n: nat): Ch
    requires n < 256
  {
    n as char
  }

  /** UTF8::Encode. */
  function Utf8(cp: nat): (t: Text)
    requires cp < 0x11_0000
    ensures 1 <= |t| <= 4
  {
    if cp < 0x80 then [Byte(cp)]
    else if cp < 0x800 then [Byte(0xC0 + cp / 0x40), Byte(0x80 + cp % 0x40)]
    else if cp < 0x1_0000 then [Byte(0xE0 + cp / 0x1000), Byte(0x80 + cp / 0x40 % 0x40), Byte(0x80 + cp % 0x40)]
    else [Byte(0xF0 + cp / 0x4_0000), Byte(0x80 + cp / 0x1000 % 0x40), Byte(0x80 + cp / 0x40 % 0x40), Byte(0x80 + cp % 0x40)]
  }

  function Prepend(t: Text, r: Scanned): Scanned {
    if r.Scanned? then Scanned(t + r.value, r.rest) else r
  }

  /** The first escape sequence of s, after its backslash. */
  function Escape(s: Text): (r: Scanned)
    ensures r.Scanned? ==> |r.rest| < |s| && 1 <= |r.value| <= 4 && |r.value| + |r.rest| <= |s|
  {
    var e := Peek(s);
    if Unescaped(e) != '\0' then Scanned([Unescaped(e)], s[1..])
    else if e != 'u' then Malformed
    else
      var cp := Hex(s[1..], 4, 0);
      HexBound(s[1..], 4, 0);
      if cp < 0 then Malformed
      else if 0xD800 <= cp <= 0xDBFF then
        var t := s[5..];
        if Peek(t) != '\\' || Peek(t[1..]) != 'u' then Malformed
        else
          var low := Hex(t[2..], 4, 0);
          HexBound(t[2..], 4, 0);
          if low < 0xDC00 || low > 0xDFFF then Malformed
          else Scanned(Utf8((cp - 0xD800) * 0x400 + (low - 0xDC00) + 0x1_0000), t[6..])
      else Scanned(Utf8(cp), s[5..])
  }

  /** The characters of a string after its opening quotation mark, up to and with the closing one. */
  function StringBody(s: Text): (r: Scanned)
    ensures r.Scanned? ==> |r.rest| < |s|
    decreases |s|
  {
    var c := Peek(s);
    if c == '\\' then
      var e := Escape(s[1..]);
      if e.Malformed? then e else Prepend(e.value, StringBody(e.rest))
    else if c == '"' then Scanned([], s[1..])
    else if c < ' ' then Malformed
    else Prepend([c], StringBody(s[1..]))
  }

  lemma PrependTwice(a: Text, b: Text, r: Scanned)
    ensures Prepend(a, Prepend(b, r)) == Prepend(a + b, r)
  {}

  lemma PrependNothing(r: Scanned)
    ensures Prepend([], r) == r
  {}

  lemma NothingUnescaped()
    ensures Unescaped('\0') == '\0' && HexDigit('\0') == -1
  {}

  lemma PrependMalformed(out: Text)
    ensures Prepend(out, Malformed) == Malformed
  {}

  lemma PrependEnd(out: Text, rest: Text)
    ensures Prepend(out, Scanned([], rest)) == Scanned(out, rest)
  {}
}
