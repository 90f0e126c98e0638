/** UTF-8 and UTF-16: one code point from or to a stream, and texts of them. */
module JsonEncodings {
  import opened JsonString
  import opened JsonText

  type Unit16 = n: nat | n < 0x1_0000

  /** Unicode scalar values: the code points that are no surrogates. */
  type Scalar = n: nat | n < 0xD800 || 0xE000 <= n < 0x11_0000

  datatype Decoded<T> = Code(codepoint: nat, rest: seq<T>) | Invalid

  // ---------- UTF-8 ----------

  /** The table of byte classes. */
  function GetRange(c: Ch): bv8 {
    var n := c as int;
    if n < 0x80 then 0
    else if n < 0x90 then 0x10
    else if n < 0xA0 then 0x40
    else if n < 0xC0 then 0x20
    else if n < 0xC2 then 8
    else if n < 0xE0 then 2
    else if n == 0xE0 then 10
    else if n == 0xED then 4
    else if n < 0xF0 then 3
    else if n == 0xF0 then 11
    else if n < 0xF4 then 6
    else if n == 0xF4 then 5
    else 8
  }

  /** RAPIDJSON_TRANS. */
  predicate InRange(c: Ch, mask: bv8) { GetRange(c) & mask != 0 }

  /** The bits of a first byte below its class: 0xFF shifted by the class, and the byte. */
  function LeadBits(range: bv8, c: Ch): nat {
    var n := c as int;
    if range == 2 then n % 0x40
    else if range == 3 then n % 0x20
    else if range == 4 then n % 0x10
    else if range == 5 then n % 8
    else if range == 6 then n % 4
    else 0
  }

  /** How many bytes follow a first byte of a class, and the test for the first of them. */
  function Followers(range: bv8): (nat, bv8) {
    if range == 2 then (1, 0x70)
    else if range == 3 then (2, 0x70)
    else if range == 4 then (2, 0x50)
    else if range == 5 then (3, 0x10)
    else if range == 6 then (3, 0x70)
    else if range == 10 then (2, 0x20)
    else if range == 11 then (3, 0x60)
    else (0, 0)
  }

  /** n more bytes of six bits each; the first one is tested with mask. */
  function Tail(cp: nat, s: Text, n: nat, mask: bv8): Decoded<Ch>
    decreases n
  {
    if n == 0 then Code(cp, s)
    else if s == [] || !InRange(s[0], mask) then Invalid
    else Tail(0x40 * cp + s[0] as int % 0x40, s[1..], n - 1, 0x70)
  }

  /** UTF8::Decode. */
  function Decode8(s: Text): Decoded<Ch>
    requires s != []
  {
    var range := GetRange(s[0]);
    var (n, mask) := Followers(range);
    if s[0] as int < 0x80 then Code(s[0] as int, s[1..])
    else if n == 0 then Invalid
    else Tail(LeadBits(range, s[0]), s[1..], n, mask)
  }

  predicate Between(c: Ch, low: int, high: int) { low <= c as int <= high }

  predicate IsTail(c: Ch) { Between(c, 0x80, 0xBF) }

  /** The sequences of section 4 of RFC 3629. */
  predicate WellFormed(b: Text) {
    match |b|
    case 1 => Between(b[0], 0, 0x7F)
    case 2 => Between(b[0], 0xC2, 0xDF) && IsTail(b[1])
    case 3 =>
      && IsTail(b[2])
      && (|| (Between(b[0], 0xE0, 0xE0) && Between(b[1], 0xA0, 0xBF))
          || (Between(b[0], 0xE1, 0xEC) && IsTail(b[1]))
          || (Between(b[0], 0xED, 0xED) && Between(b[1], 0x80, 0x9F))
          || (Between(b[0], 0xEE, 0xEF) && IsTail(b[1])))
    case 4 =>
      && IsTail(b[2]) && IsTail(b[3])
      && (|| (Between(b[0], 0xF0, 0xF0) && Between(b[1], 0x90, 0xBF))
          || (Between(b[0], 0xF1, 0xF3) && IsTail(b[1]))
          || (Between(b[0], 0xF4, 0xF4) && Between(b[1], 0x80, 0x8F)))
    case _ => false
  }

  /** What the masks select. */
  lemma Masks(c: Ch)
    ensures InRange(c, 0x70) <==> IsTail(c)
    ensures InRange(c, 0x50) <==> Between(c, 0x80, 0x9F)
    ensures InRange(c, 0x10) <==> Between(c, 0x80, 0x8F)
    ensures InRange(c, 0x20) <==> Between(c, 0xA0, 0xBF)
    ensures InRange(c, 0x60) <==> Between(c, 0x90, 0xBF)
  {}

  /** The code point of a sequence of n + 1 bytes. */
  function Joined(b: Text, lead: nat): nat {
    match |b|
    case 2 => 0x40 * lead + b[1] as int % 0x40
    case 3 => 0x40 * (0x40 * lead + b[1] as int % 0x40) + b[2] as int % 0x40
    case 4 => 0x40 * (0x40 * (0x40 * lead + b[1] as int % 0x40) + b[2] as int % 0x40) + b[3] as int % 0x40
    case _ => lead
  }

  lemma TailJoined(lead: nat, s: Text, n: nat, mask: bv8)
    requires 1 <= n <= 3 && s != [] && mask in {0x70, 0x50, 0x10, 0x20, 0x60}
    ensures
      var b := if n < |s| then s[..n + 1] else s;
      Tail(lead, s[1..], n, mask) ==
        if n < |s| && InRange(s[1], mask) && forall i | 2 <= i <= n :: IsTail(s[i]) then Code(Joined(b, lead), s[n + 1..])
        else Invalid
  {
    hide InRange, IsTail;
    if |s| > 1 { Masks(s[1]); assert s[1..][1..] == s[2..]; }
    if |s| > 2 { Masks(s[2]); assert s[2..][1..] == s[3..]; }
    if |s| > 3 { Masks(s[3]); assert s[3..][1..] == s[4..]; }
  }

  /** The code point of a well-formed sequence. */
  function CodeOf(b: Text): nat
    requires b != []
  {
    if |b| == 1 then b[0] as int else Joined(b, LeadBits(GetRange(b[0]), b[0]))
  }

  /** Decoding takes a well-formed sequence off the text. */
  lemma DecodeOf(b: Text, rest: Text)
    requires WellFormed(b)
    ensures Decode8(b + rest) == Code(CodeOf(b), rest)
  {
    var s := b + rest;
    var range := GetRange(b[0]);
    if |b| == 1 {
      assert s[1..] == rest;
    } else {
      var (n, mask) := Followers(range);
      Masks(b[1]);
      assert n == |b| - 1;
      TailJoined(LeadBits(range, b[0]), s, n, mask);
      assert s[..n + 1] == b && s[n + 1..] == rest;
    }
  }

  /** Whatever is decoded was a well-formed sequence. */
  lemma DecodedPrefix(s: Text) returns (n: nat)
    requires s != [] && Decode8(s).Code?
    ensures n <= |s| && WellFormed(s[..n]) && Decode8(s).rest == s[n..]
  {
    var range := GetRange(s[0]);
    n := Followers(range).0;
    if s[0] as int < 0x80 {
      n := 1;
    } else {
      var mask := Followers(range).1;
      TailJoined(LeadBits(range, s[0]), s, n, mask);
      Masks(s[1]);
      n := n + 1;
    }
  }

  /** The bits of the first byte. */
  lemma Leads(c: Ch)
    ensures
      var n, lead := c as int, LeadBits(GetRange(c), c);
      && (0xC2 <= n < 0xE0 ==> lead == n - 0xC0)
      && (0xE0 <= n < 0xF0 ==> lead == n - 0xE0)
      && (0xF0 <= n < 0xF5 ==> lead == n - 0xF0)
  {}

  /** A number by its digits to base 64. */
  lemma Digits64(cp: nat)
    ensures cp == 0x40 * (cp / 0x40) + cp % 0x40
    ensures cp / 0x40 == 0x40 * (cp / 0x1000) + cp / 0x40 % 0x40
    ensures cp / 0x1000 == 0x40 * (cp / 0x4_0000) + cp / 0x1000 % 0x40
  {}

  lemma OfDigits64(a: nat, b: nat, c: nat, d: nat)
    requires b < 0x40 && c < 0x40 && d < 0x40
    ensures var n := 0x40 * a + b; n / 0x40 == a && n % 0x40 == b
    ensures var n := 0x40 * (0x40 * a + b) + c; n / 0x1000 == a && n / 0x40 % 0x40 == b && n % 0x40 == c
    ensures
      var n := 0x40 * (0x40 * (0x40 * a + b) + c) + d;
      n / 0x4_0000 == a && n / 0x1000 % 0x40 == b && n / 0x40 % 0x40 == c && n % 0x40 == d
  {}

  /** A continuation byte. */
  lemma TailByte(d: nat)
    requires d < 0x40
    ensures IsTail(Byte(0x80 + d)) && Byte(0x80 + d) as int % 0x40 == d
  {}

  lemma EncodedWellFormed(cp: Scalar)
    ensures WellFormed(Utf8(cp)) && CodeOf(Utf8(cp)) == cp
  {
    Digits64(cp);
    if cp >= 0x80 {
      TailByte(cp % 0x40);
      TailByte(cp / 0x40 % 0x40);
      TailByte(cp / 0x1000 % 0x40);
      Leads(Utf8(cp)[0]);
      hide LeadBits, GetRange, IsTail;
      if cp >= 0x1_0000 {
        EncodedFour(cp);
      } else if cp >= 0x800 {
        EncodedThree(cp);
      }
    }
  }

  lemma EncodedThree(cp: Scalar)
    requires 0x800 <= cp < 0x1_0000
    ensures WellFormed(Utf8(cp))
  {}

  lemma EncodedFour(cp: Scalar)
    requires 0x1_0000 <= cp
    ensures WellFormed(Utf8(cp))
  {}

  ghost predicate Encodes(b: Text)
    requires b != []
  {
    var cp := CodeOf(b);
    (cp < 0xD800 || 0xE000 <= cp < 0x11_0000) && Utf8(cp) == b
  }

  lemma TailBits(c: Ch)
    ensures IsTail(c) ==> c as int == 0x80 + c as int % 0x40
    ensures var d := c as int % 0x40; (Between(c, 0x80, 0x9F) ==> d < 0x20) && (Between(c, 0x80, 0x8F) ==> d < 0x10)
    ensures var d := c as int % 0x40; (Between(c, 0xA0, 0xBF) ==> d >= 0x20) && (Between(c, 0x90, 0xBF) ==> d >= 0x10)
  {}

  lemma TwoEncoded(b: Text)
    requires WellFormed(b) && |b| == 2
    ensures Encodes(b)
  {
    var lead, c1 := LeadBits(GetRange(b[0]), b[0]), b[1] as int % 0x40;
    Leads(b[0]);
    TailBits(b[1]);
    OfDigits64(lead, c1, 0, 0);
    hide LeadBits, GetRange;
    assert CodeOf(b) == 0x40 * lead + c1;
    assert Utf8(CodeOf(b)) == [Byte(0xC0 + lead), Byte(0x80 + c1)];
  }

  lemma ThreeEncoded(b: Text)
    requires WellFormed(b) && |b| == 3
    ensures Encodes(b)
  {
    var lead, c1, c2 := LeadBits(GetRange(b[0]), b[0]), b[1] as int % 0x40, b[2] as int % 0x40;
    Leads(b[0]);
    TailBits(b[1]);
    TailBits(b[2]);
    OfDigits64(lead, c1, c2, 0);
    hide LeadBits, GetRange, IsTail;
    var cp := 0x40 * (0x40 * lead + c1) + c2;
    assert CodeOf(b) == cp;
    assert 0x800 <= cp < 0x1_0000 && (cp < 0xD800 || 0xE000 <= cp);
    assert Utf8(cp) == [Byte(0xE0 + lead), Byte(0x80 + c1), Byte(0x80 + c2)];
  }

  lemma FourEncoded(b: Text)
    requires WellFormed(b) && |b| == 4
    ensures Encodes(b)
  {
    var lead, c1 := LeadBits(GetRange(b[0]), b[0]), b[1] as int % 0x40;
    var c2, c3 := b[2] as int % 0x40, b[3] as int % 0x40;
    Leads(b[0]);
    TailBits(b[1]);
    TailBits(b[2]);
    TailBits(b[3]);
    OfDigits64(lead, c1, c2, c3);
    hide LeadBits, GetRange, IsTail;
    var cp := 0x40 * (0x40 * (0x40 * lead + c1) + c2) + c3;
    assert CodeOf(b) == cp;
    assert 0x1_0000 <= cp < 0x11_0000;
    assert Utf8(cp) == [Byte(0xF0 + lead), Byte(0x80 + c1), Byte(0x80 + c2), Byte(0x80 + c3)];
  }

  lemma WellFormedEncoded(b: Text)
    requires WellFormed(b)
    ensures Encodes(b)
  {
    match |b|
    case 2 => TwoEncoded(b);
    case 3 => ThreeEncoded(b);
    case 4 => FourEncoded(b);
    case _ =>
  }

  /** Decoding undoes encoding. */
  lemma DecodeEncode8(cp: Scalar, rest: Text)
    ensures Decode8(Utf8(cp) + rest) == Code(cp, rest)
  {
    EncodedWellFormed(cp);
    DecodeOf(Utf8(cp), rest);
  }

  /** Encoding undoes decoding: what is decoded is a scalar value in its only encoding. */
  lemma EncodeDecode8(s: Text)
    requires s != [] && Decode8(s).Code?
    ensures
      var r := Decode8(s);
      (r.codepoint < 0xD800 || 0xE000 <= r.codepoint < 0x11_0000) && s == Utf8(r.codepoint) + r.rest
  {
    hide Decode8, WellFormed, CodeOf, Utf8;
    var n := DecodedPrefix(s);
    assert s == s[..n] + s[n..];
    DecodeOf(s[..n], s[n..]);
    WellFormedEncoded(s[..n]);
  }

  /** Decoding accepts exactly the texts that start with a well-formed sequence. */
  lemma DecodesWellFormed(s: Text)
    requires s != []
    ensures Decode8(s).Code? <==> exists n: nat :: n <= |s| && WellFormed(s[..n])
  {
    hide Decode8, WellFormed;
    if Decode8(s).Code? {
      var n := DecodedPrefix(s);
    }
    forall n: nat | n <= |s| && WellFormed(s[..n]) ensures Decode8(s).Code? {
      assert s == s[..n] + s[n..];
      DecodeOf(s[..n], s[n..]);
    }
  }

  function Bits(b: char, first: nat): int { b as int - first }

  /** The bits of a code point, six to a continuation byte, as the table in section 3 of RFC 3629 places them. */
  lemma Utf8Places(cp: Scalar)
    ensures var b := Utf8(cp);
      if cp < 0x80 then |b| == 1 && cp == Bits(b[0], 0)
      else if cp < 0x800 then |b| == 2 && cp == 0x40 * Bits(b[0], 0xC0) + Bits(b[1], 0x80)
      else if cp < 0x1_0000 then
        |b| == 3 && cp == 0x1000 * Bits(b[0], 0xE0) + 0x40 * Bits(b[1], 0x80) + Bits(b[2], 0x80)
      else
        |b| == 4 && cp
        == 0x4_0000 * Bits(b[0], 0xF0) + 0x1000 * Bits(b[1], 0x80) + 0x40 * Bits(b[2], 0x80) + Bits(b[3], 0x80)
  {
    hide Byte, Bits;
    var last, second, third := cp % 0x40, cp / 0x40 % 0x40, cp / 0x1000 % 0x40;
    BitsOf(0x80, last);
    BitsOf(0x80, second);
    BitsOf(0x80, third);
    if cp < 0x80 {
      BitsOf(0, cp);
    } else if cp < 0x800 {
      BitsOf(0xC0, cp / 0x40);
    } else if cp < 0x1_0000 {
      BitsOf(0xE0, cp / 0x1000);
      assert cp / 0x40 == 0x40 * (cp / 0x1000) + second;
    } else {
      BitsOf(0xF0, cp / 0x4_0000);
      assert cp / 0x40 == 0x40 * (cp / 0x1000) + second;
      assert cp / 0x1000 == 0x40 * (cp / 0x4_0000) + third;
    }
  }

  lemma BitsOf(first: nat, n: nat)
    requires first + n < 0x100
    ensures Bits(Byte(first + n), first) == n
  {}

  // ---------- UTF-16 ----------

  /** UTF16::Encode. */
  function Encode16(cp: Scalar): (u: seq<Unit16>)
    ensures u != []
  {
    if cp < 0x1_0000 then [cp]
    else [(cp - 0x1_0000) / 0x400 + 0xD800, (cp - 0x1_0000) % 0x400 + 0xDC00]
  }

  /** UTF16::Decode. */
  function Decode16(s: seq<Unit16>): (r: Decoded<Unit16>)
    requires s != []
    ensures r.Code? ==> |r.rest| < |s|
  {
    var c: nat, d: nat := s[0], if |s| > 1 then s[1] else 0;
    if c < 0xD800 || c > 0xDFFF then Code(c, s[1..])
    else if c > 0xDBFF || d < 0xDC00 || d > 0xDFFF then Invalid
    else Code(c % 0x400 * 0x400 + d % 0x400 + 0x1_0000, s[2..])
  }

  /** A code point below 2^16 is its own unit; of any other, less 2^16, the high surrogate carries the upper ten bits
      and the low one the lower ten. */
  lemma Surrogates(cp: Scalar)
    ensures var u := Encode16(cp);
      if cp < 0x1_0000 then |u| == 1 && u[0] as int == cp
      else |u| == 2 && 0xD800 <= u[0] < 0xDC00 <= u[1] < 0xE000
           && cp == 0x1_0000 + 0x400 * (u[0] as int - 0xD800) + (u[1] as int - 0xDC00)
  {}

  lemma DecodeEncode16(cp: Scalar, rest: seq<Unit16>)
    ensures Decode16(Encode16(cp) + rest) == Code(cp, rest)
  {}

  lemma EncodeDecode16(s: seq<Unit16>)
    requires s != [] && Decode16(s).Code?
    ensures
      var r := Decode16(s);
      (r.codepoint < 0xD800 || 0xE000 <= r.codepoint < 0x11_0000) && s == Encode16(r.codepoint) + r.rest
  {}

  // ---------- texts ----------

  datatype Points = Points(cps: seq<Scalar>) | NoPoints

  function Cons(cp: Scalar, r: Points): Points { if r.Points? then Points([cp] + r.cps) else r }

  function EncodeAll8(cps: seq<Scalar>): Text { if cps == [] then [] else Utf8(cps[0]) + EncodeAll8(cps[1..]) }

  function EncodeAll16(cps: seq<Scalar>): seq<Unit16> { if cps == [] then [] else Encode16(cps[0]) + EncodeAll16(cps[1..]) }

  /** The code points of a text; malformed if a sequence is. */
  ghost function Points8(s: Text): Points
    decreases |s|
  {
    if s == [] then Points([])
    else if Decode8(s).Invalid? then NoPoints
    else
      EncodeDecode8(s);
      Cons(Decode8(s).codepoint, Points8(Decode8(s).rest))
  }

  ghost function Points16(s: seq<Unit16>): Points
    decreases |s|
  {
    if s == [] then Points([])
    else if Decode16(s).Invalid? then NoPoints
    else
      EncodeDecode16(s);
      Cons(Decode16(s).codepoint, Points16(Decode16(s).rest))
  }

  /** A text of scalar values is decoded into them, and only its own text is. */
  lemma {:induction false} DecodeEncodeAll8(cps: seq<Scalar>)
    ensures Points8(EncodeAll8(cps)) == Points(cps)
  {
    hide Decode8, Utf8;
    if cps != [] {
      DecodeEncode8(cps[0], EncodeAll8(cps[1..]));
      DecodeEncodeAll8(cps[1..]);
      assert [cps[0]] + cps[1..] == cps;
    }
  }

  lemma {:induction false} EncodeDecodeAll8(s: Text)
    requires Points8(s).Points?
    ensures EncodeAll8(Points8(s).cps) == s
    decreases |s|
  {
    hide Decode8, Utf8;
    if s != [] {
      EncodeDecode8(s);
      EncodeDecodeAll8(Decode8(s).rest);
      assert Points8(s).cps[1..] == Points8(Decode8(s).rest).cps;
    }
  }

  lemma {:induction false} DecodeEncodeAll16(cps: seq<Scalar>)
    ensures Points16(EncodeAll16(cps)) == Points(cps)
  {
    hide Decode16, Encode16;
    if cps != [] {
      DecodeEncode16(cps[0], EncodeAll16(cps[1..]));
      DecodeEncodeAll16(cps[1..]);
      assert [cps[0]] + cps[1..] == cps;
    }
  }

  lemma {:induction false} EncodeDecodeAll16(s: seq<Unit16>)
    requires Points16(s).Points?
    ensures EncodeAll16(Points16(s).cps) == s
    decreases |s|
  {
    hide Decode16, Encode16;
    if s != [] {
      EncodeDecode16(s);
      EncodeDecodeAll16(Decode16(s).rest);
      assert Points16(s).cps[1..] == Points16(Decode16(s).rest).cps;
    }
  }

  lemma {:induction false} EncodeMore8(cps: seq<Scalar>, cp: Scalar)
    ensures EncodeAll8(cps + [cp]) == EncodeAll8(cps) + Utf8(cp)
  {
    hide Utf8;
    if cps == [] {
      assert [cp][1..] == [] && Utf8(cp) + [] == Utf8(cp);
    } else {
      EncodeMore8(cps[1..], cp);
      assert (cps + [cp])[1..] == cps[1..] + [cp];
    }
  }

  lemma {:induction false} EncodeMore16(cps: seq<Scalar>, cp: Scalar)
    ensures EncodeAll16(cps + [cp]) == EncodeAll16(cps) + Encode16(cp)
  {
    hide Encode16;
    if cps == [] {
      assert [cp][1..] == [] && Encode16(cp) + [] == Encode16(cp);
    } else {
      EncodeMore16(cps[1..], cp);
      assert (cps + [cp])[1..] == cps[1..] + [cp];
    }
  }

  /** cps before the points of what is left. */
  ghost function Prefixed(cps: seq<Scalar>, r: Points): Points { if r.Points? then Points(cps + r.cps) else r }

  lemma PrefixedMore(cps: seq<Scalar>, cp: Scalar, r: Points)
    ensures Prefixed(cps, Cons(cp, r)) == Prefixed(cps + [cp], r)
  {}

  /** Transcode a text from UTF-8 to UTF-16. */
  method Transcode8To16(s: Text) returns (ok: bool, out: seq<Unit16>)
    ensures ok == Points8(s).Points?
    ensures ok ==> out == EncodeAll16(Points8(s).cps)
  {
    hide Decode8, EncodeAll16, Prefixed;
    var rest := s;
    ghost var cps: seq<Scalar> := [];
    ok, out := true, [];
    NothingYet(Points8(s));
    while rest != []
      invariant out == EncodeAll16(cps) && Points8(s) == Prefixed(cps, Points8(rest))
      decreases |rest|
    {
      var r := Decode8(rest);
      if r.Invalid? {
        PrefixedNone(cps);
        return false, [];
      }
      EncodeDecode8(rest);
      PrefixedMore(cps, r.codepoint, Points8(r.rest));
      EncodeMore8(cps, r.codepoint);
      EncodeMore16(cps, r.codepoint);
      out := out + Encode16(r.codepoint);
      cps := cps + [r.codepoint];
      rest := r.rest;
    }
    PrefixedNothing(cps);
  }

  lemma NothingYet(r: Points)
    ensures Prefixed([], r) == r && EncodeAll16([]) == [] && EncodeAll8([]) == []
  {}

  lemma PrefixedNone(cps: seq<Scalar>)
    ensures Prefixed(cps, NoPoints) == NoPoints
  {}

  lemma PrefixedNothing(cps: seq<Scalar>)
    ensures Prefixed(cps, Points([])) == Points(cps)
  {}

  /** Transcode a text from UTF-16 to UTF-8. */
  method Transcode16To8(s: seq<Unit16>) returns (ok: bool, out: Text)
    ensures ok == Points16(s).Points?
    ensures ok ==> out == EncodeAll8(Points16(s).cps)
  {
    hide Decode16, EncodeAll8, Prefixed;
    var rest := s;
    ghost var cps: seq<Scalar> := [];
    ok, out := true, [];
    NothingYet(Points16(s));
    while rest != []
      invariant out == EncodeAll8(cps) && Points16(s) == Prefixed(cps, Points16(rest))
      decreases |rest|
    {
      var r := Decode16(rest);
      if r.Invalid? {
        PrefixedNone(cps);
        return false, [];
      }
      EncodeDecode16(rest);
      PrefixedMore(cps, r.codepoint, Points16(r.rest));
      EncodeMore8(cps, r.codepoint);
      EncodeMore16(cps, r.codepoint);
      out := out + Utf8(r.codepoint);
      cps := cps + [r.codepoint];
      rest := r.rest;
    }
    PrefixedNothing(cps);
  }

  /** Well-formed UTF-8 comes back from UTF-16 unchanged. */
  method ThereAndBack(s: Text) returns (ok: bool, back: Text)
    ensures ok == Points8(s).Points? && (ok ==> back == s)
  {
    hide Points8, Points16, EncodeAll8, EncodeAll16;
    back := [];
    var units;
    ok, units := Transcode8To16(s);
    if ok {
      DecodeEncodeAll16(Points8(s).cps);
      ok, back := Transcode16To8(units);
      EncodeDecodeAll8(s);
    }
  }
}
