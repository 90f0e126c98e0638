/** JSON Pointer (RFC 6901): its string and URI fragment forms, parsed into a buffer of names. */
module JsonPointer {
  import opened JsonEncodings
  import opened JsonNumber
  import opened JsonPrinter
  import opened JsonString
  import opened JsonText

  // ---------- one name ----------

  /** All but the unreserved characters of section 2.3 of RFC 3986. */
  predicate NeedPercentEncode(c: Ch) {
    !('0' <= c <= '9' || 'A' <= c <= 'Z' || 'a' <= c <= 'z' || c == '-' || c == '.' || c == '_' || c == '~')
  }

  function PercentEncoded(c: Ch): Text { ['%', HexDigits()[c as int / 16], HexDigits()[c as int % 16]] }

  function PercentEncodedAll(s: Text): Text { if s == [] then [] else PercentEncoded(s[0]) + PercentEncodedAll(s[1..]) }

  /** The byte of the triplet that s starts with. */
  datatype Triplet = Triplet(c: Ch, rest: Text) | NoTriplet

  function PercentDecoded(s: Text): Triplet {
    if |s| < 3 || s[0] != '%' || HexDigit(s[1]) < 0 || HexDigit(s[2]) < 0 then NoTriplet
    else Triplet(Byte(16 * HexDigit(s[1]) + HexDigit(s[2])), s[3..])
  }

  /** UTF8::Validate: the length of the sequence that s starts with, or 0. */
  function Validated(s: Text): (n: nat)
    requires s != []
    ensures n <= |s|
  {
    var (n, mask) := Followers(GetRange(s[0]));
    if s[0] as int < 0x80 then 1
    else if n == 0 || |s| <= n || !InRange(s[1], mask) || exists i | 2 <= i <= n :: !InRange(s[i], 0x70) then 0
    else n + 1
  }

  /** The same through triplets: n more bytes. */
  function SequenceTail(b: Text, s: Text, n: nat, mask: bv8): (r: Scanned)
    ensures r.Scanned? ==> |r.value| == |b| + n && |r.rest| + 3 * n == |s|
    decreases n
  {
    if n == 0 then Scanned(b, s)
    else
      var t := PercentDecoded(s);
      if t.NoTriplet? || !InRange(t.c, mask) then Malformed else SequenceTail(b + [t.c], t.rest, n - 1, 0x70)
  }

  /** The bytes of a sequence of triplets. */
  function Sequence(s: Text): (r: Scanned)
    ensures r.Scanned? ==> 1 <= |r.value| && |r.rest| + 3 * |r.value| == |s|
  {
    var t := PercentDecoded(s);
    if t.NoTriplet? then Malformed
    else
      var (n, mask) := Followers(GetRange(t.c));
      if t.c as int < 0x80 then Scanned([t.c], t.rest)
      else if n == 0 then Malformed
      else SequenceTail([t.c], t.rest, n, mask)
  }

  /** The character after a tilde. */
  function Unescape(s: Text): Triplet {
    if s == [] then NoTriplet
    else if s[0] == '0' then Triplet('~', s[1..])
    else if s[0] == '1' then Triplet('/', s[1..])
    else NoTriplet
  }

  /** A name up to the next solidus or the end. */
  function NameFrom(uri: bool, s: Text): (r: Scanned)
    ensures r.Scanned? ==> |r.rest| <= |s|
    decreases |s|, 1
  {
    if s == [] || s[0] == '/' then Scanned([], s)
    else if uri && s[0] == '%' then
      var b := Sequence(s);
      if b.Malformed? then b
      else if |b.value| == 1 then CharacterFrom(uri, b.value[0], b.rest)
      else Prepend(b.value, NameFrom(uri, b.rest))
    else if uri && NeedPercentEncode(s[0]) then Malformed
    else CharacterFrom(uri, s[0], s[1..])
  }

  /** A name from a character on. */
  function CharacterFrom(uri: bool, c: Ch, s: Text): (r: Scanned)
    ensures r.Scanned? ==> |r.rest| <= |s|
    decreases |s|, 2
  {
    if c == '~' then
      var e := Unescape(s);
      if e.NoTriplet? then Malformed else Prepend([e.c], NameFrom(uri, e.rest))
    else Prepend([c], NameFrom(uri, s))
  }

  datatype Encoded = Encoded(text: Text) | NotEncoded

  function Put(t: Text, r: Encoded): Encoded { if r.Encoded? then Encoded(t + r.text) else r }

  function EncodeName(uri: bool, name: Text): Encoded
    decreases |name|
  {
    if name == [] then Encoded([])
    else if name[0] == '~' then Put("~0", EncodeName(uri, name[1..]))
    else if name[0] == '/' then Put("~1", EncodeName(uri, name[1..]))
    else if uri && NeedPercentEncode(name[0]) then
      var n := Validated(name);
      if n == 0 then NotEncoded else Put(PercentEncodedAll(name[..n]), EncodeName(uri, name[n..]))
    else Put([name[0]], EncodeName(uri, name[1..]))
  }

  // ---------- parsing undoes encoding ----------

  lemma PercentDecodeEncode(c: Ch, rest: Text)
    ensures PercentDecoded(PercentEncoded(c) + rest) == Triplet(c, rest)
  {
    var s := PercentEncoded(c) + rest;
    assert s[3..] == rest;
    DigitOfHex(c as int / 16);
    DigitOfHex(c as int % 16);
  }

  lemma DigitOfHex(d: nat)
    requires d < 16
    ensures HexDigit(HexDigits()[d]) == d
  {}

  lemma {:induction false} SequenceTailEncoded(b: Text, t: Text, rest: Text, mask: bv8)
    requires t == [] || (InRange(t[0], mask) && forall i | 1 <= i < |t| :: InRange(t[i], 0x70))
    ensures SequenceTail(b, PercentEncodedAll(t) + rest, |t|, mask) == Scanned(b + t, rest)
    decreases |t|
  {
    hide PercentEncoded, PercentDecoded, InRange;
    if t == [] {
      assert [] + rest == rest && b + [] == b;
    } else {
      var more := PercentEncodedAll(t[1..]) + rest;
      assert PercentEncodedAll(t) + rest == PercentEncoded(t[0]) + more;
      PercentDecodeEncode(t[0], more);
      SequenceTailEncoded(b + [t[0]], t[1..], rest, 0x70);
      assert b + [t[0]] + t[1..] == b + t;
    }
  }

  lemma ValidatedParts(b: Text)
    requires b != [] && Validated(b) == |b|
    ensures
      var (n, mask) := Followers(GetRange(b[0]));
      if b[0] as int < 0x80 then |b| == 1
      else n > 0 && |b| == n + 1 && InRange(b[1], mask) && forall i | 1 <= i < n :: InRange(b[1..][i], 0x70)
  {
    hide InRange, GetRange;
  }

  lemma Assoc(a: Text, b: Text, c: Text)
    ensures a + b + c == a + (b + c)
  {}

  lemma EncodedFirst(b: Text, rest: Text)
    requires b != []
    ensures PercentEncodedAll(b) + rest == PercentEncoded(b[0]) + (PercentEncodedAll(b[1..]) + rest)
  {}

  lemma FirstAndRest(b: Text)
    requires b != []
    ensures b == [b[0]] + b[1..]
  {}

  /** A sequence by its first byte. */
  lemma SequenceCases(s: Text, c: Ch, more: Text)
    requires PercentDecoded(s) == Triplet(c, more)
    ensures
      var (n, mask) := Followers(GetRange(c));
      Sequence(s) ==
        if c as int < 0x80 then Scanned([c], more) else if n == 0 then Malformed else SequenceTail([c], more, n, mask)
  {
    hide PercentDecoded, SequenceTail, Followers, GetRange;
  }

  lemma OneEncoded(c: Ch, rest: Text)
    requires c as int < 0x80
    ensures Sequence(PercentEncodedAll([c]) + rest) == Scanned([c], rest)
  {
    hide PercentEncoded, PercentDecoded, Sequence;
    assert PercentEncodedAll([c]) == PercentEncoded(c) + [];
    assert PercentEncoded(c) + [] == PercentEncoded(c);
    PercentDecodeEncode(c, rest);
    SequenceCases(PercentEncoded(c) + rest, c, rest);
  }

  lemma ManyEncoded(c: Ch, t: Text, rest: Text)
    requires
      var (n, mask) := Followers(GetRange(c));
      c as int >= 0x80 && n > 0 && |t| == n && InRange(t[0], mask) && forall i | 1 <= i < |t| :: InRange(t[i], 0x70)
    ensures Sequence(PercentEncoded(c) + (PercentEncodedAll(t) + rest)) == Scanned([c] + t, rest)
  {
    hide PercentEncoded, PercentDecoded, PercentEncodedAll, InRange, GetRange, Followers, SequenceTail, Sequence;
    var more := PercentEncodedAll(t) + rest;
    PercentDecodeEncode(c, more);
    SequenceCases(PercentEncoded(c) + more, c, more);
    SequenceTailEncoded([c], t, rest, Followers(GetRange(c)).1);
  }

  lemma SequenceEncoded(b: Text, rest: Text)
    requires b != [] && Validated(b) == |b|
    ensures Sequence(PercentEncodedAll(b) + rest) == Scanned(b, rest)
  {
    ValidatedParts(b);
    EncodedFirst(b, rest);
    FirstAndRest(b);
    hide PercentEncoded, PercentEncodedAll, InRange, GetRange, Followers, Validated, Sequence;
    if b[0] as int < 0x80 {
      assert b == [b[0]];
      OneEncoded(b[0], rest);
    } else {
      ManyEncoded(b[0], b[1..], rest);
    }
  }

  lemma TwoParts(s: Text, n: nat)
    requires n <= |s|
    ensures s[..n] + s[n..] == s
  {}

  /** What is validated does not depend on what follows. */
  lemma ValidatedPrefix(s: Text)
    requires s != [] && Validated(s) > 0
    ensures Validated(s[..Validated(s)]) == Validated(s)
  {
    hide InRange, GetRange;
  }

  predicate EndsName(rest: Text) { rest == [] || rest[0] == '/' }

  /** For any name, the string form is parsed back; for the URI fragment form, whenever it exists. */
  lemma {:induction false} NameParsed(uri: bool, name: Text, rest: Text)
    requires EndsName(rest) && EncodeName(uri, name).Encoded?
    ensures NameFrom(uri, EncodeName(uri, name).text + rest) == Scanned(name, rest)
    decreases |name|
  {
    if name == [] {
      assert [] + rest == rest;
    } else {
      var c := name[0];
      if uri && NeedPercentEncode(c) && c != '/' {
        var n := Validated(name);
        NameParsed(uri, name[n..], rest);
        SequenceParsed(name, rest);
      } else {
        NameParsed(uri, name[1..], rest);
        CharacterParsed(uri, name, rest);
      }
    }
  }

  lemma SequenceParsed(name: Text, rest: Text)
    requires name != [] && name[0] != '/' && name[0] != '~' && NeedPercentEncode(name[0]) && Validated(name) > 0
    requires
      var tail := EncodeName(true, name[Validated(name)..]);
      tail.Encoded? && NameFrom(true, tail.text + rest) == Scanned(name[Validated(name)..], rest)
    ensures EncodeName(true, name).Encoded? && NameFrom(true, EncodeName(true, name).text + rest) == Scanned(name, rest)
  {
    var n := Validated(name);
    var b := name[..n];
    var tail := EncodeName(true, name[n..]).text;
    SequenceText(name);
    ValidatedPrefix(name);
    hide PercentEncoded, Sequence, Validated, EncodeName, PercentEncodedAll, NeedPercentEncode;
    Assoc(PercentEncodedAll(b), tail, rest);
    TwoParts(name, n);
    SequenceEncoded(b, tail + rest);
    FirstPercent(b, tail + rest);
    if |b| == 1 {
      assert b == [b[0]] && b[0] == name[0];
    }
  }

  lemma SequenceText(name: Text)
    requires name != [] && name[0] != '/' && name[0] != '~' && NeedPercentEncode(name[0]) && Validated(name) > 0
    requires EncodeName(true, name[Validated(name)..]).Encoded?
    ensures EncodeName(true, name)
         == Encoded(PercentEncodedAll(name[..Validated(name)]) + EncodeName(true, name[Validated(name)..]).text)
  {
    hide Validated, PercentEncodedAll;
  }

  lemma FirstPercent(b: Text, more: Text)
    requires b != []
    ensures PercentEncodedAll(b) + more != [] && (PercentEncodedAll(b) + more)[0] == '%'
  {}

  lemma CharacterParsed(uri: bool, name: Text, rest: Text)
    requires name != [] && (name[0] == '/' || name[0] == '~' || !uri || !NeedPercentEncode(name[0]))
    requires EncodeName(uri, name).Encoded?
    requires
      var tail := EncodeName(uri, name[1..]);
      tail.Encoded? && NameFrom(uri, tail.text + rest) == Scanned(name[1..], rest)
    ensures NameFrom(uri, EncodeName(uri, name).text + rest) == Scanned(name, rest)
  {
    var c, tail := name[0], EncodeName(uri, name[1..]).text;
    var head: Text := if c == '~' then "~0" else if c == '/' then "~1" else [c];
    assert EncodeName(uri, name).text == head + tail;
    hide EncodeName, NeedPercentEncode, NameFrom;
    Assoc(head, tail, rest);
    FirstAndRest(name);
    if c == '~' || c == '/' {
      EscapeParsed(uri, c, head[1], tail + rest);
      assert head == ['~', head[1]];
    } else {
      PlainParsed(uri, c, tail + rest);
    }
  }

  lemma EscapeParsed(uri: bool, c: Ch, e: Ch, more: Text)
    requires (c == '~' && e == '0') || (c == '/' && e == '1')
    ensures NameFrom(uri, ['~', e] + more) == Prepend([c], NameFrom(uri, more))
  {}

  lemma PlainParsed(uri: bool, c: Ch, more: Text)
    requires c != '~' && c != '/' && (!uri || !NeedPercentEncode(c))
    ensures NameFrom(uri, [c] + more) == Prepend([c], NameFrom(uri, more))
  {}

  // ---------- which names have a URI fragment form ----------

  /** Validating is decoding without the code point. */
  lemma ValidatedDecoded(s: Text)
    requires s != []
    ensures if Decode8(s).Code? then Validated(s) > 0 && Decode8(s).rest == s[Validated(s)..] else Validated(s) == 0
  {
    var range := GetRange(s[0]);
    var (n, mask) := Followers(range);
    if s[0] as int >= 0x80 && n > 0 {
      TailJoined(LeadBits(range, s[0]), s, n, mask);
      forall i | 2 <= i < |s| ensures InRange(s[i], 0x70) <==> IsTail(s[i]) { Masks(s[i]); }
    }
  }

  /** A name has a URI fragment form exactly when it is well-formed UTF-8. */
  lemma {:induction false} Encodable(name: Text)
    ensures EncodeName(true, name).Encoded? <==> Points8(name).Points?
    decreases |name|
  {
    hide Decode8, Validated;
    if name != [] {
      ValidatedDecoded(name);
      var c := name[0];
      if c as int < 0x80 {
        AsciiDecoded(name);
        Encodable(name[1..]);
      } else {
        assert NeedPercentEncode(c);
        if Validated(name) > 0 {
          Encodable(name[Validated(name)..]);
        }
      }
    }
  }

  lemma AsciiDecoded(s: Text)
    requires s != [] && s[0] as int < 0x80
    ensures Decode8(s) == Code(s[0] as int, s[1..]) && Validated(s) == 1
  {}

  // ---------- pointers ----------

  datatype Names = Names(names: seq<Text>) | NoNames

  function AddName(name: Text, r: Names): Names { if r.Names? then Names([name] + r.names) else r }

  /** The names of a text that starts with a solidus or is empty. */
  function NamesFrom(uri: bool, s: Text): Names
    decreases |s|
  {
    if s == [] then Names([])
    else
      var n := NameFrom(uri, s[1..]);
      if n.Malformed? then NoNames else AddName(n.value, NamesFrom(uri, n.rest))
  }

  function IsUri(source: Text): bool { source != [] && source[0] == '#' }

  function ParsedNames(source: Text): Names {
    var s := if IsUri(source) then source[1..] else source;
    if !EndsName(s) then NoNames else NamesFrom(IsUri(source), s)
  }

  function EncodeNames(uri: bool, names: seq<Text>): Encoded {
    if names == [] then Encoded([])
    else
      var n := EncodeName(uri, names[0]);
      if n.NotEncoded? then n else Put(['/'] + n.text, EncodeNames(uri, names[1..]))
  }

  function Stringified(uri: bool, names: seq<Text>): Encoded { Put(if uri then ['#'] else [], EncodeNames(uri, names)) }

  lemma AfterSolidus(s: Text)
    ensures (['/'] + s)[1..] == s
  {}

  lemma {:induction false} NamesParsed(uri: bool, names: seq<Text>)
    requires EncodeNames(uri, names).Encoded?
    ensures EndsName(EncodeNames(uri, names).text) && NamesFrom(uri, EncodeNames(uri, names).text) == Names(names)
  {
    hide NameFrom, EncodeName;
    if names != [] {
      NamesParsed(uri, names[1..]);
      var n, rest := EncodeName(uri, names[0]).text, EncodeNames(uri, names[1..]).text;
      NameParsed(uri, names[0], rest);
      Assoc(['/'], n, rest);
      AfterSolidus(n + rest);
      assert [names[0]] + names[1..] == names;
    }
  }

  /** Parsing the string form of any names, or their URI fragment form if they have one, gives the names
      back. */
  lemma StringifiedParsed(uri: bool, names: seq<Text>)
    requires Stringified(uri, names).Encoded?
    ensures ParsedNames(Stringified(uri, names).text) == Names(names)
  {
    hide NamesFrom, EncodeNames;
    NamesParsed(uri, names);
    var s := EncodeNames(uri, names).text;
    assert (['#'] + s)[1..] == s && [] + s == s;
  }

  /** Every list of names has a string form; it has a URI fragment form exactly when all names are
      well-formed UTF-8. */
  lemma {:induction false} Stringifiable(uri: bool, names: seq<Text>)
    ensures Stringified(uri, names).Encoded? <==> !uri || forall n <- names :: Points8(n).Points?
  {
    hide EncodeName, Points8;
    if names != [] {
      Stringifiable(uri, names[1..]);
      assert names == [names[0]] + names[1..];
      if uri {
        Encodable(names[0]);
      } else {
        AlwaysEncoded(names[0]);
      }
    }
  }

  lemma {:induction false} AlwaysEncoded(name: Text)
    ensures EncodeName(false, name).Encoded?
  {
    if name != [] {
      AlwaysEncoded(name[1..]);
    }
  }

  // ---------- stringifying ----------

  lemma PutMore(a: Text, b: Text, r: Encoded)
    ensures Put(a, Put(b, r)) == Put(a + b, r)
  {}

  lemma PutNothing(a: Text)
    ensures Put(a, Encoded([])) == Encoded(a) && Put(a, NotEncoded) == NotEncoded
  {}

  method PutEncoded(out0: Text, s: Text) returns (out: Text)
    ensures out == out0 + PercentEncodedAll(s)
  {
    out := out0;
    var k := 0;
    assert s[0..] == s;
    while k < |s|
      invariant 0 <= k <= |s| && out + PercentEncodedAll(s[k..]) == out0 + PercentEncodedAll(s)
    {
      assert s[k..][1..] == s[k + 1..];
      Assoc(out, PercentEncoded(s[k]), PercentEncodedAll(s[k + 1..]));
      out := out + PercentEncoded(s[k]);
      k := k + 1;
    }
    assert s[k..] == [] && out + [] == out;
  }

  method StringifyName(uri: bool, name: Text, out0: Text) returns (ok: bool, out: Text)
    ensures (if ok then Encoded(out) else NotEncoded) == Put(out0, EncodeName(uri, name))
  {
    hide Validated, PercentEncodedAll, Put;
    ok, out := true, out0;
    var j := 0;
    assert name[0..] == name;
    while j < |name|
      invariant 0 <= j <= |name| && Put(out0, EncodeName(uri, name)) == Put(out, EncodeName(uri, name[j..]))
    {
      ghost var rest := name[j..];
      var c := name[j];
      var n := 1;
      var more: Text := [c];
      if c == '~' {
        more := "~0";
      } else if c == '/' {
        more := "~1";
      } else if uri && NeedPercentEncode(c) {
        n := Validated(name[j..]);
        if n == 0 {
          PutNothing(out);
          return false, out;
        }
        more := PutEncoded([], name[j..j + n]);
        assert rest[..n] == name[j..j + n];
        assert [] + PercentEncodedAll(rest[..n]) == PercentEncodedAll(rest[..n]);
      }
      assert rest[n..] == name[j + n..];
      PutMore(out, more, EncodeName(uri, rest[n..]));
      out := out + more;
      j := j + n;
    }
    PutNothing(out);
  }

  /** The string form or the URI fragment form of a pointer. */
  method Stringify(uri: bool, names: seq<Text>) returns (ok: bool, out: Text)
    ensures (if ok then Encoded(out) else NotEncoded) == Stringified(uri, names)
  {
    hide EncodeName, Put;
    ok, out := true, if uri then ['#'] else [];
    var k := 0;
    assert names[0..] == names;
    while k < |names|
      invariant 0 <= k <= |names| && Stringified(uri, names) == Put(out, EncodeNames(uri, names[k..]))
    {
      assert names[k..][1..] == names[k + 1..];
      ghost var n, rest := EncodeName(uri, names[k]), EncodeNames(uri, names[k + 1..]);
      NextName(out, n, rest);
      ok, out := StringifyName(uri, names[k], out + ['/']);
      if !ok {
        return;
      }
      k := k + 1;
    }
    PutNothing(out);
  }

  lemma NextName(out: Text, n: Encoded, rest: Encoded)
    ensures
      var r := Put(out + ['/'], n);
      Put(out, if n.NotEncoded? then n else Put(['/'] + n.text, rest)) == if r.NotEncoded? then r else Put(r.text, rest)
  {}
}
