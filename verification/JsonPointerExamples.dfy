/** How pointers look: the escapes of a name, and the examples of sections 5 and 6 of RFC 6901. */
module JsonPointerExamples {
  import opened JsonEncodings
  import opened JsonPointer
  import opened JsonPrinter
  import opened JsonString
  import opened JsonText

  // ---------- one character of a name ----------

  /** Unreserved of section 2.3 of RFC 3986. */
  predicate Unreserved(c: Ch) {
    || 'a' <= c <= 'z' || 'A' <= c <= 'Z' || '0' <= c <= '9'
    || c in {'-', '.', '_', '~'}
  }

  /** A tilde and a solidus are escaped; in a URI fragment what is not unreserved is percent-encoded in capitals. */
  function CharacterText(uri: bool, c: Ch): Text {
    if c == '~' then "~0" else if c == '/' then "~1"
    else if uri && !Unreserved(c) then ['%', HexDigits()[c as int / 16], HexDigits()[c as int % 16]]
    else [c]
  }

  lemma CharacterEncoded(uri: bool, c: Ch, rest: Text)
    requires c as int < 0x80
    ensures EncodeName(uri, [c] + rest) == Put(CharacterText(uri, c), EncodeName(uri, rest))
  {
    var name := [c] + rest;
    assert name[1..] == rest;
    if uri && !Unreserved(c) && c != '/' {
      assert name[..1] == [c];
      assert PercentEncodedAll([c]) == PercentEncoded(c) + PercentEncodedAll([]);
    }
  }

  /** Other code points: every byte of the UTF-8 encoding is percent-encoded in a URI fragment, and stays otherwise. */
  lemma SequenceOfName(cp: Scalar, rest: Text)
    requires cp >= 0x80
    ensures EncodeName(true, Utf8(cp) + rest) == Put(PercentEncodedAll(Utf8(cp)), EncodeName(true, rest))
  {
    hide Utf8;
    var name := Utf8(cp) + rest;
    DecodeEncode8(cp, rest);
    ValidatedDecoded(name);
  }

  // ---------- the examples of the standard ----------

  lemma OneName(uri: bool, name: Text, text: Text)
    requires EncodeName(uri, name) == Encoded(text)
    ensures Stringified(uri, [name]) == Encoded(if uri then "#/" + text else "/" + text)
    ensures ParsedNames(if uri then "#/" + text else "/" + text) == Names([name])
  {
    hide EncodeName, ParsedNames;
    assert [name][1..] == [];
    assert EncodeNames(uri, [name]) == Put(['/'] + text, Encoded([]));
    assert Put(['/'] + text, Encoded([])) == Encoded("/" + text);
    StringifiedParsed(uri, [name]);
    assert ['#'] + ("/" + text) == "#/" + text;
  }

  lemma OneCharacter(uri: bool, c: Ch)
    requires c as int < 0x80
    ensures EncodeName(uri, [c]) == Encoded(CharacterText(uri, c))
  {
    hide CharacterText;
    CharacterEncoded(uri, c, []);
    assert [c] + [] == [c];
    assert EncodeName(uri, []) == Encoded([]);
    assert CharacterText(uri, c) + [] == CharacterText(uri, c);
  }

  /** A character between two letters. */
  lemma BetweenLetters(uri: bool, a: Ch, c: Ch, b: Ch)
    requires 'a' <= a <= 'z' && 'a' <= b <= 'z' && c as int < 0x80
    ensures Stringified(uri, [[a, c, b]]) == Encoded((if uri then "#/" else "/") + ([a] + CharacterText(uri, c) + [b]))
    ensures ParsedNames((if uri then "#/" else "/") + ([a] + CharacterText(uri, c) + [b])) == Names([[a, c, b]])
  {
    hide EncodeName, Stringified, ParsedNames;
    var text := CharacterText(uri, c);
    assert [a, c, b] == [a] + ([c] + [b]);
    CharacterEncoded(uri, a, [c] + [b]);
    CharacterEncoded(uri, c, [b]);
    OneCharacter(uri, b);
    assert [a] + (text + [b]) == [a] + text + [b];
    OneName(uri, [a, c, b], [a] + text + [b]);
  }

  /** The escapes in the examples of sections 5 and 6 of RFC 6901. */
  lemma ExampleEscapes()
    ensures CharacterText(false, '/') == "~1" && CharacterText(false, '~') == "~0" && CharacterText(false, '%') == "%"
    ensures CharacterText(false, '^') == "^" && CharacterText(false, '|') == "|" && CharacterText(false, '\\') == "\\"
    ensures CharacterText(true, '/') == "~1" && CharacterText(true, '~') == "~0" && CharacterText(true, '%') == "%25"
    ensures CharacterText(true, '^') == "%5E" && CharacterText(true, '|') == "%7C" && CharacterText(true, '\\') == "%5C"
    ensures CharacterText(true, '"') == "%22" && CharacterText(true, ' ') == "%20"
  {}

  /** Several names, and none. */
  lemma Lists(uri: bool, a: Text, names: seq<Text>)
    ensures Stringified(uri, []) == Encoded(if uri then "#" else [])
    ensures Stringified(false, [a] + names)
      == if EncodeName(false, a).NotEncoded? then NotEncoded
         else Put("/" + EncodeName(false, a).text, Stringified(false, names))
  {
    hide EncodeName;
    assert ([a] + names)[1..] == names;
  }

  // ---------- what is no pointer ----------

  /** A pointer that is not empty starts with a solidus, after a number sign if it is a URI fragment. */
  lemma StartsWithSolidus(s: Text)
    requires ParsedNames(s).Names?
    ensures s == [] || s == "#" || s[0] == '/' || (|s| > 1 && s[0] == '#' && s[1] == '/')
  {}

  /** Only 0 and 1 follow a tilde, and a URI fragment has no characters that must be percent-encoded. */
  lemma NoName(uri: bool, s: Text)
    requires s != []
    ensures s[0] == '~' && (|s| == 1 || s[1] !in {'0', '1'}) ==> NameFrom(uri, s).Malformed?
    ensures uri && s[0] !in {'%', '/'} && !Unreserved(s[0]) ==> NameFrom(uri, s).Malformed?
    ensures uri && s[0] == '%' && (|s| < 3 || HexDigit(s[1]) < 0 || HexDigit(s[2]) < 0) ==> NameFrom(uri, s).Malformed?
  {}
}
