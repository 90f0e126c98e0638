/** How JSON texts and pointers look: the escapes of the writer, a value in each format, and the examples of
    sections 5 and 6 of RFC 6901. */
module JsonExamples {
  import opened JsonPointer
  import opened JsonPrinter
  import opened JsonString
  import opened JsonText
  import opened JsonTree

  // ---------- the escapes of the writer ----------

  const SHORT_ESCAPES := {'"', '\\', '\U{0008}', '\U{000C}', '\n', '\r', '\t'}

  predicate IsCapitalHex(c: Ch) { '0' <= c <= '9' || 'A' <= c <= 'F' }

  /** Quotation mark, reverse solidus and the characters below space are escaped, and no others: with the short escape
      if there is one, otherwise as four hexadecimal digits in capitals. */
  lemma EscapesUsed(c: Ch)
    ensures c >= ' ' && c != '"' && c != '\\' <==> Escaped(c) == [c]
    ensures c in SHORT_ESCAPES <==> |Escaped(c)| == 2
    ensures c < ' ' && c !in SHORT_ESCAPES ==>
      (|Escaped(c)| == 6 && Escaped(c)[..4] == "\\u00" && IsCapitalHex(Escaped(c)[4]) && IsCapitalHex(Escaped(c)[5])
       && HexDigit(Escaped(c)[4]) * 16 + HexDigit(Escaped(c)[5]) == c as int)
  {
    if c < ' ' && c !in SHORT_ESCAPES {
      DigitShape(c as int / 16);
      DigitShape(c as int % 16);
    }
  }

  lemma DigitShape(d: nat)
    requires d < 16
    ensures IsCapitalHex(HexDigits()[d]) && HexDigit(HexDigits()[d]) == d
  {}

  lemma ShortEscapes()
    ensures Escaped('"') == "\\\"" && Escaped('\\') == "\\\\" && Escaped('\U{0008}') == "\\b"
    ensures Escaped('\U{000C}') == "\\f" && Escaped('\n') == "\\n" && Escaped('\r') == "\\r" && Escaped('\t') == "\\t"
  {}

  // ---------- a value in each format ----------

  const SAMPLE: Tree :=
    Record([Member("a", List([Num(0 - 12), Truth(true)])), Member("b", Record([])), Member("c", List([]))])

  lemma Twelve()
    ensures IntegerText(0 - 12) == "-12"
  {
    assert Decimal(1) == "1";
    assert Decimal(12) == Decimal(1) + "2";
  }

  lemma QuotedLetter(c: Ch, rest: Text)
    requires 'a' <= c <= 'z'
    ensures Quoted([c], rest) == ['"', c, '"'] + rest
  {
    EscapesUsed(c);
    assert EscapedAll([c]) == [c] + EscapedAll([]);
  }

  /** The texts one after another. */
  function Joined(parts: seq<Text>): Text { if parts == [] then [] else parts[0] + Joined(parts[1..]) }

  lemma JoinedOne(a: Text, parts: seq<Text>)
    ensures Joined([a] + parts) == a + Joined(parts)
  {
    assert ([a] + parts)[1..] == parts;
  }

  lemma Joined5(a: Text, b: Text, c: Text, d: Text, rest: seq<Text>)
    ensures Joined([a, b, c, d] + rest) == a + (b + (c + (d + Joined(rest))))
  {
    assert [a, b, c, d] + rest == [a] + ([b] + ([c] + ([d] + rest)));
    JoinedOne(d, rest);
    JoinedOne(c, [d] + rest);
    JoinedOne(b, [c] + ([d] + rest));
    JoinedOne(a, [b] + ([c] + ([d] + rest)));
  }

  function PartsC(f: Format): seq<Text> { ["\"c\":", ValueSpace(f), "[]", EndSpace(f, 0, false)] + ["}"] }

  function PartsB(f: Format): seq<Text> { ["\"b\":", ValueSpace(f), "{},", NameSpace(f, 1)] + PartsC(f) }

  function PartsT(f: Format): seq<Text> { ["true", EndSpace(f, 1, true), "],", NameSpace(f, 1)] + PartsB(f) }

  function PartsN(f: Format): seq<Text> {
    ["[", ElementSpace(f, 2, true), "-12,", ElementSpace(f, 2, false)] + PartsT(f)
  }

  function PartsA(f: Format): seq<Text> { ["{", NameSpace(f, 1), "\"a\":", ValueSpace(f)] + PartsN(f) }

  lemma Named(c: Ch, name: Text, rest: Text)
    requires 'a' <= c <= 'z' && name == ['"', c, '"', ':']
    ensures Quoted([c], [':'] + rest) == name + rest
  {
    QuotedLetter(c, [':'] + rest);
  }

  lemma LastMember(f: Format)
    ensures MemberText(f, 1, [Member("c", List([]))], End(f, 0, false, [])) == Joined(PartsC(f))
  {
    hide ValueSpace, EndSpace, Quoted, Joined;
    Joined5("\"c\":", ValueSpace(f), "[]", EndSpace(f, 0, false), ["}"]);
    JoinedLast("}");
    var end := EndSpace(f, 0, false) + "}";
    assert End(f, 0, false, []) == end;
    Named('c', "\"c\":", ValueSpace(f) + ("[]" + end));
    assert [Member("c", List([]))][1..] == [];
    assert Print(f, 1, List([]), end) == "[]" + end;
  }

  lemma JoinedLast(a: Text)
    ensures Joined([a]) == a
  {}

  lemma MiddleMember(f: Format)
    ensures MemberText(f, 1, [Member("b", Record([])), Member("c", List([]))], End(f, 0, false, []))
      == Joined(PartsB(f))
  {
    hide ValueSpace, NameSpace, Quoted, Joined, End, PartsC;
    LastMember(f);
    Joined5("\"b\":", ValueSpace(f), "{},", NameSpace(f, 1), PartsC(f));
    var ms := [Member("b", Record([])), Member("c", List([]))];
    assert ms[1..] == [Member("c", List([]))];
    var more := NameSpace(f, 1) + Joined(PartsC(f));
    assert MoreMembers(f, 1, ms[1..], End(f, 0, false, [])) == [','] + more;
    assert Print(f, 1, Record([]), [','] + more) == "{}," + more;
    Named('b', "\"b\":", ValueSpace(f) + ("{}," + more));
  }

  function Elements(f: Format, end: Text): Text {
    ElementSpace(f, 2, true) + ("-12," + (ElementSpace(f, 2, false) + ("true" + end)))
  }

  lemma ElementsPrinted(f: Format, end: Text)
    ensures var ts := [Num(0 - 12), Truth(true)];
      ElementSpace(f, 2, true) + Print(f, 2, ts[0], MoreItems(f, 2, ts[1..], end)) == Elements(f, end)
  {
    hide ElementSpace, IntegerText;
    var ts := [Num(0 - 12), Truth(true)];
    assert ts[1..] == [Truth(true)] && ts[1..][1..] == [];
    var second := ElementSpace(f, 2, false) + ("true" + end);
    assert MoreItems(f, 2, ts[1..], end) == [','] + second;
    Twelve();
    assert Print(f, 2, ts[0], [','] + second) == "-12," + second;
  }

  lemma ElementsJoined(f: Format, more: Text)
    ensures var tail := ["true", EndSpace(f, 1, true), "],", more];
      "[" + Elements(f, EndSpace(f, 1, true) + ("]," + more))
      == Joined(["[", ElementSpace(f, 2, true), "-12,", ElementSpace(f, 2, false)] + tail)
  {
    hide ElementSpace, EndSpace, Joined;
    var tail := ["true", EndSpace(f, 1, true), "],", more];
    Joined5("true", EndSpace(f, 1, true), "],", more, []);
    Joined5("[", ElementSpace(f, 2, true), "-12,", ElementSpace(f, 2, false), tail);
    assert tail + [] == tail && more + [] == more;
    JoinedNone();
  }

  lemma ListPrinted(f: Format, more: Text)
    ensures var tail := ["true", EndSpace(f, 1, true), "],", more];
      Print(f, 1, List([Num(0 - 12), Truth(true)]), [','] + more)
      == Joined(["[", ElementSpace(f, 2, true), "-12,", ElementSpace(f, 2, false)] + tail)
  {
    hide ElementSpace, EndSpace, Joined, Elements, MoreItems;
    var end := EndSpace(f, 1, true) + ("]," + more);
    assert End(f, 1, true, [','] + more) == end;
    ElementsPrinted(f, end);
    ElementsJoined(f, more);
  }

  lemma JoinedNone()
    ensures Joined([]) == []
  {}

  lemma FirstMember(f: Format)
    ensures Exact(SAMPLE)
    ensures MemberText(f, 1, SAMPLE.members, End(f, 0, false, [])) == Joined(["\"a\":", ValueSpace(f)] + PartsN(f))
  {
    hide ValueSpace, NameSpace, ElementSpace, EndSpace, Quoted, Joined, End, Print;
    var ms := SAMPLE.members;
    assert ms[1..] == [Member("b", Record([])), Member("c", List([]))];
    MiddleMember(f);
    var more := NameSpace(f, 1) + Joined(PartsB(f));
    assert MoreMembers(f, 1, ms[1..], End(f, 0, false, [])) == [','] + more;
    ListPrinted(f, more);
    AllElements(f);
    var value := Joined(PartsN(f));
    Named('a', "\"a\":", ValueSpace(f) + value);
    JoinedOne(ValueSpace(f), PartsN(f));
    JoinedOne("\"a\":", [ValueSpace(f)] + PartsN(f));
    assert ["\"a\":", ValueSpace(f)] + PartsN(f) == ["\"a\":"] + ([ValueSpace(f)] + PartsN(f));
  }

  lemma AllElements(f: Format)
    ensures var tail := ["true", EndSpace(f, 1, true), "],", NameSpace(f, 1) + Joined(PartsB(f))];
      Joined(["[", ElementSpace(f, 2, true), "-12,", ElementSpace(f, 2, false)] + tail) == Joined(PartsN(f))
  {
    hide NameSpace, ElementSpace, EndSpace, Joined, PartsB;
    var more := NameSpace(f, 1) + Joined(PartsB(f));
    var front := ["[", ElementSpace(f, 2, true), "-12,", ElementSpace(f, 2, false)];
    var tail := ["true", EndSpace(f, 1, true), "],", more];
    Joined5("[", ElementSpace(f, 2, true), "-12,", ElementSpace(f, 2, false), tail);
    Joined5("[", ElementSpace(f, 2, true), "-12,", ElementSpace(f, 2, false), PartsT(f));
    Joined5("true", EndSpace(f, 1, true), "],", more, []);
    Joined5("true", EndSpace(f, 1, true), "],", NameSpace(f, 1), PartsB(f));
    JoinedNone();
    assert tail + [] == tail;
    assert more + [] == more;
  }

  /** The sample in any format. */
  lemma SampleText(f: Format)
    ensures Exact(SAMPLE) && Print(f, 0, SAMPLE, []) == Joined(PartsA(f))
  {
    hide ValueSpace, NameSpace, Joined, End, PartsN;
    FirstMember(f);
    JoinedOne("\"a\":", [ValueSpace(f)] + PartsN(f));
    var parts := ["\"a\":", ValueSpace(f)] + PartsN(f);
    JoinedOne(NameSpace(f, 1), parts);
    JoinedOne("{", [NameSpace(f, 1)] + parts);
    assert PartsA(f) == ["{"] + ([NameSpace(f, 1)] + parts);
  }

  const PRETTY := Pretty(' ', 4, false)
  const SINGLE := Pretty(' ', 4, true)

  lemma Indents(f: Format)
    requires f in {PRETTY, SINGLE}
    ensures NewLine(f, 0) == "\n" && NewLine(f, 1) == "\n    " && NewLine(f, 2) == "\n        "
  {}

  lemma CompactSample()
    ensures Exact(SAMPLE) && Print(Compact, 0, SAMPLE, [])
      == Joined(["{", "", "\"a\":", ""] + (["[", "", "-12,", ""]
                + (["true", "", "],", ""] + (["\"b\":", "", "{},", ""]
                + (["\"c\":", "", "[]", ""] + ["}"])))))
  {
    hide Joined, Print, NewLine;
    SampleText(Compact);
    assert PartsC(Compact) == ["\"c\":", "", "[]", ""] + ["}"];
    assert PartsB(Compact) == ["\"b\":", "", "{},", ""] + PartsC(Compact);
    assert PartsT(Compact) == ["true", "", "],", ""] + PartsB(Compact);
    assert PartsN(Compact) == ["[", "", "-12,", ""] + PartsT(Compact);
  }

  lemma PrettySample()
    ensures Exact(SAMPLE) && Print(PRETTY, 0, SAMPLE, [])
      == Joined(["{", "\n    ", "\"a\":", " "] + (["[", "\n        ", "-12,", "\n        "]
                + (["true", "\n    ", "],", "\n    "] + (["\"b\":", " ", "{},", "\n    "]
                + (["\"c\":", " ", "[]", "\n"] + ["}"])))))
  {
    hide Joined, Print, NewLine;
    Indents(PRETTY);
    SampleText(PRETTY);
    assert PartsC(PRETTY) == ["\"c\":", " ", "[]", "\n"] + ["}"];
    assert PartsB(PRETTY) == ["\"b\":", " ", "{},", "\n    "] + PartsC(PRETTY);
    assert PartsT(PRETTY) == ["true", "\n    ", "],", "\n    "] + PartsB(PRETTY);
    assert PartsN(PRETTY) == ["[", "\n        ", "-12,", "\n        "] + PartsT(PRETTY);
  }

  lemma SingleLineSample()
    ensures Exact(SAMPLE) && Print(SINGLE, 0, SAMPLE, [])
      == Joined(["{", "\n    ", "\"a\":", " "] + (["[", "", "-12,", " "]
                + (["true", "", "],", "\n    "] + (["\"b\":", " ", "{},", "\n    "]
                + (["\"c\":", " ", "[]", "\n"] + ["}"])))))
  {
    hide Joined, Print, NewLine;
    Indents(SINGLE);
    SampleText(SINGLE);
    assert PartsC(SINGLE) == ["\"c\":", " ", "[]", "\n"] + ["}"];
    assert PartsB(SINGLE) == ["\"b\":", " ", "{},", "\n    "] + PartsC(SINGLE);
    assert PartsT(SINGLE) == ["true", "", "],", "\n    "] + PartsB(SINGLE);
    assert PartsN(SINGLE) == ["[", "", "-12,", " "] + PartsT(SINGLE);
  }
}
