/** The text of a JSON value, compact or pretty, and the proof that the reader undoes the printing. */
module JsonPrinter {
  import opened JsonGrammar
  import opened JsonNumber
  import opened JsonString
  import opened JsonText
  import opened JsonTree

  /** How a writer spaces its output. */
  datatype Format = Compact | Pretty(indentChar: Space, indentCharCount: nat, singleLineArray: bool)

  type Space = c: Ch | IsSpace(c) witness ' '

  // ---------- strings ----------

  function HexDigits(): Text { "0123456789ABCDEF" }

  /** The character after the backslash, or a null character if the character needs no escape. */
  function EscapeOf(c: Ch): Ch {
    if c == '"' || c == '\\' then c
    else if c == '\U{0008}' then 'b'
    else if c == '\t' then 't'
    else if c == '\n' then 'n'
    else if c == '\U{000C}' then 'f'
    else if c == '\r' then 'r'
    else if c < ' ' then 'u'
    else '\0'
  }

  function Escaped(c: Ch): Text {
    var e := EscapeOf(c);
    if e == '\0' then [c]
    else if e == 'u' then "\\u00" + [HexDigits()[c as int / 16], HexDigits()[c as int % 16]]
    else ['\\', e]
  }

  function EscapedAll(s: Text): Text { if s == [] then [] else Escaped(s[0]) + EscapedAll(s[1..]) }

  /** A string in quotation marks, followed by rest. */
  function Quoted(s: Text, rest: Text): Text { ['"'] + (EscapedAll(s) + (['"'] + rest)) }

  lemma HexOfByte(c: Ch, rest: Text)
    requires c < ' '
    ensures Hex("00" + [HexDigits()[c as int / 16], HexDigits()[c as int % 16]] + rest, 4, 0) == c as int
  {
    var s := "00" + [HexDigits()[c as int / 16], HexDigits()[c as int % 16]] + rest;
    assert s[1..][1..][1..][0] == HexDigits()[c as int % 16];
    assert HexDigit(HexDigits()[c as int / 16]) == c as int / 16;
    assert HexDigit(HexDigits()[c as int % 16]) == c as int % 16;
  }

  /** The reader undoes the escape of a character. */
  lemma EscapedBody(c: Ch, rest: Text)
    ensures StringBody(Escaped(c) + rest) == Prepend([c], StringBody(rest))
  {
    hide HexDigit, Hex;
    var s := Escaped(c) + rest;
    var e := EscapeOf(c);
    if e == '\0' {
      assert s[1..] == rest;
    } else if e == 'u' {
      HexOfByte(c, rest);
      var digits := "00" + [HexDigits()[c as int / 16], HexDigits()[c as int % 16]];
      assert s[1..] == ['u'] + (digits + rest);
      assert s[1..][1..] == digits + rest;
      assert s[1..][5..] == rest;
      assert Escape(s[1..]) == Scanned([c], rest);
    } else {
      assert s[1..] == [e] + rest;
      assert s[1..][1..] == rest;
      assert Unescaped(e) == c;
    }
  }

  /** The reader undoes the escapes of a string, null characters included. */
  lemma {:induction false} QuotedBody(s: Text, rest: Text)
    ensures StringBody(EscapedAll(s) + (['"'] + rest)) == Scanned(s, rest)
  {
    var end := ['"'] + rest;
    if s == [] {
      assert EscapedAll(s) + end == end && end[1..] == rest;
    } else {
      hide Escaped, StringBody;
      var tail := EscapedAll(s[1..]) + end;
      assert EscapedAll(s) + end == Escaped(s[0]) + tail;
      EscapedBody(s[0], tail);
      QuotedBody(s[1..], rest);
      assert [s[0]] + s[1..] == s;
    }
  }

  // ---------- integers ----------

  function DigitChar(d: nat): (c: Ch)
    requires d < 10
    ensures IsDigit(c) && DigitOf(c) == d
  {
    ('0' as int + d) as char
  }

  function Decimal(n: nat): (ds: Text)
    ensures ds != [] && AllDigits(ds) && (ds[0] == '0' <==> n == 0) && (n < 10 ==> |ds| == 1)
  {
    if n < 10 then [DigitChar(n)] else Decimal(n / 10) + [DigitChar(n % 10)]
  }

  function IntegerText(n: Integer): Text { if n < 0 then ['-'] + Decimal(0 - n) else Decimal(n) }

  lemma {:induction false} DecimalValue(n: nat)
    ensures Value(Decimal(n)) == n
  {
    var ds := Decimal(n);
    if n < 10 {
      assert ds[..0] == [];
    } else {
      DecimalValue(n / 10);
      assert ds[..|ds| - 1] == Decimal(n / 10);
    }
  }

  /** What may follow a number: nothing that could belong to it. */
  predicate EndsNumber(rest: Text) {
    !IsDigit(Peek(rest)) && Peek(rest) != '.' && Peek(rest) != 'e' && Peek(rest) != 'E'
  }

  lemma {:induction false} RunOfDigits(ds: Text, rest: Text)
    requires AllDigits(ds) && !IsDigit(Peek(rest))
    ensures DigitRun(ds + rest) == ds
  {
    if ds == [] {
      assert ds + rest == rest;
    } else {
      assert (ds + rest)[1..] == ds[1..] + rest;
      RunOfDigits(ds[1..], rest);
    }
  }

  lemma IntegerParts(n: Integer, rest: Text)
    requires EndsNumber(rest)
    ensures
      var ds := Decimal(if n < 0 then 0 - n else n);
      NumberParts(IntegerText(n) + rest) == Parts(n < 0, ds, false, [], false, false, [], rest)
  {
    hide Decimal, DigitRun;
    var m := if n < 0 then 0 - n else n;
    var ds := Decimal(m);
    var s := IntegerText(n) + rest;
    assert s[(if n < 0 then 1 else 0)..] == ds + rest;
    WholeOfDigits(m, rest);
    assert (ds + rest)[|ds|..] == rest;
  }

  lemma WholeOfDigits(n: nat, rest: Text)
    requires !IsDigit(Peek(rest))
    ensures Whole(Decimal(n) + rest) == Decimal(n)
  {
    hide DigitRun;
    RunOfDigits(Decimal(n), rest);
    if n == 0 {
      assert (Decimal(0) + rest)[..1] == Decimal(0);
    }
  }

  /** The reader undoes the printing of an integer. */
  lemma IntegerRead(cfg: Config, n: Integer, rest: Text)
    requires EndsNumber(rest)
    ensures Number(cfg, IntegerText(n) + rest) == Numbered(Read(n), rest)
  {
    hide NumberParts, Value, Decimal, IntegerText;
    IntegerParts(n, rest);
    DecimalValue(if n < 0 then 0 - n else n);
  }

  // ---------- values ----------

  function Indent(f: Format, depth: nat): Text
    requires f.Pretty?
  {
    seq(depth * f.indentCharCount, i => f.indentChar)
  }

  /** The new line before something at a depth. */
  function NewLine(f: Format, depth: nat): Text
    requires f.Pretty?
  {
    ['\n'] + Indent(f, depth)
  }

  /** Space before an element of an array, after the comma if there is one. */
  function ElementSpace(f: Format, depth: nat, first: bool): Text {
    if f.Compact? then []
    else if f.singleLineArray then (if first then [] else [' '])
    else NewLine(f, depth)
  }

  function NameSpace(f: Format, depth: nat): Text { if f.Compact? then [] else NewLine(f, depth) }

  function ValueSpace(f: Format): Text { if f.Compact? then [] else [' '] }

  /** Space before the end of an array or object that is not empty. */
  function EndSpace(f: Format, depth: nat, inArray: bool): Text {
    if f.Compact? || (inArray && f.singleLineArray) then [] else NewLine(f, depth)
  }

  /** The end of an array or object that is not empty, followed by rest. */
  function End(f: Format, depth: nat, inArray: bool, rest: Text): Text {
    EndSpace(f, depth, inArray) + ([if inArray then ']' else '}'] + rest)
  }

  /** Nothing is skipped before a value, and it is no end of a container. */
  predicate StartsValue(s: Text) { s != [] && !IsSpace(s[0]) && s[0] !in {'/', ']', '}', ',', '\0'} }

  /** The text of a value at a depth of open containers, followed by rest. */
  function Print(f: Format, depth: nat, t: Tree, rest: Text): (s: Text)
    requires Exact(t)
    ensures StartsValue(s)
    decreases t
  {
    match t
    case Nothing => "null" + rest
    case Truth(b) => (if b then "true" else "false") + rest
    case Num(n) => IntegerText(n) + rest
    case Str(s) => Quoted(s, rest)
    case List(ts) =>
      if ts == [] then ['['] + ([']'] + rest)
      else
        var end := End(f, depth, true, rest);
        ['['] + (ElementSpace(f, depth + 1, true) + Print(f, depth + 1, ts[0], MoreItems(f, depth + 1, ts[1..], end)))
    case Record(ms) =>
      if ms == [] then ['{'] + (['}'] + rest)
      else
        var end := End(f, depth, false, rest);
        ['{'] + (NameSpace(f, depth + 1) + MemberText(f, depth + 1, ms, end))
  }

  function MoreItems(f: Format, depth: nat, ts: seq<Tree>, rest: Text): Text
    requires forall t <- ts :: Exact(t)
    decreases ts
  {
    if ts == [] then rest
    else [','] + (ElementSpace(f, depth, false) + Print(f, depth, ts[0], MoreItems(f, depth, ts[1..], rest)))
  }

  function MoreMembers(f: Format, depth: nat, ms: seq<Member>, rest: Text): Text
    requires forall m <- ms :: Exact(m.value)
    decreases ms, 1
  {
    if ms == [] then rest
    else [','] + (NameSpace(f, depth) + MemberText(f, depth, ms, rest))
  }

  /** A first member from its name on, the others and the end. */
  function MemberText(f: Format, depth: nat, ms: seq<Member>, end: Text): Text
    requires ms != [] && forall m <- ms :: Exact(m.value)
    decreases ms, 0
  {
    var value := Print(f, depth, ms[0].value, MoreMembers(f, depth, ms[1..], end));
    Quoted(ms[0].name, [':'] + (ValueSpace(f) + value))
  }

  /** The text after a value does not change the text of the value. */
  lemma {:induction false} PrintThen(f: Format, depth: nat, t: Tree, rest: Text)
    requires Exact(t)
    ensures Print(f, depth, t, rest) == Print(f, depth, t, []) + rest
    decreases t, 1
  {
    match t
    case List(ts) =>
      if ts == [] {
        assert ['['] + ([']'] + rest) == ['['] + ([']'] + []) + rest;
      } else {
        PrintListThen(f, depth, ts, rest);
      }
    case Record(ms) =>
      if ms == [] {
        assert ['{'] + (['}'] + rest) == ['{'] + (['}'] + []) + rest;
      } else {
        PrintRecordThen(f, depth, ms, rest);
      }
    case Str(s) => QuotedThen(s, [], rest);
    case _ => hide IntegerText;
  }

  lemma QuotedThen(s: Text, more: Text, rest: Text)
    ensures Quoted(s, more + rest) == Quoted(s, more) + rest
  {
    hide EscapedAll;
  }

  lemma EndThen(f: Format, depth: nat, inArray: bool, rest: Text)
    ensures End(f, depth, inArray, rest) == End(f, depth, inArray, []) + rest
  {
    hide EndSpace;
  }

  lemma {:induction false} PrintListThen(f: Format, depth: nat, ts: seq<Tree>, rest: Text)
    requires ts != [] && forall t <- ts :: Exact(t)
    ensures Print(f, depth, List(ts), rest) == Print(f, depth, List(ts), []) + rest
    decreases ts, 1
  {
    hide End, ElementSpace, MoreItems;
    EndThen(f, depth, true, rest);
    ItemsThen(f, depth + 1, ts, End(f, depth, true, []), rest);
  }

  /** Elements from the first one on. */
  lemma {:induction false} ItemsThen(f: Format, depth: nat, ts: seq<Tree>, end: Text, rest: Text)
    requires ts != [] && forall t <- ts :: Exact(t)
    ensures Print(f, depth, ts[0], MoreItems(f, depth, ts[1..], end + rest))
         == Print(f, depth, ts[0], MoreItems(f, depth, ts[1..], end)) + rest
    decreases ts, 0
  {
    hide Print, ElementSpace;
    var more := MoreItems(f, depth, ts[1..], end);
    if |ts| > 1 {
      ItemsThen(f, depth, ts[1..], end, rest);
    }
    assert MoreItems(f, depth, ts[1..], end + rest) == more + rest;
    PrintThen(f, depth, ts[0], more + rest);
    PrintThen(f, depth, ts[0], more);
  }

  lemma {:induction false} PrintRecordThen(f: Format, depth: nat, ms: seq<Member>, rest: Text)
    requires ms != [] && forall m <- ms :: Exact(m.value)
    ensures Print(f, depth, Record(ms), rest) == Print(f, depth, Record(ms), []) + rest
    decreases ms, 1
  {
    hide End, NameSpace, MoreMembers, Quoted;
    EndThen(f, depth, false, rest);
    MembersThen(f, depth + 1, ms, End(f, depth, false, []), rest);
  }

  /** Members from the name of the first one on. */
  lemma {:induction false} MembersThen(f: Format, depth: nat, ms: seq<Member>, end: Text, rest: Text)
    requires ms != [] && forall m <- ms :: Exact(m.value)
    ensures MemberText(f, depth, ms, end + rest) == MemberText(f, depth, ms, end) + rest
    decreases ms, 0
  {
    hide Print, NameSpace, Quoted, ValueSpace;
    var more := MoreMembers(f, depth, ms[1..], end);
    if |ms| > 1 {
      MembersThen(f, depth, ms[1..], end, rest);
    }
    assert MoreMembers(f, depth, ms[1..], end + rest) == more + rest;
    PrintThen(f, depth, ms[0].value, more + rest);
    PrintThen(f, depth, ms[0].value, more);
    var value := Print(f, depth, ms[0].value, more);
    assert Print(f, depth, ms[0].value, more + rest) == value + rest;
    QuotedThen(ms[0].name, [':'] + (ValueSpace(f) + value), rest);
    assert [':'] + (ValueSpace(f) + (value + rest)) == [':'] + (ValueSpace(f) + value) + rest;
  }

  // ---------- reading what has been printed ----------

  predicate AllSpace(s: Text) { forall c <- s :: IsSpace(c) }

  lemma {:induction false} SkipSpaces(cfg: Config, space: Text, s: Text)
    requires AllSpace(space) && s != [] && !IsSpace(s[0]) && s[0] != '/'
    ensures Skip(cfg, space + s) == Rest(s)
  {
    if space == [] {
      assert space + s == s;
    } else {
      assert (space + s)[1..] == space[1..] + s;
      SkipSpaces(cfg, space[1..], s);
    }
  }

  /** The handler never ends the parsing. */
  ghost predicate Accepting(cfg: Config) { forall ev :: cfg.accepts(ev) }

  lemma CountOn(n: nat)
    ensures (n % TWO32 + 1) % TWO32 == (n + 1) % TWO32
  {}

  lemma SpacesAreSpace(f: Format, depth: nat, b: bool)
    ensures AllSpace(ElementSpace(f, depth, b)) && AllSpace(NameSpace(f, depth)) && AllSpace(ValueSpace(f))
    ensures AllSpace(EndSpace(f, depth, b))
  {}

  lemma MoreEndsNumber(f: Format, depth: nat, ts: seq<Tree>, ms: seq<Member>, end: Text)
    requires (forall t <- ts :: Exact(t)) && (forall m <- ms :: Exact(m.value)) && EndsNumber(end)
    ensures EndsNumber(MoreItems(f, depth, ts, end)) && EndsNumber(MoreMembers(f, depth, ms, end))
  {
    hide Print, NameSpace, Quoted;
  }

  /** After an element: the comma and space before the next one, or the end. */
  lemma AfterPrintedElement(cfg: Config, f: Format, d: nat, ts: seq<Tree>, rest: Text, ev: seq<Event>, count: nat)
    requires Accepting(cfg) && forall t <- ts :: Exact(t)
    ensures
      var end := End(f, d, true, rest);
      AfterElement(cfg, MoreItems(f, d + 1, ts, end), ev, count) ==
        if ts == [] then Ok(rest, ev + [EndArray(count)])
        else ElementFrom(cfg, Print(f, d + 1, ts[0], MoreItems(f, d + 1, ts[1..], end)), ev, count)
  {
    hide Skip, Print, ElementSpace, EndSpace, ElementFrom;
    SpacesAreSpace(f, d, true);
    SpacesAreSpace(f, d + 1, false);
    var end := End(f, d, true, rest);
    if ts == [] {
      SkipSpaces(cfg, EndSpace(f, d, true), [']'] + rest);
      assert ([']'] + rest)[1..] == rest;
    } else {
      var next := Print(f, d + 1, ts[0], MoreItems(f, d + 1, ts[1..], end));
      var space := ElementSpace(f, d + 1, false);
      var s := [','] + (space + next);
      SkipSpaces(cfg, [], s);
      assert [] + s == s && s[1..] == space + next;
      SkipSpaces(cfg, space, next);
      assert ElementEnd(cfg, s, ev, count) == NextElement(cfg, next, ev, count);
    }
  }

  lemma AfterPrintedMember(cfg: Config, f: Format, d: nat, ms: seq<Member>, rest: Text, ev: seq<Event>, count: nat)
    requires Accepting(cfg) && forall m <- ms :: Exact(m.value)
    ensures
      var end := End(f, d, false, rest);
      AfterMember(cfg, MoreMembers(f, d + 1, ms, end), ev, count) ==
        if ms == [] then Ok(rest, ev + [EndObject(count)])
        else MemberFrom(cfg, MemberText(f, d + 1, ms, end), ev, count)
  {
    hide Skip, Print, NameSpace, EndSpace, MemberFrom, EscapedAll;
    SpacesAreSpace(f, d, false);
    SpacesAreSpace(f, d + 1, false);
    var end := End(f, d, false, rest);
    if ms == [] {
      SkipSpaces(cfg, EndSpace(f, d, false), ['}'] + rest);
      assert (['}'] + rest)[1..] == rest;
    } else {
      var next := MemberText(f, d + 1, ms, end);
      var space := NameSpace(f, d + 1);
      var s := [','] + (space + next);
      SkipSpaces(cfg, [], s);
      assert [] + s == s && s[1..] == space + next;
      SkipSpaces(cfg, space, next);
      assert MemberEnd(cfg, s, ev, count) == NextMember(cfg, next, ev, count);
    }
  }

  /** A printed name, its colon and the space before its value. */
  lemma PrintedName(cfg: Config, f: Format, depth: nat, ms: seq<Member>, end: Text, ev: seq<Event>, count: nat)
    requires Accepting(cfg) && ms != [] && forall m <- ms :: Exact(m.value)
    ensures
      var value := Print(f, depth, ms[0].value, MoreMembers(f, depth, ms[1..], end));
      MemberFrom(cfg, MemberText(f, depth, ms, end), ev, count)
        == MemberValueFrom(cfg, value, ev + [Key(ms[0].name)], count)
  {
    hide Skip, MoreMembers, Print, ValueSpace, EscapedAll, StringBody, MemberValueFrom;
    var name := ms[0].name;
    var value := Print(f, depth, ms[0].value, MoreMembers(f, depth, ms[1..], end));
    var colon := [':'] + (ValueSpace(f) + value);
    assert Quoted(name, colon)[1..] == EscapedAll(name) + (['"'] + colon);
    QuotedBody(name, colon);
    SkipSpaces(cfg, [], colon);
    assert [] + colon == colon && colon[1..] == ValueSpace(f) + value;
    SpacesAreSpace(f, depth, true);
    SkipSpaces(cfg, ValueSpace(f), value);
  }

  /** The reader undoes the printing of a value, with its events. */
  lemma {:induction false} PrintedValue(cfg: Config, f: Format, depth: nat, t: Tree, rest: Text, ev: seq<Event>)
    requires Accepting(cfg) && Exact(t) && EndsNumber(rest)
    ensures ValueFrom(cfg, Print(f, depth, t, rest), ev) == Ok(rest, ev + Events(t, false))
    decreases t, 1
  {
    hide Print, ValueFrom, Events, EndsNumber;
    match t
    case List(items) => PrintedList(cfg, f, depth, items, rest, ev);
    case Record(ms) => PrintedRecord(cfg, f, depth, ms, rest, ev);
    case _ => PrintedScalar(cfg, f, depth, t, rest, ev);
  }

  lemma PrintedScalar(cfg: Config, f: Format, depth: nat, t: Tree, rest: Text, ev: seq<Event>)
    requires Accepting(cfg) && Exact(t) && !t.List? && !t.Record? && EndsNumber(rest)
    ensures ValueFrom(cfg, Print(f, depth, t, rest), ev) == Ok(rest, ev + Events(t, false))
  {
    hide Number, StringBody, IntegerText, EscapedAll, EndsNumber, Read;
    var s := Print(f, depth, t, rest);
    match t
    case Nothing => PrintedWord(cfg, "null", rest, ev, Null);
    case Truth(b) => PrintedWord(cfg, if b then "true" else "false", rest, ev, Bool(b));
    case Num(n) =>
      IntegerRead(cfg, n, rest);
      IntegerStart(n);
      assert NumberFrom(cfg, s, ev) == Ok(rest, ev + [Read(n)]);
    case Str(v) =>
      assert s[1..] == EscapedAll(v) + (['"'] + rest);
      QuotedBody(v, rest);
  }

  lemma IntegerStart(n: Integer)
    ensures IntegerText(n) != [] && (IntegerText(n)[0] == '-' || IsDigit(IntegerText(n)[0]))
  {}

  lemma PrintedWord(cfg: Config, word: Text, rest: Text, ev: seq<Event>, e: Event)
    requires Accepting(cfg)
    requires (word == "null" && e == Null) || (word == "true" && e == Bool(true)) || (word == "false" && e == Bool(false))
    ensures ValueFrom(cfg, word + rest, ev) == Ok(rest, ev + [e])
  {
    var s := word + rest;
    assert s[1..] == word[1..] + rest;
    assert word[1..] <= s[1..];
    assert s[1..][|word| - 1..] == rest;
    assert "null"[1..] == "ull" && "true"[1..] == "rue" && "false"[1..] == "alse";
  }

  /** An empty container. */
  lemma PrintedEmpty(cfg: Config, rest: Text, ev: seq<Event>)
    requires Accepting(cfg)
    ensures ValueFrom(cfg, ['['] + ([']'] + rest), ev) == Ok(rest, ev + [StartArray] + [EndArray(0)])
    ensures ValueFrom(cfg, ['{'] + (['}'] + rest), ev) == Ok(rest, ev + [StartObject] + [EndObject(0)])
  {
    hide Skip, ElementFrom, MemberFrom;
    var a, o := [']'] + rest, ['}'] + rest;
    assert (['['] + a)[1..] == a && (['{'] + o)[1..] == o && a[1..] == rest && o[1..] == rest;
    assert [] + a == a && [] + o == o;
    SkipSpaces(cfg, [], a);
    SkipSpaces(cfg, [], o);
    assert ArrayFrom(cfg, a, ev) == ArrayStart(cfg, a, ev + [StartArray]);
    assert ObjectFrom(cfg, o, ev) == ObjectStart(cfg, o, ev + [StartObject]);
  }

  /** The first element of a list. */
  lemma EnteredList(cfg: Config, f: Format, depth: nat, t: Tree, more: Text, ev: seq<Event>)
    requires Accepting(cfg) && Exact(t)
    ensures
      var first := Print(f, depth, t, more);
      ValueFrom(cfg, ['['] + (ElementSpace(f, depth, true) + first), ev) == ElementFrom(cfg, first, ev + [StartArray], 0)
  {
    hide Skip, ElementSpace, ElementFrom, Print;
    var space, first := ElementSpace(f, depth, true), Print(f, depth, t, more);
    var s := space + first;
    assert (['['] + s)[1..] == s;
    SpacesAreSpace(f, depth, true);
    SkipSpaces(cfg, space, first);
    assert ArrayFrom(cfg, s, ev) == ArrayStart(cfg, first, ev + [StartArray]);
  }

  lemma PrintedList(cfg: Config, f: Format, depth: nat, ts: seq<Tree>, rest: Text, ev: seq<Event>)
    requires Accepting(cfg) && forall t <- ts :: Exact(t)
    ensures ValueFrom(cfg, Print(f, depth, List(ts), rest), ev) == Ok(rest, ev + Events(List(ts), false))
    decreases ts, 1
  {
    hide ElementSpace, ElementFrom, MoreItems, ValueFrom, EndSpace, ItemEvents;
    var start, last := ev + [StartArray], [EndArray(|ts| % TWO32)];
    assert start + ItemEvents(ts, false) + last == ev + Events(List(ts), false);
    if ts == [] {
      PrintedEmpty(cfg, rest, ev);
      NoItems();
    } else {
      EnteredList(cfg, f, depth + 1, ts[0], MoreItems(f, depth + 1, ts[1..], End(f, depth, true, rest)), ev);
      PrintedItems(cfg, f, depth, ts, rest, start, 0);
    }
  }

  lemma NoItems()
    ensures ItemEvents([], false) == [] && MemberEvents([], false) == []
  {}

  /** The elements from a first one on. */
  lemma {:induction false} PrintedItems(cfg: Config, f: Format, d: nat, ts: seq<Tree>, rest: Text, ev: seq<Event>, n: nat)
    requires Accepting(cfg) && ts != [] && forall t <- ts :: Exact(t)
    ensures
      var s := Print(f, d + 1, ts[0], MoreItems(f, d + 1, ts[1..], End(f, d, true, rest)));
      ElementFrom(cfg, s, ev, n % TWO32) == Ok(rest, ev + ItemEvents(ts, false) + [EndArray((n + |ts|) % TWO32)])
    decreases ts, 0
  {
    hide MoreItems, Print, ValueFrom, AfterElement, EndsNumber, End;
    var head, tail, end := Events(ts[0], false), ts[1..], End(f, d, true, rest);
    ClosingEnds(f, d, true, rest);
    MoreEndsNumber(f, d + 1, tail, [], end);
    PrintedValue(cfg, f, d + 1, ts[0], MoreItems(f, d + 1, tail, end), ev);
    CountOn(n);
    AfterPrintedElement(cfg, f, d, tail, rest, ev + head, (n + 1) % TWO32);
    if tail == [] {
      assert ItemEvents(ts, false) == head + [];
      assert head + [] == head;
    } else {
      PrintedItems(cfg, f, d, tail, rest, ev + head, n + 1);
      assert ev + head + ItemEvents(tail, false) == ev + (head + ItemEvents(tail, false));
    }
  }

  lemma ClosingEnds(f: Format, depth: nat, inArray: bool, rest: Text)
    ensures EndsNumber(End(f, depth, inArray, rest))
  {}

  /** The first member of a record. */
  lemma EnteredRecord(cfg: Config, f: Format, depth: nat, ms: seq<Member>, end: Text, ev: seq<Event>)
    requires Accepting(cfg) && ms != [] && forall m <- ms :: Exact(m.value)
    ensures
      var first := MemberText(f, depth, ms, end);
      ValueFrom(cfg, ['{'] + (NameSpace(f, depth) + first), ev) == MemberFrom(cfg, first, ev + [StartObject], 0)
  {
    hide Skip, NameSpace, MemberFrom, Print, EscapedAll;
    var space, first := NameSpace(f, depth), MemberText(f, depth, ms, end);
    var s := space + first;
    assert (['{'] + s)[1..] == s && first[0] == '"';
    SpacesAreSpace(f, depth, true);
    SkipSpaces(cfg, space, first);
    assert ObjectFrom(cfg, s, ev) == ObjectStart(cfg, first, ev + [StartObject]);
  }

  lemma PrintedRecord(cfg: Config, f: Format, depth: nat, ms: seq<Member>, rest: Text, ev: seq<Event>)
    requires Accepting(cfg) && forall m <- ms :: Exact(m.value)
    ensures ValueFrom(cfg, Print(f, depth, Record(ms), rest), ev) == Ok(rest, ev + Events(Record(ms), false))
    decreases ms, 1
  {
    hide NameSpace, MemberFrom, MoreMembers, ValueFrom, EndSpace, MemberEvents, Quoted;
    var start, last := ev + [StartObject], [EndObject(|ms| % TWO32)];
    assert start + MemberEvents(ms, false) + last == ev + Events(Record(ms), false);
    if ms == [] {
      PrintedEmpty(cfg, rest, ev);
      NoItems();
    } else {
      EnteredRecord(cfg, f, depth + 1, ms, End(f, depth, false, rest), ev);
      PrintedMembers(cfg, f, depth, ms, rest, start, 0);
    }
  }

  /** The members from a first one on. */
  lemma {:induction false} PrintedMembers(cfg: Config, f: Format, d: nat, ms: seq<Member>, rest: Text, ev: seq<Event>, n: nat)
    requires Accepting(cfg) && ms != [] && forall m <- ms :: Exact(m.value)
    ensures MemberFrom(cfg, MemberText(f, d + 1, ms, End(f, d, false, rest)), ev, n % TWO32)
         == Ok(rest, ev + MemberEvents(ms, false) + [EndObject((n + |ms|) % TWO32)])
    decreases ms, 0
  {
    hide MoreMembers, MemberText, Print, ValueFrom, AfterMember, MemberFrom, EndsNumber, End;
    var name, value, tail, end := [Key(ms[0].name)], Events(ms[0].value, false), ms[1..], End(f, d, false, rest);
    ClosingEnds(f, d, false, rest);
    MoreEndsNumber(f, d + 1, [], tail, end);
    PrintedName(cfg, f, d + 1, ms, end, ev, n % TWO32);
    PrintedValue(cfg, f, d + 1, ms[0].value, MoreMembers(f, d + 1, tail, end), ev + name);
    CountOn(n);
    AfterPrintedMember(cfg, f, d, tail, rest, ev + name + value, (n + 1) % TWO32);
    FirstMemberEvents(ms);
    hide MemberEvents, Events;
    if tail == [] {
      NoItems();
      assert ev + (name + value + []) == ev + name + value;
    } else {
      PrintedMembers(cfg, f, d, tail, rest, ev + name + value, n + 1);
      assert ev + name + value + MemberEvents(tail, false) == ev + (name + value + MemberEvents(tail, false));
    }
  }

  lemma FirstMemberEvents(ms: seq<Member>)
    requires ms != []
    ensures MemberEvents(ms, false) == [Key(ms[0].name)] + Events(ms[0].value, false) + MemberEvents(ms[1..], false)
  {}

  /** For all flags, the reader accepts what a writer has printed, to its end, with the events of the value. */
  lemma PrintedDocument(cfg: Config, f: Format, t: Tree)
    requires Accepting(cfg) && Exact(t)
    ensures Document(cfg, Print(f, 0, t, [])) == Ok([], Events(t, false))
  {
    hide Print, Skip, ValueFrom, Events;
    var s := Print(f, 0, t, []);
    SkipSpaces(cfg, [], s);
    assert [] + s == s;
    PrintedValue(cfg, f, 0, t, [], []);
    assert [] + Events(t, false) == Events(t, false);
    SkipNothing(cfg);
  }

  lemma SkipNothing(cfg: Config)
    ensures Skip(cfg, []) == Rest([])
  {}
}
