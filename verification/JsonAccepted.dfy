/** Every text that the reader accepts is written as RFC 8259 has it, with the extensions that flags allow, and its
    events are those of what is written. */
module JsonAccepted {
  import opened JsonGrammar
  import opened JsonNumber
  import opened JsonNumberSyntax
  import opened JsonSpaceSyntax
  import opened JsonString
  import opened JsonStringSyntax
  import opened JsonSyntax
  import opened JsonText

  // ---------- nothing else is accepted ----------

  /** A value is what has been taken off a text, with its events. */
  ghost predicate Taken(cfg: Config, j: Json, s: Text, ev: seq<Event>, r: Res) {
    && r.Ok? && ValidJson(cfg, j) && s == ValueText(j, r.rest) && Stops(j, r.rest)
    && r.events == ev + ValueEvents(cfg, j) && Lets(cfg, ev, ValueEvents(cfg, j))
  }

  ghost predicate TakenElements(cfg: Config, es: Elements, named: bool, s: Text, ev: seq<Event>, count: nat, r: Res) {
    && r.Ok? && ValidElements(cfg, es, named) && s == ElementsText(es, if named then '}' else ']', r.rest)
    && r.events == ev + ClosedEvents(cfg, es, named, count) && Lets(cfg, ev, ClosedEvents(cfg, es, named, count))
  }

  lemma EmitFound(cfg: Config, s: Text, ev: seq<Event>, e: Event)
    requires Emit(cfg, s, ev, e).Ok?
    ensures Lets(cfg, ev, [e]) && Emit(cfg, s, ev, e) == Ok(s, ev + [e])
  {
    LetsOne(cfg, s, ev, e);
  }

  lemma StringFound(cfg: Config, s: Text, ev: seq<Event>, isKey: bool) returns (us: seq<Unit>)
    requires Peek(s) == '"' && StringFrom(cfg, s, ev, isKey).Ok?
    ensures AllValid(us)
    ensures
      var r := StringFrom(cfg, s, ev, isKey);
      var e := if isKey then Key(UnitsValue(us)) else String(UnitsValue(us));
      s == StringText(us, r.rest) && r.events == ev + [e] && Lets(cfg, ev, [e])
  {
    hide StringBody, UnitsText, UnitsValue, Lets, Emit;
    us := UnitsFound(s[1..]);
    var b := StringBody(s[1..]);
    EmitFound(cfg, b.rest, ev, if isKey then Key(b.value) else String(b.value));
    assert s == ['"'] + s[1..];
  }

  lemma NumberFound(cfg: Config, s: Text, ev: seq<Event>) returns (n: Numeral)
    requires NumberFrom(cfg, s, ev).Ok?
    ensures Taken(cfg, NumberJson(n), s, ev, NumberFrom(cfg, s, ev))
  {
    hide NumberParts, Lets, Emit, CannotGoOn, NumeralText, TooBigNumeral, NumeralEvent;
    IsNumber(cfg, s);
    n := NumeralFound(s);
    var rest := NumberParts(s).rest;
    NumberRead(cfg, n, rest);
    EmitFound(cfg, rest, ev, NumeralEvent(n));
  }

  lemma IsNumber(cfg: Config, s: Text)
    ensures Number(cfg, s).Numbered? ==> NumberParts(s).Parts?
  {
    hide NumberParts, Value;
  }

  lemma WordFound(cfg: Config, s: Text, ev: seq<Event>, word: Text, e: Event)
    requires s != [] && Literal(cfg, s[1..], ev, word, e).Ok?
    ensures
      var r := Literal(cfg, s[1..], ev, word, e);
      s == [s[0]] + word + r.rest && r.events == ev + [e] && Lets(cfg, ev, [e])
  {
    hide Emit, Lets;
    EmitFound(cfg, s[1..][|word|..], ev, e);
  }

  lemma ScalarFound(cfg: Config, s: Text, ev: seq<Event>) returns (j: Json)
    requires Scalar(cfg, s, ev).Ok?
    ensures Taken(cfg, j, s, ev, Scalar(cfg, s, ev))
  {
    hide Literal, StringFrom, NumberFrom, Lets, Emit, StringText, NumeralText, UnitsValue, NumeralEvent, TooBigNumeral,
      ValidNumeral;
    match Peek(s)
    case 'n' =>
      WordFound(cfg, s, ev, "ull", Null);
      j := NullJson;
    case 't' =>
      WordFound(cfg, s, ev, "rue", Bool(true));
      j := TrueJson;
    case 'f' =>
      WordFound(cfg, s, ev, "alse", Bool(false));
      j := FalseJson;
    case '"' =>
      var us := StringFound(cfg, s, ev, false);
      j := StringJson(us);
    case _ =>
      var n := NumberFound(cfg, s, ev);
      j := NumberJson(n);
  }

  /** The space before a token that is no end of the text. */
  lemma GoodFound(cfg: Config, s: Text) returns (p: Space)
    requires Skip(cfg, s).Rest? && Peek(Skip(cfg, s).rest) != '\0'
    ensures Good(cfg, p) && s == SpaceText(p) + Skip(cfg, s).rest
  {
    hide Skip, ValidSpace;
    p := SpaceFound(cfg, s);
  }

  /** The space and the token after it. */
  lemma SpacedFound(cfg: Config, s: Text) returns (p: Space)
    requires Skip(cfg, s).Rest? && Peek(Skip(cfg, s).rest) != '\0'
    ensures Good(cfg, p) && s == Spaced(p, Peek(Skip(cfg, s).rest), Skip(cfg, s).rest[1..])
  {
    hide Skip, Good;
    p := GoodFound(cfg, s);
    var t := Skip(cfg, s).rest;
    assert t == [t[0]] + t[1..];
  }

  lemma ArrayTaken(cfg: Config, p: Space, es: Elements, rest: Text, ev: seq<Event>)
    requires Good(cfg, p) && ValidElements(cfg, es, false)
    requires Lets(cfg, ev, [StartArray]) && Lets(cfg, ev + [StartArray], ClosedEvents(cfg, es, false, 0))
    ensures Taken(cfg, ArrayJson(p, es), ['['] + (SpaceText(p) + ElementsText(es, ']', rest)), ev,
                  Ok(rest, ev + [StartArray] + ClosedEvents(cfg, es, false, 0)))
  {
    hide Lets, ElementsText, SpaceText, ElementsEvents, ValidElements, Good;
    LetsBoth(cfg, ev, [StartArray], ClosedEvents(cfg, es, false, 0));
    Regrouped(ev, [StartArray], ClosedEvents(cfg, es, false, 0));
  }

  lemma EmptyArrayTaken(cfg: Config, p: Space, rest: Text, ev: seq<Event>)
    requires Good(cfg, p) && Lets(cfg, ev, [StartArray]) && Lets(cfg, ev + [StartArray], [EndArray(0)])
    ensures Taken(cfg, EmptyArray(p), ['['] + Spaced(p, ']', rest), ev, Ok(rest, ev + [StartArray] + [EndArray(0)]))
  {
    hide Lets, Good, Spaced;
    LetsBoth(cfg, ev, [StartArray], [EndArray(0)]);
    Regrouped(ev, [StartArray], [EndArray(0)]);
    assert [StartArray] + [EndArray(0)] == [StartArray, EndArray(0)];
  }

  lemma ObjectTaken(cfg: Config, p: Space, es: Elements, rest: Text, ev: seq<Event>)
    requires Good(cfg, p) && ValidElements(cfg, es, true)
    requires Lets(cfg, ev, [StartObject]) && Lets(cfg, ev + [StartObject], ClosedEvents(cfg, es, true, 0))
    ensures Taken(cfg, ObjectJson(p, es), ['{'] + (SpaceText(p) + ElementsText(es, '}', rest)), ev,
                  Ok(rest, ev + [StartObject] + ClosedEvents(cfg, es, true, 0)))
  {
    hide Lets, ElementsText, SpaceText, ElementsEvents, ValidElements, Good;
    LetsBoth(cfg, ev, [StartObject], ClosedEvents(cfg, es, true, 0));
    Regrouped(ev, [StartObject], ClosedEvents(cfg, es, true, 0));
  }

  lemma EmptyObjectTaken(cfg: Config, p: Space, rest: Text, ev: seq<Event>)
    requires Good(cfg, p) && Lets(cfg, ev, [StartObject]) && Lets(cfg, ev + [StartObject], [EndObject(0)])
    ensures Taken(cfg, EmptyObject(p), ['{'] + Spaced(p, '}', rest), ev, Ok(rest, ev + [StartObject] + [EndObject(0)]))
  {
    hide Lets, Good, Spaced;
    LetsBoth(cfg, ev, [StartObject], [EndObject(0)]);
    Regrouped(ev, [StartObject], [EndObject(0)]);
    assert [StartObject] + [EndObject(0)] == [StartObject, EndObject(0)];
  }

  lemma {:induction false} ValueFound(cfg: Config, s: Text, ev: seq<Event>) returns (j: Json)
    requires ValueFrom(cfg, s, ev).Ok?
    ensures Taken(cfg, j, s, ev, ValueFrom(cfg, s, ev))
    decreases |s|, 1
  {
    hide Taken, Scalar, ObjectFrom, ArrayFrom;
    match Peek(s)
    case '{' => j := ObjectFound(cfg, s, ev);
    case '[' => j := ArrayFound(cfg, s, ev);
    case _ => j := ScalarFound(cfg, s, ev);
  }

  lemma {:induction false} ArrayFound(cfg: Config, s: Text, ev: seq<Event>) returns (j: Json)
    requires Peek(s) == '[' && ArrayFrom(cfg, s[1..], ev).Ok?
    ensures Taken(cfg, j, s, ev, ArrayFrom(cfg, s[1..], ev))
    decreases |s|, 0
  {
    hide Skip, Emit, Lets, ElementFrom, ElementsText, ElementsEvents, ValidElements, SpaceText, Good, Taken, ClosedEvents;
    var t := s[1..];
    assert s == ['['] + t;
    EmitFound(cfg, t, ev, StartArray);
    var ev1 := ev + [StartArray];
    var u := Skip(cfg, t).rest;
    assert ArrayFrom(cfg, t, ev) == ArrayStart(cfg, u, ev1);
    if Peek(u) == ']' {
      var p := SpacedFound(cfg, t);
      EmitFound(cfg, u[1..], ev1, EndArray(0));
      EmptyArrayTaken(cfg, p, u[1..], ev);
      j := EmptyArray(p);
    } else {
      var es := ElementsFound(cfg, u, ev1, 0);
      NotNothing(cfg, es, false, ']', ElementFrom(cfg, u, ev1, 0).rest);
      var p := GoodFound(cfg, t);
      ArrayTaken(cfg, p, es, ElementFrom(cfg, u, ev1, 0).rest, ev);
      j := ArrayJson(p, es);
    }
  }

  lemma NotNothing(cfg: Config, es: Elements, named: bool, close: Ch, rest: Text)
    requires ValidElements(cfg, es, named)
    ensures Peek(ElementsText(es, close, rest)) != '\0'
  {
    ElementsFirst(cfg, es, named, close, rest);
  }

  lemma {:induction false} ElementsFound(cfg: Config, s: Text, ev: seq<Event>, count: nat) returns (es: Elements)
    requires ElementFrom(cfg, s, ev, count).Ok?
    ensures TakenElements(cfg, es, false, s, ev, count, ElementFrom(cfg, s, ev, count))
    decreases |s|, 2
  {
    hide Skip, Emit, Lets, ValueFrom, ValueText, SpaceText, Good, ValidJson, ValueEvents;
    var v := ValueFrom(cfg, s, ev);
    var j := ValueFound(cfg, s, ev);
    var n := (count + 1) % TWO32;
    es := AfterFound(cfg, j, v.rest, v.events, n);
    var first, more := ValueEvents(cfg, j), EventsAfter(cfg, es, false, n);
    ClosedMore(cfg, es, false, count);
    assert NameEvents(cfg, es.name, false) + first == first;
    LetsBoth(cfg, ev, first, more);
    Regrouped(ev, first, more);
  }

  /** The events behind the first value of some elements. */
  function EventsAfter(cfg: Config, es: Elements, named: bool, n: nat): seq<Event>
    requires ValidElements(cfg, es, named)
  {
    if es.More? then ClosedEvents(cfg, es.next, named, n) else [if named then EndObject(n) else EndArray(n)]
  }

  /** What follows the first value of some elements has been taken off a text. */
  ghost predicate TakenAfter(cfg: Config, es: Elements, named: bool, s: Text, ev: seq<Event>, n: nat, r: Res) {
    && r.Ok? && ValidElements(cfg, es, named) && s == AfterText(es, if named then '}' else ']', r.rest)
    && r.events == ev + EventsAfter(cfg, es, named, n) && Lets(cfg, ev, EventsAfter(cfg, es, named, n))
  }

  lemma {:induction false} AfterFound(cfg: Config, j: Json, s: Text, ev: seq<Event>, n: nat) returns (es: Elements)
    requires ValidJson(cfg, j) && AfterElement(cfg, s, ev, n).Ok?
    ensures es.name == NoName && es.value == j && TakenAfter(cfg, es, false, s, ev, n, AfterElement(cfg, s, ev, n))
    decreases |s|, 3
  {
    hide Skip, Emit, Lets, ElementFrom, ElementsText, SpaceText, ValidJson, ElementsEvents, Spaced, Good;
    var t := Skip(cfg, s).rest;
    var after := SpacedFound(cfg, s);
    assert AfterElement(cfg, s, ev, n) == ElementEnd(cfg, t, ev, n);
    if Peek(t) == ',' {
      var u := Skip(cfg, t[1..]).rest;
      assert ElementEnd(cfg, t, ev, n) == NextElement(cfg, u, ev, n);
      if cfg.trailingCommas && Peek(u) == ']' {
        var space := SpacedFound(cfg, t[1..]);
        EmitFound(cfg, u[1..], ev, EndArray(n));
        es := Trailing(NoName, j, after, space);
      } else {
        var next := ElementsFound(cfg, u, ev, n);
        NotNothing(cfg, next, false, ']', ElementFrom(cfg, u, ev, n).rest);
        var before := GoodFound(cfg, t[1..]);
        es := More(NoName, j, after, before, next);
        AfterMore(es, ']', ElementFrom(cfg, u, ev, n).rest);
      }
    } else {
      EmitFound(cfg, t[1..], ev, EndArray(n));
      es := Last(NoName, j, after);
    }
  }

  lemma {:induction false} ObjectFound(cfg: Config, s: Text, ev: seq<Event>) returns (j: Json)
    requires Peek(s) == '{' && ObjectFrom(cfg, s[1..], ev).Ok?
    ensures Taken(cfg, j, s, ev, ObjectFrom(cfg, s[1..], ev))
    decreases |s|, 0
  {
    hide Skip, Emit, Lets, MemberFrom, ElementsText, ElementsEvents, ValidElements, SpaceText, Good, Taken, ClosedEvents;
    var t := s[1..];
    assert s == ['{'] + t;
    EmitFound(cfg, t, ev, StartObject);
    var ev1 := ev + [StartObject];
    var u := Skip(cfg, t).rest;
    assert ObjectFrom(cfg, t, ev) == ObjectStart(cfg, u, ev1);
    if Peek(u) == '}' {
      var p := SpacedFound(cfg, t);
      EmitFound(cfg, u[1..], ev1, EndObject(0));
      EmptyObjectTaken(cfg, p, u[1..], ev);
      j := EmptyObject(p);
    } else {
      var es := MembersFound(cfg, u, ev1, 0);
      NotNothing(cfg, es, true, '}', MemberFrom(cfg, u, ev1, 0).rest);
      var p := GoodFound(cfg, t);
      ObjectTaken(cfg, p, es, MemberFrom(cfg, u, ev1, 0).rest, ev);
      j := ObjectJson(p, es);
    }
  }

  /** A name, its colon and where its value starts. */
  lemma NameFound(cfg: Config, s: Text, ev: seq<Event>, count: nat) returns (name: Name, t: Text)
    requires MemberFrom(cfg, s, ev, count).Ok?
    ensures name.Name? && ValidName(cfg, name, true) && |t| < |s|
    ensures s == NameText(name, t) && Lets(cfg, ev, NameEvents(cfg, name, true))
    ensures MemberFrom(cfg, s, ev, count) == MemberValueFrom(cfg, t, ev + NameEvents(cfg, name, true), count)
  {
    hide Skip, Emit, Lets, StringFrom, MemberValueFrom, StringText, SpaceText, Good, UnitsValue, AllValid, Spaced;
    var us := StringFound(cfg, s, ev, true);
    var r := StringFrom(cfg, s, ev, true);
    var u := Skip(cfg, r.rest).rest;
    var before := SpacedFound(cfg, r.rest);
    assert MemberFrom(cfg, s, ev, count) == ColonFrom(cfg, u, r.events, count);
    t := Skip(cfg, u[1..]).rest;
    assert ColonFrom(cfg, u, r.events, count) == MemberValueFrom(cfg, t, r.events, count);
    ValueNotNothing(cfg, t, r.events, count);
    var after := GoodFound(cfg, u[1..]);
    name := Name(us, before, after);
  }

  lemma ValueNotNothing(cfg: Config, t: Text, ev: seq<Event>, count: nat)
    requires MemberValueFrom(cfg, t, ev, count).Ok?
    ensures Peek(t) != '\0'
  {
    hide AfterMember, ObjectFrom, ArrayFrom;
    if Peek(t) == '\0' {
      NoValue(cfg, t, ev);
    }
  }

  lemma NoValue(cfg: Config, t: Text, ev: seq<Event>)
    requires Peek(t) == '\0'
    ensures ValueFrom(cfg, t, ev).Fail?
  {
    hide FractionParts;
  }

  lemma {:induction false} MembersFound(cfg: Config, s: Text, ev: seq<Event>, count: nat) returns (es: Elements)
    requires MemberFrom(cfg, s, ev, count).Ok?
    ensures TakenElements(cfg, es, true, s, ev, count, MemberFrom(cfg, s, ev, count))
    decreases |s|, 2
  {
    hide Skip, Emit, Lets, MemberFrom, ValueFrom, AfterMember, ValueText, SpaceText, Good, ValidJson, ValueEvents, NameText,
      NameEvents, ClosedEvents, Stops;
    var name, t := NameFound(cfg, s, ev, count);
    var key := NameEvents(cfg, name, true);
    var v := ValueFrom(cfg, t, ev + key);
    var j := ValueFound(cfg, t, ev + key);
    var n := (count + 1) % TWO32;
    es := AfterMemberFound(cfg, name, j, v.rest, v.events, n);
    var first, more := ValueEvents(cfg, j), EventsAfter(cfg, es, true, n);
    ClosedMore(cfg, es, true, count);
    LetsBoth(cfg, ev + key, first, more);
    LetsBoth(cfg, ev, key, first + more);
    Regrouped(key, first, more);
    Regrouped(ev, key, first + more);
    Regrouped(ev + key, first, more);
  }

  lemma {:induction false} AfterMemberFound(cfg: Config, name: Name, j: Json, s: Text, ev: seq<Event>, n: nat)
      returns (es: Elements)
    requires ValidName(cfg, name, true) && ValidJson(cfg, j) && AfterMember(cfg, s, ev, n).Ok?
    ensures es.name == name && es.value == j && TakenAfter(cfg, es, true, s, ev, n, AfterMember(cfg, s, ev, n))
    decreases |s|, 3
  {
    hide Skip, Emit, Lets, MemberFrom, ElementsText, SpaceText, ValidJson, ValidName, ElementsEvents, Spaced, Good;
    var t := Skip(cfg, s).rest;
    var after := SpacedFound(cfg, s);
    assert AfterMember(cfg, s, ev, n) == MemberEnd(cfg, t, ev, n);
    if Peek(t) == ',' {
      var u := Skip(cfg, t[1..]).rest;
      assert MemberEnd(cfg, t, ev, n) == NextMember(cfg, u, ev, n);
      if cfg.trailingCommas && Peek(u) == '}' {
        var space := SpacedFound(cfg, t[1..]);
        EmitFound(cfg, u[1..], ev, EndObject(n));
        es := Trailing(name, j, after, space);
      } else {
        var next := MembersFound(cfg, u, ev, n);
        NotNothing(cfg, next, true, '}', MemberFrom(cfg, u, ev, n).rest);
        var before := GoodFound(cfg, t[1..]);
        es := More(name, j, after, before, next);
        AfterMore(es, '}', MemberFrom(cfg, u, ev, n).rest);
      }
    } else {
      EmitFound(cfg, t[1..], ev, EndObject(n));
      es := Last(name, j, after);
    }
  }

  // ---------- documents ----------

  /** A value with the space around it. */
  datatype Written = Written(before: Space, value: Json, after: Space)

  function WrittenText(d: Written, rest: Text): Text {
    SpaceText(d.before) + ValueText(d.value, SpaceText(d.after) + rest)
  }

  /** Behind the value and its space the text ends, unless the reader stops behind the value. */
  predicate ValidWritten(cfg: Config, d: Written, rest: Text) {
    && Good(cfg, d.before) && ValidJson(cfg, d.value)
    && if cfg.stopWhenDone then d.after == NoSpace && Stops(d.value, rest)
       else ValidSpace(cfg.comments, d.after) && Peek(rest) == '\0'
  }

  lemma AfterValueStops(cfg: Config, d: Written, rest: Text)
    requires ValidWritten(cfg, d, rest)
    ensures Stops(d.value, SpaceText(d.after) + rest)
  {
    hide Good, ValidJson, SpaceText, ValidSpace;
    if cfg.stopWhenDone {
      NoText(rest);
    } else {
      SpaceFirst(cfg, d.after, rest);
    }
  }

  lemma NoText(rest: Text)
    ensures SpaceText(NoSpace) + rest == rest
  {}

  /** A written value is accepted, with its events. */
  lemma WrittenRead(cfg: Config, d: Written, rest: Text)
    requires ValidWritten(cfg, d, rest) && Lets(cfg, [], ValueEvents(cfg, d.value))
    ensures Document(cfg, WrittenText(d, rest)) == Ok(rest, ValueEvents(cfg, d.value))
  {
    hide Skip, ValueFrom, ValueText, ValidJson, Lets, SpaceText, ValueEvents, Stops, ValidSpace;
    var t := SpaceText(d.after) + rest;
    var u := ValueText(d.value, t);
    JsonFirst(cfg, d.value, t);
    SpaceRead(cfg, d.before, u);
    AfterValueStops(cfg, d, rest);
    ValueRead(cfg, d.value, t, []);
    assert [] + ValueEvents(cfg, d.value) == ValueEvents(cfg, d.value);
    if cfg.stopWhenDone {
      NoText(rest);
    } else {
      SpaceRead(cfg, d.after, rest);
    }
  }

  lemma WrittenFound(cfg: Config, s: Text) returns (d: Written)
    requires Document(cfg, s).Ok?
    ensures
      var r := Document(cfg, s);
      && ValidWritten(cfg, d, r.rest) && s == WrittenText(d, r.rest)
      && r.events == ValueEvents(cfg, d.value) && Lets(cfg, [], r.events)
  {
    hide Skip, ValueFrom, ValueText, ValidJson, Lets, SpaceText, ValueEvents, Stops, ValidSpace;
    var t := Skip(cfg, s).rest;
    var before := GoodFound(cfg, s);
    var v := ValueFrom(cfg, t, []);
    var j := ValueFound(cfg, t, []);
    assert [] + ValueEvents(cfg, j) == ValueEvents(cfg, j);
    if cfg.stopWhenDone {
      d := Written(before, j, NoSpace);
      NoText(v.rest);
    } else {
      var after := SpaceFound(cfg, v.rest);
      d := Written(before, j, after);
    }
  }

  /** A text is a written value and a rest, and these are its events, all of which the handler lets pass. */
  ghost predicate Reads(cfg: Config, d: Written, s: Text, rest: Text, ev: seq<Event>) {
    && ValidWritten(cfg, d, rest) && s == WrittenText(d, rest)
    && ev == ValueEvents(cfg, d.value) && Lets(cfg, [], ev)
  }

  /** A text is accepted, up to a rest and with some events, if and only if it reads that way. */
  lemma AcceptedExactly(cfg: Config, s: Text, rest: Text, ev: seq<Event>)
    ensures Document(cfg, s) == Ok(rest, ev) <==> exists d :: Reads(cfg, d, s, rest, ev)
  {
    hide Document, WrittenText, ValidJson, Lets, ValueEvents, Stops, Good, ValidSpace;
    if Document(cfg, s) == Ok(rest, ev) {
      var d := WrittenFound(cfg, s);
      assert Reads(cfg, d, s, rest, ev);
    }
    forall d | Reads(cfg, d, s, rest, ev) ensures Document(cfg, s) == Ok(rest, ev) {
      WrittenRead(cfg, d, rest);
    }
  }
}
