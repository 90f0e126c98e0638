/** JSON texts as RFC 8259 has them, character by character, with the extensions that flags allow: the reader accepts
    all of these, with exactly their events. */
module JsonSyntax {
  import opened JsonGrammar
  import opened JsonNumber
  import opened JsonNumberSyntax
  import opened JsonSpaceSyntax
  import opened JsonString
  import opened JsonStringSyntax
  import opened JsonText

  /** A value as it is written. */
  datatype Json =
    | NullJson | TrueJson | FalseJson | NumberJson(n: Numeral) | StringJson(us: seq<Unit>)
    | EmptyArray(space: Space) | ArrayJson(space: Space, elements: Elements)
    | EmptyObject(space: Space) | ObjectJson(space: Space, elements: Elements)

  /** Elements or members from one on, each with the space around it; a comma may stand before the end. */
  datatype Elements =
    | Last(name: Name, value: Json, after: Space)
    | Trailing(name: Name, value: Json, after: Space, space: Space)
    | More(name: Name, value: Json, after: Space, before: Space, next: Elements)

  /** The name of a member, with the space before and after its colon. */
  datatype Name = NoName | Name(us: seq<Unit>, before: Space, after: Space)

  // ---------- texts, followed by rest ----------

  function Spaced(p: Space, c: Ch, rest: Text): Text { SpaceText(p) + ([c] + rest) }

  function StringText(us: seq<Unit>, rest: Text): Text { ['"'] + (UnitsText(us) + (['"'] + rest)) }

  function NameText(name: Name, rest: Text): Text {
    match name
    case NoName => rest
    case Name(us, before, after) => StringText(us, Spaced(before, ':', SpaceText(after) + rest))
  }

  function ValueText(j: Json, rest: Text): Text
    decreases j, 0
  {
    match j
    case NullJson => "null" + rest
    case TrueJson => "true" + rest
    case FalseJson => "false" + rest
    case NumberJson(n) => NumeralText(n, rest)
    case StringJson(us) => StringText(us, rest)
    case EmptyArray(p) => ['['] + Spaced(p, ']', rest)
    case ArrayJson(p, es) => ['['] + (SpaceText(p) + ElementsText(es, ']', rest))
    case EmptyObject(p) => ['{'] + Spaced(p, '}', rest)
    case ObjectJson(p, es) => ['{'] + (SpaceText(p) + ElementsText(es, '}', rest))
  }

  function ElementsText(es: Elements, close: Ch, rest: Text): Text
    decreases es, 1
  {
    NameText(es.name, ValueText(es.value, AfterText(es, close, rest)))
  }

  /** What follows the first value. */
  function AfterText(es: Elements, close: Ch, rest: Text): Text
    decreases es, 0
  {
    match es
    case Last(_, _, after) => Spaced(after, close, rest)
    case Trailing(_, _, after, space) => Spaced(after, ',', Spaced(space, close, rest))
    case More(_, _, after, before, next) => Spaced(after, ',', SpaceText(before) + ElementsText(next, close, rest))
  }

  // ---------- which of them are JSON ----------

  predicate Good(cfg: Config, p: Space) { ValidSpace(cfg.comments, p) && Closed(p) }

  predicate ValidName(cfg: Config, name: Name, named: bool) {
    match name
    case NoName => !named
    case Name(us, before, after) => named && AllValid(us) && Good(cfg, before) && Good(cfg, after)
  }

  predicate ValidJson(cfg: Config, j: Json) {
    match j
    case NumberJson(n) => ValidNumeral(n) && !TooBigNumeral(cfg, n)
    case StringJson(us) => AllValid(us)
    case EmptyArray(p) => Good(cfg, p)
    case ArrayJson(p, es) => Good(cfg, p) && ValidElements(cfg, es, false)
    case EmptyObject(p) => Good(cfg, p)
    case ObjectJson(p, es) => Good(cfg, p) && ValidElements(cfg, es, true)
    case _ => true
  }

  predicate ValidElements(cfg: Config, es: Elements, named: bool) {
    && ValidName(cfg, es.name, named) && ValidJson(cfg, es.value) && Good(cfg, es.after)
    && match es
       case Last(_, _, _) => true
       case Trailing(_, _, _, space) => cfg.trailingCommas && Good(cfg, space)
       case More(_, _, _, before, next) => Good(cfg, before) && ValidElements(cfg, next, named)
  }

  // ---------- their events ----------

  function Count(es: Elements): nat { if es.More? then 1 + Count(es.next) else 1 }

  function NameEvents(cfg: Config, name: Name, named: bool): seq<Event>
    requires ValidName(cfg, name, named)
  {
    if name.NoName? then [] else [Key(UnitsValue(name.us))]
  }

  function ValueEvents(cfg: Config, j: Json): seq<Event>
    requires ValidJson(cfg, j)
  {
    match j
    case NullJson => [Null]
    case TrueJson => [Bool(true)]
    case FalseJson => [Bool(false)]
    case NumberJson(n) => [NumeralEvent(n)]
    case StringJson(us) => [String(UnitsValue(us))]
    case EmptyArray(_) => [StartArray, EndArray(0)]
    case ArrayJson(_, es) => [StartArray] + (ElementsEvents(cfg, es, false) + [EndArray(Count(es) % TWO32)])
    case EmptyObject(_) => [StartObject, EndObject(0)]
    case ObjectJson(_, es) => [StartObject] + (ElementsEvents(cfg, es, true) + [EndObject(Count(es) % TWO32)])
  }

  function ElementsEvents(cfg: Config, es: Elements, named: bool): seq<Event>
    requires ValidElements(cfg, es, named)
  {
    var first := NameEvents(cfg, es.name, named) + ValueEvents(cfg, es.value);
    if es.More? then first + ElementsEvents(cfg, es.next, named) else first
  }

  /** The handler lets the reader go on after each of some more events. */
  ghost predicate Lets(cfg: Config, ev: seq<Event>, more: seq<Event>) {
    forall n | 0 < n <= |more| :: cfg.accepts(ev + more[..n])
  }

  lemma LetsBoth(cfg: Config, ev: seq<Event>, a: seq<Event>, b: seq<Event>)
    ensures Lets(cfg, ev, a + b) <==> Lets(cfg, ev, a) && Lets(cfg, ev + a, b)
  {
    if Lets(cfg, ev, a + b) {
      forall n | 0 < n <= |a| ensures cfg.accepts(ev + a[..n]) {
        assert (a + b)[..n] == a[..n];
      }
      forall n | 0 < n <= |b| ensures cfg.accepts(ev + a + b[..n]) {
        assert ev + (a + b)[..|a| + n] == ev + a + b[..n];
      }
    }
    if Lets(cfg, ev, a) && Lets(cfg, ev + a, b) {
      forall n | 0 < n <= |a + b| ensures cfg.accepts(ev + (a + b)[..n]) {
        if n <= |a| {
          assert (a + b)[..n] == a[..n];
        } else {
          assert ev + (a + b)[..n] == ev + a + b[..n - |a|];
        }
      }
    }
  }

  lemma LetsOne(cfg: Config, s: Text, ev: seq<Event>, e: Event)
    ensures Emit(cfg, s, ev, e) == if Lets(cfg, ev, [e]) then Ok(s, ev + [e]) else Fail(ev + [e])
  {
    assert [e][..1] == [e];
  }

  // ---------- where a value stops ----------

  /** Nothing that follows a value could belong to it. */
  predicate Stops(j: Json, rest: Text) { j.NumberJson? ==> CannotGoOn(j.n, rest) }

  /** A space and a token that is no space. */
  lemma SpacedStart(cfg: Config, p: Space, c: Ch, rest: Text)
    requires Good(cfg, p) && c in ",:]}"
    ensures Peek(Spaced(p, c, rest)) in " \n\r\t/,:]}"
    ensures Skip(cfg, Spaced(p, c, rest)) == Rest([c] + rest)
  {
    hide Skip;
    SpaceRead(cfg, p, [c] + rest);
    SpaceFirst(cfg, p, [c] + rest);
  }

  lemma SpaceFirst(cfg: Config, p: Space, rest: Text)
    requires ValidSpace(cfg.comments, p)
    ensures Peek(SpaceText(p) + rest) in " \n\r\t/" || SpaceText(p) + rest == rest
  {
    if p.NoSpace? {
      assert [] + rest == rest;
    }
  }

  lemma StopsBefore(j: Json, rest: Text)
    requires Peek(rest) in " \n\r\t/,:]}"
    ensures Stops(j, rest)
  {}

  lemma JsonFirst(cfg: Config, j: Json, rest: Text)
    requires ValidJson(cfg, j)
    ensures ValueText(j, rest) != [] && SpaceEnds(cfg.comments, ValueText(j, rest)) && Peek(ValueText(j, rest)) !in "]},:\0"
    ensures
      var c := Peek(ValueText(j, rest));
      match j
      case NullJson => c == 'n'
      case TrueJson => c == 't'
      case FalseJson => c == 'f'
      case NumberJson(_) => c == '-' || IsDigit(c)
      case StringJson(_) => c == '"'
      case EmptyArray(_) => c == '['
      case ArrayJson(_, _) => c == '['
      case EmptyObject(_) => c == '{'
      case ObjectJson(_, _) => c == '{'
  {
    hide ElementsText, SpaceText, UnitsText, FractionText;
  }

  lemma ElementsFirst(cfg: Config, es: Elements, named: bool, close: Ch, rest: Text)
    requires ValidElements(cfg, es, named)
    ensures SpaceEnds(cfg.comments, ElementsText(es, close, rest)) && Peek(ElementsText(es, close, rest)) !in "]},:\0"
    ensures named ==> Peek(ElementsText(es, close, rest)) == '"'
  {
    hide AfterText, UnitsText, SpaceText, ValueText, ValidJson;
    JsonFirst(cfg, es.value, AfterText(es, close, rest));
  }

  // ---------- whatever is JSON is accepted ----------

  /** An array behind the value of an element. */
  lemma ElementEndRead(cfg: Config, es: Elements, rest: Text, ev: seq<Event>, count: nat)
    requires ValidElements(cfg, es, false)
    ensures AfterElement(cfg, AfterText(es, ']', rest), ev, count) ==
      if es.More? then ElementFrom(cfg, ElementsText(es.next, ']', rest), ev, count)
      else Emit(cfg, rest, ev, EndArray(count))
  {
    hide Skip, ElementFrom, ElementsText, SpaceText, ValidJson, ValidName, Emit;
    match es
    case Last(_, _, after) =>
      SpacedStart(cfg, after, ']', rest);
      assert ([']'] + rest)[1..] == rest;
    case Trailing(_, _, after, space) =>
      var t := Spaced(space, ']', rest);
      SpacedStart(cfg, after, ',', t);
      assert ([','] + t)[1..] == t;
      SpacedStart(cfg, space, ']', rest);
      assert ([']'] + rest)[1..] == rest;
      assert AfterElement(cfg, AfterText(es, ']', rest), ev, count) == ElementEnd(cfg, [','] + t, ev, count);
      assert ElementEnd(cfg, [','] + t, ev, count) == NextElement(cfg, [']'] + rest, ev, count);
    case More(_, _, after, before, next) =>
      var u := ElementsText(next, ']', rest);
      var t := SpaceText(before) + u;
      SpacedStart(cfg, after, ',', t);
      assert ([','] + t)[1..] == t;
      AfterMore(es, ']', rest);
      ElementsFirst(cfg, next, false, ']', rest);
      SpaceRead(cfg, before, u);
      assert AfterElement(cfg, AfterText(es, ']', rest), ev, count) == ElementEnd(cfg, [','] + t, ev, count);
      assert ElementEnd(cfg, [','] + t, ev, count) == NextElement(cfg, u, ev, count);
  }

  lemma MemberEndRead(cfg: Config, es: Elements, rest: Text, ev: seq<Event>, count: nat)
    requires ValidElements(cfg, es, true)
    ensures AfterMember(cfg, AfterText(es, '}', rest), ev, count) ==
      if es.More? then MemberFrom(cfg, ElementsText(es.next, '}', rest), ev, count)
      else Emit(cfg, rest, ev, EndObject(count))
  {
    hide Skip, MemberFrom, ElementsText, SpaceText, ValidJson, ValidName, Emit;
    match es
    case Last(_, _, after) =>
      SpacedStart(cfg, after, '}', rest);
      assert (['}'] + rest)[1..] == rest;
    case Trailing(_, _, after, space) =>
      var t := Spaced(space, '}', rest);
      SpacedStart(cfg, after, ',', t);
      assert ([','] + t)[1..] == t;
      SpacedStart(cfg, space, '}', rest);
      assert (['}'] + rest)[1..] == rest;
      assert AfterMember(cfg, AfterText(es, '}', rest), ev, count) == MemberEnd(cfg, [','] + t, ev, count);
      assert MemberEnd(cfg, [','] + t, ev, count) == NextMember(cfg, ['}'] + rest, ev, count);
    case More(_, _, after, before, next) =>
      var u := ElementsText(next, '}', rest);
      var t := SpaceText(before) + u;
      SpacedStart(cfg, after, ',', t);
      assert ([','] + t)[1..] == t;
      AfterMore(es, '}', rest);
      ElementsFirst(cfg, next, true, '}', rest);
      SpaceRead(cfg, before, u);
      assert AfterMember(cfg, AfterText(es, '}', rest), ev, count) == MemberEnd(cfg, [','] + t, ev, count);
      assert MemberEnd(cfg, [','] + t, ev, count) == NextMember(cfg, u, ev, count);
  }

  lemma StringRead(cfg: Config, us: seq<Unit>, rest: Text, ev: seq<Event>, isKey: bool)
    requires AllValid(us)
    ensures Peek(StringText(us, rest)) == '"'
    ensures StringFrom(cfg, StringText(us, rest), ev, isKey)
         == Emit(cfg, rest, ev, if isKey then Key(UnitsValue(us)) else String(UnitsValue(us)))
  {
    hide UnitsText, UnitsValue, StringBody, Emit;
    assert StringText(us, rest)[1..] == UnitsText(us) + (['"'] + rest);
    UnitsRead(us, rest);
  }

  /** A member up to its value. */
  lemma NameRead(cfg: Config, name: Name, t: Text, ev: seq<Event>, count: nat)
    requires name.Name? && ValidName(cfg, name, true) && SpaceEnds(cfg.comments, t)
    requires Lets(cfg, ev, NameEvents(cfg, name, true))
    ensures MemberFrom(cfg, NameText(name, t), ev, count)
         == MemberValueFrom(cfg, t, ev + NameEvents(cfg, name, true), count)
  {
    hide Skip, StringFrom, MemberValueFrom, StringText, UnitsValue, SpaceText, AllValid, Emit, Lets;
    var colon := Spaced(name.before, ':', SpaceText(name.after) + t);
    StringRead(cfg, name.us, colon, ev, true);
    LetsOne(cfg, colon, ev, Key(UnitsValue(name.us)));
    SpacedStart(cfg, name.before, ':', SpaceText(name.after) + t);
    assert ([':'] + (SpaceText(name.after) + t))[1..] == SpaceText(name.after) + t;
    SpaceRead(cfg, name.after, t);
  }

  /** A value is accepted with its events. */
  lemma {:induction false} ValueRead(cfg: Config, j: Json, rest: Text, ev: seq<Event>)
    requires ValidJson(cfg, j) && Stops(j, rest) && Lets(cfg, ev, ValueEvents(cfg, j))
    ensures ValueFrom(cfg, ValueText(j, rest), ev) == Ok(rest, ev + ValueEvents(cfg, j))
    decreases j, 0
  {
    hide Emit, Lets, ObjectFrom, ArrayFrom, ElementsText, ElementsEvents, ValidElements;
    JsonFirst(cfg, j, rest);
    match j
    case ArrayJson(p, es) => ArrayRead(cfg, p, es, rest, ev);
    case ObjectJson(p, es) => ObjectRead(cfg, p, es, rest, ev);
    case EmptyArray(p) => EmptyArrayRead(cfg, p, rest, ev);
    case EmptyObject(p) => EmptyObjectRead(cfg, p, rest, ev);
    case _ => ScalarRead(cfg, j, rest, ev);
  }

  lemma ScalarRead(cfg: Config, j: Json, rest: Text, ev: seq<Event>)
    requires ValidJson(cfg, j) && Stops(j, rest) && Lets(cfg, ev, ValueEvents(cfg, j))
    requires j.NullJson? || j.TrueJson? || j.FalseJson? || j.NumberJson? || j.StringJson?
    ensures ValueFrom(cfg, ValueText(j, rest), ev) == Ok(rest, ev + ValueEvents(cfg, j))
  {
    hide Emit, Lets, NumeralText, UnitsValue, StringText, StringFrom, Number, ObjectFrom, ArrayFrom;
    JsonFirst(cfg, j, rest);
    LetsOne(cfg, rest, ev, ValueEvents(cfg, j)[0]);
    match j
    case NullJson => assert ("null" + rest)[1..][3..] == rest;
    case TrueJson => assert ("true" + rest)[1..][3..] == rest;
    case FalseJson => assert ("false" + rest)[1..][4..] == rest;
    case NumberJson(n) => NumberRead(cfg, n, rest);
    case StringJson(us) => StringRead(cfg, us, rest, ev, false);
    case _ =>
  }

  lemma EmptyArrayRead(cfg: Config, p: Space, rest: Text, ev: seq<Event>)
    requires Good(cfg, p) && Lets(cfg, ev, [StartArray, EndArray(0)])
    ensures ValueFrom(cfg, ['['] + Spaced(p, ']', rest), ev) == Ok(rest, ev + [StartArray, EndArray(0)])
  {
    hide Skip, Lets, Emit, Spaced, ElementFrom;
    var t := Spaced(p, ']', rest);
    assert (['['] + t)[1..] == t;
    SpacedStart(cfg, p, ']', rest);
    assert ([']'] + rest)[1..] == rest;
    BothEvents(cfg, t, rest, ev, StartArray, EndArray(0));
    assert ArrayFrom(cfg, t, ev) == ArrayStart(cfg, [']'] + rest, ev + [StartArray]);
  }

  lemma EmptyObjectRead(cfg: Config, p: Space, rest: Text, ev: seq<Event>)
    requires Good(cfg, p) && Lets(cfg, ev, [StartObject, EndObject(0)])
    ensures ValueFrom(cfg, ['{'] + Spaced(p, '}', rest), ev) == Ok(rest, ev + [StartObject, EndObject(0)])
  {
    hide Skip, Lets, Emit, Spaced, MemberFrom;
    var t := Spaced(p, '}', rest);
    assert (['{'] + t)[1..] == t;
    SpacedStart(cfg, p, '}', rest);
    assert (['}'] + rest)[1..] == rest;
    BothEvents(cfg, t, rest, ev, StartObject, EndObject(0));
    assert ObjectFrom(cfg, t, ev) == ObjectStart(cfg, ['}'] + rest, ev + [StartObject]);
  }

  lemma BothEvents(cfg: Config, s: Text, t: Text, ev: seq<Event>, a: Event, b: Event)
    requires Lets(cfg, ev, [a, b])
    ensures Emit(cfg, s, ev, a) == Ok(s, ev + [a]) && Emit(cfg, t, ev + [a], b) == Ok(t, ev + [a, b])
  {
    hide Lets, Emit;
    assert [a, b] == [a] + [b];
    LetsBoth(cfg, ev, [a], [b]);
    LetsOne(cfg, s, ev, a);
    LetsOne(cfg, t, ev + [a], b);
    assert ev + [a] + [b] == ev + [a, b];
  }

  /** The events of elements and of the end behind them, after count elements. */
  function ClosedEvents(cfg: Config, es: Elements, named: bool, count: nat): seq<Event>
    requires ValidElements(cfg, es, named)
  {
    var n := (count + Count(es)) % TWO32;
    ElementsEvents(cfg, es, named) + [if named then EndObject(n) else EndArray(n)]
  }

  lemma ClosedMore(cfg: Config, es: Elements, named: bool, count: nat)
    requires ValidElements(cfg, es, named)
    ensures
      var first := NameEvents(cfg, es.name, named) + ValueEvents(cfg, es.value);
      var n := (count + 1) % TWO32;
      ClosedEvents(cfg, es, named, count)
      == first + if es.More? then ClosedEvents(cfg, es.next, named, n) else [if named then EndObject(n) else EndArray(n)]
  {
    hide NameEvents, ValueEvents, ValidJson, ValidName, ElementsEvents, Count, ClosedEvents;
    if es.More? {
      ClosedNext(cfg, es, named, count);
    } else {
      ClosedLast(cfg, es, named, count);
    }
  }

  lemma ClosedLast(cfg: Config, es: Elements, named: bool, count: nat)
    requires ValidElements(cfg, es, named) && !es.More?
    ensures
      var first := NameEvents(cfg, es.name, named) + ValueEvents(cfg, es.value);
      var n := (count + 1) % TWO32;
      ClosedEvents(cfg, es, named, count) == first + [if named then EndObject(n) else EndArray(n)]
  {
    hide NameEvents, ValueEvents, ValidJson, ValidName, ElementsEvents, Count;
    ElementsMore(cfg, es, named);
  }

  lemma ClosedNext(cfg: Config, es: Elements, named: bool, count: nat)
    requires ValidElements(cfg, es, named) && es.More?
    ensures
      var first := NameEvents(cfg, es.name, named) + ValueEvents(cfg, es.value);
      ClosedEvents(cfg, es, named, count) == first + ClosedEvents(cfg, es.next, named, (count + 1) % TWO32)
  {
    hide NameEvents, ValueEvents, ValidJson, ValidName, ElementsEvents, Count;
    ElementsMore(cfg, es, named);
    CountFurther(count, Count(es.next));
    var first := NameEvents(cfg, es.name, named) + ValueEvents(cfg, es.value);
    var n := (count + Count(es)) % TWO32;
    Regrouped(first, ElementsEvents(cfg, es.next, named), [if named then EndObject(n) else EndArray(n)]);
  }

  lemma ElementsMore(cfg: Config, es: Elements, named: bool)
    requires ValidElements(cfg, es, named)
    ensures Count(es) == if es.More? then 1 + Count(es.next) else 1
    ensures
      var first := NameEvents(cfg, es.name, named) + ValueEvents(cfg, es.value);
      ElementsEvents(cfg, es, named) == if es.More? then first + ElementsEvents(cfg, es.next, named) else first
  {
    hide NameEvents, ValueEvents, ValidJson, ValidName;
  }

  lemma Regrouped<T>(a: seq<T>, b: seq<T>, c: seq<T>)
    ensures a + b + c == a + (b + c)
  {}

  lemma CountFurther(n: nat, k: nat)
    ensures ((n + 1) % TWO32 + k) % TWO32 == (n + (1 + k)) % TWO32
  {}

  lemma AfterMore(es: Elements, close: Ch, rest: Text)
    requires es.More?
    ensures AfterText(es, close, rest) == Spaced(es.after, ',', SpaceText(es.before) + ElementsText(es.next, close, rest))
  {
    hide ElementsText, Spaced, SpaceText;
  }

  lemma AfterStops(cfg: Config, es: Elements, named: bool, close: Ch, rest: Text)
    requires ValidElements(cfg, es, named) && close in "]}"
    ensures Stops(es.value, AfterText(es, close, rest))
  {
    hide Skip, ElementsText, SpaceText, ValidName, CannotGoOn, Spaced;
    match es {
      case Last(_, _, after) => SpacedStart(cfg, after, close, rest);
      case Trailing(_, _, after, space) => SpacedStart(cfg, after, ',', Spaced(space, close, rest));
      case More(_, _, after, before, next) =>
        AfterMore(es, close, rest);
        SpacedStart(cfg, after, ',', SpaceText(before) + ElementsText(next, close, rest));
    }
    StopsBefore(es.value, AfterText(es, close, rest));
  }

  lemma {:induction false} ElementsRead(cfg: Config, es: Elements, rest: Text, ev: seq<Event>, count: nat)
    requires ValidElements(cfg, es, false) && Lets(cfg, ev, ClosedEvents(cfg, es, false, count))
    ensures ElementFrom(cfg, ElementsText(es, ']', rest), ev, count) == Ok(rest, ev + ClosedEvents(cfg, es, false, count))
    decreases es, 1
  {
    hide Lets, Emit, ValueFrom, AfterElement, AfterText, ValueText, ValueEvents, ValidJson, ClosedEvents, Stops;
    var first, n := ValueEvents(cfg, es.value), (count + 1) % TWO32;
    var more := if es.More? then ClosedEvents(cfg, es.next, false, n) else [EndArray(n)];
    ClosedMore(cfg, es, false, count);
    assert NameEvents(cfg, es.name, false) + first == first;
    LetsBoth(cfg, ev, first, more);
    AfterStops(cfg, es, false, ']', rest);
    ValueRead(cfg, es.value, AfterText(es, ']', rest), ev);
    ElementEndRead(cfg, es, rest, ev + first, n);
    Regrouped(ev, first, more);
    if es.More? {
      ElementsRead(cfg, es.next, rest, ev + first, n);
    } else {
      LetsOne(cfg, rest, ev + first, EndArray(n));
    }
  }

  lemma {:induction false} MembersRead(cfg: Config, es: Elements, rest: Text, ev: seq<Event>, count: nat)
    requires ValidElements(cfg, es, true) && Lets(cfg, ev, ClosedEvents(cfg, es, true, count))
    ensures MemberFrom(cfg, ElementsText(es, '}', rest), ev, count) == Ok(rest, ev + ClosedEvents(cfg, es, true, count))
    decreases es, 1
  {
    hide Lets, Emit, ValueFrom, AfterMember, AfterText, ValueText, ValueEvents, ValidJson, ClosedEvents, Stops, MemberFrom,
      NameText, NameEvents;
    var name, first, n := NameEvents(cfg, es.name, true), ValueEvents(cfg, es.value), (count + 1) % TWO32;
    var more := if es.More? then ClosedEvents(cfg, es.next, true, n) else [EndObject(n)];
    ClosedMore(cfg, es, true, count);
    Regrouped(name, first, more);
    LetsBoth(cfg, ev, name, first + more);
    LetsBoth(cfg, ev + name, first, more);
    AfterStops(cfg, es, true, '}', rest);
    var t := ValueText(es.value, AfterText(es, '}', rest));
    JsonFirst(cfg, es.value, AfterText(es, '}', rest));
    NameRead(cfg, es.name, t, ev, count);
    ValueRead(cfg, es.value, AfterText(es, '}', rest), ev + name);
    MemberEndRead(cfg, es, rest, ev + name + first, n);
    Regrouped(ev, name, first + more);
    Regrouped(ev + name, first, more);
    if es.More? {
      MembersRead(cfg, es.next, rest, ev + name + first, n);
    } else {
      LetsOne(cfg, rest, ev + name + first, EndObject(n));
    }
  }

  lemma {:induction false} ArrayRead(cfg: Config, p: Space, es: Elements, rest: Text, ev: seq<Event>)
    requires ValidJson(cfg, ArrayJson(p, es)) && Lets(cfg, ev, ValueEvents(cfg, ArrayJson(p, es)))
    ensures ValueFrom(cfg, ValueText(ArrayJson(p, es), rest), ev) == Ok(rest, ev + ValueEvents(cfg, ArrayJson(p, es)))
    decreases es, 2
  {
    hide Lets, Emit, Skip, ElementFrom, ElementsText, ElementsEvents, ValidElements, SpaceText;
    var u := ElementsText(es, ']', rest);
    var all := ClosedEvents(cfg, es, false, 0);
    LetsBoth(cfg, ev, [StartArray], all);
    LetsOne(cfg, SpaceText(p) + u, ev, StartArray);
    ElementsFirst(cfg, es, false, ']', rest);
    SpaceRead(cfg, p, u);
    ElementsRead(cfg, es, rest, ev + [StartArray], 0);
    var t := SpaceText(p) + u;
    assert (['['] + t)[1..] == t;
    assert ArrayFrom(cfg, t, ev) == ArrayStart(cfg, u, ev + [StartArray]);
    assert ArrayStart(cfg, u, ev + [StartArray]) == ElementFrom(cfg, u, ev + [StartArray], 0);
    Regrouped(ev, [StartArray], all);
  }

  lemma {:induction false} ObjectRead(cfg: Config, p: Space, es: Elements, rest: Text, ev: seq<Event>)
    requires ValidJson(cfg, ObjectJson(p, es)) && Lets(cfg, ev, ValueEvents(cfg, ObjectJson(p, es)))
    ensures ValueFrom(cfg, ValueText(ObjectJson(p, es), rest), ev) == Ok(rest, ev + ValueEvents(cfg, ObjectJson(p, es)))
    decreases es, 2
  {
    hide Lets, Emit, Skip, MemberFrom, ElementsText, ElementsEvents, ValidElements, SpaceText;
    var u := ElementsText(es, '}', rest);
    var all := ClosedEvents(cfg, es, true, 0);
    LetsBoth(cfg, ev, [StartObject], all);
    LetsOne(cfg, SpaceText(p) + u, ev, StartObject);
    ElementsFirst(cfg, es, true, '}', rest);
    SpaceRead(cfg, p, u);
    MembersRead(cfg, es, rest, ev + [StartObject], 0);
    var t := SpaceText(p) + u;
    assert (['{'] + t)[1..] == t;
    assert ObjectFrom(cfg, t, ev) == ObjectStart(cfg, u, ev + [StartObject]);
    assert ObjectStart(cfg, u, ev + [StartObject]) == MemberFrom(cfg, u, ev + [StartObject], 0);
    Regrouped(ev, [StartObject], all);
  }
}
