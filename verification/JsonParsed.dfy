/** Whatever text the reader accepts, it has told its handler the events of one value, and the document
    handler builds that value. */
module JsonParsed {
  import opened JsonDocument
  import opened JsonGrammar
  import opened JsonNumber
  import opened JsonString
  import opened JsonText
  import opened JsonTree

  /** An integer in its normal type. */
  function Canonical(e: Event): Event { if IsInteger(e) then Normal(NumberOf(e)) else e }

  function CanonicalAll(ev: seq<Event>): (c: seq<Event>) {
    seq(|ev|, i requires 0 <= i < |ev| => Canonical(ev[i]))
  }

  /** The events since ev are those of the value t, integers in their normal type. */
  predicate Tells(before: seq<Event>, after: seq<Event>, told: seq<Event>) {
    CanonicalAll(after) == CanonicalAll(before) + told
  }

  lemma TellsOne(before: seq<Event>, e: Event)
    ensures Tells(before, before + [e], [Canonical(e)])
  {}

  lemma TellsBoth(a: seq<Event>, b: seq<Event>, c: seq<Event>, x: seq<Event>, y: seq<Event>)
    requires Tells(a, b, x) && Tells(b, c, y)
    ensures Tells(a, c, x + y)
  {}

  // ---------- every accepted value ----------

  lemma {:induction false} ParsedValue(cfg: Config, s: Text, ev: seq<Event>) returns (t: Tree)
    requires |s| < TWO32 && ValueFrom(cfg, s, ev).Ok?
    ensures Sized(t) && Tells(ev, ValueFrom(cfg, s, ev).events, Events(t, true))
    decreases |s|, 0
  {
    hide Tells, Events, ObjectFrom, ArrayFrom, Scalar;
    match Peek(s)
    case '{' => t := ParsedObject(cfg, s[1..], ev);
    case '[' => t := ParsedArray(cfg, s[1..], ev);
    case _ => t := ParsedScalar(cfg, s, ev);
  }

  lemma ParsedScalar(cfg: Config, s: Text, ev: seq<Event>) returns (t: Tree)
    requires Scalar(cfg, s, ev).Ok?
    ensures Sized(t) && Tells(ev, Scalar(cfg, s, ev).events, Events(t, true))
  {
    hide Tells, Number, StringBody;
    match Peek(s)
    case 'n' =>
      t := Nothing;
      TellsOne(ev, Null);
    case 't' =>
      t := Truth(true);
      TellsOne(ev, Bool(true));
    case 'f' =>
      t := Truth(false);
      TellsOne(ev, Bool(false));
    case '"' =>
      t := Str(StringBody(s[1..]).value);
      TellsOne(ev, String(StringBody(s[1..]).value));
    case _ =>
      var e := Number(cfg, s).event;
      NumberEvent(cfg, s);
      t := if e.Double? then Real(e.text) else Num(NumberOf(e));
      TellsOne(ev, e);
  }

  lemma NumberEvent(cfg: Config, s: Text)
    requires Number(cfg, s).Numbered?
    ensures var e := Number(cfg, s).event; e.Double? || IsInteger(e)
  {
    hide NumberParts, Value, CountedDigits;
  }

  /** An array that is empty, or the text of its first element. */
  lemma ArrayOrEmpty(cfg: Config, s: Text, ev: seq<Event>) returns (empty: bool, first: Text)
    requires ArrayFrom(cfg, s, ev).Ok?
    ensures empty ==> ArrayFrom(cfg, s, ev).events == ev + [StartArray] + [EndArray(0)]
    ensures !empty ==> |first| <= |s| && ArrayFrom(cfg, s, ev) == ElementFrom(cfg, first, ev + [StartArray], 0)
  {
    hide Skip, ElementFrom;
    first := Skip(cfg, s).rest;
    empty := Peek(first) == ']';
    assert ArrayFrom(cfg, s, ev) == ArrayStart(cfg, first, ev + [StartArray]);
  }

  lemma {:induction false} ParsedArray(cfg: Config, s: Text, ev: seq<Event>) returns (t: Tree)
    requires |s| + 1 < TWO32 && ArrayFrom(cfg, s, ev).Ok?
    ensures Sized(t) && Tells(ev, ArrayFrom(cfg, s, ev).events, Events(t, true))
    decreases |s|, 4
  {
    hide Tells, ItemEvents, ElementFrom, ArrayFrom;
    var start, r := ev + [StartArray], ArrayFrom(cfg, s, ev);
    var empty, first := ArrayOrEmpty(cfg, s, ev);
    TellsOne(ev, StartArray);
    var ts := [];
    if empty {
      TellsOne(start, EndArray(0));
      NothingTold();
      assert [] + [EndArray(0)] == [EndArray(0)];
    } else {
      ts := ParsedElements(cfg, first, start, 0);
    }
    TellsBoth(ev, start, r.events, [StartArray], ItemEvents(ts, true) + [EndArray(|ts|)]);
    Concatenated([StartArray], ItemEvents(ts, true), [EndArray(|ts|)]);
    t := List(ts);
  }

  lemma NothingTold()
    ensures ItemEvents([], true) == [] && MemberEvents([], true) == []
  {}

  lemma Concatenated(a: seq<Event>, b: seq<Event>, c: seq<Event>)
    ensures a + (b + c) == a + b + c
  {}

  /** After an element: the end, or the text of the next element. */
  lemma ElementOrEnd(cfg: Config, s: Text, ev: seq<Event>, n: nat) returns (last: bool, more: Text)
    requires AfterElement(cfg, s, ev, n).Ok?
    ensures last ==> AfterElement(cfg, s, ev, n).events == ev + [EndArray(n)]
    ensures !last ==> |more| < |s| && AfterElement(cfg, s, ev, n) == ElementFrom(cfg, more, ev, n)
  {
    hide Skip, ElementFrom;
    var next := Skip(cfg, s).rest;
    last, more := Peek(next) != ',', [];
    assert AfterElement(cfg, s, ev, n) == ElementEnd(cfg, next, ev, n);
    if !last {
      more := Skip(cfg, next[1..]).rest;
      last := cfg.trailingCommas && Peek(more) == ']';
      assert ElementEnd(cfg, next, ev, n) == NextElement(cfg, more, ev, n);
    }
  }

  lemma FirstElement(cfg: Config, s: Text, ev: seq<Event>, n: nat)
    requires n + |s| < TWO32 && ElementFrom(cfg, s, ev, n).Ok?
    ensures
      var v := ValueFrom(cfg, s, ev);
      v.Ok? && |v.rest| < |s| && ElementFrom(cfg, s, ev, n) == AfterElement(cfg, v.rest, v.events, n + 1)
  {
    hide ValueFrom, AfterElement;
  }

  /** The elements from one on, and the end. */
  lemma {:induction false} ParsedElements(cfg: Config, s: Text, ev: seq<Event>, n: nat) returns (ts: seq<Tree>)
    requires n + |s| < TWO32 && ElementFrom(cfg, s, ev, n).Ok?
    ensures 0 < |ts| <= |s| && forall t <- ts :: Sized(t)
    ensures Tells(ev, ElementFrom(cfg, s, ev, n).events, ItemEvents(ts, true) + [EndArray(n + |ts|)])
    decreases |s|, 1
  {
    hide Tells, Events, ValueFrom, ElementFrom, AfterElement, Sized;
    var v, r := ValueFrom(cfg, s, ev), ElementFrom(cfg, s, ev, n);
    FirstElement(cfg, s, ev, n);
    var t := ParsedValue(cfg, s, ev);
    var last, more := ElementOrEnd(cfg, v.rest, v.events, n + 1);
    var tail := [];
    if last {
      TellsOne(v.events, EndArray(n + 1));
      NothingTold();
      assert [] + [EndArray(n + 1)] == [EndArray(n + 1)];
    } else {
      tail := ParsedElements(cfg, more, v.events, n + 1);
    }
    ts := [t] + tail;
    assert ts[1..] == tail;
    TellsBoth(ev, v.events, r.events, Events(t, true), ItemEvents(tail, true) + [EndArray(n + 1 + |tail|)]);
    Concatenated(Events(t, true), ItemEvents(tail, true), [EndArray(n + |ts|)]);
  }

  /** An object that is empty, or the text of its first member. */
  lemma ObjectOrEmpty(cfg: Config, s: Text, ev: seq<Event>) returns (empty: bool, first: Text)
    requires ObjectFrom(cfg, s, ev).Ok?
    ensures empty ==> ObjectFrom(cfg, s, ev).events == ev + [StartObject] + [EndObject(0)]
    ensures !empty ==> |first| <= |s| && ObjectFrom(cfg, s, ev) == MemberFrom(cfg, first, ev + [StartObject], 0)
  {
    hide Skip, MemberFrom;
    first := Skip(cfg, s).rest;
    empty := Peek(first) == '}';
    assert ObjectFrom(cfg, s, ev) == ObjectStart(cfg, first, ev + [StartObject]);
  }

  lemma {:induction false} ParsedObject(cfg: Config, s: Text, ev: seq<Event>) returns (t: Tree)
    requires |s| + 1 < TWO32 && ObjectFrom(cfg, s, ev).Ok?
    ensures Sized(t) && Tells(ev, ObjectFrom(cfg, s, ev).events, Events(t, true))
    decreases |s|, 4
  {
    hide Tells, MemberEvents, MemberFrom, ObjectFrom;
    var start, r := ev + [StartObject], ObjectFrom(cfg, s, ev);
    var empty, first := ObjectOrEmpty(cfg, s, ev);
    TellsOne(ev, StartObject);
    var ms := [];
    if empty {
      TellsOne(start, EndObject(0));
      NothingTold();
      assert [] + [EndObject(0)] == [EndObject(0)];
    } else {
      ms := ParsedMembers(cfg, first, start, 0);
    }
    TellsBoth(ev, start, r.events, [StartObject], MemberEvents(ms, true) + [EndObject(|ms|)]);
    Concatenated([StartObject], MemberEvents(ms, true), [EndObject(|ms|)]);
    t := Record(ms);
  }

  /** The name of a member and the text from its value on. */
  lemma ParsedName(cfg: Config, s: Text, ev: seq<Event>, n: nat) returns (name: Text, at: Text)
    requires MemberFrom(cfg, s, ev, n).Ok?
    ensures |at| < |s| && MemberFrom(cfg, s, ev, n) == MemberValueFrom(cfg, at, ev + [Key(name)], n)
  {
    hide Skip, StringBody, MemberValueFrom;
    var b := StringBody(s[1..]);
    name := b.value;
    var named := StringFrom(cfg, s, ev, true);
    assert named == Ok(b.rest, ev + [Key(name)]);
    var colon := Skip(cfg, b.rest).rest;
    assert MemberFrom(cfg, s, ev, n) == ColonFrom(cfg, colon, named.events, n);
    at := Skip(cfg, colon[1..]).rest;
  }

  /** After a member: the end, or the text of the next member. */
  lemma MemberOrEnd(cfg: Config, s: Text, ev: seq<Event>, n: nat) returns (last: bool, more: Text)
    requires AfterMember(cfg, s, ev, n).Ok?
    ensures last ==> AfterMember(cfg, s, ev, n).events == ev + [EndObject(n)]
    ensures !last ==> |more| < |s| && AfterMember(cfg, s, ev, n) == MemberFrom(cfg, more, ev, n)
  {
    hide Skip, MemberFrom;
    var next := Skip(cfg, s).rest;
    last, more := Peek(next) != ',', [];
    assert AfterMember(cfg, s, ev, n) == MemberEnd(cfg, next, ev, n);
    if !last {
      more := Skip(cfg, next[1..]).rest;
      last := cfg.trailingCommas && Peek(more) == '}';
      assert MemberEnd(cfg, next, ev, n) == NextMember(cfg, more, ev, n);
    }
  }

  /** The members from one on, and the end. */
  lemma {:induction false} ParsedMembers(cfg: Config, s: Text, ev: seq<Event>, n: nat) returns (ms: seq<Member>)
    requires n + |s| < TWO32 && MemberFrom(cfg, s, ev, n).Ok?
    ensures 0 < |ms| <= |s| && forall m <- ms :: Sized(m.value)
    ensures Tells(ev, MemberFrom(cfg, s, ev, n).events, MemberEvents(ms, true) + [EndObject(n + |ms|)])
    decreases |s|, 1
  {
    hide Tells, Events, ValueFrom, MemberFrom, AfterMember, Sized;
    var r := MemberFrom(cfg, s, ev, n);
    var name, at := ParsedName(cfg, s, ev, n);
    var named := ev + [Key(name)];
    var v := ValueFrom(cfg, at, named);
    assert r == AfterMember(cfg, v.rest, v.events, n + 1);
    var t := ParsedValue(cfg, at, named);
    var last, more := MemberOrEnd(cfg, v.rest, v.events, n + 1);
    var tail := [];
    if last {
      TellsOne(v.events, EndObject(n + 1));
      NothingTold();
      assert [] + [EndObject(n + 1)] == [EndObject(n + 1)];
    } else {
      tail := ParsedMembers(cfg, more, v.events, n + 1);
    }
    ms := [Member(name, t)] + tail;
    var rest := MemberEvents(tail, true) + [EndObject(n + |ms|)];
    assert ms[1..] == tail;
    TellsOne(ev, Key(name));
    TellsBoth(named, v.events, r.events, Events(t, true), rest);
    TellsBoth(ev, named, r.events, [Key(name)], Events(t, true) + rest);
    Concatenated(Events(t, true), MemberEvents(tail, true), [EndObject(n + |ms|)]);
    Concatenated([Key(name)], Events(t, true) + MemberEvents(tail, true), [EndObject(n + |ms|)]);
    Concatenated([Key(name)], Events(t, true), MemberEvents(tail, true));
  }

  // ---------- whole documents ----------

  /** Integers in another type build the same values. */
  lemma {:induction false} FeedCanonical(stack: seq<Tree>, ev: seq<Event>)
    ensures Feed(stack, CanonicalAll(ev)) == Feed(stack, ev)
    decreases |ev|
  {
    if ev != [] {
      hide Handled, Normal;
      HandledCanonical(stack, ev[0]);
      assert CanonicalAll(ev)[1..] == CanonicalAll(ev[1..]);
      var r := Handled(stack, ev[0]);
      if r.Built? {
        FeedCanonical(r.stack, ev[1..]);
      }
    }
  }

  lemma HandledCanonical(stack: seq<Tree>, e: Event)
    ensures Handled(stack, Canonical(e)) == Handled(stack, e)
  {}

  /** Every text below 4 GiB that the reader accepts leaves exactly one value in the document handler, and
      that value replays the events of the reader with integers in their normal type. */
  lemma ParsedDocument(cfg: Config, s: Text) returns (t: Tree)
    requires |s| < TWO32 && JsonGrammar.Document(cfg, s).Ok?
    ensures
      var ev := JsonGrammar.Document(cfg, s).events;
      Sized(t) && CanonicalAll(ev) == Events(t, true) && Feed([], ev) == Built([t])
  {
    var start := Skip(cfg, s).rest;
    var ev := JsonGrammar.Document(cfg, s).events;
    assert ev == ValueFrom(cfg, start, []).events;
    hide Skip, ValueFrom, Events, Feed, JsonGrammar.Document;
    t := ParsedValue(cfg, start, []);
    assert CanonicalAll([]) == [];
    assert [] + Events(t, true) == Events(t, true);
    BuiltValue(t, true);
    FeedCanonical([], ev);
  }

  /** The same, as a statement about texts. */
  lemma AcceptedTextsAreValues(cfg: Config, s: Text)
    requires |s| < TWO32 && JsonGrammar.Document(cfg, s).Ok?
    ensures
      var ev := JsonGrammar.Document(cfg, s).events;
      exists t :: Sized(t) && CanonicalAll(ev) == Events(t, true) && Feed([], ev) == Built([t])
  {
    hide JsonGrammar.Document, Feed, CanonicalAll, Events;
    var t := ParsedDocument(cfg, s);
  }
}
