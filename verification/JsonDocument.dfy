/** GenericDocument: the handler that builds values on a stack, and values that replay their events into a
    writer. Printing and parsing a value gives the same value back. */
module JsonDocument {
  import opened JsonGrammar
  import opened JsonPrinter
  import opened JsonText
  import opened JsonTree
  import opened JsonWriter

  // ---------- the handler ----------

  /** The values on the stack, or a pop of values that are not there or of a name that is no string. */
  datatype Built = Built(stack: seq<Tree>) | Underflow

  /** Names and values in turn, as members lie on the stack. */
  function Flat(ms: seq<Member>): (vs: seq<Tree>)
    ensures |vs| == 2 * |ms|
  {
    if ms == [] then [] else [Str(ms[0].name), ms[0].value] + Flat(ms[1..])
  }

  predicate NamesAndValues(vs: seq<Tree>) {
    if |vs| < 2 then vs == [] else vs[0].Str? && NamesAndValues(vs[2..])
  }

  function MembersOf(vs: seq<Tree>): (ms: seq<Member>)
    requires NamesAndValues(vs)
    ensures 2 * |ms| == |vs|
  {
    if vs == [] then [] else [Member(vs[0].s, vs[1])] + MembersOf(vs[2..])
  }

  function Handled(stack: seq<Tree>, e: Event): Built {
    match e
    case Null => Built(stack + [Nothing])
    case Bool(b) => Built(stack + [Truth(b)])
    case Double(text) => Built(stack + [Real(text)])
    case String(s) => Built(stack + [Str(s)])
    case Key(s) => Built(stack + [Str(s)])
    case StartObject => Built(stack + [Record([])])
    case StartArray => Built(stack + [List([])])
    case EndObject(n) => EndedObject(stack, n)
    case EndArray(n) => EndedArray(stack, n)
    case _ => if IsInteger(e) then Built(stack + [Num(NumberOf(e))]) else Underflow
  }

  /** Pop the elements; the value below them becomes the array. */
  function EndedArray(stack: seq<Tree>, n: nat): Built {
    if |stack| <= n then Underflow
    else
      var k := |stack| - n;
      Built(stack[..k - 1] + [List(stack[k..])])
  }

  function EndedObject(stack: seq<Tree>, n: nat): Built {
    if |stack| <= 2 * n then Underflow
    else
      var k := |stack| - 2 * n;
      if !NamesAndValues(stack[k..]) then Underflow else Built(stack[..k - 1] + [Record(MembersOf(stack[k..]))])
  }

  function Feed(stack: seq<Tree>, ev: seq<Event>): Built
    decreases |ev|
  {
    if ev == [] then Built(stack)
    else
      var r := Handled(stack, ev[0]);
      if r.Underflow? then r else Feed(r.stack, ev[1..])
  }

  class Document {
    var stack: seq<Tree>

    constructor ()
      ensures stack == []
    {
      stack := [];
    }

    method Push(t: Tree)
      modifies this
      ensures stack == old(stack) + [t]
    {
      stack := stack + [t];
    }

    method EndArray(elementCount: nat)
      requires EndedArray(stack, elementCount).Built?
      modifies this
      ensures stack == EndedArray(old(stack), elementCount).stack
    {
      var k := |stack| - elementCount;
      var elements := stack[k..];
      stack := stack[..k];
      stack := stack[k - 1 := List(elements)];
    }

    method EndObject(memberCount: nat)
      requires EndedObject(stack, memberCount).Built?
      modifies this
      ensures stack == EndedObject(old(stack), memberCount).stack
    {
      var k := |stack| - 2 * memberCount;
      var values := stack[k..];
      stack := stack[..k];
      stack := stack[k - 1 := Record(MembersOf(values))];
    }

    method Handle(e: Event)
      requires Handled(stack, e).Built?
      modifies this
      ensures stack == Handled(old(stack), e).stack
    {
      match e
      case Null => Push(Nothing);
      case Bool(b) => Push(Truth(b));
      case Double(text) => Push(Real(text));
      case String(s) => Push(Str(s));
      case Key(s) => Push(Str(s));
      case StartObject => Push(Record([]));
      case StartArray => Push(List([]));
      case EndObject(n) => EndObject(n);
      case EndArray(n) => EndArray(n);
      case _ => Push(Num(NumberOf(e)));
    }

    /** Take the events of a generator; exactly one value must be left. */
    method Populate(ev: seq<Event>) returns (t: Tree)
      requires stack == [] && Feed([], ev).Built? && |Feed([], ev).stack| == 1
      modifies this
      ensures stack == [] && Feed([], ev) == Built([t])
    {
      var i := 0;
      while i < |ev|
        invariant 0 <= i <= |ev| && Feed(stack, ev[i..]) == Feed([], ev)
      {
        assert ev[i..][1..] == ev[i + 1..];
        Handle(ev[i]);
        i := i + 1;
      }
      t := stack[0];
      stack := [];
    }
  }

  // ---------- the events of one value leave that value ----------

  /** The events of a value push exactly that value, whatever lies on the stack and comes after. */
  lemma {:induction false} FeedValue(t: Tree, replay: bool, stack: seq<Tree>, more: seq<Event>)
    requires Sized(t)
    ensures Feed(stack, Events(t, replay) + more) == Feed(stack + [t], more)
    decreases t, 1
  {
    hide Feed;
    match t
    case List(ts) => FeedList(ts, replay, stack, more);
    case Record(ms) => FeedRecord(ms, replay, stack, more);
    case Num(n) =>
      ReadInRange(n);
      FeedOne(stack, if replay then Normal(n) else Read(n), more);
    case _ => FeedOne(stack, Events(t, replay)[0], more);
  }

  lemma FeedList(ts: seq<Tree>, replay: bool, stack: seq<Tree>, more: seq<Event>)
    requires Sized(List(ts))
    ensures Feed(stack, Events(List(ts), replay) + more) == Feed(stack + [List(ts)], more)
    decreases ts, 1
  {
    hide Feed, ItemEvents;
    var end := [EndArray(|ts|)] + more;
    assert Events(List(ts), replay) + more == [StartArray] + (ItemEvents(ts, replay) + end);
    FeedOne(stack, StartArray, ItemEvents(ts, replay) + end);
    FeedItems(ts, replay, stack + [List([])], end);
    FeedOne(stack + [List([])] + ts, EndArray(|ts|), more);
    ListEnded(stack, ts);
  }

  lemma FeedRecord(ms: seq<Member>, replay: bool, stack: seq<Tree>, more: seq<Event>)
    requires Sized(Record(ms))
    ensures Feed(stack, Events(Record(ms), replay) + more) == Feed(stack + [Record(ms)], more)
    decreases ms, 1
  {
    hide Feed, MemberEvents;
    var end := [EndObject(|ms|)] + more;
    assert Events(Record(ms), replay) + more == [StartObject] + (MemberEvents(ms, replay) + end);
    FeedOne(stack, StartObject, MemberEvents(ms, replay) + end);
    FeedMembers(ms, replay, stack + [Record([])], end);
    FeedOne(stack + [Record([])] + Flat(ms), EndObject(|ms|), more);
    RecordEnded(stack, ms);
  }

  lemma FeedOne(stack: seq<Tree>, e: Event, more: seq<Event>)
    ensures var r := Handled(stack, e); Feed(stack, [e] + more) == if r.Underflow? then r else Feed(r.stack, more)
  {}

  lemma ListEnded(stack: seq<Tree>, ts: seq<Tree>)
    ensures EndedArray(stack + [List([])] + ts, |ts|) == Built(stack + [List(ts)])
  {}

  lemma RecordEnded(stack: seq<Tree>, ms: seq<Member>)
    ensures EndedObject(stack + [Record([])] + Flat(ms), |ms|) == Built(stack + [Record(ms)])
  {
    var s := stack + [Record([])] + Flat(ms);
    assert s[|stack| + 1..] == Flat(ms) && s[..|stack|] == stack;
    FlatMembers(ms);
  }

  lemma {:induction false} FlatMembers(ms: seq<Member>)
    ensures NamesAndValues(Flat(ms)) && MembersOf(Flat(ms)) == ms
  {
    if ms != [] {
      FlatMembers(ms[1..]);
      assert Flat(ms)[2..] == Flat(ms[1..]);
    }
  }

  lemma {:induction false} FeedItems(ts: seq<Tree>, replay: bool, stack: seq<Tree>, more: seq<Event>)
    requires forall t <- ts :: Sized(t)
    ensures Feed(stack, ItemEvents(ts, replay) + more) == Feed(stack + ts, more)
    decreases ts, 0
  {
    hide Feed, Events;
    if ts == [] {
      assert [] + more == more && stack + ts == stack;
    } else {
      var tail := ItemEvents(ts[1..], replay) + more;
      assert ItemEvents(ts, replay) + more == Events(ts[0], replay) + tail;
      FeedValue(ts[0], replay, stack, tail);
      FeedItems(ts[1..], replay, stack + [ts[0]], more);
      assert stack + [ts[0]] + ts[1..] == stack + ts;
    }
  }

  lemma {:induction false} FeedMembers(ms: seq<Member>, replay: bool, stack: seq<Tree>, more: seq<Event>)
    requires forall m <- ms :: Sized(m.value)
    ensures Feed(stack, MemberEvents(ms, replay) + more) == Feed(stack + Flat(ms), more)
    decreases ms, 0
  {
    hide Feed, Events;
    if ms == [] {
      assert [] + more == more && stack + Flat(ms) == stack;
    } else {
      var name := Str(ms[0].name);
      var tail := MemberEvents(ms[1..], replay) + more;
      var value := Events(ms[0].value, replay) + tail;
      assert MemberEvents(ms, replay) + more == [Key(ms[0].name)] + value;
      FeedOne(stack, Key(ms[0].name), value);
      FeedValue(ms[0].value, replay, stack + [name], tail);
      FeedMembers(ms[1..], replay, stack + [name] + [ms[0].value], more);
      assert stack + [name] + [ms[0].value] + Flat(ms[1..]) == stack + Flat(ms);
    }
  }

  /** The events of a value, read or replayed, build exactly that value; replaying them again gives the
      integers in their normal type. */
  lemma BuiltValue(t: Tree, replay: bool)
    requires Sized(t)
    ensures Feed([], Events(t, replay)) == Built([t])
  {
    FeedValue(t, replay, [], []);
    assert Events(t, replay) + [] == Events(t, replay) && [] + [t] == [t];
  }

  /** For all flags and formats: a printed value is parsed into the same value. */
  lemma PrintedParsed(cfg: Config, f: Format, t: Tree)
    requires Accepting(cfg) && Exact(t) && Sized(t)
    ensures
      var r := JsonGrammar.Document(cfg, Print(f, 0, t, []));
      r.Ok? && r.rest == [] && Feed([], r.events) == Built([t])
  {
    hide Feed, Print, JsonGrammar.Document;
    PrintedDocument(cfg, f, t);
    BuiltValue(t, false);
  }
}
