/** GenericValue::Accept with a writer as the handler: the writer prints the value. */
module JsonAccept {
  import opened JsonPrinter
  import opened JsonText
  import opened JsonTree
  import opened JsonWriter

  /** What is left to write of a list after i elements. */
  function LeftItems(f: Format, d: nat, ts: seq<Tree>, i: nat): Text
    requires i <= |ts| && Exact(List(ts))
  {
    if i > 0 then MoreItems(f, d, ts[i..], [])
    else if ts == [] then []
    else ElementSpace(f, d, true) + Print(f, d, ts[0], MoreItems(f, d, ts[1..], []))
  }

  function LeftMembers(f: Format, d: nat, ms: seq<Member>, i: nat): Text
    requires i <= |ms| && Exact(Record(ms))
  {
    if i > 0 then MoreMembers(f, d, ms[i..], [])
    else if ms == [] then []
    else NameSpace(f, d) + MemberText(f, d, ms, [])
  }

  function CommaIf(more: bool): Text { if more then [','] else [] }

  lemma LeftItemsStep(f: Format, d: nat, ts: seq<Tree>, i: nat)
    requires i < |ts| && Exact(List(ts))
    ensures LeftItems(f, d, ts, i)
         == CommaIf(i > 0) + (ElementSpace(f, d, i == 0) + (Print(f, d, ts[i], []) + LeftItems(f, d, ts, i + 1)))
  {
    var more := MoreItems(f, d, ts[i + 1..], []);
    assert ts[i..][1..] == ts[i + 1..] && ts[i..][0] == ts[i];
    assert LeftItems(f, d, ts, i + 1) == more;
    hide Print, ElementSpace;
    assert LeftItems(f, d, ts, i) == CommaIf(i > 0) + (ElementSpace(f, d, i == 0) + Print(f, d, ts[i], more));
    PrintThen(f, d, ts[i], more);
  }

  lemma LeftMembersStep(f: Format, d: nat, ms: seq<Member>, i: nat)
    requires i < |ms| && Exact(Record(ms))
    ensures LeftMembers(f, d, ms, i)
         == CommaIf(i > 0) + (NameSpace(f, d) + (Quoted(ms[i].name, []) + ([':'] + (ValueSpace(f)
            + (Print(f, d, ms[i].value, []) + LeftMembers(f, d, ms, i + 1))))))
  {
    LeftMembersCases(f, d, ms, i);
    var more := MoreMembers(f, d, ms[i + 1..], []);
    hide Print, NameSpace, ValueSpace, Quoted, MoreMembers, LeftMembers;
    PrintThen(f, d, ms[i].value, more);
    var value := [':'] + (ValueSpace(f) + (Print(f, d, ms[i].value, []) + more));
    assert [] + value == value;
    QuotedThen(ms[i].name, [], value);
  }

  lemma LeftMembersCases(f: Format, d: nat, ms: seq<Member>, i: nat)
    requires i < |ms| && Exact(Record(ms))
    ensures LeftMembers(f, d, ms, i + 1) == MoreMembers(f, d, ms[i + 1..], [])
    ensures
      var value := Print(f, d, ms[i].value, MoreMembers(f, d, ms[i + 1..], []));
      LeftMembers(f, d, ms, i) == CommaIf(i > 0) + (NameSpace(f, d) + Quoted(ms[i].name, [':'] + (ValueSpace(f) + value)))
  {
    hide Print, NameSpace, ValueSpace, Quoted;
    assert ms[i..][1..] == ms[i + 1..] && ms[i..][0] == ms[i];
    assert LeftMembers(f, d, ms, i) == CommaIf(i > 0) + (NameSpace(f, d) + MemberText(f, d, ms[i..], []));
  }

  /** The text of a list, as the writer puts it together. */
  lemma ListParts(f: Format, d: nat, ts: seq<Tree>)
    requires Exact(List(ts))
    ensures Print(f, d, List(ts), [])
         == ['['] + LeftItems(f, d + 1, ts, 0) + (if ts == [] then [] else EndSpace(f, d, true)) + [']']
  {
    hide ElementSpace, EndSpace, MoreItems;
    if ts == [] {
      assert ['['] + ([']'] + []) == ['['] + [] + [] + [']'];
    } else {
      var end := End(f, d, true, []);
      ItemsThen(f, d + 1, ts, [], end);
      assert [] + end == end;
      assert end == EndSpace(f, d, true) + [']'];
    }
  }

  lemma RecordParts(f: Format, d: nat, ms: seq<Member>)
    requires Exact(Record(ms))
    ensures Print(f, d, Record(ms), [])
         == ['{'] + LeftMembers(f, d + 1, ms, 0) + (if ms == [] then [] else EndSpace(f, d, false)) + ['}']
  {
    hide NameSpace, EndSpace, MemberText;
    if ms == [] {
      assert ['{'] + (['}'] + []) == ['{'] + [] + [] + ['}'];
    } else {
      var end := End(f, d, false, []);
      MembersThen(f, d + 1, ms, [], end);
      assert [] + end == end;
      assert end == EndSpace(f, d, false) + ['}'];
    }
  }

  /** Replay the events of a value into a writer: it writes the text of the value. */
  method Accept(t: Tree, w: Writer)
    requires Exact(t) && MayWrite(w.State(), t.Str?)
    modifies w
    ensures w.State() == WithValue(w.format, old(w.State()), Print(w.format, |old(w.levels)|, t, []))
    decreases t
  {
    match t
    case Nothing => w.Null();
    case Truth(b) => w.Bool(b);
    case Num(n) => w.Integer(Normal(n));
    case Str(s) => w.String(s);
    case List(ts) => AcceptList(ts, w);
    case Record(ms) => AcceptRecord(ms, w);
  }

  /** The writer after i elements of a list. */
  predicate AtItem(f: Format, start: Written, w: Written, ts: seq<Tree>, i: nat)
    requires Exact(List(ts)) && start.levels != [] && i <= |ts|
  {
    var n := |start.levels| - 1;
    && w.levels == start.levels[n := Level(true, i)] && w.hasRoot
    && w.out + LeftItems(f, n + 1, ts, i) == start.out + LeftItems(f, n + 1, ts, 0)
  }

  lemma NextItem(f: Format, start: Written, w: Written, ts: seq<Tree>, i: nat)
    requires Exact(List(ts)) && start.levels != [] && i < |ts| && AtItem(f, start, w, ts, i)
    ensures MayWrite(w, false)
    ensures AtItem(f, start, WithValue(f, w, Print(f, |w.levels|, ts[i], [])), ts, i + 1)
  {
    hide Print, LeftItems, ElementSpace;
    LeftItemsStep(f, |start.levels|, ts, i);
    Chain(w.out, CommaIf(i > 0), ElementSpace(f, |start.levels|, i == 0), [], [], [],
      Print(f, |start.levels|, ts[i], []), LeftItems(f, |start.levels|, ts, i + 1));
  }

  function Open(inArray: bool): Text { if inArray then ['['] else ['{'] }

  function Close(inArray: bool): Text { if inArray then [']'] else ['}'] }

  /** A container that ends. */
  lemma Ended(f: Format, w0: Written, w: Written, inArray: bool, count: nat, left: Text)
    requires inArray || count % 2 == 0
    requires w.out == w0.out + Before(f, w0.levels) + Open(inArray) + left && w.hasRoot
    requires w.levels == CountedValue(w0.levels) + [Level(inArray, count)]
    ensures MayEnd(w, inArray)
    ensures WithEnd(f, w, inArray)
         == WithValue(f, w0, Open(inArray) + left + (if count == 0 then [] else EndSpace(f, |w0.levels|, inArray)) + Close(inArray))
  {
    CountedLength(w0.levels);
    hide EndSpace, Before, CountedValue;
    assert w.levels[..|w0.levels|] == CountedValue(w0.levels);
  }

  lemma CountedLength(levels: seq<Level>)
    ensures |CountedValue(levels)| == |levels|
  {}

  lemma ItemsWritten(f: Format, start: Written, w: Written, ts: seq<Tree>)
    requires Exact(List(ts)) && start.levels != [] && AtItem(f, start, w, ts, |ts|)
    ensures w.out == start.out + LeftItems(f, |start.levels|, ts, 0) && w.hasRoot
    ensures w.levels == start.levels[|start.levels| - 1 := Level(true, |ts|)]
  {}

  lemma LastItem(f: Format, w0: Written, w: Written, ts: seq<Tree>)
    requires Exact(List(ts)) && AtItem(f, WithStart(f, w0, true), w, ts, |ts|)
    ensures MayEnd(w, true) && WithEnd(f, w, true) == WithValue(f, w0, Print(f, |w0.levels|, List(ts), []))
  {
    hide AtItem, Print, LeftItems, EndSpace, Before, CountedValue, WithEnd, MayEnd, Exact;
    ItemsWritten(f, WithStart(f, w0, true), w, ts);
    ListParts(f, |w0.levels|, ts);
    CountedLength(w0.levels);
    Ended(f, w0, w, true, |ts|, LeftItems(f, |w0.levels| + 1, ts, 0));
  }

  method AcceptList(ts: seq<Tree>, w: Writer)
    requires Exact(List(ts)) && MayWrite(w.State(), false)
    modifies w
    ensures w.State() == WithValue(w.format, old(w.State()), Print(w.format, |old(w.levels)|, List(ts), []))
    decreases ts
  {
    ghost var w0 := w.State();
    w.Start(true);
    ghost var start := w.State();
    StartedItems(w.format, w0, ts);
    hide WithStart, WithValue, WithEnd, MayWrite, MayEnd, AtItem;
    var i := 0;
    while i < |ts|
      invariant 0 <= i <= |ts| && AtItem(w.format, start, w.State(), ts, i)
    {
      NextItem(w.format, start, w.State(), ts, i);
      MayWriteAny(w.State(), ts[i].Str?);
      Accept(ts[i], w);
      i := i + 1;
    }
    LastItem(w.format, w0, w.State(), ts);
    w.End(true);
  }

  lemma MayWriteAny(w: Written, isString: bool)
    requires MayWrite(w, false)
    ensures MayWrite(w, isString)
  {}

  lemma StartedItems(f: Format, w0: Written, ts: seq<Tree>)
    requires Exact(List(ts))
    ensures var start := WithStart(f, w0, true); start.levels != [] && AtItem(f, start, start, ts, 0)
  {}

  /** The writer after i members of a record. */
  predicate AtMember(f: Format, start: Written, w: Written, ms: seq<Member>, i: nat)
    requires Exact(Record(ms)) && start.levels != [] && i <= |ms|
  {
    var n := |start.levels| - 1;
    && w.levels == start.levels[n := Level(false, 2 * i)] && w.hasRoot
    && w.out + LeftMembers(f, n + 1, ms, i) == start.out + LeftMembers(f, n + 1, ms, 0)
  }

  lemma NextMember(f: Format, start: Written, w: Written, ms: seq<Member>, i: nat)
    requires Exact(Record(ms)) && start.levels != [] && i < |ms| && AtMember(f, start, w, ms, i)
    ensures MayWrite(w, true)
    ensures
      var named := WithValue(f, w, Quoted(ms[i].name, []));
      MayWrite(named, false)
      && AtMember(f, start, WithValue(f, named, Print(f, |named.levels|, ms[i].value, [])), ms, i + 1)
  {
    hide Print, LeftMembers, NameSpace, ValueSpace, Quoted;
    LeftMembersStep(f, |start.levels|, ms, i);
    var named := WithValue(f, w, Quoted(ms[i].name, []));
    assert named.levels == start.levels[|start.levels| - 1 := Level(false, 2 * i + 1)];
    assert named.out == w.out + (CommaIf(i > 0) + NameSpace(f, |start.levels|)) + Quoted(ms[i].name, []);
    Chain(w.out, CommaIf(i > 0), NameSpace(f, |start.levels|), Quoted(ms[i].name, []), [':'], ValueSpace(f),
      Print(f, |start.levels|, ms[i].value, []), LeftMembers(f, |start.levels|, ms, i + 1));
  }

  lemma Chain(a: Text, b: Text, c: Text, d: Text, e: Text, g: Text, h: Text, k: Text)
    ensures a + (b + (c + (d + (e + (g + (h + k)))))) == a + (b + c) + d + (e + g) + h + k
    ensures a + (b + (c + (h + k))) == a + (b + c) + h + k
  {}

  lemma MembersWritten(f: Format, start: Written, w: Written, ms: seq<Member>)
    requires Exact(Record(ms)) && start.levels != [] && AtMember(f, start, w, ms, |ms|)
    ensures w.out == start.out + LeftMembers(f, |start.levels|, ms, 0) && w.hasRoot
    ensures w.levels == start.levels[|start.levels| - 1 := Level(false, 2 * |ms|)]
  {}

  lemma LastMember(f: Format, w0: Written, w: Written, ms: seq<Member>)
    requires Exact(Record(ms)) && AtMember(f, WithStart(f, w0, false), w, ms, |ms|)
    ensures MayEnd(w, false) && WithEnd(f, w, false) == WithValue(f, w0, Print(f, |w0.levels|, Record(ms), []))
  {
    hide AtMember, Print, LeftMembers, EndSpace, Before, CountedValue, WithEnd, MayEnd, Exact;
    MembersWritten(f, WithStart(f, w0, false), w, ms);
    RecordParts(f, |w0.levels|, ms);
    CountedLength(w0.levels);
    Ended(f, w0, w, false, 2 * |ms|, LeftMembers(f, |w0.levels| + 1, ms, 0));
  }

  method AcceptRecord(ms: seq<Member>, w: Writer)
    requires Exact(Record(ms)) && MayWrite(w.State(), false)
    modifies w
    ensures w.State() == WithValue(w.format, old(w.State()), Print(w.format, |old(w.levels)|, Record(ms), []))
    decreases ms
  {
    ghost var w0 := w.State();
    w.Start(false);
    ghost var start := w.State();
    StartedMembers(w.format, w0, ms);
    hide WithStart, WithValue, WithEnd, MayWrite, MayEnd, AtMember;
    var i := 0;
    while i < |ms|
      invariant 0 <= i <= |ms| && AtMember(w.format, start, w.State(), ms, i)
    {
      NextMember(w.format, start, w.State(), ms, i);
      w.String(ms[i].name);
      MayWriteAny(w.State(), ms[i].value.Str?);
      Accept(ms[i].value, w);
      i := i + 1;
    }
    LastMember(w.format, w0, w.State(), ms);
    w.End(false);
  }

  lemma StartedMembers(f: Format, w0: Written, ms: seq<Member>)
    requires Exact(Record(ms))
    ensures var start := WithStart(f, w0, false); start.levels != [] && AtMember(f, start, start, ms, 0)
  {}
}
