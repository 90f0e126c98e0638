/** Values as they are stored: numbers with their flags, strings in a value or in memory of their own. What they
    are replayed as does not depend on how they are stored. */
module JsonStored {
  import opened JsonDocument
  import opened JsonNumber
  import opened JsonStringValue
  import opened JsonText
  import opened JsonTree

  datatype Value =
    | NullValue | BoolValue(b: bool) | NumberValue(flags: Flags, n: Integer) | RealValue(text: Text)
    | StringCell(cell: Cell) | ArrayValue(elements: seq<Value>) | ObjectValue(pairs: seq<Pair>)

  datatype Pair = Pair(name: Cell, value: Value)

  /** Strings are stored whichever way, numbers by whichever constructor. */
  ghost predicate Represents(v: Value, t: Tree)
    decreases t
  {
    match t
    case Nothing => v == NullValue
    case Truth(b) => v == BoolValue(b)
    case Num(n) => v.NumberValue? && v.n == n && exists e :: IsInteger(e) && NumberOf(e) == n && v.flags == FlagsOf(e)
    case Real(text) => v == RealValue(text)
    case Str(s) => v.StringCell? && Stores(v.cell, s)
    case List(ts) =>
      v.ArrayValue? && |v.elements| == |ts| && forall i | 0 <= i < |ts| :: Represents(v.elements[i], ts[i])
    case Record(ms) =>
      v.ObjectValue? && |v.pairs| == |ms|
      && forall i | 0 <= i < |ms| :: Stores(v.pairs[i].name, ms[i].name) && Represents(v.pairs[i].value, ms[i].value)
  }

  // ---------- replaying ----------

  predicate Readable(v: Value) {
    match v
    case StringCell(c) => Sound(c)
    case ArrayValue(vs) => forall x <- vs :: Readable(x)
    case ObjectValue(ps) => forall p <- ps :: Sound(p.name) && Readable(p.value)
    case _ => true
  }

  /** The events of Accept: strings as they are read from their cells, numbers by their flags. */
  function Replay(v: Value): seq<Event>
    requires Readable(v)
  {
    match v
    case NullValue => [Null]
    case BoolValue(b) => [Bool(b)]
    case NumberValue(flags, n) => [Replayed(flags, n)]
    case RealValue(text) => [Double(text)]
    case StringCell(c) => [String(StringOf(c))]
    case ArrayValue(vs) => [StartArray] + ReplayElements(vs) + [EndArray(|vs| % TWO32)]
    case ObjectValue(ps) => [StartObject] + ReplayPairs(ps) + [EndObject(|ps| % TWO32)]
  }

  function ReplayElements(vs: seq<Value>): seq<Event>
    requires forall x <- vs :: Readable(x)
  {
    if vs == [] then [] else Replay(vs[0]) + ReplayElements(vs[1..])
  }

  function ReplayPairs(ps: seq<Pair>): seq<Event>
    requires forall p <- ps :: Sound(p.name) && Readable(p.value)
  {
    if ps == [] then []
    else
      var p := ps[0];
      assert p.value < p;
      [Key(StringOf(p.name))] + Replay(p.value) + ReplayPairs(ps[1..])
  }

  /** However a value is stored, it is replayed as the tree it stands for. */
  lemma {:induction false} ReplaysTree(v: Value, t: Tree)
    requires Represents(v, t)
    ensures Readable(v) && Replay(v) == Events(t, true)
    decreases t, 1
  {
    hide Stores, Sound, StringOf, FlagsOf, Replayed, Normal;
    match t
    case Num(n) =>
      var e :| IsInteger(e) && NumberOf(e) == n && v.flags == FlagsOf(e);
      ReplayedNormal(e);
    case Str(s) => Reads(v.cell, s);
    case List(ts) => ReplaysElements(v.elements, ts);
    case Record(ms) => ReplaysPairs(v.pairs, ms);
    case _ =>
  }

  lemma Reads(c: Cell, s: Text)
    requires Stores(c, s)
    ensures Sound(c) && StringOf(c) == s
  {}

  lemma {:induction false} ReplaysElements(vs: seq<Value>, ts: seq<Tree>)
    requires |vs| == |ts| && forall i | 0 <= i < |ts| :: Represents(vs[i], ts[i])
    ensures (forall x <- vs :: Readable(x)) && ReplayElements(vs) == ItemEvents(ts, true)
    decreases ts, 0
  {
    hide Represents, Replay, Events, Readable;
    if ts != [] {
      ReplaysTree(vs[0], ts[0]);
      ReplaysElements(vs[1..], ts[1..]);
      assert vs == [vs[0]] + vs[1..];
    }
  }

  lemma {:induction false} ReplaysPairs(ps: seq<Pair>, ms: seq<Member>)
    requires |ps| == |ms|
    requires forall i | 0 <= i < |ms| :: Stores(ps[i].name, ms[i].name) && Represents(ps[i].value, ms[i].value)
    ensures (forall p <- ps :: Sound(p.name) && Readable(p.value)) && ReplayPairs(ps) == MemberEvents(ms, true)
    decreases ms, 0
  {
    hide Represents, Replay, Events, Readable, Stores, Sound, StringOf;
    if ms != [] {
      Reads(ps[0].name, ms[0].name);
      ReplaysTree(ps[0].value, ms[0].value);
      ReplaysPairs(ps[1..], ms[1..]);
      assert ps == [ps[0]] + ps[1..];
    }
  }
}
