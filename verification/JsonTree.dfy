/** JSON values as trees, the flags that number values carry, and the events a value is replayed as. */
module JsonTree {
  import opened JsonNumber
  import opened JsonText

  type Integer = n: int | 0 - TWO63 <= n < TWO64 witness 0

  datatype Tree =
    | Nothing | Truth(b: bool) | Num(n: Integer) | Real(text: Text) | Str(s: Text)
    | List(items: seq<Tree>) | Record(members: seq<Member>)

  datatype Member = Member(name: Text, value: Tree)

  /** Sizes are kept in 32 bits. */
  predicate Sized(t: Tree) {
    match t
    case List(items) => |items| < TWO32 && forall x <- items :: Sized(x)
    case Record(members) => |members| < TWO32 && forall m <- members :: Sized(m.value)
    case _ => true
  }

  /** No doubles. */
  predicate Exact(t: Tree) {
    match t
    case Real(_) => false
    case List(items) => forall x <- items :: Exact(x)
    case Record(members) => forall m <- members :: Exact(m.value)
    case _ => true
  }

  // ---------- the flags of numbers ----------

  datatype Flags = Flags(isInt: bool, isUint: bool, isInt64: bool, isUint64: bool)

  predicate IsInteger(e: Event) {
    match e
    case Int(n) => 0 - TWO31 <= n < TWO31
    case Uint(n) => 0 <= n < TWO32
    case Int64(n) => 0 - TWO63 <= n < TWO63
    case Uint64(n) => 0 <= n < TWO64
    case _ => false
  }

  function NumberOf(e: Event): Integer
    requires IsInteger(e)
  {
    match e
    case Int(n) => n
    case Uint(n) => n
    case Int64(n) => n
    case Uint64(n) => n
  }

  /** The flags that the constructor for an integer type sets. The masks of the source test bits of the
      unsigned value, that is, whether it is below a power of two. */
  function FlagsOf(e: Event): Flags
    requires IsInteger(e)
  {
    match e
    case Int(n) => if n >= 0 then Flags(true, true, true, true) else Flags(true, false, true, false)
    case Uint(n) => if n / TWO31 % 2 == 1 then Flags(false, true, true, true) else Flags(true, true, true, true)
    case Int64(n) =>
      if n >= 0 then Flags(n / TWO31 == 0, n / TWO32 == 0, true, true) else Flags(n >= 0 - TWO31, false, true, false)
    case Uint64(n) => Flags(n / TWO31 == 0, n / TWO32 == 0, n / TWO63 % 2 == 0, true)
  }

  /** The event a number with these flags is replayed as. */
  function Replayed(f: Flags, n: Integer): Event {
    if f.isInt then Int(n) else if f.isUint then Uint(n) else if f.isInt64 then Int64(n) else Uint64(n)
  }

  /** The first of the four types that holds the number. */
  function Normal(n: Integer): (e: Event)
    ensures IsInteger(e) && NumberOf(e) == n
  {
    if 0 - TWO31 <= n < TWO31 then Int(n)
    else if 0 <= n < TWO32 then Uint(n)
    else if n < TWO63 then Int64(n)
    else Uint64(n)
  }

  /** Whichever constructor has stored a number, it is replayed as the first type that holds it. */
  lemma ReplayedNormal(e: Event)
    requires IsInteger(e)
    ensures Replayed(FlagsOf(e), NumberOf(e)) == Normal(NumberOf(e))
  {
    match e
    case Int(n) =>
    case Uint(n) => Quotients(n);
    case Int64(n) => if n >= 0 { Quotients(n); }
    case Uint64(n) => Quotients(n);
  }

  lemma Quotients(n: nat)
    requires n < TWO64
    ensures n / TWO31 == 0 <==> n < TWO31
    ensures n / TWO32 == 0 <==> n < TWO32
    ensures n < TWO32 ==> (n / TWO31 % 2 == 1 <==> n >= TWO31)
    ensures n / TWO63 % 2 == 0 <==> n < TWO63
  {}

  // ---------- the events of a tree ----------

  /** The integer event of the reader. */
  function Read(n: Integer): Event { if n < 0 then IntegerEvent(true, 0 - n) else IntegerEvent(false, n) }

  /** The events of a value: replayed from a tree, or from the reader. */
  function Events(t: Tree, replay: bool): (ev: seq<Event>)
    ensures ev != []
  {
    match t
    case Nothing => [Null]
    case Truth(b) => [Bool(b)]
    case Num(n) => [if replay then Normal(n) else Read(n)]
    case Real(text) => [Double(text)]
    case Str(s) => [String(s)]
    case List(items) => [StartArray] + ItemEvents(items, replay) + [EndArray(|items| % TWO32)]
    case Record(members) => [StartObject] + MemberEvents(members, replay) + [EndObject(|members| % TWO32)]
  }

  function ItemEvents(ts: seq<Tree>, replay: bool): seq<Event> {
    if ts == [] then [] else Events(ts[0], replay) + ItemEvents(ts[1..], replay)
  }

  function MemberEvents(ms: seq<Member>, replay: bool): seq<Event> {
    if ms == [] then [] else [Key(ms[0].name)] + Events(ms[0].value, replay) + MemberEvents(ms[1..], replay)
  }

  lemma ReadInRange(n: Integer)
    ensures IsInteger(Read(n)) && NumberOf(Read(n)) == n
  {}
}
