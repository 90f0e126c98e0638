/** Strings inside a value: short ones in its own bytes, with their length in the last of them, long ones in
    memory of their own. */
module JsonStringValue {
  import opened JsonString
  import opened JsonText

  /** The characters a value has room for in itself, with the terminator: 14 where addresses take 32 or 48 bits,
      22 with full 64-bit pointers. */
  type Capacity = n: int | 1 <= n <= 128 witness 14

  /** The storage of a string, as values: the characters in the value, or those behind the pointer. */
  datatype Cell = Inline(chars: Text) | Heap(memory: Text, length: nat)

  predicate Sound(c: Cell) {
    match c
    case Inline(chars) => 1 <= |chars| <= 128 && chars[|chars| - 1] as int < |chars|
    case Heap(memory, length) => length < |memory|
  }

  /** MaxSize minus the last character: with the maximal length it is the terminator as well. */
  function StringLength(c: Cell): nat
    requires Sound(c)
  {
    match c
    case Inline(chars) => |chars| - 1 - chars[|chars| - 1] as int
    case Heap(_, length) => length
  }

  function Characters(c: Cell): Text {
    match c
    case Inline(chars) => chars
    case Heap(memory, _) => memory
  }

  function StringOf(c: Cell): Text
    requires Sound(c)
  {
    Characters(c)[..StringLength(c)]
  }

  /** A cell stores a string with a null character after it. */
  predicate Stores(c: Cell, s: Text) {
    Sound(c) && StringOf(c) == s && Characters(c)[StringLength(c)] == '\0'
  }

  class StringValue {
    const capacity: Capacity
    var isInline: bool
    var str: array<Ch>
    var pointer: array<Ch>
    var length: nat

    function Stored(): Cell
      reads this, str, pointer
    {
      if isInline then Inline(str[..]) else Heap(pointer[..], length)
    }

    /** SetStringRaw: whichever way the string is stored, it is read back, with a null character after it. */
    constructor (capacity: Capacity, s: Text)
      ensures fresh(str) && fresh(pointer) && this.capacity == capacity && str.Length == capacity
      ensures isInline == (|s| < capacity) && Stores(Stored(), s)
    {
      var inlined := |s| < capacity;
      var chars := new Ch[capacity];
      var memory := new Ch[if inlined then 0 else |s| + 1];
      if inlined {
        chars[capacity - 1] := Byte(capacity - 1 - |s|);
      }
      var target := if inlined then chars else memory;
      var k := 0;
      while k < |s|
        invariant 0 <= k <= |s| && target[..k] == s[..k]
        invariant inlined ==> chars[capacity - 1] == Byte(capacity - 1 - |s|)
      {
        target[k] := s[k];
        k := k + 1;
      }
      target[|s|] := '\0';
      assert target[..|s|] == s;
      this.capacity := capacity;
      isInline, str, pointer, length := inlined, chars, memory, |s|;
      new;
      assert Characters(Stored()) == target[..];
    }
  }
}
