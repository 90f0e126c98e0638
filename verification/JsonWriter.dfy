/** Writer and PrettyWriter: a stack of levels and an output stream, driven by events. */
module JsonWriter {
  import opened JsonItoa
  import opened JsonNumber
  import opened JsonPrinter
  import opened JsonText
  import opened JsonTree

  datatype Level = Level(inArray: bool, valueCount: nat)

  datatype Written = Written(out: Text, levels: seq<Level>, hasRoot: bool)

  /** Whether a value may be written here: one root, and a name at every even place of an object. */
  predicate MayWrite(w: Written, isString: bool) {
    if w.levels == [] then !w.hasRoot
    else
      var level := w.levels[|w.levels| - 1];
      level.inArray || level.valueCount % 2 == 1 || isString
  }

  /** What precedes a value at the top level of a stack. */
  function Before(f: Format, levels: seq<Level>): Text {
    if levels == [] then []
    else
      var level := levels[|levels| - 1];
      var first := level.valueCount == 0;
      if level.inArray then (if first then [] else [',']) + ElementSpace(f, |levels|, first)
      else if level.valueCount % 2 == 0 then (if first then [] else [',']) + NameSpace(f, |levels|)
      else [':'] + ValueSpace(f)
  }

  function CountedValue(levels: seq<Level>): seq<Level> {
    if levels == [] then []
    else
      var n := |levels| - 1;
      levels[n := levels[n].(valueCount := levels[n].valueCount + 1)]
  }

  /** After a value. */
  function WithValue(f: Format, w: Written, text: Text): Written {
    Written(w.out + Before(f, w.levels) + text, CountedValue(w.levels), true)
  }

  /** After the start of a container. */
  function WithStart(f: Format, w: Written, inArray: bool): Written {
    var v := WithValue(f, w, if inArray then ['['] else ['{']);
    v.(levels := v.levels + [Level(inArray, 0)])
  }

  /** Whether the container may end here: no name without a value. */
  predicate MayEnd(w: Written, inArray: bool) {
    && w.levels != []
    && var level := w.levels[|w.levels| - 1];
       level.inArray == inArray && (inArray || level.valueCount % 2 == 0)
  }

  function WithEnd(f: Format, w: Written, inArray: bool): Written
    requires MayEnd(w, inArray)
  {
    var n := |w.levels| - 1;
    var space := if w.levels[n].valueCount == 0 then [] else EndSpace(f, n, inArray);
    Written(w.out + space + (if inArray then [']'] else ['}']), w.levels[..n], w.hasRoot)
  }

  class Writer {
    const format: Format
    var out: Text
    var levels: seq<Level>
    var hasRoot: bool

    constructor (format: Format)
      ensures this.format == format && State() == Written([], [], false)
    {
      this.format, out, levels, hasRoot := format, [], [], false;
    }

    function State(): Written
      reads this
    {
      Written(out, levels, hasRoot)
    }

    method Put(c: Ch)
      modifies this`out
      ensures out == old(out) + [c]
    {
      out := out + [c];
    }

    method PutN(c: Ch, n: nat)
      modifies this`out
      ensures out == old(out) + seq(n, i => c)
    {
      var k := 0;
      while k < n
        invariant 0 <= k <= n && out == old(out) + seq(k, i => c)
      {
        Put(c);
        k := k + 1;
      }
    }

    method PutAll(text: Text)
      modifies this`out
      ensures out == old(out) + text
    {
      var i := 0;
      while i < |text|
        invariant 0 <= i <= |text| && out == old(out) + text[..i]
      {
        Put(text[i]);
        i := i + 1;
      }
      assert text[..i] == text;
    }

    method WriteIndent()
      requires format.Pretty?
      modifies this`out
      ensures out == old(out) + Indent(format, |levels|)
    {
      PutN(format.indentChar, |levels| * format.indentCharCount);
    }

    method WriteNewLine()
      requires format.Pretty?
      modifies this`out
      ensures out == old(out) + NewLine(format, |levels|)
    {
      Put('\n');
      WriteIndent();
    }

    method CountValue()
      requires levels != []
      modifies this`levels
      ensures levels == CountedValue(old(levels))
    {
      var n := |levels| - 1;
      levels := levels[n := levels[n].(valueCount := levels[n].valueCount + 1)];
    }

    /** Writer::Prefix. */
    method Prefix(isString: bool)
      requires format.Compact? && MayWrite(State(), isString)
      modifies this
      ensures State() == WithValue(format, old(State()), [])
    {
      if levels != [] {
        var level := levels[|levels| - 1];
        if level.valueCount > 0 {
          if level.inArray {
            Put(',');
          } else {
            Put(if level.valueCount % 2 == 0 then ',' else ':');
          }
        }
        CountValue();
      }
      hasRoot := true;
    }

    /** PrettyWriter::PrettyPrefix. */
    method PrettyPrefix(isString: bool)
      requires format.Pretty? && MayWrite(State(), isString)
      modifies this
      ensures State() == WithValue(format, old(State()), [])
    {
      hide Before, CountedValue;
      if levels != [] {
        var level := levels[|levels| - 1];
        if level.inArray {
          PrefixElement(level);
        } else {
          PrefixMember(level);
        }
        CountValue();
      } else {
        NothingBefore(format);
      }
      hasRoot := true;
    }

    method PrefixElement(level: Level)
      requires format.Pretty? && levels != [] && level == levels[|levels| - 1] && level.inArray
      modifies this`out
      ensures out == old(out) + Before(format, levels)
    {
      hide Indent;
      if level.valueCount > 0 {
        Put(',');
        if format.singleLineArray {
          Put(' ');
        }
      }
      if !format.singleLineArray {
        WriteNewLine();
      }
    }

    method PrefixMember(level: Level)
      requires format.Pretty? && levels != [] && level == levels[|levels| - 1] && !level.inArray
      modifies this`out
      ensures out == old(out) + Before(format, levels)
    {
      hide Indent;
      if level.valueCount > 0 {
        if level.valueCount % 2 == 0 {
          Put(',');
          Put('\n');
        } else {
          Put(':');
          Put(' ');
        }
      } else {
        Put('\n');
      }
      if level.valueCount % 2 == 0 {
        WriteIndent();
      }
    }

    method PrefixValue(isString: bool)
      requires MayWrite(State(), isString)
      modifies this
      ensures State() == WithValue(format, old(State()), [])
    {
      hide WithValue, MayWrite;
      if format.Compact? {
        Prefix(isString);
      } else {
        PrettyPrefix(isString);
      }
    }

    /** The characters of a string between quotation marks; at most six characters for one. */
    method WriteString(s: Text)
      modifies this`out
      ensures out == old(out) + Quoted(s, [])
      ensures |out| - |old(out)| <= 2 + 6 * |s|
    {
      hide Escaped;
      EscapedLength(s);
      Put('"');
      var i := 0;
      while i < |s|
        invariant 0 <= i <= |s| && out + EscapedAll(s[i..]) == old(out) + ['"'] + EscapedAll(s)
      {
        assert s[i..][1..] == s[i + 1..];
        ghost var goal := out + EscapedAll(s[i..]);
        PutEscaped(s[i]);
        assert out + EscapedAll(s[i + 1..]) == goal;
        i := i + 1;
      }
      assert s[i..] == [] && out + [] == out;
      Put('"');
    }

    method PutEscaped(c: Ch)
      modifies this`out
      ensures out == old(out) + Escaped(c)
    {
      var e := EscapeOf(c);
      if e != '\0' {
        Put('\\');
        Put(e);
        if e == 'u' {
          Put('0');
          Put('0');
          Put(HexDigits()[c as int / 16]);
          Put(HexDigits()[c as int % 16]);
        }
      } else {
        Put(c);
      }
    }

    /** A value whose text is known. */
    method WriteText(text: Text)
      requires MayWrite(State(), false)
      modifies this
      ensures State() == WithValue(format, old(State()), text)
    {
      hide Before, CountedValue, MayWrite;
      PrefixValue(false);
      PutAll(text);
    }

    method Null()
      requires MayWrite(State(), false)
      modifies this
      ensures State() == WithValue(format, old(State()), "null")
    {
      WriteText("null");
    }

    method Bool(b: bool)
      requires MayWrite(State(), false)
      modifies this
      ensures State() == WithValue(format, old(State()), if b then "true" else "false")
    {
      WriteText(if b then "true" else "false");
    }

    /** Int, Uint, Int64 or Uint64; the digits fit the buffer of that type. */
    method Integer(e: Event)
      requires IsInteger(e) && MayWrite(State(), false)
      modifies this
      ensures State() == WithValue(format, old(State()), IntegerText(NumberOf(e)))
    {
      var text;
      match e {
        case Int(n) => text := I32toa(n);
        case Uint(n) => text := U32toa(n);
        case Int64(n) => text := I64toa(n);
        case Uint64(n) => text := U64toa(n);
      }
      FitsBuffer(e);
      assert |text| <= BufferSize(e);
      WriteText(text);
    }

    /** A string or a name. */
    method String(s: Text)
      requires MayWrite(State(), true)
      modifies this
      ensures State() == WithValue(format, old(State()), Quoted(s, []))
    {
      hide Before, CountedValue, MayWrite, Quoted;
      PrefixValue(true);
      WriteString(s);
    }

    /** StartObject and StartArray. */
    method Start(inArray: bool)
      requires MayWrite(State(), false)
      modifies this
      ensures State() == WithStart(format, old(State()), inArray)
    {
      hide Before, CountedValue, MayWrite;
      PrefixValue(false);
      levels := levels + [Level(inArray, 0)];
      Put(if inArray then '[' else '{');
    }

    /** EndObject and EndArray. */
    method End(inArray: bool)
      requires MayEnd(State(), inArray)
      modifies this
      ensures State() == WithEnd(format, old(State()), inArray)
    {
      hide Indent;
      var empty := levels[|levels| - 1].valueCount == 0;
      levels := levels[..|levels| - 1];
      if !empty && format.Pretty? && !(inArray && format.singleLineArray) {
        WriteNewLine();
      }
      Put(if inArray then ']' else '}');
    }
  }

  lemma NothingBefore(f: Format)
    ensures Before(f, []) == [] && CountedValue([]) == []
  {}

  lemma {:induction false} EscapedLength(s: Text)
    ensures |EscapedAll(s)| <= 6 * |s|
  {
    if s != [] {
      EscapedLength(s[1..]);
    }
  }

  /** The sizes of the character buffers. */
  function BufferSize(e: Event): nat
    requires IsInteger(e)
  {
    match e
    case Int(_) => 11
    case Uint(_) => 10
    case Int64(_) => 21
    case Uint64(_) => 20
  }

  lemma {:induction false} DecimalLength(n: nat, k: nat)
    requires 0 < k && n < Pow10(k)
    ensures |Decimal(n)| <= k
    decreases k
  {
    if n >= 10 {
      assert Pow10(1) == 10;
      DecimalLength(n / 10, k - 1);
    }
  }

  lemma FitsBuffer(e: Event)
    requires IsInteger(e)
    ensures |IntegerText(NumberOf(e))| <= BufferSize(e)
  {
    var n := NumberOf(e);
    assert Pow10(10) == 1_0000000000;
    assert Pow10(20) == 1_00000_00000_00000_00000;
    match e
    case Int(_) => DecimalLength(if n < 0 then 0 - n else n, 10);
    case Uint(_) => DecimalLength(n, 10);
    case Int64(_) => DecimalLength(if n < 0 then 0 - n else n, 20);
    case Uint64(_) => DecimalLength(n, 20);
  }
}
