/** In-situ parsing: strings are decoded into the buffer they are read from. */
module JsonInsitu {
  import opened JsonString
  import opened JsonText

  /** GenericInsituStringStream: a read and a write position in one buffer. */
  class InsituStream {
    const buffer: array<Ch>
    var src: nat
    var dst: nat
    var failed: bool

    constructor (buffer: array<Ch>)
      ensures this.buffer == buffer && Valid() && src == 0 && !failed
    {
      this.buffer, src, dst, failed := buffer, 0, 0, false;
    }

    /** The write position never passes the read position. */
    predicate Valid()
      reads this`src, this`dst
    {
      dst <= src <= buffer.Length
    }

    function Unread(): Text
      requires Valid()
      reads this, buffer
    {
      buffer[src..]
    }

    function PeekNext(): (c: Ch)
      requires Valid()
      reads this, buffer
      ensures c == Peek(Unread())
    {
      if src < buffer.Length then buffer[src] else '\0'
    }

    method Take() returns (c: Ch)
      requires Valid() && src < buffer.Length
      modifies this`src
      ensures Valid() && src == old(src) + 1 && c == old(PeekNext()) && Unread() == old(Unread())[1..]
    {
      c := buffer[src];
      src := src + 1;
    }

    method Consume(wanted: Ch) returns (ok: bool)
      requires Valid() && wanted != '\0'
      modifies this`src
      ensures Valid() && ok == (old(PeekNext()) == wanted)
      ensures if ok then src == old(src) + 1 && Unread() == old(Unread())[1..] else src == old(src)
    {
      ok := PeekNext() == wanted;
      if ok {
        var c := Take();
      }
    }

    method PutBegin() returns (head: nat)
      requires Valid()
      modifies this`dst
      ensures Valid() && head == dst == src
    {
      dst := src;
      head := dst;
    }

    /** Only what has been read is overwritten. */
    method Put(c: Ch)
      requires Valid() && dst < src
      modifies this`dst, buffer
      ensures Valid() && dst == old(dst) + 1 && buffer[..] == old(buffer[..])[old(dst) := c]
    {
      buffer[dst] := c;
      dst := dst + 1;
    }

    /** Put several characters. */
    method PutAll(out: Text)
      requires Valid() && dst + |out| <= src
      modifies this`dst, buffer
      ensures Valid() && dst == old(dst) + |out|
      ensures buffer[..] == old(buffer[..dst]) + out + old(buffer[dst + |out|..])
    {
      var i := 0;
      while i < |out|
        invariant Valid() && 0 <= i <= |out| && dst == old(dst) + i
        invariant buffer[..] == old(buffer[..dst]) + out[..i] + old(buffer[..])[old(dst) + i..]
      {
        Put(out[i]);
        i := i + 1;
      }
    }

    method ParseHex4() returns (codepoint: nat)
      requires Valid() && !failed
      modifies this`src, this`failed
      ensures Valid() && src >= old(src)
      ensures var h := Hex(old(Unread()), 4, 0); failed == (h < 0) && (h >= 0 ==> codepoint == h && Unread() == old(Unread())[4..])
    {
      hide HexDigit;
      codepoint := 0;
      for i := 0 to 4
        invariant Valid() && !failed && src == old(src) + i
        invariant Hex(old(Unread()), 4, 0) == Hex(Unread(), 4 - i, codepoint)
      {
        var digit := HexDigit(PeekNext());
        if digit < 0 {
          failed := true;
          return;
        }
        NothingUnescaped();
        codepoint := 16 * codepoint + digit;
        var c := Take();
      }
    }

    /** Read the escape sequence after a backslash. */
    method ParseEscape() returns (out: Text)
      requires Valid() && !failed
      modifies this`src, this`failed
      ensures Valid() && src >= old(src)
      ensures
        var r := Escape(old(Unread()));
        failed == r.Malformed? && (r.Scanned? ==> out == r.value && Unread() == r.rest && src > old(src))
    {
      hide Unescaped, Hex, Utf8;
      out := [];
      var e := PeekNext();
      if Unescaped(e) != '\0' {
        NothingUnescaped();
        var c := Take();
        out := [Unescaped(e)];
      } else if e == 'u' {
        var c := Take();
        HexBound(Unread(), 4, 0);
        var codepoint := ParseHex4();
        if failed {
          return;
        }
        if 0xD800 <= codepoint <= 0xDBFF {
          var backslash := Consume('\\');
          if !backslash {
            failed := true;
            return;
          }
          var u := Consume('u');
          if !u {
            failed := true;
            return;
          }
          HexBound(Unread(), 4, 0);
          var codepoint2 := ParseHex4();
          if failed {
            return;
          }
          if codepoint2 < 0xDC00 || codepoint2 > 0xDFFF {
            failed := true;
            return;
          }
          codepoint := (codepoint - 0xD800) * 0x400 + (codepoint2 - 0xDC00) + 0x1_0000;
        }
        out := Utf8(codepoint);
      } else {
        failed := true;
      }
    }

    /** The buffer s0 with out written from head on; what is unread is as it was. */
    ghost predicate Decoded(s0: Text, head: nat, out: Text)
      requires Valid()
      reads this`src, this`dst, buffer
    {
      && head + |out| == dst && |s0| == buffer.Length
      && buffer[..head] == s0[..head] && buffer[head..dst] == out && buffer[src..] == s0[src..]
    }

    /** Reading keeps what has been decoded. */
    lemma StillDecoded(s0: Text, head: nat, out: Text, src0: nat)
      requires Valid() && src0 <= src && |s0| == buffer.Length && head + |out| == dst
      requires buffer[..head] == s0[..head] && buffer[head..dst] == out && buffer[src0..] == s0[src0..]
      ensures Decoded(s0, head, out)
    {}

    method PutDecoded(ghost s0: Text, ghost head: nat, ghost out: Text, more: Text)
      requires Valid() && Decoded(s0, head, out) && dst + |more| <= src
      modifies this`dst, buffer
      ensures Valid() && Decoded(s0, head, out + more) && Unread() == old(Unread())
    {
      PutAll(more);
    }

    /** Take a character. */
    method TakeDecoded(ghost s0: Text, ghost head: nat, ghost out: Text) returns (c: Ch)
      requires Valid() && src < buffer.Length && Decoded(s0, head, out)
      modifies this`src
      ensures Valid() && src == old(src) + 1 && c == old(PeekNext()) && Unread() == old(Unread())[1..]
      ensures Decoded(s0, head, out)
    {
      c := Take();
      StillDecoded(s0, head, out, src - 1);
    }

    method EscapeDecoded(ghost s0: Text, ghost head: nat, ghost out: Text) returns (value: Text)
      requires Valid() && !failed && Decoded(s0, head, out)
      modifies this`src, this`failed
      ensures Valid() && Decoded(s0, head, out)
      ensures
        var r := Escape(old(Unread()));
        failed == r.Malformed? && (r.Scanned? ==> value == r.value && Unread() == r.rest && dst + |value| <= src)
    {
      hide Escape;
      ghost var src0 := src;
      value := ParseEscape();
      StillDecoded(s0, head, out, src0);
    }

    /** The characters of a string and a null character after them, into the place where they stood. What
        is before the string and what has not been read stay as they were. */
    method ParseStringToStream(ghost head: nat)
      requires Valid() && !failed && dst == src == head
      modifies this`src, this`dst, this`failed, buffer
      ensures Valid() && buffer[..head] == old(buffer[..head]) && buffer[src..] == old(buffer[..])[src..]
      ensures
        var r := StringBody(old(Unread()));
        && failed == r.Malformed?
        && (r.Scanned? ==> head <= dst && buffer[head..dst] == r.value + ['\0'] && Unread() == r.rest)
    {
      hide Escape, Prepend, Decoded;
      ghost var s0 := buffer[..];
      ghost var goal := StringBody(Unread());
      ghost var out: Text := [];
      StartDecoded(s0, head);
      PrependNothing(goal);
      while true
        invariant Valid() && !failed && Decoded(s0, head, out)
        invariant goal == Prepend(out, StringBody(Unread()))
        decreases buffer.Length - src
      {
        var c := PeekNext();
        if c == '\\' {
          var b := TakeDecoded(s0, head, out);
          var value := EscapeDecoded(s0, head, out);
          DecodedParts(s0, head, out);
          if failed {
            PrependMalformed(out);
            return;
          }
          PrependTwice(out, value, StringBody(Unread()));
          PutDecoded(s0, head, out, value);
          out := out + value;
        } else if c == '"' {
          var q := TakeDecoded(s0, head, out);
          PutDecoded(s0, head, out, ['\0']);
          PrependEnd(out, Unread());
          DecodedParts(s0, head, out + ['\0']);
          return;
        } else if c < ' ' {
          failed := true;
          PrependMalformed(out);
          DecodedParts(s0, head, out);
          return;
        } else {
          var b := TakeDecoded(s0, head, out);
          PrependTwice(out, [c], StringBody(Unread()));
          PutDecoded(s0, head, out, [c]);
          out := out + [c];
        }
      }
    }

    lemma StartDecoded(s0: Text, head: nat)
      requires Valid() && s0 == buffer[..] && head == src == dst
      ensures Decoded(s0, head, [])
    {}

    lemma DecodedParts(s0: Text, head: nat, out: Text)
      requires Valid() && Decoded(s0, head, out)
      ensures |s0| == buffer.Length && head + |out| == dst && buffer[..head] == s0[..head]
      ensures buffer[head..dst] == out && buffer[src..] == s0[src..]
    {}

    /** A string from its opening quotation mark on: the same string that the copying reader finds, with a
        null character after it. */
    method ParseString() returns (head: nat, length: nat)
      requires Valid() && !failed && PeekNext() == '"'
      modifies this`src, this`dst, this`failed, buffer
      ensures Valid() && buffer[..old(src) + 1] == old(buffer[..src + 1]) && buffer[src..] == old(buffer[..])[src..]
      ensures
        var r := StringBody(old(Unread())[1..]);
        && failed == r.Malformed?
        && (r.Scanned? ==>
          && head == old(src) + 1 && head + length < dst && Unread() == r.rest
          && buffer[head..head + length] == r.value && buffer[head + length] == '\0')
    {
      hide StringBody;
      length := 0;
      var quote := Take();
      head := PutBegin();
      ParseStringToStream(head);
      if failed {
        return;
      }
      length := dst - head - 1;
      assert buffer[head..dst][..length] == buffer[head..head + length];
      assert buffer[head..dst][length] == buffer[head + length];
    }
  }
}
