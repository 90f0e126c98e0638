/** GenericReader over a string stream: the recursive parser and the table-driven one, as they run. The
    handler is the sequence of the events it has been given. */
module JsonReader {
  import opened JsonAutomaton
  import opened JsonGrammar
  import opened JsonNumber
  import opened JsonString
  import opened JsonText

  class Reader {
    const cfg: Config
    const text: Text
    var pos: nat
    var events: seq<Event>
    var failed: bool
    var stack: seq<Frame>

    constructor (cfg: Config, text: Text)
      ensures this.cfg == cfg && this.text == text && pos == 0 && events == [] && !failed && stack == []
    {
      this.cfg, this.text, pos, events, failed, stack := cfg, text, 0, [], false, [];
    }

    predicate Valid()
      reads this
    {
      pos <= |text|
    }

    /** The text from the current position on. */
    function Rest(): Text
      requires Valid()
      reads this
    {
      text[pos..]
    }

    function Outcome(): Res
      requires Valid()
      reads this
    {
      if failed then Fail(events) else Ok(Rest(), events)
    }

    function PeekNext(): (c: Ch)
      requires Valid()
      reads this
      ensures c == Peek(Rest())
    {
      if pos < |text| then text[pos] else '\0'
    }

    method Take() returns (c: Ch)
      requires Valid() && pos < |text|
      modifies this`pos
      ensures Valid() && pos == old(pos) + 1 && c == text[old(pos)]
      ensures old(Rest()) == [c] + Rest() && Rest() == old(Rest())[1..]
    {
      c := text[pos];
      pos := pos + 1;
    }

    method Consume(wanted: Ch) returns (ok: bool)
      requires Valid() && wanted != '\0'
      modifies this`pos
      ensures Valid() && ok == (Peek(old(Rest())) == wanted)
      ensures if ok then pos == old(pos) + 1 && Rest() == old(Rest())[1..] else pos == old(pos)
    {
      ok := PeekNext() == wanted;
      if ok {
        var c := Take();
      }
    }

    /** Tell the handler; it may end the parsing. */
    method Handle(e: Event)
      requires Valid() && !failed
      modifies this`events, this`failed
      ensures Outcome() == Emit(cfg, Rest(), old(events), e)
    {
      events := events + [e];
      if !cfg.accepts(events) {
        failed := true;
      }
    }

    /** Tell the handler and then take the bracket. */
    method HandleThenTake(e: Event)
      requires Valid() && !failed && pos < |text|
      modifies this`pos, this`events, this`failed
      ensures Valid() && pos >= old(pos) && Outcome() == Emit(cfg, old(Rest())[1..], old(events), e)
    {
      Handle(e);
      if !failed {
        var bracket := Take();
      }
    }

    // ---------- whitespace and comments ----------

    method SkipWhitespace()
      requires Valid()
      modifies this`pos
      ensures Valid() && pos >= old(pos) && Rest() == SkipSpace(old(Rest()))
    {
      while IsSpace(PeekNext())
        invariant Valid() && pos >= old(pos) && SkipSpace(old(Rest())) == SkipSpace(Rest())
        decreases |text| - pos
      {
        var c := Take();
      }
    }

    /** The loop of a block comment. */
    method SkipBlock()
      requires Valid() && !failed
      modifies this`pos, this`failed
      ensures Valid() && pos >= old(pos)
      ensures var r := BlockComment(old(Rest())); failed == r.Unclosed? && (r.Rest? ==> Rest() == r.rest && pos > old(pos))
    {
      while true
        invariant Valid() && !failed && pos >= old(pos) && BlockComment(old(Rest())) == BlockComment(Rest())
        decreases |text| - pos
      {
        if PeekNext() == '\0' {
          failed := true;
          return;
        }
        var star := Consume('*');
        if star {
          var slash := Consume('/');
          if slash {
            break;
          }
        } else {
          var c := Take();
        }
      }
    }

    method SkipLine()
      requires Valid()
      modifies this`pos
      ensures Valid() && pos >= old(pos) && Rest() == LineComment(old(Rest()))
    {
      while PeekNext() != '\0'
        invariant Valid() && pos >= old(pos) && LineComment(old(Rest())) == LineComment(Rest())
        decreases |text| - pos
      {
        var c := Take();
        if c == '\n' {
          return;
        }
      }
    }

    method SkipWhitespaceAndComments()
      requires Valid() && !failed
      modifies this`pos, this`failed
      ensures Valid() && pos >= old(pos)
      ensures var r := Skip(cfg, old(Rest())); failed == r.Unclosed? && (r.Rest? ==> Rest() == r.rest)
    {
      hide BlockComment, LineComment, SkipSpace;
      SkipWhitespace();
      if !cfg.comments {
        return;
      }
      while PeekNext() == '/'
        invariant Valid() && !failed && pos >= old(pos) && Skip(cfg, old(Rest())) == SkipComments(Rest())
        decreases |text| - pos
      {
        var slash := Consume('/');
        var star := Consume('*');
        if star {
          SkipBlock();
          if failed {
            return;
          }
        } else {
          var second := Consume('/');
          if !second {
            failed := true;
            return;
          }
          SkipLine();
        }
        SkipWhitespace();
      }
    }

    // ---------- scalars ----------

    method ParseWord(first: Ch, word: Text, e: Event)
      requires Valid() && !failed && PeekNext() == first != '\0' && '\0' !in word
      modifies this`pos, this`events, this`failed
      ensures Valid() && pos >= old(pos) && Outcome() == Literal(cfg, old(Rest())[1..], old(events), word, e)
    {
      var c := Take();
      ghost var rest := Rest();
      var i := 0;
      while i < |word|
        invariant Valid() && !failed && 0 <= i <= |word| <= |word| && pos >= old(pos) && events == old(events)
        invariant i <= |rest| && rest[..i] == word[..i] && Rest() == rest[i..]
      {
        var ok := Consume(word[i]);
        if !ok {
          failed := true;
          assert !(word <= rest);
          return;
        }
        i := i + 1;
      }
      assert rest[..|word|] == word;
      Handle(e);
    }

    /** Four hexadecimal digits. */
    method ParseHex4() returns (codepoint: nat)
      requires Valid() && !failed
      modifies this`pos, this`failed
      ensures Valid() && pos >= old(pos)
      ensures var h := Hex(old(Rest()), 4, 0); failed == (h < 0) && (h >= 0 ==> codepoint == h && Rest() == old(Rest())[4..])
    {
      hide HexDigit;
      codepoint := 0;
      for i := 0 to 4
        invariant Valid() && !failed && pos == old(pos) + i
        invariant Hex(old(Rest()), 4, 0) == Hex(Rest(), 4 - i, codepoint)
      {
        var digit := HexDigit(PeekNext());
        if digit < 0 {
          failed := true;
          return;
        }
        NothingUnescaped();
        codepoint := 16 * codepoint + digit;
        var c := Take();
      }
    }

    /** The escape sequence after a backslash. */
    method ParseEscape() returns (out: Text)
      requires Valid() && !failed
      modifies this`pos, this`failed
      ensures Valid() && pos >= old(pos)
      ensures
        var r := Escape(old(Rest()));
        failed == r.Malformed? && (r.Scanned? ==> out == r.value && Rest() == r.rest && pos > old(pos))
    {
      hide Unescaped, Hex, Utf8;
      out := [];
      var e := PeekNext();
      if Unescaped(e) != '\0' {
        NothingUnescaped();
        var c := Take();
        out := [Unescaped(e)];
      } else if e == 'u' {
        var c := Take();
        HexBound(Rest(), 4, 0);
        var codepoint := ParseHex4();
        if failed {
          return;
        }
        if 0xD800 <= codepoint <= 0xDBFF {
          var backslash := Consume('\\');
          if !backslash {
            failed := true;
            return;
          }
          var u := Consume('u');
          if !u {
            failed := true;
            return;
          }
          HexBound(Rest(), 4, 0);
          var codepoint2 := ParseHex4();
          if failed {
            return;
          }
          if codepoint2 < 0xDC00 || codepoint2 > 0xDFFF {
            failed := true;
            return;
          }
          codepoint := (codepoint - 0xD800) * 0x400 + (codepoint2 - 0xDC00) + 0x1_0000;
        }
        out := Utf8(codepoint);
      } else {
        failed := true;
      }
    }

    /** The characters of a string and a null character after them. */
    method ParseStringToStream() returns (out: Text)
      requires Valid() && !failed
      modifies this`pos, this`failed
      ensures Valid() && pos >= old(pos)
      ensures
        var r := StringBody(old(Rest()));
        failed == r.Malformed? && (r.Scanned? ==> out == r.value + ['\0'] && Rest() == r.rest && pos > old(pos))
    {
      hide Escape, Prepend;
      out := [];
      PrependNothing(StringBody(Rest()));
      while true
        invariant Valid() && !failed && pos >= old(pos)
        invariant StringBody(old(Rest())) == Prepend(out, StringBody(Rest()))
        decreases |text| - pos
      {
        ghost var rest := Rest();
        var c := PeekNext();
        if c == '\\' {
          var b := Take();
          var escaped := ParseEscape();
          if failed {
            PrependMalformed(out);
            return;
          }
          PrependTwice(out, escaped, StringBody(Rest()));
          out := out + escaped;
        } else if c == '"' {
          var q := Take();
          PrependEnd(out, Rest());
          out := out + ['\0'];
          return;
        } else if c < ' ' {
          failed := true;
          PrependMalformed(out);
          return;
        } else {
          var b := Take();
          PrependTwice(out, [c], StringBody(Rest()));
          out := out + [c];
        }
      }
    }

    method ParseString(isKey: bool)
      requires Valid() && !failed && PeekNext() == '"'
      modifies this`pos, this`events, this`failed
      ensures Valid() && pos >= old(pos) && Outcome() == StringFrom(cfg, old(Rest()), old(events), isKey)
    {
      hide StringBody;
      var q := Take();
      var out := ParseStringToStream();
      if failed {
        return;
      }
      var length := |out| - 1;
      var str := out[..length];
      Handle(if isKey then Key(str) else String(str));
    }

    // ---------- numbers ----------

    /** The next digits are those of s without the first count of its digits. */
    predicate AtDigit(s: Text, count: nat)
      reads this
    {
      Valid() && count <= |DigitRun(s)| && Rest() == s[count..]
    }

    /** Whether there is one more digit. */
    lemma DigitsLeft(s: Text, count: nat)
      requires AtDigit(s, count)
      ensures Valid() && count <= |DigitRun(s)| && Rest() == s[count..]
      ensures IsDigit(PeekNext()) <==> count < |DigitRun(s)|
    {}

    lemma DigitsStart()
      requires Valid()
      ensures AtDigit(Rest(), 0)
    {}

    /** Take digit number count of the digits that s starts with. */
    method TakeDigit(ghost s: Text, ghost count: nat) returns (c: Ch)
      requires Valid() && AtDigit(s, count) && IsDigit(PeekNext())
      modifies this`pos
      ensures Valid() && pos == old(pos) + 1 && count < |DigitRun(s)| && c == DigitRun(s)[count] && IsDigit(c)
      ensures AtDigit(s, count + 1)
    {
      hide DigitRun, IsDigit;
      RunFrom(s, count);
      c := Take();
    }

    /** Take digits as long as the value v of all digits so far stays within 10 * limit + last; done are the
        digits before. The products and sums never exceed that bound. */
    method Accumulate(v0: nat, limit: nat, last: Ch, ghost done: Text) returns (v: nat, over: bool, count: nat)
      requires Valid() && IsDigit(last) && AllDigits(done) && Value(done) == v0 <= 10 * limit + DigitOf(last)
      modifies this`pos
      ensures Valid() && pos == old(pos) + count && Rest() == old(Rest())[count..]
      ensures
        var run := DigitRun(old(Rest()));
        && count <= |run| && AllDigits(done + run[..count])
        && v == Value(done + run[..count]) <= 10 * limit + DigitOf(last)
        && (over <==> count < |run|)
        && (over ==> 10 * v + DigitOf(run[count]) > 10 * limit + DigitOf(last))
    {
      hide Value, DigitRun, AtDigit;
      ghost var s, run := Rest(), DigitRun(Rest());
      v, over, count := v0, false, 0;
      assert done + run[..0] == done;
      DigitsStart();
      while IsDigit(PeekNext())
        invariant Valid() && pos == old(pos) + count && count <= |run| && AtDigit(s, count) && !over
        invariant AllDigits(done + run[..count]) && v == Value(done + run[..count]) <= 10 * limit + DigitOf(last)
        decreases |text| - pos
      {
        DigitsLeft(s, count);
        if v >= limit && (v != limit || PeekNext() > last) {
          over := true;
          break;
        }
        ghost var digits := done + run[..count];
        var c := TakeDigit(s, count);
        assert run[..count + 1] == run[..count] + [c];
        assert done + run[..count + 1] == digits + [c];
        ValueMore(digits, c);
        v := 10 * v + DigitOf(c);
        count := count + 1;
      }
      DigitsLeft(s, count);
    }

    method TakeDigits()
      requires Valid()
      modifies this`pos
      ensures Valid() && pos >= old(pos) && Rest() == old(Rest())[|DigitRun(old(Rest()))|..]
    {
      hide DigitRun, IsDigit, AtDigit;
      ghost var s: Text, count: nat := Rest(), 0;
      DigitsStart();
      while IsDigit(PeekNext())
        invariant Valid() && pos >= old(pos) && AtDigit(s, count)
        decreases |text| - pos
      {
        var c := TakeDigit(s, count);
        count := count + 1;
      }
      DigitsLeft(s, count);
    }

    /** The digits after the first count ones of s. */
    method TakeRest(ghost s: Text, ghost count: nat)
      requires Valid() && AtDigit(s, count)
      modifies this`pos
      ensures Valid() && pos >= old(pos) && AtDigit(s, |DigitRun(s)|) && !IsDigit(PeekNext())
    {
      hide DigitRun, IsDigit;
      RunFrom(s, count);
      TakeDigits();
      assert s[count..][|DigitRun(s)| - count..] == s[|DigitRun(s)|..];
      DigitsLeft(s, |DigitRun(s)|);
    }

    /** The digits left when 32 bits are not enough: in 64 bits, and only then as a double. */
    method Parse64(minus: bool, v0: nat, ghost done: Text) returns (n: nat, useDouble: bool, count: nat)
      requires Valid() && AllDigits(done) && done != [] && done[0] != '0' && Value(done) == v0 < TWO32
      modifies this`pos
      ensures Valid() && pos >= old(pos) && Rest() == old(Rest())[|DigitRun(old(Rest()))|..]
      ensures
        var run := DigitRun(old(Rest()));
        && AllDigits(done + run) && useDouble == TooBig(minus, Value(done + run))
        && (!useDouble ==> n == Value(done + run) && count == |run|)
        && (useDouble ==> n > MAX_EXACT && |done| + count > MAX_DIGITS)
    {
      hide Value, DigitRun;
      ghost var s, run := Rest(), DigitRun(Rest());
      n, useDouble, count := Accumulate(v0, if minus then LIMIT63 else LIMIT64, if minus then '8' else '5', done);
      BeyondPrefix(done, run, count, n);
      if useDouble {
        ManyDigits(done + run[..count]);
        RunFrom(s, count);
        TakeDigits();
        assert s[count..][|run[count..]|..] == s[|run|..];
      }
    }

    /** The digits after the first one c, in 32 bits first. */
    method Parse32(minus: bool, c: Ch) returns (n: nat, use64bit: bool, useDouble: bool, significandDigit: nat)
      requires Valid() && IsDigit(c) && c != '0'
      modifies this`pos
      ensures Valid() && pos >= old(pos) && Rest() == old(Rest())[|DigitRun(old(Rest()))|..]
      ensures
        var w := [c] + DigitRun(old(Rest()));
        && useDouble == TooBig(minus, Value(w))
        && (!useDouble ==> n == Value(w) && significandDigit == |w| - 1 && use64bit == if minus then n > TWO31 else n >= TWO32)
        && (useDouble ==> n > MAX_EXACT && significandDigit >= MAX_DIGITS)
    {
      FirstDigit(c);
      hide Value, DigitRun, IsDigit, DigitOf;
      ghost var s, run := Rest(), DigitRun(Rest());
      LastDigits();
      useDouble := false;
      n, use64bit, significandDigit := Accumulate(DigitOf(c), if minus then LIMIT31 else LIMIT32, if minus then '8' else '5', [c]);
      BeyondPrefix([c], run, significandDigit, n);
      if use64bit {
        ghost var done := [c] + run[..significandDigit];
        RunFrom(s, significandDigit);
        SameDigits(c, run, s, significandDigit);
        var count;
        n, useDouble, count := Parse64(minus, n, done);
        significandDigit := significandDigit + count;
      }
    }

    /** The digits before a decimal point. */
    method ParseWhole(minus: bool) returns (n: nat, use64bit: bool, useDouble: bool, significandDigit: nat)
      requires Valid() && !failed
      modifies this`pos, this`failed
      ensures Valid() && pos >= old(pos)
      ensures
        var w := Whole(old(Rest()));
        failed == (w == []) && (w != [] ==>
          && Rest() == old(Rest())[|w|..] && useDouble == TooBig(minus, Value(w))
          && (!useDouble ==> n == Value(w) && significandDigit == |w| - 1 && use64bit == if minus then n > TWO31 else n >= TWO32)
          && (useDouble ==> n > MAX_EXACT && significandDigit >= MAX_DIGITS))
    {
      n, use64bit, useDouble, significandDigit := 0, false, false, 0;
      if PeekNext() == '0' {
        var c := Take();
        FirstDigit('0');
        assert old(Rest())[..1] == ['0'];
      } else if IsDigit(PeekNext()) {
        var c := Take();
        FirstOfRun(old(Rest()));
        hide Value, DigitRun;
        n, use64bit, useDouble, significandDigit := Parse32(minus, c);
      } else {
        NoDigits(old(Rest()));
        failed := true;
      }
    }

    /** Digits into the 64-bit significand while it is exact. */
    method ParseExactFraction(v0: nat, sig0: nat) returns (v: nat, sig: nat, expFrac: int)
      requires Valid()
      modifies this`pos
      ensures Valid() && pos >= old(pos) && expFrac <= 0
      ensures
        var run := DigitRun(old(Rest()));
        && 0 - expFrac <= |run| && Rest() == old(Rest())[0 - expFrac..] && pos == old(pos) - expFrac
        && Tallied(Significand(v0, sig0, 0), run[..0 - expFrac], v, sig, expFrac)
        && (0 - expFrac == |run| || v > MAX_EXACT)
    {
      hide DigitRun, DigitOf, IsDigit, Tallied, AtDigit;
      ghost var s, run, a := Rest(), DigitRun(Rest()), Significand(v0, sig0, 0);
      ghost var count: nat := 0;
      DigitsStart();
      NoneCounted(a, run[..0]);
      v, sig, expFrac := v0, sig0, 0;
      while IsDigit(PeekNext())
        invariant Valid() && pos == old(pos) + count && AtDigit(s, count) && count <= |run| && count + expFrac == 0
        invariant Tallied(a, run[..count], v, sig, expFrac)
        decreases |text| - pos
      {
        if v > MAX_EXACT {
          break;
        }
        DigitsLeft(s, count);
        TallyExact(a, run, count, v, sig, expFrac);
        var c := TakeDigit(s, count);
        v := 10 * v + DigitOf(c);
        expFrac := expFrac - 1;
        if v != 0 {
          sig := sig + 1;
        }
        count := count + 1;
      }
      DigitsLeft(s, count);
    }

    /** The digits after that into the double, up to seventeen digits in all. The significand is positive. */
    method ParseMoreFraction(v: nat, sig0: nat, expFrac0: int, ghost a: Significand, ghost done: Text) returns (expFrac: int)
      requires Valid() && Tallied(a, done, v, sig0, expFrac0) && (v > MAX_EXACT || DigitRun(Rest()) == [])
      modifies this`pos
      ensures Valid() && pos >= old(pos)
      ensures
        var run := DigitRun(old(Rest()));
        && Rest() == old(Rest())[|run|..] && 0 - |run| <= expFrac - expFrac0 <= 0
        && AllDigits(done + run) && AddDigits(a, done + run).count + expFrac == a.count
    {
      hide DigitRun, AddDigits, DigitOf, IsDigit, AtDigit;
      ghost var s, run := Rest(), DigitRun(Rest());
      ghost var count: nat := 0;
      DigitsStart();
      assert done + run[..0] == done;
      expFrac := expFrac0;
      var sig: nat := sig0;
      while IsDigit(PeekNext())
        invariant Valid() && pos >= old(pos) && AtDigit(s, count) && count <= |run|
        invariant Tallied(a, done + run[..count], v, sig, expFrac) && 0 - count <= expFrac - expFrac0 <= 0
        decreases |text| - pos
      {
        DigitsLeft(s, count);
        CountMore(a, done + run[..count], run[count]);
        assert done + run[..count + 1] == done + run[..count] + [run[count]];
        var c := TakeDigit(s, count);
        if sig < MAX_DIGITS {
          expFrac := expFrac - 1;
          sig := sig + 1;
        }
        count := count + 1;
      }
      DigitsLeft(s, count);
      assert run[..count] == run;
    }

    /** The digits after a decimal point. The result is the decimal exponent, minus the number of digits that
        count. */
    method ParseFraction(v0: nat, sig0: nat, useDouble: bool) returns (expFrac: int)
      requires Valid() && !failed && (useDouble ==> v0 > MAX_EXACT)
      modifies this`pos, this`failed
      ensures Valid() && pos >= old(pos) && expFrac <= 0
      ensures
        var run := DigitRun(old(Rest()));
        failed == (run == []) && (run != [] ==>
          && Rest() == old(Rest())[|run|..] && expFrac + AddDigits(Significand(v0, sig0, 0), run).count == 0
          && 0 - |run| <= expFrac <= 0)
    {
      hide DigitRun, AddDigits;
      ghost var s, run, a := Rest(), DigitRun(Rest()), Significand(v0, sig0, 0);
      RunFrom(s, 0);
      if !IsDigit(PeekNext()) {
        failed := true;
        return 0;
      }
      NoneCounted(a, run[..0]);
      var v: nat, sig: nat := v0, sig0;
      expFrac := 0;
      if !useDouble {
        v, sig, expFrac := ParseExactFraction(v0, sig0);
      }
      ghost var n := 0 - expFrac;
      RunFrom(s, n);
      assert run[..n] + run[n..] == run && s[n..][|run| - n..] == s[|run|..];
      expFrac := ParseMoreFraction(v, sig, expFrac, a, run[..n]);
    }

    /** The digits of a negative exponent; the guard keeps the exponent, and its sum with the one of the
        fraction, inside an int. */
    method ParseNegativeExponent(expFrac: int, first: Ch) returns (exp: nat)
      requires Valid() && IsDigit(first) && expFrac <= 0
      modifies this`pos
      ensures Valid() && pos >= old(pos) && Rest() == old(Rest())[|DigitRun(old(Rest()))|..]
      ensures expFrac >= 0 - MAX_FRACTION ==> exp < TWO31 && expFrac - exp >= 0 - TWO31
    {
      hide DigitRun, IsDigit, DigitOf, Guarded, AtDigit;
      ghost var s, run := Rest(), DigitRun(Rest());
      ghost var count: nat := 0;
      DigitsStart();
      exp := DigitOf(first);
      var maxExp := (expFrac + 2147483639) / 10;
      GuardedFirst(expFrac, exp);
      while IsDigit(PeekNext())
        invariant Valid() && pos >= old(pos) && AtDigit(s, count)
        invariant Guarded(expFrac, exp, IsDigit(PeekNext()))
        decreases |text| - pos
      {
        var c := TakeDigit(s, count);
        GuardedNext(expFrac, exp, DigitOf(c));
        exp := 10 * exp + DigitOf(c);
        count := count + 1;
        if exp > maxExp {
          TakeRest(s, count);
          count := |run|;
        }
      }
      DigitsLeft(s, count);
      GuardedBounds(expFrac, exp);
    }

    /** The digits of a positive exponent, refused when they exceed what a double can hold; fits says whether
        every value on the way there stays inside an int. */
    method ParsePositiveExponent(expFrac: int, first: Ch) returns (exp: nat, ghost fits: bool)
      requires Valid() && !failed && IsDigit(first) && expFrac <= 0
      modifies this`pos, this`failed
      ensures Valid() && pos >= old(pos)
      ensures
        var run := DigitRun(old(Rest()));
        && failed == (Value([first] + run) > MAX_EXPONENT - expFrac)
        && (!failed ==> Rest() == old(Rest())[|run|..] && exp == Value([first] + run))
        && fits == !OverflowsBefore([first] + run, MAX_EXPONENT - expFrac, 1 + |run|)
    {
      hide DigitRun, Value, IsDigit, DigitOf, AtDigit, Climbing, OverflowsBefore;
      ghost var s, run := Rest(), DigitRun(Rest());
      ghost var count: nat := 0;
      DigitsStart();
      exp, fits := DigitOf(first), true;
      var maxExp := MAX_EXPONENT - expFrac;
      ClimbingStart(first, run, maxExp);
      while IsDigit(PeekNext())
        invariant Valid() && !failed && pos >= old(pos) && AtDigit(s, count) && count <= |run|
        invariant Climbing(first, run, maxExp, count, exp, fits)
        decreases |text| - pos
      {
        DigitsLeft(s, count);
        ClimbingStep(first, run, maxExp, count, exp, fits);
        var c := TakeDigit(s, count);
        exp := 10 * exp + DigitOf(c);
        fits := fits && exp < TWO31;
        count := count + 1;
        if exp > maxExp {
          failed := true;
          return;
        }
      }
      DigitsLeft(s, count);
      ClimbingEnd(first, run, maxExp, exp, fits);
    }

    method ParseSign() returns (expMinus: bool)
      requires Valid()
      modifies this`pos
      ensures Valid() && pos >= old(pos) && Rest() == AfterSign(old(Rest())) && expMinus == (Peek(old(Rest())) == '-')
    {
      expMinus := false;
      var plus := Consume('+');
      if !plus {
        expMinus := Consume('-');
      }
    }

    /** Sign and digits of an exponent. */
    method ParseExponentDigits(expFrac: int) returns (ghost fits: bool)
      requires Valid() && !failed && expFrac <= 0
      modifies this`pos, this`failed
      ensures Valid() && pos >= old(pos)
      ensures
        var t := AfterSign(old(Rest()));
        var run := DigitRun(t);
        && failed == (run == [] || (Peek(old(Rest())) != '-' && Value(run) > MAX_EXPONENT - expFrac))
        && (!failed ==> Rest() == t[|run|..])
        && fits == (Peek(old(Rest())) == '-' || !OverflowsBefore(run, MAX_EXPONENT - expFrac, |run|))
    {
      hide DigitRun, Value, AllDigits, AfterSign, OverflowsBefore;
      fits := true;
      var expMinus := ParseSign();
      ghost var t, run := Rest(), DigitRun(Rest());
      RunFrom(t, 0);
      NothingOverflows(MAX_EXPONENT - expFrac);
      if !IsDigit(PeekNext()) {
        failed := true;
        return;
      }
      RunFrom(t, 1);
      var first := Take();
      assert run == [first] + run[1..];
      assert t[1..][|run| - 1..] == t[|run|..];
      if expMinus {
        var exp := ParseNegativeExponent(expFrac, first);
      } else {
        var exp;
        exp, fits := ParsePositiveExponent(expFrac, first);
      }
    }

    /** An exponent, if there is one. */
    method ParseExponent(expFrac: int, ghost minus: bool, ghost whole: Text, ghost hasFraction: bool, ghost fraction: Text)
        returns (hasExponent: bool, ghost p: Parts, ghost fits: bool)
      requires Valid() && !failed && expFrac <= 0 && whole != [] && AllDigits(whole) && AllDigits(fraction)
      modifies this`pos, this`failed
      ensures Valid() && pos >= old(pos) && p == ExponentParts(minus, whole, hasFraction, fraction, old(Rest()))
      ensures failed == (p.NotNumber? || (p.hasExponent && !p.expMinus && Value(p.exponent) > MAX_EXPONENT - expFrac))
      ensures !failed ==> Rest() == p.rest && hasExponent == p.hasExponent
      ensures p.Parts? ==>
        fits == !(p.hasExponent && !p.expMinus && OverflowsBefore(p.exponent, MAX_EXPONENT - expFrac, |p.exponent|))
    {
      fits := true;
      p := ExponentParts(minus, whole, hasFraction, fraction, Rest());
      hide DigitRun, Value;
      hasExponent := Consume('e');
      if !hasExponent {
        hasExponent := Consume('E');
      }
      if hasExponent {
        fits := ParseExponentDigits(expFrac);
      }
    }

    /** A fraction, if there is one. */
    method ParseOptionalFraction(n: nat, significandDigit: nat, useDouble: bool, ghost minus: bool, ghost w: Text)
        returns (hasFraction: bool, expFrac: int, ghost fraction: Text)
      requires Valid() && !failed && w != [] && AllDigits(w) && (w[0] == '0' ==> |w| == 1)
      requires useDouble == TooBig(minus, Value(w))
      requires if useDouble then n > MAX_EXACT && significandDigit >= MAX_DIGITS else n == Value(w) && significandDigit == |w| - 1
      modifies this`pos, this`failed
      ensures Valid() && pos >= old(pos) && hasFraction == (Peek(old(Rest())) == '.') && expFrac <= 0
      ensures fraction == if hasFraction then DigitRun(old(Rest())[1..]) else []
      ensures failed == (hasFraction && fraction == [])
      ensures !failed ==> Rest() == if hasFraction then old(Rest())[1 + |fraction|..] else old(Rest())
      ensures !failed ==> expFrac + AddDigits(Significand(Value(w), |w| - 1, 0), fraction).count == 0
    {
      hide DigitRun, Value, AddDigits, TooBig, AllDigits;
      expFrac, fraction := 0, [];
      hasFraction := Consume('.');
      if hasFraction {
        fraction := DigitRun(Rest());
        if useDouble {
          NothingCounts(minus, w, n, significandDigit, fraction);
        }
        expFrac := ParseFraction(n, significandDigit, useDouble);
      } else {
        CountNone(Significand(Value(w), |w| - 1, 0));
      }
    }

    /** Fraction and exponent. fits says whether the exponent stays inside an int all the way. */
    method ParseFractionAndExponent(n: nat, significandDigit: nat, useDouble: bool, ghost minus: bool, ghost w: Text)
        returns (isDouble: bool, ghost p: Parts, ghost fits: bool)
      requires Valid() && !failed && w != [] && AllDigits(w) && (w[0] == '0' ==> |w| == 1)
      requires useDouble == TooBig(minus, Value(w))
      requires if useDouble then n > MAX_EXACT && significandDigit >= MAX_DIGITS else n == Value(w) && significandDigit == |w| - 1
      modifies this`pos, this`failed
      ensures Valid() && pos >= old(pos) && p == FractionParts(minus, w, old(Rest()))
      ensures failed == (p.NotNumber? || ExponentTooBig(p))
      ensures p.Parts? ==> fits == !ExponentOverflows(p)
      ensures !failed ==> Rest() == p.rest && isDouble == (useDouble || p.hasFraction || p.hasExponent)
    {
      p := FractionParts(minus, w, Rest());
      FractionCases(minus, w, Rest());
      hide DigitRun, Value, AddDigits, ExponentParts, FractionParts, TooBig, AllDigits, ExponentTooBig, ExponentOverflows, PartsOfDigits,
        OverflowsBefore;
      fits := true;
      var hasFraction, expFrac;
      ghost var fraction;
      hasFraction, expFrac, fraction := ParseOptionalFraction(n, significandDigit, useDouble, minus, w);
      isDouble := useDouble || hasFraction;
      if failed {
        return;
      }
      assert p == ExponentParts(minus, w, hasFraction, fraction, Rest());
      var hasExponent;
      ghost var q;
      PartsKept(minus, w, hasFraction, fraction, Rest());
      CountedFrom(p, w, fraction, expFrac);
      hasExponent, q, fits := ParseExponent(expFrac, minus, w, hasFraction, fraction);
      isDouble := isDouble || hasExponent;
    }

    /** The event of a number that has been read. */
    method HandleNumber(startOffset: nat, minus: bool, n: nat, use64bit: bool, useDouble: bool, ghost s: Text, ghost p: Parts)
      requires Valid() && !failed && startOffset <= pos && text[startOffset..] == s
      requires p == NumberParts(s) && p.Parts? && Rest() == p.rest && !ExponentTooBig(p) && useDouble == IsDouble(p)
      requires !useDouble ==>
        && minus == p.minus && n == Value(p.whole) && use64bit == (if minus then n > TWO31 else n >= TWO32)
      modifies this`events, this`failed
      ensures Outcome() == NumberFrom(cfg, s, old(events))
    {
      hide Value, NumberParts, Number, ExponentTooBig, IsDouble;
      NumberCases(cfg, s, p);
      if useDouble {
        var number := text[startOffset..pos];
        assert number == s[..|s| - |p.rest|];
        if cfg.overflows(number) {
          failed := true;
          return;
        }
        Handle(Double(number));
      } else if use64bit {
        Handle(if minus then Int64(0 - n) else Uint64(n));
      } else {
        Handle(if minus then Int(0 - n) else Uint(n));
      }
    }

    method ParseNumber()
      requires Valid() && !failed
      modifies this`pos, this`events, this`failed
      ensures Valid() && pos >= old(pos) && Outcome() == NumberFrom(cfg, old(Rest()), old(events))
    {
      ghost var s, q := Rest(), NumberParts(Rest());
      hide DigitRun, Value, AddDigits, Whole, ExponentParts, FractionParts, NumberParts, Number, CountedDigits;
      NumberCases(cfg, s, q);
      var startOffset := pos;
      var minus := Consume('-');
      ghost var w := Whole(Rest());
      NumberFromWhole(s, minus);
      WholeZero(Rest());
      var n, use64bit, useDouble, significandDigit := ParseWhole(minus);
      if failed {
        return;
      }
      PartsOfFraction(minus, w, Rest());
      ghost var p, fits;
      useDouble, p, fits := ParseFractionAndExponent(n, significandDigit, useDouble, minus, w);
      if failed {
        return;
      }
      HandleNumber(startOffset, minus, n, use64bit, useDouble, s, p);
    }

    // ---------- recursive descent ----------

    method ParseScalar()
      requires Valid() && !failed && PeekNext() != '{' && PeekNext() != '['
      modifies this`pos, this`events, this`failed
      ensures Valid() && pos >= old(pos) && Outcome() == Scalar(cfg, old(Rest()), old(events))
    {
      hide Literal, StringFrom, NumberFrom;
      match PeekNext()
      case 'n' => ParseWord('n', "ull", Null);
      case 't' => ParseWord('t', "rue", Bool(true));
      case 'f' => ParseWord('f', "alse", Bool(false));
      case '"' => ParseString(false);
      case _ => ParseNumber();
    }

    method ParseValue()
      requires Valid() && !failed
      modifies this`pos, this`events, this`failed
      ensures Valid() && pos >= old(pos) && Outcome() == ValueFrom(cfg, old(Rest()), old(events))
      decreases |text| - pos, 1
    {
      hide Scalar, ObjectFrom, ArrayFrom;
      match PeekNext()
      case '{' => ParseObject();
      case '[' => ParseArray();
      case _ => ParseScalar();
    }

    method ParseObject()
      requires Valid() && !failed && PeekNext() == '{'
      modifies this`pos, this`events, this`failed
      ensures Valid() && pos >= old(pos) && Outcome() == ObjectFrom(cfg, old(Rest())[1..], old(events))
      decreases |text| - pos, 0
    {
      hide Skip, ValueFrom, StringFrom, MemberFrom, AfterMember;
      var c := Take();
      Handle(StartObject);
      if failed {
        return;
      }
      SkipWhitespaceAndComments();
      if failed {
        return;
      }
      ghost var goal := ObjectStart(cfg, Rest(), events);
      var empty := Consume('}');
      if empty {
        Handle(EndObject(0));
        return;
      }
      var memberCount := 0;
      while true
        invariant Valid() && !failed && pos > old(pos) && 0 <= memberCount < TWO32
        invariant goal == MemberFrom(cfg, Rest(), events, memberCount)
        decreases |text| - pos
      {
        ParseMember(memberCount);
        if failed {
          return;
        }
        memberCount := (memberCount + 1) % TWO32;
        var done := EndMember(memberCount);
        if failed || done {
          return;
        }
      }
    }

    /** A member: its name, a colon and its value. */
    method ParseMember(ghost count: nat)
      requires Valid() && !failed
      modifies this`pos, this`events, this`failed
      ensures Valid() && pos >= old(pos) && (!failed ==> pos > old(pos))
      ensures MemberFrom(cfg, old(Rest()), old(events), count) ==
        if failed then Fail(events) else AfterMember(cfg, Rest(), events, (count + 1) % TWO32)
      decreases |text| - pos, 3
    {
      hide Skip, StringFrom, AfterMember, ColonFrom;
      if PeekNext() != '"' {
        failed := true;
        return;
      }
      ParseString(true);
      if failed {
        return;
      }
      SkipWhitespaceAndComments();
      if failed {
        return;
      }
      ParseAfterName(count);
    }

    method ParseAfterName(ghost count: nat)
      requires Valid() && !failed
      modifies this`pos, this`events, this`failed
      ensures Valid() && pos >= old(pos) && (!failed ==> pos > old(pos))
      ensures ColonFrom(cfg, old(Rest()), old(events), count) ==
        if failed then Fail(events) else AfterMember(cfg, Rest(), events, (count + 1) % TWO32)
      decreases |text| - pos, 2
    {
      hide Skip, ValueFrom, AfterMember;
      var colon := Consume(':');
      if !colon {
        failed := true;
        return;
      }
      SkipWhitespaceAndComments();
      if failed {
        return;
      }
      ghost var goal := MemberValueFrom(cfg, Rest(), events, count);
      ParseValue();
    }

    /** After a member: a comma and the next one, or the end. */
    method EndMember(count: nat) returns (done: bool)
      requires Valid() && !failed
      modifies this`pos, this`events, this`failed
      ensures Valid() && pos >= old(pos)
      ensures AfterMember(cfg, old(Rest()), old(events), count) ==
        if failed then Fail(events) else if done then Ok(Rest(), events) else MemberFrom(cfg, Rest(), events, count)
    {
      hide Skip, MemberFrom;
      done := false;
      SkipWhitespaceAndComments();
      if failed {
        return;
      }
      ghost var goal := MemberEnd(cfg, Rest(), events, count);
      var comma := Consume(',');
      if comma {
        SkipWhitespaceAndComments();
        if failed {
          return;
        }
        ghost var next := NextMember(cfg, Rest(), events, count);
        if cfg.trailingCommas && PeekNext() == '}' {
          HandleThenTake(EndObject(count));
          done := true;
        }
      } else {
        var closed := Consume('}');
        if !closed {
          failed := true;
          return;
        }
        Handle(EndObject(count));
        done := true;
      }
    }

    method ParseArray()
      requires Valid() && !failed && PeekNext() == '['
      modifies this`pos, this`events, this`failed
      ensures Valid() && pos >= old(pos) && Outcome() == ArrayFrom(cfg, old(Rest())[1..], old(events))
      decreases |text| - pos, 0
    {
      hide Skip, ValueFrom, AfterElement;
      var c := Take();
      Handle(StartArray);
      if failed {
        return;
      }
      SkipWhitespaceAndComments();
      if failed {
        return;
      }
      ghost var goal := ArrayStart(cfg, Rest(), events);
      var empty := Consume(']');
      if empty {
        Handle(EndArray(0));
        return;
      }
      var elementCount := 0;
      while true
        invariant Valid() && !failed && pos > old(pos) && 0 <= elementCount < TWO32
        invariant goal == ElementFrom(cfg, Rest(), events, elementCount)
        decreases |text| - pos
      {
        ParseValue();
        if failed {
          return;
        }
        elementCount := (elementCount + 1) % TWO32;
        var done := EndElement(elementCount);
        if failed || done {
          return;
        }
      }
    }

    /** After an element: a comma and the next one, or the end. */
    method EndElement(count: nat) returns (done: bool)
      requires Valid() && !failed
      modifies this`pos, this`events, this`failed
      ensures Valid() && pos >= old(pos)
      ensures AfterElement(cfg, old(Rest()), old(events), count) ==
        if failed then Fail(events) else if done then Ok(Rest(), events) else ElementFrom(cfg, Rest(), events, count)
    {
      hide Skip, ElementFrom;
      done := false;
      SkipWhitespaceAndComments();
      if failed {
        return;
      }
      ghost var goal := ElementEnd(cfg, Rest(), events, count);
      var comma := Consume(',');
      if comma {
        SkipWhitespaceAndComments();
        if failed {
          return;
        }
        ghost var next := NextElement(cfg, Rest(), events, count);
        if cfg.trailingCommas && PeekNext() == ']' {
          HandleThenTake(EndArray(count));
          done := true;
        }
      } else {
        var closed := Consume(']');
        if !closed {
          failed := true;
          return;
        }
        Handle(EndArray(count));
        done := true;
      }
    }

    // ---------- documents ----------

    /** Parse without the iterative flag: the same as recursive descent on the whole text. */
    method ParseRecursive()
      requires pos == 0 && events == [] && !failed
      modifies this`pos, this`events, this`failed
      ensures Valid() && Outcome() == Document(cfg, text)
    {
      hide Skip, ValueFrom, Document;
      assert Rest() == text;
      DocumentCases(cfg, text);
      SkipWhitespaceAndComments();
      if failed {
        return;
      }
      if PeekNext() == '\0' {
        failed := true;
        return;
      }
      ParseValue();
      if failed {
        return;
      }
      if !cfg.stopWhenDone {
        SkipWhitespaceAndComments();
        if failed {
          return;
        }
        if PeekNext() != '\0' {
          failed := true;
        }
      }
    }

    // ---------- the table-driven parser ----------

    /** The machine state of the table-driven parser. */
    function Snapshot(state: State): Machine
      requires Valid()
      reads this
    {
      Machine(state, stack, Rest(), events)
    }

    /** The reader has made the step to next; after an error only the events matter. */
    predicate Reached(next: Machine, d: State)
      requires Valid()
      reads this
    {
      d == next.state && events == next.events && (d != Error ==> !failed && next == Snapshot(d))
    }

    /** After a result of the parser. */
    lemma ResultReached(next: Machine, r: Res, state: State, s: Text, d: State)
      requires Valid() && state != Error && r == Outcome()
      requires next == Entered(r, state, stack, s) && d == if failed then Error else state
      ensures Reached(next, d)
    {}

    /** In a state that is no error. */
    lemma StateReached(next: Machine, d: State)
      requires Valid() && events == next.events && d == next.state && (d != Error ==> !failed && next == Snapshot(d))
      ensures Reached(next, d)
    {}

    method PushFrame(src: State, dst: State) returns (d: State)
      requires Valid() && !failed && pos < |text| && dst != Error
      modifies this`pos, this`events, this`failed, this`stack
      ensures Valid() && pos >= old(pos) && Reached(Push(cfg, old(Snapshot(src)), dst), d)
    {
      ghost var m := Snapshot(src);
      var n := src;
      if src == ArrayInitial || src == ElementDelimiter {
        n := Element;
      } else if src == KeyValueDelimiter {
        n := MemberValue;
      }
      assert n == Pushed(src);
      hide Emit, Pushed, Reached, Entered;
      stack := stack + [Frame(n, 0)];
      HandleThenTake(if dst == ObjectInitial then StartObject else StartArray);
      d := if failed then Error else dst;
      ResultReached(Push(cfg, m, dst), Outcome(), dst, m.rest, d);
    }

    method PopFrame(src: State, isObject: bool, last: State) returns (d: State)
      requires Valid() && !failed && pos < |text| && stack != [] && stack[|stack| - 1].ret != Error
      modifies this`pos, this`events, this`failed, this`stack
      ensures Valid() && pos >= old(pos) && Reached(Pop(cfg, old(Snapshot(src)), isObject, last), d)
    {
      hide Emit, Reached, Entered;
      ghost var m := Snapshot(src);
      var top := stack[|stack| - 1];
      var c := top.count;
      if src == last {
        c := (c + 1) % TWO32;
      }
      stack := stack[..|stack| - 1];
      HandleThenTake(if isObject then EndObject(c) else EndArray(c));
      var n := if top.ret == Start then Finish else top.ret;
      d := if failed then Error else n;
      ResultReached(Pop(cfg, m, isObject, last), Outcome(), n, m.rest, d);
    }

    method CountOne(src: State, dst: State)
      requires Valid() && !failed && pos < |text| && stack != []
      modifies this`pos, this`stack
      ensures Valid() && pos >= old(pos) && Snapshot(dst) == Counted(old(Snapshot(src)), dst)
    {
      var c := Take();
      var n := |stack| - 1;
      stack := stack[n := stack[n].(count := (stack[n].count + 1) % TWO32)];
    }

    /** A name or a value that is no container. */
    method AdvanceOver(src: State, dst: State, state: State) returns (d: State)
      requires Valid() && !failed && pos < |text| && dst in {MemberKey, MemberValue, Element, SingleValue}
      requires state == (if dst == SingleValue then Finish else dst) && (dst == MemberKey ==> PeekNext() == '"')
      modifies this`pos, this`events, this`failed
      ensures Valid() && pos >= old(pos)
      ensures Reached(Entered(Outcome(), state, old(stack), old(Rest())), d)
      ensures Outcome() ==
        if dst == MemberKey then StringFrom(cfg, old(Rest()), old(events), true) else ValueFrom(cfg, old(Rest()), old(events))
    {
      hide ValueFrom, StringFrom, Reached, Entered;
      ghost var s := Rest();
      if dst == MemberKey {
        ParseString(true);
      } else {
        ParseValue();
      }
      d := if failed then Error else state;
      ResultReached(Entered(Outcome(), state, stack, s), Outcome(), state, s, d);
    }

    /** Advance by the token that has led to dst. */
    method AdvanceTo(src: State, dst: State) returns (d: State)
      requires Valid() && !failed && pos < |text| && (stack != [] ==> stack[|stack| - 1].ret != Error)
      requires dst in {MemberDelimiter, ElementDelimiter, ObjectFinish, ArrayFinish} ==> stack != []
      requires dst == MemberKey ==> PeekNext() == '"'
      modifies this`pos, this`events, this`failed, this`stack
      ensures Valid() && pos >= old(pos) && Reached(Transit(cfg, old(Snapshot(src)), dst), d)
    {
      hide ValueFrom, StringFrom, Push, Pop, Counted, Entered, Reached;
      ghost var next := Transit(cfg, Snapshot(src), dst);
      match dst {
        case ObjectInitial => d := PushFrame(src, dst);
        case ArrayInitial => d := PushFrame(src, dst);
        case MemberKey => d := AdvanceOver(src, dst, dst);
        case KeyValueDelimiter =>
          var colon := Take();
          d := dst;
          StateReached(next, d);
        case MemberValue => d := AdvanceOver(src, dst, dst);
        case Element => d := AdvanceOver(src, dst, dst);
        case MemberDelimiter =>
          CountOne(src, dst);
          d := dst;
          StateReached(next, d);
        case ElementDelimiter =>
          CountOne(src, dst);
          d := dst;
          StateReached(next, d);
        case ObjectFinish =>
          if !cfg.trailingCommas && src == MemberDelimiter {
            d := Error;
            StateReached(next, d);
          } else {
            d := PopFrame(src, true, MemberValue);
          }
        case ArrayFinish =>
          if !cfg.trailingCommas && src == ElementDelimiter {
            d := Error;
            StateReached(next, d);
          } else {
            d := PopFrame(src, false, Element);
          }
        case SingleValue => d := AdvanceOver(src, dst, Finish);
        case _ =>
          d := Error;
          StateReached(next, d);
      }
    }

    /** Parse with the iterative flag: the same as recursive descent on the whole text. */
    method IterativeParse()
      requires pos == 0 && events == [] && !failed && stack == []
      modifies this
      ensures Valid() && Outcome() == Iterative(cfg, text) == Document(cfg, text)
    {
      ParsersAgree(cfg, text);
      hide Skip, Step, Stacked, Run, Document;
      var state := Start;
      assert Rest() == text;
      SkipWhitespaceAndComments();
      if failed {
        return;
      }
      InitiallyStacked();
      while PeekNext() != '\0'
        invariant Valid() && !failed && Stacked(state, stack)
        invariant Iterative(cfg, text) == Run(cfg, Snapshot(state))
        decreases |text| - pos
      {
        ghost var m := Snapshot(state);
        RunNext(cfg, m);
        var n := Predict(state, Tokenize(PeekNext()));
        Predicted(cfg, m);
        var d := AdvanceTo(state, n);
        if d == Error {
          failed := true;
          return;
        }
        state := d;
        if cfg.stopWhenDone && state == Finish {
          break;
        }
        SkipWhitespaceAndComments();
        if failed {
          return;
        }
      }
      RunNext(cfg, Snapshot(state));
      if state != Finish {
        failed := true;
      }
    }
  }

  lemma InitiallyStacked()
    ensures Stacked(Start, [])
  {}

  /** One turn of the loop of the automaton. */
  lemma RunNext(cfg: Config, m: Machine)
    requires Stacked(m.state, m.stack)
    ensures Peek(m.rest) == '\0' ==> Run(cfg, m) == if m.state == Finish then Ok(m.rest, m.events) else Fail(m.events)
    ensures Peek(m.rest) != '\0' ==>
      var next := Step(cfg, m);
      Run(cfg, m) ==
        if next.state == Error then Fail(next.events)
        else if cfg.stopWhenDone && next.state == Finish then Ok(next.rest, next.events)
        else
          var t := Skip(cfg, next.rest);
          if t.Unclosed? then Fail(next.events) else Run(cfg, next.(rest := t.rest))
  {
    hide Step, Skip, Stacked;
  }

  /** A step is a transition to the predicted state, and such a transition is possible. */
  lemma Predicted(cfg: Config, m: Machine)
    requires Stacked(m.state, m.stack) && Peek(m.rest) != '\0'
    ensures
      var n := Predict(m.state, Tokenize(Peek(m.rest)));
      && (m.stack != [] ==> m.stack[|m.stack| - 1].ret != Error)
      && (n in {MemberDelimiter, ElementDelimiter, ObjectFinish, ArrayFinish} ==> m.stack != [])
      && (n == MemberKey ==> Peek(m.rest) == '"')
      && Step(cfg, m) == Transit(cfg, m, n)
  {
    hide Transit;
  }

  /** The value of a negative exponent; while more digits are to come the guard has not been passed. */
  predicate Guarded(expFrac: int, exp: nat, more: bool) {
    var maxExp := (expFrac + 2147483639) / 10;
    expFrac >= 0 - MAX_FRACTION ==> exp <= 9 || exp <= maxExp || (!more && exp <= 10 * maxExp + 9)
  }

  lemma GuardedFirst(expFrac: int, exp: nat)
    requires exp <= 9
    ensures Guarded(expFrac, exp, true) && Guarded(expFrac, exp, false)
  {}

  lemma GuardedNext(expFrac: int, exp: nat, d: nat)
    requires Guarded(expFrac, exp, true) && d <= 9
    ensures var next := 10 * exp + d; next <= (expFrac + 2147483639) / 10 ==> Guarded(expFrac, next, true)
    ensures Guarded(expFrac, 10 * exp + d, false)
  {}

  lemma GuardedBounds(expFrac: int, exp: nat)
    requires expFrac <= 0 && Guarded(expFrac, exp, false)
    ensures expFrac >= 0 - MAX_FRACTION ==> exp < TWO31 && expFrac - exp >= 0 - TWO31
  {}

  // ---------- where a positive exponent exceeds an int ----------

  lemma NothingOverflows(maxExp: int)
    ensures !OverflowsBefore([], maxExp, 0)
  {}

  /** The loop over an exponent has taken count digits behind the first one, and none was refused. */
  ghost predicate Climbing(first: Ch, run: Text, maxExp: int, count: nat, exp: nat, fits: bool) {
    var ds := [first] + run;
    && count <= |run| && AllDigits(ds) && exp == Value(ds[..1 + count]) <= maxExp
    && fits == !OverflowsBefore(ds, maxExp, 1 + count)
  }

  /** What the exponent comes to: refused or not, and whether it stayed inside an int. */
  ghost predicate Climbed(first: Ch, run: Text, maxExp: int, refused: bool, exp: nat, fits: bool)
    requires AllDigits([first] + run)
  {
    var ds := [first] + run;
    && refused == (Value(ds) > maxExp) && (!refused ==> exp == Value(ds))
    && fits == !OverflowsBefore(ds, maxExp, |ds|)
  }

  lemma ClimbingStart(first: Ch, run: Text, maxExp: int)
    requires IsDigit(first) && AllDigits(run) && maxExp >= 9
    ensures Climbing(first, run, maxExp, 0, DigitOf(first), true)
  {
    hide Value;
    FirstDigit(first);
    assert ([first] + run)[..1] == [first];
  }

  lemma ClimbingStep(first: Ch, run: Text, maxExp: int, count: nat, exp: nat, fits: bool)
    requires Climbing(first, run, maxExp, count, exp, fits) && count < |run| && IsDigit(run[count])
    ensures
      var next := 10 * exp + DigitOf(run[count]);
      if next > maxExp then Climbed(first, run, maxExp, true, next, fits && next < TWO31)
      else Climbing(first, run, maxExp, count + 1, next, fits && next < TWO31)
  {
    hide Value, OverflowsBefore;
    var ds := [first] + run;
    assert ds[..1 + count] + [run[count]] == ds[..2 + count];
    ValueMore(ds[..1 + count], run[count]);
    OverflowsAt(ds, maxExp, 1 + count);
    if Value(ds[..2 + count]) > maxExp {
      if 2 + count < |ds| {
        OverflowsNoMore(ds, maxExp, 2 + count);
      }
      assert ds == ds[..2 + count] + ds[2 + count..];
      ValueMonotone(ds[..2 + count], ds[2 + count..]);
    }
  }

  lemma ClimbingEnd(first: Ch, run: Text, maxExp: int, exp: nat, fits: bool)
    requires Climbing(first, run, maxExp, |run|, exp, fits)
    ensures Climbed(first, run, maxExp, false, exp, fits)
  {
    hide Value, OverflowsBefore;
    assert ([first] + run)[..1 + |run|] == [first] + run;
  }

  lemma DocumentCases(cfg: Config, s: Text)
    ensures Document(cfg, s) == (var t := Skip(cfg, s); if t.Unclosed? then Fail([]) else RootFrom(cfg, t.rest, []))
  {
    hide Skip, RootFrom;
  }

  lemma PartsKept(minus: bool, whole: Text, hasFraction: bool, fraction: Text, s: Text)
    requires whole != [] && AllDigits(whole) && AllDigits(fraction)
    ensures
      var p := ExponentParts(minus, whole, hasFraction, fraction, s);
      p.Parts? ==> p.minus == minus && p.whole == whole && p.hasFraction == hasFraction && p.fraction == fraction
  {}

  lemma FractionCases(minus: bool, whole: Text, s: Text)
    requires whole != [] && AllDigits(whole)
    ensures
      var hasFraction := Peek(s) == '.';
      var fraction := if hasFraction then DigitRun(s[1..]) else [];
      && AllDigits(fraction)
      && FractionParts(minus, whole, s) ==
        if hasFraction && fraction == [] then NotNumber
        else ExponentParts(minus, whole, hasFraction, fraction, if hasFraction then s[1 + |fraction|..] else s)
  {
    hide DigitRun, ExponentParts;
  }

  lemma CountedFrom(p: Parts, whole: Text, fraction: Text, expFrac: int)
    requires PartsOfDigits(p) && AllDigits(whole) && AllDigits(fraction) && whole != []
    requires expFrac + AddDigits(Significand(Value(whole), |whole| - 1, 0), fraction).count == 0
    ensures p.Parts? && p.whole == whole && p.fraction == fraction ==>
      && ExponentTooBig(p) == (p.hasExponent && !p.expMinus && Value(p.exponent) > MAX_EXPONENT - expFrac)
      && ExponentOverflows(p)
         == (p.hasExponent && !p.expMinus && OverflowsBefore(p.exponent, MAX_EXPONENT - expFrac, |p.exponent|))
  {
    hide AddDigits, Value, OverflowsBefore;
  }

  lemma PartsOfFraction(minus: bool, whole: Text, s: Text)
    requires whole != [] && AllDigits(whole)
    ensures var p := FractionParts(minus, whole, s); p.Parts? ==> p.minus == minus && p.whole == whole
  {
    hide DigitRun;
  }

  lemma CountNone(a: Significand)
    ensures AddDigits(a, []) == a
  {}

  lemma NumberFromWhole(s: Text, minus: bool)
    requires minus == (Peek(s) == '-')
    ensures
      var s1 := if minus then s[1..] else s;
      var w := Whole(s1);
      NumberParts(s) == if w == [] then NotNumber else FractionParts(minus, w, s1[|w|..])
  {}

  /** The running values of the loops over a fraction. */
  predicate Tallied(a: Significand, ds: Text, v: nat, sig: nat, expFrac: int) {
    AllDigits(ds) && var r := AddDigits(a, ds); r.v == v && r.sig == sig && r.count + expFrac == a.count
  }

  /** One more digit while the significand is exact. */
  lemma TallyExact(a: Significand, run: Text, count: nat, v: nat, sig: nat, expFrac: int)
    requires AllDigits(run) && count < |run| && Tallied(a, run[..count], v, sig, expFrac) && v <= MAX_EXACT
    ensures
      var v1 := 10 * v + DigitOf(run[count]);
      Tallied(a, run[..count + 1], v1, if v1 != 0 then sig + 1 else sig, expFrac - 1)
  {
    hide AddDigits, DigitOf, IsDigit;
    CountNext(a, run, count);
  }

  lemma NoneCounted(a: Significand, ds: Text)
    requires ds == []
    ensures Tallied(a, ds, a.v, a.sig, 0)
  {}

  lemma CountNext(a: Significand, run: Text, count: nat)
    requires AllDigits(run) && count < |run|
    ensures AddDigits(a, run[..count + 1]) == AddDigit(AddDigits(a, run[..count]), DigitOf(run[count]))
  {
    CountMore(a, run[..count], run[count]);
    assert run[..count + 1] == run[..count] + [run[count]];
  }

  lemma LastDigits()
    ensures IsDigit('8') && DigitOf('8') == 8 && IsDigit('5') && DigitOf('5') == 5
  {}

  lemma SameDigits(c: Ch, run: Text, s: Text, n: nat)
    requires n <= |run| <= |s|
    ensures [c] + run[..n] + run[n..] == [c] + run
    ensures s[n..][|run| - n..] == s[|run|..]
  {}

  lemma FirstOfRun(s: Text)
    requires s != [] && IsDigit(s[0]) && s[0] != '0'
    ensures Whole(s) == [s[0]] + DigitRun(s[1..])
  {}

  lemma NoDigits(s: Text)
    requires s == [] || !IsDigit(s[0])
    ensures Whole(s) == []
  {}

  lemma FirstDigit(c: Ch)
    requires IsDigit(c)
    ensures AllDigits([c]) && Value([c]) == DigitOf(c)
  {}

  /** The value of all digits is at least that of some of them and one more. */
  lemma BeyondPrefix(done: Text, run: Text, count: nat, v: nat)
    requires AllDigits(done) && AllDigits(run) && count <= |run| && v == Value(done + run[..count])
    ensures AllDigits(done + run)
    ensures count < |run| ==> Value(done + run) >= 10 * v + DigitOf(run[count])
    ensures count == |run| ==> Value(done + run) == v
  {
    if count < |run| {
      var a := done + run[..count];
      ValueMore(a, run[count]);
      ValueMonotone(a + [run[count]], run[count + 1..]);
      assert done + run == a + [run[count]] + run[count + 1..];
    } else {
      assert run[..count] == run;
    }
  }
}
