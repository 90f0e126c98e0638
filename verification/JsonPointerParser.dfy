/** GenericPointer::Parse: one buffer as long as the source takes all names with their terminators. */
module JsonPointerParser {
  import opened JsonEncodings
  import opened JsonNumber
  import opened JsonPointer
  import opened JsonPrinter
  import opened JsonString
  import opened JsonText

  const INVALID_INDEX: nat := 0xFFFF_FFFF
  const TWO32: nat := 0x1_0000_0000

  /** A name in the buffer, and its array index. */
  datatype Token = Token(start: nat, length: nat, index: nat)

  // ---------- indices ----------

  /** The conversion to 32 bits, stopped when the value seems to have wrapped around. */
  function SizeFrom(ds: Text, n: nat): nat
    requires AllDigits(ds)
  {
    if ds == [] then n
    else
      var m := (10 * n + DigitOf(ds[0])) % TWO32;
      if m < n then INVALID_INDEX else SizeFrom(ds[1..], m)
  }

  /** The array index of a name: decimal digits without leading zeros. */
  function IndexOf(name: Text): nat {
    if name == [] || !AllDigits(name) || (|name| > 1 && name[0] == '0') then INVALID_INDEX else SizeFrom(name, 0)
  }

  /** The digits ds do not wrap around. */
  lemma {:induction false} SizeInRange(done: Text, ds: Text, tail: Text)
    requires AllDigits(done) && AllDigits(ds) && AllDigits(tail) && Value(done + ds) < TWO32
    ensures SizeFrom(ds + tail, Value(done)) == SizeFrom(tail, Value(done + ds))
    decreases |ds|
  {
    if ds == [] {
      assert done + ds == done && ds + tail == tail;
    } else {
      var more := done + [ds[0]];
      assert done + ds == more + ds[1..] && (ds + tail)[1..] == ds[1..] + tail;
      ValueMore(done, ds[0]);
      ValueMonotone(more, ds[1..]);
      SizeInRange(more, ds[1..], tail);
      SizeStep(ds + tail, Value(done));
    }
  }

  lemma SizeStep(ds: Text, n: nat)
    requires AllDigits(ds) && ds != [] && 10 * n + DigitOf(ds[0]) < TWO32
    ensures SizeFrom(ds, n) == SizeFrom(ds[1..], 10 * n + DigitOf(ds[0]))
  {}

  /** The index is the number that the digits denote when that fits 32 bits. */
  lemma IndexValue(name: Text)
    requires name != [] && AllDigits(name) && (|name| > 1 ==> name[0] != '0') && Value(name) < TWO32
    ensures IndexOf(name) == Value(name)
  {
    assert [] + name == name && name + [] == name;
    SizeInRange([], name, []);
  }

  /** The value of the first digits, kept in 32 bits, is less with digit k than without it. */
  predicate DropsAt(name: Text, k: nat)
    requires AllDigits(name)
  {
    k < |name| && Value(name[..k + 1]) % TWO32 < Value(name[..k]) % TWO32
  }

  /** The conversion of the digits ds behind others: invalid when the value drops at one of them, or else the
      number that all digits denote modulo 2^32. */
  lemma {:induction false} SizeWrapped(done: Text, ds: Text)
    requires AllDigits(done) && AllDigits(ds)
    ensures SizeFrom(ds, Value(done) % TWO32)
         == if exists k: nat :: |done| <= k && DropsAt(done + ds, k) then INVALID_INDEX else Value(done + ds) % TWO32
    decreases |ds|
  {
    hide Value;
    if ds == [] {
      assert done + ds == done;
    } else {
      var more := done + [ds[0]];
      assert done + ds == more + ds[1..];
      assert (done + ds)[..|done|] == done && (done + ds)[..|done| + 1] == more;
      ValueMore(done, ds[0]);
      WrappedStep(Value(done), DigitOf(ds[0]));
      assert DropsAt(done + ds, |done|) <==> Value(more) % TWO32 < Value(done) % TWO32;
      if !DropsAt(done + ds, |done|) {
        SizeWrapped(more, ds[1..]);
        forall k: nat ensures |done| <= k && DropsAt(done + ds, k) <==> |more| <= k && DropsAt(more + ds[1..], k) {
          assert k != |done| || !DropsAt(done + ds, k);
        }
      }
    }
  }

  lemma WrappedStep(v: nat, d: nat)
    ensures (10 * (v % TWO32) + d) % TWO32 == (10 * v + d) % TWO32
  {
    assert 10 * v + d == (10 * (v % TWO32) + d) + 10 * (v / TWO32) * TWO32;
  }

  /** The index of any digits without leading zeros: none when the value drops at some digit, or else the number
      modulo 2^32. */
  lemma IndexWrapped(name: Text)
    requires name != [] && AllDigits(name) && (|name| > 1 ==> name[0] != '0')
    ensures IndexOf(name) == if exists k: nat :: DropsAt(name, k) then INVALID_INDEX else Value(name) % TWO32
  {
    hide Value, SizeFrom, DropsAt;
    ValueOfNothing();
    SizeWrapped([], name);
    assert [] + name == name;
  }

  /** So it is the number or none at all exactly when the number fits 32 bits, the value drops at some digit, or
      the number modulo 2^32 is the mark for none. */
  lemma IndexRight(name: Text)
    requires name != [] && AllDigits(name) && (|name| > 1 ==> name[0] != '0')
    ensures IndexOf(name) == Value(name) || IndexOf(name) == INVALID_INDEX
      <==> Value(name) < TWO32 || (exists k: nat :: DropsAt(name, k)) || Value(name) % TWO32 == INVALID_INDEX
  {
    hide Value, IndexOf;
    IndexWrapped(name);
    if Value(name) < TWO32 {
      IndexValue(name);
    }
  }

  /** One more digit that may wrap around: noticed exactly when the wrapped value is less than the value
      before. */
  lemma IndexOfDecimal(n: nat)
    requires 10 <= n && n / 10 < TWO32
    ensures IndexOf(Decimal(n)) == if n % TWO32 < n / 10 then INVALID_INDEX else n % TWO32
  {
    hide Value, Decimal, DigitChar, SizeFrom;
    var ds, c := Decimal(n / 10), DigitChar(n % 10);
    DecimalParts(n);
    DecimalValue(n / 10);
    assert [] + ds == ds;
    ValueOfNothing();
    SizeInRange([], ds, [c]);
    OneSize(c, n / 10, n);
  }

  lemma OneSize(c: Ch, v: nat, n: nat)
    requires IsDigit(c) && n == 10 * v + DigitOf(c)
    ensures SizeFrom([c], v) == if n % TWO32 < v then INVALID_INDEX else n % TWO32
  {}

  lemma DecimalParts(n: nat)
    requires n >= 10
    ensures Decimal(n) == Decimal(n / 10) + [DigitChar(n % 10)] && n == 10 * (n / 10) + n % 10
  {}

  lemma ValueOfNothing()
    ensures Value([]) == 0
  {}

  /** So some numbers that do not fit become the index of another element. */
  lemma IndexWraps()
    ensures IndexOf(Decimal(6_000_000_000)) == 1_705_032_704
  {
    IndexOfDecimal(6_000_000_000);
  }

  // ---------- the buffer ----------

  /** The tokens lie in the buffer before position end: their names, each with a null character after it,
      and their indices. */
  predicate Holds(b: Text, tokens: seq<Token>, names: seq<Text>, end: nat) {
    && end <= |b| && |tokens| == |names|
    && (forall k | 0 <= k < |tokens| :: HoldsName(b, tokens[k], names[k], end))
  }

  predicate HoldsName(b: Text, t: Token, name: Text, end: nat) {
    && t.length == |name| && t.start + t.length < end <= |b| && t.index == IndexOf(name)
    && b[t.start..t.start + t.length] == name && b[t.start + t.length] == '\0'
  }

  lemma HoldsStill(b: Text, b1: Text, tokens: seq<Token>, names: seq<Text>, end: nat, end1: nat)
    requires Holds(b, tokens, names, end) && end <= end1 <= |b1| && |b1| == |b| && b1[..end] == b[..end]
    ensures Holds(b1, tokens, names, end1)
  {}

  function Slashes(s: Text): nat { if s == [] then 0 else (if s[0] == '/' then 1 else 0) + Slashes(s[1..]) }

  /** Write a text into a buffer. */
  method WriteAt(buffer: array<Ch>, at: nat, t: Text)
    requires at + |t| <= buffer.Length
    modifies buffer
    ensures buffer[..at] == old(buffer[..at]) && buffer[at..at + |t|] == t
  {
    var k := 0;
    while k < |t|
      invariant 0 <= k <= |t| && buffer[..at] == old(buffer[..at]) && buffer[at..at + k] == t[..k]
    {
      buffer[at + k] := t[k];
      k := k + 1;
    }
    assert t[..k] == t;
  }

  /** One byte through a PercentDecodeStream; a null character if there is no triplet. */
  method TakeTriplet(source: Text, at: nat) returns (valid: bool, c: Ch)
    requires at <= |source|
    ensures
      var t := PercentDecoded(source[at..]);
      valid == t.Triplet? && if valid then c == t.c && at + 3 <= |source| && t.rest == source[at + 3..] else c == '\0'
  {
    c := '\0';
    if at == |source| || source[at] != '%' || at + 3 > |source| {
      return false, c;
    }
    var s := source[at..];
    assert s[3..] == source[at + 3..];
    var n: nat := 0;
    for j := 1 to 3
      invariant j == 1 ==> n == 0
      invariant j == 2 ==> 0 <= HexDigit(s[1]) == n
      invariant j == 3 ==> 0 <= HexDigit(s[1]) && 0 <= HexDigit(s[2]) && n == 16 * HexDigit(s[1]) + HexDigit(s[2])
    {
      var d := HexDigit(s[j]);
      if d < 0 {
        return false, c;
      }
      n := 16 * n + d;
    }
    valid, c := true, Byte(n);
  }

  lemma SequenceStart(s: Text, c: Ch)
    requires var t := PercentDecoded(s); if t.Triplet? then c == t.c else c == '\0'
    ensures PercentDecoded(s).NoTriplet? ==> Sequence(s).Malformed?
    ensures
      var t := PercentDecoded(s);
      t.Triplet? ==>
        var (n, mask) := Followers(GetRange(c));
        Sequence(s) ==
          if c as int < 0x80 then Scanned([c], t.rest) else if n == 0 then Malformed else SequenceTail([c], t.rest, n, mask)
  {
    hide PercentDecoded, SequenceTail, Followers, GetRange;
  }

  lemma SequenceMore(b: Text, s: Text, n: nat, mask: bv8)
    requires n > 0
    ensures
      var t := PercentDecoded(s);
      SequenceTail(b, s, n, mask) ==
        if t.NoTriplet? || !InRange(t.c, mask) then Malformed else SequenceTail(b + [t.c], t.rest, n - 1, 0x70)
  {}

  lemma NeverInRange(mask: bv8)
    ensures !InRange('\0', mask)
  {}

  lemma FewFollowers(c: Ch)
    ensures Followers(GetRange(c)).0 <= 3
  {}

  /** UTF8::Validate from a PercentDecodeStream into the buffer. Even a sequence that turns out to be invalid
      is written no further than it was read. */
  method ValidateSequence(source: Text, i: nat, buffer: array<Ch>, name: nat) returns (valid: bool, len: nat)
    requires name < i < |source| <= buffer.Length
    modifies buffer
    ensures buffer[..name] == old(buffer[..name])
    ensures
      var r := Sequence(source[i..]);
      valid == r.Scanned? && (valid ==>
        && len == |r.value| && i + 3 * len <= |source| && r.rest == source[i + 3 * len..]
        && name + len <= buffer.Length && buffer[name..name + len] == r.value)
  {
    hide PercentDecoded, InRange, GetRange, Followers, Sequence, SequenceTail;
    ghost var s := source[i..];
    var c;
    valid, c := TakeTriplet(source, i);
    SequenceStart(s, c);
    buffer[name] := c;
    len := 1;
    if !valid || c as int < 0x80 {
      assert buffer[name..name + 1] == [c];
      return;
    }
    FewFollowers(c);
    var (n, mask) := Followers(GetRange(c));
    if n == 0 {
      return false, len;
    }
    var m, at := mask, i + 3;
    assert buffer[name..name + len] == [c];
    while len < n + 1
      invariant 1 <= len <= n + 1 <= 4 && at <= |source| && buffer[..name] == old(buffer[..name])
      invariant valid ==> at == i + 3 * len && Sequence(s) == SequenceTail(buffer[name..name + len], source[at..], n + 1 - len, m)
      invariant !valid ==> Sequence(s) == Malformed
    {
      ghost var b := buffer[name..name + len];
      var triplet;
      triplet, c := TakeTriplet(source, at);
      SequenceMore(b, source[at..], n + 1 - len, m);
      NeverInRange(m);
      buffer[name + len] := c;
      assert buffer[name..name + len + 1] == b + [c];
      valid := valid && InRange(c, m);
      len := len + 1;
      m := 0x70;
      if triplet {
        at := at + 3;
      }
    }
    SequenceDone(buffer[name..name + len], source[at..], m);
  }

  lemma SequenceDone(b: Text, s: Text, mask: bv8)
    ensures SequenceTail(b, s, 0, mask) == Scanned(b, s)
  {}

  // ---------- names and pointers ----------

  /** The name read so far is in the buffer. */
  ghost predicate Reading(uri: bool, s: Text, done: Text, rest: Text) {
    NameFrom(uri, s) == Prepend(done, NameFrom(uri, rest))
  }

  lemma ReadingMore(uri: bool, s: Text, done: Text, rest: Text, more: Text, next: Text)
    requires Reading(uri, s, done, rest) && NameFrom(uri, rest) == Prepend(more, NameFrom(uri, next))
    ensures Reading(uri, s, done + more, next)
  {
    hide NameFrom;
    PrependTwice(done, more, NameFrom(uri, next));
  }

  lemma ReadingStart(uri: bool, s: Text)
    ensures Reading(uri, s, [], s)
  {}

  lemma ReadingEnds(uri: bool, s: Text, done: Text, rest: Text)
    requires Reading(uri, s, done, rest)
    ensures EndsName(rest) ==> NameFrom(uri, s) == Scanned(done, rest)
    ensures NameFrom(uri, rest).Malformed? ==> NameFrom(uri, s).Malformed?
  {}

  /** The first thing in a name. */
  lemma NameCases(uri: bool, s: Text)
    requires !EndsName(s)
    ensures
      NameFrom(uri, s) ==
        if uri && s[0] == '%' then
          var b := Sequence(s);
          if b.Malformed? then b
          else if |b.value| == 1 then CharacterFrom(uri, b.value[0], b.rest)
          else Prepend(b.value, NameFrom(uri, b.rest))
        else if uri && NeedPercentEncode(s[0]) then Malformed
        else CharacterFrom(uri, s[0], s[1..])
  {
    hide Sequence, CharacterFrom, NeedPercentEncode;
  }

  lemma CharacterCases(uri: bool, c: Ch, s: Text)
    ensures
      CharacterFrom(uri, c, s) ==
        if c == '~' then
          var e := Unescape(s);
          if e.NoTriplet? then Malformed else Prepend([e.c], NameFrom(uri, e.rest))
        else Prepend([c], NameFrom(uri, s))
  {
    hide NameFrom, Unescape;
  }

  /** The character at position i of a name, after any percent decoding; the position behind it. */
  method TakeCharacter(source: Text, i0: nat, c0: Ch) returns (ok: bool, c: Ch, i: nat)
    requires i0 <= |source|
    ensures i0 <= i <= |source|
    ensures
      var e := Unescape(source[i0..]);
      if c0 != '~' then ok && c == c0 && i == i0
      else ok == e.Triplet? && (ok ==> c == e.c && e.rest == source[i..])
  {
    ok, c, i := true, c0, i0;
    if c == '~' {
      if i < |source| {
        c := source[i];
        if c == '0' {
          c := '~';
        } else if c == '1' {
          c := '/';
        } else {
          return false, c, i;
        }
        i := i + 1;
        assert source[i0..][1..] == source[i..];
      } else {
        ok := false;
      }
    }
  }

  lemma DigitsMore(done: Text, c: Ch)
    ensures AllDigits(done + [c]) <==> AllDigits(done) && IsDigit(c)
  {
    if AllDigits(done + [c]) {
      assert (done + [c])[|done|] == c;
      forall k | 0 <= k < |done| ensures IsDigit(done[k]) { assert (done + [c])[k] == done[k]; }
    }
  }

  /** A sequence of several bytes is no number. */
  lemma DigitsLong(done: Text, b: Text, s: Text)
    requires Sequence(s).Scanned? && Sequence(s).value == b && |b| > 1
    ensures !AllDigits(done + b)
  {
    hide PercentDecoded, InRange;
    SequenceFirst(s);
    assert (done + b)[|done|] == b[0];
  }

  lemma SequenceFirst(s: Text)
    requires Sequence(s).Scanned? && |Sequence(s).value| > 1
    ensures !IsDigit(Sequence(s).value[0])
  {}

  lemma {:induction false} TailKeeps(b: Text, s: Text, n: nat, mask: bv8)
    requires b != [] && SequenceTail(b, s, n, mask).Scanned?
    ensures SequenceTail(b, s, n, mask).value != [] && SequenceTail(b, s, n, mask).value[0] == b[0]
    decreases n
  {
    hide PercentDecoded, InRange;
    if n > 0 {
      var t := PercentDecoded(s);
      TailKeeps(b + [t.c], t.rest, n - 1, 0x70);
    }
  }

  /** One step of the loop over a name: one character, or a sequence of several bytes. */
  method ParseCharacter(source: Text, uri: bool, i0: nat, buffer: array<Ch>, name0: nat, ghost done: Text)
      returns (ok: bool, i: nat, name: nat, digit: bool, ghost more: Text)
    requires name0 < i0 < |source| <= buffer.Length && !EndsName(source[i0..])
    modifies buffer
    ensures buffer[..name0] == old(buffer[..name0]) && i0 <= i <= |source|
    ensures !ok ==> NameFrom(uri, source[i0..]).Malformed?
    ensures ok ==>
      && NameFrom(uri, source[i0..]) == Prepend(more, NameFrom(uri, source[i..]))
      && name == name0 + |more| && 0 < |more| <= i - i0 && buffer[name0..name] == more
      && (AllDigits(done + more) <==> AllDigits(done) && digit)
  {
    hide NameFrom, CharacterFrom, Sequence, NeedPercentEncode, IsDigit, AllDigits;
    ghost var s := source[i0..];
    NameCases(uri, s);
    more := [];
    i, name, digit := i0, name0, false;
    var c := source[i];
    if uri {
      if c == '%' {
        var valid, len := ValidateSequence(source, i, buffer, name);
        if !valid {
          return false, i, name, false, [];
        }
        i := i + 3 * len - 1;
        if len == 1 {
          c := buffer[name];
        } else {
          more := buffer[name..name + len];
          DigitsLong(done, more, s);
          name := name + len;
          i := i + 1;
          return true, i, name, false, more;
        }
      } else if NeedPercentEncode(c) {
        return false, i, name, false, [];
      }
    }
    i := i + 1;
    CharacterCases(uri, c, source[i..]);
    assert s[1..] == source[i0 + 1..];
    ok, c, i := TakeCharacter(source, i, c);
    if !ok {
      return;
    }
    more := [c];
    DigitsMore(done, c);
    digit := IsDigit(c);
    buffer[name] := c;
    name := name + 1;
    assert buffer[name0..name] == [c];
  }

  /** A name, and the null character after it. */
  method ParseName(source: Text, uri: bool, i0: nat, buffer: array<Ch>, start: nat)
      returns (ok: bool, i: nat, name: nat, isNumber: bool, ghost value: Text)
    requires start < i0 <= |source| <= buffer.Length
    modifies buffer
    ensures buffer[..start] == old(buffer[..start])
    ensures !ok ==> NameFrom(uri, source[i0..]).Malformed?
    ensures ok ==>
      && i0 <= i <= |source| && NameFrom(uri, source[i0..]) == Scanned(value, source[i..])
      && name == start + |value| + 1 <= i && buffer[start..name] == value + ['\0']
      && isNumber == (value != [] && AllDigits(value))
  {
    hide NameFrom, Reading, IsDigit, AllDigits;
    ghost var s := source[i0..];
    ok, i, name, isNumber, value := true, i0, start, true, [];
    ReadingStart(uri, s);
    NoDigit();
    while i < |source| && source[i] != '/'
      invariant i0 <= i <= |source| && name == start + |value| && name - start <= i - i0
      invariant buffer[..start] == old(buffer[..start]) && buffer[start..name] == value
      invariant Reading(uri, s, value, source[i..]) && isNumber == AllDigits(value)
      decreases |source| - i
    {
      ghost var rest, before, read := source[i..], buffer[..name], value;
      ghost var more;
      var digit, position := false, name;
      ok, i, name, digit, more := ParseCharacter(source, uri, i, buffer, name, value);
      if !ok {
        ReadingEnds(uri, s, value, rest);
        return;
      }
      ReadingMore(uri, s, value, rest, more, source[i..]);
      KeptPrefix(before, buffer[..position], start, value);
      assert buffer[start..name] == buffer[start..position] + buffer[position..name];
      value := value + more;
      isNumber := isNumber && digit;
    }
    ReadingEnds(uri, s, value, source[i..]);
    if name == start {
      isNumber := false;
    }
    buffer[name] := '\0';
    name := name + 1;
    assert buffer[start..name] == value + ['\0'];
  }

  lemma NoDigit()
    ensures AllDigits([])
  {}

  lemma KeptPrefix(before: Text, after: Text, start: nat, value: Text)
    requires before == after && start <= |before| && before[start..] == value
    ensures after[start..] == value && after[..start] == before[..start]
  {}

  /** The index of a name in the buffer. */
  method ParseIndex(buffer: array<Ch>, start: nat, length: nat, isNumber: bool) returns (index: nat)
    requires start + length <= buffer.Length
    requires isNumber == (length > 0 && AllDigits(buffer[start..start + length]))
    ensures index == IndexOf(buffer[start..start + length])
  {
    ghost var name := buffer[start..start + length];
    if !isNumber || (length > 1 && buffer[start] == '0') {
      return INVALID_INDEX;
    }
    var n: nat := 0;
    var j := 0;
    assert name[0..] == name;
    while j < length
      invariant 0 <= j <= length && SizeFrom(name[j..], n) == SizeFrom(name, 0)
    {
      assert name[j..][1..] == name[j + 1..] && name[j..][0] == buffer[start + j];
      var m := (10 * n + DigitOf(buffer[start + j])) % TWO32;
      if m < n {
        return INVALID_INDEX;
      }
      n := m;
      j := j + 1;
    }
    index := n;
  }

  // ---------- the number of tokens ----------

  lemma TripletSlashes(s: Text)
    requires PercentDecoded(s).Triplet?
    ensures Slashes(s) == Slashes(PercentDecoded(s).rest)
  {
    assert s[1..][1..] == s[2..] && s[2..][1..] == s[3..];
    assert Slashes(s) == Slashes(s[1..]);
    assert Slashes(s[1..]) == Slashes(s[2..]);
  }

  lemma {:induction false} TailSlashes(b: Text, s: Text, n: nat, mask: bv8)
    requires SequenceTail(b, s, n, mask).Scanned?
    ensures Slashes(s) == Slashes(SequenceTail(b, s, n, mask).rest)
    decreases n
  {
    hide PercentDecoded, InRange, Slashes;
    if n > 0 {
      TripletSlashes(s);
      var t := PercentDecoded(s);
      TailSlashes(b + [t.c], t.rest, n - 1, 0x70);
    }
  }

  lemma SequenceSlashes(s: Text)
    requires Sequence(s).Scanned?
    ensures Slashes(s) == Slashes(Sequence(s).rest)
  {
    hide PercentDecoded, InRange, Slashes, Followers, GetRange, SequenceTail;
    TripletSlashes(s);
    var t := PercentDecoded(s);
    var (n, mask) := Followers(GetRange(t.c));
    if t.c as int >= 0x80 {
      TailSlashes([t.c], t.rest, n, mask);
    }
  }

  /** A name contains no solidus. */
  lemma {:induction false} NameSlashes(uri: bool, s: Text)
    requires NameFrom(uri, s).Scanned?
    ensures Slashes(s) == Slashes(NameFrom(uri, s).rest) && EndsName(NameFrom(uri, s).rest)
    decreases |s|, 1
  {
    if !EndsName(s) {
      NameCases(uri, s);
      hide Sequence, NameFrom, CharacterFrom, NeedPercentEncode;
      if uri && s[0] == '%' {
        SequenceSlashes(s);
        var b := Sequence(s);
        if |b.value| == 1 {
          CharacterSlashes(uri, b.value[0], b.rest);
        } else {
          NameSlashes(uri, b.rest);
        }
      } else {
        CharacterSlashes(uri, s[0], s[1..]);
      }
    }
  }

  lemma {:induction false} CharacterSlashes(uri: bool, c: Ch, s: Text)
    requires CharacterFrom(uri, c, s).Scanned?
    ensures var r := CharacterFrom(uri, c, s).rest; Slashes(s) == Slashes(r) && EndsName(r)
    decreases |s|, 2
  {
    CharacterCases(uri, c, s);
    hide NameFrom, CharacterFrom;
    NameSlashes(uri, if c == '~' then Unescape(s).rest else s);
  }

  /** As many names as there are solidi in the source. */
  lemma {:induction false} NamesSlashes(uri: bool, s: Text)
    requires EndsName(s) && NamesFrom(uri, s).Names?
    ensures |NamesFrom(uri, s).names| == Slashes(s)
    decreases |s|
  {
    hide NameFrom;
    if s != [] {
      NameSlashes(uri, s[1..]);
      NamesSlashes(uri, NameFrom(uri, s[1..]).rest);
    }
  }

  // ---------- pointers ----------

  ghost function Before(names: seq<Text>, r: Names): Names { if r.Names? then Names(names + r.names) else r }

  lemma BeforeMore(names: seq<Text>, uri: bool, s: Text)
    requires s != []
    ensures
      var n := NameFrom(uri, s[1..]);
      Before(names, NamesFrom(uri, s)) == if n.Malformed? then NoNames else Before(names + [n.value], NamesFrom(uri, n.rest))
  {
    hide NameFrom;
    var n := NameFrom(uri, s[1..]);
    if n.Scanned? && NamesFrom(uri, n.rest).Names? {
      var r := NamesFrom(uri, n.rest).names;
      assert names + ([n.value] + r) == names + [n.value] + r;
    }
  }

  class Pointer {
    var valid: bool
    var buffer: array<Ch>
    var tokens: seq<Token>

    constructor ()
      ensures tokens == [] && fresh(buffer)
    {
      valid, tokens := true, [];
      buffer := new Ch[0];
    }

    /** The names in the source, in a buffer of its length; as many tokens as are allocated. */
    method Parse(source: Text)
      modifies this
      ensures fresh(buffer) && buffer.Length == |source|
      ensures valid == ParsedNames(source).Names?
      ensures valid ==> Holds(buffer[..], tokens, ParsedNames(source).names, |source|) && |tokens| == Slashes(source)
      ensures !valid ==> tokens == []
    {
      hide NameFrom, NamesFrom, Holds, Slashes, AllDigits, IndexOf;
      var tokenCount := CountSlashes(source);
      buffer := new Ch[|source|];
      tokens, valid := [], true;
      var i, name := 0, 0;
      var uri := IsUri(source);
      if uri {
        i := 1;
      }
      if i != |source| && source[i] != '/' {
        valid := false;
        return;
      }
      ghost var names: seq<Text> := [];
      ghost var goal := ParsedNames(source);
      StartNames(source, i, buffer[..]);
      while i < |source|
        invariant name <= i <= |source| == buffer.Length && EndsName(source[i..]) && fresh(buffer)
        invariant Holds(buffer[..], tokens, names, name) && goal == Before(names, NamesFrom(uri, source[i..]))
        invariant valid
      {
        ghost var rest, b := source[i..], buffer[..];
        BeforeMore(names, uri, rest);
        i := i + 1;
        assert rest[1..] == source[i..];
        var start := name;
        var ok, isNumber;
        ghost var value;
        ok, i, name, isNumber, value := ParseName(source, uri, i, buffer, start);
        if !ok {
          tokens, valid := [], false;
          return;
        }
        NameSlashes(uri, rest[1..]);
        var length := name - 1 - start;
        assert buffer[start..start + length] == buffer[start..name][..length] == value;
        var index := ParseIndex(buffer, start, length, isNumber);
        HoldsMore(b, buffer[..], tokens, names, start, Token(start, length, index), value);
        tokens := tokens + [Token(start, length, index)];
        names := names + [value];
      }
      assert source[i..] == [];
      EndNames(source, uri, names, buffer[..], tokens, name);
    }
  }

  method CountSlashes(source: Text) returns (n: nat)
    ensures n == Slashes(source)
  {
    n := 0;
    var i := 0;
    while i < |source|
      invariant 0 <= i <= |source| && n + Slashes(source[i..]) == Slashes(source)
    {
      assert source[i..][1..] == source[i + 1..];
      if source[i] == '/' {
        n := n + 1;
      }
      i := i + 1;
    }
  }

  lemma StartNames(source: Text, i: nat, b: Text)
    requires i == if IsUri(source) then 1 else 0
    requires EndsName(source[i..])
    ensures Holds(b, [], [], 0) && ParsedNames(source) == Before([], NamesFrom(IsUri(source), source[i..]))
  {}

  lemma HoldsMore(b: Text, b1: Text, tokens: seq<Token>, names: seq<Text>, start: nat, t: Token, name: Text)
    requires Holds(b, tokens, names, start) && |b1| == |b| && b1[..start] == b[..start]
    requires t.start == start && t.length == |name| && start + |name| < |b1| && t.index == IndexOf(name)
    requires b1[start..start + |name| + 1] == name + ['\0']
    ensures Holds(b1, tokens + [t], names + [name], start + |name| + 1)
  {
    HoldsStill(b, b1, tokens, names, start, start + |name| + 1);
    var s := b1[start..start + |name| + 1];
    assert s[..|name|] == b1[start..start + |name|] && s[|name|] == b1[start + |name|];
    assert HoldsName(b1, t, name, start + |name| + 1);
  }

  lemma EndNames(source: Text, uri: bool, names: seq<Text>, b: Text, tokens: seq<Token>, end: nat)
    requires uri == IsUri(source) && ParsedNames(source) == Before(names, NamesFrom(uri, []))
    requires Holds(b, tokens, names, end) && |b| == |source|
    ensures ParsedNames(source) == Names(names) && Holds(b, tokens, names, |source|) && |tokens| == Slashes(source)
  {
    assert names + [] == names;
    HoldsStill(b, b, tokens, names, end, |source|);
    var s := if uri then source[1..] else source;
    NamesSlashes(uri, s);
  }
}
