/** Characters, events and results of the JSON reader, and what lies between tokens. */
module JsonText {

  /** A byte of UTF-8 text. */
  type Ch = c: char | c as int < 256 witness ' '

  type Text = seq<Ch>

  /** What the reader tells its handler. Doubles are given by their text. */
  datatype Event =
    | Null | Bool(b: bool)
    | Int(n: int) | Uint(n: int) | Int64(n: int) | Uint64(n: int) | Double(text: Text)
    | String(s: Text) | StartObject | Key(s: Text) | EndObject(memberCount: nat) | StartArray | EndArray(elementCount: nat)

  /** Parse flags, the handler and the conversion of numbers to doubles. The handler is given by whether it
      lets the reader go on after the events so far; overflows says whether a number is too big for a
      double. */
  datatype Config = Config(
    comments: bool, trailingCommas: bool, stopWhenDone: bool, accepts: seq<Event> -> bool, overflows: Text -> bool)

  /** The text that is left and the events so far, or a failure after some events. */
  datatype Res = Ok(rest: Text, events: seq<Event>) | Fail(events: seq<Event>)

  const TWO32 := 0x1_0000_0000

  /** The next character; a text ends with a null character. */
  function Peek(s: Text): Ch { if s == [] then '\0' else s[0] }

  /** One more event; the handler may end the parsing. */
  function Emit(cfg: Config, s: Text, ev: seq<Event>, e: Event): Res {
    if cfg.accepts(ev + [e]) then Ok(s, ev + [e]) else Fail(ev + [e])
  }

  // ---------- whitespace and comments ----------

  predicate IsSpace(c: Ch) { c == ' ' || c == '\n' || c == '\r' || c == '\t' }

  function SkipSpace(s: Text): (r: Text)
    ensures |r| <= |s| && (r == [] || !IsSpace(r[0]))
  {
    if s != [] && IsSpace(s[0]) then SkipSpace(s[1..]) else s
  }

  datatype Skipped = Rest(rest: Text) | Unclosed

  /** After the opening of a block comment. */
  function BlockComment(s: Text): (r: Skipped)
    ensures r.Rest? ==> |r.rest| < |s|
  {
    if Peek(s) == '\0' then Unclosed
    else if s[0] == '*' && Peek(s[1..]) == '/' then Rest(s[2..])
    else BlockComment(s[1..])
  }

  /** After the opening of a line comment; the line break belongs to it. */
  function LineComment(s: Text): (r: Text)
    ensures |r| <= |s|
  {
    if Peek(s) == '\0' then s else if s[0] == '\n' then s[1..] else LineComment(s[1..])
  }

  function SkipComments(s: Text): (r: Skipped)
    ensures r.Rest? ==> |r.rest| <= |s|
    decreases |s|
  {
    if Peek(s) != '/' then Rest(s)
    else if Peek(s[1..]) == '*' then
      var c := BlockComment(s[2..]);
      if c.Unclosed? then c else SkipComments(SkipSpace(c.rest))
    else if Peek(s[1..]) == '/' then SkipComments(SkipSpace(LineComment(s[2..])))
    else Unclosed
  }

  function Skip(cfg: Config, s: Text): (r: Skipped)
    ensures r.Rest? ==> |r.rest| <= |s|
  {
    if cfg.comments then SkipComments(SkipSpace(s)) else Rest(SkipSpace(s))
  }
}
