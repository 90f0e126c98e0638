/** What the reader does with a text, by recursive descent: the text it leaves and the events it emits, with
    the events before a failure if the text is refused. */
module JsonGrammar {
  import opened JsonNumber
  import opened JsonString
  import opened JsonText

  /** r, or f of its rest and events. */
  function Literal(cfg: Config, s: Text, ev: seq<Event>, word: Text, e: Event): (r: Res)
    ensures r.Ok? ==> |r.rest| <= |s|
  {
    if word <= s then Emit(cfg, s[|word|..], ev, e) else Fail(ev)
  }

  /** A string or a key from its opening quotation mark on. */
  function StringFrom(cfg: Config, s: Text, ev: seq<Event>, isKey: bool): (r: Res)
    requires Peek(s) == '"'
    ensures r.Ok? ==> |r.rest| < |s|
  {
    var b := StringBody(s[1..]);
    if b.Malformed? then Fail(ev) else Emit(cfg, b.rest, ev, if isKey then Key(b.value) else String(b.value))
  }

  function NumberFrom(cfg: Config, s: Text, ev: seq<Event>): (r: Res)
    ensures r.Ok? ==> |r.rest| < |s|
  {
    var n := Number(cfg, s);
    if n.Refused? then Fail(ev) else Emit(cfg, n.rest, ev, n.event)
  }

  /** A value that is no object and no array. */
  function Scalar(cfg: Config, s: Text, ev: seq<Event>): (r: Res)
    ensures r.Ok? ==> |r.rest| < |s|
  {
    match Peek(s)
    case 'n' => Literal(cfg, s[1..], ev, "ull", Null)
    case 't' => Literal(cfg, s[1..], ev, "rue", Bool(true))
    case 'f' => Literal(cfg, s[1..], ev, "alse", Bool(false))
    case '"' => StringFrom(cfg, s, ev, false)
    case _ => NumberFrom(cfg, s, ev)
  }

  function ValueFrom(cfg: Config, s: Text, ev: seq<Event>): (r: Res)
    ensures r.Ok? ==> |r.rest| < |s|
    decreases |s|, 0
  {
    match Peek(s)
    case '{' => ObjectFrom(cfg, s[1..], ev)
    case '[' => ArrayFrom(cfg, s[1..], ev)
    case _ => Scalar(cfg, s, ev)
  }

  // ---------- objects ----------

  /** An object after its opening bracket. */
  function ObjectFrom(cfg: Config, s: Text, ev: seq<Event>): (r: Res)
    ensures r.Ok? ==> |r.rest| <= |s|
    decreases |s|, 4
  {
    var start := Emit(cfg, s, ev, StartObject);
    if start.Fail? then start
    else
      var t := Skip(cfg, s);
      if t.Unclosed? then Fail(start.events) else ObjectStart(cfg, t.rest, start.events)
  }

  /** The first name, or the end of an empty object. */
  function ObjectStart(cfg: Config, s: Text, ev: seq<Event>): (r: Res)
    ensures r.Ok? ==> |r.rest| <= |s|
    decreases |s|, 3
  {
    if Peek(s) == '}' then Emit(cfg, s[1..], ev, EndObject(0)) else MemberFrom(cfg, s, ev, 0)
  }

  /** A member from its name on, after count members. */
  function MemberFrom(cfg: Config, s: Text, ev: seq<Event>, count: nat): (r: Res)
    ensures r.Ok? ==> |r.rest| <= |s|
    decreases |s|, 2
  {
    if Peek(s) != '"' then Fail(ev)
    else
      var name := StringFrom(cfg, s, ev, true);
      if name.Fail? then name
      else
        var t := Skip(cfg, name.rest);
        if t.Unclosed? then Fail(name.events) else ColonFrom(cfg, t.rest, name.events, count)
  }

  /** A member from its colon on. */
  function ColonFrom(cfg: Config, s: Text, ev: seq<Event>, count: nat): (r: Res)
    ensures r.Ok? ==> |r.rest| <= |s|
    decreases |s|, 2
  {
    if Peek(s) != ':' then Fail(ev)
    else
      var t := Skip(cfg, s[1..]);
      if t.Unclosed? then Fail(ev)
      else MemberValueFrom(cfg, t.rest, ev, count)
  }

  function MemberValueFrom(cfg: Config, s: Text, ev: seq<Event>, count: nat): (r: Res)
    ensures r.Ok? ==> |r.rest| <= |s|
    decreases |s|, 1
  {
    var v := ValueFrom(cfg, s, ev);
    if v.Fail? then v else AfterMember(cfg, v.rest, v.events, (count + 1) % TWO32)
  }

  /** An object after its first count members. */
  function AfterMember(cfg: Config, s: Text, ev: seq<Event>, count: nat): (r: Res)
    ensures r.Ok? ==> |r.rest| <= |s|
    decreases |s|, 4
  {
    var t := Skip(cfg, s);
    if t.Unclosed? then Fail(ev) else MemberEnd(cfg, t.rest, ev, count)
  }

  function MemberEnd(cfg: Config, s: Text, ev: seq<Event>, count: nat): (r: Res)
    ensures r.Ok? ==> |r.rest| <= |s|
    decreases |s|, 3
  {
    if Peek(s) == ',' then
      var t := Skip(cfg, s[1..]);
      if t.Unclosed? then Fail(ev) else NextMember(cfg, t.rest, ev, count)
    else if Peek(s) == '}' then Emit(cfg, s[1..], ev, EndObject(count))
    else Fail(ev)
  }

  /** After a comma; with the flag, the object may end here. */
  function NextMember(cfg: Config, s: Text, ev: seq<Event>, count: nat): (r: Res)
    ensures r.Ok? ==> |r.rest| <= |s|
    decreases |s|, 3
  {
    if cfg.trailingCommas && Peek(s) == '}' then Emit(cfg, s[1..], ev, EndObject(count))
    else MemberFrom(cfg, s, ev, count)
  }

  // ---------- arrays ----------

  /** An array after its opening bracket. */
  function ArrayFrom(cfg: Config, s: Text, ev: seq<Event>): (r: Res)
    ensures r.Ok? ==> |r.rest| <= |s|
    decreases |s|, 4
  {
    var start := Emit(cfg, s, ev, StartArray);
    if start.Fail? then start
    else
      var t := Skip(cfg, s);
      if t.Unclosed? then Fail(start.events) else ArrayStart(cfg, t.rest, start.events)
  }

  function ArrayStart(cfg: Config, s: Text, ev: seq<Event>): (r: Res)
    ensures r.Ok? ==> |r.rest| <= |s|
    decreases |s|, 3
  {
    if Peek(s) == ']' then Emit(cfg, s[1..], ev, EndArray(0)) else ElementFrom(cfg, s, ev, 0)
  }

  /** An element, after count elements. */
  function ElementFrom(cfg: Config, s: Text, ev: seq<Event>, count: nat): (r: Res)
    ensures r.Ok? ==> |r.rest| <= |s|
    decreases |s|, 1
  {
    var v := ValueFrom(cfg, s, ev);
    if v.Fail? then v else AfterElement(cfg, v.rest, v.events, (count + 1) % TWO32)
  }

  /** An array after its first count elements. */
  function AfterElement(cfg: Config, s: Text, ev: seq<Event>, count: nat): (r: Res)
    ensures r.Ok? ==> |r.rest| <= |s|
    decreases |s|, 4
  {
    var t := Skip(cfg, s);
    if t.Unclosed? then Fail(ev) else ElementEnd(cfg, t.rest, ev, count)
  }

  function ElementEnd(cfg: Config, s: Text, ev: seq<Event>, count: nat): (r: Res)
    ensures r.Ok? ==> |r.rest| <= |s|
    decreases |s|, 3
  {
    if Peek(s) == ',' then
      var t := Skip(cfg, s[1..]);
      if t.Unclosed? then Fail(ev) else NextElement(cfg, t.rest, ev, count)
    else if Peek(s) == ']' then Emit(cfg, s[1..], ev, EndArray(count))
    else Fail(ev)
  }

  /** After a comma; with the flag, the array may end here. */
  function NextElement(cfg: Config, s: Text, ev: seq<Event>, count: nat): (r: Res)
    ensures r.Ok? ==> |r.rest| <= |s|
    decreases |s|, 2
  {
    if cfg.trailingCommas && Peek(s) == ']' then Emit(cfg, s[1..], ev, EndArray(count))
    else ElementFrom(cfg, s, ev, count)
  }

  // ---------- documents ----------

  /** After the root value: nothing but space may follow, unless the reader stops there. */
  function Finished(cfg: Config, s: Text, ev: seq<Event>): Res {
    if cfg.stopWhenDone then Ok(s, ev)
    else
      var t := Skip(cfg, s);
      if t.Unclosed? then Fail(ev) else AtEnd(t.rest, ev)
  }

  function AtEnd(s: Text, ev: seq<Event>): Res { if Peek(s) == '\0' then Ok(s, ev) else Fail(ev) }

  function RootFrom(cfg: Config, s: Text, ev: seq<Event>): Res {
    if Peek(s) == '\0' then Fail(ev)
    else
      var v := ValueFrom(cfg, s, ev);
      if v.Fail? then v else Finished(cfg, v.rest, v.events)
  }

  /** The whole text. */
  function Document(cfg: Config, s: Text): Res {
    var t := Skip(cfg, s);
    if t.Unclosed? then Fail([]) else RootFrom(cfg, t.rest, [])
  }
}
