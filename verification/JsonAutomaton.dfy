/** The table-driven parser: a pushdown automaton that reads one token at a time, and the proof that it does
    what recursive descent does. */
module JsonAutomaton {
  import opened JsonGrammar
  import opened JsonNumber
  import opened JsonText

  datatype State =
    | Finish | Error | Start
    | ObjectInitial | MemberKey | MemberValue | ObjectFinish
    | ArrayInitial | Element | ArrayFinish
    | SingleValue
    | ElementDelimiter | MemberDelimiter | KeyValueDelimiter

  datatype Token =
    | LeftBracket | RightBracket | LeftCurly | RightCurly | Comma | Colon
    | StringToken | FalseToken | TrueToken | NullToken | NumberToken

  function Tokenize(c: Ch): Token {
    match c
    case '[' => LeftBracket
    case ']' => RightBracket
    case '{' => LeftCurly
    case '}' => RightCurly
    case ',' => Comma
    case ':' => Colon
    case '"' => StringToken
    case 'f' => FalseToken
    case 't' => TrueToken
    case 'n' => NullToken
    case _ => NumberToken
  }

  predicate IsScalar(t: Token) {
    t in {StringToken, FalseToken, TrueToken, NullToken, NumberToken}
  }

  /** The row of a state in which a value may start: the state for a scalar, and whether the container may
      end here. */
  function ValueRow(t: Token, scalar: State, mayEnd: bool): State {
    if t == LeftBracket then ArrayInitial
    else if t == LeftCurly then ObjectInitial
    else if t == RightBracket && mayEnd then ArrayFinish
    else if IsScalar(t) then scalar
    else Error
  }

  /** The parsing table. */
  function Predict(state: State, t: Token): State {
    match state
    case Start => ValueRow(t, SingleValue, false)
    case ObjectInitial => if t == RightCurly then ObjectFinish else if t == StringToken then MemberKey else Error
    case MemberKey => if t == Colon then KeyValueDelimiter else Error
    case MemberValue => if t == RightCurly then ObjectFinish else if t == Comma then MemberDelimiter else Error
    case ArrayInitial => ValueRow(t, Element, true)
    case Element => if t == RightBracket then ArrayFinish else if t == Comma then ElementDelimiter else Error
    case ElementDelimiter => ValueRow(t, Element, true)
    case MemberDelimiter => if t == RightCurly then ObjectFinish else if t == StringToken then MemberKey else Error
    case KeyValueDelimiter => ValueRow(t, MemberValue, false)
    case _ => Error
  }

  /** The two numbers pushed for an object or array: the state to return to, and a count. */
  datatype Frame = Frame(ret: State, count: nat)

  datatype Machine = Machine(state: State, stack: seq<Frame>, rest: Text, events: seq<Event>)

  function Pushed(src: State): State {
    if src == ArrayInitial || src == ElementDelimiter then Element
    else if src == KeyValueDelimiter then MemberValue
    else src
  }

  function Entered(r: Res, state: State, stack: seq<Frame>, s: Text): Machine {
    if r.Ok? then Machine(state, stack, r.rest, r.events) else Machine(Error, stack, s, r.events)
  }

  function Push(cfg: Config, m: Machine, dst: State): Machine
    requires m.rest != []
  {
    var stack := m.stack + [Frame(Pushed(m.state), 0)];
    Entered(Emit(cfg, m.rest[1..], m.events, if dst == ObjectInitial then StartObject else StartArray), dst, stack, m.rest)
  }

  function Pop(cfg: Config, m: Machine, isObject: bool, last: State): Machine
    requires m.rest != [] && m.stack != []
  {
    var n := |m.stack| - 1;
    var top := m.stack[n];
    var c := if m.state == last then (top.count + 1) % TWO32 else top.count;
    var to := if top.ret == Start then Finish else top.ret;
    Entered(Emit(cfg, m.rest[1..], m.events, if isObject then EndObject(c) else EndArray(c)), to, m.stack[..n], m.rest)
  }

  function Transit(cfg: Config, m: Machine, dst: State): Machine
    requires m.rest != []
    requires dst in {MemberDelimiter, ElementDelimiter, ObjectFinish, ArrayFinish} ==> m.stack != []
    requires dst == MemberKey ==> Peek(m.rest) == '"'
  {
    match dst
    case ObjectInitial => Push(cfg, m, dst)
    case ArrayInitial => Push(cfg, m, dst)
    case MemberKey => Entered(StringFrom(cfg, m.rest, m.events, true), dst, m.stack, m.rest)
    case KeyValueDelimiter => m.(state := dst, rest := m.rest[1..])
    case MemberValue => Entered(ValueFrom(cfg, m.rest, m.events), dst, m.stack, m.rest)
    case Element => Entered(ValueFrom(cfg, m.rest, m.events), dst, m.stack, m.rest)
    case MemberDelimiter => Counted(m, dst)
    case ElementDelimiter => Counted(m, dst)
    case ObjectFinish =>
      if !cfg.trailingCommas && m.state == MemberDelimiter then m.(state := Error) else Pop(cfg, m, true, MemberValue)
    case ArrayFinish =>
      if !cfg.trailingCommas && m.state == ElementDelimiter then m.(state := Error) else Pop(cfg, m, false, Element)
    case SingleValue => Entered(ValueFrom(cfg, m.rest, m.events), Finish, m.stack, m.rest)
    case _ => m.(state := Error)
  }

  function Counted(m: Machine, dst: State): Machine
    requires m.rest != [] && m.stack != []
  {
    var n := |m.stack| - 1;
    m.(state := dst, stack := m.stack[n := m.stack[n].(count := (m.stack[n].count + 1) % TWO32)], rest := m.rest[1..])
  }

  /** The state belongs to a container exactly when there are frames; a container inside another one
      returns to a state of that one. */
  predicate Stacked(state: State, stack: seq<Frame>) {
    && state !in {Error, ObjectFinish, ArrayFinish, SingleValue}
    && (stack == [] <==> state in {Start, Finish})
    && (forall i | 0 <= i < |stack| :: stack[i].count < TWO32)
    && (forall i | 0 <= i < |stack| :: if i == 0 then stack[i].ret == Start else stack[i].ret in {Element, MemberValue})
  }

  function Step(cfg: Config, m: Machine): (next: Machine)
    requires Stacked(m.state, m.stack) && Peek(m.rest) != '\0'
    ensures next.state != Error ==> Stacked(next.state, next.stack) && |next.rest| < |m.rest|
  {
    Transit(cfg, m, Predict(m.state, Tokenize(Peek(m.rest))))
  }

  /** The loop of the parser; before a token the text has been skipped to it. */
  function Run(cfg: Config, m: Machine): Res
    requires Stacked(m.state, m.stack)
    decreases |m.rest|
  {
    if Peek(m.rest) == '\0' then (if m.state == Finish then Ok(m.rest, m.events) else Fail(m.events))
    else
      var next := Step(cfg, m);
      if next.state == Error then Fail(next.events)
      else if cfg.stopWhenDone && next.state == Finish then Ok(next.rest, next.events)
      else
        var t := Skip(cfg, next.rest);
        if t.Unclosed? then Fail(next.events) else Run(cfg, next.(rest := t.rest))
  }

  function Iterative(cfg: Config, s: Text): Res {
    var t := Skip(cfg, s);
    if t.Unclosed? then Fail([]) else Run(cfg, Machine(Start, [], t.rest, []))
  }

  // ---------- what recursive descent still has to do in a state ----------

  /** After a value that returns to state ret: the rest of the containers it is in. */
  function Return(cfg: Config, ret: State, stack: seq<Frame>, r: Res): Res
    decreases |stack|
  {
    if r.Fail? then r
    else if stack == [] then Finished(cfg, r.rest, r.events)
    else
      var n := |stack| - 1;
      var count := (stack[n].count + 1) % TWO32;
      Return(cfg, stack[n].ret, stack[..n],
             if ret == Element then AfterElement(cfg, r.rest, r.events, count)
             else AfterMember(cfg, r.rest, r.events, count))
  }

  function Meaning(cfg: Config, m: Machine): Res {
    if m.state == Start then RootFrom(cfg, m.rest, m.events)
    else if m.state == Finish then AtEnd(m.rest, m.events)
    else if m.stack == [] then Fail(m.events)
    else
      var n := |m.stack| - 1;
      Return(cfg, m.stack[n].ret, m.stack[..n], Inner(cfg, m.state, m.rest, m.events, m.stack[n].count))
  }

  /** The rest of the innermost container. */
  function Inner(cfg: Config, state: State, s: Text, ev: seq<Event>, count: nat): Res {
    match state
    case ObjectInitial => ObjectStart(cfg, s, ev)
    case MemberKey => ColonFrom(cfg, s, ev, count)
    case KeyValueDelimiter => MemberValueFrom(cfg, s, ev, count)
    case MemberValue => MemberEnd(cfg, s, ev, (count + 1) % TWO32)
    case MemberDelimiter => NextMember(cfg, s, ev, count)
    case ArrayInitial => ArrayStart(cfg, s, ev)
    case Element => ElementEnd(cfg, s, ev, (count + 1) % TWO32)
    case ElementDelimiter => NextElement(cfg, s, ev, count)
    case _ => Fail(ev)
  }

  /** The same before the space in front of the next token is skipped. */
  function Pending(cfg: Config, m: Machine): Res {
    if cfg.stopWhenDone && m.state == Finish then Ok(m.rest, m.events)
    else
      var t := Skip(cfg, m.rest);
      if t.Unclosed? then Fail(m.events) else Meaning(cfg, m.(rest := t.rest))
  }

  /** What a step has to keep. */
  ghost predicate Kept(cfg: Config, m: Machine, next: Machine) {
    Meaning(cfg, m) == if next.state == Error then Fail(next.events) else Pending(cfg, next)
  }

  predicate StartsContainer(t: Token) { t == LeftBracket || t == LeftCurly }

  /** A value that starts here, as the innermost container sees it. */
  function ValueHere(cfg: Config, m: Machine, ret: State): Res
    requires m.rest != []
  {
    Return(cfg, ret, m.stack, ValueFrom(cfg, m.rest, m.events))
  }

  lemma ReturnFail(cfg: Config, ret: State, stack: seq<Frame>, ev: seq<Event>)
    ensures Return(cfg, ret, stack, Fail(ev)) == Fail(ev)
  {}

  /** A container, from its opening bracket on. */
  lemma OpenValue(cfg: Config, s: Text, ev: seq<Event>, dst: State)
    requires (Peek(s) == '{' && dst == ObjectInitial) || (Peek(s) == '[' && dst == ArrayInitial)
    ensures
      var r := Emit(cfg, s[1..], ev, if dst == ObjectInitial then StartObject else StartArray);
      var t := Skip(cfg, s[1..]);
      ValueFrom(cfg, s, ev) == if r.Fail? then r else if t.Unclosed? then Fail(r.events) else Inner(cfg, dst, t.rest, r.events, 0)
  {
    hide Skip, ObjectStart, ArrayStart, Scalar;
  }

  /** An opening bracket. */
  lemma OpenStep(cfg: Config, m: Machine)
    requires Stacked(m.state, m.stack) && Peek(m.rest) != '\0' && StartsContainer(Tokenize(Peek(m.rest)))
    requires m.state in {Start, ArrayInitial, ElementDelimiter, KeyValueDelimiter}
    ensures
      var next := Step(cfg, m);
      ValueHere(cfg, m, Pushed(m.state)) == if next.state == Error then Fail(next.events) else Pending(cfg, next)
  {
    hide Skip, ObjectStart, ArrayStart, Return, Stacked, ValueFrom, Inner;
    var dst := if Tokenize(Peek(m.rest)) == LeftCurly then ObjectInitial else ArrayInitial;
    assert Predict(m.state, Tokenize(Peek(m.rest))) == dst;
    var next := Step(cfg, m);
    assert next == Push(cfg, m, dst);
    var ret := Pushed(m.state);
    assert next.stack == m.stack + [Frame(ret, 0)];
    assert next.stack[..|m.stack|] == m.stack;
    var t := Skip(cfg, m.rest[1..]);
    OpenValue(cfg, m.rest, m.events, dst);
    ReturnFail(cfg, ret, m.stack, next.events);
    if next.state != Error && t.Rest? {
      var inner := next.(rest := t.rest);
      assert Pending(cfg, next) == Meaning(cfg, inner);
      assert Meaning(cfg, inner) == Return(cfg, ret, m.stack, Inner(cfg, dst, t.rest, next.events, 0));
    }
  }

  /** A scalar. */
  lemma ScalarStep(cfg: Config, m: Machine)
    requires Stacked(m.state, m.stack) && Peek(m.rest) != '\0' && IsScalar(Tokenize(Peek(m.rest)))
    requires m.state in {Start, ArrayInitial, ElementDelimiter, KeyValueDelimiter}
    ensures
      var next := Step(cfg, m);
      ValueHere(cfg, m, Pushed(m.state)) == if next.state == Error then Fail(next.events) else Pending(cfg, next)
  {
    hide Skip, ValueFrom, ElementEnd, MemberEnd;
    var dst := if m.state == Start then SingleValue else Pushed(m.state);
    assert Predict(m.state, Tokenize(Peek(m.rest))) == dst;
    var v := ValueFrom(cfg, m.rest, m.events);
    var next := Step(cfg, m);
    assert next == Entered(v, if m.state == Start then Finish else dst, m.stack, m.rest);
    if v.Ok? && m.state != Start {
      var n := |m.stack| - 1;
      ReturnFail(cfg, m.stack[n].ret, m.stack[..n], next.events);
    }
  }

  /** Neither: a text that cannot be a value. */
  lemma NoValue(cfg: Config, s: Text, ev: seq<Event>)
    requires Peek(s) == '\0' || Tokenize(Peek(s)) in {RightBracket, RightCurly, Comma, Colon}
    ensures ValueFrom(cfg, s, ev) == Fail(ev)
  {
    assert WholeDigits(s) == [];
  }

  function WholeDigits(s: Text): Text { Whole(if Peek(s) == '-' then s[1..] else s) }

  /** A token where a value starts. */
  lemma ValueStep(cfg: Config, m: Machine)
    requires Stacked(m.state, m.stack) && Peek(m.rest) != '\0'
    requires m.state in {Start, ArrayInitial, ElementDelimiter, KeyValueDelimiter}
    requires Tokenize(Peek(m.rest)) != RightBracket || m.state in {Start, KeyValueDelimiter}
    ensures
      var next := Step(cfg, m);
      ValueHere(cfg, m, Pushed(m.state)) == if next.state == Error then Fail(next.events) else Pending(cfg, next)
  {
    hide Return, ValueFrom, Pending, Stacked;
    var t := Tokenize(Peek(m.rest));
    if StartsContainer(t) {
      OpenStep(cfg, m);
    } else if IsScalar(t) {
      ScalarStep(cfg, m);
    } else {
      NoValue(cfg, m.rest, m.events);
      ReturnFail(cfg, Pushed(m.state), m.stack, m.events);
      assert Predict(m.state, t) == Error;
    }
  }

  /** What ValueHere is in the states where a value starts. */
  lemma ValueMeaning(cfg: Config, m: Machine)
    requires Stacked(m.state, m.stack) && Peek(m.rest) != '\0'
    requires m.state in {Start, ArrayInitial, ElementDelimiter, KeyValueDelimiter}
    requires Peek(m.rest) != ']' || m.state in {Start, KeyValueDelimiter}
    requires m.state == ArrayInitial ==> m.stack[|m.stack| - 1].count == 0
    ensures Meaning(cfg, m) == ValueHere(cfg, m, Pushed(m.state))
  {
    hide ValueFrom, Skip, AfterElement, AfterMember;
    if m.state != Start {
      var v, n := ValueFrom(cfg, m.rest, m.events), |m.stack| - 1;
      var count := (m.stack[n].count + 1) % TWO32;
      if m.state == KeyValueDelimiter {
        assert Inner(cfg, m.state, m.rest, m.events, m.stack[n].count)
            == if v.Fail? then v else AfterMember(cfg, v.rest, v.events, count);
      } else {
        assert ElementFrom(cfg, m.rest, m.events, m.stack[n].count)
            == if v.Fail? then v else AfterElement(cfg, v.rest, v.events, count);
      }
      ReturnFail(cfg, m.stack[n].ret, m.stack[..n], v.events);
    }
  }

  /** A closing bracket after a comma, where that is not allowed. */
  lemma NoTrailing(cfg: Config, s: Text, ev: seq<Event>, count: nat)
    requires !cfg.trailingCommas
    ensures Peek(s) == '}' ==> NextMember(cfg, s, ev, count) == Fail(ev)
    ensures Peek(s) == ']' ==> NextElement(cfg, s, ev, count) == Fail(ev)
  {
    hide Skip, AfterElement;
    if Peek(s) == ']' {
      NoValue(cfg, s, ev);
      assert ElementFrom(cfg, s, ev, count) == ValueFrom(cfg, s, ev);
    }
  }

  /** A closing bracket that ends a container. */
  lemma CloseStep(cfg: Config, m: Machine, isObject: bool)
    requires Stacked(m.state, m.stack) && Peek(m.rest) == if isObject then '}' else ']'
    requires m.state in if isObject then {ObjectInitial, MemberValue, MemberDelimiter} else {ArrayInitial, Element, ElementDelimiter}
    requires m.state in {ObjectInitial, ArrayInitial} ==> m.stack[|m.stack| - 1].count == 0
    ensures Kept(cfg, m, Step(cfg, m))
  {
    hide Skip, Return, Pending, Inner, Pop;
    var n := |m.stack| - 1;
    ClosePredicted(cfg, m, isObject);
    InnerClosed(cfg, m.state, m.rest, m.events, m.stack[n].count, isObject);
    if !cfg.trailingCommas && m.state in {MemberDelimiter, ElementDelimiter} {
      ReturnFail(cfg, m.stack[n].ret, m.stack[..n], m.events);
    } else {
      var next := Pop(cfg, m, isObject, if isObject then MemberValue else Element);
      Closed(cfg, m, isObject, next);
      PopResult(cfg, m, isObject);
    }
  }

  lemma ClosePredicted(cfg: Config, m: Machine, isObject: bool)
    requires Stacked(m.state, m.stack) && Peek(m.rest) == if isObject then '}' else ']'
    requires m.state in if isObject then {ObjectInitial, MemberValue, MemberDelimiter} else {ArrayInitial, Element, ElementDelimiter}
    ensures Step(cfg, m) ==
      if !cfg.trailingCommas && m.state in {MemberDelimiter, ElementDelimiter} then m.(state := Error)
      else Pop(cfg, m, isObject, if isObject then MemberValue else Element)
  {
    hide Pop, Stacked;
    assert Predict(m.state, Tokenize(Peek(m.rest))) == if isObject then ObjectFinish else ArrayFinish;
  }

  function ClosingCount(state: State, count: nat): nat {
    if state in {MemberValue, Element} then (count + 1) % TWO32 else count
  }

  lemma InnerClosed(cfg: Config, state: State, s: Text, ev: seq<Event>, count: nat, isObject: bool)
    requires Peek(s) == if isObject then '}' else ']'
    requires state in if isObject then {ObjectInitial, MemberValue, MemberDelimiter} else {ArrayInitial, Element, ElementDelimiter}
    requires state in {ObjectInitial, ArrayInitial} ==> count == 0
    ensures Inner(cfg, state, s, ev, count) ==
      if !cfg.trailingCommas && state in {MemberDelimiter, ElementDelimiter} then Fail(ev)
      else
        Emit(cfg, s[1..], ev, if isObject then EndObject(ClosingCount(state, count)) else EndArray(ClosingCount(state, count)))
  {
    hide Skip, MemberFrom, ElementFrom;
    if !cfg.trailingCommas {
      NoTrailing(cfg, s, ev, count);
    }
  }

  lemma PopResult(cfg: Config, m: Machine, isObject: bool)
    requires Stacked(m.state, m.stack) && m.stack != [] && m.rest != []
    requires m.state in if isObject then {ObjectInitial, MemberValue, MemberDelimiter} else {ArrayInitial, Element, ElementDelimiter}
    ensures
      var next := Pop(cfg, m, isObject, if isObject then MemberValue else Element);
      var c := ClosingCount(m.state, m.stack[|m.stack| - 1].count);
      Emit(cfg, m.rest[1..], m.events, if isObject then EndObject(c) else EndArray(c))
        == if next.state == Error then Fail(next.events) else Ok(next.rest, next.events)
  {}

  /** After the end of a container comes the rest of the one around it. */
  lemma Closed(cfg: Config, m: Machine, isObject: bool, next: Machine)
    requires Stacked(m.state, m.stack) && m.stack != [] && m.rest != []
    requires next == Pop(cfg, m, isObject, if isObject then MemberValue else Element)
    ensures
      var n := |m.stack| - 1;
      var r := if next.state == Error then Fail(next.events) else Ok(next.rest, next.events);
      Return(cfg, m.stack[n].ret, m.stack[..n], r)
        == if next.state == Error then Fail(next.events) else Pending(cfg, next)
  {
    hide Skip, ValueFrom, ElementEnd, MemberEnd;
    var n := |m.stack| - 1;
    if next.state != Error && n > 0 {
      var outer := m.stack[..n];
      assert outer[n - 1] == m.stack[n - 1] && outer[..n - 1] == m.stack[..n - 1];
      var t := Skip(cfg, next.rest);
      ReturnFail(cfg, outer[n - 1].ret, outer[..n - 1], next.events);
    }
  }

  /** A comma. */
  lemma CommaStep(cfg: Config, m: Machine)
    requires Stacked(m.state, m.stack) && Peek(m.rest) == ',' && m.state in {Element, MemberValue}
    ensures Kept(cfg, m, Step(cfg, m))
  {
    hide Skip, NextElement, NextMember, Return;
    var n := |m.stack| - 1;
    var next := Step(cfg, m);
    assert next == Counted(m, if m.state == Element then ElementDelimiter else MemberDelimiter);
    assert next.stack[..n] == m.stack[..n];
    ReturnFail(cfg, m.stack[n].ret, m.stack[..n], m.events);
  }

  /** A name. */
  lemma KeyStep(cfg: Config, m: Machine)
    requires Stacked(m.state, m.stack) && Peek(m.rest) == '"' && m.state in {ObjectInitial, MemberDelimiter}
    requires m.state == ObjectInitial ==> m.stack[|m.stack| - 1].count == 0
    ensures Kept(cfg, m, Step(cfg, m))
  {
    hide Skip, ColonFrom, Return, StringFrom;
    var n := |m.stack| - 1;
    var count := m.stack[n].count;
    var next := Step(cfg, m);
    var name := StringFrom(cfg, m.rest, m.events, true);
    assert next == Entered(name, MemberKey, m.stack, m.rest);
    assert Inner(cfg, m.state, m.rest, m.events, count) == MemberFrom(cfg, m.rest, m.events, count);
    ReturnFail(cfg, m.stack[n].ret, m.stack[..n], next.events);
  }

  /** A colon. */
  lemma ColonStep(cfg: Config, m: Machine)
    requires Stacked(m.state, m.stack) && Peek(m.rest) == ':' && m.state == MemberKey
    ensures Kept(cfg, m, Step(cfg, m))
  {
    hide Skip, MemberValueFrom, Return;
    var n := |m.stack| - 1;
    ReturnFail(cfg, m.stack[n].ret, m.stack[..n], m.events);
  }

  /** A container that cannot go on with the next token, or has no next token. */
  lemma InnerRefused(cfg: Config, state: State, s: Text, ev: seq<Event>, count: nat)
    requires Predict(state, Tokenize(Peek(s))) == Error || Peek(s) == '\0'
    requires state !in {Start, Finish, Error}
    ensures Inner(cfg, state, s, ev, count) == Fail(ev)
  {
    hide Skip, ValueFrom, StringFrom;
    match state
    case ObjectInitial => assert MemberFrom(cfg, s, ev, 0) == Fail(ev);
    case MemberDelimiter => assert MemberFrom(cfg, s, ev, count) == Fail(ev);
    case KeyValueDelimiter => NoValue(cfg, s, ev);
    case ArrayInitial =>
      NoValue(cfg, s, ev);
      assert ElementFrom(cfg, s, ev, 0) == Fail(ev);
    case ElementDelimiter =>
      NoValue(cfg, s, ev);
      assert ElementFrom(cfg, s, ev, count) == Fail(ev);
    case _ =>
  }

  /** Any other token is refused. */
  lemma OtherStep(cfg: Config, m: Machine)
    requires Stacked(m.state, m.stack) && Peek(m.rest) != '\0'
    requires m.state in {Finish, ObjectInitial, MemberKey, MemberValue, Element, MemberDelimiter}
    requires Predict(m.state, Tokenize(Peek(m.rest))) == Error
    ensures Kept(cfg, m, Step(cfg, m))
  {
    hide Skip, Return;
    if m.state != Finish {
      var n := |m.stack| - 1;
      InnerRefused(cfg, m.state, m.rest, m.events, m.stack[n].count);
      ReturnFail(cfg, m.stack[n].ret, m.stack[..n], m.events);
    }
  }

  /** The counts of the two states that have just been entered are zero. */
  predicate FreshCounts(m: Machine) {
    m.state in {ObjectInitial, ArrayInitial} ==> m.stack != [] && m.stack[|m.stack| - 1].count == 0
  }

  lemma ValueKeeps(cfg: Config, m: Machine)
    requires Stacked(m.state, m.stack) && Peek(m.rest) != '\0' && FreshCounts(m)
    requires m.state in {Start, ArrayInitial, ElementDelimiter, KeyValueDelimiter}
    requires Peek(m.rest) != ']' || m.state in {Start, KeyValueDelimiter}
    ensures Kept(cfg, m, Step(cfg, m))
  {
    hide Pending, Meaning, Return, ValueFrom, Step;
    ValueStep(cfg, m);
    ValueMeaning(cfg, m);
  }

  /** One step of the automaton keeps what recursive descent still has to do. */
  lemma StepKeeps(cfg: Config, m: Machine)
    requires Stacked(m.state, m.stack) && Peek(m.rest) != '\0' && FreshCounts(m)
    ensures Kept(cfg, m, Step(cfg, m)) && (Step(cfg, m).state != Error ==> FreshCounts(Step(cfg, m)))
  {
    hide Pending, Meaning, Return, ValueFrom, Inner;
    var c := Peek(m.rest);
    match m.state {
      case Finish => OtherStep(cfg, m);
      case ObjectInitial =>
        if c == '}' { CloseStep(cfg, m, true); } else if c == '"' { KeyStep(cfg, m); } else { OtherStep(cfg, m); }
      case MemberDelimiter =>
        if c == '}' { CloseStep(cfg, m, true); } else if c == '"' { KeyStep(cfg, m); } else { OtherStep(cfg, m); }
      case MemberKey => if c == ':' { ColonStep(cfg, m); } else { OtherStep(cfg, m); }
      case MemberValue =>
        if c == '}' { CloseStep(cfg, m, true); } else if c == ',' { CommaStep(cfg, m); } else { OtherStep(cfg, m); }
      case Element =>
        if c == ']' { CloseStep(cfg, m, false); } else if c == ',' { CommaStep(cfg, m); } else { OtherStep(cfg, m); }
      case ArrayInitial => if c == ']' { CloseStep(cfg, m, false); } else { ValueKeeps(cfg, m); }
      case ElementDelimiter => if c == ']' { CloseStep(cfg, m, false); } else { ValueKeeps(cfg, m); }
      case Start => ValueKeeps(cfg, m);
      case KeyValueDelimiter => ValueKeeps(cfg, m);
    }
    StepFresh(cfg, m);
  }

  lemma StepFresh(cfg: Config, m: Machine)
    requires Stacked(m.state, m.stack) && Peek(m.rest) != '\0'
    ensures Step(cfg, m).state != Error ==> FreshCounts(Step(cfg, m))
  {
    hide ValueFrom, StringFrom;
  }

  /** The end of the text: accepted only when the root is complete. */
  lemma EndMeaning(cfg: Config, m: Machine)
    requires Stacked(m.state, m.stack) && Peek(m.rest) == '\0'
    ensures Meaning(cfg, m) == if m.state == Finish then Ok(m.rest, m.events) else Fail(m.events)
  {
    hide Skip, Return;
    if m.stack != [] {
      var n := |m.stack| - 1;
      InnerRefused(cfg, m.state, m.rest, m.events, m.stack[n].count);
      ReturnFail(cfg, m.stack[n].ret, m.stack[..n], m.events);
    }
  }

  /** From every state the automaton does what is left of recursive descent. */
  lemma {:induction false} RunMeaning(cfg: Config, m: Machine)
    requires Stacked(m.state, m.stack) && FreshCounts(m)
    ensures Run(cfg, m) == Meaning(cfg, m)
    decreases |m.rest|
  {
    hide Meaning, Step, Skip, Stacked;
    if Peek(m.rest) == '\0' {
      EndMeaning(cfg, m);
    } else {
      StepKeeps(cfg, m);
      var next := Step(cfg, m);
      if next.state != Error && !(cfg.stopWhenDone && next.state == Finish) {
        var t := Skip(cfg, next.rest);
        if t.Rest? {
          RunMeaning(cfg, next.(rest := t.rest));
        }
      }
    }
  }

  /** For every text, flags and handler, the two parsers accept alike, leave the same text and emit the same
      events, also before a failure. */
  lemma ParsersAgree(cfg: Config, s: Text)
    ensures Iterative(cfg, s) == Document(cfg, s)
  {
    hide Run, RootFrom;
    var t := Skip(cfg, s);
    if t.Rest? {
      RunMeaning(cfg, Machine(Start, [], t.rest, []));
    }
  }
}
