/** What may stand between the tokens of a JSON text: the blanks of section 2 of RFC 8259 and, with the flag, comments. */
module JsonSpaceSyntax {
  import opened JsonText

  /** Line comments end with a line break, but for one at the very end of a text. */
  datatype Space =
    | NoSpace | Blank(c: Ch, next: Space) | BlockNote(body: Text, next: Space) | LineNote(body: Text, next: Space)
    | OpenNote(body: Text)

  function SpaceText(p: Space): Text {
    match p
    case NoSpace => []
    case Blank(c, next) => [c] + SpaceText(next)
    case BlockNote(body, next) => "/*" + (body + ("*/" + SpaceText(next)))
    case LineNote(body, next) => "//" + (body + (['\n'] + SpaceText(next)))
    case OpenNote(body) => "//" + body
  }

  /** No end of a block comment, and no end of the text. */
  predicate InBlock(body: Text) {
    forall i | 0 <= i < |body| :: body[i] != '\0' && !(body[i] == '*' && i + 1 < |body| && body[i + 1] == '/')
  }

  predicate InLine(body: Text) { forall i | 0 <= i < |body| :: body[i] != '\0' && body[i] != '\n' }

  predicate ValidSpace(comments: bool, p: Space) {
    match p
    case NoSpace => true
    case Blank(c, next) => c in " \n\r\t" && ValidSpace(comments, next)
    case BlockNote(body, next) => comments && InBlock(body) && ValidSpace(comments, next)
    case LineNote(body, next) => comments && InLine(body) && ValidSpace(comments, next)
    case OpenNote(body) => comments && InLine(body)
  }

  /** No comment is left open. */
  predicate Closed(p: Space) {
    match p
    case NoSpace => true
    case OpenNote(_) => false
    case _ => Closed(p.next)
  }

  /** Nothing more is skipped. */
  predicate SpaceEnds(comments: bool, s: Text) {
    Peek(s) !in " \n\r\t" && !(comments && Peek(s) == '/')
  }

  lemma {:induction false} BlockRead(body: Text, rest: Text)
    requires InBlock(body)
    ensures BlockComment(body + ("*/" + rest)) == Rest(rest)
    decreases |body|
  {
    var s := body + ("*/" + rest);
    if body == [] {
      assert s[1..][0] == '/' && s[2..] == rest;
    } else {
      assert s[1..] == body[1..] + ("*/" + rest);
      BlockRead(body[1..], rest);
    }
  }

  lemma {:induction false} BlockFound(s: Text) returns (body: Text)
    requires BlockComment(s).Rest?
    ensures InBlock(body) && s == body + ("*/" + BlockComment(s).rest)
    decreases |s|
  {
    if s[0] == '*' && Peek(s[1..]) == '/' {
      body := [];
      assert s == "*/" + s[2..];
    } else {
      var more := BlockFound(s[1..]);
      body := [s[0]] + more;
      assert s == [s[0]] + s[1..];
      InBlockMore(s[0], more, BlockComment(s).rest);
    }
  }

  lemma InBlockMore(c: Ch, more: Text, rest: Text)
    requires InBlock(more) && c != '\0' && !(c == '*' && Peek(more + ("*/" + rest)) == '/')
    ensures InBlock([c] + more)
  {
    if more != [] {
      assert (more + ("*/" + rest))[0] == more[0];
    }
  }

  lemma {:induction false} LineRead(body: Text, rest: Text)
    requires InLine(body)
    ensures LineComment(body + (['\n'] + rest)) == rest
    ensures Peek(rest) == '\0' ==> LineComment(body + rest) == rest
    decreases |body|
  {
    var s := body + (['\n'] + rest);
    if body == [] {
      assert s[1..] == rest && body + rest == rest;
    } else {
      assert s[1..] == body[1..] + (['\n'] + rest) && (body + rest)[1..] == body[1..] + rest;
      LineRead(body[1..], rest);
    }
  }

  lemma {:induction false} LineFound(s: Text) returns (body: Text, ended: bool)
    ensures InLine(body)
    ensures s == if ended then body + (['\n'] + LineComment(s)) else body + LineComment(s)
    ensures !ended ==> Peek(LineComment(s)) == '\0'
    decreases |s|
  {
    if Peek(s) == '\0' {
      body, ended := [], false;
    } else if s[0] == '\n' {
      body, ended := [], true;
    } else {
      var more;
      more, ended := LineFound(s[1..]);
      body := [s[0]] + more;
      assert s == [s[0]] + s[1..];
    }
  }

  lemma BlankSkipped(cfg: Config, c: Ch, s: Text)
    requires c in " \n\r\t"
    ensures Skip(cfg, [c] + s) == Skip(cfg, s)
  {
    hide SkipComments;
    assert ([c] + s)[1..] == s;
  }

  lemma BlockSkipped(cfg: Config, body: Text, s: Text)
    requires cfg.comments && InBlock(body)
    ensures Skip(cfg, "/*" + (body + ("*/" + s))) == Skip(cfg, s)
  {
    var t := "/*" + (body + ("*/" + s));
    assert t[1..][0] == '*' && t[2..] == body + ("*/" + s);
    BlockRead(body, s);
  }

  lemma LineSkipped(cfg: Config, t: Text)
    requires cfg.comments
    ensures Skip(cfg, "//" + t) == Skip(cfg, LineComment(t))
  {
    hide LineComment;
    assert ("//" + t)[1..][0] == '/' && ("//" + t)[2..] == t;
  }

  lemma NothingSkipped(cfg: Config, s: Text)
    ensures Skip(cfg, s) == Rest(s) <==> SpaceEnds(cfg.comments, s)
  {}

  /** All of such a space is skipped, and no more. */
  lemma {:induction false} SpaceRead(cfg: Config, p: Space, rest: Text)
    requires ValidSpace(cfg.comments, p) && SpaceEnds(cfg.comments, rest) && (Closed(p) || Peek(rest) == '\0')
    ensures Skip(cfg, SpaceText(p) + rest) == Rest(rest)
    decreases p
  {
    hide Skip, InBlock, InLine;
    match p
    case NoSpace =>
      assert [] + rest == rest;
      NothingSkipped(cfg, rest);
    case Blank(c, next) =>
      assert SpaceText(p) + rest == [c] + (SpaceText(next) + rest);
      BlankSkipped(cfg, c, SpaceText(next) + rest);
      SpaceRead(cfg, next, rest);
    case BlockNote(body, next) =>
      var more := SpaceText(next) + rest;
      Nested("/*", body, "*/", SpaceText(next), rest);
      BlockSkipped(cfg, body, more);
      SpaceRead(cfg, next, rest);
    case LineNote(body, next) =>
      var more := SpaceText(next) + rest;
      Nested("//", body, ['\n'], SpaceText(next), rest);
      LineSkipped(cfg, body + (['\n'] + more));
      LineRead(body, more);
      SpaceRead(cfg, next, rest);
    case OpenNote(body) =>
      assert SpaceText(p) + rest == "//" + (body + rest);
      LineSkipped(cfg, body + rest);
      LineRead(body, rest);
      NothingSkipped(cfg, rest);
  }

  lemma Nested(a: Text, b: Text, c: Text, d: Text, rest: Text)
    ensures a + (b + (c + (d + rest))) == a + (b + (c + d)) + rest
  {}

  /** A space is all that is skipped of a text. */
  predicate Skipping(cfg: Config, s: Text, p: Space) {
    && Skip(cfg, s).Rest? && ValidSpace(cfg.comments, p) && s == SpaceText(p) + Skip(cfg, s).rest
    && SpaceEnds(cfg.comments, Skip(cfg, s).rest) && (Closed(p) || Peek(Skip(cfg, s).rest) == '\0')
  }

  lemma BlankSkipping(cfg: Config, c: Ch, s: Text, p: Space)
    requires c in " \n\r\t" && Skipping(cfg, s, p)
    ensures Skipping(cfg, [c] + s, Blank(c, p))
  {
    hide Skip;
    BlankSkipped(cfg, c, s);
    assert [c] + s == SpaceText(Blank(c, p)) + Skip(cfg, s).rest;
  }

  lemma BlockSkipping(cfg: Config, body: Text, s: Text, p: Space)
    requires cfg.comments && InBlock(body) && Skipping(cfg, s, p)
    ensures Skipping(cfg, "/*" + (body + ("*/" + s)), BlockNote(body, p))
  {
    hide Skip, InBlock;
    BlockSkipped(cfg, body, s);
    Nested("/*", body, "*/", SpaceText(p), Skip(cfg, s).rest);
  }

  lemma LineSkipping(cfg: Config, body: Text, s: Text, p: Space)
    requires cfg.comments && InLine(body) && Skipping(cfg, s, p)
    ensures Skipping(cfg, "//" + (body + (['\n'] + s)), LineNote(body, p))
  {
    hide Skip, InLine;
    LineRead(body, s);
    LineSkipped(cfg, body + (['\n'] + s));
    Nested("//", body, ['\n'], SpaceText(p), Skip(cfg, s).rest);
  }

  lemma OpenSkipping(cfg: Config, body: Text, s: Text)
    requires cfg.comments && InLine(body) && Peek(s) == '\0'
    ensures Skipping(cfg, "//" + (body + s), OpenNote(body))
  {
    hide Skip, InLine;
    LineRead(body, s);
    LineSkipped(cfg, body + s);
    NothingSkipped(cfg, s);
    assert "//" + (body + s) == "//" + body + s;
  }

  /** What the first comment is, and what it leaves. */
  lemma NoteCases(cfg: Config, s: Text)
    requires Skip(cfg, s).Rest? && cfg.comments && Peek(s) == '/'
    ensures Peek(s[1..]) == '*' || Peek(s[1..]) == '/'
    ensures Peek(s[1..]) == '*' ==> s == "/*" + s[2..] && BlockComment(s[2..]).Rest?
    ensures Peek(s[1..]) == '/' ==> s == "//" + s[2..]
  {
    hide BlockComment, LineComment;
  }

  /** Whatever is skipped is such a space. */
  lemma {:induction false} SpaceFound(cfg: Config, s: Text) returns (p: Space)
    requires Skip(cfg, s).Rest?
    ensures Skipping(cfg, s, p)
    decreases |s|
  {
    hide Skip, Skipping, BlockComment, LineComment, InBlock, InLine;
    var c := Peek(s);
    if s != [] && c in " \n\r\t" {
      assert s == [c] + s[1..];
      BlankSkipped(cfg, c, s[1..]);
      var q := SpaceFound(cfg, s[1..]);
      BlankSkipping(cfg, c, s[1..], q);
      p := Blank(c, q);
    } else if cfg.comments && c == '/' {
      NoteCases(cfg, s);
      var t := s[2..];
      if Peek(s[1..]) == '*' {
        var body := BlockFound(t);
        var more := BlockComment(t).rest;
        BlockSkipped(cfg, body, more);
        var q := SpaceFound(cfg, more);
        BlockSkipping(cfg, body, more, q);
        p := BlockNote(body, q);
      } else {
        var body, ended := LineFound(t);
        var more := LineComment(t);
        LineSkipped(cfg, t);
        if ended {
          var q := SpaceFound(cfg, more);
          LineSkipping(cfg, body, more, q);
          p := LineNote(body, q);
        } else {
          OpenSkipping(cfg, body, more);
          p := OpenNote(body);
        }
      }
    } else {
      p := NoSpace;
      NothingSkipping(cfg, s);
    }
  }

  lemma NothingSkipping(cfg: Config, s: Text)
    requires SpaceEnds(cfg.comments, s)
    ensures Skipping(cfg, s, NoSpace)
  {
    hide Skip;
    NothingSkipped(cfg, s);
    assert s == [] + s;
  }
}
