/** A value through the writer, the reader and the document handler, as they run. */
module JsonRoundTrip {
  import opened JsonAccept
  import opened JsonDocument
  import JsonGrammar
  import opened JsonPrinter
  import opened JsonReader
  import opened JsonText
  import opened JsonTree
  import opened JsonWriter

  /** Print a value. */
  method Stringify(t: Tree, f: Format) returns (text: Text)
    requires Exact(t)
    ensures text == Print(f, 0, t, [])
  {
    var w := new Writer(f);
    Accept(t, w);
    text := w.out;
    NothingBefore(f);
    assert [] + [] + Print(f, 0, t, []) == Print(f, 0, t, []);
  }

  /** Parse a text with either parser and build its value. */
  method ParseStream(cfg: Config, text: Text, iterative: bool) returns (r: Built)
    requires Accepting(cfg)
    requires
      var d := JsonGrammar.Document(cfg, text);
      d.Ok? ==> Feed([], d.events).Built? && |Feed([], d.events).stack| == 1
    ensures
      var d := JsonGrammar.Document(cfg, text);
      r == if d.Ok? then Feed([], d.events) else Underflow
  {
    hide JsonGrammar.Document, Feed;
    var reader := new Reader(cfg, text);
    if iterative {
      reader.IterativeParse();
    } else {
      reader.ParseRecursive();
    }
    if reader.failed {
      return Underflow;
    }
    var document := new Document();
    var t := document.Populate(reader.events);
    r := Built([t]);
  }

  /** Whatever the format, the flags and the parser: a value that is printed and parsed is the same value. */
  method PrintAndParse(cfg: Config, f: Format, iterative: bool, t: Tree) returns (parsed: Tree)
    requires Accepting(cfg) && Exact(t) && Sized(t)
    ensures parsed == t
  {
    hide JsonGrammar.Document, Feed, Print;
    var text := Stringify(t, f);
    PrintedParsed(cfg, f, t);
    var r := ParseStream(cfg, text, iterative);
    parsed := r.stack[0];
  }
}
