/**
 Exactly which JSON documents chomp and compress leave alone, for every indent setting.
 */
module JsonTidiness {
  import opened Prelude
  import opened Numerals
  import opened Encoding
  import opened Cleaning
  import opened Document
  import opened Layout
  import opened Render
  import opened Emission
  import opened JsonDocuments
  import opened TextLines
  import opened PrintedLines
  import opened Tidiness

  // ----- how encoded strings end

  lemma {:induction false} EncodeEachLast(printable: char -> bool, s: string)
    requires s != ""
    ensures EncodeEach(Json, printable, s)
         == EncodeEach(Json, printable, s[..|s| - 1]) + EncodeChar(Json, printable, s[|s| - 1])
  {
    if |s| == 1 {
      assert s[1..] == "" && s[..0] == "";
    } else {
      EncodeEachLast(printable, s[1..]);
      assert s[1..][..|s| - 2] == s[..|s| - 1][1..];
      Regroup(EncodeChar(Json, printable, s[0]), EncodeEach(Json, printable, s[..|s| - 1][1..]),
              EncodeChar(Json, printable, s[|s| - 1]));
    }
  }

  lemma EncodeCharLast(printable: char -> bool, c: char)
    requires AsciiPrintable(printable)
    ensures var e := EncodeChar(Json, printable, c); e != "" && (e[|e| - 1] == '"' <==> c == '"')
  {
    var h := PaddedHex(c as int, 4);
    PaddedHexValue(c as int, 4);
    assert h != "" && DigitValue(16, h[|h| - 1]).Some?;
  }

  /** Empty, or ending in a quote: its encoding between quotes ends in two of them. */
  predicate QuoteEnds(v: string) {
    v == "" || v[|v| - 1] == '"'
  }

  lemma EncodedEnds(printable: char -> bool, v: string)
    requires AsciiPrintable(printable)
    ensures QuoteEnds(Encode(Json, printable, v)) <==> QuoteEnds(v)
  {
    TwoPassesAreOne(Json, printable, v);
    if v != "" {
      EncodeEachLast(printable, v);
      EncodeCharLast(printable, v[|v| - 1]);
    }
  }

  // ----- lines that end in two indent characters

  lemma RowDouble(c: char, i: nat, b: string)
    requires b != ""
    ensures EndsDouble(c, Repeat(c, i) + b) <==> if |b| == 1 then b[0] == c && i > 0 else EndsDouble(c, b)
  {
  }

  lemma EntryDouble(c: char, i: nat, name: string, value: string)
    ensures EndsDouble(c, Repeat(c, i) + ("\"" + name + "\" : \"" + value + "\"")) <==> c == '"' && QuoteEnds(value)
  {
    var b := "\"" + name + "\" : \"" + value + "\"";
    assert b[|b| - 1] == '"' && b[|b| - 2] == if value == "" then '"' else value[|value| - 1];
    RowDouble(c, i, b);
  }

  lemma HeadDouble(c: char, i: nat, name: string, open: string, close: string)
    requires (open == "{" && close == "}") || (open == "[" && close == "]")
    ensures var head := "\"" + name + "\" : " + open;
            !EndsDouble(c, Repeat(c, i) + head) && !EndsDouble(c, Repeat(c, i) + (head + close))
  {
    var head := "\"" + name + "\" : " + open;
    var whole := head + close;
    assert head[|head| - 2] == ' ' && head[|head| - 1] == open[0];
    assert whole[|whole| - 2] == open[0] && whole[|whole| - 1] == close[0];
    RowDouble(c, i, head);
    RowDouble(c, i, whole);
  }

  lemma CommaDouble(c: char, w: string)
    requires w != "" && w[|w| - 1] != ','
    ensures !EndsDouble(c, w + ",")
  {
  }

  lemma CommaLines(c: char, lines: seq<string>, comma: bool)
    requires lines != [] && var w := lines[|lines| - 1]; w != "" && w[|w| - 1] != ','
    ensures var n := |lines| - 1;
            AnyDouble(c, WithComma(lines, comma))
            <==> AnyDouble(c, lines[..n]) || (!comma && EndsDouble(c, lines[n]))
  {
    var n := |lines| - 1;
    var last := if comma then lines[n] + "," else lines[n];
    assert WithComma(lines, comma) == lines[..n] + [last];
    AnyDoubleConcat(c, lines[..n], [last]);
    AnyDoubleOne(c, last);
    CommaDouble(c, lines[n]);
  }

  /**
   Some line of the printed nodes ends in two indent characters. Only three characters can do that: a quote after an
   empty value or one that ends in a quote, a brace that stands behind its margin, a bracket that does.
   */
  predicate ListDoubles(cfg: Config, i: nat, ns: Nodes)
    decreases ns, 0
  {
    ns.Cons? && (NodeDoubles(cfg, i, ns.head, ns.tail.Cons?) || ListDoubles(cfg, i, ns.tail))
  }

  predicate NodeDoubles(cfg: Config, i: nat, n: Node, comma: bool)
    decreases n, 0
  {
    var c := cfg.indentChar;
    match n
    case Entry(_, value) => !comma && c == '"' && QuoteEnds(value)
    case Section(_, children) =>
      children.Cons? && (ListDoubles(cfg, i + cfg.indentAmount, children) || (!comma && c == '}' && i > 0))
    case Container(_, children) =>
      children.Cons? && (ListDoubles(cfg, i + cfg.indentAmount, children) || (!comma && c == ']' && i > 0))
    case Object(children) =>
      children.Cons?
      && ((c == '{' && i > 0) || ListDoubles(cfg, i + cfg.indentAmount, children) || (!comma && c == '}' && i > 0))
  }

  /** A JSON style whose encoding keeps how strings end. */
  ghost predicate JsonStyle(y: Style, cfg: Config, enc: string -> string) {
    y.format == Json && y.amount == cfg.indentAmount && y.padChar == cfg.indentChar
    && (forall c: Call {:trigger y.body(c)} :: y.body(c) == JsonBody(enc, c))
    && forall v: string {:trigger enc(v)} :: QuoteEnds(enc(v)) <==> QuoteEnds(v)
  }

  lemma {:induction false} NodeDoublesIff(y: Style, cfg: Config, enc: string -> string, i: nat, n: Node, comma: bool)
    requires JsonStyle(y, cfg, enc)
    ensures AnyDouble(cfg.indentChar, WithComma(NodeLines(y, i, n), comma)) <==> NodeDoubles(cfg, i, n, comma)
    decreases n, 1
  {
    if n.Entry? {
      EntryDoublesIff(y, cfg, enc, i, n, comma);
    } else if n.children.Nil? {
      EmptyDoublesIff(y, cfg, enc, i, n, comma);
    } else {
      ListDoublesIff(y, cfg, enc, i + y.amount, n.children);
      FullDoublesIff(y, cfg, enc, i, n, comma);
    }
  }

  lemma EntryDoublesIff(y: Style, cfg: Config, enc: string -> string, i: nat, n: Node, comma: bool)
    requires JsonStyle(y, cfg, enc) && n.Entry?
    ensures AnyDouble(cfg.indentChar, WithComma(NodeLines(y, i, n), comma)) <==> NodeDoubles(cfg, i, n, comma)
  {
    var b := y.body(FirstCall(n));
    assert b == JsonBody(enc, EntryCall(n.name, n.value)) && b[|b| - 1] == '"';
    EntryDouble(cfg.indentChar, i, enc(n.name), enc(n.value));
    RowDoubleIff(cfg.indentChar, i, b, comma);
    assert QuoteEnds(enc(n.value)) <==> QuoteEnds(n.value);
  }

  lemma EmptyDoublesIff(y: Style, cfg: Config, enc: string -> string, i: nat, n: Node, comma: bool)
    requires JsonStyle(y, cfg, enc) && !n.Entry? && n.children.Nil?
    ensures AnyDouble(cfg.indentChar, WithComma(NodeLines(y, i, n), comma)) <==> NodeDoubles(cfg, i, n, comma)
  {
    EmptyDouble(cfg.indentChar, i, enc, n);
    RowDoubleIff(cfg.indentChar, i, y.body(FirstCall(n)) + y.body(CloseCall(n)), comma);
  }

  lemma FullDoublesIff(y: Style, cfg: Config, enc: string -> string, i: nat, n: Node, comma: bool)
    requires JsonStyle(y, cfg, enc) && !n.Entry? && n.children.Cons?
    requires AnyDouble(cfg.indentChar, ListLines(y, i + y.amount, n.children))
             <==> ListDoubles(cfg, i + y.amount, n.children)
    ensures AnyDouble(cfg.indentChar, WithComma(NodeLines(y, i, n), comma)) <==> NodeDoubles(cfg, i, n, comma)
  {
    assert FirstCall(n) == OpenCall(n);
    assert y.body(OpenCall(n)) == JsonBody(enc, OpenCall(n)) && y.body(CloseCall(n)) == JsonBody(enc, CloseCall(n));
    OpenDouble(cfg.indentChar, i, enc, n);
    CloseIs(enc, n);
    FullLinesDouble(y, cfg, i, n, comma);
  }

  lemma FullLinesDouble(y: Style, cfg: Config, i: nat, n: Node, comma: bool)
    requires y.format == Json && y.amount == cfg.indentAmount && y.padChar == cfg.indentChar
    requires !n.Entry? && n.children.Cons? && y.body(CloseCall(n)) == [if n.Container? then ']' else '}']
    requires EndsDouble(cfg.indentChar, Repeat(cfg.indentChar, i) + y.body(FirstCall(n)))
             <==> n.Object? && cfg.indentChar == '{' && i > 0
    requires AnyDouble(cfg.indentChar, ListLines(y, i + y.amount, n.children))
             <==> ListDoubles(cfg, i + y.amount, n.children)
    ensures AnyDouble(cfg.indentChar, WithComma(NodeLines(y, i, n), comma)) <==> NodeDoubles(cfg, i, n, comma)
  {
    var open, inner, close := y.body(FirstCall(n)), ListLines(y, i + y.amount, n.children), y.body(CloseCall(n));
    var lines := [Repeat(cfg.indentChar, i) + open] + inner + [Repeat(cfg.indentChar, i) + close];
    assert NodeLines(y, i, n) == lines;
    assert AnyDouble(cfg.indentChar, WithComma(lines, comma)) <==> NodeDoubles(cfg, i, n, comma) by {
      GroupDoubles(cfg, i, n, comma, open, inner, close);
    }
  }

  lemma CloseIs(enc: string -> string, n: Node)
    requires !n.Entry?
    ensures JsonBody(enc, CloseCall(n)) == [if n.Container? then ']' else '}']
  {
  }

  lemma GroupDoubles(cfg: Config, i: nat, n: Node, comma: bool, open: string, inner: seq<string>, close: string)
    requires !n.Entry? && n.children.Cons? && close == [if n.Container? then ']' else '}']
    requires EndsDouble(cfg.indentChar, Repeat(cfg.indentChar, i) + open)
             <==> n.Object? && cfg.indentChar == '{' && i > 0
    requires AnyDouble(cfg.indentChar, inner) <==> ListDoubles(cfg, i + cfg.indentAmount, n.children)
    ensures var margin := Repeat(cfg.indentChar, i);
            AnyDouble(cfg.indentChar, WithComma([margin + open] + inner + [margin + close], comma))
            <==> NodeDoubles(cfg, i, n, comma)
  {
    GroupDoubleIff(cfg.indentChar, i, open, inner, close, comma);
  }

  lemma RowDoubleIff(c: char, i: nat, b: string, comma: bool)
    requires b != "" && b[|b| - 1] != ','
    ensures var w := Repeat(c, i) + b; AnyDouble(c, WithComma([w], comma)) <==> !comma && EndsDouble(c, w)
  {
    var w := Repeat(c, i) + b;
    assert [w][..0] == [];
    CommaLines(c, [w], comma);
  }

  lemma GroupDoubleIff(c: char, i: nat, open: string, inner: seq<string>, close: string, comma: bool)
    requires |close| == 1 && close[0] != ','
    ensures var margin := Repeat(c, i);
            AnyDouble(c, WithComma([margin + open] + inner + [margin + close], comma))
            <==> EndsDouble(c, margin + open) || AnyDouble(c, inner) || (!comma && close[0] == c && i > 0)
  {
    var margin := Repeat(c, i);
    var first, last := [margin + open] + inner, margin + close;
    var lines := first + [last];
    assert lines[..|first|] == first && last[|last| - 1] == close[0];
    CommaLines(c, lines, comma);
    AnyDoubleConcat(c, [margin + open], inner);
    AnyDoubleOne(c, margin + open);
    RowDouble(c, i, close);
  }

  lemma EmptyHead(c: char, i: nat, name: string, open: string, close: string, both: string)
    requires (open == "{" && close == "}") || (open == "[" && close == "]")
    requires both == "\" : " + open
    ensures var b := "\"" + name + both + close; !EndsDouble(c, Repeat(c, i) + b) && b != "" && b[|b| - 1] == close[0]
  {
    HeadDouble(c, i, name, open, close);
    HeadIs(name, open, both);
  }

  lemma EmptyDouble(c: char, i: nat, enc: string -> string, n: Node)
    requires !n.Entry?
    ensures var b := JsonBody(enc, OpenCall(n)) + JsonBody(enc, CloseCall(n));
            !EndsDouble(c, Repeat(c, i) + b) && b != "" && b[|b| - 1] != ','
  {
    match n
    case Section(name, _) =>
      assert "\" : " + "{" == "\" : {";
      EmptyHead(c, i, enc(name), "{", "}", "\" : {");
    case Container(name, _) =>
      assert "\" : " + "[" == "\" : [";
      EmptyHead(c, i, enc(name), "[", "]", "\" : [");
    case Object(_) => RowDouble(c, i, "{" + "}");
  }

  lemma HeadIs(name: string, open: string, both: string)
    requires "\" : " + open == both
    ensures "\"" + name + "\" : " + open == "\"" + name + both
  {
  }

  lemma OpenDouble(c: char, i: nat, enc: string -> string, n: Node)
    requires !n.Entry?
    ensures EndsDouble(c, Repeat(c, i) + JsonBody(enc, OpenCall(n))) <==> n.Object? && c == '{' && i > 0
  {
    match n
    case Section(name, _) =>
      HeadDouble(c, i, enc(name), "{", "}");
      HeadIs(enc(name), "{", "\" : {");
    case Container(name, _) =>
      HeadDouble(c, i, enc(name), "[", "]");
      HeadIs(enc(name), "[", "\" : [");
    case Object(_) => RowDouble(c, i, "{");
  }

  lemma {:induction false} ListDoublesIff(y: Style, cfg: Config, enc: string -> string, i: nat, ns: Nodes)
    requires JsonStyle(y, cfg, enc)
    ensures AnyDouble(cfg.indentChar, ListLines(y, i, ns)) <==> ListDoubles(cfg, i, ns)
    decreases ns, 0
  {
    if ns.Cons? {
      NodeDoublesIff(y, cfg, enc, i, ns.head, ns.tail.Cons?);
      ListDoublesIff(y, cfg, enc, i, ns.tail);
      AnyDoubleConcat(cfg.indentChar, WithComma(NodeLines(y, i, ns.head), ns.tail.Cons?), ListLines(y, i, ns.tail));
    }
  }

  // ----- whole documents

  lemma ConfigStyle(cfg: Config)
    requires cfg.format == Json && AsciiPrintable(cfg.printable)
    ensures JsonStyle(StyleOf(cfg), cfg, InkOf(cfg).enc)
  {
    ConfigWritesJson(cfg);
    forall v: string
      ensures QuoteEnds(Encode(Json, cfg.printable, v)) <==> QuoteEnds(v)
    {
      EncodedEnds(cfg.printable, v);
    }
  }

  /**
   The clean-up leaves the document alone: the indent character is not the brace that ends it, no line ends in two
   indent characters, and a newline is not used to indent anything.
   */
  predicate JsonStays(cfg: Config, ns: Nodes) {
    cfg.indentChar != '}' && (cfg.indentChar == NEWLINE ==> cfg.indentAmount == 0 || ns.Nil?)
    && !ListDoubles(cfg, cfg.indentAmount, ns)
  }

  lemma JsonLines(cfg: Config, rel: Release, ns: Nodes)
    requires cfg.format == Json
    ensures var lines := NodeLines(StyleOf(cfg), 0, Object(ns));
            PrintDocument(cfg, rel, ns) == Unlines(lines) && lines[|lines| - 1] == if ns.Nil? then "{}" else "}"
  {
    var y, root := StyleOf(cfg), Object(ns);
    assert y.body(FirstCall(root)) == "{" && y.body(CloseCall(root)) == "}";
    RootLines(y, root);
  }

  lemma RootLines(y: Style, root: Node)
    requires y.format == Json && root.Object? && y.body(FirstCall(root)) == "{" && y.body(CloseCall(root)) == "}"
    ensures var lines := NodeLines(y, 0, root);
            Print(y, 0, root) + "\n" == Unlines(lines)
            && lines[|lines| - 1] == if root.children.Nil? then "{}" else "}"
  {
    PrintIsLines(y, 0, root);
    JoinedIsUnlined(NodeLines(y, 0, root));
    assert Margin(y, 0) == "";
    assert "" + Print(y, 0, root) == Print(y, 0, root);
  }

  lemma NewlineIndent(cfg: Config, rel: Release, ns: Nodes)
    requires cfg.format == Json && cfg.indentChar == NEWLINE && cfg.indentAmount > 0 && ns.Cons?
    ensures var d := PrintDocument(cfg, rel, ns); Compressed(NEWLINE, d) != d
  {
    var y := StyleOf(cfg);
    var d, margin := PrintDocument(cfg, rel, ns), Margin(y, cfg.indentAmount);
    var inside := Inside(y, 0, ns);
    assert y.body(FirstCall(Object(ns))) == "{";
    assert inside[0] == NEWLINE && inside[1] == margin[0] == NEWLINE;
    assert d[1] == NEWLINE && d[2] == NEWLINE;
    NotNormalIsChanged(NEWLINE, d);
  }

  /** Chomp can always be applied to a JSON document, and leaves it alone unless the indent character is a brace. */
  lemma JsonIsChomped(cfg: Config, rel: Release, ns: Nodes)
    requires cfg.format == Json
    ensures var d := PrintDocument(cfg, rel, ns);
            HasSolid(cfg.indentChar, d) && (Chomped(cfg.indentChar, d) == d <==> cfg.indentChar != '}')
  {
    var y, root := StyleOf(cfg), Object(ns);
    assert y.body(FirstCall(root)) == "{" && y.body(CloseCall(root)) == "}";
    BracesChomped(cfg.indentChar, Inside(y, 0, ns));
  }

  lemma BracesChomped(c: char, inside: string)
    ensures var d := "{" + inside + "}" + "\n"; HasSolid(c, d) && (Chomped(c, d) == d <==> c != '}')
  {
    EdgesChomped(c, "{" + inside + "}" + "\n");
  }

  /** For every JSON document and every setting: chomp and compress leave it alone if and only if it stays. */
  lemma JsonIsTidy(cfg: Config, rel: Release, ns: Nodes)
    requires cfg.format == Json && AsciiPrintable(cfg.printable) && Members(ns)
    ensures Clean(cfg.indentChar, PrintDocument(cfg, rel, ns)) <==> JsonStays(cfg, ns)
  {
    var y, root, c := StyleOf(cfg), Object(ns), cfg.indentChar;
    if c == NEWLINE && cfg.indentAmount > 0 && ns.Cons? {
      NewlineIndent(cfg, rel, ns);
    } else {
      var lines := NodeLines(y, 0, root);
      MarkersPlain(cfg);
      ConfigStyle(cfg);
      JsonLines(cfg, rel, ns);
      DocumentLinesPlain(cfg, ns);
      NodeDoublesIff(y, cfg, InkOf(cfg).enc, 0, root, false);
      CleanIff(c, lines);
    }
  }

  lemma DocumentLinesPlain(cfg: Config, ns: Nodes)
    requires cfg.format == Json && AsciiPrintable(cfg.printable) && Members(ns)
    requires cfg.indentChar != NEWLINE || cfg.indentAmount == 0 || ns.Nil?
    ensures PlainLines(NodeLines(StyleOf(cfg), 0, Object(ns)))
  {
    var y := StyleOf(cfg);
    MarkersPlain(cfg);
    if ns.Nil? {
      assert y.body(FirstCall(Object(ns))) == "{" && y.body(CloseCall(Object(ns))) == "}";
      assert NodeLines(y, 0, Object(ns)) == [Margin(y, 0) + ("{" + "}")];
    } else {
      NodeLinesPlain(y, 0, Object(ns));
    }
  }

  lemma {:induction false} DoublesNeedThese(cfg: Config, i: nat, ns: Nodes)
    requires ListDoubles(cfg, i, ns)
    ensures cfg.indentChar in {'"', '{', '}', ']'}
    decreases ns
  {
    if !ns.head.Entry? && ListDoubles(cfg, i + cfg.indentAmount, ns.head.children) {
      DoublesNeedThese(cfg, i + cfg.indentAmount, ns.head.children);
    } else if ListDoubles(cfg, i, ns.tail) {
      DoublesNeedThese(cfg, i, ns.tail);
    }
  }

  /** A space, and every other character but five, leaves every document alone. */
  lemma OrdinaryIndentStays(cfg: Config, ns: Nodes)
    requires cfg.indentChar !in {'"', '{', '}', ']', NEWLINE}
    ensures JsonStays(cfg, ns)
  {
    if ListDoubles(cfg, cfg.indentAmount, ns) {
      DoublesNeedThese(cfg, cfg.indentAmount, ns);
    }
  }

  // ----- one document for each of the characters

  /** An entry without a value. */
  function EmptyEntry(): Nodes {
    Cons(Entry("n", ""), Nil)
  }

  /** A list of one object with one entry. */
  function OneItem(): Nodes {
    Cons(Container("n", Cons(Object(Cons(Entry("k", "v"), Nil)), Nil)), Nil)
  }

  lemma OneItemDoubles(cfg: Config)
    requires cfg.indentAmount > 0 && cfg.indentChar in {'{', ']'}
    ensures Members(OneItem()) && ListDoubles(cfg, cfg.indentAmount, OneItem())
  {
    var i := cfg.indentAmount;
    var item := Object(Cons(Entry("k", "v"), Nil));
    assert Formed(item) && Objects(Cons(item, Nil));
    assert cfg.indentChar == '{' ==> ListDoubles(cfg, i + i, Cons(item, Nil)) by {
      assert cfg.indentChar == '{' ==> NodeDoubles(cfg, i + i, item, false);
    }
    assert NodeDoubles(cfg, i, Container("n", Cons(item, Nil)), false);
  }

  /**
   With a quote, an opening brace, a bracket, a closing brace or a newline for an indent character there are documents
   that the clean-up changes.
   */
  lemma SomeAreChanged(cfg: Config, rel: Release)
    requires cfg.format == Json && AsciiPrintable(cfg.printable)
    ensures cfg.indentChar == '"' ==> !Clean('"', PrintDocument(cfg, rel, EmptyEntry()))
    ensures cfg.indentChar in {'{', ']'} && cfg.indentAmount > 0 ==>
              !Clean(cfg.indentChar, PrintDocument(cfg, rel, OneItem()))
    ensures cfg.indentChar == '}' ==> !Clean('}', PrintDocument(cfg, rel, EmptyEntry()))
    ensures cfg.indentChar == NEWLINE && cfg.indentAmount > 0 ==> !Clean(NEWLINE, PrintDocument(cfg, rel, EmptyEntry()))
  {
    assert Members(EmptyEntry());
    JsonIsTidy(cfg, rel, EmptyEntry());
    if cfg.indentChar in {'{', ']'} && cfg.indentAmount > 0 {
      OneItemDoubles(cfg);
      JsonIsTidy(cfg, rel, OneItem());
    }
  }
}
