/**
 What a reader gets from a JSON document after the clean-up, for every indent setting.
 */
module CleanedJson {
  import opened Prelude
  import opened Encoding
  import opened Decoding
  import opened Cleaning
  import opened Document
  import opened Layout
  import opened Render
  import opened Emission
  import opened TextLines
  import opened CleanedLines
  import opened ShownLines
  import opened PrintedLines
  import opened Tidiness
  import opened NewlineIndents
  import opened JsonReader
  import opened JsonRoundTrip
  import opened JsonDocuments
  import opened JsonTidiness
  import opened TornJson
  import opened ReadingEnds

  // ----- a newline for an indent

  lemma ShownIs(text: string, printed: string, cut: bool)
    requires Shows(text, printed + "\n", cut)
    ensures text == printed + (if cut then "" else "\n")
  {
    assert cut ==> text == printed + "";
  }

  /** The margins go, and the document reads back as if it had none. */
  lemma NewlineJson(cfg: Config, rel: Release, ns: Nodes)
    requires cfg.format == Json && AsciiPrintable(cfg.printable) && Members(ns) && cfg.indentChar == NEWLINE
    ensures ParseJson(CleanedUp(NEWLINE, PrintDocument(cfg, rel, ns))) == Some(JObject(MembersOf(ns)))
            <==> Readable(cfg.printable, ns)
  {
    var bare := cfg.(indentAmount := 0);
    var root, lines, text := Object(ns), NodeLines(StyleOf(cfg), 0, Object(ns)), PrintDocument(cfg, rel, ns);
    var cut := EndsCut(NEWLINE, Physical(lines));
    NewlineShown(cfg, rel, ns);
    ShownIs(CleanedUp(NEWLINE, text), Print(StyleOf(bare), 0, root), cut);
    CutIsSpace(cut);
    DocumentReadsBack(bare, ns, if cut then "" else "\n");
  }

  lemma NewlineShown(cfg: Config, rel: Release, ns: Nodes)
    requires cfg.format == Json && AsciiPrintable(cfg.printable) && Members(ns) && cfg.indentChar == NEWLINE
    ensures var bare, lines := cfg.(indentAmount := 0), NodeLines(StyleOf(cfg), 0, Object(ns));
            Shows(CleanedUp(NEWLINE, PrintDocument(cfg, rel, ns)), Print(StyleOf(bare), 0, Object(ns)) + "\n",
                  EndsCut(NEWLINE, Physical(lines)))
  {
    var bare, root := cfg.(indentAmount := 0), Object(ns);
    var lines, left := NodeLines(StyleOf(cfg), 0, root), NodeLines(StyleOf(bare), 0, root);
    assert PrintDocument(cfg, rel, ns) == Unlines(lines) by {
      JsonLines(cfg, rel, ns);
    }
    assert Print(StyleOf(bare), 0, root) + "\n" == Unlines(left) by {
      JsonLines(bare, rel, ns);
    }
    MarginsFilled(cfg, ns);
    JsonOpens(cfg, ns);
    NewlinesGo(lines);
  }

  lemma MarginsFilled(cfg: Config, ns: Nodes)
    requires cfg.format == Json && AsciiPrintable(cfg.printable) && Members(ns) && cfg.indentChar == NEWLINE
    ensures var left := NodeLines(StyleOf(cfg.(indentAmount := 0)), 0, Object(ns));
            Filled(NodeLines(StyleOf(cfg), 0, Object(ns))) == left && PlainLines(left)
  {
    var bare := cfg.(indentAmount := 0);
    MarkersPlain(cfg);
    BareStyle(cfg);
    NodeFilled(StyleOf(cfg), StyleOf(bare), 0, Object(ns), false);
    DocumentLinesPlain(bare, ns);
  }

  lemma JsonOpens(cfg: Config, ns: Nodes)
    requires cfg.format == Json
    ensures var w := NodeLines(StyleOf(cfg), 0, Object(ns))[0]; w != "" && w[0] == '{'
  {
    var y := StyleOf(cfg);
    assert y.body(ObjectOpenCall) == "{" && y.body(ObjectCloseCall) == "}";
    BraceLines(y, ns);
  }

  // ----- what compress leaves of the others

  lemma LinesStay(c: char, lines: seq<string>)
    requires PlainLines(lines) && lines != [] && var w := lines[|lines| - 1]; w[|w| - 1] != c
    ensures Trimmed(c, lines) == lines
  {
    var n := |lines| - 1;
    assert lines == lines[..n] + [lines[n]];
  }

  /** Without a brace or newlines for an indent, all that the clean-up does is compress. */
  lemma FoldedJson(cfg: Config, rel: Release, ns: Nodes)
    requires cfg.format == Json && AsciiPrintable(cfg.printable) && Members(ns)
    requires cfg.indentChar != NEWLINE && cfg.indentChar != '}'
    ensures var c, lines := cfg.indentChar, NodeLines(StyleOf(cfg), 0, Object(ns));
            Shows(CleanedUp(c, PrintDocument(cfg, rel, ns)), Fold(c, lines), Cuts(c, lines))
  {
    var c, lines := cfg.indentChar, NodeLines(StyleOf(cfg), 0, Object(ns));
    JsonLines(cfg, rel, ns);
    DocumentLinesPlain(cfg, ns);
    LinesStay(c, lines);
    CleanedIs(c, lines);
  }

  lemma CutBraces(text: string, s: string, cut: bool)
    requires Shows(text, "{" + ("\n" + s), cut) && |s| >= 3
    ensures text == "{" + ("\n" + (if cut then s[..|s| - 1] else s))
  {
    var q := "{" + ("\n" + s);
    assert q[..|q| - 1] == "{" + ("\n" + s[..|s| - 1]);
  }

  // ----- an indent that is neither white space nor a brace

  /** The first row of a document's members: the margin, a quote, and further on a space. */
  lemma MarginRow(y: Style, k: Ink, i: nat, ns: Nodes)
    requires WritesJson(y, k) && ns.Cons? && !ns.head.Object?
    ensures var w, p := ListLines(y, i, ns)[0], i + |k.enc(ns.head.name)| + 2;
            p < |w| && w[p] == ' ' && w[i] == '"' && w[..i] == Repeat(y.padChar, i)
  {
    var margin, body := Repeat(y.padChar, i), JsonBody(k.enc, FirstCall(ns.head));
    var w := NodeLines(y, i, ns.head)[0];
    assert y.body(FirstCall(ns.head)) == body;
    assert body[0] == '"' && body[|k.enc(ns.head.name)| + 2] == ' ';
    assert |w| >= i + |body| && w[..i + |body|] == margin + body by {
      assert Margin(y, i) == margin;
      if !ns.head.Entry? {
        var close := y.body(CloseCall(ns.head));
        assert margin + (body + close) == margin + body + close;
      }
    }
    var first := WithComma(NodeLines(y, i, ns.head), ns.tail.Cons?)[0];
    assert first == w || first == w + ",";
    assert (margin + body)[i] == body[0] && (margin + body)[i + |k.enc(ns.head.name)| + 2] == ' ';
  }

  lemma SolidFold(c: char, w: string, s: string, i: nat, p: nat)
    requires i > 0 && i + 2 <= p < |w| && w[i] == '"' && w[..i] == Repeat(c, i) && p < |s| && s[..p + 1] == w[..p + 1]
    ensures |s| >= 3 && s[0] == c && (c == '"' ==> s[1] == '"')
  {
    assert s[0] == s[..p + 1][0] == w[..p + 1][0] == w[..i][0];
    assert s[1] == s[..p + 1][1] == w[..p + 1][1] == w[1];
    assert i > 1 ==> w[1] == w[..i][1];
  }

  lemma SolidShown(text: string, s: string, cut: bool, c: char, ns: Nodes)
    requires Shows(text, "{" + ("\n" + s), cut) && |s| >= 3 && s[0] == c && !IsSpace(c) && (c == '"' ==> s[1] == '"')
    requires ns.Cons? && !ns.head.Object? && ns.head.name != ""
    ensures ParseJson(text) != Some(JObject(MembersOf(ns)))
  {
    CutBraces(text, s, cut);
    var t := if cut then s[..|s| - 1] else s;
    assert t[0] == s[0] && t[1] == s[1];
    SolidStart(ReadJsonString, t, ns);
  }

  lemma SolidRest(y: Style, k: Ink, ns: Nodes)
    requires WritesJson(y, k) && y.amount > 0 && y.padChar != ' ' && ns.Cons? && !ns.head.Object?
    ensures var c := y.padChar;
            var s := Fold(c, ListLines(y, y.amount, ns) + ["}"]);
            |s| >= 3 && s[0] == c && (c == '"' ==> s[1] == '"')
  {
    var more, p := ListLines(y, y.amount, ns) + ["}"], y.amount + |k.enc(ns.head.name)| + 2;
    MarginRow(y, k, y.amount, ns);
    FoldStart(y.padChar, more, p);
    SolidFold(y.padChar, more[0], Fold(y.padChar, more), y.amount, p);
  }

  /** Compress leaves the first margin where it is, and no reader gets past it. */
  lemma SolidIndentStays(cfg: Config, rel: Release, ns: Nodes)
    requires cfg.format == Json && AsciiPrintable(cfg.printable) && !AiryConfig(cfg) && cfg.indentChar != '}'
    requires ns.Cons? && Members(ns) && ns.head.name != ""
    ensures ParseJson(CleanedUp(cfg.indentChar, PrintDocument(cfg, rel, ns))) != Some(JObject(MembersOf(ns)))
  {
    var c, lines := cfg.indentChar, NodeLines(StyleOf(cfg), 0, Object(ns));
    var s := Fold(c, ListLines(StyleOf(cfg), cfg.indentAmount, ns) + ["}"]);
    FoldedJson(cfg, rel, ns);
    BracesSplit(cfg, ns);
    ConfigWritesJson(cfg);
    SolidRest(StyleOf(cfg), InkOf(cfg), ns);
    SolidShown(CleanedUp(c, PrintDocument(cfg, rel, ns)), s, Cuts(c, lines), c, ns);
  }

  lemma BraceFold(c: char, more: seq<string>)
    requires PlainLines(["{"] + more)
    ensures PlainLines(more) && Fold(c, ["{"] + more) == "{" + ("\n" + Fold(c, more))
  {
    var lines := ["{"] + more;
    assert forall k :: 0 <= k < |more| ==> more[k] == lines[k + 1];
    assert lines[1..] == more && DropEmpty(more) == more;
  }

  lemma BracesSplit(cfg: Config, ns: Nodes)
    requires cfg.format == Json && AsciiPrintable(cfg.printable) && ns.Cons? && Members(ns)
    requires cfg.indentChar != NEWLINE || cfg.indentAmount == 0
    ensures var y, more := StyleOf(cfg), ListLines(StyleOf(cfg), cfg.indentAmount, ns) + ["}"];
            PlainLines(more)
            && Fold(cfg.indentChar, NodeLines(y, 0, Object(ns))) == "{" + ("\n" + Fold(cfg.indentChar, more))
  {
    var y := StyleOf(cfg);
    var inner := ListLines(y, cfg.indentAmount, ns);
    BraceLines(y, ns);
    DocumentLinesPlain(cfg, ns);
    assert ["{"] + inner + ["}"] == ["{"] + (inner + ["}"]);
    BraceFold(cfg.indentChar, inner + ["}"]);
  }

  lemma BraceLines(y: Style, ns: Nodes)
    requires y.format == Json && y.body(ObjectOpenCall) == "{" && y.body(ObjectCloseCall) == "}"
    ensures NodeLines(y, 0, Object(ns)) == if ns.Nil? then ["{}"] else ["{"] + ListLines(y, y.amount, ns) + ["}"]
  {
    var margin := Margin(y, 0);
    assert margin + "{" == "{" && margin + "}" == "}" && margin + ("{" + "}") == "{}";
    if ns.Cons? {
      assert NodeLines(y, 0, Object(ns)) == [margin + "{"] + ListLines(y, 0 + y.amount, ns) + [margin + "}"];
    }
  }

  // ----- a quote for an indent

  lemma {:induction false} DoublesNeedQuotes(cfg: Config, ns: Nodes)
    requires cfg.indentAmount == 0 && ListDoubles(cfg, 0, ns)
    ensures cfg.indentChar == '"'
    decreases ns
  {
    if !ns.head.Entry? && ListDoubles(cfg, 0, ns.head.children) {
      DoublesNeedQuotes(cfg, ns.head.children);
    } else if ListDoubles(cfg, 0, ns.tail) {
      DoublesNeedQuotes(cfg, ns.tail);
    }
  }

  lemma TornIsShown(cfg: Config, rel: Release, ns: Nodes)
    requires cfg.format == Json && AsciiPrintable(cfg.printable) && Members(ns)
    requires cfg.indentAmount == 0 && ListDoubles(cfg, 0, ns)
    ensures ParseJson(CleanedUp(cfg.indentChar, PrintDocument(cfg, rel, ns))).None?
  {
    var y, c := StyleOf(cfg), cfg.indentChar;
    var left := Left(y, ns);
    var cut := Cuts(c, NodeLines(y, 0, Object(ns)));
    DoublesNeedQuotes(cfg, ns);
    ConfigStyle(cfg);
    ListDoublesIff(y, cfg, InkOf(cfg).enc, 0, ns);
    FoldedJson(cfg, rel, ns);
    BracesSplit(cfg, ns);
    LeftBraces(y, ns);
    BeforeBrace(left, cut);
    ShownIs(CleanedUp(c, PrintDocument(cfg, rel, ns)), "{" + ("\n" + (left + "}")), cut);
    TornDocument(cfg, ns, if cut then "" else "\n");
  }

  lemma LeftBraces(y: Style, ns: Nodes)
    requires PlainLines(ListLines(y, 0, ns) + ["}"])
    ensures Fold(QUOTE, ListLines(y, 0, ns) + ["}"]) == Left(y, ns) + ("}" + "\n")
  {
    PlainParts(ListLines(y, 0, ns), ["}"]);
    FoldConcat(QUOTE, ListLines(y, 0, ns), ["}"]);
    FoldOne(QUOTE, "}");
  }

  lemma BeforeBrace(left: string, cut: bool)
    ensures "{" + ("\n" + (left + ("}" + "\n"))) == "{" + ("\n" + (left + "}")) + "\n"
    ensures var last := if cut then "" else "\n";
            "{" + ("\n" + (left + "}")) + last == "{" + ("\n" + (left + ("}" + last)))
  {
  }

  // ----- a closing brace for an indent

  const BRACE := '}'

  /** Without the braces that end it, the line does not end in white space. */
  predicate Inked(w: string) {
    var t := Stripped(BRACE, w); t == "" || !IsSpace(t[|t| - 1])
  }

  predicate AllInked(lines: seq<string>) {
    forall k :: 0 <= k < |lines| ==> Inked(lines[k])
  }

  /** A marker that ends in a quote, a bracket or a brace; in a closing brace only if it is one or ends in a pair. */
  predicate Inky(b: string) {
    b != "" && !IsSpace(b[|b| - 1]) && (b[|b| - 1] == BRACE ==> b == "}" || (|b| >= 2 && b[|b| - 2] == '{'))
  }

  lemma RowInked(i: nat, b: string, comma: bool)
    requires Inky(b)
    ensures Inked(Repeat(BRACE, i) + Trailed(b, comma))
  {
    var w := Repeat(BRACE, i) + Trailed(b, comma);
    var t := Stripped(BRACE, w);
    if comma || b[|b| - 1] != BRACE {
      assert t == w;
    } else if b == "}" {
      StrippedSplits(BRACE, w);
      assert Only(BRACE, w) && Only(BRACE, t) by {
        assert w[..|t|] == t;
      }
    } else {
      assert w[|w| - 2] == '{';
      assert Stripped(BRACE, w[..|w| - 1]) == w[..|w| - 1];
    }
  }

  lemma InkyMarkers(enc: string -> string, n: Node)
    ensures n.Entry? ==> Inky(JsonBody(enc, FirstCall(n)))
    ensures !n.Entry? ==> var open, close := JsonBody(enc, FirstCall(n)), JsonBody(enc, CloseCall(n));
                          Inky(open) && Inky(close) && Inky(open + close)
  {
    if !n.Entry? {
      var open, close := JsonBody(enc, OpenCall(n)), JsonBody(enc, CloseCall(n));
      CloseIs(enc, n);
      assert open[|open| - 1] == OpenChar(n);
    }
  }

  lemma RowsInked(i: nat, b: string, comma: bool)
    requires Inky(b)
    ensures AllInked(WithComma([Repeat(BRACE, i) + b], comma))
  {
    EndedRow(Repeat(BRACE, i), b, comma);
    RowInked(i, b, comma);
  }

  lemma NodeRowsInked(y: Style, i: nat, n: Node, comma: bool)
    requires y.format == Json && y.padChar == BRACE && Inky(y.body(FirstCall(n)))
    requires !n.Entry? ==> var close := y.body(CloseCall(n)); Inky(close) && Inky(y.body(FirstCall(n)) + close)
    requires !n.Entry? ==> AllInked(ListLines(y, i + y.amount, n.children))
    ensures AllInked(WithComma(NodeLines(y, i, n), comma))
  {
    var margin, open := Repeat(BRACE, i), y.body(FirstCall(n));
    if n.Entry? {
      assert NodeLines(y, i, n) == [margin + open];
      RowsInked(i, open, comma);
    } else if n.children.Nil? {
      var both := open + y.body(CloseCall(n));
      assert NodeLines(y, i, n) == [margin + both];
      RowsInked(i, both, comma);
    } else {
      var inner, close := ListLines(y, i + y.amount, n.children), y.body(CloseCall(n));
      assert NodeLines(y, i, n) == [margin + open] + inner + [margin + close];
      GroupInked(i, open, inner, close, comma);
    }
  }

  lemma {:induction false} NodeInked(y: Style, k: Ink, i: nat, n: Node, comma: bool)
    requires WritesJson(y, k) && y.padChar == BRACE
    ensures AllInked(WithComma(NodeLines(y, i, n), comma))
    decreases n, 1
  {
    InkyMarkers(k.enc, n);
    assert y.body(FirstCall(n)) == JsonBody(k.enc, FirstCall(n));
    if !n.Entry? {
      assert y.body(CloseCall(n)) == JsonBody(k.enc, CloseCall(n));
      ListInked(y, k, i + y.amount, n.children);
    }
    NodeRowsInked(y, i, n, comma);
  }

  lemma GroupInked(i: nat, open: string, inner: seq<string>, close: string, comma: bool)
    requires Inky(open) && Inky(close) && AllInked(inner)
    ensures var margin := Repeat(BRACE, i); AllInked(WithComma([margin + open] + inner + [margin + close], comma))
  {
    var margin := Repeat(BRACE, i);
    EndedGroup(margin, [margin + open] + inner, close, comma);
    RowInked(i, open, false);
    RowInked(i, close, comma);
  }

  lemma {:induction false} ListInked(y: Style, k: Ink, i: nat, ns: Nodes)
    requires WritesJson(y, k) && y.padChar == BRACE
    ensures AllInked(ListLines(y, i, ns))
    decreases ns, 0
  {
    if ns.Cons? {
      NodeInked(y, k, i, ns.head, ns.tail.Cons?);
      ListInked(y, k, i, ns.tail);
    }
  }

  lemma {:induction false} TrimmedInked(lines: seq<string>)
    requires AllInked(lines) && lines != [] && !Only(BRACE, lines[0])
    ensures var ts := Trimmed(BRACE, lines);
            ts != [] && var w := ts[|ts| - 1]; w != "" && !IsSpace(w[|w| - 1]) && w[|w| - 1] != BRACE
    decreases |lines|
  {
    var n := |lines| - 1;
    if Only(BRACE, lines[n]) {
      TrimmedInked(lines[..n]);
    } else {
      StrippedSplits(BRACE, lines[n]);
      assert Inked(lines[n]);
    }
  }

  /** The document's own brace is gone, so no object is left, whether it is compressed or not. */
  lemma BraceSpoilsJson(cfg: Config, rel: Release, ns: Nodes)
    requires cfg.format == Json && AsciiPrintable(cfg.printable) && Members(ns) && cfg.indentChar == BRACE
    ensures var d := PrintDocument(cfg, rel, ns);
            var chomped, cleaned := ParseJson(Chomped(BRACE, d)), ParseJson(CleanedUp(BRACE, d));
            (chomped.Some? ==> !chomped.value.JObject?) && (cleaned.Some? ==> !cleaned.value.JObject?)
  {
    var lines := NodeLines(StyleOf(cfg), 0, Object(ns));
    assert AllInked(lines) by {
      ConfigWritesJson(cfg);
      NodeInked(StyleOf(cfg), InkOf(cfg), 0, Object(ns), false);
    }
    JsonOpens(cfg, ns);
    assert PrintDocument(cfg, rel, ns) == Unlines(lines) by {
      JsonLines(cfg, rel, ns);
    }
    DocumentLinesPlain(cfg, ns);
    InkedSpoils(lines);
  }

  lemma InkedSpoils(lines: seq<string>)
    requires AllInked(lines) && NoNewlines(lines) && lines != [] && !Only(BRACE, lines[0])
    ensures var d := Unlines(lines);
            var chomped, cleaned := ParseJson(Chomped(BRACE, d)), ParseJson(CleanedUp(BRACE, d));
            (chomped.Some? ==> !chomped.value.JObject?) && (cleaned.Some? ==> !cleaned.value.JObject?)
  {
    TrimmedInked(lines);
    var ts := Trimmed(BRACE, lines);
    var w := ts[|ts| - 1];
    CleanedEnds(BRACE, lines, w[|w| - 1]);
    NoBraceNoObject(Chomped(BRACE, Unlines(lines)), w[|w| - 1]);
    NoBraceNoObject(CleanedUp(BRACE, Unlines(lines)), w[|w| - 1]);
  }

  lemma NoBraceNoObject(s: string, x: char)
    requires EndsAs(s, x) && !IsSpace(x) && x != BRACE
    ensures var r := ParseJson(s); r.Some? ==> !r.value.JObject?
  {
    var r := ParseJson(s);
    if r.Some? && r.value.JObject? {
      ObjectInk(s);
      InkOfLine(s, x, BRACE);
    }
  }

  // ----- all settings

  /**
   Exactly when the JSON that is left after chomp, or after chomp and compress, reads back as the document: every
   non-printable character is at most 0xFFFF, the indent is white space unless there is nothing to indent, it is not the
   closing brace, and compress finds no line that ends in two indent characters.
   */
  lemma CleanedJsonReads(cfg: Config, rel: Release, ns: Nodes)
    requires cfg.format == Json && AsciiPrintable(cfg.printable) && Members(ns) && (ns.Cons? ==> ns.head.name != "")
    ensures var d, wanted := PrintDocument(cfg, rel, ns), Some(JObject(MembersOf(ns)));
            var plain := Readable(cfg.printable, ns) && (AiryConfig(cfg) || ns.Nil?) && cfg.indentChar != BRACE;
            (ParseJson(Chomped(cfg.indentChar, d)) == wanted <==> plain)
            && (ParseJson(CleanedUp(cfg.indentChar, d)) == wanted
                <==> plain && !ListDoubles(cfg, cfg.indentAmount, ns))
  {
    var c := cfg.indentChar;
    JsonReadsBackIff(cfg, rel, ns);
    JsonIsChomped(cfg, rel, ns);
    if c == BRACE {
      BraceSpoilsJson(cfg, rel, ns);
    } else {
      CompressedJsonReads(cfg, rel, ns);
    }
  }

  lemma CompressedJsonReads(cfg: Config, rel: Release, ns: Nodes)
    requires cfg.format == Json && AsciiPrintable(cfg.printable) && Members(ns) && (ns.Cons? ==> ns.head.name != "")
    requires cfg.indentChar != BRACE
    ensures ParseJson(CleanedUp(cfg.indentChar, PrintDocument(cfg, rel, ns))) == Some(JObject(MembersOf(ns)))
            <==> Readable(cfg.printable, ns) && (AiryConfig(cfg) || ns.Nil?)
                 && !ListDoubles(cfg, cfg.indentAmount, ns)
  {
    if ListDoubles(cfg, cfg.indentAmount, ns) {
      DoublesNeedThese(cfg, cfg.indentAmount, ns);
      if cfg.indentAmount == 0 {
        TornIsShown(cfg, rel, ns);
      } else {
        SolidIndentStays(cfg, rel, ns);
      }
    } else if cfg.indentChar == NEWLINE {
      NewlineJson(cfg, rel, ns);
    } else {
      JsonIsTidy(cfg, rel, ns);
      JsonReadsBackIff(cfg, rel, ns);
    }
  }

  /** An entry without a value, under a quote and no indent: it reads back after chomp, and not after compress. */
  lemma TornExample(cfg: Config, rel: Release)
    requires cfg.format == Json && AsciiPrintable(cfg.printable) && cfg.indentChar == '"' && cfg.indentAmount == 0
    ensures var d, wanted := PrintDocument(cfg, rel, EmptyEntry()), Some(JObject(MembersOf(EmptyEntry())));
            ParseJson(Chomped('"', d)) == wanted && ParseJson(CleanedUp('"', d)).None?
  {
    var ns := EmptyEntry();
    assert Members(ns) && ListDoubles(cfg, 0, ns);
    assert JsonReadable(cfg.printable, 'n');
    assert Readable(cfg.printable, ns);
    CleanedJsonReads(cfg, rel, ns);
    TornIsShown(cfg, rel, ns);
  }
}
