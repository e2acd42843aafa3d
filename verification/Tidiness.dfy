/**
 Which finished JSON and XML documents the clean-up (src/pstring.c) leaves alone: for those, the path of `main` that
 compresses every document and the path that skips JSON and XML show the same text.
 */
module Tidiness {
  import opened Prelude
  import opened Encoding
  import opened Cleaning
  import opened Document
  import opened Layout
  import opened Render
  import opened TextLines
  import opened PrintedLines

  /** The clean-up can be applied to the document and leaves it as it is. */
  predicate Clean(c: char, d: string) {
    HasSolid(c, d) && Chomped(c, d) == d && Compressed(c, d) == d
  }

  // ----- documents as lines

  predicate NoneEmpty(lines: seq<string>) {
    forall k :: 0 <= k < |lines| ==> lines[k] != ""
  }

  /** Some line ends in two indent characters. */
  predicate AnyDouble(c: char, lines: seq<string>) {
    lines != [] && (EndsDouble(c, lines[0]) || AnyDouble(c, lines[1..]))
  }

  lemma {:induction false} AnyDoubleConcat(c: char, a: seq<string>, b: seq<string>)
    ensures AnyDouble(c, a + b) <==> AnyDouble(c, a) || AnyDouble(c, b)
  {
    if a == [] {
      assert a + b == b;
    } else {
      assert (a + b)[0] == a[0] && (a + b)[1..] == a[1..] + b;
      AnyDoubleConcat(c, a[1..], b);
    }
  }

  lemma AnyDoubleOne(c: char, w: string)
    ensures AnyDouble(c, [w]) <==> EndsDouble(c, w)
  {
    assert [w][1..] == [];
  }

  lemma {:induction false} SingleFold(c: char, lines: seq<string>)
    requires NoneEmpty(lines) && !AnyDouble(c, lines)
    ensures Fold(c, lines) == Unlines(lines)
  {
    if lines != [] {
      SingleFold(c, lines[1..]);
    }
  }

  lemma {:induction false} DoubleLines(c: char, lines: seq<string>)
    requires AnyDouble(c, lines)
    ensures !Normal(c, Unlines(lines))
  {
    var w, t := lines[0], Unlines(lines[1..]);
    if EndsDouble(c, w) {
      DoubleIsNotNormal(c, w, t);
    } else {
      DoubleLines(c, lines[1..]);
      assert w + ("\n" + t) == w + "\n" + t;
      if Normal(c, w + "\n" + t) {
        NormalSuffix(c, w + "\n", t);
      }
    }
  }

  lemma NotNormalIsChanged(c: char, s: string)
    requires !Normal(c, s)
    ensures Compressed(c, s) != s
  {
    SqueezedIsNormal(c, s, 0);
    TallyBound(c, s, 0, 0, 0);
  }

  lemma LastCharacter(c: char, lines: seq<string>)
    requires NoNewlines(lines) && NoneEmpty(lines) && lines != []
    ensures var d, w := Unlines(lines), lines[|lines| - 1];
            (Chomped(c, d) == d <==> w[|w| - 1] != c) && (w[|w| - 1] != c ==> HasSolid(c, d) && Settled(c, d))
  {
    var d, w := Unlines(lines), lines[|lines| - 1];
    UnlinesEnds(lines);
    assert d[|d| - 2] == w[|w| - 1] != NEWLINE;
    assert w[|w| - 1] != c ==> !Blank(c, d[|d| - 2]);
    assert w[|w| - 1] == c ==> Blank(c, d[|d| - 2]) && Blank(c, d[|d| - 1]);
    var n := TrailingBlanks(c, d);
    assert n >= 2 <==> w[|w| - 1] == c;
  }

  /** Of documents without empty lines, the clean-up leaves alone exactly those where indent ends no line twice. */
  lemma CleanIff(c: char, lines: seq<string>)
    requires NoNewlines(lines) && NoneEmpty(lines) && lines != []
    ensures var w := lines[|lines| - 1]; Clean(c, Unlines(lines)) <==> w[|w| - 1] != c && !AnyDouble(c, lines)
  {
    var d := Unlines(lines);
    LastCharacter(c, lines);
    if AnyDouble(c, lines) {
      DoubleLines(c, lines);
      NotNormalIsChanged(c, d);
    } else {
      SqueezeIsFold(c, lines);
      SingleFold(c, lines);
      SqueezedIsNormal(c, d, 0);
      if Settled(c, d) {
        CleanIsIdentity(c, d);
      }
    }
  }

  /** A document that starts and ends in two different characters can be chomped; only the last one can spoil it. */
  lemma EdgesChomped(c: char, d: string)
    requires |d| >= 3 && d[0] != NEWLINE && d[|d| - 2] != NEWLINE && d[0] != d[|d| - 2] && d[|d| - 1] == NEWLINE
    ensures HasSolid(c, d) && (Chomped(c, d) == d <==> c != d[|d| - 2])
  {
    assert !Blank(c, d[0]) || !Blank(c, d[|d| - 2]);
    var n := TrailingBlanks(c, d);
    assert n >= 2 <==> c == d[|d| - 2];
  }

  // ----- markers

  /** A marker is one line, and its last character is one of a few. */
  predicate Marker(f: Format, b: string) {
    NoNewline(b) && b != "" && if f == Json then b[|b| - 1] in {'"', '{', '}', '[', ']'} else b[|b| - 1] == '>'
  }

  lemma JsonNamed(name: string, open: string)
    requires NoNewline(name) && (open == "{" || open == "[")
    ensures Marker(Json, "\"" + name + ("\" : " + open))
  {
  }

  lemma JsonPair(name: string, value: string)
    requires NoNewline(name) && NoNewline(value)
    ensures Marker(Json, "\"" + name + "\" : \"" + value + "\"")
  {
  }

  lemma XmlTag(tag: string, name: string)
    requires NoNewline(tag) && NoNewline(name)
    ensures Marker(Xml, OpenTag(tag, name)) && Marker(Xml, CloseTag(tag))
  {
  }

  lemma XmlPair(open: string, value: string, close: string)
    requires Marker(Xml, open) && NoNewline(value) && Marker(Xml, close)
    ensures Marker(Xml, open + value + close)
  {
  }

  lemma JsonMarker(cfg: Config, c: Call)
    requires cfg.format == Json && AsciiPrintable(cfg.printable)
    ensures Marker(Json, Body(cfg, c))
  {
    match c
    case EntryCall(name, value) =>
      EncodeOneLine(Json, cfg.printable, name);
      EncodeOneLine(Json, cfg.printable, value);
      JsonPair(Quoted(cfg, name), Quoted(cfg, value));
    case SectionOpenCall(name) =>
      EncodeOneLine(Json, cfg.printable, name);
      JsonNamed(Quoted(cfg, name), "{");
      assert "\" : " + "{" == "\" : {";
    case ContainerOpenCall(name) =>
      EncodeOneLine(Json, cfg.printable, name);
      JsonNamed(Quoted(cfg, name), "[");
      assert "\" : " + "[" == "\" : [";
    case _ =>
  }

  lemma XmlEntryMarker(cfg: Config, name: string, value: string)
    requires cfg.format == Xml && AsciiPrintable(cfg.printable)
    ensures Marker(Xml, Body(cfg, EntryCall(name, value)))
  {
    EncodeOneLine(Xml, cfg.printable, name);
    EncodeOneLine(Xml, cfg.printable, value);
    XmlTag("entry", Quoted(cfg, name));
    XmlPair(OpenTag("entry", Quoted(cfg, name)), Quoted(cfg, value), CloseTag("entry"));
  }

  lemma XmlOpenMarker(cfg: Config, tag: string, name: string)
    requires cfg.format == Xml && AsciiPrintable(cfg.printable) && NoNewline(tag)
    ensures Marker(Xml, OpenTag(tag, Quoted(cfg, name)))
  {
    EncodeOneLine(Xml, cfg.printable, name);
    XmlTag(tag, Quoted(cfg, name));
  }

  lemma XmlMarker(cfg: Config, c: Call)
    requires cfg.format == Xml && AsciiPrintable(cfg.printable) && !Ignored(Xml, c)
    ensures Marker(Xml, Body(cfg, c))
  {
    match c
    case EntryCall(name, value) => XmlEntryMarker(cfg, name, value);
    case SectionOpenCall(name) => XmlOpenMarker(cfg, "section", name);
    case ContainerOpenCall(name) => XmlOpenMarker(cfg, "container", name);
    case SectionCloseCall => XmlTag("section", "");
    case ContainerCloseCall => XmlTag("container", "");
  }

  /** Every marker the style writes is one line that is not empty. */
  ghost predicate PlainMarkers(y: Style) {
    forall c: Call {:trigger y.body(c)} :: !Ignored(y.format, c) ==> Marker(y.format, y.body(c))
  }

  lemma MarkersPlain(cfg: Config)
    requires Encoded(cfg.format) && AsciiPrintable(cfg.printable)
    ensures PlainMarkers(StyleOf(cfg))
  {
    forall c: Call | !Ignored(cfg.format, c)
      ensures Marker(cfg.format, Body(cfg, c))
    {
      if cfg.format == Json {
        JsonMarker(cfg, c);
      } else {
        XmlMarker(cfg, c);
      }
    }
  }

  /** The margins hold no newline: the indent character is another one, or there are no margins. */
  predicate PlainMargins(y: Style, i: nat) {
    y.padChar != NEWLINE || (y.amount == 0 && i == 0)
  }

  lemma RowPlain(y: Style, i: nat, b: string)
    requires PlainMargins(y, i) && NoNewline(b) && b != ""
    ensures NoNewline(Margin(y, i) + b) && Margin(y, i) + b != ""
  {
  }

  predicate PlainLines(lines: seq<string>) {
    NoNewlines(lines) && NoneEmpty(lines)
  }

  lemma RowsPlain(first: string, inner: seq<string>, last: string)
    requires PlainLines([first]) && PlainLines(inner) && PlainLines([last])
    ensures PlainLines([first] + inner + [last])
  {
    assert [first][0] == first && [last][0] == last;
  }

  lemma MarkerRow(y: Style, i: nat, b: string)
    requires PlainMargins(y, i) && Marker(y.format, b)
    ensures PlainLines([Margin(y, i) + b])
  {
    RowPlain(y, i, b);
  }

  lemma BothMarkers(f: Format, a: string, b: string)
    requires Marker(f, a) && Marker(f, b)
    ensures Marker(f, a + b)
  {
    assert (a + b)[|a + b| - 1] == b[|b| - 1];
  }

  lemma {:induction false} NodeLinesPlain(y: Style, i: nat, n: Node)
    requires (y.format == Json || y.format == Xml) && PlainMarkers(y) && PlainMargins(y, i) && Visible(y.format, n)
    ensures PlainLines(NodeLines(y, i, n))
    decreases n, 0
  {
    var open := y.body(FirstCall(n));
    MarkerRow(y, i, open);
    if !n.Entry? {
      var close := y.body(CloseCall(n));
      BothMarkers(y.format, open, close);
      MarkerRow(y, i, close);
      MarkerRow(y, i, open + close);
      ListLinesPlain(y, i + y.amount, n.children);
      RowsPlain(Margin(y, i) + open, ListLines(y, i + y.amount, n.children), Margin(y, i) + close);
    }
  }

  lemma {:induction false} ListLinesPlain(y: Style, i: nat, ns: Nodes)
    requires (y.format == Json || y.format == Xml) && PlainMarkers(y) && PlainMargins(y, i) && AllVisible(y.format, ns)
    ensures PlainLines(ListLines(y, i, ns))
    decreases ns, 0
  {
    if ns.Cons? {
      NodeLinesPlain(y, i, ns.head);
      ListLinesPlain(y, i, ns.tail);
    }
  }
}
