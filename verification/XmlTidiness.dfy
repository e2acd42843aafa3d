/**
 Exactly which XML documents chomp and compress leave alone, for every indent setting.
 */
module XmlTidiness {
  import opened Prelude
  import opened Encoding
  import opened Cleaning
  import opened Document
  import opened Layout
  import opened Render
  import opened Emission
  import opened TextLines
  import opened PrintedLines
  import opened Tidiness

  // ----- the header

  const DECLARATION_LINE := "<?xml" + XML_VERSION + "?>"

  lemma DeclarationLine()
    ensures Marker(Xml, DECLARATION_LINE) && DECLARATION_LINE[0] == '<' && XML_DECLARATION == DECLARATION_LINE + "\n"
  {
  }

  lemma RootTagLine(rel: Release)
    requires NoNewline(rel.version) && NoNewline(rel.packageString)
    ensures Marker(Xml, RootTag(rel)) && XmlRoot(rel) == RootTag(rel) + "\n"
  {
    AttributeLine("version", rel.version);
    AttributeLine("package_string", rel.packageString);
    AttributeLine("mode", Mode(rel));
    AttributeLine("format_version", "24");
    RootLine(HeaderAttribute("version", rel.version), HeaderAttribute("package_string", rel.packageString),
             HeaderAttribute("mode", Mode(rel)), HeaderAttribute("format_version", "24"));
  }

  /** The root's start tag without its newline. */
  function RootTag(rel: Release): string {
    "<procenv" + HeaderAttribute("version", rel.version) + HeaderAttribute("package_string", rel.packageString)
    + HeaderAttribute("mode", Mode(rel)) + HeaderAttribute("format_version", "24") + ">"
  }

  lemma AttributeLine(name: string, value: string)
    requires NoNewline(name) && NoNewline(value)
    ensures NoNewline(HeaderAttribute(name, value))
  {
  }

  lemma RootLine(a: string, b: string, c: string, d: string)
    requires NoNewline(a) && NoNewline(b) && NoNewline(c) && NoNewline(d)
    ensures Marker(Xml, "<procenv" + a + b + c + d + ">")
    ensures "<procenv" + a + b + c + d + ">\n" == "<procenv" + a + b + c + d + ">" + "\n"
  {
  }

  // ----- every line ends in a tag's end

  predicate Tagged(lines: seq<string>) {
    forall k :: 0 <= k < |lines| ==> lines[k] != "" && lines[k][|lines[k]| - 1] == '>'
  }

  lemma {:induction false} TaggedIsSingle(c: char, lines: seq<string>)
    requires Tagged(lines) && c != '>'
    ensures !AnyDouble(c, lines)
  {
    if lines != [] {
      TaggedIsSingle(c, lines[1..]);
    }
  }

  lemma {:induction false} NodeLinesTagged(y: Style, i: nat, n: Node)
    requires y.format == Xml && PlainMarkers(y) && Visible(Xml, n)
    ensures Tagged(NodeLines(y, i, n))
    decreases n, 0
  {
    RowTagged(Margin(y, i), y.body(FirstCall(n)));
    if !n.Entry? {
      RowTagged(Margin(y, i), y.body(CloseCall(n)));
      ListLinesTagged(y, i + y.amount, n.children);
    }
  }

  lemma RowTagged(margin: string, b: string)
    requires Marker(Xml, b)
    ensures Tagged([margin + b])
  {
  }

  lemma {:induction false} ListLinesTagged(y: Style, i: nat, ns: Nodes)
    requires y.format == Xml && PlainMarkers(y) && AllVisible(Xml, ns)
    ensures Tagged(ListLines(y, i, ns))
    decreases ns, 0
  {
    if ns.Cons? {
      NodeLinesTagged(y, i, ns.head);
      ListLinesTagged(y, i, ns.tail);
    }
  }

  // ----- whole documents

  function XmlLines(y: Style, rel: Release, ns: Nodes): seq<string> {
    [DECLARATION_LINE, RootTag(rel)] + ListLines(y, y.amount, ns) + ["</procenv>"]
  }

  lemma TwoUnlined(a: string, b: string)
    ensures Unlines([a, b]) == a + "\n" + (b + "\n") && Unlines([b]) == b + "\n"
  {
    assert [a, b][1..] == [b] && [b][1..] == [];
    assert Unlines([b]) == b + ("\n" + "") == b + "\n";
    assert Unlines([a, b]) == a + ("\n" + Unlines([b]));
  }

  lemma HeaderUnlined(rel: Release)
    requires NoNewline(rel.version) && NoNewline(rel.packageString)
    ensures XML_DECLARATION + XmlRoot(rel) == Unlines([DECLARATION_LINE, RootTag(rel)])
  {
    DeclarationLine();
    RootTagLine(rel);
    TwoUnlined(DECLARATION_LINE, RootTag(rel));
  }

  lemma XmlDocumentIs(cfg: Config, rel: Release, ns: Nodes)
    requires cfg.format == Xml && NoNewline(rel.version) && NoNewline(rel.packageString) && Flatten(ns).Cons?
    ensures PrintDocument(cfg, rel, ns) == Unlines(XmlLines(StyleOf(cfg), rel, Flatten(ns)))
  {
    var y, flat := StyleOf(cfg), Flatten(ns);
    var head, lines, last := [DECLARATION_LINE, RootTag(rel)], ListLines(y, y.amount, flat), "</procenv>";
    HeaderUnlined(rel);
    PrintAllIsLines(y, y.amount, flat);
    JoinedIsUnlined(lines);
    UnlinesConcat(head, lines);
    UnlinesAppend(head + lines, last);
    assert XML_END == last + "\n";
    Regroup(XML_DECLARATION + XmlRoot(rel), PrintTop(y, y.amount, flat), "\n");
  }

  /** The clean-up leaves the document alone. */
  predicate XmlStays(cfg: Config, ns: Nodes) {
    ns.Cons? && cfg.indentChar != '>' && (cfg.indentChar == NEWLINE ==> cfg.indentAmount == 0)
  }

  /** Chomp can always be applied to an XML document, and leaves it alone unless tags end in the indent character. */
  lemma XmlIsChomped(cfg: Config, rel: Release, ns: Nodes)
    requires cfg.format == Xml
    ensures var d := PrintDocument(cfg, rel, ns);
            HasSolid(cfg.indentChar, d) && (Chomped(cfg.indentChar, d) == d <==> cfg.indentChar != '>')
  {
    var y := StyleOf(cfg);
    var before := XML_DECLARATION + XmlRoot(rel) + PrintTop(y, y.amount, Flatten(ns)) + "\n";
    var d := PrintDocument(cfg, rel, ns);
    DeclarationLine();
    assert d == before + XML_END && before[0] == '<';
    EndChomped(cfg.indentChar, before, XML_END);
  }

  lemma EndChomped(c: char, before: string, end: string)
    requires before != "" && before[0] == '<' && |end| >= 2 && end[|end| - 2] == '>' && end[|end| - 1] == NEWLINE
    ensures HasSolid(c, before + end) && (Chomped(c, before + end) == before + end <==> c != '>')
  {
    EdgesChomped(c, before + end);
  }

  /** An empty line right after the root's start tag: nothing follows it, or newlines indent what does. */
  lemma EmptyLineIsDropped(cfg: Config, rel: Release, ns: Nodes)
    requires cfg.format == Xml && NoNewline(rel.version) && NoNewline(rel.packageString)
    requires Flatten(ns).Nil? || (cfg.indentChar == NEWLINE && cfg.indentAmount > 0)
    ensures var d := PrintDocument(cfg, rel, ns); Compressed(cfg.indentChar, d) != d
  {
    var y, flat := StyleOf(cfg), Flatten(ns);
    var rest := PrintTop(y, y.amount, flat) + "\n" + XML_END;
    RootTagLine(rel);
    assert rest[0] == NEWLINE;
    var d := PrintDocument(cfg, rel, ns);
    SplitAtRoot(XML_DECLARATION, RootTag(rel), PrintTop(y, y.amount, flat), XML_END);
    TwoNewlines(cfg.indentChar, XML_DECLARATION + RootTag(rel), rest);
  }

  lemma SplitAtRoot(declaration: string, tag: string, top: string, end: string)
    ensures declaration + (tag + "\n") + top + "\n" + end == declaration + tag + ("\n" + (top + "\n" + end))
  {
  }

  lemma TwoNewlines(c: char, a: string, rest: string)
    requires rest != "" && rest[0] == NEWLINE
    ensures var d := a + ("\n" + rest); Compressed(c, d) != d
  {
    var d := a + ("\n" + rest);
    assert d[|a|] == NEWLINE && d[|a| + 1] == NEWLINE;
    NotNormalIsChanged(c, d);
  }

  /** For every XML document and every setting: chomp and compress leave it alone if and only if it stays. */
  lemma XmlIsTidy(cfg: Config, rel: Release, ns: Nodes)
    requires cfg.format == Xml && AsciiPrintable(cfg.printable) && Members(ns)
    requires NoNewline(rel.version) && NoNewline(rel.packageString)
    ensures Clean(cfg.indentChar, PrintDocument(cfg, rel, ns)) <==> XmlStays(cfg, ns)
  {
    XmlIsChomped(cfg, rel, ns);
    if Flatten(ns).Nil? || (cfg.indentChar == NEWLINE && cfg.indentAmount > 0) {
      EmptyLineIsDropped(cfg, rel, ns);
    } else if cfg.indentChar != '>' {
      XmlDocumentIs(cfg, rel, ns);
      XmlLinesPlain(cfg, rel, ns);
      var lines := XmlLines(StyleOf(cfg), rel, Flatten(ns));
      TaggedIsSingle(cfg.indentChar, lines);
      CleanIff(cfg.indentChar, lines);
    }
  }

  lemma XmlLinesPlain(cfg: Config, rel: Release, ns: Nodes)
    requires cfg.format == Xml && AsciiPrintable(cfg.printable) && NoNewline(rel.version)
             && NoNewline(rel.packageString)
    requires cfg.indentChar == NEWLINE ==> cfg.indentAmount == 0
    ensures var lines := XmlLines(StyleOf(cfg), rel, Flatten(ns)); Tagged(lines) && PlainLines(lines)
  {
    var y, flat := StyleOf(cfg), Flatten(ns);
    FlattenObjectFree(ns);
    MarkersPlain(cfg);
    DeclarationLine();
    RootTagLine(rel);
    ListLinesPlain(y, y.amount, flat);
    ListLinesTagged(y, y.amount, flat);
    LinesBetween(DECLARATION_LINE, RootTag(rel), ListLines(y, y.amount, flat), "</procenv>");
  }

  lemma LinesBetween(a: string, b: string, lines: seq<string>, e: string)
    requires Marker(Xml, a) && Marker(Xml, b) && Marker(Xml, e) && Tagged(lines) && PlainLines(lines)
    ensures Tagged([a, b] + lines + [e]) && PlainLines([a, b] + lines + [e])
  {
  }
}
