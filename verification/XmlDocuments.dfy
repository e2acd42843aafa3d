/**
 The XML documents of src/output.c read back: from the state machine through the pretty-printer to the reader.
 */
module XmlDocuments {
  import opened Prelude
  import opened Encoding
  import opened Decoding
  import opened Document
  import opened Layout
  import opened Render
  import opened Emission
  import opened XmlReader
  import opened XmlRoundTrip

  // ----- the printed text is the text the reader was proved on

  function XmlBody(enc: string -> string, c: Call): string {
    match c
    case EntryCall(name, value) => OpenTag("entry", enc(name)) + enc(value) + CloseTag("entry")
    case SectionOpenCall(name) => OpenTag("section", enc(name))
    case SectionCloseCall => CloseTag("section")
    case ContainerOpenCall(name) => OpenTag("container", enc(name))
    case ContainerCloseCall => CloseTag("container")
    case _ => ""
  }

  ghost predicate WritesXml(y: Style, k: Ink) {
    y.format == Xml && y.amount == k.amount && y.padChar == k.pad && forall c: Call :: y.body(c) == XmlBody(k.enc, c)
  }

  /** Start tag, anything, end tag. */
  lemma TaggedIs(k: Ink, tag: string, name: string, inside: string, rest: string)
    ensures OpenTag(tag, k.enc(name)) + inside + CloseTag(tag) + rest
            == StartText(k, tag, name, inside + EndText(tag, rest))
  {
  }

  lemma {:induction false} PrintIsText(y: Style, k: Ink, i: nat, n: Node, rest: string)
    requires WritesXml(y, k) && !n.Object? && (n.Entry? || ObjectFree(n.children))
    ensures Print(y, i, n) + rest == NodeText(k, i, n, rest)
    decreases n, 0
  {
    if n.Entry? {
      TaggedIs(k, "entry", n.name, k.enc(n.value), rest);
    } else {
      var tag, inside := TagOf(n), Inside(y, i, n.children);
      InsideIsLines(y, k, i, n.children, EndText(tag, rest));
      assert y.body(OpenCall(n)) == OpenTag(tag, k.enc(n.name)) && y.body(CloseCall(n)) == CloseTag(tag);
      TaggedIs(k, tag, n.name, inside, rest);
    }
  }

  lemma {:induction false} InsideIsLines(y: Style, k: Ink, i: nat, ns: Nodes, rest: string)
    requires WritesXml(y, k) && ObjectFree(ns)
    ensures Inside(y, i, ns) + rest == Lines(k, i + k.amount, ns, i, rest)
    decreases ns, 2
  {
    if ns.Cons? {
      AllIsLines(y, k, i + k.amount, ns, i, rest);
    }
  }

  lemma {:induction false} AllIsLines(y: Style, k: Ink, d: nat, ns: Nodes, i: nat, rest: string)
    requires WritesXml(y, k) && ObjectFree(ns) && ns.Cons?
    ensures "\n" + Margin(y, d) + PrintAll(y, d, ns) + "\n" + Margin(y, i) + rest == Lines(k, d, ns, i, rest)
    decreases ns, 1
  {
    var line, end := "\n" + Margin(y, d), "\n" + Margin(y, i);
    var after := Lines(k, d, ns.tail, i, rest);
    PrintIsText(y, k, d, ns.head, after);
    var text := Print(y, d, ns.head);
    if ns.tail.Nil? {
      assert PrintAll(y, d, ns) == text;
      LastLine(line, text, Margin(y, i), rest);
    } else {
      AllIsLines(y, k, d, ns.tail, i, rest);
      MoreLines(line, text, PrintAll(y, d, ns.tail), Margin(y, i), rest);
    }
  }

  lemma LastLine(line: string, text: string, margin: string, rest: string)
    ensures line + text + "\n" + margin + rest == line + (text + ("\n" + margin + rest))
  {
  }

  lemma MoreLines(line: string, text: string, more: string, margin: string, rest: string)
    ensures line + (text + (line + more)) + "\n" + margin + rest == line + (text + (line + more + "\n" + margin + rest))
  {
  }

  // ----- the root element

  /** A value that can stand in an attribute as it is. */
  predicate PlainAttribute(v: string) {
    forall i :: 0 <= i < |v| ==> v[i] !in {'"', '<', '&', '\n', '\t', '\r'}
  }

  lemma {:induction false} PlainAttributeReads(v: string, rest: string)
    requires PlainAttribute(v)
    ensures ReadXmlText(Attribute, v + ("\"" + rest)) == Some(Scan(v, "\"" + rest))
  {
    if v == "" {
      assert v + ("\"" + rest) == "\"" + rest;
    } else {
      assert (v + ("\"" + rest))[1..] == v[1..] + ("\"" + rest);
      PlainAttributeReads(v[1..], rest);
      assert [v[0]] + v[1..] == v;
    }
  }

  lemma {:induction false} SpacesRead(w: string, rest: string)
    requires AllSpace(w) && rest != "" && rest[0] == '<'
    ensures ReadXmlText(Content, w + rest) == Some(Scan(w, rest))
  {
    if w == "" {
      assert w + rest == rest;
    } else {
      assert (w + rest)[1..] == w[1..] + rest;
      SpacesRead(w[1..], rest);
      assert [w[0]] + w[1..] == w;
    }
  }

  lemma AttributeThen(x: Readers, name: string, value: string, tail: string, more: Attributes, rest: string)
    requires IsName(name) && x.attribute(value + ("\"" + tail)) == Some(Scan(value, "\"" + tail))
    requires ParseAttributes(x, tail) == Some(Parsed(more, rest))
    ensures ParseAttributes(x, " " + (name + ("=\"" + (value + ("\"" + tail)))))
            == Some(Parsed(Attr(name, value, more), rest))
  {
    var after := value + ("\"" + tail);
    var t := name + ("=\"" + after);
    var s := " " + t;
    assert s[1..] == t;
    NameLengthIs(name, "=\"" + after);
    assert t[|name| + 2..] == after && t[..|name|] == name;
    assert ("\"" + tail)[1..] == tail;
    assert SkipSpace(s) == t;
  }

  function RootAttributes(rel: Release): Attributes {
    Attr("version", rel.version,
    Attr("package_string", rel.packageString,
    Attr("mode", if rel.privileged then "privileged" else "non-privileged",
    Attr("format_version", "24", NoAttributes))))
  }

  function AttributeText(name: string, value: string, tail: string): string {
    " " + (name + ("=\"" + (value + ("\"" + tail))))
  }

  /** The attributes of the root's start tag, its '>' and what follows. */
  function RootText(rel: Release, rest: string): string {
    AttributeText("version", rel.version,
    AttributeText("package_string", rel.packageString,
    AttributeText("mode", Mode(rel),
    AttributeText("format_version", "24", ">" + rest))))
  }

  /** Plain values are read as they are. */
  ghost predicate PlainReads(x: Readers) {
    forall v: string, tail: string {:trigger x.attribute(v + ("\"" + tail))} ::
      PlainAttribute(v) ==> x.attribute(v + ("\"" + tail)) == Some(Scan(v, "\"" + tail))
  }

  lemma PlainThen(x: Readers, name: string, value: string, tail: string, more: Attributes, rest: string)
    requires PlainReads(x) && IsName(name) && PlainAttribute(value)
             && ParseAttributes(x, tail) == Some(Parsed(more, rest))
    ensures ParseAttributes(x, AttributeText(name, value, tail)) == Some(Parsed(Attr(name, value, more), rest))
  {
    assert x.attribute(value + ("\"" + tail)) == Some(Scan(value, "\"" + tail));
    AttributeThen(x, name, value, tail, more, rest);
  }

  lemma TwoThen(x: Readers, n: string, v: string, m: string, w: string, tail: string, more: Attributes, rest: string)
    requires PlainReads(x) && IsName(n) && PlainAttribute(v) && IsName(m) && PlainAttribute(w)
    requires ParseAttributes(x, tail) == Some(Parsed(more, rest))
    ensures ParseAttributes(x, AttributeText(n, v, AttributeText(m, w, tail)))
            == Some(Parsed(Attr(n, v, Attr(m, w, more)), rest))
  {
    PlainThen(x, m, w, tail, more, rest);
    PlainThen(x, n, v, AttributeText(m, w, tail), Attr(m, w, more), rest);
  }

  lemma NoMore(x: Readers, rest: string)
    ensures ParseAttributes(x, ">" + rest) == Some(Parsed(NoAttributes, rest))
  {
  }

  lemma ModeIs(rel: Release)
    ensures Mode(rel) == (if rel.privileged then "privileged" else "non-privileged") && PlainAttribute(Mode(rel))
  {
    PrivilegedPlain();
    NonPlain();
  }

  lemma PrivilegedPlain()
    ensures PlainAttribute("privileged") && "" + "privileged" == "privileged"
  {
    LettersPlain("privileged");
  }

  lemma NonPlain()
    ensures PlainAttribute("non-privileged") && "non-" + "privileged" == "non-privileged"
  {
    LettersPlain("non-privileged");
  }

  lemma LettersPlain(s: string)
    requires forall i :: 0 <= i < |s| ==> 'a' <= s[i] <= 'z' || s[i] == '-'
    ensures PlainAttribute(s)
  {
  }

  lemma LastAttributes(x: Readers, mode: string, rest: string)
    requires PlainReads(x) && PlainAttribute(mode)
    ensures ParseAttributes(x, AttributeText("mode", mode, AttributeText("format_version", "24", ">" + rest)))
         == Some(Parsed(Attr("mode", mode, Attr("format_version", "24", NoAttributes)), rest))
  {
    NoMore(x, rest);
    TwoThen(x, "mode", mode, "format_version", "24", ">" + rest, NoAttributes, rest);
  }

  lemma FirstAttributes(x: Readers, version: string, package: string, mode: string, rest: string)
    requires PlainReads(x) && PlainAttribute(version) && PlainAttribute(package) && PlainAttribute(mode)
    ensures var last := AttributeText("mode", mode, AttributeText("format_version", "24", ">" + rest));
            ParseAttributes(x, AttributeText("version", version, AttributeText("package_string", package, last)))
            == Some(Parsed(Attr("version", version, Attr("package_string", package,
                           Attr("mode", mode, Attr("format_version", "24", NoAttributes)))), rest))
  {
    var last := AttributeText("mode", mode, AttributeText("format_version", "24", ">" + rest));
    LastAttributes(x, mode, rest);
    TwoThen(x, "version", version, "package_string", package, last,
            Attr("mode", mode, Attr("format_version", "24", NoAttributes)), rest);
  }

  lemma RootStart(x: Readers, rel: Release, rest: string)
    requires PlainReads(x) && PlainAttribute(rel.version) && PlainAttribute(rel.packageString)
    ensures ParseAttributes(x, RootText(rel, rest)) == Some(Parsed(RootAttributes(rel), rest))
  {
    ModeIs(rel);
    FirstAttributes(x, rel.version, rel.packageString, Mode(rel), rest);
  }

  lemma HeaderAttributeIs(name: string, value: string, tail: string)
    ensures HeaderAttribute(name, value) + tail == AttributeText(name, value, tail)
  {
  }

  lemma SixPieces(h: string, a: string, b: string, c: string, d: string, e: string, rest: string)
    ensures h + a + b + c + d + e + rest == h + (a + (b + (c + (d + (e + rest)))))
  {
  }

  /** The header line is the start tag the reader was proved on. */
  lemma RootIsText(rel: Release, rest: string)
    ensures XmlRoot(rel) + rest == "<" + ("procenv" + RootText(rel, "\n" + rest))
  {
    var a, b := HeaderAttribute("version", rel.version), HeaderAttribute("package_string", rel.packageString);
    var c, d := HeaderAttribute("mode", Mode(rel)), HeaderAttribute("format_version", "24");
    SixPieces("<procenv", a, b, c, d, ">\n", rest);
    assert ">\n" + rest == ">" + ("\n" + rest);
    HeaderAttributeIs("format_version", "24", ">" + ("\n" + rest));
    var d' := AttributeText("format_version", "24", ">" + ("\n" + rest));
    HeaderAttributeIs("mode", Mode(rel), d');
    var c' := AttributeText("mode", Mode(rel), d');
    HeaderAttributeIs("package_string", rel.packageString, c');
    var b' := AttributeText("package_string", rel.packageString, c');
    HeaderAttributeIs("version", rel.version, b');
    OpenProcenv(AttributeText("version", rel.version, b'));
  }

  lemma OpenProcenv(t: string)
    ensures "<procenv" + t == "<" + ("procenv" + t)
  {
  }

  lemma {:induction false} DeclarationSkipped(a: string, rest: string)
    requires forall i :: 0 <= i < |a| ==> a[i] != '?'
    ensures AfterDeclaration(a + ("?>" + rest)) == rest
  {
    var s := a + ("?>" + rest);
    if a == "" {
      assert s == "?>" + rest && s[..2] == "?>" && s[2..] == rest;
    } else {
      assert s[0] == a[0] && s[1..] == a[1..] + ("?>" + rest);
      assert !StartsWith(s, "?>") by {
        assert s[..2][0] == s[0];
      }
      DeclarationSkipped(a[1..], rest);
    }
  }

  // ----- the whole document

  function InkOf(cfg: Config): Ink {
    Ink(cfg.indentAmount, cfg.indentChar, s => Encode(Xml, cfg.printable, s), XML_READERS)
  }

  lemma ConfigWritesXml(cfg: Config)
    requires cfg.format == Xml
    ensures WritesXml(StyleOf(cfg), InkOf(cfg))
  {
    forall c: Call
      ensures Body(cfg, c) == XmlBody(InkOf(cfg).enc, c)
    {
    }
  }

  lemma StringsRead(cfg: Config, s: string)
    requires AsciiPrintable(cfg.printable)
    ensures AttributeReads(InkOf(cfg), s) && TextReads(InkOf(cfg), s)
  {
    var e := Encode(Xml, cfg.printable, s);
    forall rest: string
      ensures ReadXmlText(Attribute, e + ("\">" + rest)) == Some(Scan(s, "\">" + rest))
    {
      XmlTextRoundTrip(cfg.printable, Attribute, s, "\">" + rest);
    }
    forall rest: string | rest != "" && rest[0] == '<'
      ensures ReadXmlText(Content, e + rest) == Some(Scan(s, rest))
    {
      XmlTextRoundTrip(cfg.printable, Content, s, rest);
    }
  }

  lemma {:induction false} StringsLegible(cfg: Config, ns: Nodes)
    requires AsciiPrintable(cfg.printable) && ObjectFree(ns)
    ensures AllLegible(InkOf(cfg), ns)
  {
    if ns.Cons? {
      StringsLegible(cfg, ns.tail);
      StringsRead(cfg, ns.head.name);
      if ns.head.Entry? {
        StringsRead(cfg, ns.head.value);
      } else {
        StringsLegible(cfg, ns.head.children);
      }
    }
  }

  lemma ReadersRead(cfg: Config)
    ensures SpaceReads(InkOf(cfg)) && PlainReads(XML_READERS)
  {
    forall w: string, rest: string | AllSpace(w) && rest != "" && rest[0] == '<'
      ensures ReadXmlText(Content, w + rest) == Some(Scan(w, rest))
    {
      SpacesRead(w, rest);
    }
    forall v: string, tail: string | PlainAttribute(v)
      ensures ReadXmlText(Attribute, v + ("\"" + tail)) == Some(Scan(v, "\"" + tail))
    {
      PlainAttributeReads(v, tail);
    }
  }

  /** An element whose start tag has been read, given what its content reads as. */
  function Closed(tag: string, attrs: Attributes, nodes: Option<Parsed<XNodes>>): Option<Parsed<XNode>> {
    if nodes.None? then None
    else
      match ParseEndTag(tag, nodes.value.rest)
      case None => None
      case Some(rest) => Some(Parsed(XElement(tag, attrs, nodes.value.value), rest))
  }

  lemma RootElement(x: Readers, tag: string, text: string, attrs: Attributes, inner: string)
    requires IsName(tag) && text != "" && !NameChar(text[0]) && ParseAttributes(x, text) == Some(Parsed(attrs, inner))
    ensures ParseElement(x, "<" + (tag + text)) == Closed(tag, attrs, ParseContent(x, inner))
  {
    var s := "<" + (tag + text);
    assert s[1..] == tag + text;
    NameLengthIs(tag, text);
    assert (tag + text)[..|tag|] == tag && (tag + text)[|tag|..] == text;
  }

  /** What stands between the root's tags. */
  function RootContent(k: Ink, ns: Nodes): XNodes {
    if ns.Nil? then XCons(XText("\n\n"), XNil) else ContentFor(k, k.amount, ns, 0)
  }

  lemma RootContentReads(y: Style, k: Ink, ns: Nodes, last: string)
    requires WritesXml(y, k) && ObjectFree(ns) && SpaceReads(k) && SpaceAt(k, k.amount) && AllLegible(k, ns)
    ensures var end := EndText("procenv", last);
            ParseContent(k.x, "\n" + (PrintTop(y, y.amount, ns) + "\n" + end)) == Some(Parsed(RootContent(k, ns), end))
  {
    var end := EndText("procenv", last);
    if ns.Nil? {
      assert "\n" + ("" + "\n" + end) == "\n\n" + end;
      SpacesThenEnd(k, "\n\n", last);
    } else {
      AllIsLines(y, k, y.amount, ns, 0, end);
      ReadLines(k, k.amount, ns, 0, "procenv", last);
      TopLines(Margin(y, y.amount), PrintAll(y, y.amount, ns), Margin(y, 0), end);
    }
  }

  /** Nothing between the root's tags but white space. */
  lemma SpacesThenEnd(k: Ink, w: string, last: string)
    requires SpaceReads(k) && AllSpace(w) && w != ""
    ensures var end := EndText("procenv", last); ParseContent(k.x, w + end) == Some(Parsed(XCons(XText(w), XNil), end))
  {
    var end := EndText("procenv", last);
    EndMarkup(k, "procenv", last);
    assert k.x.content(w + end) == Some(Scan(w, end));
    TextThen(k, w, w + end, end, XNil, end);
  }

  lemma TopLines(margin: string, text: string, none: string, end: string)
    requires none == ""
    ensures "\n" + (margin + text + "\n" + end) == "\n" + margin + text + "\n" + none + end
  {
  }

  lemma RootTree(k: Ink, ns: Nodes)
    requires ObjectFree(ns) && SpaceAt(k, k.amount)
    ensures TreeOf(RootContent(k, ns)) == Some(ns)
  {
    if ns.Cons? {
      ContentIsTree(k, k.amount, ns, 0);
    }
  }

  lemma DeclarationThen(x: Readers, a: string, t: string)
    requires forall i :: 0 <= i < |a| ==> a[i] != '?'
    requires t != "" && t[0] == '<'
    ensures ParseWith(x, "<?xml" + a + "?>\n" + t) == Whole(ParseElement(x, t))
  {
    var s := "<?xml" + a + "?>\n" + t;
    DeclarationPieces(a, t);
    DeclarationSkipped(a, "\n" + t);
    assert ("\n" + t)[1..] == t;
    assert SkipSpace("\n" + t) == t;
  }

  lemma DeclarationPieces(a: string, t: string)
    ensures var s := "<?xml" + a + "?>\n" + t; StartsWith(s, "<?xml") && s[5..] == a + ("?>" + ("\n" + t))
  {
  }

  /** What a reader of the whole document gets. */
  function RootFor(k: Ink, rel: Release, ns: Nodes): XNode {
    XElement("procenv", RootAttributes(rel), RootContent(k, ns))
  }

  lemma ReadRoot(y: Style, k: Ink, rel: Release, ns: Nodes, last: string)
    requires WritesXml(y, k) && SpaceReads(k) && PlainReads(k.x) && SpaceAt(k, k.amount)
    requires PlainAttribute(rel.version) && PlainAttribute(rel.packageString) && ObjectFree(ns) && AllLegible(k, ns)
    requires SkipSpace(last) == ""
    ensures var rest := PrintTop(y, y.amount, ns) + "\n" + EndText("procenv", last);
            Whole(ParseElement(k.x, XmlRoot(rel) + rest)) == Some(RootFor(k, rel, ns))
  {
    RootContentReads(y, k, ns, last);
    RootReads(k.x, rel, PrintTop(y, y.amount, ns) + "\n" + EndText("procenv", last));
    EndTag("procenv", last);
  }

  lemma RootReads(x: Readers, rel: Release, rest: string)
    requires PlainReads(x) && PlainAttribute(rel.version) && PlainAttribute(rel.packageString)
    ensures ParseElement(x, XmlRoot(rel) + rest) == Closed("procenv", RootAttributes(rel), ParseContent(x, "\n" + rest))
  {
    var inner := "\n" + rest;
    RootStart(x, rel, inner);
    RootIsText(rel, rest);
    RootTextStarts(rel, inner);
    RootElement(x, "procenv", RootText(rel, inner), RootAttributes(rel), inner);
  }

  lemma RootTextStarts(rel: Release, rest: string)
    ensures RootText(rel, rest) != "" && RootText(rel, rest)[0] == ' '
  {
  }

  lemma RootStarts(rel: Release, rest: string)
    ensures XmlRoot(rel) + rest != "" && (XmlRoot(rel) + rest)[0] == '<'
  {
  }

  lemma VersionIsPlain()
    ensures forall i :: 0 <= i < |XML_VERSION| ==> XML_VERSION[i] != '?'
  {
  }

  /** A document, whatever follows the root's start tag. */
  lemma ReadDocument(x: Readers, rel: Release, rest: string)
    ensures ParseWith(x, XML_DECLARATION + XmlRoot(rel) + rest) == Whole(ParseElement(x, XmlRoot(rel) + rest))
  {
    RootStarts(rel, rest);
    VersionIsPlain();
    DeclarationThen(x, XML_VERSION, XmlRoot(rel) + rest);
    Regroup(XML_DECLARATION, XmlRoot(rel), rest);
  }

  lemma Together(a: string, b: string, c: string, d: string, e: string)
    ensures a + b + c + d + e == a + b + (c + d + e)
  {
  }

  /** The document read has the given tree under a root that carries the release. */
  predicate ReadsAs(root: Option<XNode>, rel: Release, ns: Nodes) {
    root.Some? && root.value.XElement? && root.value.tag == "procenv" && root.value.attributes == RootAttributes(rel)
    && TreeOf(root.value.children) == Some(ns)
  }

  /** A document and white space after it. */
  lemma DocumentReadsBack(cfg: Config, rel: Release, ns: Nodes, last: string)
    requires cfg.format == Xml && AsciiPrintable(cfg.printable) && AiryConfig(cfg) && SkipSpace(last) == ""
    requires PlainAttribute(rel.version) && PlainAttribute(rel.packageString) && ObjectFree(ns)
    ensures var top := PrintTop(StyleOf(cfg), cfg.indentAmount, ns);
            ReadsAs(ParseXml(XML_DECLARATION + XmlRoot(rel) + (top + "\n" + EndText("procenv", last))), rel, ns)
  {
    var y, k := StyleOf(cfg), InkOf(cfg);
    ConfigWritesXml(cfg);
    ReadersRead(cfg);
    StringsLegible(cfg, ns);
    ReadRoot(y, k, rel, ns, last);
    ReadDocument(k.x, rel, PrintTop(y, y.amount, ns) + "\n" + EndText("procenv", last));
    RootTree(k, ns);
  }

  /** The end tag right below the start tag. */
  lemma EmptyReadsBack(cfg: Config, rel: Release, last: string)
    requires PlainAttribute(rel.version) && PlainAttribute(rel.packageString) && SkipSpace(last) == ""
    ensures ReadsAs(ParseXml(XML_DECLARATION + XmlRoot(rel) + EndText("procenv", last)), rel, Nil)
  {
    var k, end := InkOf(cfg), EndText("procenv", last);
    ReadersRead(cfg);
    SpacesThenEnd(k, "\n", last);
    RootReads(k.x, rel, end);
    EndTag("procenv", last);
    ReadDocument(k.x, rel, end);
  }

  lemma XmlEnd()
    ensures XML_END == EndText("procenv", "\n") && SkipSpace("\n") == ""
  {
    assert "\n"[1..] == "";
  }

  /**
   With white space for an indent, the printed XML of every document has matching tags and reads back as the document
   with its objects flattened away.
   */
  lemma PrintedXmlReadsBack(cfg: Config, rel: Release, ns: Nodes)
    requires cfg.format == Xml && AsciiPrintable(cfg.printable) && AiryConfig(cfg)
    requires PlainAttribute(rel.version) && PlainAttribute(rel.packageString)
    ensures ReadsAs(ParseXml(PrintDocument(cfg, rel, ns)), rel, Flatten(ns))
  {
    FlattenObjectFree(ns);
    XmlEnd();
    Together(XML_DECLARATION, XmlRoot(rel), PrintTop(StyleOf(cfg), cfg.indentAmount, Flatten(ns)), "\n", XML_END);
    DocumentReadsBack(cfg, rel, Flatten(ns), "\n");
  }

  // ----- an indent that is not white space

  /** What the content reader makes of a line that starts with such an indent. */
  lemma {:induction false} SolidText(c: char, n: nat, rest: string)
    requires c != '<' && c != '&' && rest != "" && rest[0] == '<'
    ensures ReadXmlText(Content, Repeat(c, n) + rest) == Some(Scan(Repeat(c, n), rest))
  {
    var s := Repeat(c, n) + rest;
    if n == 0 {
      assert s == rest;
    } else {
      SolidText(c, n - 1, rest);
      assert s[1..] == Repeat(c, n - 1) + rest;
      assert [c] + Repeat(c, n - 1) == Repeat(c, n);
    }
  }

  lemma NewlineText(s: string)
    ensures ReadXmlText(Content, "\n" + s) == Prepend('\n', ReadXmlText(Content, s))
  {
  }

  /** A content that a document reader refuses. */
  predicate Refused(nodes: Option<Parsed<XNodes>>) {
    nodes.Some? ==> TreeOf(nodes.value.value).None?
  }

  lemma DoubleMarkup(x: Readers, s: string)
    requires |s| >= 2 && s[0] == '<' && s[1] == '<'
    ensures ParseMarkup(x, s).None?
  {
  }

  lemma SecondOf(s: string, prefix: string)
    requires |prefix| >= 2 && StartsWith(s, prefix)
    ensures s[1] == prefix[1]
  {
  }

  lemma NoReference(s: string)
    requires |s| >= 2 && (s[1] == '&' || s[1] == '<')
    ensures ReadReference(s).None?
  {
    forall prefix | prefix in {"&amp;", "&lt;", "&gt;", "&apos;", "&quot;", "&#x", "&#"}
      ensures !StartsWith(s, prefix)
    {
      if StartsWith(s, prefix) {
        SecondOf(s, prefix);
      }
    }
  }

  lemma AmpersandText(s: string)
    requires |s| >= 2 && s[0] == '&' && (s[1] == '&' || s[1] == '<')
    ensures ReadXmlText(Content, s).None?
  {
    NoReference(s);
  }

  lemma SolidContent(c: char, n: nat, rest: string)
    requires n > 0 && !IsSpace(c) && rest != "" && rest[0] == '<'
    ensures Refused(ParseContent(XML_READERS, "\n" + (Repeat(c, n) + rest)))
  {
    var s := Repeat(c, n) + rest;
    assert |s| >= 2 && s[0] == c && s[1] == (if n > 1 then c else '<');
    NewlineText(s);
    if c == '<' {
      DoubleMarkup(XML_READERS, s);
    } else if c == '&' {
      AmpersandText(s);
    } else {
      SolidText(c, n, rest);
      var w := ['\n'] + Repeat(c, n);
      assert w[1] == c;
    }
  }

  lemma PrintStarts(y: Style, k: Ink, i: nat, ns: Nodes)
    requires WritesXml(y, k) && ns.Cons? && !ns.head.Object?
    ensures PrintAll(y, i, ns) != "" && PrintAll(y, i, ns)[0] == '<'
  {
  }

  lemma SolidIndentSpoilsXml(cfg: Config, rel: Release, ns: Nodes)
    requires cfg.format == Xml && !AiryConfig(cfg) && Flatten(ns).Cons?
    requires PlainAttribute(rel.version) && PlainAttribute(rel.packageString)
    ensures !ReadsAs(ParseXml(PrintDocument(cfg, rel, ns)), rel, Flatten(ns))
  {
    var y, flat, x := StyleOf(cfg), Flatten(ns), XML_READERS;
    FlattenObjectFree(ns);
    ConfigWritesXml(cfg);
    ReadersRead(cfg);
    var text, top := PrintAll(y, y.amount, flat), PrintTop(y, y.amount, flat);
    PrintStarts(y, InkOf(cfg), y.amount, flat);
    var rest := text + "\n" + XML_END;
    SolidContent(cfg.indentChar, cfg.indentAmount, rest);
    ThreeAfter(Margin(y, y.amount), text, "\n", XML_END);
    RootReads(x, rel, top + "\n" + XML_END);
    Together(XML_DECLARATION, XmlRoot(rel), top, "\n", XML_END);
    ReadDocument(x, rel, top + "\n" + XML_END);
  }

  lemma ThreeAfter(a: string, b: string, c: string, d: string)
    ensures a + b + c + d == a + (b + c + d)
  {
  }

  lemma EmptyXml(cfg: Config, rel: Release, ns: Nodes)
    requires cfg.format == Xml && Flatten(ns).Nil?
    ensures PrintDocument(cfg, rel, ns) == PrintDocument(cfg.(indentAmount := 0), rel, ns)
  {
  }

  /**
   Exactly when the printed XML reads back: the indent is white space, unless nothing is written between the root's
   tags.
   */
  lemma XmlReadsBackIff(cfg: Config, rel: Release, ns: Nodes)
    requires cfg.format == Xml && AsciiPrintable(cfg.printable)
    requires PlainAttribute(rel.version) && PlainAttribute(rel.packageString)
    ensures ReadsAs(ParseXml(PrintDocument(cfg, rel, ns)), rel, Flatten(ns)) <==> AiryConfig(cfg) || Flatten(ns).Nil?
  {
    if AiryConfig(cfg) {
      PrintedXmlReadsBack(cfg, rel, ns);
    } else if Flatten(ns).Nil? {
      EmptyXml(cfg, rel, ns);
      PrintedXmlReadsBack(cfg.(indentAmount := 0), rel, ns);
    } else {
      SolidIndentSpoilsXml(cfg, rel, ns);
    }
  }
}
