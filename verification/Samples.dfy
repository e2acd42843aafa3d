/**
 Ordinary documents in the default settings, and exactly what is shown for them.
 */
module Samples {
  import opened Prelude
  import opened Encoding
  import opened Document
  import opened Layout
  import opened Render
  import opened Emission
  import opened TextLines
  import opened ShownLines
  import opened Outlines
  import opened FirmTexts
  import StrayLines
  import opened Program
  import opened Crumbs
  import opened PrintedLines
  import opened JsonTidiness
  import opened XmlTidiness
  import XmlDocuments

  predicate Defaults(cfg: Config) {
    cfg.format == Text && cfg.indentAmount == 2 && cfg.indentChar == ' ' && cfg.textSeparator == ": "
  }

  function Pair(name: string, entry: string, value: string): Node {
    Section(name, Cons(Entry(entry, value), Nil))
  }

  /** Two sections with an entry each. */
  function TwoSections(): Nodes {
    Cons(Pair("a", "x", "1"), Cons(Pair("b", "y", "2"), Nil))
  }

  lemma PairLabels(cfg: Config, name: string, entry: string, value: string)
    requires cfg.indentAmount == 2
    ensures NodeLabels(cfg, 0, Pair(name, entry, value))
         == [StrayLines.Row(cfg, 0, name + ":"), StrayLines.Row(cfg, 2, entry + cfg.textSeparator + value)]
  {
    var child := StrayLines.Row(cfg, 2, entry + cfg.textSeparator + value);
    assert Labels(cfg, 2, Cons(Entry(entry, value), Nil)) == [child] + [];
  }

  lemma SampleLabels(cfg: Config)
    requires Defaults(cfg)
    ensures Labels(cfg, 0, TwoSections()) == ["a:", "  x: 1", "b:", "  y: 2"]
    ensures Labels(cfg, 0, TwoSections().tail) == ["b:", "  y: 2"]
  {
    PairLabels(cfg, "a", "x", "1");
    PairLabels(cfg, "b", "y", "2");
    assert StrayLines.Row(cfg, 0, "a" + ":") == "a:" && StrayLines.Row(cfg, 0, "b" + ":") == "b:";
    assert StrayLines.Row(cfg, 2, "x" + ": " + "1") == "  x: 1" && StrayLines.Row(cfg, 2, "y" + ": " + "2") == "  y: 2";
  }

  lemma PairCloses(cfg: Config, kind: string -> bool, name: string, entry: string, value: string, after: bool)
    requires cfg.indentChar != NEWLINE
    ensures NodeCloses(cfg, kind, 0, Pair(name, entry, value), after) <==> after && kind("")
  {
    assert !Closes(cfg, kind, 0 + cfg.indentAmount, Cons(Entry(entry, value), Nil), after);
    assert Repeat(cfg.indentChar, 0) == "";
  }

  lemma SampleCloses(cfg: Config, kind: string -> bool)
    requires Defaults(cfg)
    ensures Closes(cfg, kind, 0, TwoSections(), false) <==> kind("")
  {
    assert HasText(' ', LabelLines(cfg, 0, TwoSections().tail)) by {
      SampleLabels(cfg);
      SampleFirm();
      FirmAreTexts(' ', IsEmpty(), ["b:", "  y: 2"]);
      PhysicalSame(["b:", "  y: 2"]);
    }
    PairCloses(cfg, kind, "a", "x", "1", true);
    PairCloses(cfg, kind, "b", "y", "2", false);
  }

  lemma SampleIsFlat()
    ensures Members(TwoSections()) && AllNamed(TwoSections()) && Flatten(TwoSections()) == TwoSections()
  {
    var xs, ys := Cons(Entry("x", "1"), Nil), Cons(Entry("y", "2"), Nil);
    assert ObjectFree(xs) && ObjectFree(ys) && AllNamed(xs) && AllNamed(ys);
    FlattenFlat(TwoSections());
  }

  lemma FirmWord(w: string)
    requires NoNewline(w) && w != "" && w[|w| - 1] != ' '
    ensures Firm(' ', w) && Stripped(' ', w) == w
  {
  }

  lemma SampleFirm()
    ensures AllFirm(' ', ["a:", "  x: 1", "b:", "  y: 2"]) && AllFirm(' ', ["b:", "  y: 2"])
    ensures StripLast(' ', ["a:", "  x: 1", "b:", "  y: 2"]) == ["a:", "  x: 1", "b:", "  y: 2"]
  {
    FirmWord("a:");
    FirmWord("  x: 1");
    FirmWord("b:");
    FirmWord("  y: 2");
  }

  lemma SampleText()
    ensures Unlines(["a:", "  x: 1", "b:", "  y: 2"]) == "a:\n  x: 1\nb:\n  y: 2" + "\n"
  {
    StrayLines.UnlinesFirst("  y: 2", []);
    StrayLines.UnlinesFirst("b:", ["  y: 2"]);
    StrayLines.UnlinesFirst("  x: 1", ["b:", "  y: 2"]);
    StrayLines.UnlinesFirst("a:", ["  x: 1", "b:", "  y: 2"]);
    assert "a:\n" + ("  x: 1\n" + ("b:\n" + "  y: 2\n")) == "a:\n  x: 1\nb:\n  y: 2" + "\n";
  }

  lemma CutText(cfg: Config, rel: Release, direct: bool, ns: Nodes, labels: seq<string>, text: string)
    requires Defaults(cfg) && ValidConfig(cfg) && ns.Cons? && Members(ns) && AllNamed(ns) && Flatten(ns) == ns
    requires labels == Labels(cfg, 0, ns) && AllFirm(' ', labels) && StripLast(' ', labels) == labels
    requires Closes(cfg, IsEmpty(), 0, ns, false) && !Closes(cfg, Doubled(' '), 0, ns, false)
    requires Unlines(labels) == text + "\n"
    ensures Shown(cfg, rel, direct, AllCalls(ns)) == Some(text)
  {
    ShownFirmText(cfg, rel, direct, ns);
  }

  /** The empty line between the two sections goes, and with it the newline after the second. */
  lemma NewlineLost(cfg: Config, rel: Release, direct: bool)
    requires Defaults(cfg) && ValidConfig(cfg)
    ensures Shown(cfg, rel, direct, AllCalls(TwoSections())) == Some("a:\n  x: 1\nb:\n  y: 2")
  {
    var ns, labels := TwoSections(), ["a:", "  x: 1", "b:", "  y: 2"];
    SampleLabels(cfg);
    SampleIsFlat();
    SampleFirm();
    SampleCloses(cfg, IsEmpty());
    SampleCloses(cfg, Doubled(' '));
    SampleText();
    CutText(cfg, rel, direct, ns, labels, "a:\n  x: 1\nb:\n  y: 2");
  }

  // ----- one section with one entry, in every format

  /** Such as an environment variable; its value may be empty. */
  function OneEntry(section: string, entry: string, value: string): Nodes {
    Cons(Pair(section, entry, value), Nil)
  }

  predicate Letters(s: string) {
    forall i :: 0 <= i < |s| ==> 'a' <= s[i] <= 'z' || 'A' <= s[i] <= 'Z'
  }

  predicate Worded(section: string, entry: string, value: string) {
    Letters(section) && Letters(entry) && Letters(value) && section != "" && entry != ""
  }

  predicate Indented(cfg: Config) {
    cfg.indentAmount == 2 && cfg.indentChar == ' '
  }

  lemma LettersKept(cfg: Config, s: string)
    requires AsciiPrintable(cfg.printable) && Letters(s)
    ensures Quoted(cfg, s) == s && Narrow(cfg, s) && NoNul(s) && NoNewline(s)
  {
    if Encoded(cfg.format) {
      PlainIsKept(cfg.format, cfg.printable, s);
    }
  }

  lemma OneEntryTexts(cfg: Config, section: string, entry: string, value: string)
    requires AsciiPrintable(cfg.printable) && Worded(section, entry, value)
    ensures Quoted(cfg, section) == section && Quoted(cfg, entry) == entry && Quoted(cfg, value) == value
    ensures var ns := OneEntry(section, entry, value);
            Members(ns) && AllNamed(ns) && AllFit(cfg, ns) && Flatten(ns) == ns
  {
    var ns, inner := OneEntry(section, entry, value), Cons(Entry(entry, value), Nil);
    LettersKept(cfg, section);
    LettersKept(cfg, entry);
    LettersKept(cfg, value);
    assert Named(inner.head) && AllNamed(Nil) && AllNamed(inner);
    assert AllNarrow(cfg, Nil) && AllNarrow(cfg, inner) && AllNarrow(cfg, ns);
    NarrowFit(cfg, ns);
    OneEntryFlat(section, entry, value);
  }

  lemma OneEntryFlat(section: string, entry: string, value: string)
    ensures var ns := OneEntry(section, entry, value); Members(ns) && Flatten(ns) == ns
  {
    var inner := Cons(Entry(entry, value), Nil);
    assert Members(Nil) && Members(inner) && ObjectFree(Nil) && ObjectFree(inner);
    FlattenFlat(OneEntry(section, entry, value));
  }

  lemma SectionRows(y: Style, section: string, entry: string, value: string)
    requires (y.format == Json || y.format == Xml) && y.padChar == ' ' && y.amount == 2
    ensures ListLines(y, 2, OneEntry(section, entry, value))
         == ["  " + y.body(SectionOpenCall(section)), "    " + y.body(EntryCall(entry, value)),
             "  " + y.body(SectionCloseCall)]
  {
    var ns, child := OneEntry(section, entry, value), Cons(Entry(entry, value), Nil);
    var row := "    " + y.body(EntryCall(entry, value));
    assert Margin(y, 2) == "  " && Margin(y, 4) == "    ";
    assert NodeLines(y, 4, child.head) == [row];
    assert ListLines(y, 4, child) == [row] + [];
    assert ListLines(y, 2, ns) == NodeLines(y, 2, ns.head) + [];
  }

  lemma Braces(y: Style, ns: Nodes)
    requires y.format == Json && y.amount == 2 && ns.Cons?
    requires y.body(ObjectOpenCall) == "{" && y.body(ObjectCloseCall) == "}"
    ensures NodeLines(y, 0, Object(ns)) == ["{"] + ListLines(y, 2, ns) + ["}"]
  {
    var margin := Margin(y, 0);
    assert margin + "{" == "{" && margin + "}" == "}";
    assert NodeLines(y, 0, Object(ns)) == [margin + "{"] + ListLines(y, 0 + y.amount, ns) + [margin + "}"];
  }

  function JsonText(section: string, entry: string, value: string): seq<string> {
    ["{", "  " + ("\"" + section + "\" : {"), "    " + ("\"" + entry + "\" : \"" + value + "\""), "  " + "}", "}"]
  }

  lemma JsonBodies(cfg: Config, section: string, entry: string, value: string)
    requires cfg.format == Json && AsciiPrintable(cfg.printable) && Worded(section, entry, value)
    ensures Body(cfg, SectionOpenCall(section)) == "\"" + section + "\" : {"
    ensures Body(cfg, EntryCall(entry, value)) == "\"" + entry + "\" : \"" + value + "\""
    ensures Body(cfg, SectionCloseCall) == "}"
  {
    OneEntryTexts(cfg, section, entry, value);
  }

  lemma JsonRows(cfg: Config, section: string, entry: string, value: string)
    requires cfg.format == Json && Indented(cfg) && AsciiPrintable(cfg.printable) && Worded(section, entry, value)
    ensures NodeLines(StyleOf(cfg), 0, Object(OneEntry(section, entry, value))) == JsonText(section, entry, value)
  {
    var y := StyleOf(cfg);
    JsonBodies(cfg, section, entry, value);
    BracedRows(y, section, entry, value);
  }

  lemma BracedRows(y: Style, section: string, entry: string, value: string)
    requires y.format == Json && y.padChar == ' ' && y.amount == 2
    requires y.body(ObjectOpenCall) == "{" && y.body(ObjectCloseCall) == "}"
    ensures NodeLines(y, 0, Object(OneEntry(section, entry, value)))
         == ["{", "  " + y.body(SectionOpenCall(section)), "    " + y.body(EntryCall(entry, value)),
             "  " + y.body(SectionCloseCall), "}"]
  {
    Braces(y, OneEntry(section, entry, value));
    SectionRows(y, section, entry, value);
  }

  /** JSON, on both paths. */
  lemma JsonSample(cfg: Config, rel: Release, direct: bool, section: string, entry: string, value: string)
    requires cfg.format == Json && Indented(cfg) && ValidConfig(cfg) && Worded(section, entry, value)
    ensures Shown(cfg, rel, direct, AllCalls(OneEntry(section, entry, value)))
         == Some(Unlines(JsonText(section, entry, value)))
  {
    var ns := OneEntry(section, entry, value);
    OneEntryTexts(cfg, section, entry, value);
    OrdinaryIndentStays(cfg, ns);
    ShownJson(cfg, rel, direct, ns);
    JsonLines(cfg, rel, ns);
    JsonRows(cfg, section, entry, value);
  }

  function XmlText(rel: Release, section: string, entry: string, value: string): seq<string> {
    ["<?xml version=\"1.0\" encoding=\"UTF-8\"?>",
     "<procenv" + (" version=\"" + rel.version + "\"") + (" package_string=\"" + rel.packageString + "\"")
     + (if rel.privileged then " mode=\"privileged\"" else " mode=\"non-privileged\"") + " format_version=\"24\"" + ">",
     "  " + ("<section name=\"" + section + "\">"),
     "    " + ("<entry name=\"" + entry + "\">" + value + "</entry>"),
     "  " + "</section>",
     "</procenv>"]
  }

  lemma Declaration()
    ensures DECLARATION_LINE == "<?xml version=\"1.0\" encoding=\"UTF-8\"?>"
  {
  }

  lemma AttributeIs(name: string, value: string, before: string)
    requires before == " " + name + "=\""
    ensures HeaderAttribute(name, value) == before + value + "\""
  {
  }

  lemma ModeAttribute(rel: Release)
    ensures HeaderAttribute("mode", Mode(rel))
         == if rel.privileged then " mode=\"privileged\"" else " mode=\"non-privileged\""
  {
    XmlDocuments.ModeIs(rel);
    AttributeIs("mode", Mode(rel), " mode=\"");
  }

  lemma RootIs(rel: Release)
    ensures RootTag(rel) == XmlText(rel, "", "", "")[1]
  {
    ModeAttribute(rel);
    AttributeIs("version", rel.version, " version=\"");
    AttributeIs("package_string", rel.packageString, " package_string=\"");
    AttributeIs("format_version", "24", " format_version=\"");
    assert " format_version=\"" + "24" + "\"" == " format_version=\"24\"";
  }

  lemma XmlBodies(cfg: Config, section: string, entry: string, value: string)
    requires cfg.format == Xml && AsciiPrintable(cfg.printable) && Worded(section, entry, value)
    ensures Body(cfg, SectionOpenCall(section)) == "<section name=\"" + section + "\">"
    ensures Body(cfg, EntryCall(entry, value)) == "<entry name=\"" + entry + "\">" + value + "</entry>"
    ensures Body(cfg, SectionCloseCall) == "</section>"
  {
    OneEntryTexts(cfg, section, entry, value);
    Tags(section, entry);
  }

  lemma XmlRows(cfg: Config, section: string, entry: string, value: string)
    requires cfg.format == Xml && Indented(cfg) && AsciiPrintable(cfg.printable) && Worded(section, entry, value)
    ensures ListLines(StyleOf(cfg), 2, OneEntry(section, entry, value))
         == ["  " + ("<section name=\"" + section + "\">"),
             "    " + ("<entry name=\"" + entry + "\">" + value + "</entry>"), "  " + "</section>"]
  {
    XmlBodies(cfg, section, entry, value);
    SectionRows(StyleOf(cfg), section, entry, value);
  }

  lemma Tags(section: string, entry: string)
    ensures OpenTag("section", section) == "<section name=\"" + section + "\">" && CloseTag("section") == "</section>"
    ensures OpenTag("entry", entry) == "<entry name=\"" + entry + "\">" && CloseTag("entry") == "</entry>"
  {
  }

  lemma XmlPrinted(cfg: Config, rel: Release, section: string, entry: string, value: string)
    requires cfg.format == Xml && Indented(cfg) && AsciiPrintable(cfg.printable) && Worded(section, entry, value)
    requires NoNewline(rel.version) && NoNewline(rel.packageString)
    ensures PrintDocument(cfg, rel, OneEntry(section, entry, value)) == Unlines(XmlText(rel, section, entry, value))
  {
    OneEntryTexts(cfg, section, entry, value);
    XmlDocumentIs(cfg, rel, OneEntry(section, entry, value));
    XmlLinesAre(cfg, rel, section, entry, value);
  }

  /** XML, on both paths. */
  lemma XmlSample(cfg: Config, rel: Release, direct: bool, section: string, entry: string, value: string)
    requires cfg.format == Xml && Indented(cfg) && ValidConfig(cfg) && Worded(section, entry, value)
    requires NoNewline(rel.version) && NoNewline(rel.packageString)
    ensures Shown(cfg, rel, direct, AllCalls(OneEntry(section, entry, value)))
         == Some(Unlines(XmlText(rel, section, entry, value)))
  {
    OneEntryTexts(cfg, section, entry, value);
    ShownXmlText(cfg, rel, direct, OneEntry(section, entry, value));
    XmlPrinted(cfg, rel, section, entry, value);
  }

  lemma XmlLinesAre(cfg: Config, rel: Release, section: string, entry: string, value: string)
    requires cfg.format == Xml && Indented(cfg) && AsciiPrintable(cfg.printable) && Worded(section, entry, value)
    ensures XmlLines(StyleOf(cfg), rel, OneEntry(section, entry, value)) == XmlText(rel, section, entry, value)
  {
    XmlRows(cfg, section, entry, value);
    Declaration();
    RootIs(rel);
  }

  // ----- breadcrumbs

  lemma OneLeaf(cfg: Config, section: string, entry: string, value: string)
    ensures Leaves([], OneEntry(section, entry, value)) == [Leaf([section], entry, value)]
    ensures CrumbTexts(cfg, [Leaf([section], entry, value)])
         == [section + cfg.crumbSeparator + entry + cfg.textSeparator + value]
  {
    var leaf, names := Leaf([section], entry, value), [section];
    assert [] + names == names;
    assert Leaves(names, Cons(Entry(entry, value), Nil)) == [leaf] + [];
    assert Leaves([], OneEntry(section, entry, value)) == [leaf] + [];
    assert names[1..] == [];
    assert Path(cfg.crumbSeparator, names) == section + cfg.crumbSeparator + "" == section + cfg.crumbSeparator;
    var leaves := [leaf];
    assert leaves[1..] == [];
  }

  /** Crumb format, for separators that are no indent. */
  lemma CrumbSample(cfg: Config, rel: Release, direct: bool, section: string, entry: string, value: string)
    requires cfg.format == Crumb && ValidConfig(cfg) && cfg.indentChar == ' ' && Worded(section, entry, value)
    requires NoNewline(cfg.crumbSeparator) && NoNewline(cfg.textSeparator) && value != ""
    ensures Shown(cfg, rel, direct, AllCalls(OneEntry(section, entry, value)))
         == Some(section + cfg.crumbSeparator + entry + cfg.textSeparator + value + "\n")
  {
    var line := section + cfg.crumbSeparator + entry + cfg.textSeparator + value;
    OneLeaf(cfg, section, entry, value);
    OneEntryTexts(cfg, section, entry, value);
    CrumbLine(cfg, section, entry, value);
    FirmWord(line);
    ShownFirmCrumbs(cfg, rel, direct, OneEntry(section, entry, value));
    OneUnlined(line);
  }

  lemma OneUnlined(line: string)
    ensures Unlines([line]) == line + "\n"
  {
    StrayLines.UnlinesFirst(line, []);
    assert [line] + [] == [line];
  }

  lemma CrumbLine(cfg: Config, section: string, entry: string, value: string)
    requires Worded(section, entry, value) && value != ""
    requires NoNewline(cfg.crumbSeparator) && NoNewline(cfg.textSeparator)
    ensures var line := section + cfg.crumbSeparator + entry + cfg.textSeparator + value;
            NoNewline(line) && line != "" && line[|line| - 1] != ' '
  {
  }
}
