/**
 What a reader gets from an XML document after the clean-up, for every indent setting.
 */
module CleanedXml {
  import opened Prelude
  import opened Encoding
  import opened Decoding
  import opened Cleaning
  import opened Document
  import opened Layout
  import opened Render
  import opened Emission
  import opened TextLines
  import opened CleanedLines
  import opened ShownLines
  import opened PrintedLines
  import opened Tidiness
  import opened NewlineIndents
  import opened XmlTidiness
  import opened XmlReader
  import opened XmlRoundTrip
  import opened XmlDocuments
  import opened ReadingEnds

  predicate PlainRelease(rel: Release) {
    PlainAttribute(rel.version) && PlainAttribute(rel.packageString)
  }

  const END_LINE := "</procenv>"

  /** The header's lines. */
  function Header(rel: Release): seq<string> {
    [DECLARATION_LINE, RootTag(rel)]
  }

  lemma HeaderPlain(rel: Release)
    requires PlainRelease(rel)
    ensures PlainLines(Header(rel)) && Tagged(Header(rel)) && NoNewline(rel.version) && NoNewline(rel.packageString)
  {
    DeclarationLine();
    RootTagLine(rel);
  }

  /** Without its last character, if that is cut, a document of these lines ends right behind the root's end tag. */
  lemma EndShown(text: string, before: seq<string>, cut: bool)
    requires Shows(text, Unlines(before + [END_LINE]), cut)
    ensures text == Unlines(before) + EndText("procenv", if cut then "" else "\n")
  {
    UnlinesAppend(before, END_LINE);
    CutLine(text, Unlines(before), END_LINE, cut);
    EndTextIs(cut);
  }

  lemma EndTextIs(cut: bool)
    ensures END_LINE + (if cut then "" else "\n") == EndText("procenv", if cut then "" else "\n")
  {
  }

  lemma CutLine(text: string, u: string, w: string, cut: bool)
    requires Shows(text, u + (w + "\n"), cut)
    ensures text == u + (w + if cut then "" else "\n")
  {
    assert u + (w + "\n") == u + w + "\n";
    assert cut ==> text == u + w == u + (w + "");
  }

  // ----- nothing between the tags

  lemma EmptyLines(cfg: Config, rel: Release, ns: Nodes)
    requires cfg.format == Xml && PlainRelease(rel) && Flatten(ns).Nil?
    ensures PrintDocument(cfg, rel, ns) == Unlines(Header(rel) + [""] + [END_LINE])
  {
    HeaderPlain(rel);
    HeaderUnlined(rel);
    UnlinesAppend(Header(rel), "");
    UnlinesAppend(Header(rel) + [""], END_LINE);
    assert "" + "\n" == "\n" && XML_END == END_LINE + "\n";
    EmptyPieces(XML_DECLARATION + XmlRoot(rel), XML_END);
  }

  lemma EmptyPieces(head: string, end: string)
    ensures head + "" + "\n" + end == head + "\n" + end
  {
  }

  lemma TaggedLine(c: char, w: string)
    requires Tagged([w]) && c != '>'
    ensures !Only(c, w) && !EndsDouble(c, w) && Stripped(c, w) == w
  {
    assert [w][0] == w;
  }

  lemma {:induction false} TaggedTexts(c: char, lines: seq<string>, after: bool)
    requires Tagged(lines) && c != '>'
    ensures Texts(c, lines) == lines && Smooth(c, lines, after)
  {
    if lines != [] {
      TaggedTexts(c, lines[1..], after);
      TaggedLine(c, lines[0]);
    }
  }

  lemma TaggedLast(c: char, lines: seq<string>, last: string)
    requires Tagged([last]) && c != '>'
    ensures StripLast(c, lines + [last]) == lines + [last]
  {
    TaggedLine(c, last);
  }

  lemma EmptyTexts(c: char, a: seq<string>, b: seq<string>)
    requires Texts(c, a) == a && Texts(c, b) == b
    ensures Texts(c, a + [""] + b) == a + b
  {
    TextsConcat(c, a + [""], b);
    TextsConcat(c, a, [""]);
    SingleLine(c, Unsteady(c), "", false);
    assert a + [] == a;
  }

  lemma EmptySmooth(c: char, a: seq<string>, b: seq<string>)
    requires Smooth(c, a, true) && Smooth(c, b, false) && HasText(c, b)
    ensures Smooth(c, a + [""] + b, false)
  {
    BeforeTextConcat(c, Unsteady(c), a + [""], b, false);
    BeforeTextConcat(c, Unsteady(c), a, [""], true);
    SingleLine(c, Unsteady(c), "", true);
    assert Steady(c, "");
  }

  /** Of two lines, an empty one and a last one, the clean-up drops the empty one. */
  lemma EmptyGoes(c: char, a: seq<string>, last: string)
    requires Tagged(a) && PlainLines(a) && a != [] && Tagged([last]) && NoNewline(last) && c != '>'
    ensures var all := a + [""] + [last];
            Shows(CleanedUp(c, Unlines(all)), Unlines(a + [last]), EndsCut(c, all))
  {
    var all := a + [""] + [last];
    assert Texts(c, all) == a + [last] && Smooth(c, all, false) by {
      TaggedTexts(c, a, true);
      TaggedTexts(c, [last], false);
      EmptyTexts(c, a, [last]);
      EmptySmooth(c, a, [last]);
    }
    TaggedLast(c, a, last);
    assert NoNewlines(all) && all[0] == a[0] != "";
    CleanTexts(c, all);
  }

  lemma EmptyShownAs(c: char, head: seq<string>)
    requires Tagged(head) && PlainLines(head) && head != [] && c != '>'
    ensures var all := head + [""] + [END_LINE];
            CleanedUp(c, Unlines(all)) == Unlines(head) + EndText("procenv", if EndsCut(c, all) then "" else "\n")
  {
    var all := head + [""] + [END_LINE];
    EmptyGoes(c, head, END_LINE);
    EndShown(CleanedUp(c, Unlines(all)), head, EndsCut(c, all));
  }

  /** The empty line goes, and the document still reads as one with nothing in it. */
  lemma EmptyXmlReads(cfg: Config, rel: Release, ns: Nodes)
    requires cfg.format == Xml && PlainRelease(rel) && Flatten(ns).Nil? && cfg.indentChar != '>'
    ensures ReadsAs(ParseXml(CleanedUp(cfg.indentChar, PrintDocument(cfg, rel, ns))), rel, Nil)
  {
    var cut := EndsCut(cfg.indentChar, Header(rel) + [""] + [END_LINE]);
    EmptyLines(cfg, rel, ns);
    HeaderPlain(rel);
    EmptyShownAs(cfg.indentChar, Header(rel));
    HeaderUnlined(rel);
    CutIsSpace(cut);
    EmptyReadsBack(cfg, rel, if cut then "" else "\n");
  }

  // ----- a newline for an indent

  lemma PlainFilled(lines: seq<string>)
    requires PlainLines(lines)
    ensures Filled(lines) == lines
  {
    PhysicalSame(lines);
    PlainTexts(lines);
  }

  lemma {:induction false} PlainTexts(lines: seq<string>)
    requires PlainLines(lines)
    ensures Texts(NEWLINE, lines) == lines
  {
    if lines != [] {
      PlainTexts(lines[1..]);
      assert lines[0][0] != NEWLINE;
    }
  }

  lemma FilledBetween(a: seq<string>, inner: seq<string>, b: seq<string>)
    requires PlainLines(a) && PlainLines(b)
    ensures Filled(a + inner + b) == a + Filled(inner) + b
  {
    FilledConcat(a + inner, b);
    FilledConcat(a, inner);
    PlainFilled(a);
    PlainFilled(b);
  }

  lemma NewlineLines(cfg: Config, rel: Release, ns: Nodes)
    requires cfg.format == Xml && AsciiPrintable(cfg.printable) && PlainRelease(rel) && ObjectFree(ns)
    requires cfg.indentChar == NEWLINE
    ensures var y, bare := StyleOf(cfg), StyleOf(cfg.(indentAmount := 0));
            Filled(XmlLines(y, rel, ns)) == XmlLines(bare, rel, ns)
  {
    var y, bare := StyleOf(cfg), StyleOf(cfg.(indentAmount := 0));
    HeaderPlain(rel);
    FilledBetween(Header(rel), ListLines(y, y.amount, ns), [END_LINE]);
    MarkersPlain(cfg);
    BareStyle(cfg);
    ListFilled(y, bare, y.amount, ns);
  }

  lemma NewlineShown(cfg: Config, rel: Release, ns: Nodes)
    requires cfg.format == Xml && AsciiPrintable(cfg.printable) && PlainRelease(rel) && Flatten(ns).Cons?
    requires cfg.indentChar == NEWLINE
    ensures var bare, cut := StyleOf(cfg.(indentAmount := 0)),
                             EndsCut(NEWLINE, Physical(XmlLines(StyleOf(cfg), rel, Flatten(ns))));
            CleanedUp(NEWLINE, PrintDocument(cfg, rel, ns))
            == Unlines(Header(rel) + ListLines(bare, 0, Flatten(ns))) + EndText("procenv", if cut then "" else "\n")
  {
    var bare, flat := cfg.(indentAmount := 0), Flatten(ns);
    var lines := XmlLines(StyleOf(cfg), rel, flat);
    HeaderPlain(rel);
    XmlDocumentIs(cfg, rel, ns);
    FlattenObjectFree(ns);
    NewlineLines(cfg, rel, flat);
    assert PlainLines(Filled(lines)) by {
      XmlLinesPlain(bare, rel, ns);
    }
    DeclarationLine();
    assert lines[0] == DECLARATION_LINE;
    NewlinesGo(lines);
    EndShown(CleanedUp(NEWLINE, Unlines(lines)), Header(rel) + ListLines(StyleOf(bare), 0, flat),
             EndsCut(NEWLINE, Physical(lines)));
  }

  lemma TopUnlined(cfg: Config, rel: Release, ns: Nodes)
    requires cfg.format == Xml && PlainRelease(rel) && ns.Cons? && cfg.indentAmount == 0
    ensures Unlines(Header(rel) + ListLines(StyleOf(cfg), 0, ns))
         == XML_DECLARATION + XmlRoot(rel) + (PrintTop(StyleOf(cfg), 0, ns) + "\n")
  {
    var y := StyleOf(cfg);
    HeaderPlain(rel);
    HeaderUnlined(rel);
    UnlinesConcat(Header(rel), ListLines(y, 0, ns));
    PrintAllIsLines(y, 0, ns);
    JoinedIsUnlined(ListLines(y, 0, ns));
  }

  /** The margins go, and the document reads back as if it had none. */
  lemma NewlineXmlReads(cfg: Config, rel: Release, ns: Nodes)
    requires cfg.format == Xml && AsciiPrintable(cfg.printable) && PlainRelease(rel) && Flatten(ns).Cons?
    requires cfg.indentChar == NEWLINE
    ensures ReadsAs(ParseXml(CleanedUp(NEWLINE, PrintDocument(cfg, rel, ns))), rel, Flatten(ns))
  {
    var bare, flat := cfg.(indentAmount := 0), Flatten(ns);
    var cut := EndsCut(NEWLINE, Physical(XmlLines(StyleOf(cfg), rel, flat)));
    var last := if cut then "" else "\n";
    FlattenObjectFree(ns);
    NewlineShown(cfg, rel, ns);
    TopUnlined(bare, rel, flat);
    CutIsSpace(cut);
    Regroup(XML_DECLARATION + XmlRoot(rel), PrintTop(StyleOf(bare), 0, flat) + "\n", EndText("procenv", last));
    DocumentReadsBack(bare, rel, flat, last);
  }

  // ----- the end of a tag for an indent

  lemma EndLineTrimmed(before: seq<string>)
    ensures LastIs(Trimmed('>', before + [END_LINE]), 'v')
  {
    var all := before + [END_LINE];
    assert all[..|before|] == before;
    var w := "</procenv";
    assert END_LINE[..|END_LINE| - 1] == w && w[|w| - 1] == 'v';
    assert Stripped('>', END_LINE) == Stripped('>', w) == w;
  }

  lemma NoTagNoDocument(before: seq<string>)
    requires NoNewlines(before)
    ensures var d := Unlines(before + [END_LINE]); ParseXml(Chomped('>', d)).None? && ParseXml(CleanedUp('>', d)).None?
  {
    var d := Unlines(before + [END_LINE]);
    EndLineTrimmed(before);
    CleanedEnds('>', before + [END_LINE], 'v');
    UnendedXml(Chomped('>', d), 'v');
    UnendedXml(CleanedUp('>', d), 'v');
  }

  lemma UnendedXml(s: string, x: char)
    requires EndsAs(s, x) && !IsSpace(x) && x != '>'
    ensures ParseXml(s).None?
  {
    if ParseXml(s).Some? {
      XmlReadersHonest();
      DocumentInk(XML_READERS, s);
      InkOfLine(s, x, '>');
    }
  }

  /** The root's end tag is cut short, so there is no document, whether it is compressed or not. */
  lemma TagEndSpoilsXml(cfg: Config, rel: Release, ns: Nodes)
    requires cfg.format == Xml && AsciiPrintable(cfg.printable) && PlainRelease(rel) && cfg.indentChar == '>'
    ensures var d := PrintDocument(cfg, rel, ns); ParseXml(Chomped('>', d)).None? && ParseXml(CleanedUp('>', d)).None?
  {
    var y, flat := StyleOf(cfg), Flatten(ns);
    HeaderPlain(rel);
    if flat.Nil? {
      EmptyLines(cfg, rel, ns);
      NoTagNoDocument(Header(rel) + [""]);
    } else {
      XmlDocumentIs(cfg, rel, ns);
      XmlLinesPlain(cfg, rel, ns);
      var before := Header(rel) + ListLines(y, y.amount, flat);
      assert XmlLines(y, rel, flat) == before + [END_LINE];
      PlainFirst(before, END_LINE);
      NoTagNoDocument(before);
    }
  }

  lemma PlainFirst(a: seq<string>, w: string)
    requires PlainLines(a + [w])
    ensures NoNewlines(a)
  {
    assert forall i :: 0 <= i < |a| ==> a[i] == (a + [w])[i];
  }

  // ----- all settings

  /**
   Exactly when the XML that is left after chomp, or after chomp and compress, reads back as the document: the indent is
   white space, unless there is nothing to indent, and it is not the character that ends a tag.
   */
  lemma CleanedXmlReads(cfg: Config, rel: Release, ns: Nodes)
    requires cfg.format == Xml && AsciiPrintable(cfg.printable) && PlainRelease(rel) && Members(ns)
    ensures var d, plain := PrintDocument(cfg, rel, ns), (AiryConfig(cfg) || ns.Nil?) && cfg.indentChar != '>';
            (ReadsAs(ParseXml(Chomped(cfg.indentChar, d)), rel, Flatten(ns)) <==> plain)
            && (ReadsAs(ParseXml(CleanedUp(cfg.indentChar, d)), rel, Flatten(ns)) <==> plain)
  {
    if cfg.indentChar == '>' {
      TagEndSpoilsXml(cfg, rel, ns);
    } else {
      XmlIsChomped(cfg, rel, ns);
      XmlReadsBackIff(cfg, rel, ns);
      CompressedXmlReads(cfg, rel, ns);
    }
  }

  lemma CompressedXmlReads(cfg: Config, rel: Release, ns: Nodes)
    requires cfg.format == Xml && AsciiPrintable(cfg.printable) && PlainRelease(rel) && Members(ns)
    requires cfg.indentChar != '>'
    ensures ReadsAs(ParseXml(CleanedUp(cfg.indentChar, PrintDocument(cfg, rel, ns))), rel, Flatten(ns))
            <==> AiryConfig(cfg) || ns.Nil?
  {
    if ns.Nil? {
      EmptyXmlReads(cfg, rel, ns);
    } else if cfg.indentChar == NEWLINE {
      NewlineXmlReads(cfg, rel, ns);
    } else {
      XmlReadsBackIff(cfg, rel, ns);
      assert CleanedUp(cfg.indentChar, PrintDocument(cfg, rel, ns)) == PrintDocument(cfg, rel, ns) by {
        HeaderPlain(rel);
        XmlIsTidy(cfg, rel, ns);
      }
    }
  }
}
