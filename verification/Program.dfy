/**
 The life of a document in `main` of src/procenv.c: the output calls, then the clean-up. A run for one display option
 (`direct`) compresses only text and breadcrumbs; the full dump compresses every format.
 */
module Program {
  import opened Prelude
  import opened Encoding
  import opened Decoding
  import EncodeBuffers
  import opened Cleaning
  import opened Document
  import opened Layout
  import opened Render
  import opened Emission
  import opened Pstrings
  import opened Output
  import opened Tidiness
  import opened JsonTidiness
  import opened XmlTidiness
  import opened JsonReader
  import opened JsonRoundTrip
  import opened JsonDocuments
  import opened TextLines
  import opened CleanedLines
  import opened ShownLines
  import opened Outlines
  import opened FirmTexts
  import opened Crumbs
  import opened XmlReader
  import opened XmlDocuments
  import opened CleanedJson
  import opened CleanedXml

  /** The clean-up of a document; `None` if chomp would leave its buffer. */
  function Finished(cfg: Config, direct: bool, doc: string): Option<string> {
    if !Chompable(cfg.indentChar, doc) then None
    else
      var text := Chomped(cfg.indentChar, doc);
      Some(if direct && Encoded(cfg.format) then text else Compressed(cfg.indentChar, text))
  }

  /** What the program shows for a document. */
  function Shown(cfg: Config, rel: Release, direct: bool, calls: seq<Call>): Option<string> {
    match Emit(cfg, rel, calls)
    case None => None
    case Some(end) => Finished(cfg, direct, end.doc)
  }

  /** `master_header`, the calls, `master_footer`. */
  method Produce(cfg: Config, rel: Release, calls: seq<Call>) returns (ok: bool, p: Printer)
    requires ValidConfig(cfg) && NoNul(XmlRoot(rel))
    requires forall i :: 0 <= i < |calls| ==> CTexts(calls[i])
    ensures fresh(p) && p.cfg == cfg && fresh(p.doc) && (p.doc.buf == null || fresh(p.doc.buf))
    ensures var r := Emit(cfg, rel, calls); ok == r.Some? && (ok ==> p.Valid() && p.View() == r.value)
  {
    p := new Printer(cfg);
    ok := p.MasterHeader(rel);
    if ok {
      ok := p.DoAll(calls);
    }
    if ok {
      ok := p.MasterFooter();
    }
  }

  /** `wcslen` and the text it measures. */
  method ReadText(buf: array<char>) returns (text: string)
    requires exists i :: 0 <= i < buf.Length && buf[i] == NUL
    ensures text == UpToNul(buf[..])
  {
    var n := 0;
    while buf[n] != NUL
      invariant 0 <= n < buf.Length && NoNul(buf[..n])
      decreases buf.Length - n
    {
      n := n + 1;
    }
    UpToNulAt(buf[..], n);
    assert buf[..][..n] == buf[..n];
    return buf[..n];
  }

  /** `pstring_chomp`, then `pstring_compress` unless the run was direct and the format an encoded one. */
  method CleanUp(cfg: Config, direct: bool, doc: PString) returns (r: Option<string>)
    requires doc.Valid() && doc.buf != null && ValidConfig(cfg)
    modifies doc, doc.buf
    ensures r == Finished(cfg, direct, old(doc.Text()))
  {
    ghost var before := doc.Text();
    var ok := doc.Chomp(cfg.indentChar);
    if !ok {
      return None;
    }
    if direct && Encoded(cfg.format) {
      return Some(doc.buf[..doc.len]);
    }
    ChompedIsSafe(cfg.indentChar, before);
    ok := doc.Compress(cfg.indentChar);
    var text := ReadText(doc.buf);
    return Some(text);
  }

  /** The whole program on a real buffer shows `Shown`. */
  method Show(cfg: Config, rel: Release, direct: bool, calls: seq<Call>) returns (r: Option<string>)
    requires ValidConfig(cfg) && NoNul(XmlRoot(rel))
    requires forall i :: 0 <= i < |calls| ==> CTexts(calls[i])
    ensures r == Shown(cfg, rel, direct, calls)
  {
    var ok, p := Produce(cfg, rel, calls);
    if !ok {
      return None;
    }
    EmitIsNotEmpty(cfg, rel, calls);
    r := CleanUp(cfg, direct, p.doc);
  }

  /** Every footer ends in a newline. */
  lemma EmitIsNotEmpty(cfg: Config, rel: Release, calls: seq<Call>)
    ensures var r := Emit(cfg, rel, calls);
            r.Some? ==> r.value.doc != "" && r.value.doc[|r.value.doc| - 1] == NEWLINE
  {
  }

  // ----- what is shown, format by format

  /**
   On an encoded format the clean-up changes nothing if and only if chomp, or chomp and compress, leave the text
   alone.
   */
  lemma FinishedEncoded(cfg: Config, direct: bool, d: string)
    requires Encoded(cfg.format) && HasSolid(cfg.indentChar, d)
    ensures var r := Finished(cfg, direct, d);
            r.Some? && (r == Some(d) <==> if direct then Chomped(cfg.indentChar, d) == d else Clean(cfg.indentChar, d))
  {
    TallyBound(cfg.indentChar, Chomped(cfg.indentChar, d), 0, 0, 0);
  }

  /** What is shown of an encoded document: chomped, and compressed unless the run is for one option. */
  lemma EncodedIsShown(cfg: Config, direct: bool, d: string)
    requires Encoded(cfg.format) && HasSolid(cfg.indentChar, d)
    ensures Finished(cfg, direct, d)
         == Some(if direct then Chomped(cfg.indentChar, d) else CleanedUp(cfg.indentChar, d))
  {
  }

  /** What is shown of a JSON document, if it can be written. */
  lemma JsonIsFinished(cfg: Config, rel: Release, direct: bool, ns: Nodes)
    requires cfg.format == Json && ValidConfig(cfg) && Members(ns)
    ensures HasSolid(cfg.indentChar, PrintDocument(cfg, rel, ns))
    ensures var shown, d := Shown(cfg, rel, direct, AllCalls(ns)), PrintDocument(cfg, rel, ns);
            (shown.Some? <==> AllNamed(ns) && AllFit(cfg, ns))
            && (shown.Some? ==>
                  shown.value == if direct then Chomped(cfg.indentChar, d) else CleanedUp(cfg.indentChar, d))
  {
    EmitPrints(cfg, rel, ns);
    JsonIsChomped(cfg, rel, ns);
    EncodedIsShown(cfg, direct, PrintDocument(cfg, rel, ns));
  }

  /**
   JSON, for every document and every setting: something is shown exactly when every text can be encoded. It is the
   printed tree exactly when the indent character is not the closing brace and, on the path that compresses, the
   document stays. It reads back as the document, each backslash doubled, exactly when every non-printable character is
   at most 0xFFFF, the indent is white space (or there is nothing to indent) and not the closing brace, and, on the path
   that compresses, no line ends in two indent characters.
   */
  lemma ShownJson(cfg: Config, rel: Release, direct: bool, ns: Nodes)
    requires cfg.format == Json && ValidConfig(cfg) && Members(ns)
    ensures var shown, printed := Shown(cfg, rel, direct, AllCalls(ns)), PrintDocument(cfg, rel, ns);
            (shown.Some? <==> AllNamed(ns) && AllFit(cfg, ns))
            && (shown.Some? ==>
                  (shown.value == printed <==> if direct then cfg.indentChar != '}' else JsonStays(cfg, ns))
                  && (ParseJson(shown.value) == Some(JObject(MembersOf(ns)))
                      <==> Readable(cfg.printable, ns) && (AiryConfig(cfg) || ns.Nil?) && cfg.indentChar != '}'
                           && (direct || !ListDoubles(cfg, cfg.indentAmount, ns))))
  {
    JsonIsFinished(cfg, rel, direct, ns);
    JsonUnchanged(cfg, rel, direct, ns);
    EncodedIsShown(cfg, direct, PrintDocument(cfg, rel, ns));
    if AllNamed(ns) && AllFit(cfg, ns) {
      CleanedJsonReads(cfg, rel, ns);
    }
  }

  lemma JsonUnchanged(cfg: Config, rel: Release, direct: bool, ns: Nodes)
    requires cfg.format == Json && ValidConfig(cfg) && Members(ns)
    ensures var d := PrintDocument(cfg, rel, ns);
            Finished(cfg, direct, d).Some?
            && (Finished(cfg, direct, d) == Some(d)
                <==> if direct then cfg.indentChar != '}' else JsonStays(cfg, ns))
  {
    JsonIsTidy(cfg, rel, ns);
    JsonIsChomped(cfg, rel, ns);
    FinishedEncoded(cfg, direct, PrintDocument(cfg, rel, ns));
  }

  /**
   A document that is shown, indented by spaces, and still does not read back: U+10000, not printable, after an "a".
   */
  lemma ShownButUnreadable(cfg: Config, rel: Release, direct: bool)
    requires cfg.format == Json && ValidConfig(cfg) && cfg.indentChar == ' ' && !cfg.printable(0x10000 as char)
    ensures var ns := Cons(Entry("n", ['a', 0x10000 as char]), Nil);
            var shown := Shown(cfg, rel, direct, AllCalls(ns));
            shown.Some? && ParseJson(shown.value) != Some(JObject(MembersOf(ns)))
  {
    var value := ['a', 0x10000 as char];
    var ns := Cons(Entry("n", value), Nil);
    EncodeBuffers.LongEscapeFits(cfg.printable);
    EncodeBuffers.NarrowFits(Json, cfg.printable, "n");
    assert !JsonReadable(cfg.printable, value[1]);
    assert NodeFits(cfg, Entry("n", value));
    OrdinaryIndentStays(cfg, ns);
    ShownJson(cfg, rel, direct, ns);
  }

  /**
   XML, the same: what is shown reads back with its objects flattened away, whatever its texts hold, exactly when the
   indent is white space (or there is nothing to indent) and not the character that ends a tag, on both paths.
   */
  lemma ShownXml(cfg: Config, rel: Release, direct: bool, ns: Nodes)
    requires cfg.format == Xml && ValidConfig(cfg) && Members(ns)
    requires PlainAttribute(rel.version) && PlainAttribute(rel.packageString)
    ensures var shown, printed := Shown(cfg, rel, direct, AllCalls(ns)), PrintDocument(cfg, rel, ns);
            (shown.Some? <==> AllNamed(ns) && AllFit(cfg, ns))
            && (shown.Some? ==>
                 (shown.value == printed <==> if direct then cfg.indentChar != '>' else XmlStays(cfg, ns))
                 && (ReadsAs(ParseXml(shown.value), rel, Flatten(ns))
                     <==> (AiryConfig(cfg) || ns.Nil?) && cfg.indentChar != '>'))
  {
    ShownXmlText(cfg, rel, direct, ns);
    CleanedXmlReads(cfg, rel, ns);
  }

  lemma ShownXmlText(cfg: Config, rel: Release, direct: bool, ns: Nodes)
    requires cfg.format == Xml && ValidConfig(cfg) && Members(ns)
    requires NoNewline(rel.version) && NoNewline(rel.packageString)
    ensures var shown, printed := Shown(cfg, rel, direct, AllCalls(ns)), PrintDocument(cfg, rel, ns);
            (shown.Some? <==> AllNamed(ns) && AllFit(cfg, ns))
            && (shown.Some? ==>
                 shown.value
                 == (if direct then Chomped(cfg.indentChar, printed) else CleanedUp(cfg.indentChar, printed))
                 && (shown.value == printed <==> if direct then cfg.indentChar != '>' else XmlStays(cfg, ns)))
  {
    EmitPrints(cfg, rel, ns);
    XmlIsChomped(cfg, rel, ns);
    XmlIsTidy(cfg, rel, ns);
    EncodedIsShown(cfg, direct, PrintDocument(cfg, rel, ns));
    FinishedEncoded(cfg, direct, PrintDocument(cfg, rel, ns));
  }

  /** Nothing else stops a document: with narrow texts and no empty name, JSON and XML are always shown. */
  lemma NarrowIsShown(cfg: Config, rel: Release, direct: bool, ns: Nodes)
    requires Encoded(cfg.format) && ValidConfig(cfg) && Members(ns) && AllNamed(ns) && AllNarrow(cfg, ns)
    requires NoNewline(rel.version) && NoNewline(rel.packageString)
    ensures Shown(cfg, rel, direct, AllCalls(ns)).Some?
  {
    NarrowFit(cfg, ns);
    if cfg.format == Json {
      ShownJson(cfg, rel, direct, ns);
    } else {
      ShownXmlText(cfg, rel, direct, ns);
    }
  }

  /** Text and breadcrumbs: the clean-up loses nothing but newlines and indent characters. */
  lemma ShownKeepsSolid(cfg: Config, rel: Release, direct: bool, calls: seq<Call>)
    requires !Encoded(cfg.format) && ValidConfig(cfg)
    requires Emit(cfg, rel, calls).Some?
    ensures var doc, shown := Emit(cfg, rel, calls).value.doc, Shown(cfg, rel, direct, calls);
            (shown.Some? <==> Chompable(cfg.indentChar, doc))
            && (shown.Some? && HasSolid(cfg.indentChar, doc) ==>
                 Solid(cfg.indentChar, shown.value) == Solid(cfg.indentChar, doc))
  {
    EmitIsNotEmpty(cfg, rel, calls);
    var doc := Emit(cfg, rel, calls).value.doc;
    if HasSolid(cfg.indentChar, doc) {
      CleanKeepsSolid(cfg.indentChar, doc);
    }
  }

  lemma NothingToShow(cfg: Config, direct: bool)
    requires !Encoded(cfg.format)
    ensures Finished(cfg, direct, "\n") == Some("\n")
  {
    var c := cfg.indentChar;
    NewlineIsNotBlank(c, "");
    assert "\n" + "" == "\n";
    assert Squeezed(c, "\n", 0) == "\n";
  }

  /**
   Text: for every document and every setting, what is shown is exactly the lines of the labels (one label per entry and
   per group head, in document order, indented by depth) that hold something other than indent, but for what ends the
   last line, if and only if these come through: the first is not empty, none before the last ends in two indent
   characters or is one indent character, and no group at an indent of one has members and a text after it. The
   text ends in a newline exactly when the outline is not cut.
   */
  lemma ShownText(cfg: Config, rel: Release, direct: bool, ns: Nodes)
    requires cfg.format == Text && ValidConfig(cfg) && Members(ns)
    ensures var shown, lines := Shown(cfg, rel, direct, AllCalls(ns)), LabelLines(cfg, 0, Flatten(ns));
            (shown.Some? <==> AllNamed(ns) && (ns.Nil? || HasText(cfg.indentChar, lines)))
            && (ns.Nil? ==> shown == Some("\n"))
            && (shown.Some? && ns.Cons? ==>
                  (Shows(shown.value, Unlines(StripLast(cfg.indentChar, Texts(cfg.indentChar, lines))),
                         TextCut(cfg, Flatten(ns)))
                   <==> ComesThrough(cfg, Flatten(ns)))
                  && (EndsLine(shown.value) <==> !TextCut(cfg, Flatten(ns))))
  {
    EmitPrints(cfg, rel, ns);
    PlainFit(cfg, ns);
    if ns.Nil? {
      NothingToShow(cfg, direct);
      assert "" + "\n" == "\n";
    } else {
      CleanOutline(cfg, rel, ns);
      if AllNamed(ns) {
        TextIsLong(cfg, rel, ns);
      }
    }
  }

  lemma TextIsLong(cfg: Config, rel: Release, ns: Nodes)
    requires cfg.format == Text && Members(ns) && ns.Cons? && ns.head.name != ""
    ensures |PrintDocument(cfg, rel, ns)| >= 2
  {
    var outline := Outline(cfg, 0, Flatten(ns));
    TextIsOutline(cfg, rel, ns);
    LabelIsLong(cfg, Flatten(ns).head);
    assert outline[0] == NodeOutline(cfg, 0, Flatten(ns).head)[0];
    assert |Unlines(outline)| >= |outline[0]| + 1;
  }

  lemma LabelIsLong(cfg: Config, n: Node)
    requires !n.Object?
    ensures |NodeOutline(cfg, 0, n)[0]| >= |n.name|
  {
  }

  /**
   If every label is a firm line, the lines shown are the labels if and only if no group at an indent of one has members
   and something after it; with an indent amount other than one they always are. The last line then ends without a
   newline exactly when some group at no indent (or any group, if newlines are the indent) has members and something
   after it, and no group at an indent of two or more has.
   */
  lemma ShownFirmText(cfg: Config, rel: Release, direct: bool, ns: Nodes)
    requires cfg.format == Text && ValidConfig(cfg) && Members(ns) && ns.Cons? && AllNamed(ns)
    requires AllFirm(cfg.indentChar, Labels(cfg, 0, Flatten(ns)))
    ensures var shown, labels := Shown(cfg, rel, direct, AllCalls(ns)), Labels(cfg, 0, Flatten(ns));
            var text, cut := Unlines(StripLast(cfg.indentChar, labels)), LosesNewline(cfg, Flatten(ns));
            shown.Some? && (Shows(shown.value, text, cut) <==> !Strays(cfg, Flatten(ns)))
            && (cfg.indentAmount != 1 ==> !Strays(cfg, Flatten(ns)))
  {
    var flat := Flatten(ns);
    FlattenObjectFree(ns);
    ShownText(cfg, rel, direct, ns);
    FirmComesThrough(cfg, flat);
    FirmCut(cfg, flat);
    if cfg.indentAmount != 1 {
      WideIndentIsClean(cfg, 0, flat, false);
    }
  }

  /** Breadcrumbs: the same, one text per entry, prefixed by the names on its path. */
  lemma ShownCrumbs(cfg: Config, rel: Release, direct: bool, ns: Nodes)
    requires cfg.format == Crumb && ValidConfig(cfg) && Members(ns)
    ensures var shown, leaves := Shown(cfg, rel, direct, AllCalls(ns)), Leaves([], ns);
            var c, lines := cfg.indentChar, CrumbTextLines(cfg, leaves);
            (shown.Some? <==> AllNamed(ns) && !StartsWithEntry(ns) && (leaves == [] || HasText(c, lines)))
            && (shown.Some? && leaves == [] ==> shown.value == "\n")
            && (shown.Some? && leaves != [] ==>
                  (Shows(shown.value, Unlines(StripLast(c, Texts(c, lines))), EndsCut(c, lines))
                   <==> lines[0] != "" && Smooth(c, lines, false))
                  && (EndsLine(shown.value) <==> !EndsCut(c, lines)))
  {
    var leaves := Leaves([], ns);
    EmitCrumbs(cfg, rel, ns);
    if leaves == [] {
      NothingToShow(cfg, direct);
      assert "" + "\n" == "\n";
    } else {
      CleanCrumbs(cfg, leaves);
      assert |Joined(cfg, leaves)| >= |Line(cfg, leaves[0])| >= 1;
    }
  }

  /** If every entry is a firm line, the text shown is those lines and nothing else, the final newline included. */
  lemma ShownFirmCrumbs(cfg: Config, rel: Release, direct: bool, ns: Nodes)
    requires cfg.format == Crumb && ValidConfig(cfg) && Members(ns) && AllNamed(ns) && !StartsWithEntry(ns)
    requires Leaves([], ns) != [] && AllFirm(cfg.indentChar, CrumbTexts(cfg, Leaves([], ns)))
    ensures var texts := CrumbTexts(cfg, Leaves([], ns));
            Shown(cfg, rel, direct, AllCalls(ns)) == Some(Unlines(StripLast(cfg.indentChar, texts)))
  {
    var texts := CrumbTexts(cfg, Leaves([], ns));
    PhysicalSame(texts);
    FirmLinesStay(cfg.indentChar, texts);
    ShownCrumbs(cfg, rel, direct, ns);
  }
}
