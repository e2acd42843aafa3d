/**
 The JSON documents of src/output.c read back: from the state machine through the pretty-printer to the reader.
 */
module JsonDocuments {
  import opened Prelude
  import opened Encoding
  import opened Decoding
  import opened Document
  import opened Layout
  import opened Render
  import opened Emission
  import opened JsonReader
  import opened JsonRoundTrip

  // ----- the printed text is the text the reader was proved on

  function JsonBody(enc: string -> string, c: Call): string {
    match c
    case EntryCall(name, value) => "\"" + enc(name) + "\" : \"" + enc(value) + "\""
    case SectionOpenCall(name) => "\"" + enc(name) + "\" : {"
    case SectionCloseCall => "}"
    case ContainerOpenCall(name) => "\"" + enc(name) + "\" : ["
    case ContainerCloseCall => "]"
    case ObjectOpenCall => "{"
    case ObjectCloseCall => "}"
  }

  ghost predicate WritesJson(y: Style, k: Ink) {
    y.format == Json && y.amount == k.amount && y.padChar == k.pad && forall c: Call :: y.body(c) == JsonBody(k.enc, c)
  }

  lemma EntryText(k: Ink, i: nat, n: Node, rest: string)
    requires n.Entry?
    ensures JsonBody(k.enc, EntryCall(n.name, n.value)) + rest == NodeText(k, i, n, rest)
  {
  }

  lemma NamedOpen(name: string, open: string, text: string)
    ensures "\"" + name + ("\" : " + open) + text == "\"" + (name + ("\"" + (" : " + (open + text))))
  {
  }

  lemma NamedText(name: string, open: string, both: string, text: string)
    requires both == "\" : " + open
    ensures "\"" + name + both + text == "\"" + (name + ("\"" + (" : " + (open + text))))
  {
    NamedOpen(name, open, text);
  }

  lemma GroupTextIs(k: Ink, i: nat, n: Node, inside: string, rest: string)
    requires !n.Entry? && inside + (JsonBody(k.enc, CloseCall(n)) + rest)
             == InsideText(k, i, n.children, JsonBody(k.enc, CloseCall(n)) + rest)
    ensures JsonBody(k.enc, OpenCall(n)) + inside + JsonBody(k.enc, CloseCall(n)) + rest == NodeText(k, i, n, rest)
  {
    var close := JsonBody(k.enc, CloseCall(n));
    var text := InsideText(k, i, n.children, close + rest);
    RegroupFour(JsonBody(k.enc, OpenCall(n)), inside, close, rest);
    match n
    case Object(_) =>
    case Section(name, _) => NamedText(k.enc(name), "{", "\" : {", text);
    case Container(name, _) => NamedText(k.enc(name), "[", "\" : [", text);
  }

  lemma {:induction false} PrintIsText(y: Style, k: Ink, i: nat, n: Node, rest: string)
    requires WritesJson(y, k)
    ensures Print(y, i, n) + rest == NodeText(k, i, n, rest)
    decreases n, 0
  {
    if n.Entry? {
      EntryText(k, i, n, rest);
    } else {
      var close := y.body(CloseCall(n));
      InsideIsText(y, k, i, n.children, close + rest);
      GroupTextIs(k, i, n, Inside(y, i, n.children), rest);
    }
  }

  lemma {:induction false} InsideIsText(y: Style, k: Ink, i: nat, ns: Nodes, rest: string)
    requires WritesJson(y, k)
    ensures Inside(y, i, ns) + rest == InsideText(k, i, ns, rest)
    decreases ns, 1
  {
    if ns.Nil? {
      assert "" + rest == rest;
    } else {
      var deeper := i + y.amount;
      var end := "\n" + (Margin(y, i) + rest);
      ListIsText(y, k, deeper, ns, end);
      InsidePieces(Margin(y, deeper), PrintAll(y, deeper, ns), Margin(y, i), rest);
    }
  }

  lemma InsidePieces(deeper: string, text: string, margin: string, rest: string)
    ensures "\n" + deeper + text + "\n" + margin + rest == "\n" + (deeper + (text + ("\n" + (margin + rest))))
  {
  }

  lemma {:induction false} ListIsText(y: Style, k: Ink, i: nat, ns: Nodes, rest: string)
    requires WritesJson(y, k) && ns.Cons?
    ensures PrintAll(y, i, ns) + rest == ListText(k, i, ns, rest)
    decreases ns, 0
  {
    var after := AfterHead(k, i, ns.tail, rest);
    PrintIsText(y, k, i, ns.head, after);
    if ns.tail.Nil? {
      assert PrintAll(y, i, ns) == Print(y, i, ns.head);
    } else {
      ListIsText(y, k, i, ns.tail, rest);
      NextSibling(Print(y, i, ns.head), Margin(y, i), PrintAll(y, i, ns.tail), rest);
    }
  }

  lemma NextSibling(a: string, margin: string, b: string, rest: string)
    ensures a + (",\n" + margin + b) + rest == a + ("," + ("\n" + (margin + (b + rest))))
  {
  }

  // ----- what a reader gets from a printed document

  function InkOf(cfg: Config): Ink {
    Ink(cfg.indentAmount, cfg.indentChar, s => Encode(Json, cfg.printable, s), ReadJsonString, SightOf(cfg))
  }

  function SightOf(cfg: Config): Sight {
    s => JsonSeen(cfg.printable, s)
  }

  lemma ConfigSees(cfg: Config)
    requires AsciiPrintable(cfg.printable)
    ensures Sees(InkOf(cfg))
  {
    forall s: string, rest: string
      ensures ReadJsonString(Encode(Json, cfg.printable, s) + ("\"" + rest))
           == if JsonSeen(cfg.printable, s).None? then None else Some(Scan(JsonSeen(cfg.printable, s).value, rest))
    {
      JsonStringRead(cfg.printable, s, rest);
      Regroup(Encode(Json, cfg.printable, s), "\"", rest);
    }
  }

  lemma ConfigWritesJson(cfg: Config)
    requires cfg.format == Json
    ensures WritesJson(StyleOf(cfg), InkOf(cfg))
  {
    forall c: Call
      ensures Body(cfg, c) == JsonBody(InkOf(cfg).enc, c)
    {
    }
  }

  lemma ParseObjectText(k: Ink, ns: Nodes, last: string)
    requires Airy(k) && Members(ns) && Sees(k) && SkipSpace(last) == ""
    ensures ParseText(k.rd, NodeText(k, 0, Object(ns), last)) == AsObject(SeenMembers(k.see, ns))
  {
    var s := NodeText(k, 0, Object(ns), last);
    ReadValue(k, 0, Object(ns), last);
    ValueStart(k, 0, Object(ns), last);
    assert SkipSpace(s) == s;
  }

  /** A document and white space after it. */
  lemma DocumentIsSeen(cfg: Config, ns: Nodes, last: string)
    requires cfg.format == Json && AsciiPrintable(cfg.printable) && AiryConfig(cfg) && Members(ns)
    requires SkipSpace(last) == ""
    ensures ParseJson(Print(StyleOf(cfg), 0, Object(ns)) + last) == AsObject(SeenMembers(SightOf(cfg), ns))
  {
    ConfigWritesJson(cfg);
    ConfigSees(cfg);
    PrintIsText(StyleOf(cfg), InkOf(cfg), 0, Object(ns), last);
    ParseObjectText(InkOf(cfg), ns, last);
  }

  /** For every document, readable or not: a reader sees the document's tree, with what it sees of each string in it. */
  lemma PrintedJsonIsSeen(cfg: Config, rel: Release, ns: Nodes)
    requires cfg.format == Json && AsciiPrintable(cfg.printable) && AiryConfig(cfg) && Members(ns)
    ensures ParseJson(PrintDocument(cfg, rel, ns)) == AsObject(SeenMembers(SightOf(cfg), ns))
  {
    assert "\n"[1..] == "" && SkipSpace("\n") == "";
    DocumentIsSeen(cfg, ns, "\n");
  }

  // ----- which documents read back

  predicate ReadableNode(printable: char -> bool, n: Node) {
    match n
    case Entry(name, value) => AllJsonReadable(printable, name) && AllJsonReadable(printable, value)
    case Section(name, children) => AllJsonReadable(printable, name) && Readable(printable, children)
    case Container(name, children) => AllJsonReadable(printable, name) && Readable(printable, children)
    case Object(children) => Readable(printable, children)
  }

  /** No name or value holds a non-printable character beyond 0xFFFF. */
  predicate Readable(printable: char -> bool, ns: Nodes) {
    ns.Cons? ==> ReadableNode(printable, ns.head) && Readable(printable, ns.tail)
  }

  /** Strings are seen as they should be exactly when they are readable. */
  ghost predicate SeesRight(see: Sight, printable: char -> bool) {
    forall s: string {:trigger see(s)} :: see(s) == Some(DoubleBackslashes(s)) <==> AllJsonReadable(printable, s)
  }

  lemma {:induction false} ValueSeenRight(see: Sight, printable: char -> bool, n: Node)
    requires SeesRight(see, printable) && Formed(n)
    ensures SeenValue(see, n) == Some(ValueOf(n))
            <==> if n.Entry? then AllJsonReadable(printable, n.value) else Readable(printable, n.children)
    decreases n, 0
  {
    match n
    case Entry(_, value) =>
      assert see(value) == Some(DoubleBackslashes(value)) <==> AllJsonReadable(printable, value);
    case Container(_, children) => ItemsSeenRight(see, printable, children);
    case Section(_, children) => MembersSeenRight(see, printable, children);
    case Object(children) => MembersSeenRight(see, printable, children);
  }

  lemma {:induction false} MembersSeenRight(see: Sight, printable: char -> bool, ns: Nodes)
    requires SeesRight(see, printable) && Members(ns)
    ensures SeenMembers(see, ns) == Some(MembersOf(ns)) <==> Readable(printable, ns)
    decreases ns, 1
  {
    if ns.Cons? {
      ValueSeenRight(see, printable, ns.head);
      MembersSeenRight(see, printable, ns.tail);
      assert see(ns.head.name) == Some(DoubleBackslashes(ns.head.name)) <==> AllJsonReadable(printable, ns.head.name);
    }
  }

  lemma {:induction false} ItemsSeenRight(see: Sight, printable: char -> bool, ns: Nodes)
    requires SeesRight(see, printable) && Objects(ns)
    ensures SeenItems(see, ns) == Some(ItemsOf(ns)) <==> Readable(printable, ns)
    decreases ns, 1
  {
    if ns.Cons? {
      ValueSeenRight(see, printable, ns.head);
      ItemsSeenRight(see, printable, ns.tail);
    }
  }

  lemma ConfigSeesRight(cfg: Config)
    ensures SeesRight(SightOf(cfg), cfg.printable)
  {
    forall s: string
      ensures JsonSeen(cfg.printable, s) == Some(DoubleBackslashes(s)) <==> AllJsonReadable(cfg.printable, s)
    {
      JsonSeenLength(cfg.printable, s);
    }
  }

  lemma DocumentReadsBack(cfg: Config, ns: Nodes, last: string)
    requires cfg.format == Json && AsciiPrintable(cfg.printable) && AiryConfig(cfg) && Members(ns)
    requires SkipSpace(last) == ""
    ensures ParseJson(Print(StyleOf(cfg), 0, Object(ns)) + last) == Some(JObject(MembersOf(ns)))
            <==> Readable(cfg.printable, ns)
  {
    DocumentIsSeen(cfg, ns, last);
    ConfigSeesRight(cfg);
    MembersSeenRight(SightOf(cfg), cfg.printable, ns);
  }

  /**
   With white space for an indent, the printed JSON of a document reads back as the document, each backslash doubled, if
   and only if every non-printable character in it is at most 0xFFFF.
   */
  lemma PrintedJsonReadsBack(cfg: Config, rel: Release, ns: Nodes)
    requires cfg.format == Json && AsciiPrintable(cfg.printable) && AiryConfig(cfg) && Members(ns)
    ensures ParseJson(PrintDocument(cfg, rel, ns)) == Some(JObject(MembersOf(ns))) <==> Readable(cfg.printable, ns)
  {
    assert "\n"[1..] == "" && SkipSpace("\n") == "";
    DocumentReadsBack(cfg, ns, "\n");
  }

  // ----- an indent that is not white space

  /** A reader that sees a closing quote at once has read an empty string. */
  ghost predicate ReadsEmpty(rd: StringReader) {
    forall s: string {:trigger rd(s)} :: s != "" && s[0] == '"' ==> rd(s) == Some(Scan("", s[1..]))
  }

  lemma MemberName(rd: StringReader, s: string)
    requires ReadsEmpty(rd) && |s| >= 2 && s[0] == '"' && s[1] == '"'
    ensures var r := ParseMembers(rd, s); r.Some? ==> r.value.value.Member? && r.value.value.name == ""
  {
  }

  /** Nothing but the closing brace or the quote of a name may follow an opening brace. */
  lemma SolidMargin(rd: StringReader, s: string)
    requires ReadsEmpty(rd) && StartsSolid(s) && (s[0] == '"' ==> |s| >= 2 && s[1] == '"')
    ensures var r := ParseValue(rd, "{" + ("\n" + s));
            r.Some? ==> r.value.value.JObject? && (r.value.value.members.Member? ==> r.value.value.members.name == "")
  {
    var t := "{" + ("\n" + s);
    assert t[1..] == "\n" + s && ("\n" + s)[1..] == s;
    assert SkipSpace("\n" + s) == s;
    if s[0] == '"' {
      MemberName(rd, s);
    }
  }

  /** No text that goes on like this after the opening brace reads back. */
  lemma SolidStart(rd: StringReader, s: string, ns: Nodes)
    requires ReadsEmpty(rd) && StartsSolid(s) && (s[0] == '"' ==> |s| >= 2 && s[1] == '"')
    requires ns.Cons? && !ns.head.Object? && ns.head.name != ""
    ensures ParseText(rd, "{" + ("\n" + s)) != Some(JObject(MembersOf(ns)))
  {
    var text := "{" + ("\n" + s);
    SolidMargin(rd, s);
    assert SkipSpace(text) == text;
    assert DoubleBackslashes(ns.head.name) != "";
  }

  lemma SolidMarginText(k: Ink, ns: Nodes)
    requires ReadsEmpty(k.rd) && !Airy(k) && ns.Cons? && Members(ns) && ns.head.name != ""
    ensures ParseText(k.rd, NodeText(k, 0, Object(ns), "\n")) != Some(JObject(MembersOf(ns)))
  {
    var end := EndText(k, 0, '}', "\n");
    var s := Repeat(k.pad, k.amount) + ListText(k, k.amount, ns, end);
    ListStart(k, k.amount, ns, end);
    assert s[0] == k.pad && (k.pad == '"' ==> s[1] == '"');
    SolidStart(k.rd, s, ns);
    assert InsideText(k, 0, ns, "}" + "\n") == "\n" + s;
    assert NodeText(k, 0, Object(ns), "\n") == "{" + ("\n" + s);
  }

  lemma SolidIndentSpoilsJson(cfg: Config, rel: Release, ns: Nodes)
    requires cfg.format == Json && !AiryConfig(cfg) && Members(ns) && ns.Cons? && ns.head.name != ""
    ensures ParseJson(PrintDocument(cfg, rel, ns)) != Some(JObject(MembersOf(ns)))
  {
    ConfigWritesJson(cfg);
    PrintIsText(StyleOf(cfg), InkOf(cfg), 0, Object(ns), "\n");
    SolidMarginText(InkOf(cfg), ns);
  }

  lemma EmptyJson(cfg: Config, rel: Release)
    requires cfg.format == Json
    ensures PrintDocument(cfg, rel, Nil) == PrintDocument(cfg.(indentAmount := 0), rel, Nil)
  {
  }

  /**
   Exactly when the printed JSON of a document reads back as the document: every non-printable character is at most
   0xFFFF, and the indent is white space unless the document is empty.
   */
  lemma JsonReadsBackIff(cfg: Config, rel: Release, ns: Nodes)
    requires cfg.format == Json && AsciiPrintable(cfg.printable) && Members(ns) && (ns.Cons? ==> ns.head.name != "")
    ensures ParseJson(PrintDocument(cfg, rel, ns)) == Some(JObject(MembersOf(ns)))
            <==> Readable(cfg.printable, ns) && (AiryConfig(cfg) || ns.Nil?)
  {
    if AiryConfig(cfg) {
      PrintedJsonReadsBack(cfg, rel, ns);
    } else if ns.Nil? {
      EmptyJson(cfg, rel);
      PrintedJsonReadsBack(cfg.(indentAmount := 0), rel, ns);
    } else {
      SolidIndentSpoilsJson(cfg, rel, ns);
    }
  }
}
