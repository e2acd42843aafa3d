/**
 A quote for an indent character and no indent: compress takes the quotes that end an empty value, or one that ends in a
 quote, and joins what is left to the next line. No reader gets past that place.
 */
module TornJson {
  import opened Prelude
  import opened Encoding
  import opened Decoding
  import opened Document
  import opened Layout
  import opened Render
  import opened TextLines
  import opened PrintedLines
  import opened Tidiness
  import opened JsonReader
  import opened JsonRoundTrip
  import opened JsonDocuments
  import opened JsonTidiness

  const QUOTE := '"'

  // ----- strings

  /** The text goes on with the line that closes a group. */
  predicate Closer(x: string) {
    x != "" && (x[0] == '}' || x[0] == ']')
  }

  /** A string that ends in an escaped quote does not end where that quote is taken away. */
  ghost predicate TornUnread(k: Ink) {
    forall v: string, x: string {:trigger k.rd(k.enc(v)[..|k.enc(v)| - 1] + x)} ::
      var e := k.enc(v);
      e != "" && e[|e| - 1] == QUOTE && Closer(x) ==>
        k.rd(e[..|e| - 1] + x).None? && |e| >= 2 && e[|e| - 2] != QUOTE
  }

  lemma BackslashClose(x: string)
    requires Closer(x)
    ensures ReadJsonString("\\" + x).None?
  {
    var s := "\\" + x;
    assert s[0] == '\\' && s[1] == x[0];
    assert ShortEscape(s[1]).None? && UnicodeEscape(s).None?;
  }

  lemma QuoteLast(printable: char -> bool, v: string)
    requires AsciiPrintable(printable) && v != "" && v[|v| - 1] == QUOTE
    ensures Encode(Json, printable, v) == EncodeEach(Json, printable, v[..|v| - 1]) + "\\\""
  {
    TwoPassesAreOne(Json, printable, v);
    EncodeEachLast(printable, v);
  }

  lemma WithoutQuote(head: string, x: string)
    ensures var e := head + "\\\"";
            e[..|e| - 1] + x == head + ("\\" + x) && |e| >= 2 && e[|e| - 1] == QUOTE && e[|e| - 2] == '\\'
  {
  }

  lemma TornString(printable: char -> bool, v: string, x: string)
    requires AsciiPrintable(printable) && Closer(x)
    requires var e := Encode(Json, printable, v); e != "" && e[|e| - 1] == QUOTE
    ensures var e := Encode(Json, printable, v);
            ReadJsonString(e[..|e| - 1] + x).None? && |e| >= 2 && e[|e| - 2] != QUOTE
  {
    EncodedEnds(printable, v);
    EncodedEmpty(printable, v);
    QuoteLast(printable, v);
    var before := v[..|v| - 1];
    WithoutQuote(EncodeEach(Json, printable, before), x);
    JsonEachRead(printable, before, "\\" + x);
    BackslashClose(x);
  }

  lemma EncodedEmpty(printable: char -> bool, v: string)
    requires AsciiPrintable(printable)
    ensures v == "" ==> Encode(Json, printable, v) == ""
  {
    TwoPassesAreOne(Json, printable, v);
  }

  lemma ConfigTears(cfg: Config)
    requires AsciiPrintable(cfg.printable)
    ensures TornUnread(InkOf(cfg))
  {
    forall v: string, x: string | var e := Encode(Json, cfg.printable, v);
        e != "" && e[|e| - 1] == QUOTE && Closer(x)
      ensures var e := Encode(Json, cfg.printable, v);
              ReadJsonString(e[..|e| - 1] + x).None? && |e| >= 2 && e[|e| - 2] != QUOTE
    {
      TornString(cfg.printable, v, x);
    }
  }

  // ----- entries

  lemma StrippedIs(c: char, a: string, n: nat)
    requires a != "" && a[|a| - 1] != c
    ensures Stripped(c, a + Repeat(c, n)) == a
    decreases n
  {
    var s := a + Repeat(c, n);
    if n > 0 {
      assert s[..|s| - 1] == a + Repeat(c, n - 1);
      StrippedIs(c, a, n - 1);
    } else {
      assert s == a;
    }
  }

  /** What compress leaves of an entry's value. */
  function TornValue(e: string): string {
    if e == "" then "" else "\"" + e[..|e| - 1]
  }

  lemma TornPieces(name: string, before: string)
    ensures "\"" + name + "\" : \"" + "" + "\"" == "\"" + (name + ("\"" + (" : " + ""))) + "\"\""
    ensures "\"" + name + "\" : \"" + (before + "\"") + "\""
         == "\"" + (name + ("\"" + (" : " + ("\"" + before)))) + "\"\""
  {
  }

  lemma TornEntryText(name: string, e: string)
    requires QuoteEnds(e) && (e != "" ==> |e| >= 2 && e[|e| - 2] != QUOTE)
    ensures Stripped(QUOTE, "\"" + name + "\" : \"" + e + "\"") == "\"" + (name + ("\"" + (" : " + TornValue(e))))
  {
    var left := "\"" + (name + ("\"" + (" : " + TornValue(e))));
    if e != "" {
      assert e == e[..|e| - 1] + "\"";
      TornPieces(name, e[..|e| - 1]);
      assert left[|left| - 1] == e[|e| - 2];
    } else {
      TornPieces(name, "");
      assert left[|left| - 1] == ' ';
    }
    StrippedIs(QUOTE, left, 2);
    assert Repeat(QUOTE, 2) == "\"\"";
  }

  lemma TornValueUnread(k: Ink, v: string, x: string)
    requires TornUnread(k) && QuoteEnds(k.enc(v)) && Closer(x)
    ensures ParseValue(k.rd, TornValue(k.enc(v)) + x).None? && StartsSolid(TornValue(k.enc(v)) + x)
  {
    var e := k.enc(v);
    var s := TornValue(e) + x;
    if e != "" {
      assert s[1..] == e[..|e| - 1] + x;
      assert k.rd(e[..|e| - 1] + x).None?;
    }
  }

  /** An entry whose value is torn. */
  lemma TornEntry(k: Ink, name: string, v: string, x: string)
    requires Sees(k) && TornUnread(k) && QuoteEnds(k.enc(v)) && Closer(x)
    ensures ParseMembers(k.rd, Stripped(QUOTE, JsonBody(k.enc, EntryCall(name, v))) + x).None?
  {
    var e := k.enc(v);
    var value := TornValue(e) + x;
    assert e != "" ==> |e| >= 2 && e[|e| - 2] != QUOTE by {
      assert e != "" ==> k.rd(e[..|e| - 1] + x).None?;
    }
    TornEntryText(k.enc(name), e);
    FourThen(k.enc(name), TornValue(e), x);
    TornValueUnread(k, v, x);
    ReadMember(k, name, value, None, "");
  }

  lemma FourThen(name: string, value: string, x: string)
    ensures "\"" + (name + ("\"" + (" : " + value))) + x == "\"" + (name + ("\"" + (" : " + (value + x))))
  {
  }

  // ----- what compress leaves of lines

  lemma {:induction false} FoldConcat(c: char, a: seq<string>, b: seq<string>)
    requires NoneEmpty(a) && NoneEmpty(b)
    ensures Fold(c, a + b) == Fold(c, a) + Fold(c, b)
  {
    if a == [] {
      assert a + b == b;
      assert "" + Fold(c, b) == Fold(c, b);
    } else {
      var more := a[1..] + b;
      assert (a + b)[0] == a[0] && (a + b)[1..] == more;
      assert DropEmpty(more) == more && DropEmpty(a[1..]) == a[1..];
      FoldConcat(c, a[1..], b);
      Regroup(Stripped(c, a[0]), Fold(c, a[1..]), Fold(c, b));
      Regroup("\n", Fold(c, a[1..]), Fold(c, b));
      Regroup(a[0], "\n" + Fold(c, a[1..]), Fold(c, b));
    }
  }

  lemma FoldOne(c: char, w: string)
    ensures Fold(c, [w]) == if EndsDouble(c, w) then Stripped(c, w) else w + "\n"
  {
    assert [w][1..] == [];
    assert Stripped(c, w) + "" == Stripped(c, w) && "\n" + "" == "\n";
  }

  /** What compress leaves of a text starts as its first line does, up to a character that is not indent. */
  lemma FoldStart(c: char, lines: seq<string>, p: nat)
    requires lines != [] && p < |lines[0]| && lines[0][p] != c
    ensures |Fold(c, lines)| > p && Fold(c, lines)[..p + 1] == lines[0][..p + 1]
  {
    var w := lines[0];
    StrippedSplits(c, w);
    var t := Stripped(c, w);
    assert |t| > p by {
      assert forall j :: |t| <= j < |w| ==> w[j] == w[|t|..][j - |t|];
    }
    assert t[..p + 1] == w[..p + 1] by {
      assert w[..|t|] == t;
    }
  }

  function Closing(comma: bool): string {
    if comma then ",\n" else "\n"
  }

  lemma CloseRow(close: char, comma: bool)
    requires close == '}' || close == ']'
    ensures WithComma([[close]], comma) == [if comma then [close] + "," else [close]]
    ensures Fold(QUOTE, WithComma([[close]], comma)) == [close] + Closing(comma)
    ensures !AnyDouble(QUOTE, WithComma([[close]], comma))
  {
    var w := if comma then [close] + "," else [close];
    assert [[close]][..0] == [];
    FoldOne(QUOTE, w);
    AnyDoubleOne(QUOTE, w);
    assert w + "\n" == [close] + Closing(comma);
  }

  lemma GroupSplit(first: string, inner: seq<string>, close: char, comma: bool)
    ensures WithComma([first] + inner + [[close]], comma) == [first] + (inner + WithComma([[close]], comma))
  {
    var lines := [first] + inner + [[close]];
    assert lines[..|lines| - 1] == [first] + inner;
    assert [[close]][..0] == [];
  }

  lemma FoldGroup(first: string, inner: seq<string>, close: char, comma: bool)
    requires first != "" && !EndsDouble(QUOTE, first) && NoneEmpty(inner) && (close == '}' || close == ']')
    ensures var lines := WithComma([first] + inner + [[close]], comma);
            Fold(QUOTE, lines) == first + ("\n" + (Fold(QUOTE, inner) + ([close] + Closing(comma))))
            && (AnyDouble(QUOTE, lines) <==> AnyDouble(QUOTE, inner))
  {
    var last := WithComma([[close]], comma);
    GroupSplit(first, inner, close, comma);
    CloseRow(close, comma);
    FoldConcat(QUOTE, [first], inner + last);
    FoldConcat(QUOTE, inner, last);
    FoldOne(QUOTE, first);
    Regroup(first, "\n", Fold(QUOTE, inner) + ([close] + Closing(comma)));
    AnyDoubleConcat(QUOTE, [first], inner + last);
    AnyDoubleConcat(QUOTE, inner, last);
    AnyDoubleOne(QUOTE, first);
  }

  // ----- trees

  /** No indent, strings that are seen whole and not seen torn. */
  ghost predicate Quoting(y: Style, k: Ink) {
    WritesJson(y, k) && k.amount == 0 && Sees(k) && TornUnread(k) && PlainMarkers(y) && PlainMargins(y, 0)
  }

  function Left(y: Style, ns: Nodes): string {
    Fold(QUOTE, ListLines(y, 0, ns))
  }

  function OpenChar(n: Node): char {
    if n.Container? then '[' else '{'
  }

  function CloseChar(n: Node): char {
    if n.Container? then ']' else '}'
  }

  lemma LeftStart(y: Style, k: Ink, ns: Nodes, x: string)
    requires Quoting(y, k) && ns.Cons? && AllVisible(Json, ns)
    ensures var s := Left(y, ns) + x; s != "" && s[0] == if ns.head.Object? then '{' else '"'
  {
    var w := ListLines(y, 0, ns)[0];
    ListRow(y, k, ns);
    var p := if ns.head.Object? then 0 else |k.enc(ns.head.name)| + 2;
    FoldStart(QUOTE, ListLines(y, 0, ns), p);
    assert Left(y, ns)[..p + 1][0] == w[..p + 1][0];
  }

  lemma ListRow(y: Style, k: Ink, ns: Nodes)
    requires WritesJson(y, k) && ns.Cons?
    ensures var w, p := ListLines(y, 0, ns)[0], if ns.head.Object? then 0 else |k.enc(ns.head.name)| + 2;
            p < |w| && if ns.head.Object? then w[0] == '{' else w[0] == '"' && w[p] == ' '
  {
    var body := JsonBody(k.enc, FirstCall(ns.head));
    assert y.body(FirstCall(ns.head)) == body;
    assert Margin(y, 0) + body == body;
    assert ListLines(y, 0, ns)[0] == WithComma(NodeLines(y, 0, ns.head), ns.tail.Cons?)[0];
    assert |NodeLines(y, 0, ns.head)[0]| >= |body| && NodeLines(y, 0, ns.head)[0][..|body|] == body;
  }

  lemma {:induction false} TornGroup(y: Style, k: Ink, n: Node, x: string)
    requires Quoting(y, k) && !n.Entry? && Formed(n) && AnyDouble(QUOTE, ListLines(y, 0, n.children))
    ensures ParseValue(k.rd, [OpenChar(n)] + ("\n" + (Left(y, n.children) + ([CloseChar(n)] + x)))).None?
    decreases n, 0
  {
    var s := Left(y, n.children) + ([CloseChar(n)] + x);
    LeftStart(y, k, n.children, [CloseChar(n)] + x);
    assert Repeat(k.pad, 0) + s == s;
    if n.Container? {
      TornItems(y, k, n.children, x);
      OpenArray(k, 0, s, None, "");
    } else {
      TornMembers(y, k, n.children, x);
      OpenObject(k, 0, s, None, "");
    }
  }

  lemma {:induction false} TornMembers(y: Style, k: Ink, ns: Nodes, x: string)
    requires Quoting(y, k) && Members(ns) && AnyDouble(QUOTE, ListLines(y, 0, ns))
    ensures ParseMembers(k.rd, Left(y, ns) + (['}'] + x)).None?
    decreases ns, 2
  {
    var lines, end := WithComma(NodeLines(y, 0, ns.head), ns.tail.Cons?), ['}'] + x;
    LeftSplit(y, ns, end);
    if AnyDouble(QUOTE, lines) {
      TornMember(y, k, ns.head, ns.tail.Cons?, Left(y, ns.tail) + end);
    } else {
      var u := Left(y, ns.tail) + end;
      TornMembers(y, k, ns.tail, x);
      LeftStart(y, k, ns.tail, end);
      WholeText(y, k, ns.head, u);
      WholeMember(k, ns.head, u);
    }
  }

  lemma {:induction false} TornItems(y: Style, k: Ink, ns: Nodes, x: string)
    requires Quoting(y, k) && Objects(ns) && AnyDouble(QUOTE, ListLines(y, 0, ns))
    ensures ParseItems(k.rd, Left(y, ns) + ([']'] + x)).None?
    decreases ns, 2
  {
    var lines, end := WithComma(NodeLines(y, 0, ns.head), ns.tail.Cons?), [']'] + x;
    LeftSplit(y, ns, end);
    if AnyDouble(QUOTE, lines) {
      TornItem(y, k, ns.head, ns.tail.Cons?, Left(y, ns.tail) + end);
    } else {
      var u := Left(y, ns.tail) + end;
      TornItems(y, k, ns.tail, x);
      LeftStart(y, k, ns.tail, end);
      WholeText(y, k, ns.head, u);
      WholeItem(k, ns.head, u);
    }
  }

  lemma LeftSplit(y: Style, ns: Nodes, end: string)
    requires y.format == Json && PlainMarkers(y) && PlainMargins(y, 0) && AllVisible(Json, ns) && ns.Cons?
    ensures var lines := WithComma(NodeLines(y, 0, ns.head), ns.tail.Cons?);
            Left(y, ns) + end == Fold(QUOTE, lines) + (Left(y, ns.tail) + end)
            && (AnyDouble(QUOTE, ListLines(y, 0, ns))
                <==> AnyDouble(QUOTE, lines) || AnyDouble(QUOTE, ListLines(y, 0, ns.tail)))
            && (!AnyDouble(QUOTE, lines) ==> Fold(QUOTE, lines) == Unlines(lines))
  {
    var lines, more := WithComma(NodeLines(y, 0, ns.head), ns.tail.Cons?), ListLines(y, 0, ns.tail);
    ListLinesPlain(y, 0, ns);
    assert ListLines(y, 0, ns) == lines + more;
    PlainParts(lines, more);
    FoldConcat(QUOTE, lines, more);
    AnyDoubleConcat(QUOTE, lines, more);
    Regroup(Fold(QUOTE, lines), Left(y, ns.tail), end);
    if !AnyDouble(QUOTE, lines) {
      SingleFold(QUOTE, lines);
    }
  }

  lemma PlainParts(a: seq<string>, b: seq<string>)
    requires PlainLines(a + b)
    ensures NoneEmpty(a) && NoneEmpty(b)
  {
    assert forall i :: 0 <= i < |a| ==> a[i] == (a + b)[i];
    assert forall i :: 0 <= i < |b| ==> b[i] == (a + b)[|a| + i];
  }

  /** A node that compress leaves alone, and more after it. */
  lemma WholeText(y: Style, k: Ink, n: Node, u: string)
    requires WritesJson(y, k) && k.amount == 0
    ensures Unlines(WithComma(NodeLines(y, 0, n), true)) + u == NodeText(k, 0, n, "," + ("\n" + u))
  {
    var lines := NodeLines(y, 0, n);
    PrintIsLines(y, 0, n);
    CommaJoined(lines);
    JoinedIsUnlined(WithComma(lines, true));
    PrintIsText(y, k, 0, n, "," + ("\n" + u));
    NoMargin(Margin(y, 0), Print(y, 0, n), u);
  }

  lemma NoMargin(margin: string, text: string, u: string)
    requires margin == ""
    ensures margin + text + "," + "\n" + u == text + ("," + ("\n" + u))
  {
  }

  lemma WholeMember(k: Ink, n: Node, u: string)
    requires Airy(k) && Sees(k) && Formed(n) && !n.Object? && StartsSolid(u) && ParseMembers(k.rd, u).None?
    ensures ParseMembers(k.rd, NodeText(k, 0, n, "," + ("\n" + u))).None?
  {
    var after := "," + ("\n" + u);
    var name, v := k.see(n.name), SeenValue(k.see, n);
    ValueStart(k, 0, n, after);
    ReadValue(k, 0, n, after);
    ReadMember(k, n.name, ValueText(k, 0, n, after), v, after);
    if name.Some? && v.Some? {
      assert Repeat(k.pad, 0) + u == u;
      OtherMember(k, name.value, v.value, 0, u, None, "");
    }
  }

  lemma WholeItem(k: Ink, n: Node, u: string)
    requires Airy(k) && Sees(k) && Formed(n) && n.Object? && StartsSolid(u) && ParseItems(k.rd, u).None?
    ensures ParseItems(k.rd, NodeText(k, 0, n, "," + ("\n" + u))).None?
  {
    var after := "," + ("\n" + u);
    var v := SeenValue(k.see, n);
    ReadValue(k, 0, n, after);
    if v.Some? {
      assert Repeat(k.pad, 0) + u == u;
      OtherItem(k, v.value, 0, u, None, "");
    }
  }

  lemma {:induction false} TornMember(y: Style, k: Ink, n: Node, comma: bool, z: string)
    requires Quoting(y, k) && !n.Object? && Formed(n) && (comma || Closer(z))
    requires AnyDouble(QUOTE, WithComma(NodeLines(y, 0, n), comma))
    ensures ParseMembers(k.rd, Fold(QUOTE, WithComma(NodeLines(y, 0, n), comma)) + z).None?
    decreases n, 1
  {
    if n.Entry? {
      TornEntryLine(y, k, n, comma);
      TornEntry(k, n.name, n.value, z);
    } else {
      GroupLeft(y, k, n, comma, z);
      TornGroup(y, k, n, Closing(comma) + z);
      NamedUnread(k, n, "\n" + (Left(y, n.children) + ([CloseChar(n)] + (Closing(comma) + z))));
    }
  }

  lemma NamedUnread(k: Ink, n: Node, text: string)
    requires Sees(k) && (n.Section? || n.Container?) && ParseValue(k.rd, [OpenChar(n)] + text).None?
    ensures ParseMembers(k.rd, JsonBody(k.enc, OpenCall(n)) + text).None?
  {
    var open := [OpenChar(n)];
    NamedOpen(k.enc(n.name), open, text);
    assert "\" : " + open == if n.Section? then "\" : {" else "\" : [";
    ReadMember(k, n.name, open + text, None, "");
  }

  lemma {:induction false} TornItem(y: Style, k: Ink, n: Node, comma: bool, z: string)
    requires Quoting(y, k) && n.Object? && Formed(n) && AnyDouble(QUOTE, WithComma(NodeLines(y, 0, n), comma))
    ensures ParseItems(k.rd, Fold(QUOTE, WithComma(NodeLines(y, 0, n), comma)) + z).None?
    decreases n, 1
  {
    GroupLeft(y, k, n, comma, z);
    TornGroup(y, k, n, Closing(comma) + z);
    assert JsonBody(k.enc, OpenCall(n)) == [OpenChar(n)];
  }

  lemma TornEntryLine(y: Style, k: Ink, n: Node, comma: bool)
    requires WritesJson(y, k) && n.Entry? && AnyDouble(QUOTE, WithComma(NodeLines(y, 0, n), comma))
    ensures var w := JsonBody(k.enc, EntryCall(n.name, n.value));
            !comma && QuoteEnds(k.enc(n.value)) && Fold(QUOTE, NodeLines(y, 0, n)) == Stripped(QUOTE, w)
  {
    var w := JsonBody(k.enc, EntryCall(n.name, n.value));
    assert y.body(FirstCall(n)) == w && w[|w| - 1] == '"';
    assert Repeat(QUOTE, 0) + w == w && Margin(y, 0) + w == w;
    assert NodeLines(y, 0, n) == [w];
    EntryDouble(QUOTE, 0, k.enc(n.name), k.enc(n.value));
    RowDoubleIff(QUOTE, 0, w, comma);
    FoldOne(QUOTE, w);
  }

  /** What compress leaves of a group that it does not leave alone. */
  lemma GroupLeft(y: Style, k: Ink, n: Node, comma: bool, z: string)
    requires Quoting(y, k) && !n.Entry? && Formed(n) && AnyDouble(QUOTE, WithComma(NodeLines(y, 0, n), comma))
    ensures AnyDouble(QUOTE, ListLines(y, 0, n.children))
    ensures var lines, open := WithComma(NodeLines(y, 0, n), comma), JsonBody(k.enc, OpenCall(n));
            Fold(QUOTE, lines) + z
            == open + ("\n" + (Left(y, n.children) + ([CloseChar(n)] + (Closing(comma) + z))))
  {
    var open, close := JsonBody(k.enc, OpenCall(n)), JsonBody(k.enc, CloseCall(n));
    var inner := ListLines(y, 0, n.children);
    assert y.body(FirstCall(n)) == open && y.body(CloseCall(n)) == close;
    CloseIs(k.enc, n);
    if n.children.Nil? {
      EmptyDouble(QUOTE, 0, k.enc, n);
      RowDoubleIff(QUOTE, 0, open + close, comma);
      assert false;
    } else {
      OpenDouble(QUOTE, 0, k.enc, n);
      ListLinesPlain(y, 0, n.children);
      assert Margin(y, 0) + open == open && Margin(y, 0) + close == close && Repeat(QUOTE, 0) + open == open;
      assert NodeLines(y, 0, n) == [open] + inner + [close];
      FoldGroup(open, inner, CloseChar(n), comma);
      FiveThen(open, Left(y, n.children), close, Closing(comma), z);
    }
  }

  lemma FiveThen(open: string, inner: string, close: string, end: string, z: string)
    ensures open + ("\n" + (inner + (close + end))) + z == open + ("\n" + (inner + (close + (end + z))))
  {
  }

  // ----- whole documents

  /** If compress takes a quote from some line, what is left cannot be read. */
  lemma TornDocument(cfg: Config, ns: Nodes, last: string)
    requires cfg.format == Json && AsciiPrintable(cfg.printable) && Members(ns) && cfg.indentAmount == 0
    requires AnyDouble(QUOTE, ListLines(StyleOf(cfg), 0, ns))
    ensures ParseJson("{" + ("\n" + (Left(StyleOf(cfg), ns) + ("}" + last)))).None?
  {
    var y, k := StyleOf(cfg), InkOf(cfg);
    ConfigWritesJson(cfg);
    ConfigSees(cfg);
    ConfigTears(cfg);
    MarkersPlain(cfg);
    TornGroup(y, k, Object(ns), last);
  }
}
