/**
 A newline for an indent character, in JSON and XML: the clean-up takes every margin out of the document.
 */
module NewlineIndents {
  import opened Prelude
  import opened Cleaning
  import opened Encoding
  import opened Decoding
  import opened Document
  import opened Layout
  import opened Render
  import opened TextLines
  import opened CleanedLines
  import opened ShownLines
  import opened PrintedLines
  import opened Tidiness

  /** The lines that are not empty, once newlines in a line are taken for line ends. */
  function Filled(lines: seq<string>): seq<string> {
    Texts(NEWLINE, Physical(lines))
  }

  lemma FilledConcat(a: seq<string>, b: seq<string>)
    ensures Filled(a + b) == Filled(a) + Filled(b)
  {
    PhysicalConcat(a, b);
    TextsConcat(NEWLINE, Physical(a), Physical(b));
  }

  lemma {:induction false} RowSplit(i: nat, b: string)
    requires NoNewline(b) && b != ""
    ensures Texts(NEWLINE, SplitLines(Repeat(NEWLINE, i) + b)) == [b]
    decreases i
  {
    var row := Repeat(NEWLINE, i) + b;
    if i == 0 {
      assert row == b;
      SplitOne(b);
      SingleLine(NEWLINE, IsEmpty(), b, false);
    } else {
      assert row[1..] == Repeat(NEWLINE, i - 1) + b;
      RowSplit(i - 1, b);
      TextsConcat(NEWLINE, [""], SplitLines(row[1..]));
      SingleLine(NEWLINE, IsEmpty(), "", false);
    }
  }

  lemma RowFilled(i: nat, b: string)
    requires PlainLines([b])
    ensures Filled([Repeat(NEWLINE, i) + b]) == [b]
  {
    var row := Repeat(NEWLINE, i) + b;
    assert [b][0] == b;
    RowSplit(i, b);
    var rows := [row];
    assert rows[1..] == [];
    assert Physical(rows) == SplitLines(row) + Physical(rows[1..]) == SplitLines(row);
  }

  lemma GroupFilled(i: nat, open: string, inner: seq<string>, close: string)
    requires PlainLines([open]) && PlainLines([close])
    ensures var margin := Repeat(NEWLINE, i);
            Filled([margin + open] + inner + [margin + close]) == [open] + Filled(inner) + [close]
  {
    var margin := Repeat(NEWLINE, i);
    RowFilled(i, open);
    RowFilled(i, close);
    FilledConcat([margin + open] + inner, [margin + close]);
    FilledConcat([margin + open], inner);
  }

  /** The same style without an indent. */
  ghost predicate Unindented(y: Style, flat: Style) {
    flat.format == y.format && flat.amount == 0 && forall c: Call :: flat.body(c) == y.body(c)
  }

  lemma BareStyle(cfg: Config)
    ensures Unindented(StyleOf(cfg), StyleOf(cfg.(indentAmount := 0)))
  {
    var bare := cfg.(indentAmount := 0);
    forall c: Call
      ensures Body(bare, c) == Body(cfg, c)
    {
    }
  }

  /** A reader does not miss a final newline. */
  lemma CutIsSpace(cut: bool)
    ensures SkipSpace(if cut then "" else "\n") == ""
  {
    assert "\n"[1..] == "";
  }

  function Trailed(b: string, comma: bool): string {
    if comma then b + "," else b
  }

  lemma MarkerPlain(f: Format, b: string, comma: bool)
    requires Marker(f, b)
    ensures PlainLines([Trailed(b, comma)])
  {
  }

  lemma EndedRow(margin: string, b: string, comma: bool)
    ensures WithComma([margin + b], comma) == [margin + Trailed(b, comma)]
  {
    var row := margin + b;
    assert [row][..0] == [];
    assert row + "," == margin + (b + ",");
  }

  lemma EndedGroup(margin: string, first: seq<string>, b: string, comma: bool)
    ensures WithComma(first + [margin + b], comma) == first + [margin + Trailed(b, comma)]
  {
    var row := margin + b;
    var lines := first + [row];
    assert lines[..|lines| - 1] == first;
    assert row + "," == margin + (b + ",");
  }

  lemma {:induction false} NodeFilled(y: Style, flat: Style, i: nat, n: Node, comma: bool)
    requires (y.format == Json || y.format == Xml) && y.padChar == NEWLINE && Unindented(y, flat)
    requires PlainMarkers(y) && Visible(y.format, n)
    ensures Filled(WithComma(NodeLines(y, i, n), comma)) == WithComma(NodeLines(flat, 0, n), comma)
    decreases n, 1
  {
    assert flat.body(FirstCall(n)) == y.body(FirstCall(n));
    if !n.Entry? {
      assert flat.body(CloseCall(n)) == y.body(CloseCall(n));
      ListFilled(y, flat, i + y.amount, n.children);
    }
    NodeRowsFilled(y, flat, i, n, comma);
  }

  lemma NodeRowsFilled(y: Style, flat: Style, i: nat, n: Node, comma: bool)
    requires y.padChar == NEWLINE && flat.format == y.format && flat.amount == 0
    requires flat.body(FirstCall(n)) == y.body(FirstCall(n)) && Marker(y.format, y.body(FirstCall(n)))
    requires !n.Entry? ==> flat.body(CloseCall(n)) == y.body(CloseCall(n)) && Marker(y.format, y.body(CloseCall(n)))
    requires !n.Entry? ==> Filled(ListLines(y, i + y.amount, n.children)) == ListLines(flat, 0, n.children)
    ensures Filled(WithComma(NodeLines(y, i, n), comma)) == WithComma(NodeLines(flat, 0, n), comma)
  {
    var margin, none, open := Repeat(NEWLINE, i), Margin(flat, 0), y.body(FirstCall(n));
    if n.Entry? {
      assert NodeLines(y, i, n) == [margin + open] && NodeLines(flat, 0, n) == [none + open];
      RowOfNode(y.format, i, none, open, comma);
    } else {
      var close := y.body(CloseCall(n));
      var inner, left := ListLines(y, i + y.amount, n.children), ListLines(flat, 0, n.children);
      if n.children.Nil? && y.format == Json {
        assert NodeLines(y, i, n) == [margin + (open + close)] && NodeLines(flat, 0, n) == [none + (open + close)];
        BothMarkers(y.format, open, close);
        RowOfNode(y.format, i, none, open + close, comma);
      } else {
        assert NodeLines(y, i, n) == [margin + open] + inner + [margin + close];
        assert NodeLines(flat, 0, n) == [none + open] + left + [none + close];
        MarkerPlain(y.format, open, false);
        MarkerPlain(y.format, close, comma);
        GroupOfNode(i, none, open, inner, left, close, comma);
      }
    }
  }

  lemma RowOfNode(f: Format, i: nat, none: string, b: string, comma: bool)
    requires Marker(f, b) && none == ""
    ensures Filled(WithComma([Repeat(NEWLINE, i) + b], comma)) == WithComma([none + b], comma)
  {
    MarkerPlain(f, b, comma);
    EndedRow(Repeat(NEWLINE, i), b, comma);
    EndedRow(none, b, comma);
    RowFilled(i, Trailed(b, comma));
    assert none + Trailed(b, comma) == Trailed(b, comma);
  }

  lemma GroupOfNode(i: nat, none: string, open: string, inner: seq<string>, flat: seq<string>, close: string,
                    comma: bool)
    requires PlainLines([open]) && PlainLines([Trailed(close, comma)]) && Filled(inner) == flat && none == ""
    ensures var margin := Repeat(NEWLINE, i);
            Filled(WithComma([margin + open] + inner + [margin + close], comma))
            == WithComma([none + open] + flat + [none + close], comma)
  {
    var margin := Repeat(NEWLINE, i);
    EndedGroup(margin, [margin + open] + inner, close, comma);
    EndedGroup(none, [none + open] + flat, close, comma);
    GroupFilled(i, open, inner, Trailed(close, comma));
    assert none + open == open && none + Trailed(close, comma) == Trailed(close, comma);
  }

  lemma {:induction false} ListFilled(y: Style, flat: Style, i: nat, ns: Nodes)
    requires (y.format == Json || y.format == Xml) && y.padChar == NEWLINE && Unindented(y, flat)
    requires PlainMarkers(y) && AllVisible(y.format, ns)
    ensures Filled(ListLines(y, i, ns)) == ListLines(flat, 0, ns)
    decreases ns, 0
  {
    if ns.Cons? {
      var comma := y.format == Json && ns.tail.Cons?;
      NodeFilled(y, flat, i, ns.head, comma);
      ListFilled(y, flat, i, ns.tail);
      FilledConcat(WithComma(NodeLines(y, i, ns.head), comma), ListLines(y, i, ns.tail));
    }
  }

  // ----- the clean-up

  lemma {:induction false} NewlineSmooth(lines: seq<string>)
    requires NoNewlines(lines)
    ensures Smooth(NEWLINE, lines, false)
  {
    if lines != [] {
      NewlineSmooth(lines[1..]);
      var w := lines[0];
      assert Only(NEWLINE, w) ==> w == "" by {
        assert w != "" ==> w[0] != NEWLINE;
      }
    }
  }

  lemma PlainStripped(lines: seq<string>)
    requires PlainLines(lines)
    ensures StripLast(NEWLINE, lines) == lines
  {
    if lines != [] {
      var w := lines[|lines| - 1];
      assert w != "" && w[|w| - 1] != NEWLINE;
      assert Stripped(NEWLINE, w) == w;
    }
  }

  lemma PhysicalFirst(lines: seq<string>)
    requires lines != [] && lines[0] != "" && lines[0][0] != NEWLINE
    ensures Physical(lines)[0] != ""
  {
    var w := lines[0];
    assert SplitLines(w)[0] == [w[0]] + SplitLines(w[1..])[0];
  }

  /** What is left is the lines that are not empty. */
  lemma NewlinesGo(lines: seq<string>)
    requires lines != [] && lines[0] != "" && lines[0][0] != NEWLINE && PlainLines(Filled(lines)) && Filled(lines) != []
    ensures HasSolid(NEWLINE, Unlines(lines))
    ensures Shows(CleanedUp(NEWLINE, Unlines(lines)), Unlines(Filled(lines)), EndsCut(NEWLINE, Physical(lines)))
  {
    PhysicalUnlines(lines);
    PhysicalFirst(lines);
    NewlineSmooth(Physical(lines));
    CleanTexts(NEWLINE, Physical(lines));
    PlainStripped(Filled(lines));
  }
}
