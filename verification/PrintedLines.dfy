/**
 Pretty-printed JSON and XML, line by line.
 */
module PrintedLines {
  import opened Prelude
  import opened Encoding
  import opened Document
  import opened Render
  import opened TextLines

  /** A comma after the last line, if another sibling follows in JSON. */
  function WithComma(lines: seq<string>, comma: bool): (r: seq<string>)
    requires lines != []
    ensures |r| == |lines|
  {
    if comma then lines[..|lines| - 1] + [lines[|lines| - 1] + ","] else lines
  }

  function NodeLines(y: Style, i: nat, n: Node): (lines: seq<string>)
    ensures lines != []
    decreases n, 0
  {
    var first, margin := y.body(FirstCall(n)), Margin(y, i);
    if n.Entry? then [margin + first]
    else
      var close := y.body(CloseCall(n));
      if n.children.Nil? && y.format == Json then [margin + (first + close)]
      else [margin + first] + ListLines(y, i + y.amount, n.children) + [margin + close]
  }

  function ListLines(y: Style, i: nat, ns: Nodes): (lines: seq<string>)
    ensures ns.Cons? <==> lines != []
    decreases ns, 0
  {
    if ns.Nil? then []
    else WithComma(NodeLines(y, i, ns.head), y.format == Json && ns.tail.Cons?) + ListLines(y, i, ns.tail)
  }

  lemma {:induction false} CommaJoined(lines: seq<string>)
    requires lines != []
    ensures JoinLines(WithComma(lines, true)) == JoinLines(lines) + ","
  {
    if |lines| > 1 {
      CommaJoined(lines[1..]);
      assert WithComma(lines, true)[1..] == WithComma(lines[1..], true);
      Regroup(lines[0] + "\n", JoinLines(lines[1..]), ",");
    }
  }

  lemma GroupLines(margin: string, open: string, inner: seq<string>, close: string)
    ensures var lines := [margin + open] + inner + [margin + close];
            JoinLines(lines)
            == margin + open + "\n" + (if inner == [] then "" else JoinLines(inner) + "\n") + (margin + close)
  {
    var head, last := margin + open, margin + close;
    if inner == [] {
      assert [head] + inner + [last] == [head] + [last];
      JoinLinesConcat([head], [last]);
      assert head + "\n" + "" == head + "\n";
    } else {
      JoinLinesConcat([head] + inner, [last]);
      JoinLinesConcat([head], inner);
      var t := JoinLines(inner);
      assert head + "\n" + t + "\n" + last == head + "\n" + (t + "\n") + last;
    }
  }

  /** A node with its margin is its lines. */
  lemma {:induction false} PrintIsLines(y: Style, i: nat, n: Node)
    requires y.format == Json || y.format == Xml
    ensures Margin(y, i) + Print(y, i, n) == JoinLines(NodeLines(y, i, n))
    decreases n, 0
  {
    if !n.Entry? {
      var margin, open, close := Margin(y, i), y.body(FirstCall(n)), y.body(CloseCall(n));
      var deeper := i + y.amount;
      var inner := ListLines(y, deeper, n.children);
      GroupLines(margin, open, inner, close);
      if n.children.Cons? {
        PrintAllIsLines(y, deeper, n.children);
        FullPieces(margin, open, Margin(y, deeper), PrintAll(y, deeper, n.children), close);
      } else {
        EmptyPieces(margin, open, close);
      }
    }
  }

  lemma FullPieces(margin: string, open: string, deeper: string, text: string, close: string)
    ensures margin + (open + ("\n" + deeper + text + "\n" + margin) + close)
         == margin + open + "\n" + (deeper + text + "\n") + (margin + close)
  {
  }

  lemma EmptyPieces(margin: string, open: string, close: string)
    ensures margin + (open + "" + close) == margin + (open + close)
    ensures margin + (open + ("\n" + margin) + close) == margin + open + "\n" + "" + (margin + close)
  {
  }

  lemma {:induction false} PrintAllIsLines(y: Style, i: nat, ns: Nodes)
    requires (y.format == Json || y.format == Xml) && ns.Cons?
    ensures Margin(y, i) + PrintAll(y, i, ns) == JoinLines(ListLines(y, i, ns))
    decreases ns, 0
  {
    var margin, lines, text := Margin(y, i), NodeLines(y, i, ns.head), Print(y, i, ns.head);
    PrintIsLines(y, i, ns.head);
    if ns.tail.Nil? {
      assert lines + [] == lines && text + "" == text;
    } else {
      PrintAllIsLines(y, i, ns.tail);
      CommaJoined(lines);
      JoinLinesConcat(WithComma(lines, y.format == Json), ListLines(y, i, ns.tail));
      NextPieces(margin, text, PrintAll(y, i, ns.tail));
    }
  }

  lemma NextPieces(margin: string, text: string, more: string)
    ensures margin + (text + (",\n" + margin + more)) == margin + text + "," + "\n" + (margin + more)
    ensures margin + (text + ("\n" + margin + more)) == margin + text + "\n" + (margin + more)
  {
  }
}
