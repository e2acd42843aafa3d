/**
 The text format, line by line: an outline of the tree, written without the machine's own vocabulary.
 */
module Outlines {
  import opened Prelude
  import opened Encoding
  import opened Document
  import opened Layout
  import opened Render
  import opened Emission
  import opened Cleaning
  import opened TextLines
  import opened CleanedLines
  import opened ShownLines

  /**
   One line per entry and per group head, indented by the depth. A group that has members ends with a line that holds
   only its indent; the clean-up is there to remove those.
   */
  function Outline(cfg: Config, i: nat, ns: Nodes): (lines: seq<string>)
    ensures ns.Nil? ==> lines == []
    ensures ns.Cons? && !ns.head.Object? ==> lines != []
    decreases ns, 0
  {
    match ns
    case Nil => []
    case Cons(head, tail) => NodeOutline(cfg, i, head) + Outline(cfg, i, tail)
  }

  function NodeOutline(cfg: Config, i: nat, n: Node): (lines: seq<string>)
    ensures !n.Object? ==> lines != []
    decreases n, 0
  {
    match n
    case Entry(name, value) => [Repeat(cfg.indentChar, i) + (name + cfg.textSeparator + value)]
    case Section(name, children) => GroupOutline(cfg, i, name, children)
    case Container(name, children) => GroupOutline(cfg, i, name, children)
    case Object(children) => Outline(cfg, i, children)
  }

  function GroupOutline(cfg: Config, i: nat, name: string, children: Nodes): (lines: seq<string>)
    ensures lines != []
    decreases children, 1
  {
    [Repeat(cfg.indentChar, i) + (name + ":")] + Outline(cfg, i + cfg.indentAmount, children)
    + if children.Nil? then [] else [Repeat(cfg.indentChar, i)]
  }

  /** A style that writes an entry as name, separator and value, a group's name with a colon, and no close. */
  ghost predicate WritesText(y: Style, cfg: Config) {
    y.format == Text && y.amount == cfg.indentAmount && y.padChar == cfg.indentChar
    && forall c: Call {:trigger y.body(c)} :: y.body(c) == Label(cfg, c)
  }

  function Label(cfg: Config, c: Call): string {
    match c
    case EntryCall(name, value) => name + cfg.textSeparator + value
    case SectionOpenCall(name) => name + ":"
    case ContainerOpenCall(name) => name + ":"
    case _ => ""
  }

  lemma GroupJoined(head: string, inner: seq<string>, last: string)
    ensures JoinLines([head]) == head
    ensures inner != [] ==> JoinLines([head] + inner + [last]) == head + ("\n" + JoinLines(inner) + "\n" + last)
  {
    if inner != [] {
      JoinLinesConcat([head], inner);
      JoinLinesConcat([head] + inner, [last]);
      var text := JoinLines(inner);
      assert head + "\n" + text + "\n" + last == head + ("\n" + text + "\n" + last);
    }
  }

  lemma {:induction false} PrintIsOutline(y: Style, cfg: Config, i: nat, n: Node)
    requires WritesText(y, cfg) && !n.Object? && (n.Entry? || ObjectFree(n.children))
    ensures Margin(y, i) + Print(y, i, n) == JoinLines(NodeOutline(cfg, i, n))
    decreases n, 0
  {
    if !n.Entry? {
      var margin, deeper := Margin(y, i), i + cfg.indentAmount;
      var head, inner := margin + (n.name + ":"), Outline(cfg, deeper, n.children);
      GroupJoined(head, inner, margin);
      GroupPrinted(y, cfg, i, n);
      if n.children.Cons? {
        PrintAllIsOutline(y, cfg, deeper, n.children);
      } else {
        assert [head] + inner + [] == [head];
      }
    }
  }

  lemma GroupPrinted(y: Style, cfg: Config, i: nat, n: Node)
    requires WritesText(y, cfg) && !n.Object? && !n.Entry?
    ensures var head, deeper := Margin(y, i) + (n.name + ":"), i + cfg.indentAmount;
            Margin(y, i) + Print(y, i, n)
            == if n.children.Nil? then head
               else head + ("\n" + (Margin(y, deeper) + PrintAll(y, deeper, n.children)) + "\n" + Margin(y, i))
  {
    var inside := Inside(y, i, n.children);
    assert y.body(FirstCall(n)) == n.name + ":" && y.body(CloseCall(n)) == "";
    Pieces(Margin(y, i), n.name + ":", inside);
    if n.children.Cons? {
      var deeper := i + cfg.indentAmount;
      Regroup("\n", Margin(y, deeper), PrintAll(y, deeper, n.children));
    }
  }

  lemma Pieces(margin: string, head: string, inside: string)
    ensures margin + (head + inside + "") == margin + head + inside
    ensures margin + head + "" == margin + head
  {
  }

  lemma {:induction false} PrintAllIsOutline(y: Style, cfg: Config, i: nat, ns: Nodes)
    requires WritesText(y, cfg) && ns.Cons? && ObjectFree(ns)
    ensures Margin(y, i) + PrintAll(y, i, ns) == JoinLines(Outline(cfg, i, ns))
    decreases ns, 0
  {
    var margin, first := Margin(y, i), NodeOutline(cfg, i, ns.head);
    PrintIsOutline(y, cfg, i, ns.head);
    if ns.tail.Nil? {
      assert first + [] == first;
      assert PrintAll(y, i, ns) == Print(y, i, ns.head);
    } else {
      PrintAllIsOutline(y, cfg, i, ns.tail);
      JoinLinesConcat(first, Outline(cfg, i, ns.tail));
      Siblings(margin, Print(y, i, ns.head), PrintAll(y, i, ns.tail));
    }
  }

  lemma Siblings(margin: string, text: string, more: string)
    ensures margin + (text + ("\n" + margin + more)) == margin + text + "\n" + (margin + more)
  {
  }

  lemma ConfigWritesText(cfg: Config)
    requires cfg.format == Text
    ensures WritesText(StyleOf(cfg), cfg)
  {
    forall c: Call
      ensures Body(cfg, c) == Label(cfg, c)
    {
    }
  }

  /** For every document that is not empty, the text format is the outline of its tree, objects flattened away. */
  lemma TextIsOutline(cfg: Config, rel: Release, ns: Nodes)
    requires cfg.format == Text && Flatten(ns).Cons?
    ensures PrintDocument(cfg, rel, ns) == Unlines(Outline(cfg, 0, Flatten(ns)))
  {
    FlattenObjectFree(ns);
    ConfigWritesText(cfg);
    PrintAllIsOutline(StyleOf(cfg), cfg, 0, Flatten(ns));
    JoinedIsUnlined(Outline(cfg, 0, Flatten(ns)));
  }

  // ----- the lines that are not blank

  /** One line per entry and per group head, and nothing else. */
  function Labels(cfg: Config, i: nat, ns: Nodes): seq<string>
    decreases ns, 0
  {
    match ns
    case Nil => []
    case Cons(head, tail) => NodeLabels(cfg, i, head) + Labels(cfg, i, tail)
  }

  function NodeLabels(cfg: Config, i: nat, n: Node): seq<string>
    decreases n, 0
  {
    match n
    case Entry(name, value) => [Repeat(cfg.indentChar, i) + (name + cfg.textSeparator + value)]
    case Section(name, children) => GroupLabels(cfg, i, name, children)
    case Container(name, children) => GroupLabels(cfg, i, name, children)
    case Object(children) => Labels(cfg, i, children)
  }

  function GroupLabels(cfg: Config, i: nat, name: string, children: Nodes): seq<string>
    decreases children, 1
  {
    [Repeat(cfg.indentChar, i) + (name + ":")] + Labels(cfg, i + cfg.indentAmount, children)
  }

  /** A label may hold newlines of its own. */
  function LabelLines(cfg: Config, i: nat, ns: Nodes): (lines: seq<string>)
    ensures NoNewlines(lines)
  {
    Physical(Labels(cfg, i, ns))
  }

  /**
   Some group has members and a text after it, and the line of indent that ends it is of the given kind. `after` says
   whether a text follows the nodes.
   */
  predicate Closes(cfg: Config, kind: string -> bool, i: nat, ns: Nodes, after: bool)
    decreases ns, 0
  {
    ns.Cons? && (NodeCloses(cfg, kind, i, ns.head, after || HasText(cfg.indentChar, LabelLines(cfg, i, ns.tail)))
                 || Closes(cfg, kind, i, ns.tail, after))
  }

  predicate NodeCloses(cfg: Config, kind: string -> bool, i: nat, n: Node, after: bool)
    decreases n, 0
  {
    match n
    case Entry(_, _) => false
    case Object(children) => Closes(cfg, kind, i, children, after)
    case Section(_, children) => GroupCloses(cfg, kind, i, children, after)
    case Container(_, children) => GroupCloses(cfg, kind, i, children, after)
  }

  predicate GroupCloses(cfg: Config, kind: string -> bool, i: nat, children: Nodes, after: bool)
    decreases children, 1
  {
    (after && children.Cons? && OfKind(cfg.indentChar, kind, i))
    || Closes(cfg, kind, i + cfg.indentAmount, children, after)
  }

  /** Lines that mean the same to the clean-up, but for lines of indent of some kind. */
  ghost predicate Alike(c: char, kind: string -> bool, lines: seq<string>, labels: seq<string>, after: bool,
                        closes: bool)
  {
    Texts(c, Physical(lines)) == Texts(c, Physical(labels))
    && (BeforeText(c, kind, Physical(lines), after) <==> BeforeText(c, kind, Physical(labels), after) || closes)
  }

  lemma AlikeConcat(c: char, kind: string -> bool, a: seq<string>, b: seq<string>, la: seq<string>, lb: seq<string>,
                    after: bool, ca: bool, cb: bool)
    requires Alike(c, kind, a, la, after || HasText(c, Physical(lb)), ca) && Alike(c, kind, b, lb, after, cb)
    ensures Alike(c, kind, a + b, la + lb, after, ca || cb)
  {
    PhysicalConcat(a, b);
    PhysicalConcat(la, lb);
    TextsConcat(c, Physical(a), Physical(b));
    TextsConcat(c, Physical(la), Physical(lb));
    BeforeTextConcat(c, kind, Physical(a), Physical(b), after);
    BeforeTextConcat(c, kind, Physical(la), Physical(lb), after);
  }

  lemma CloseAlike(c: char, kind: string -> bool, i: nat, after: bool)
    ensures Alike(c, kind, [Repeat(c, i)], [], after, after && OfKind(c, kind, i))
  {
    IndentLines(c, i);
    IndentKind(c, kind, i, after);
    assert [Repeat(c, i)][1..] == [];
    assert SplitLines(Repeat(c, i)) + [] == SplitLines(Repeat(c, i));
  }

  /** The outline is its labels and the lines of indent that end its groups. */
  lemma {:induction false} OutlineAlike(cfg: Config, kind: string -> bool, i: nat, ns: Nodes, after: bool)
    ensures Alike(cfg.indentChar, kind, Outline(cfg, i, ns), Labels(cfg, i, ns), after, Closes(cfg, kind, i, ns, after))
    decreases ns, 0
  {
    if ns.Cons? {
      var c := cfg.indentChar;
      var more := after || HasText(c, LabelLines(cfg, i, ns.tail));
      NodeAlike(cfg, kind, i, ns.head, more);
      OutlineAlike(cfg, kind, i, ns.tail, after);
      AlikeConcat(c, kind, NodeOutline(cfg, i, ns.head), Outline(cfg, i, ns.tail), NodeLabels(cfg, i, ns.head),
                  Labels(cfg, i, ns.tail), after, NodeCloses(cfg, kind, i, ns.head, more),
                  Closes(cfg, kind, i, ns.tail, after));
    }
  }

  lemma {:induction false} NodeAlike(cfg: Config, kind: string -> bool, i: nat, n: Node, after: bool)
    ensures Alike(cfg.indentChar, kind, NodeOutline(cfg, i, n), NodeLabels(cfg, i, n), after,
                  NodeCloses(cfg, kind, i, n, after))
    decreases n, 0
  {
    match n
    case Entry(_, _) =>
    case Object(children) => OutlineAlike(cfg, kind, i, children, after);
    case Section(name, children) => GroupAlike(cfg, kind, i, name, children, after);
    case Container(name, children) => GroupAlike(cfg, kind, i, name, children, after);
  }

  lemma GroupIs(cfg: Config, kind: string -> bool, i: nat, name: string, children: Nodes, after: bool)
    ensures var head, deeper := Repeat(cfg.indentChar, i) + (name + ":"), i + cfg.indentAmount;
            GroupOutline(cfg, i, name, children)
            == [head] + Outline(cfg, deeper, children)
               + (if children.Cons? then [Repeat(cfg.indentChar, i)] else [])
            && GroupLabels(cfg, i, name, children) == [head] + Labels(cfg, deeper, children)
            && (GroupCloses(cfg, kind, i, children, after)
                <==> (after && children.Cons? && OfKind(cfg.indentChar, kind, i))
                     || Closes(cfg, kind, deeper, children, after))
  {
  }

  lemma {:induction false} GroupAlike(cfg: Config, kind: string -> bool, i: nat, name: string, children: Nodes,
                                      after: bool)
    ensures Alike(cfg.indentChar, kind, GroupOutline(cfg, i, name, children), GroupLabels(cfg, i, name, children),
                  after, GroupCloses(cfg, kind, i, children, after))
    decreases children, 1
  {
    var head, deeper := Repeat(cfg.indentChar, i) + (name + ":"), i + cfg.indentAmount;
    OutlineAlike(cfg, kind, deeper, children, after);
    GroupIs(cfg, kind, i, name, children, after);
    GroupLinesAlike(cfg.indentChar, kind, i, head, Outline(cfg, deeper, children), Labels(cfg, deeper, children), after,
                    Closes(cfg, kind, deeper, children, after), children.Cons?);
  }

  lemma GroupLinesAlike(c: char, kind: string -> bool, i: nat, head: string, inner: seq<string>, labels: seq<string>,
                        after: bool, closes: bool, members: bool)
    requires Alike(c, kind, inner, labels, after, closes)
    ensures Alike(c, kind, [head] + inner + (if members then [Repeat(c, i)] else []), [head] + labels, after,
                  (after && members && OfKind(c, kind, i)) || closes)
  {
    AlikeConcat(c, kind, [head], inner, [head], labels, after, false, closes);
    if members {
      CloseAlike(c, kind, i, after);
      AlikeConcat(c, kind, [head] + inner, [Repeat(c, i)], [head] + labels, [], after, closes,
                  after && OfKind(c, kind, i));
      assert [head] + labels + [] == [head] + labels;
    } else {
      assert [head] + inner + [] == [head] + inner;
    }
  }

  lemma FirstLine(cfg: Config, i: nat, ns: Nodes)
    requires ns.Cons? && !ns.head.Object?
    ensures Labels(cfg, i, ns) != [] && LabelLines(cfg, i, ns) != []
    ensures Physical(Outline(cfg, i, ns))[0] == LabelLines(cfg, i, ns)[0]
  {
    var outline, labels := Outline(cfg, i, ns), Labels(cfg, i, ns);
    assert NodeLabels(cfg, i, ns.head) != [] && NodeOutline(cfg, i, ns.head)[0] == NodeLabels(cfg, i, ns.head)[0];
    assert outline[0] == labels[0];
    assert Physical(outline)[0] == SplitLines(outline[0])[0];
    assert Physical(labels)[0] == SplitLines(labels[0])[0];
  }

  /** Some group at an indent of one character has members and a text after it: its last line is taken for text. */
  predicate Strays(cfg: Config, ns: Nodes) {
    Closes(cfg, Unsteady(cfg.indentChar), 0, ns, false)
  }

  /** The labels' lines come through the clean-up as they are, and no line of indent does. */
  predicate ComesThrough(cfg: Config, ns: Nodes) {
    var lines := LabelLines(cfg, 0, ns);
    lines != [] && lines[0] != "" && Smooth(cfg.indentChar, lines, false) && !Strays(cfg, ns)
  }

  /** Whether the clean-up takes the final newline of a text document. */
  predicate TextCut(cfg: Config, ns: Nodes) {
    EndsCut(cfg.indentChar, Physical(Outline(cfg, 0, ns)))
  }

  /**
   For every text document that is not empty: the clean-up can be applied exactly when some label holds something other
   than indent, and it leaves exactly the lines of the labels that do if and only if these come through. What it leaves
   ends in a newline exactly when the outline is not cut.
   */
  lemma CleanOutline(cfg: Config, rel: Release, ns: Nodes)
    requires cfg.format == Text && Flatten(ns).Cons?
    ensures var c, d, lines := cfg.indentChar, PrintDocument(cfg, rel, ns), LabelLines(cfg, 0, Flatten(ns));
            (HasSolid(c, d) <==> HasText(c, lines))
            && (HasText(c, lines) ==>
                  (Shows(CleanedUp(c, d), Unlines(StripLast(c, Texts(c, lines))), TextCut(cfg, Flatten(ns)))
                   <==> ComesThrough(cfg, Flatten(ns)))
                  && (EndsLine(CleanedUp(c, d)) <==> !TextCut(cfg, Flatten(ns))))
  {
    var flat := Flatten(ns);
    var outline := Outline(cfg, 0, flat);
    FlattenObjectFree(ns);
    FirstLine(cfg, 0, flat);
    TextIsOutline(cfg, rel, ns);
    PhysicalUnlines(outline);
    OutlineAlike(cfg, Unsteady(cfg.indentChar), 0, flat, false);
    CleanTexts(cfg.indentChar, Physical(outline));
  }
}
