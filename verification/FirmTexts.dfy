/**
 Text documents whose entries and group heads are lines that the clean-up cannot mistake for something else.
 */
module FirmTexts {
  import opened Prelude
  import opened Document
  import opened Layout
  import opened TextLines
  import opened CleanedLines
  import opened ShownLines
  import opened Outlines

  /** A line of text that the clean-up cannot mistake for a blank one. */
  predicate Firm(c: char, w: string) {
    NoNewline(w) && !Only(c, w) && !EndsDouble(c, w)
  }

  predicate AllFirm(c: char, lines: seq<string>) {
    forall k :: 0 <= k < |lines| ==> Firm(c, lines[k])
  }

  /** Kinds of line that are not firm. */
  ghost predicate NeverFirm(c: char, kind: string -> bool) {
    forall w :: kind(w) ==> !Firm(c, w)
  }

  lemma {:induction false} FirmAreTexts(c: char, kind: string -> bool, lines: seq<string>)
    requires AllFirm(c, lines) && NeverFirm(c, kind)
    ensures Texts(c, lines) == lines && !BeforeText(c, kind, lines, false)
  {
    if lines != [] {
      FirmAreTexts(c, kind, lines[1..]);
    }
  }

  /** Lines that are firm all come through; with firm labels only a stray line of indent is in the way. */
  lemma FirmComesThrough(cfg: Config, ns: Nodes)
    requires ns.Cons? && !ns.head.Object? && AllFirm(cfg.indentChar, Labels(cfg, 0, ns))
    ensures LabelLines(cfg, 0, ns) == Labels(cfg, 0, ns) != []
    ensures Texts(cfg.indentChar, LabelLines(cfg, 0, ns)) == Labels(cfg, 0, ns)
    ensures ComesThrough(cfg, ns) <==> !Strays(cfg, ns)
  {
    FirstLine(cfg, 0, ns);
    PhysicalSame(Labels(cfg, 0, ns));
    FirmAreTexts(cfg.indentChar, Unsteady(cfg.indentChar), Labels(cfg, 0, ns));
  }

  /** An indent amount other than one never leaves a stray line. */
  lemma {:induction false} WideIndentIsClean(cfg: Config, i: nat, ns: Nodes, after: bool)
    requires cfg.indentAmount != 1 && i != 1
    ensures !Closes(cfg, Unsteady(cfg.indentChar), i, ns, after)
    decreases ns, 0
  {
    if ns.Cons? {
      var more := after || HasText(cfg.indentChar, LabelLines(cfg, i, ns.tail));
      WideNodeIsClean(cfg, i, ns.head, more);
      WideIndentIsClean(cfg, i, ns.tail, after);
    }
  }

  lemma {:induction false} WideNodeIsClean(cfg: Config, i: nat, n: Node, after: bool)
    requires cfg.indentAmount != 1 && i != 1
    ensures !NodeCloses(cfg, Unsteady(cfg.indentChar), i, n, after)
    decreases n, 0
  {
    if n.Object? {
      WideIndentIsClean(cfg, i, n.children, after);
    } else if !n.Entry? {
      WideIndentIsClean(cfg, i + cfg.indentAmount, n.children, after);
    }
  }

  // ----- the final newline

  /** Lines at some indent: they start with it, and only indent ends in two indent characters. */
  predicate Laid(c: char, i: nat, lines: seq<string>) {
    Stepped(c, lines)
    && (lines != [] ==> (i > 0 ==> !StartsOther(c, lines)) && (EndsDouble(c, lines[|lines| - 1]) ==> i > 0))
  }

  lemma LaidConcat(c: char, i: nat, a: seq<string>, b: seq<string>)
    requires Laid(c, i, a) && Laid(c, i, b)
    ensures Laid(c, i, a + b)
  {
    SteppedConcat(c, a, b);
    assert a == [] ==> a + b == b;
    assert b == [] ==> a + b == a;
    assert a != [] ==> (a + b)[0] == a[0];
    assert b != [] ==> (a + b)[|a + b| - 1] == b[|b| - 1];
  }

  lemma FirmSplit(c: char, a: seq<string>, b: seq<string>)
    requires AllFirm(c, a + b)
    ensures AllFirm(c, a) && AllFirm(c, b)
  {
    assert forall k :: 0 <= k < |a| ==> a[k] == (a + b)[k];
    assert forall k :: 0 <= k < |b| ==> b[k] == (a + b)[|a| + k];
  }

  lemma RowLaid(c: char, i: nat, text: string)
    requires !EndsDouble(c, Repeat(c, i) + text)
    ensures Laid(c, i, [Repeat(c, i) + text])
  {
    var row := Repeat(c, i) + text;
    var lines := [row];
    assert lines[1..] == [];
    assert i > 0 ==> row[0] == c;
  }

  lemma CloseLaid(c: char, i: nat)
    ensures Laid(c, i, [Repeat(c, i)]) && !StartsOther(c, [Repeat(c, i)])
  {
    var lines := [Repeat(c, i)];
    assert lines[1..] == [];
  }

  lemma {:induction false} OutlineLaid(cfg: Config, i: nat, ns: Nodes)
    requires AllFirm(cfg.indentChar, Labels(cfg, i, ns))
    ensures Laid(cfg.indentChar, i, Outline(cfg, i, ns)) && NoNewlines(Outline(cfg, i, ns))
    decreases ns, 0
  {
    if ns.Cons? {
      FirmSplit(cfg.indentChar, NodeLabels(cfg, i, ns.head), Labels(cfg, i, ns.tail));
      NodeLaid(cfg, i, ns.head);
      OutlineLaid(cfg, i, ns.tail);
      LaidConcat(cfg.indentChar, i, NodeOutline(cfg, i, ns.head), Outline(cfg, i, ns.tail));
    }
  }

  lemma {:induction false} NodeLaid(cfg: Config, i: nat, n: Node)
    requires AllFirm(cfg.indentChar, NodeLabels(cfg, i, n))
    ensures Laid(cfg.indentChar, i, NodeOutline(cfg, i, n)) && NoNewlines(NodeOutline(cfg, i, n))
    decreases n, 0
  {
    match n
    case Entry(name, value) =>
      assert Firm(cfg.indentChar, NodeLabels(cfg, i, n)[0]);
      RowLaid(cfg.indentChar, i, name + cfg.textSeparator + value);
    case Object(children) => OutlineLaid(cfg, i, children);
    case Section(name, children) => GroupLaid(cfg, i, name, children);
    case Container(name, children) => GroupLaid(cfg, i, name, children);
  }

  lemma {:induction false} GroupLaid(cfg: Config, i: nat, name: string, children: Nodes)
    requires AllFirm(cfg.indentChar, GroupLabels(cfg, i, name, children))
    ensures Laid(cfg.indentChar, i, GroupOutline(cfg, i, name, children))
    ensures NoNewlines(GroupOutline(cfg, i, name, children))
    decreases children, 1
  {
    var c, deeper := cfg.indentChar, i + cfg.indentAmount;
    var head := [Repeat(c, i) + (name + ":")];
    FirmSplit(c, head, Labels(cfg, deeper, children));
    assert Firm(c, head[0]);
    RowLaid(c, i, name + ":");
    OutlineLaid(cfg, deeper, children);
    GroupLinesLaid(c, i, name + ":", Outline(cfg, deeper, children), deeper, children.Cons?);
  }

  lemma GroupLinesLaid(c: char, i: nat, text: string, inner: seq<string>, deeper: nat, members: bool)
    requires Firm(c, Repeat(c, i) + text) && Laid(c, deeper, inner) && NoNewlines(inner) && (!members ==> inner == [])
    ensures var lines := [Repeat(c, i) + text] + inner + (if members then [Repeat(c, i)] else []);
            Laid(c, i, lines) && NoNewlines(lines)
  {
    var head, last := Repeat(c, i) + text, Repeat(c, i);
    RowLaid(c, i, text);
    CloseLaid(c, i);
    assert NoNewline(last) by {
      assert forall k :: 0 <= k < i ==> last[k] == head[k];
    }
    SteppedConcat(c, [head], inner);
    if members {
      SteppedConcat(c, [head] + inner, [last]);
    } else {
      assert [head] + inner + [] == [head];
    }
  }

  /**
   The final newline goes: some group whose last line is empty has members and a text after it (at no indent, or
   anywhere if newlines are the indent), and no group at an indent of two characters or more does.
   */
  predicate LosesNewline(cfg: Config, ns: Nodes) {
    Closes(cfg, IsEmpty(), 0, ns, false) && !Closes(cfg, Doubled(cfg.indentChar), 0, ns, false)
  }

  /** With firm labels, whether the final newline goes can be read off the tree. */
  lemma FirmCut(cfg: Config, ns: Nodes)
    requires ns.Cons? && !ns.head.Object? && AllFirm(cfg.indentChar, Labels(cfg, 0, ns))
    ensures TextCut(cfg, ns) <==> LosesNewline(cfg, ns)
  {
    var c, outline := cfg.indentChar, Outline(cfg, 0, ns);
    FirstLine(cfg, 0, ns);
    OutlineLaid(cfg, 0, ns);
    PhysicalSame(outline);
    PhysicalSame(Labels(cfg, 0, ns));
    FirmOutline(cfg, IsEmpty(), ns);
    FirmOutline(cfg, Doubled(c), ns);
    TrimmedTexts(c, IsEmpty(), outline);
    TrimmedTexts(c, Doubled(c), outline);
    TrimmedLines(c, outline);
    SteppedTrimmed(c, outline);
    CutsIff(c, Trimmed(c, outline));
  }

  lemma FirmOutline(cfg: Config, kind: string -> bool, ns: Nodes)
    requires AllFirm(cfg.indentChar, Labels(cfg, 0, ns)) && NeverFirm(cfg.indentChar, kind)
    ensures Texts(cfg.indentChar, Physical(Outline(cfg, 0, ns))) == Labels(cfg, 0, ns)
    ensures BeforeText(cfg.indentChar, kind, Physical(Outline(cfg, 0, ns)), false) <==> Closes(cfg, kind, 0, ns, false)
  {
    PhysicalSame(Labels(cfg, 0, ns));
    FirmAreTexts(cfg.indentChar, kind, Labels(cfg, 0, ns));
    OutlineAlike(cfg, kind, 0, ns, false);
  }
}
