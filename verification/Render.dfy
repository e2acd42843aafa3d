/**
 The recursive pretty-printer over document trees, and the proof that the stackless machine prints the same text.
 */
module Render {
  import opened Prelude
  import opened Encoding
  import opened Document
  import opened Layout

  // ----- the pretty-printer

  /** What a printer needs to know: the format, the indent and the text of each marker. */
  datatype Style = Style(format: Format, amount: nat, padChar: char, body: Call -> string)

  function StyleOf(cfg: Config): Style {
    Style(cfg.format, cfg.indentAmount, cfg.indentChar, c => Body(cfg, c))
  }

  function Margin(y: Style, indent: nat): string {
    Repeat(y.padChar, indent)
  }

  /** Between siblings, and only there. */
  function Between(f: Format): string {
    if f == Json then ",\n" else "\n"
  }

  /** An empty group closes on the same line, except in XML where the closing tag has its own. */
  function Empty(y: Style, indent: nat): string {
    if y.format == Xml then "\n" + Margin(y, indent) else ""
  }

  /** The first call of a node. */
  function FirstCall(n: Node): Call {
    if n.Entry? then EntryCall(n.name, n.value) else OpenCall(n)
  }

  /** One node at a given indent, without the indent before its first line. */
  function Print(y: Style, indent: nat, n: Node): string
    decreases n, 0
  {
    if n.Entry? then y.body(FirstCall(n))
    else y.body(FirstCall(n)) + Inside(y, indent, n.children) + y.body(CloseCall(n))
  }

  /** The lines between a group's open and close markers; the close marker stands at the indent of the open one. */
  function Inside(y: Style, indent: nat, ns: Nodes): string
    decreases ns, 1
  {
    if ns.Nil? then Empty(y, indent)
    else
      var deeper := indent + y.amount;
      "\n" + Margin(y, deeper) + PrintAll(y, deeper, ns) + "\n" + Margin(y, indent)
  }

  /** Siblings at a given indent. */
  function PrintAll(y: Style, indent: nat, ns: Nodes): string
    requires ns.Cons?
    decreases ns, 0
  {
    Print(y, indent, ns.head)
    + if ns.tail.Nil? then "" else Between(y.format) + Margin(y, indent) + PrintAll(y, indent, ns.tail)
  }

  // ----- where the machine is

  /** The trees each format's machine is for: the full grammar in JSON, trees without objects elsewhere. */
  predicate Visible(f: Format, n: Node) {
    if f == Json then Formed(n) else !n.Object? && (n.Entry? || ObjectFree(n.children))
  }

  predicate AllVisible(f: Format, ns: Nodes) {
    if f == Json then Members(ns) || Objects(ns) else ObjectFree(ns)
  }

  function FirstElement(n: Node): Element {
    ElementOf(FirstCall(n))
  }

  function LastElement(n: Node): Element {
    if n.Entry? then EntryElement else ElementOf(CloseCall(n))
  }

  /** The elements a node of this kind may come right after. */
  predicate MayFollow(f: Format, e: Element, n: Node) {
    if f == Json then
      if n.Object? then e in {NoElement, ContainerOpen, ObjectClose}
      else e in {SectionOpen, ObjectOpen, EntryElement, SectionClose, ContainerClose}
    else e != ObjectOpen && e != ObjectClose
  }

  /** The elements a group of this kind may be closed after, other than its own open. */
  predicate MayClose(f: Format, e: Element, n: Node) {
    if f == Json && n.Container? then e == ObjectClose
    else e in {EntryElement, SectionClose, ContainerClose}
  }

  /** What the machine writes before a node, apart from the indent. */
  function Before(f: Format, e: Element): string {
    if e == NoElement then "" else if IsOpen(e) then "\n" else Between(f)
  }

  /** The indent the machine will give to a node written next. */
  function NextIndent(y: Style, st: State): nat {
    if IsOpen(st.current) then st.indent + y.amount else st.indent
  }

  /**
   The state after writing `text` in a well-placed run: the document grew by it, and the breadcrumbs are as before.
   */
  ghost predicate Reached(r: Option<State>, st: State, text: string, indent: nat, e: Element) {
    r.Some? && r.value.doc == st.doc + text && r.value.indent == indent && r.value.current == e
    && r.value.crumbs == st.crumbs
  }

  // ----- the machine's single steps

  /** A machine, its style, and the calls it can write. */
  datatype Machine = Machine(style: Style, step: Step, sayable: Call -> bool)

  function MachineOf(cfg: Config): Machine {
    Machine(StyleOf(cfg), Stepper(cfg), c => CallOk(cfg, c))
  }

  ghost predicate StepsForward(m: Machine) {
    forall st: State, n: Node {:trigger m.step(st, FirstCall(n))} ::
      Visible(m.style.format, n) && MayFollow(m.style.format, st.current, n) && m.sayable(FirstCall(n)) ==>
        var i := NextIndent(m.style, st);
        Reached(m.step(st, FirstCall(n)), st,
                Before(m.style.format, st.current) + Margin(m.style, i) + m.style.body(FirstCall(n)), i,
                FirstElement(n))
  }

  ghost predicate ClosesEmpty(m: Machine) {
    forall st: State, n: Node {:trigger m.step(st, CloseCall(n))} ::
      !n.Entry? && Visible(m.style.format, n) && st.current == FirstElement(n) ==>
        Reached(m.step(st, CloseCall(n)), st, Empty(m.style, st.indent) + m.style.body(CloseCall(n)), st.indent,
                LastElement(n))
  }

  ghost predicate ClosesFull(m: Machine) {
    forall st: State, n: Node {:trigger m.step(st, CloseCall(n))} ::
      !n.Entry? && Visible(m.style.format, n) && MayClose(m.style.format, st.current, n)
      && st.indent >= m.style.amount ==>
        var i := st.indent - m.style.amount;
        Reached(m.step(st, CloseCall(n)), st, "\n" + Margin(m.style, i) + m.style.body(CloseCall(n)), i, LastElement(n))
  }

  /** A call writes its lead and then its own text. */
  lemma ApplyAfterLead(cfg: Config, st: State, c: Call, lead: string, i: nat)
    requires cfg.format != Crumb && !Ignored(cfg.format, c) && CallOk(cfg, c)
    requires Reached(ChangeElement(cfg, st, ElementOf(c)), st, lead, i, ElementOf(c))
    ensures Reached(Apply(cfg, st, c), st, lead + Body(cfg, c), i, ElementOf(c))
  {
    Regroup(st.doc, lead, Body(cfg, c));
  }

  lemma Forward(cfg: Config, st: State, n: Node)
    requires cfg.format != Crumb && Visible(cfg.format, n) && MayFollow(cfg.format, st.current, n)
    ensures var y := StyleOf(cfg);
            var i := NextIndent(y, st);
            Reached(ChangeElement(cfg, st, FirstElement(n)), st, Before(cfg.format, st.current) + Margin(y, i), i,
                    FirstElement(n))
  {
    var i := NextIndent(StyleOf(cfg), st);
    var lead := LeadFor(cfg.format, st.current, FirstElement(n)).value;
    assert lead == Lead(Before(cfg.format, st.current), if IsOpen(st.current) then 1 else 0, true);
    Regroup(st.doc, lead.separator, Pad(cfg, i));
  }

  lemma CloseEmpty(cfg: Config, st: State, n: Node)
    requires cfg.format != Crumb && !n.Entry? && Visible(cfg.format, n) && st.current == FirstElement(n)
    ensures Reached(ChangeElement(cfg, st, LastElement(n)), st, Empty(StyleOf(cfg), st.indent), st.indent,
                    LastElement(n))
  {
    var lead := LeadFor(cfg.format, st.current, LastElement(n)).value;
    assert lead == if cfg.format == Xml then Lead("\n", 0, true) else NOTHING;
    Regroup(st.doc, lead.separator, if lead.pad then Pad(cfg, st.indent) else "");
  }

  lemma CloseFull(cfg: Config, st: State, n: Node)
    requires cfg.format != Crumb && !n.Entry? && Visible(cfg.format, n) && MayClose(cfg.format, st.current, n)
    requires st.indent >= cfg.indentAmount
    ensures var i := st.indent - cfg.indentAmount;
            Reached(ChangeElement(cfg, st, LastElement(n)), st, "\n" + Margin(StyleOf(cfg), i), i, LastElement(n))
  {
    var lead := LeadFor(cfg.format, st.current, LastElement(n)).value;
    assert lead == Lead("\n", -1, true);
    Regroup(st.doc, "\n", Pad(cfg, st.indent - cfg.indentAmount));
  }

  /** The transition tables, on the pairs that well-nested documents produce. */
  lemma MachineIsSound(cfg: Config)
    requires cfg.format != Crumb
    ensures var m := MachineOf(cfg); StepsForward(m) && ClosesEmpty(m) && ClosesFull(m)
  {
    var m, f := MachineOf(cfg), cfg.format;
    forall st: State, n: Node | Visible(f, n) && MayFollow(f, st.current, n) && CallOk(cfg, FirstCall(n))
      ensures var i := NextIndent(m.style, st);
              Reached(Apply(cfg, st, FirstCall(n)), st,
                      Before(f, st.current) + Margin(m.style, i) + Body(cfg, FirstCall(n)), i, FirstElement(n))
    {
      var i := NextIndent(m.style, st);
      Forward(cfg, st, n);
      ApplyAfterLead(cfg, st, FirstCall(n), Before(f, st.current) + Margin(m.style, i), i);
    }
    MachineCloses(cfg);
  }

  lemma MachineCloses(cfg: Config)
    requires cfg.format != Crumb
    ensures var m := MachineOf(cfg); ClosesEmpty(m) && ClosesFull(m)
  {
    var m, f := MachineOf(cfg), cfg.format;
    forall st: State, n: Node | !n.Entry? && Visible(f, n) && st.current == FirstElement(n)
      ensures Reached(Apply(cfg, st, CloseCall(n)), st, Empty(m.style, st.indent) + Body(cfg, CloseCall(n)), st.indent,
                      LastElement(n))
    {
      CloseEmpty(cfg, st, n);
      ApplyAfterLead(cfg, st, CloseCall(n), Empty(m.style, st.indent), st.indent);
    }
    forall st: State, n: Node | !n.Entry? && Visible(f, n) && MayClose(f, st.current, n)
        && st.indent >= cfg.indentAmount
      ensures var i := st.indent - cfg.indentAmount;
              Reached(Apply(cfg, st, CloseCall(n)), st, "\n" + Margin(m.style, i) + Body(cfg, CloseCall(n)), i,
                      LastElement(n))
    {
      var i := st.indent - cfg.indentAmount;
      CloseFull(cfg, st, n);
      ApplyAfterLead(cfg, st, CloseCall(n), "\n" + Margin(m.style, i), i);
    }
  }

  // ----- the machine prints the tree

  /** Every text of the tree can be written. */
  predicate Writable(m: Machine, n: Node)
    decreases n, 0
  {
    m.sayable(FirstCall(n)) && (n.Entry? || AllWritable(m, n.children))
  }

  predicate AllWritable(m: Machine, ns: Nodes)
    decreases ns, 0
  {
    ns.Cons? ==> Writable(m, ns.head) && AllWritable(m, ns.tail)
  }

  ghost predicate Sound(m: Machine) {
    StepsForward(m) && ClosesEmpty(m) && ClosesFull(m)
  }

  /** The last sibling. */
  function Final(ns: Nodes): Node
    requires ns.Cons?
  {
    if ns.tail.Nil? then ns.head else Final(ns.tail)
  }

  lemma {:induction false} FinalKind(ns: Nodes)
    requires ns.Cons?
    ensures Members(ns) || ObjectFree(ns) ==> !Final(ns).Object?
    ensures Objects(ns) ==> Final(ns).Object?
  {
    if ns.tail.Cons? {
      FinalKind(ns.tail);
    }
  }

  lemma FinalCloses(f: Format, n: Node)
    requires !n.Entry? && Visible(f, n) && n.children.Cons?
    ensures MayFollow(f, FirstElement(n), n.children.head)
    ensures MayClose(f, LastElement(Final(n.children)), n)
  {
    FinalKind(n.children);
    match n
    case Section(_, _) =>
    case Container(_, _) => assert f == Json ==> Objects(n.children);
    case Object(_) =>
  }

  /** Two stretches of a run, one after the other. */
  lemma Chain(step: Step, st: State, a: seq<Call>, b: seq<Call>, t: string, u: string, i: nat, j: nat, e: Element,
              f: Element)
    requires var r := Run(step, st, a); Reached(r, st, t, i, e) && Reached(Run(step, r.value, b), r.value, u, j, f)
    ensures Reached(Run(step, st, a + b), st, t + u, j, f)
  {
    RunConcat(step, st, a, b);
    Regroup(st.doc, t, u);
  }

  /** From any well-placed state, the calls of a node write its lead, its indent and its pretty-printed text. */
  lemma {:induction false} RunNode(m: Machine, st: State, n: Node)
    requires Sound(m) && Visible(m.style.format, n) && MayFollow(m.style.format, st.current, n) && Writable(m, n)
    ensures var i := NextIndent(m.style, st);
            Reached(Run(m.step, st, Calls(n)), st,
                    Before(m.style.format, st.current) + Margin(m.style, i) + Print(m.style, i, n), i, LastElement(n))
    decreases n, 0
  {
    var y, c := m.style, FirstCall(n);
    var i := NextIndent(y, st);
    var lead := Before(y.format, st.current) + Margin(y, i);
    RunOne(m.step, st, c);
    if !n.Entry? {
      var begun := Run(m.step, st, [c]).value;
      RunInside(m, begun, n);
      var inside := Inside(y, i, n.children) + y.body(CloseCall(n));
      Chain(m.step, st, [c], AllCalls(n.children) + [CloseCall(n)], lead + y.body(c), inside, i, i,
            FirstElement(n), LastElement(n));
      assert [c] + (AllCalls(n.children) + [CloseCall(n)]) == Calls(n);
      Assemble(lead, y.body(c), Inside(y, i, n.children), y.body(CloseCall(n)));
    }
  }

  lemma Assemble(a: string, b: string, c: string, d: string)
    ensures a + b + (c + d) == a + (b + c + d)
  {
  }

  /** From just after a group's open, its children and its close. */
  lemma {:induction false} RunInside(m: Machine, st: State, n: Node)
    requires Sound(m) && !n.Entry? && Visible(m.style.format, n) && AllWritable(m, n.children)
    requires st.current == FirstElement(n)
    ensures Reached(Run(m.step, st, AllCalls(n.children) + [CloseCall(n)]), st,
                    Inside(m.style, st.indent, n.children) + m.style.body(CloseCall(n)), st.indent, LastElement(n))
    decreases n.children, 1
  {
    var y, close, i := m.style, CloseCall(n), st.indent;
    if n.children.Nil? {
      assert AllCalls(n.children) + [close] == [close];
      RunOne(m.step, st, close);
    } else {
      FinalCloses(y.format, n);
      RunNodes(m, st, n.children);
      var deeper := i + y.amount;
      RunClose(m, st, n, "\n" + Margin(y, deeper) + PrintAll(y, deeper, n.children));
      InsideLines(y, i, n.children, y.body(close));
    }
  }

  /** The close after the last child: one line further, at the indent of the open. */
  lemma RunClose(m: Machine, st: State, n: Node, lines: string)
    requires ClosesFull(m) && !n.Entry? && Visible(m.style.format, n) && n.children.Cons?
    requires MayClose(m.style.format, LastElement(Final(n.children)), n)
    requires Reached(Run(m.step, st, AllCalls(n.children)), st, lines, st.indent + m.style.amount,
                     LastElement(Final(n.children)))
    ensures Reached(Run(m.step, st, AllCalls(n.children) + [CloseCall(n)]), st,
                    lines + ("\n" + Margin(m.style, st.indent) + m.style.body(CloseCall(n))), st.indent, LastElement(n))
  {
    var y, close, i := m.style, CloseCall(n), st.indent;
    RunOne(m.step, Run(m.step, st, AllCalls(n.children)).value, close);
    Chain(m.step, st, AllCalls(n.children), [close], lines, "\n" + Margin(y, i) + y.body(close), i + y.amount, i,
          LastElement(Final(n.children)), LastElement(n));
  }

  lemma InsideLines(y: Style, i: nat, ns: Nodes, close: string)
    requires ns.Cons?
    ensures var deeper := i + y.amount;
            "\n" + Margin(y, deeper) + PrintAll(y, deeper, ns) + ("\n" + Margin(y, i) + close)
            == Inside(y, i, ns) + close
  {
  }

  /** Siblings: the separator goes between them and nowhere else. */
  lemma {:induction false} RunNodes(m: Machine, st: State, ns: Nodes)
    requires Sound(m) && ns.Cons? && AllVisible(m.style.format, ns) && MayFollow(m.style.format, st.current, ns.head)
    requires AllWritable(m, ns)
    ensures var i := NextIndent(m.style, st);
            Reached(Run(m.step, st, AllCalls(ns)), st,
                    Before(m.style.format, st.current) + Margin(m.style, i) + PrintAll(m.style, i, ns), i,
                    LastElement(Final(ns)))
    decreases ns, 0
  {
    var y := m.style;
    var i := NextIndent(y, st);
    var lead := Before(y.format, st.current) + Margin(y, i);
    RunNode(m, st, ns.head);
    var text := Print(y, i, ns.head);
    if ns.tail.Nil? {
      assert AllCalls(ns) == Calls(ns.head);
      assert PrintAll(y, i, ns) == text;
    } else {
      RunNodes(m, Run(m.step, st, Calls(ns.head)).value, ns.tail);
      var more := Between(y.format) + Margin(y, i) + PrintAll(y, i, ns.tail);
      Chain(m.step, st, Calls(ns.head), AllCalls(ns.tail), lead + text, more, i, i, LastElement(ns.head),
            LastElement(Final(ns)));
      Regroup(lead, text, more);
    }
  }
}
