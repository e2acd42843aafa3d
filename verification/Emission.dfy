/**
 A whole document: `master_header`, the calls of a tree, `master_footer`.
 */
module Emission {
  import opened Prelude
  import opened Encoding
  import EncodeBuffers
  import opened Document
  import opened Layout
  import opened Render

  /** What the XML header says of the program and the user. */
  datatype Release = Release(version: string, packageString: string, privileged: bool)

  const XML_VERSION := " version=\"1.0\" encoding=\"UTF-8\""
  const XML_DECLARATION := "<?xml" + XML_VERSION + "?>\n"
  const XML_END := "</procenv>\n"

  function HeaderAttribute(name: string, value: string): string {
    " " + name + "=\"" + value + "\""
  }

  function Mode(rel: Release): string {
    (if rel.privileged then "" else "non-") + "privileged"
  }

  function XmlRoot(rel: Release): string {
    "<procenv" + HeaderAttribute("version", rel.version) + HeaderAttribute("package_string", rel.packageString)
    + HeaderAttribute("mode", Mode(rel)) + HeaderAttribute("format_version", "24") + ">\n"
  }

  /** `master_header`, given the two lines it writes for XML. */
  function Begin(cfg: Config, st: State, declaration: string, root: string): Option<State> {
    match cfg.format
    case Text => Some(st)
    case Crumb => Some(st)
    case Json => Apply(cfg, st, ObjectOpenCall)
    case Xml => Some(st.(doc := st.doc + declaration + root, indent := st.indent + cfg.indentAmount))
  }

  /** `master_header` */
  function MasterHeader(cfg: Config, rel: Release, st: State): Option<State> {
    Begin(cfg, st, XML_DECLARATION, XmlRoot(rel))
  }

  /** `master_footer` */
  function MasterFooter(cfg: Config, st: State): Option<State> {
    match cfg.format
    case Text => Some(st.(doc := st.doc + "\n"))
    case Crumb => Some(st.(doc := st.doc + "\n"))
    case Json =>
      (match Apply(cfg, st, ObjectCloseCall)
       case None => None
       case Some(closed) => Some(closed.(doc := closed.doc + "\n")))
    case Xml =>
      if st.indent < cfg.indentAmount then None
      else Some(st.(doc := st.doc + "\n" + XML_END, indent := st.indent - cfg.indentAmount))
  }

  /** A run from the start of the program to the end of the document. */
  function Emit(cfg: Config, rel: Release, calls: seq<Call>): Option<State> {
    match MasterHeader(cfg, rel, START)
    case None => None
    case Some(begun) =>
      match Run(Stepper(cfg), begun, calls)
      case None => None
      case Some(done) => MasterFooter(cfg, done)
  }

  // ----- the pretty-printed document

  /** The top-level lines of a format without objects. */
  function PrintTop(y: Style, indent: nat, ns: Nodes): string {
    if ns.Nil? then "" else Margin(y, indent) + PrintAll(y, indent, ns)
  }

  function PrintDocument(cfg: Config, rel: Release, ns: Nodes): string {
    var y := StyleOf(cfg);
    match cfg.format
    case Json => Print(y, 0, Object(ns)) + "\n"
    case Xml => XML_DECLARATION + XmlRoot(rel) + PrintTop(y, y.amount, Flatten(ns)) + "\n" + XML_END
    case _ => PrintTop(y, 0, Flatten(ns)) + "\n"
  }

  // ----- objects are invisible outside JSON

  lemma {:induction false} RunFlattened(step: Step, st: State, ns: Nodes)
    requires forall s: State :: step(s, ObjectOpenCall) == Some(s) && step(s, ObjectCloseCall) == Some(s)
    ensures Run(step, st, AllCalls(ns)) == Run(step, st, AllCalls(Flatten(ns)))
    decreases ns
  {
    match ns
    case Nil =>
    case Cons(head, tail) =>
      var rest := Flatten(tail);
      RunConcat(step, st, Calls(head), AllCalls(tail));
      RunFlattenedHead(step, st, head);
      var flat := Flatten(Cons(head, Nil));
      AppendCalls(flat, rest);
      RunConcat(step, st, AllCalls(flat), AllCalls(rest));
      FlattenCons(head, tail);
      if Run(step, st, Calls(head)).Some? {
        RunFlattened(step, Run(step, st, Calls(head)).value, tail);
      }
  }

  lemma FlattenCons(head: Node, tail: Nodes)
    ensures Flatten(Cons(head, tail)) == Append(Flatten(Cons(head, Nil)), Flatten(tail))
  {
    if head.Object? {
      AppendNil(Flatten(head.children));
    }
  }

  lemma {:induction false} AppendNil(a: Nodes)
    ensures Append(a, Nil) == a
  {
    if a.Cons? {
      AppendNil(a.tail);
    }
  }

  lemma {:induction false} RunFlattenedHead(step: Step, st: State, n: Node)
    requires forall s: State :: step(s, ObjectOpenCall) == Some(s) && step(s, ObjectCloseCall) == Some(s)
    ensures Run(step, st, Calls(n)) == Run(step, st, AllCalls(Flatten(Cons(n, Nil))))
    decreases n
  {
    if n.Entry? {
      assert AllCalls(Flatten(Cons(n, Nil))) == Calls(n);
    } else {
      var open, close := OpenCall(n), CloseCall(n);
      var inner, flat := AllCalls(n.children), AllCalls(Flatten(n.children));
      assert Calls(n) == [open] + (inner + [close]);
      RunConcat(step, st, [open], inner + [close]);
      RunOne(step, st, open);
      if step(st, open).Some? {
        var st1 := step(st, open).value;
        RunConcat(step, st1, inner, [close]);
        RunConcat(step, st1, flat, [close]);
        RunFlattened(step, st1, n.children);
      }
      if n.Object? {
        AppendNil(Flatten(n.children));
        if Run(step, st, inner).Some? {
          RunOne(step, Run(step, st, inner).value, close);
        }
      } else {
        assert AllCalls(Flatten(Cons(n, Nil))) == [open] + (flat + [close]);
        RunConcat(step, st, [open], flat + [close]);
      }
    }
  }

  lemma {:induction false} AppendWritable(m: Machine, a: Nodes, b: Nodes)
    requires AllWritable(m, a) && AllWritable(m, b)
    ensures AllWritable(m, Append(a, b))
  {
    if a.Cons? {
      AppendWritable(m, a.tail, b);
    }
  }

  lemma {:induction false} FlattenWritable(m: Machine, ns: Nodes)
    requires AllWritable(m, ns)
    ensures AllWritable(m, Flatten(ns))
  {
    match ns
    case Nil =>
    case Cons(head, tail) =>
      FlattenWritable(m, tail);
      if !head.Entry? {
        FlattenWritable(m, head.children);
      }
      if head.Object? {
        AppendWritable(m, Flatten(head.children), Flatten(tail));
      }
  }

  // ----- the whole document is the pretty-printed tree

  lemma TopWritten(m: Machine, st: State, ns: Nodes)
    requires Sound(m) && m.style.format != Json && ObjectFree(ns) && AllWritable(m, ns) && st.current == NoElement
    ensures var r := Run(m.step, st, AllCalls(ns));
            r.Some? && r.value.doc == st.doc + PrintTop(m.style, st.indent, ns) && r.value.indent == st.indent
  {
    if ns.Cons? {
      RunNodes(m, st, ns);
      assert "" + Margin(m.style, st.indent) == Margin(m.style, st.indent);
    } else {
      assert st.doc + "" == st.doc;
    }
  }

  lemma RootWritten(m: Machine, ns: Nodes)
    requires Sound(m) && m.style.format == Json && Members(ns) && Writable(m, Object(ns))
    ensures var begun := m.step(START, ObjectOpenCall);
            begun.Some? && var done := Run(m.step, begun.value, AllCalls(ns));
            done.Some? && var closed := m.step(done.value, ObjectCloseCall);
            closed.Some? && closed.value.doc == Print(m.style, 0, Object(ns)) && closed.value.indent == 0
  {
    var root := Object(ns);
    RunNode(m, START, root);
    RunOne(m.step, START, ObjectOpenCall);
    assert Calls(root) == [ObjectOpenCall] + (AllCalls(ns) + [ObjectCloseCall]);
    RunConcat(m.step, START, [ObjectOpenCall], AllCalls(ns) + [ObjectCloseCall]);
    var begun := m.step(START, ObjectOpenCall).value;
    RunConcat(m.step, begun, AllCalls(ns), [ObjectCloseCall]);
    RunOne(m.step, Run(m.step, begun, AllCalls(ns)).value, ObjectCloseCall);
    assert "" + ("" + Margin(m.style, 0) + Print(m.style, 0, root)) == Print(m.style, 0, root);
  }

  lemma EmitJson(cfg: Config, rel: Release, ns: Nodes)
    requires cfg.format == Json && Members(ns) && AllWritable(MachineOf(cfg), ns)
    ensures var r := Emit(cfg, rel, AllCalls(ns));
            r.Some? && r.value.doc == PrintDocument(cfg, rel, ns) && r.value.indent == 0
  {
    MachineIsSound(cfg);
    RootWritten(MachineOf(cfg), ns);
  }

  lemma FlatWritten(cfg: Config, st: State, ns: Nodes)
    requires (cfg.format == Text || cfg.format == Xml) && AllWritable(MachineOf(cfg), ns) && st.current == NoElement
    ensures var r := Run(Stepper(cfg), st, AllCalls(ns));
            r.Some? && r.value.doc == st.doc + PrintTop(StyleOf(cfg), st.indent, Flatten(ns))
            && r.value.indent == st.indent
  {
    var m, flat := MachineOf(cfg), Flatten(ns);
    MachineIsSound(cfg);
    RunFlattened(m.step, st, ns);
    FlattenObjectFree(ns);
    FlattenWritable(m, ns);
    TopWritten(m, st, flat);
  }

  lemma XmlBegun(cfg: Config, declaration: string, root: string)
    requires cfg.format == Xml
    ensures Begin(cfg, START, declaration, root)
         == Some(START.(doc := declaration + root, indent := cfg.indentAmount))
  {
    assert START.doc + declaration == declaration;
  }

  lemma XmlWritten(cfg: Config, declaration: string, root: string, ns: Nodes)
    requires cfg.format == Xml && AllWritable(MachineOf(cfg), ns)
    ensures var r := Run(Stepper(cfg), Begin(cfg, START, declaration, root).value, AllCalls(ns));
            r.Some? && r.value.doc == declaration + root + PrintTop(StyleOf(cfg), cfg.indentAmount, Flatten(ns))
            && r.value.indent == cfg.indentAmount
  {
    XmlBegun(cfg, declaration, root);
    FlatWritten(cfg, START.(doc := declaration + root, indent := cfg.indentAmount), ns);
  }

  lemma EmitXml(cfg: Config, rel: Release, ns: Nodes)
    requires cfg.format == Xml && AllWritable(MachineOf(cfg), ns)
    ensures var r := Emit(cfg, rel, AllCalls(ns));
            r.Some? && r.value.doc == PrintDocument(cfg, rel, ns) && r.value.indent == 0
  {
    XmlWritten(cfg, XML_DECLARATION, XmlRoot(rel), ns);
  }

  lemma EmitText(cfg: Config, rel: Release, ns: Nodes)
    requires cfg.format == Text && AllWritable(MachineOf(cfg), ns)
    ensures var r := Emit(cfg, rel, AllCalls(ns));
            r.Some? && r.value.doc == PrintDocument(cfg, rel, ns) && r.value.indent == 0
  {
    FlatWritten(cfg, START, ns);
    var top := PrintTop(StyleOf(cfg), 0, Flatten(ns));
    assert "" + top == top;
  }

  lemma {:induction false} RunNeedsWritable(cfg: Config, st: State, ns: Nodes)
    ensures Run(Stepper(cfg), st, AllCalls(ns)).Some? ==> AllWritable(MachineOf(cfg), ns)
    decreases ns, 1
  {
    if ns.Cons? {
      var step := Stepper(cfg);
      RunConcat(step, st, Calls(ns.head), AllCalls(ns.tail));
      NodeNeedsWritable(cfg, st, ns.head);
      if Run(step, st, Calls(ns.head)).Some? {
        RunNeedsWritable(cfg, Run(step, st, Calls(ns.head)).value, ns.tail);
      }
    }
  }

  lemma {:induction false} NodeNeedsWritable(cfg: Config, st: State, n: Node)
    ensures Run(Stepper(cfg), st, Calls(n)).Some? ==> Writable(MachineOf(cfg), n)
    decreases n, 0
  {
    var step, c := Stepper(cfg), FirstCall(n);
    RunOne(step, st, c);
    assert step(st, c).Some? ==> CallOk(cfg, c);
    if !n.Entry? {
      var inner := AllCalls(n.children) + [CloseCall(n)];
      assert Calls(n) == [c] + inner;
      RunConcat(step, st, [c], inner);
      if step(st, c).Some? {
        RunConcat(step, step(st, c).value, AllCalls(n.children), [CloseCall(n)]);
        RunNeedsWritable(cfg, step(st, c).value, n.children);
      }
    }
  }

  /** Every name and value is a C string, and no name is empty. */
  predicate AllNamed(ns: Nodes)
    decreases ns, 0
  {
    ns.Cons? ==> Named(ns.head) && AllNamed(ns.tail)
  }

  predicate Named(n: Node)
    decreases n, 0
  {
    match n
    case Entry(name, value) => name != "" && NoNul(name) && NoNul(value)
    case Section(name, children) => name != "" && NoNul(name) && AllNamed(children)
    case Container(name, children) => name != "" && NoNul(name) && AllNamed(children)
    case Object(children) => AllNamed(children)
  }

  /** Every name and every value fits the encoder's buffer. */
  predicate AllFit(cfg: Config, ns: Nodes)
    decreases ns, 0
  {
    ns.Cons? ==> NodeFits(cfg, ns.head) && AllFit(cfg, ns.tail)
  }

  predicate NodeFits(cfg: Config, n: Node)
    decreases n, 0
  {
    match n
    case Entry(name, value) => TextFits(cfg, name) && TextFits(cfg, value)
    case Section(name, children) => TextFits(cfg, name) && AllFit(cfg, children)
    case Container(name, children) => TextFits(cfg, name) && AllFit(cfg, children)
    case Object(children) => AllFit(cfg, children)
  }

  predicate TextFits(cfg: Config, s: string) {
    EncodeBuffers.Fits(cfg.format, cfg.printable, s)
  }

  /** A document can be written exactly when its texts are C strings that fit and no name is empty. */
  lemma {:induction false} WritableIff(cfg: Config, ns: Nodes)
    ensures AllWritable(MachineOf(cfg), ns) <==> AllNamed(ns) && AllFit(cfg, ns)
  {
    if ns.Cons? {
      WritableIff(cfg, ns.tail);
      if !ns.head.Entry? {
        WritableIff(cfg, ns.head.children);
      }
    }
  }

  /** No non-printable character is too wide for its escape: up to 0xFF in XML, up to 0xFFFF in JSON. */
  predicate Narrow(cfg: Config, s: string) {
    forall i :: 0 <= i < |s| ==> cfg.printable(s[i]) || s[i] as int <= if cfg.format == Xml then 0xFF else 0xFFFF
  }

  predicate AllNarrow(cfg: Config, ns: Nodes) {
    ns.Cons? ==>
      (if ns.head.Entry? then Narrow(cfg, ns.head.name) && Narrow(cfg, ns.head.value)
       else (ns.head.Object? || Narrow(cfg, ns.head.name)) && AllNarrow(cfg, ns.head.children))
      && AllNarrow(cfg, ns.tail)
  }

  lemma NarrowTextFits(cfg: Config, s: string)
    requires Narrow(cfg, s)
    ensures TextFits(cfg, s)
  {
    if Encoded(cfg.format) {
      EncodeBuffers.NarrowFits(cfg.format, cfg.printable, s);
    }
  }

  lemma {:induction false} NarrowFit(cfg: Config, ns: Nodes)
    requires AllNarrow(cfg, ns)
    ensures AllFit(cfg, ns)
  {
    if ns.Cons? {
      NarrowFit(cfg, ns.tail);
      if !ns.head.Object? {
        NarrowTextFits(cfg, ns.head.name);
      }
      if ns.head.Entry? {
        NarrowTextFits(cfg, ns.head.value);
      } else {
        NarrowFit(cfg, ns.head.children);
      }
    }
  }

  lemma {:induction false} PlainFit(cfg: Config, ns: Nodes)
    requires !Encoded(cfg.format)
    ensures AllFit(cfg, ns)
  {
    if ns.Cons? {
      PlainFit(cfg, ns.tail);
      if !ns.head.Entry? {
        PlainFit(cfg, ns.head.children);
      }
    }
  }

  /** Outside JSON and XML nothing is encoded, and only an empty name stops a document. */
  lemma WritableIsNamed(cfg: Config, ns: Nodes)
    requires cfg.format == Text || cfg.format == Crumb
    ensures AllWritable(MachineOf(cfg), ns) <==> AllNamed(ns)
  {
    WritableIff(cfg, ns);
    PlainFit(cfg, ns);
  }

  /**
   For every document tree, in text, JSON and XML: the run ends without an abort exactly when no name is empty and every
   name and value fits the encoder's buffer, and then the document is the pretty-printed tree and the indent is back at
   zero.
   */
  lemma EmitPrints(cfg: Config, rel: Release, ns: Nodes)
    requires cfg.format != Crumb && Members(ns)
    ensures var r := Emit(cfg, rel, AllCalls(ns));
            (r.Some? <==> AllNamed(ns) && AllFit(cfg, ns))
            && (r.Some? ==> r.value.doc == PrintDocument(cfg, rel, ns) && r.value.indent == 0)
  {
    WritableIff(cfg, ns);
    if AllWritable(MachineOf(cfg), ns) {
      match cfg.format
      case Text => EmitText(cfg, rel, ns);
      case Json => EmitJson(cfg, rel, ns);
      case Xml => EmitXml(cfg, rel, ns);
    } else {
      var begun := MasterHeader(cfg, rel, START);
      if begun.Some? {
        RunNeedsWritable(cfg, begun.value, ns);
      }
    }
  }
}
