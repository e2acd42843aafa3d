/**
 Breadcrumb output: one line per entry, each prefixed by the names on the way from the root to it.
 */
module Crumbs {
  import opened Prelude
  import opened Encoding
  import opened Document
  import opened Layout
  import opened Render
  import opened Emission
  import opened Cleaning
  import opened TextLines
  import opened CleanedLines
  import opened ShownLines
  import opened FirmTexts

  /** The lines of a list of nodes below `path`, in document order. */
  function CrumbLines(cfg: Config, path: seq<string>, ns: Nodes): string
    decreases ns
  {
    match ns
    case Nil => ""
    case Cons(Entry(name, value), tail) =>
      CrumbPrefix(cfg, path) + Body(cfg, EntryCall(name, value)) + CrumbLines(cfg, path, tail)
    case Cons(Object(children), tail) => CrumbLines(cfg, path, children) + CrumbLines(cfg, path, tail)
    case Cons(Section(name, children), tail) => CrumbLines(cfg, path + [name], children) + CrumbLines(cfg, path, tail)
    case Cons(Container(name, children), tail) => CrumbLines(cfg, path + [name], children) + CrumbLines(cfg, path, tail)
  }

  /** The run has reached a document and a stack of crumbs. */
  ghost predicate At(r: Option<State>, doc: string, crumbs: seq<string>) {
    r.Some? && r.value.doc == doc && r.value.crumbs == Some(crumbs)
  }

  function PathOf(st: State): seq<string> {
    if st.crumbs.Some? then st.crumbs.value else []
  }

  // ----- single calls

  lemma EntryLine(cfg: Config, st: State, name: string, value: string)
    requires cfg.format == Crumb && CallOk(cfg, EntryCall(name, value)) && st.crumbs.Some?
    ensures At(Apply(cfg, st, EntryCall(name, value)),
               st.doc + (CrumbPrefix(cfg, st.crumbs.value) + Body(cfg, EntryCall(name, value))), st.crumbs.value)
  {
  }

  lemma OpenCrumb(cfg: Config, st: State, n: Node)
    requires cfg.format == Crumb && (n.Section? || n.Container?) && CallOk(cfg, OpenCall(n))
    ensures At(Apply(cfg, st, OpenCall(n)), st.doc, PathOf(st) + [n.name])
  {
  }

  lemma CloseCrumb(cfg: Config, st: State, n: Node, path: seq<string>)
    requires cfg.format == Crumb && (n.Section? || n.Container?) && st.crumbs == Some(path + [n.name])
    ensures At(Apply(cfg, st, CloseCall(n)), st.doc, path)
  {
  }

  // ----- the ring is a stack

  /** A stretch of a run from one document and stack to another. */
  ghost predicate Moves(step: Step, st: State, calls: seq<Call>, text: string, crumbs: seq<string>) {
    At(Run(step, st, calls), st.doc + text, crumbs)
  }

  lemma MovesOn(step: Step, st: State, a: seq<Call>, b: seq<Call>, t: string, u: string, p: seq<string>, q: seq<string>)
    requires Moves(step, st, a, t, p) && Moves(step, Run(step, st, a).value, b, u, q)
    ensures Moves(step, st, a + b, t + u, q)
  {
    RunConcat(step, st, a, b);
    Regroup(st.doc, t, u);
  }

  /** A step that does nothing but what the single-call lemmas say. */
  ghost predicate CrumbMachine(cfg: Config, step: Step) {
    (forall st: State, name: string, value: string {:trigger step(st, EntryCall(name, value))} ::
       CallOk(cfg, EntryCall(name, value)) && st.crumbs.Some? ==>
         At(step(st, EntryCall(name, value)),
            st.doc + (CrumbPrefix(cfg, st.crumbs.value) + Body(cfg, EntryCall(name, value))), st.crumbs.value))
    && (forall st: State, n: Node {:trigger step(st, OpenCall(n))} ::
          (n.Section? || n.Container?) && CallOk(cfg, OpenCall(n)) ==>
            At(step(st, OpenCall(n)), st.doc, PathOf(st) + [n.name]))
    && (forall st: State, n: Node, path: seq<string> {:trigger step(st, CloseCall(n)), path + [n.name]} ::
          (n.Section? || n.Container?) && st.crumbs == Some(path + [n.name]) ==>
            At(step(st, CloseCall(n)), st.doc, path))
    && (forall st: State :: step(st, ObjectOpenCall) == Some(st) && step(st, ObjectCloseCall) == Some(st))
  }

  lemma IsCrumbMachine(cfg: Config)
    requires cfg.format == Crumb
    ensures CrumbMachine(cfg, Stepper(cfg))
  {
    forall st: State, name: string, value: string | CallOk(cfg, EntryCall(name, value)) && st.crumbs.Some?
      ensures At(Apply(cfg, st, EntryCall(name, value)),
                 st.doc + (CrumbPrefix(cfg, st.crumbs.value) + Body(cfg, EntryCall(name, value))), st.crumbs.value)
    {
      EntryLine(cfg, st, name, value);
    }
    forall st: State, n: Node | (n.Section? || n.Container?) && CallOk(cfg, OpenCall(n))
      ensures At(Apply(cfg, st, OpenCall(n)), st.doc, PathOf(st) + [n.name])
    {
      OpenCrumb(cfg, st, n);
    }
    forall st: State, n: Node, path: seq<string> | (n.Section? || n.Container?) && st.crumbs == Some(path + [n.name])
      ensures At(Apply(cfg, st, CloseCall(n)), st.doc, path)
    {
      CloseCrumb(cfg, st, n, path);
    }
  }

  lemma {:induction false} GroupMoves(cfg: Config, m: Machine, st: State, n: Node)
    requires CrumbMachine(cfg, m.step) && (n.Section? || n.Container?) && Writable(m, n)
             && m.sayable == MachineOf(cfg).sayable
    ensures Moves(m.step, st, Calls(n), CrumbLines(cfg, PathOf(st) + [n.name], n.children), PathOf(st))
    decreases n, 0
  {
    var path, open, close := PathOf(st), OpenCall(n), CloseCall(n);
    var text := CrumbLines(cfg, path + [n.name], n.children);
    RunOne(m.step, st, open);
    var begun := m.step(st, open).value;
    NodesMove(cfg, m, begun, n.children);
    var written := Run(m.step, begun, AllCalls(n.children)).value;
    RunOne(m.step, written, close);
    assert st.doc + "" == st.doc;
    assert written.doc + "" == written.doc;
    MovesOn(m.step, begun, AllCalls(n.children), [close], text, "", path + [n.name], path);
    MovesOn(m.step, st, [open], AllCalls(n.children) + [close], "", text + "", path + [n.name], path);
    assert "" + (text + "") == text;
    assert Calls(n) == [open] + (AllCalls(n.children) + [close]);
  }

  /** From a state with crumbs, nodes write their lines and leave the crumbs as they found them. */
  lemma {:induction false} NodesMove(cfg: Config, m: Machine, st: State, ns: Nodes)
    requires CrumbMachine(cfg, m.step) && AllWritable(m, ns) && st.crumbs.Some? && m.sayable == MachineOf(cfg).sayable
    ensures Moves(m.step, st, AllCalls(ns), CrumbLines(cfg, st.crumbs.value, ns), st.crumbs.value)
    decreases ns, 1
  {
    var path := st.crumbs.value;
    if ns.Nil? {
      assert st.doc + "" == st.doc;
    } else {
      var text := CrumbLines(cfg, path, Cons(ns.head, Nil));
      NodeMoves(cfg, m, st, ns.head);
      NodesMove(cfg, m, Run(m.step, st, Calls(ns.head)).value, ns.tail);
      MovesOn(m.step, st, Calls(ns.head), AllCalls(ns.tail), text, CrumbLines(cfg, path, ns.tail), path, path);
      LinesHead(cfg, path, ns.head, ns.tail);
    }
  }

  lemma LinesHead(cfg: Config, path: seq<string>, n: Node, tail: Nodes)
    ensures CrumbLines(cfg, path, Cons(n, tail)) == CrumbLines(cfg, path, Cons(n, Nil)) + CrumbLines(cfg, path, tail)
  {
  }

  lemma {:induction false} NodeMoves(cfg: Config, m: Machine, st: State, n: Node)
    requires CrumbMachine(cfg, m.step) && Writable(m, n) && st.crumbs.Some? && m.sayable == MachineOf(cfg).sayable
    ensures Moves(m.step, st, Calls(n), CrumbLines(cfg, st.crumbs.value, Cons(n, Nil)), st.crumbs.value)
    decreases n, 1
  {
    var path := st.crumbs.value;
    match n
    case Entry(name, value) =>
      RunOne(m.step, st, EntryCall(name, value));
      var line := CrumbPrefix(cfg, path) + Body(cfg, EntryCall(name, value));
      assert line + "" == line;
    case Object(children) =>
      RunOne(m.step, st, ObjectOpenCall);
      NodesMove(cfg, m, st, children);
      var text := CrumbLines(cfg, path, children);
      var written := Run(m.step, st, AllCalls(children)).value;
      RunOne(m.step, written, ObjectCloseCall);
      assert st.doc + "" == st.doc && written.doc + "" == written.doc;
      MovesOn(m.step, st, AllCalls(children), [ObjectCloseCall], text, "", path, path);
      MovesOn(m.step, st, [ObjectOpenCall], AllCalls(children) + [ObjectCloseCall], "", text + "", path, path);
      assert "" + (text + "") == text + "";
      assert Calls(n) == [ObjectOpenCall] + (AllCalls(children) + [ObjectCloseCall]);
    case _ =>
      GroupMoves(cfg, m, st, n);
      var text := CrumbLines(cfg, path + [n.name], n.children);
      assert text + "" == text;
  }

  // ----- the lines are the flattening of the tree

  /** An entry and the names of the groups around it, outermost first. */
  datatype Leaf = Leaf(path: seq<string>, name: string, value: string)

  function Leaves(path: seq<string>, ns: Nodes): seq<Leaf>
    decreases ns
  {
    match ns
    case Nil => []
    case Cons(Entry(name, value), tail) => [Leaf(path, name, value)] + Leaves(path, tail)
    case Cons(Object(children), tail) => Leaves(path, children) + Leaves(path, tail)
    case Cons(Section(name, children), tail) => Leaves(path + [name], children) + Leaves(path, tail)
    case Cons(Container(name, children), tail) => Leaves(path + [name], children) + Leaves(path, tail)
  }

  /** A line: each name of the path and the separator, then name, text separator, value and newline. */
  function Line(cfg: Config, leaf: Leaf): string {
    Path(cfg.crumbSeparator, leaf.path) + leaf.name + cfg.textSeparator + leaf.value + "\n"
  }

  function Joined(cfg: Config, leaves: seq<Leaf>): string {
    if leaves == [] then "" else Line(cfg, leaves[0]) + Joined(cfg, leaves[1..])
  }

  lemma {:induction false} JoinedConcat(cfg: Config, a: seq<Leaf>, b: seq<Leaf>)
    ensures Joined(cfg, a + b) == Joined(cfg, a) + Joined(cfg, b)
  {
    if a == [] {
      assert a + b == b;
    } else {
      assert (a + b)[0] == a[0] && (a + b)[1..] == a[1..] + b;
      JoinedConcat(cfg, a[1..], b);
    }
  }

  lemma {:induction false} LinesAreLeaves(cfg: Config, path: seq<string>, ns: Nodes)
    requires cfg.format == Crumb
    ensures CrumbLines(cfg, path, ns) == Joined(cfg, Leaves(path, ns))
    decreases ns
  {
    match ns
    case Nil =>
    case Cons(head, tail) =>
      LinesAreLeaves(cfg, path, tail);
      if head.Entry? {
        var leaf := Leaf(path, head.name, head.value);
        JoinedConcat(cfg, [leaf], Leaves(path, tail));
        assert [leaf][1..] == [];
        assert Line(cfg, leaf) + "" == Line(cfg, leaf);
        PrefixIsPath(cfg, path);
        LineIs(CrumbPrefix(cfg, path), head.name, cfg.textSeparator, head.value);
      } else {
        var inner := if head.Object? then path else path + [head.name];
        LinesAreLeaves(cfg, inner, head.children);
        JoinedConcat(cfg, Leaves(inner, head.children), Leaves(path, tail));
      }
  }

  lemma LineIs(prefix: string, name: string, sep: string, value: string)
    ensures prefix + (name + sep + value + "\n") == prefix + name + sep + value + "\n"
  {
  }

  /** A document whose first member is an entry: `entry` finds no list of crumbs. */
  predicate StartsWithEntry(ns: Nodes) {
    ns.Cons? && ns.head.Entry?
  }

  lemma EntryWithoutCrumbs(cfg: Config, ns: Nodes)
    requires cfg.format == Crumb && StartsWithEntry(ns)
    ensures Run(Stepper(cfg), START, AllCalls(ns)).None?
  {
  }

  lemma RunCrumbs(cfg: Config, ns: Nodes)
    requires cfg.format == Crumb && Members(ns) && AllWritable(MachineOf(cfg), ns) && !StartsWithEntry(ns)
    ensures var r := Run(Stepper(cfg), START, AllCalls(ns));
            r.Some? && r.value.doc == Joined(cfg, Leaves([], ns)) && PathOf(r.value) == []
  {
    var m := MachineOf(cfg);
    IsCrumbMachine(cfg);
    LinesAreLeaves(cfg, [], ns);
    if ns.Cons? {
      GroupMoves(cfg, m, START, ns.head);
      var first := Run(m.step, START, Calls(ns.head)).value;
      NodesMove(cfg, m, first, ns.tail);
      var text := CrumbLines(cfg, [] + [ns.head.name], ns.head.children);
      MovesOn(m.step, START, Calls(ns.head), AllCalls(ns.tail), text, CrumbLines(cfg, [], ns.tail), [], []);
      assert "" + CrumbLines(cfg, [], ns) == CrumbLines(cfg, [], ns);
    }
  }

  /**
   For every document: the run in crumb format aborts exactly when a name is empty or the document
   starts with an entry outside any group; otherwise each entry is one line prefixed by the names on its path, in
   document order, and no crumb is left.
   */
  lemma EmitCrumbs(cfg: Config, rel: Release, ns: Nodes)
    requires cfg.format == Crumb && Members(ns)
    ensures var r := Emit(cfg, rel, AllCalls(ns));
            (r.Some? <==> AllNamed(ns) && !StartsWithEntry(ns))
            && (r.Some? ==> r.value.doc == Joined(cfg, Leaves([], ns)) + "\n" && PathOf(r.value) == [])
  {
    WritableIsNamed(cfg, ns);
    RunNeedsWritable(cfg, START, ns);
    if StartsWithEntry(ns) {
      EntryWithoutCrumbs(cfg, ns);
    } else if AllWritable(MachineOf(cfg), ns) {
      RunCrumbs(cfg, ns);
    }
  }

  // ----- after the clean-up

  /** A line without its newline. */
  function CrumbText(cfg: Config, leaf: Leaf): string {
    Path(cfg.crumbSeparator, leaf.path) + leaf.name + cfg.textSeparator + leaf.value
  }

  function CrumbTexts(cfg: Config, leaves: seq<Leaf>): (lines: seq<string>)
    ensures |lines| == |leaves|
  {
    if leaves == [] then [] else [CrumbText(cfg, leaves[0])] + CrumbTexts(cfg, leaves[1..])
  }

  lemma {:induction false} JoinedIsUnlines(cfg: Config, leaves: seq<Leaf>)
    ensures Joined(cfg, leaves) == Unlines(CrumbTexts(cfg, leaves))
  {
    if leaves != [] {
      JoinedIsUnlines(cfg, leaves[1..]);
      Regroup(CrumbText(cfg, leaves[0]), "\n", Joined(cfg, leaves[1..]));
      assert CrumbTexts(cfg, leaves)[1..] == CrumbTexts(cfg, leaves[1..]);
    }
  }

  /** An entry's text may hold newlines of its own. */
  function CrumbTextLines(cfg: Config, leaves: seq<Leaf>): (lines: seq<string>)
    ensures NoNewlines(lines) && (leaves != [] ==> lines != [])
  {
    Physical(CrumbTexts(cfg, leaves))
  }

  /**
   For every breadcrumb document with an entry: the clean-up can be applied exactly when some line holds something
   other than indent, and it leaves exactly those lines if and only if the first is not empty and all before the last
   are steady; with the final newline, unless it is cut.
   */
  lemma CleanCrumbs(cfg: Config, leaves: seq<Leaf>)
    requires leaves != []
    ensures var c, d, lines := cfg.indentChar, Joined(cfg, leaves) + "\n", CrumbTextLines(cfg, leaves);
            (HasSolid(c, d) <==> HasText(c, lines))
            && (HasText(c, lines) ==>
                  (Shows(CleanedUp(c, d), Unlines(StripLast(c, Texts(c, lines))), EndsCut(c, lines))
                   <==> lines[0] != "" && Smooth(c, lines, false))
                  && (EndsLine(CleanedUp(c, d)) <==> !EndsCut(c, lines)))
  {
    JoinedIsUnlines(cfg, leaves);
    PhysicalUnlines(CrumbTexts(cfg, leaves));
    CleanTextsAndEmpty(cfg.indentChar, CrumbTextLines(cfg, leaves));
  }

  /** Lines that are firm are all there, and so is the final newline. */
  lemma FirmLinesStay(c: char, lines: seq<string>)
    requires AllFirm(c, lines) && lines != []
    ensures Texts(c, lines) == lines && Smooth(c, lines, false) && !EndsCut(c, lines)
  {
    FirmAreTexts(c, Unsteady(c), lines);
    FirmAreTexts(c, Doubled(c), lines);
    FirmAreTexts(c, IsEmpty(), lines);
    TrimmedTexts(c, Doubled(c), lines);
    TrimmedTexts(c, IsEmpty(), lines);
    TrimmedLines(c, lines);
    SingleExact(c, Trimmed(c, lines));
  }
}
