/**
 What holds in every reachable state of a well-nested run. The machine keeps no stack; the stack here exists only in
 the statement, to say which runs are well nested and how deep they are.
 */
module Nesting {
  import opened Prelude
  import opened Encoding
  import opened Document
  import opened Layout
  import opened Render
  import opened Emission

  datatype Frame = InSection | InContainer | InObject

  /** The open groups, innermost first. */
  datatype Stack = Ground | On(top: Frame, below: Stack)

  predicate TakesMembers(f: Format, stack: Stack) {
    if stack.Ground? then f != Json else stack.top != InContainer
  }

  predicate TakesObjects(f: Format, stack: Stack) {
    if stack.Ground? then f == Json else stack.top == InContainer
  }

  predicate Tops(stack: Stack, frame: Frame) {
    stack.On? && stack.top == frame
  }

  /** The open groups after a call, if the call is allowed where it stands. */
  function Nest(f: Format, stack: Stack, c: Call): Option<Stack> {
    match c
    case EntryCall(_, _) => if TakesMembers(f, stack) then Some(stack) else None
    case SectionOpenCall(_) => if TakesMembers(f, stack) then Some(On(InSection, stack)) else None
    case ContainerOpenCall(_) => if TakesMembers(f, stack) then Some(On(InContainer, stack)) else None
    case ObjectOpenCall => if TakesObjects(f, stack) then Some(On(InObject, stack)) else None
    case SectionCloseCall => if Tops(stack, InSection) then Some(stack.below) else None
    case ContainerCloseCall => if Tops(stack, InContainer) then Some(stack.below) else None
    case ObjectCloseCall => if Tops(stack, InObject) then Some(stack.below) else None
  }

  /** The open groups after a run of calls; `None` if the run is not well nested. */
  function NestAll(f: Format, stack: Stack, calls: seq<Call>): Option<Stack>
    decreases |calls|
  {
    if calls == [] then Some(stack)
    else
      match Nest(f, stack, calls[0])
      case None => None
      case Some(next) => NestAll(f, next, calls[1..])
  }

  /** Every group was opened where its kind is allowed. */
  predicate Grown(f: Format, stack: Stack) {
    stack.Ground? ||
    (Grown(f, stack.below)
     && if stack.top == InObject then TakesObjects(f, stack.below) else TakesMembers(f, stack.below))
  }

  /** The open groups the format shows. */
  function Shown(f: Format, stack: Stack): Stack {
    if f == Json || stack.Ground? then stack
    else if stack.top == InObject then Shown(f, stack.below)
    else On(stack.top, Shown(f, stack.below))
  }

  function Height(stack: Stack): nat {
    if stack.Ground? then 0 else 1 + Height(stack.below)
  }

  /** Open groups shown, less one if the current element is an open, plus one for the XML root. */
  function Level(f: Format, shown: Stack, current: Element): int {
    Height(shown) - (if IsOpen(current) then 1 else 0) + (if f == Xml then 1 else 0)
  }

  /** What the current element says about the innermost group shown. */
  predicate Fitting(f: Format, shown: Stack, e: Element) {
    match e
    case NoElement => shown == Ground
    case SectionOpen => Tops(shown, InSection)
    case ContainerOpen => Tops(shown, InContainer)
    case ObjectOpen => f == Json && Tops(shown, InObject)
    case ObjectClose => f == Json && TakesObjects(f, shown)
    case _ => f == Json ==> TakesMembers(f, shown)
  }

  /** The invariant of every reachable state. */
  predicate Placed(cfg: Config, stack: Stack, st: State) {
    var shown := Shown(cfg.format, stack);
    Grown(cfg.format, stack) && Fitting(cfg.format, shown, st.current)
    && st.indent == cfg.indentAmount * Level(cfg.format, shown, st.current)
  }

  // ----- every step keeps the invariant

  /** The change of indent level the tables give for an allowed call, by the shape of the two elements alone. */
  function Shift(last: Element, cur: Element): int {
    if IsOpen(last) then (if IsClose(cur) then 0 else 1) else if IsClose(cur) then -1 else 0
  }

  lemma {:induction false} AllowedLead(f: Format, stack: Stack, e: Element, c: Call)
    requires f != Crumb && !Ignored(f, c) && Nest(f, stack, c).Some? && Fitting(f, Shown(f, stack), e)
    ensures var lead := LeadFor(f, e, ElementOf(c)); lead.Some? && lead.value.shift == Shift(e, ElementOf(c))
    ensures IsClose(ElementOf(c)) ==> Height(Shown(f, stack)) > 0
  {
  }

  lemma {:induction false} AfterCall(f: Format, stack: Stack, c: Call, e: Element)
    requires Grown(f, stack) && !Ignored(f, c) && Nest(f, stack, c).Some?
    ensures var after := Nest(f, stack, c).value;
            Grown(f, after) && Fitting(f, Shown(f, after), ElementOf(c))
            && Level(f, Shown(f, after), ElementOf(c)) == Level(f, Shown(f, stack), e) + Shift(e, ElementOf(c))
  {
    HeightMoves(f, stack, c);
    FittingNext(f, stack, c);
  }

  lemma {:induction false} HeightMoves(f: Format, stack: Stack, c: Call)
    requires !Ignored(f, c) && Nest(f, stack, c).Some?
    ensures Height(Shown(f, Nest(f, stack, c).value))
         == Height(Shown(f, stack)) + (if IsOpen(ElementOf(c)) then 1 else if IsClose(ElementOf(c)) then -1 else 0)
  {
  }

  lemma {:induction false} FittingNext(f: Format, stack: Stack, c: Call)
    requires Grown(f, stack) && !Ignored(f, c) && Nest(f, stack, c).Some?
    ensures Grown(f, Nest(f, stack, c).value) && Fitting(f, Shown(f, Nest(f, stack, c).value), ElementOf(c))
  {
  }

  lemma StepMoves(cfg: Config, st: State, c: Call, k: int)
    requires cfg.format != Crumb && !Ignored(cfg.format, c) && CallOk(cfg, c) && st.indent == cfg.indentAmount * k
    requires var e := ElementOf(c);
             var lead := LeadFor(cfg.format, st.current, e);
             lead.Some? && lead.value.shift == Shift(st.current, e) && (Shift(st.current, e) < 0 ==> k >= 1)
    ensures var r := Apply(cfg, st, c);
            r.Some? && r.value.current == ElementOf(c)
            && r.value.indent == cfg.indentAmount * (k + Shift(st.current, ElementOf(c)))
  {
  }

  /**
   One allowed call from a placed state: no switch falls through, `dec_indent` stays above zero, the invariant holds
   again.
   */
  lemma {:induction false} StepKeepsPlace(cfg: Config, stack: Stack, st: State, c: Call)
    requires cfg.format != Crumb && Placed(cfg, stack, st) && Nest(cfg.format, stack, c).Some? && Fine(cfg, c)
    ensures var r := Apply(cfg, st, c); r.Some? && Placed(cfg, Nest(cfg.format, stack, c).value, r.value)
  {
    var f := cfg.format;
    FineIsOk(cfg, c);
    if !Ignored(f, c) {
      AllowedLead(f, stack, st.current, c);
      AfterCall(f, stack, c, st.current);
      StepMoves(cfg, st, c, Level(f, Shown(f, stack), st.current));
    }
  }

  /** Every text of the run can be written. */
  lemma FineIsOk(cfg: Config, c: Call)
    ensures Fine(cfg, c) <==> CallOk(cfg, c)
  {
    assert AllNamed(Nil) && AllFit(cfg, Nil);
  }

  predicate AllOk(cfg: Config, calls: seq<Call>) {
    forall c :: c in calls ==> Fine(cfg, c)
  }

  /** The texts of the call can be written. */
  predicate Fine(cfg: Config, c: Call) {
    match c
    case EntryCall(name, value) => Named(Entry(name, value)) && NodeFits(cfg, Entry(name, value))
    case SectionOpenCall(name) => Named(Section(name, Nil)) && NodeFits(cfg, Section(name, Nil))
    case ContainerOpenCall(name) => Named(Container(name, Nil)) && NodeFits(cfg, Container(name, Nil))
    case _ => true
  }

  lemma {:induction false} RunKeepsPlace(cfg: Config, stack: Stack, st: State, calls: seq<Call>)
    requires cfg.format != Crumb && Placed(cfg, stack, st) && NestAll(cfg.format, stack, calls).Some?
    ensures var r := Run(Stepper(cfg), st, calls);
            (r.Some? <==> AllOk(cfg, calls))
            && (r.Some? ==> Placed(cfg, NestAll(cfg.format, stack, calls).value, r.value))
    decreases |calls|
  {
    if calls != [] {
      assert calls == [calls[0]] + calls[1..];
      FineIsOk(cfg, calls[0]);
      if Fine(cfg, calls[0]) {
        StepKeepsPlace(cfg, stack, st, calls[0]);
        RunKeepsPlace(cfg, Nest(cfg.format, stack, calls[0]).value, Stepper(cfg)(st, calls[0]).value, calls[1..]);
      }
    }
  }

  /** The groups open when `master_header` is done: JSON has opened its root object. */
  function Root(f: Format): Stack {
    if f == Json then On(InObject, Ground) else Ground
  }

  lemma HeaderPlaced(cfg: Config, rel: Release)
    requires cfg.format != Crumb
    ensures var begun := MasterHeader(cfg, rel, START); begun.Some? && Placed(cfg, Root(cfg.format), begun.value)
  {
    assert cfg.indentAmount * 1 == cfg.indentAmount;
    if cfg.format == Json {
      StepKeepsPlace(cfg, Ground, START, ObjectOpenCall);
    }
  }

  /**
   After the header and every prefix of every well-nested run, the machine has aborted exactly when some text so far
   could not be written, and else its indent is the indent amount times the number of open groups, less one if the
   current element is an open, plus one for the XML root.
   */
  lemma IndentInvariant(cfg: Config, rel: Release, calls: seq<Call>, k: nat)
    requires cfg.format != Crumb && NestAll(cfg.format, Root(cfg.format), calls).Some? && k <= |calls|
    ensures var begun := MasterHeader(cfg, rel, START);
            var stack := NestAll(cfg.format, Root(cfg.format), calls[..k]);
            begun.Some? && stack.Some?
            && var r := Run(Stepper(cfg), begun.value, calls[..k]);
               (r.Some? <==> AllOk(cfg, calls[..k]))
               && (r.Some? ==>
                     r.value.indent
                     == cfg.indentAmount * Level(cfg.format, Shown(cfg.format, stack.value), r.value.current))
  {
    PrefixNests(cfg.format, Root(cfg.format), calls, k);
    HeaderPlaced(cfg, rel);
    RunKeepsPlace(cfg, Root(cfg.format), MasterHeader(cfg, rel, START).value, calls[..k]);
  }

  lemma PrefixNests(f: Format, stack: Stack, calls: seq<Call>, k: nat)
    requires NestAll(f, stack, calls).Some? && k <= |calls|
    ensures NestAll(f, stack, calls[..k]).Some?
  {
    assert calls == calls[..k] + calls[k..];
    NestAllConcat(f, stack, calls[..k], calls[k..]);
  }

  // ----- trees give well-nested runs

  lemma {:induction false} NestAllConcat(f: Format, stack: Stack, a: seq<Call>, b: seq<Call>)
    ensures NestAll(f, stack, a + b)
         == match NestAll(f, stack, a) case None => None case Some(mid) => NestAll(f, mid, b)
    decreases |a|
  {
    if a == [] {
      assert a + b == b;
    } else {
      assert (a + b)[0] == a[0] && (a + b)[1..] == a[1..] + b;
      match Nest(f, stack, a[0])
      case None =>
      case Some(next) => NestAllConcat(f, next, a[1..], b);
    }
  }

  lemma NestOne(f: Format, stack: Stack, c: Call)
    ensures NestAll(f, stack, [c]) == Nest(f, stack, c)
  {
  }

  /** A node goes where its kind is taken, and leaves the open groups as it found them. */
  lemma {:induction false} NodeNests(f: Format, stack: Stack, n: Node)
    requires Formed(n) && if n.Object? then TakesObjects(f, stack) else TakesMembers(f, stack)
    ensures NestAll(f, stack, Calls(n)) == Some(stack)
    decreases n, 0
  {
    NestOne(f, stack, FirstCall(n));
    if !n.Entry? {
      var inner := Nest(f, stack, OpenCall(n)).value;
      var rest := AllCalls(n.children) + [CloseCall(n)];
      assert Calls(n) == [OpenCall(n)] + rest;
      NestAllConcat(f, stack, [OpenCall(n)], rest);
      NodesNest(f, inner, n.children);
      NestAllConcat(f, inner, AllCalls(n.children), [CloseCall(n)]);
      NestOne(f, inner, CloseCall(n));
    }
  }

  lemma {:induction false} NodesNest(f: Format, stack: Stack, ns: Nodes)
    requires (Members(ns) && TakesMembers(f, stack)) || (Objects(ns) && TakesObjects(f, stack))
    ensures NestAll(f, stack, AllCalls(ns)) == Some(stack)
    decreases ns, 0
  {
    if ns.Cons? {
      NodeNests(f, stack, ns.head);
      NodesNest(f, stack, ns.tail);
      NestAllConcat(f, stack, Calls(ns.head), AllCalls(ns.tail));
    }
  }

  /** Every document tree is such a run, and it leaves open only what the header opened. */
  lemma DocumentsNest(f: Format, ns: Nodes)
    requires Members(ns)
    ensures NestAll(f, Root(f), AllCalls(ns)) == Some(Root(f))
  {
    NodesNest(f, Root(f), ns);
  }
}
