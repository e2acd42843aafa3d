/**
 The output state machine of src/output.c as a function from a state and a call to the next state. The machine has no
 stack: it knows its last two elements, the indent, the document so far and, for breadcrumbs, the names of the open
 groups.
 */
module Layout {
  import opened Prelude
  import opened Encoding
  import opened Decoding
  import opened EncodeBuffers
  import opened Document

  datatype Element =
    | NoElement
    | EntryElement
    | SectionOpen | SectionClose
    | ContainerOpen | ContainerClose
    | ObjectOpen | ObjectClose

  predicate IsOpen(e: Element) {
    e == SectionOpen || e == ContainerOpen || e == ObjectOpen
  }

  predicate IsClose(e: Element) {
    e == SectionClose || e == ContainerClose || e == ObjectClose
  }

  function ClosingOf(e: Element): Element
    requires IsOpen(e)
  {
    if e == SectionOpen then SectionClose else if e == ContainerOpen then ContainerClose else ObjectClose
  }

  /** What a user can set: format, indent, separators and the locale's idea of a printable character. */
  datatype Config = Config(
    format: Format,
    indentAmount: nat,
    indentChar: char,
    textSeparator: string,
    crumbSeparator: string,
    printable: char -> bool)

  ghost predicate ValidConfig(cfg: Config) {
    AsciiPrintable(cfg.printable) && cfg.indentChar != NUL && NoNul(cfg.textSeparator) && NoNul(cfg.crumbSeparator)
  }

  /** The indent is white space, or there is none. */
  predicate AiryConfig(cfg: Config) {
    cfg.indentAmount == 0 || IsSpace(cfg.indentChar)
  }

  /** What is written before an element: a separator, a change of indent level, and perhaps the indent itself. */
  datatype Lead = Lead(separator: string, shift: int, pad: bool)

  const NOTHING := Lead("", 0, false)

  /** `format_text_element`; `None` is a pair of elements the switch does not expect. */
  function TextLead(last: Element, cur: Element): Option<Lead> {
    if cur == NoElement then None
    else if last == NoElement then Some(Lead("", 0, cur != ObjectOpen && cur != ObjectClose))
    else if cur == ObjectOpen || cur == ObjectClose || last == ObjectOpen || last == ObjectClose then None
    else if IsOpen(last) then
      if !IsClose(cur) then Some(Lead("\n", 1, true)) else if cur == ClosingOf(last) then Some(NOTHING) else None
    else if IsClose(cur) then Some(Lead("\n", -1, true))
    else Some(Lead("\n", 0, true))
  }

  /** `format_json_element` */
  function JsonLead(last: Element, cur: Element): Option<Lead> {
    if cur == NoElement then None
    else
      match last
      case NoElement => Some(Lead("", 0, true))
      case SectionOpen =>
        if cur == SectionClose || cur == ObjectOpen then Some(NOTHING)
        else if IsClose(cur) then None else Some(Lead("\n", 1, true))
      case ContainerOpen =>
        if cur == ContainerClose then Some(NOTHING)
        else if IsClose(cur) then None else Some(Lead("\n", 1, true))
      case ObjectOpen =>
        if cur == ObjectClose then Some(NOTHING)
        else if IsClose(cur) || cur == ObjectOpen then None else Some(Lead("\n", 1, true))
      case ObjectClose =>
        if cur == ContainerClose || cur == SectionClose then Some(Lead("\n", -1, true))
        else if cur == ObjectOpen || cur == SectionOpen then Some(Lead(",\n", 0, true))
        else None
      case _ =>
        if IsClose(cur) then Some(Lead("\n", -1, true))
        else if cur == ObjectOpen then
          if last == EntryElement then None
          else if last == SectionClose then Some(NOTHING)
          else Some(Lead(",\n", 0, true))
        else Some(Lead(",\n", 0, true))
  }

  /** `format_xml_element` */
  function XmlLead(last: Element, cur: Element): Option<Lead> {
    if cur == NoElement then None
    else
      match last
      case NoElement => Some(Lead("", 0, true))
      case SectionOpen =>
        if cur == SectionClose then Some(Lead("\n", 0, true))
        else if IsClose(cur) || cur == ObjectOpen then None else Some(Lead("\n", 1, true))
      case ContainerOpen =>
        if cur == ContainerClose then Some(Lead("\n", 0, true))
        else if cur == ObjectOpen then Some(Lead("", 0, true))
        else if IsClose(cur) then None else Some(Lead("\n", 1, true))
      case ObjectOpen =>
        if cur == ObjectClose then Some(NOTHING)
        else if IsClose(cur) || cur == ObjectOpen then None else Some(Lead("\n", 1, true))
      case ObjectClose =>
        if cur == ObjectOpen || cur == SectionClose then Some(NOTHING)
        else if cur == ContainerClose || cur == EntryElement then Some(Lead("\n", -1, false))
        else None
      case EntryElement =>
        Some(Lead("\n", if IsClose(cur) then -1 else 0, true))
      case SectionClose =>
        if cur == ObjectOpen then None
        else Some(Lead("\n", if cur == SectionClose || cur == ContainerClose then -1 else 0, true))
      case ContainerClose =>
        if cur == ObjectOpen then None
        else Some(Lead("\n", if IsClose(cur) then -1 else 0, true))
  }

  function LeadFor(f: Format, last: Element, cur: Element): Option<Lead> {
    match f
    case Text => TextLead(last, cur)
    case Crumb => Some(NOTHING)
    case Json => JsonLead(last, cur)
    case Xml => XmlLead(last, cur)
  }

  // ----- states

  datatype State = State(
    last: Element,
    current: Element,
    indent: nat,
    doc: string,
    crumbs: Option<seq<string>>)

  const START := State(NoElement, NoElement, 0, "", None)

  function Pad(cfg: Config, indent: nat): string {
    Repeat(cfg.indentChar, indent)
  }

  function Shifted(cfg: Config, indent: nat, shift: int): nat
    requires shift < 0 ==> indent >= cfg.indentAmount
  {
    if shift < 0 then indent - cfg.indentAmount else if shift > 0 then indent + cfg.indentAmount else indent
  }

  /** Writes a lead: separator, then indent change, then indent. `dec_indent` must not go below zero. */
  function WriteLead(cfg: Config, st: State, lead: Lead): Option<State> {
    if lead.shift < 0 && st.indent < cfg.indentAmount then None
    else
      var indent := Shifted(cfg, st.indent, lead.shift);
      Some(st.(indent := indent, doc := st.doc + lead.separator + if lead.pad then Pad(cfg, indent) else ""))
  }

  function Lay(cfg: Config, st: State, lead: Option<Lead>): Option<State> {
    if lead.None? then None else WriteLead(cfg, st, lead.value)
  }

  /** `change_element` */
  function ChangeElement(cfg: Config, st: State, e: Element): Option<State> {
    Lay(cfg, st.(last := st.current, current := e), LeadFor(cfg.format, st.current, e))
  }

  // ----- calls

  function ElementOf(c: Call): Element {
    match c
    case EntryCall(_, _) => EntryElement
    case SectionOpenCall(_) => SectionOpen
    case SectionCloseCall => SectionClose
    case ContainerOpenCall(_) => ContainerOpen
    case ContainerCloseCall => ContainerClose
    case ObjectOpenCall => ObjectOpen
    case ObjectCloseCall => ObjectClose
  }

  /** Names must not be empty, and every text must fit the encoder's buffer. */
  predicate Sayable(cfg: Config, name: string) {
    name != "" && NoNul(name) && Fits(cfg.format, cfg.printable, name)
  }

  predicate CallOk(cfg: Config, c: Call) {
    match c
    case EntryCall(name, value) => Sayable(cfg, name) && NoNul(value) && Fits(cfg.format, cfg.printable, value)
    case SectionOpenCall(name) => Sayable(cfg, name)
    case ContainerOpenCall(name) => Sayable(cfg, name)
    case _ => true
  }

  function Quoted(cfg: Config, s: string): string {
    Encode(cfg.format, cfg.printable, s)
  }

  function OpenTag(tag: string, name: string): string {
    "<" + tag + " name=\"" + name + "\">"
  }

  function CloseTag(tag: string): string {
    "</" + tag + ">"
  }

  // ----- what each call writes, given encoded texts

  function SectionHead(f: Format, name: string): string {
    match f
    case Text => name + ":"
    case Crumb => ""
    case Json => "\"" + name + "\" : {"
    case Xml => OpenTag("section", name)
  }

  function ContainerHead(f: Format, name: string): string {
    match f
    case Text => name + ":"
    case Crumb => ""
    case Json => "\"" + name + "\" : ["
    case Xml => OpenTag("container", name)
  }

  function SectionTail(f: Format): string {
    match f
    case Json => "}"
    case Xml => CloseTag("section")
    case _ => ""
  }

  function ContainerTail(f: Format): string {
    match f
    case Json => "]"
    case Xml => CloseTag("container")
    case _ => ""
  }

  function EntryText(cfg: Config, name: string, value: string): string {
    match cfg.format
    case Text => name + cfg.textSeparator + value
    case Crumb => name + cfg.textSeparator + value + "\n"
    case Json => "\"" + name + "\" : \"" + value + "\""
    case Xml => OpenTag("entry", name) + value + CloseTag("entry")
  }

  /** The text of the element itself. */
  function Body(cfg: Config, c: Call): string {
    match c
    case EntryCall(name, value) => EntryText(cfg, Quoted(cfg, name), Quoted(cfg, value))
    case SectionOpenCall(name) => SectionHead(cfg.format, Quoted(cfg, name))
    case SectionCloseCall => SectionTail(cfg.format)
    case ContainerOpenCall(name) => ContainerHead(cfg.format, Quoted(cfg, name))
    case ContainerCloseCall => ContainerTail(cfg.format)
    case ObjectOpenCall => if cfg.format == Json then "{" else ""
    case ObjectCloseCall => if cfg.format == Json then "}" else ""
  }

  /** The names of the open groups, each followed by the separator. */
  function CrumbPrefix(cfg: Config, crumbs: seq<string>): string {
    if crumbs == [] then ""
    else CrumbPrefix(cfg, crumbs[..|crumbs| - 1]) + crumbs[|crumbs| - 1] + cfg.crumbSeparator
  }

  /** The same from the outermost name inwards. */
  function Path(separator: string, names: seq<string>): string {
    if names == [] then "" else names[0] + separator + Path(separator, names[1..])
  }

  lemma {:induction false} PathAppend(separator: string, names: seq<string>, last: string)
    ensures Path(separator, names + [last]) == Path(separator, names) + last + separator
  {
    var all := names + [last];
    if names == [] {
      assert all == [last] && all[1..] == [];
      assert last + separator + "" == "" + last + separator;
    } else {
      assert all[0] == names[0] && all[1..] == names[1..] + [last];
      PathAppend(separator, names[1..], last);
      RegroupFour(names[0] + separator, Path(separator, names[1..]), last, separator);
      Regroup(Path(separator, names[1..]), last, separator);
    }
  }

  lemma {:induction false} PrefixIsPath(cfg: Config, crumbs: seq<string>)
    ensures CrumbPrefix(cfg, crumbs) == Path(cfg.crumbSeparator, crumbs)
  {
    if crumbs != [] {
      var n := |crumbs| - 1;
      PrefixIsPath(cfg, crumbs[..n]);
      PathAppend(cfg.crumbSeparator, crumbs[..n], crumbs[n]);
      assert crumbs == crumbs[..n] + [crumbs[n]];
    }
  }

  /** What a call does to the breadcrumbs, and what it writes because of them. */
  function CrumbStep(cfg: Config, st: State, c: Call): Option<State> {
    match c
    case EntryCall(_, _) =>
      if st.crumbs.None? then None
      else Some(st.(doc := st.doc + CrumbPrefix(cfg, st.crumbs.value)))
    case SectionOpenCall(name) => Some(Push(st, name))
    case ContainerOpenCall(name) => Some(Push(st, name))
    case SectionCloseCall => Pop(st)
    case ContainerCloseCall => Pop(st)
    case _ => Some(st)
  }

  function Push(st: State, name: string): State {
    st.(crumbs := Some((if st.crumbs.None? then [] else st.crumbs.value) + [name]))
  }

  function Pop(st: State): Option<State> {
    if st.crumbs.None? || st.crumbs.value == [] then None
    else Some(st.(crumbs := Some(st.crumbs.value[..|st.crumbs.value| - 1])))
  }

  /** Objects exist only in JSON. */
  predicate Ignored(f: Format, c: Call) {
    f != Json && (c.ObjectOpenCall? || c.ObjectCloseCall?)
  }

  /** What a call does once the machine has moved to its element; `text` is what it writes. */
  function Say(cfg: Config, st: State, c: Call, text: string): Option<State> {
    match if cfg.format == Crumb then CrumbStep(cfg, st, c) else Some(st)
    case None => None
    case Some(st1) => Some(st1.(doc := st1.doc + text))
  }

  function Put(cfg: Config, st: State, c: Call, text: string): Option<State> {
    match ChangeElement(cfg, st, ElementOf(c))
    case None => None
    case Some(st1) => Say(cfg, st1, c, text)
  }

  /** One call. `None` stands for a run the source ends by `die` or a failed `assert`, or that leaves a buffer. */
  function Apply(cfg: Config, st: State, c: Call): Option<State> {
    if Ignored(cfg.format, c) then Some(st)
    else if !CallOk(cfg, c) then None
    else Put(cfg, st, c, Body(cfg, c))
  }

  // ----- runs

  type Step = (State, Call) -> Option<State>

  /** The machine a configuration gives, as a value. */
  function Stepper(cfg: Config): Step {
    (st: State, c: Call) => Apply(cfg, st, c)
  }

  /** A whole run of a machine. */
  function Run(step: Step, st: State, calls: seq<Call>): Option<State>
    decreases |calls|
  {
    if calls == [] then Some(st)
    else
      match step(st, calls[0])
      case None => None
      case Some(next) => Run(step, next, calls[1..])
  }

  lemma {:induction false} RunConcat(step: Step, st: State, a: seq<Call>, b: seq<Call>)
    ensures Run(step, st, a + b) == match Run(step, st, a) case None => None case Some(mid) => Run(step, mid, b)
    decreases |a|
  {
    if a == [] {
      assert a + b == b;
    } else {
      assert (a + b)[0] == a[0] && (a + b)[1..] == a[1..] + b;
      match step(st, a[0])
      case None =>
      case Some(next) => RunConcat(step, next, a[1..], b);
    }
  }

  lemma RunOne(step: Step, st: State, c: Call)
    ensures Run(step, st, [c]) == step(st, c)
  {
  }
}
