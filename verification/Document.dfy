/**
 Documents as trees, and the stream of output calls (src/output.c) that produces one.
 A section is a named group of members, a container a named list of objects, an object an anonymous group of
 members, an entry a name and a value.
 */
module Document {
  datatype Node =
    | Entry(name: string, value: string)
    | Section(name: string, children: Nodes)
    | Container(name: string, children: Nodes)
    | Object(children: Nodes)

  datatype Nodes = Nil | Cons(head: Node, tail: Nodes)

  /** Entries, sections and containers, and so on inside them. */
  predicate Members(ns: Nodes) {
    ns.Cons? ==> !ns.head.Object? && Formed(ns.head) && Members(ns.tail)
  }

  predicate Objects(ns: Nodes) {
    ns.Cons? ==> ns.head.Object? && Formed(ns.head) && Objects(ns.tail)
  }

  predicate Formed(n: Node) {
    match n
    case Entry(_, _) => true
    case Section(_, children) => Members(children)
    case Container(_, children) => Objects(children)
    case Object(children) => Members(children)
  }

  // ----- the calls

  datatype Call =
    | EntryCall(name: string, value: string)
    | SectionOpenCall(name: string)
    | SectionCloseCall
    | ContainerOpenCall(name: string)
    | ContainerCloseCall
    | ObjectOpenCall
    | ObjectCloseCall

  function OpenCall(n: Node): Call
    requires !n.Entry?
  {
    match n
    case Section(name, _) => SectionOpenCall(name)
    case Container(name, _) => ContainerOpenCall(name)
    case Object(_) => ObjectOpenCall
  }

  function CloseCall(n: Node): Call
    requires !n.Entry?
  {
    match n
    case Section(_, _) => SectionCloseCall
    case Container(_, _) => ContainerCloseCall
    case Object(_) => ObjectCloseCall
  }

  /** The calls that emit one node. */
  function Calls(n: Node): seq<Call> {
    match n
    case Entry(name, value) => [EntryCall(name, value)]
    case _ => [OpenCall(n)] + AllCalls(n.children) + [CloseCall(n)]
  }

  function AllCalls(ns: Nodes): seq<Call> {
    match ns
    case Nil => []
    case Cons(head, tail) => Calls(head) + AllCalls(tail)
  }

  // ----- what a format without objects sees

  function Append(a: Nodes, b: Nodes): Nodes {
    match a
    case Nil => b
    case Cons(head, tail) => Cons(head, Append(tail, b))
  }

  /** The tree with every object replaced by its members. */
  function Flatten(ns: Nodes): Nodes {
    match ns
    case Nil => Nil
    case Cons(Object(children), tail) => Append(Flatten(children), Flatten(tail))
    case Cons(Entry(name, value), tail) => Cons(Entry(name, value), Flatten(tail))
    case Cons(Section(name, children), tail) => Cons(Section(name, Flatten(children)), Flatten(tail))
    case Cons(Container(name, children), tail) => Cons(Container(name, Flatten(children)), Flatten(tail))
  }

  /** No object anywhere. */
  predicate ObjectFree(ns: Nodes) {
    ns.Cons? ==> !ns.head.Object? && (ns.head.Entry? || ObjectFree(ns.head.children)) && ObjectFree(ns.tail)
  }

  lemma {:induction false} FlattenFlat(ns: Nodes)
    requires ObjectFree(ns)
    ensures Flatten(ns) == ns
  {
    if ns.Cons? {
      FlattenFlat(ns.tail);
      if !ns.head.Entry? {
        FlattenFlat(ns.head.children);
      }
    }
  }

  lemma {:induction false} AppendObjectFree(a: Nodes, b: Nodes)
    requires ObjectFree(a) && ObjectFree(b)
    ensures ObjectFree(Append(a, b))
  {
    if a.Cons? {
      AppendObjectFree(a.tail, b);
    }
  }

  lemma {:induction false} FlattenObjectFree(ns: Nodes)
    ensures ObjectFree(Flatten(ns))
  {
    match ns
    case Nil =>
    case Cons(head, tail) =>
      FlattenObjectFree(tail);
      if !head.Entry? {
        FlattenObjectFree(head.children);
      }
      if head.Object? {
        AppendObjectFree(Flatten(head.children), Flatten(tail));
      }
  }

  lemma {:induction false} AppendCalls(a: Nodes, b: Nodes)
    ensures AllCalls(Append(a, b)) == AllCalls(a) + AllCalls(b)
  {
    if a.Cons? {
      AppendCalls(a.tail, b);
    }
  }
}
