/**
 The emitted XML reads back as the document tree.
 */
module XmlRoundTrip {
  import opened Prelude
  import opened Decoding
  import opened Document
  import opened XmlReader

  // ----- from elements back to a document

  predicate AllSpace(s: string) {
    forall i :: 0 <= i < |s| ==> IsSpace(s[i])
  }

  /** The document a reader of procenv's XML sees: sections, containers and entries, with white space between them. */
  function TreeOf(xs: XNodes): Option<Nodes>
    decreases xs, 0
  {
    match xs
    case XNil => Some(Nil)
    case XCons(XText(text), tail) => if AllSpace(text) then TreeOf(tail) else None
    case XCons(XElement(tag, attributes, children), tail) =>
      match (NodeOf(tag, attributes, children), TreeOf(tail))
      case (Some(n), Some(ns)) => Some(Cons(n, ns))
      case _ => None
  }

  function NodeOf(tag: string, attributes: Attributes, children: XNodes): Option<Node>
    decreases children, 1
  {
    if !attributes.Attr? || attributes.name != "name" || attributes.more != NoAttributes then None
    else if tag == "entry" then
      match children
      case XNil => Some(Entry(attributes.value, ""))
      case XCons(XText(value), XNil) => Some(Entry(attributes.value, value))
      case _ => None
    else if tag != "section" && tag != "container" then None
    else
      match TreeOf(children)
      case None => None
      case Some(ns) => Some(if tag == "section" then Section(attributes.value, ns) else Container(attributes.value, ns))
  }

  // ----- the XML text of a tree, each piece written in front of what follows it

  /** Indent amount, indent character, string encoding and readers. */
  datatype Ink = Ink(amount: nat, pad: char, enc: string -> string, x: Readers)

  function TagOf(n: Node): string {
    match n
    case Entry(_, _) => "entry"
    case Section(_, _) => "section"
    case Container(_, _) => "container"
    case Object(_) => "object"
  }

  function NameOf(n: Node): string {
    if n.Object? then "" else n.name
  }

  function StartText(k: Ink, tag: string, name: string, rest: string): string {
    "<" + (tag + (" name=\"" + (k.enc(name) + ("\">" + rest))))
  }

  function EndText(tag: string, rest: string): string {
    "</" + (tag + (">" + rest))
  }

  function NodeText(k: Ink, i: nat, n: Node, rest: string): string
    decreases n, 0
  {
    var end := EndText(TagOf(n), rest);
    StartText(k, TagOf(n), NameOf(n),
              if n.Entry? then k.enc(n.value) + end else Lines(k, i + k.amount, n.children, i, end))
  }

  /** Nodes on lines of their own at indent `d`, then the line at indent `i` on which the end tag stands. */
  function Lines(k: Ink, d: nat, ns: Nodes, i: nat, rest: string): string
    decreases ns, 1
  {
    if ns.Nil? then "\n" + Repeat(k.pad, i) + rest
    else "\n" + Repeat(k.pad, d) + NodeText(k, d, ns.head, Lines(k, d, ns.tail, i, rest))
  }

  // ----- the elements a reader should see

  function ElementFor(k: Ink, i: nat, n: Node): XNode
    decreases n, 0
  {
    XElement(TagOf(n), Attr("name", NameOf(n), NoAttributes),
             if n.Entry? then WithText(n.value, XNil) else ContentFor(k, i + k.amount, n.children, i))
  }

  function ContentFor(k: Ink, d: nat, ns: Nodes, i: nat): XNodes
    decreases ns, 1
  {
    if ns.Nil? then XCons(XText("\n" + Repeat(k.pad, i)), XNil)
    else XCons(XText("\n" + Repeat(k.pad, d)), XCons(ElementFor(k, d, ns.head), ContentFor(k, d, ns.tail, i)))
  }

  predicate SpaceAt(k: Ink, i: nat) {
    (k.amount == 0 || IsSpace(k.pad)) && (i == 0 || IsSpace(k.pad))
  }

  /** Those elements are the document. */
  lemma {:induction false} ContentIsTree(k: Ink, d: nat, ns: Nodes, i: nat)
    requires ObjectFree(ns) && SpaceAt(k, d) && SpaceAt(k, i)
    ensures TreeOf(ContentFor(k, d, ns, i)) == Some(ns)
    decreases ns
  {
    if ns.Cons? {
      var n := ns.head;
      ContentIsTree(k, d, ns.tail, i);
      if !n.Entry? {
        ContentIsTree(k, d + k.amount, n.children, d);
      }
      assert NodeOf(TagOf(n), Attr("name", NameOf(n), NoAttributes), ElementFor(k, d, n).children) == Some(n);
    }
  }

  // ----- strings come back

  ghost predicate AttributeReads(k: Ink, s: string) {
    forall rest: string {:trigger k.x.attribute(k.enc(s) + ("\">" + rest))} ::
      k.x.attribute(k.enc(s) + ("\">" + rest)) == Some(Scan(s, "\">" + rest))
  }

  ghost predicate TextReads(k: Ink, s: string) {
    forall rest: string {:trigger k.x.content(k.enc(s) + rest)} ::
      rest != "" && rest[0] == '<' ==> k.x.content(k.enc(s) + rest) == Some(Scan(s, rest))
  }

  ghost predicate SpaceReads(k: Ink) {
    forall w: string, rest: string {:trigger k.x.content(w + rest)} ::
      AllSpace(w) && rest != "" && rest[0] == '<' ==> k.x.content(w + rest) == Some(Scan(w, rest))
  }

  ghost predicate Legible(k: Ink, n: Node) {
    match n
    case Entry(name, value) => AttributeReads(k, name) && TextReads(k, value)
    case Section(name, children) => AttributeReads(k, name) && AllLegible(k, children)
    case Container(name, children) => AttributeReads(k, name) && AllLegible(k, children)
    case Object(_) => false
  }

  ghost predicate AllLegible(k: Ink, ns: Nodes) {
    ns.Cons? ==> Legible(k, ns.head) && AllLegible(k, ns.tail)
  }

  // ----- tags

  predicate IsName(s: string) {
    s != "" && forall i :: 0 <= i < |s| ==> NameChar(s[i])
  }

  lemma {:induction false} NameLengthIs(name: string, rest: string)
    requires forall i :: 0 <= i < |name| ==> NameChar(name[i])
    requires rest != "" && !NameChar(rest[0])
    ensures NameLength(name + rest) == |name|
  {
    if name == "" {
      assert name + rest == rest;
    } else {
      assert (name + rest)[0] == name[0] && (name + rest)[1..] == name[1..] + rest;
      NameLengthIs(name[1..], rest);
    }
  }

  lemma NameAttribute(k: Ink, name: string, rest: string)
    requires AttributeReads(k, name)
    ensures ParseAttributes(k.x, " name=\"" + (k.enc(name) + ("\">" + rest)))
            == Some(Parsed(Attr("name", name, NoAttributes), rest))
  {
    var value := k.enc(name) + ("\">" + rest);
    var s := " name=\"" + value;
    var t := "name" + ("=\"" + value);
    assert s[1..] == t;
    NameLengthIs("name", "=\"" + value);
    assert t[4 + 2..] == value && t[..4] == "name";
    assert ("\">" + rest)[1..] == ">" + rest && (">" + rest)[1..] == rest;
    assert ParseAttributes(k.x, ">" + rest) == Some(Parsed(NoAttributes, rest));
    assert SkipSpace(s) == t;
  }

  lemma EndTag(tag: string, rest: string)
    ensures ParseEndTag(tag, EndText(tag, rest)) == Some(rest)
    ensures StartsWith(EndText(tag, rest), "</")
  {
    var s := EndText(tag, rest);
    assert s[..2 + |tag|] == "</" + tag;
    assert s[2 + |tag|..] == ">" + rest;
    assert (">" + rest)[1..] == rest;
    assert s[..2] == "</";
  }

  /** A start tag, content that reads well, and the matching end tag. */
  lemma ElementRead(k: Ink, tag: string, name: string, inner: string, nodes: XNodes, rest: string)
    requires IsName(tag) && AttributeReads(k, name)
    requires ParseContent(k.x, inner) == Some(Parsed(nodes, EndText(tag, rest)))
    ensures ParseElement(k.x, StartText(k, tag, name, inner))
            == Some(Parsed(XElement(tag, Attr("name", name, NoAttributes), nodes), rest))
  {
    var attrs := " name=\"" + (k.enc(name) + ("\">" + inner));
    var s := StartText(k, tag, name, inner);
    assert s[1..] == tag + attrs;
    NameLengthIs(tag, attrs);
    assert (tag + attrs)[..|tag|] == tag && (tag + attrs)[|tag|..] == attrs;
    NameAttribute(k, name, inner);
    EndTag(tag, rest);
  }

  // ----- content

  /** Text in front of markup that reads well. */
  lemma TextThen(k: Ink, text: string, s: string, markup: string, nodes: XNodes, rest: string)
    requires markup != "" && k.x.content(s) == Some(Scan(text, markup)) && |markup| <= |s|
    requires ParseMarkup(k.x, markup) == Some(Parsed(nodes, rest))
    ensures ParseContent(k.x, s) == Some(Parsed(WithText(text, nodes), rest))
  {
  }

  lemma LineThen(k: Ink, n: nat, markup: string, nodes: XNodes, rest: string)
    requires SpaceReads(k) && (n == 0 || IsSpace(k.pad)) && markup != "" && markup[0] == '<'
    requires ParseMarkup(k.x, markup) == Some(Parsed(nodes, rest))
    ensures ParseContent(k.x, "\n" + Repeat(k.pad, n) + markup)
            == Some(Parsed(XCons(XText("\n" + Repeat(k.pad, n)), nodes), rest))
  {
  }

  lemma EndMarkup(k: Ink, tag: string, rest: string)
    ensures ParseMarkup(k.x, EndText(tag, rest)) == Some(Parsed(XNil, EndText(tag, rest)))
    ensures EndText(tag, rest) != "" && EndText(tag, rest)[0] == '<'
  {
  }

  lemma ChildMarkup(k: Ink, s: string, child: XNode, after: string, more: XNodes, rest: string)
    requires |s| >= 2 && s[1] != '/' && ParseElement(k.x, s) == Some(Parsed(child, after))
    requires ParseContent(k.x, after) == Some(Parsed(more, rest))
    ensures ParseMarkup(k.x, s) == Some(Parsed(XCons(child, more), rest))
  {
    assert s[..2][1] == s[1];
  }

  lemma TagIsName(n: Node)
    ensures IsName(TagOf(n)) && TagOf(n)[0] != '/'
  {
  }

  lemma StartsTag(tag: string, rest: string)
    requires tag != ""
    ensures var s := "<" + (tag + rest); |s| >= 2 && s[0] == '<' && s[1] == tag[0]
  {
  }

  lemma NodeStart(k: Ink, i: nat, n: Node, rest: string)
    ensures var s := NodeText(k, i, n, rest); |s| >= 2 && s[0] == '<' && s[1] != '/'
    ensures IsName(TagOf(n))
  {
    TagIsName(n);
    var inner := InnerText(k, i, n, EndText(TagOf(n), rest));
    StartsTag(TagOf(n), " name=\"" + (k.enc(NameOf(n)) + ("\">" + inner)));
  }

  lemma EntryContent(k: Ink, value: string, tag: string, rest: string)
    requires TextReads(k, value)
    ensures ParseContent(k.x, k.enc(value) + EndText(tag, rest))
            == Some(Parsed(WithText(value, XNil), EndText(tag, rest)))
  {
  }

  function InnerText(k: Ink, i: nat, n: Node, end: string): string
    decreases n, 1
  {
    if n.Entry? then k.enc(n.value) + end else Lines(k, i + k.amount, n.children, i, end)
  }

  function InnerFor(k: Ink, i: nat, n: Node): XNodes {
    if n.Entry? then WithText(n.value, XNil) else ContentFor(k, i + k.amount, n.children, i)
  }

  lemma {:induction false} ReadInner(k: Ink, i: nat, n: Node, tag: string, rest: string)
    requires SpaceReads(k) && SpaceAt(k, i) && Legible(k, n)
    ensures ParseContent(k.x, InnerText(k, i, n, EndText(tag, rest)))
            == Some(Parsed(InnerFor(k, i, n), EndText(tag, rest)))
    decreases n, 0
  {
    if n.Entry? {
      EntryContent(k, n.value, tag, rest);
    } else {
      ReadLines(k, i + k.amount, n.children, i, tag, rest);
    }
  }

  lemma {:induction false} ReadNode(k: Ink, i: nat, n: Node, rest: string)
    requires SpaceReads(k) && SpaceAt(k, i) && Legible(k, n)
    ensures ParseElement(k.x, NodeText(k, i, n, rest)) == Some(Parsed(ElementFor(k, i, n), rest))
    decreases n, 1
  {
    var tag := TagOf(n);
    NodeStart(k, i, n, rest);
    ReadInner(k, i, n, tag, rest);
    ElementRead(k, tag, n.name, InnerText(k, i, n, EndText(tag, rest)), InnerFor(k, i, n), rest);
  }

  lemma {:induction false} ReadLines(k: Ink, d: nat, ns: Nodes, i: nat, tag: string, rest: string)
    requires SpaceReads(k) && SpaceAt(k, d) && SpaceAt(k, i) && AllLegible(k, ns)
    ensures ParseContent(k.x, Lines(k, d, ns, i, EndText(tag, rest)))
            == Some(Parsed(ContentFor(k, d, ns, i), EndText(tag, rest)))
    decreases ns, 2
  {
    var end := EndText(tag, rest);
    if ns.Nil? {
      EndMarkup(k, tag, rest);
      LineThen(k, i, end, XNil, end);
    } else {
      var after := Lines(k, d, ns.tail, i, end);
      var s := NodeText(k, d, ns.head, after);
      ReadNode(k, d, ns.head, after);
      ReadLines(k, d, ns.tail, i, tag, rest);
      NodeStart(k, d, ns.head, after);
      ChildMarkup(k, s, ElementFor(k, d, ns.head), after, ContentFor(k, d, ns.tail, i), end);
      LineThen(k, d, s, XCons(ElementFor(k, d, ns.head), ContentFor(k, d, ns.tail, i)), end);
    }
  }
}
