/**
 An XML reader written from sections 2.4, 2.8, 3.1 and 3.3.3 of XML 1.0: a declaration, then one element whose tags
 match, with attributes in double quotes and character data. References are read by the readers of module Decoding.
 */
module XmlReader {
  import opened Prelude
  import opened Decoding

  datatype XNode = XText(text: string) | XElement(tag: string, attributes: Attributes, children: XNodes)
  datatype XNodes = XNil | XCons(head: XNode, tail: XNodes)
  datatype Attributes = NoAttributes | Attr(name: string, value: string, more: Attributes)

  /** What reads text up to the next '<', and an attribute value up to its closing quote. */
  datatype Readers = Readers(content: string -> Option<Scan>, attribute: string -> Option<Scan>)

  /** A reader is given up on if it does not stop inside the input. */
  function ReadTo(rd: string -> Option<Scan>, s: string): (r: Option<Scan>)
    ensures r.Some? ==> 0 < |r.value.rest| <= |s|
  {
    match rd(s)
    case None => None
    case Some(scan) => if 0 < |scan.rest| <= |s| then Some(scan) else None
  }

  predicate NameChar(c: char) {
    'a' <= c <= 'z' || 'A' <= c <= 'Z' || '0' <= c <= '9' || c == '_' || c == '-' || c == '.' || c == ':'
  }

  function NameLength(s: string): (n: nat)
    ensures n <= |s|
  {
    if s != "" && NameChar(s[0]) then 1 + NameLength(s[1..]) else 0
  }

  /** The attributes of a start tag, up to its '>'. */
  function ParseAttributes(x: Readers, s: string): (r: Option<Parsed<Attributes>>)
    ensures r.Some? ==> |r.value.rest| < |s|
    decreases |s|
  {
    var t := SkipSpace(s);
    if t == "" then None
    else if t[0] == '>' then Some(Parsed(NoAttributes, t[1..]))
    else if |t| == |s| then None
    else ParseAttribute(x, t)
  }

  function ParseAttribute(x: Readers, t: string): (r: Option<Parsed<Attributes>>)
    ensures r.Some? ==> |r.value.rest| < |t|
    decreases |t|
  {
    var n := NameLength(t);
    if n == 0 || |t| < n + 2 || t[n] != '=' || t[n + 1] != '"' then None
    else
      match ReadTo(x.attribute, t[n + 2..])
      case None => None
      case Some(scan) =>
        if scan.rest[0] != '"' then None
        else
          match ParseAttributes(x, scan.rest[1..])
          case None => None
          case Some(more) => Some(Parsed(Attr(t[..n], scan.text, more.value), more.rest))
  }

  /** One element: start tag, content, and an end tag of the same name. */
  function ParseElement(x: Readers, s: string): (r: Option<Parsed<XNode>>)
    ensures r.Some? ==> |r.value.rest| < |s|
    decreases |s|, 0
  {
    if s == "" || s[0] != '<' then None
    else
      var n := NameLength(s[1..]);
      var tag := s[1..][..n];
      if n == 0 then None
      else
        match ParseAttributes(x, s[1..][n..])
        case None => None
        case Some(attrs) =>
          match ParseContent(x, attrs.rest)
          case None => None
          case Some(nodes) =>
            match ParseEndTag(tag, nodes.rest)
            case None => None
            case Some(rest) => Some(Parsed(XElement(tag, attrs.value, nodes.value), rest))
  }

  function ParseEndTag(tag: string, s: string): (r: Option<string>)
    ensures r.Some? ==> |r.value| < |s|
  {
    if !StartsWith(s, "</" + tag) then None
    else
      var t := SkipSpace(s[2 + |tag|..]);
      if t != "" && t[0] == '>' then Some(t[1..]) else None
  }

  /** Text and elements up to an end tag, which stays in the input. */
  function ParseContent(x: Readers, s: string): (r: Option<Parsed<XNodes>>)
    ensures r.Some? ==> |r.value.rest| <= |s|
    decreases |s|, 2
  {
    match ReadTo(x.content, s)
    case None => None
    case Some(scan) =>
      match ParseMarkup(x, scan.rest)
      case None => None
      case Some(nodes) => Some(Parsed(WithText(scan.text, nodes.value), nodes.rest))
  }

  function WithText(text: string, nodes: XNodes): XNodes {
    if text == "" then nodes else XCons(XText(text), nodes)
  }

  function ParseMarkup(x: Readers, s: string): (r: Option<Parsed<XNodes>>)
    ensures r.Some? ==> |r.value.rest| <= |s|
    decreases |s|, 1
  {
    if StartsWith(s, "</") then Some(Parsed(XNil, s))
    else
      match ParseElement(x, s)
      case None => None
      case Some(child) =>
        match ParseContent(x, child.rest)
        case None => None
        case Some(more) => Some(Parsed(XCons(child.value, more.value), more.rest))
  }

  /** What follows the first "?>". */
  function AfterDeclaration(s: string): string {
    if s == "" then ""
    else if StartsWith(s, "?>") then s[2..]
    else AfterDeclaration(s[1..])
  }

  /** An XML document: the declaration, then one element with white space around it. */
  function ParseWith(x: Readers, s: string): Option<XNode> {
    if !StartsWith(s, "<?xml") then None
    else Whole(ParseElement(x, SkipSpace(AfterDeclaration(s[5..]))))
  }

  /** An element that nothing but white space follows. */
  function Whole(r: Option<Parsed<XNode>>): Option<XNode> {
    if r.Some? && SkipSpace(r.value.rest) == "" then Some(r.value.value) else None
  }

  const XML_READERS := Readers(s => ReadXmlText(Content, s), s => ReadXmlText(Attribute, s))

  function ParseXml(s: string): Option<XNode> {
    ParseWith(XML_READERS, s)
  }
}
