/**
 What a JSON reader gets from the emitted text of a document tree.
 */
module JsonRoundTrip {
  import opened Prelude
  import opened Decoding
  import opened Document
  import opened JsonReader

  // ----- the tree a reader should see

  function ValueOf(n: Node): Json {
    match n
    case Entry(_, value) => JString(DoubleBackslashes(value))
    case Section(_, children) => JObject(MembersOf(children))
    case Container(_, children) => JArray(ItemsOf(children))
    case Object(children) => JObject(MembersOf(children))
  }

  function MembersOf(ns: Nodes): JMembers {
    match ns
    case Nil => NoMembers
    case Cons(head, tail) =>
      Member(if head.Object? then "" else DoubleBackslashes(head.name), ValueOf(head), MembersOf(tail))
  }

  function ItemsOf(ns: Nodes): JItems {
    match ns
    case Nil => NoItems
    case Cons(head, tail) => Item(ValueOf(head), ItemsOf(tail))
  }

  // ----- the tree a reader does see, given what it sees of each string

  type Sight = string -> Option<string>

  function SeenValue(see: Sight, n: Node): Option<Json> {
    match n
    case Entry(_, value) => if see(value).None? then None else Some(JString(see(value).value))
    case Container(_, children) => AsArray(SeenItems(see, children))
    case Section(_, children) => AsObject(SeenMembers(see, children))
    case Object(children) => AsObject(SeenMembers(see, children))
  }

  function SeenMembers(see: Sight, ns: Nodes): Option<JMembers> {
    match ns
    case Nil => Some(NoMembers)
    case Cons(head, tail) =>
      WithMember(if head.Object? then Some("") else see(head.name), SeenValue(see, head), SeenMembers(see, tail))
  }

  function SeenItems(see: Sight, ns: Nodes): Option<JItems> {
    match ns
    case Nil => Some(NoItems)
    case Cons(head, tail) => WithItem(SeenValue(see, head), SeenItems(see, tail))
  }

  function AsObject(ms: Option<JMembers>): Option<Json> {
    if ms.None? then None else Some(JObject(ms.value))
  }

  function AsArray(xs: Option<JItems>): Option<Json> {
    if xs.None? then None else Some(JArray(xs.value))
  }

  function WithMember(name: Option<string>, v: Option<Json>, more: Option<JMembers>): Option<JMembers> {
    if name.None? || v.None? || more.None? then None else Some(Member(name.value, v.value, more.value))
  }

  function WithItem(v: Option<Json>, more: Option<JItems>): Option<JItems> {
    if v.None? || more.None? then None else Some(Item(v.value, more.value))
  }

  /** A reading that stops in front of `rest`, or fails. */
  function Then<T>(v: Option<T>, rest: string): Option<Parsed<T>> {
    if v.None? then None else Some(Parsed(v.value, rest))
  }

  // ----- the JSON text of a tree, each piece written in front of what follows it

  /** Indent amount, indent character, how strings are encoded, how they are read, and what is then seen of them. */
  datatype Ink = Ink(amount: nat, pad: char, enc: string -> string, rd: StringReader, see: Sight)

  function ValueText(k: Ink, i: nat, n: Node, rest: string): string
    decreases n, 1
  {
    match n
    case Entry(_, value) => "\"" + (k.enc(value) + ("\"" + rest))
    case Container(_, children) => "[" + InsideText(k, i, children, "]" + rest)
    case _ => "{" + InsideText(k, i, n.children, "}" + rest)
  }

  function InsideText(k: Ink, i: nat, ns: Nodes, rest: string): string
    decreases ns, 3
  {
    if ns.Nil? then rest
    else "\n" + (Repeat(k.pad, i + k.amount) + ListText(k, i + k.amount, ns, "\n" + (Repeat(k.pad, i) + rest)))
  }

  function NodeText(k: Ink, i: nat, n: Node, rest: string): string
    decreases n, 2
  {
    if n.Object? then ValueText(k, i, n, rest)
    else "\"" + (k.enc(n.name) + ("\"" + (" : " + ValueText(k, i, n, rest))))
  }

  function ListText(k: Ink, i: nat, ns: Nodes, rest: string): string
    requires ns.Cons?
    decreases ns, 2
  {
    NodeText(k, i, ns.head, AfterHead(k, i, ns.tail, rest))
  }

  function AfterHead(k: Ink, i: nat, ns: Nodes, rest: string): string
    decreases ns, 3
  {
    if ns.Nil? then rest else "," + ("\n" + (Repeat(k.pad, i) + ListText(k, i, ns, rest)))
  }

  // ----- reading strings

  /** What the reader sees of an encoded string does not depend on what follows its closing quote. */
  ghost predicate Sees(k: Ink) {
    forall s: string, rest: string {:trigger k.rd(k.enc(s) + ("\"" + rest))} ::
      k.rd(k.enc(s) + ("\"" + rest)) == if k.see(s).None? then None else Some(Scan(k.see(s).value, rest))
  }

  // ----- white space is skipped

  /** The text starts with something a reader will not skip. */
  predicate StartsSolid(s: string) {
    s != "" && !IsSpace(s[0])
  }

  lemma {:induction false} SkipMargin(c: char, n: nat, s: string)
    requires n == 0 || IsSpace(c)
    requires StartsSolid(s)
    ensures SkipSpace(Repeat(c, n) + s) == s
  {
    if n == 0 {
      assert Repeat(c, n) + s == s;
    } else {
      assert (Repeat(c, n) + s)[1..] == Repeat(c, n - 1) + s;
      SkipMargin(c, n - 1, s);
    }
  }

  /** Margins are white space, if there are any. */
  predicate Airy(k: Ink) {
    k.amount == 0 || IsSpace(k.pad)
  }

  lemma SkipLine(k: Ink, n: nat, s: string)
    requires (n == 0 || IsSpace(k.pad)) && StartsSolid(s)
    ensures SkipSpace("\n" + (Repeat(k.pad, n) + s)) == s
  {
    SkipMargin(k.pad, n, s);
    var line := "\n" + (Repeat(k.pad, n) + s);
    assert line[0] == '\n' && line[1..] == Repeat(k.pad, n) + s;
  }

  // ----- reading back, group by group

  /** The indent reached here is white space too. */
  predicate AiryAt(k: Ink, i: nat) {
    Airy(k) && (i == 0 || IsSpace(k.pad))
  }

  lemma ValueStart(k: Ink, i: nat, n: Node, rest: string)
    ensures StartsSolid(ValueText(k, i, n, rest))
    ensures n.Object? ==> ValueText(k, i, n, rest)[0] == '{'
  {
  }

  lemma ListStart(k: Ink, i: nat, ns: Nodes, rest: string)
    requires ns.Cons?
    ensures var s := ListText(k, i, ns, rest); StartsSolid(s) && s[0] == if ns.head.Object? then '{' else '"'
  {
    ValueStart(k, i, ns.head, AfterHead(k, i, ns.tail, rest));
  }

  /** The end of a list: the close marker on a line of its own. */
  function EndText(k: Ink, j: nat, close: char, rest: string): string {
    "\n" + (Repeat(k.pad, j) + ([close] + rest))
  }

  lemma EndSkipped(k: Ink, j: nat, close: char, rest: string)
    requires (j == 0 || IsSpace(k.pad)) && !IsSpace(close)
    ensures SkipSpace(EndText(k, j, close, rest)) == [close] + rest
  {
    SkipLine(k, j, [close] + rest);
  }

  lemma StringValue(k: Ink, s: string, rest: string)
    requires Sees(k)
    ensures ParseValue(k.rd, "\"" + (k.enc(s) + ("\"" + rest)))
         == if k.see(s).None? then None else Some(Parsed(JString(k.see(s).value), rest))
  {
  }

  lemma EmptyGroup(k: Ink, rest: string)
    ensures ParseValue(k.rd, "{" + ("}" + rest)) == Some(Parsed(JObject(NoMembers), rest))
    ensures ParseValue(k.rd, "[" + ("]" + rest)) == Some(Parsed(JArray(NoItems), rest))
  {
  }

  lemma OpenObject(k: Ink, n: nat, s: string, ms: Option<JMembers>, rest: string)
    requires (n == 0 || IsSpace(k.pad)) && s != "" && s[0] == '"' && ParseMembers(k.rd, s) == Then(ms, rest)
    ensures ParseValue(k.rd, "{" + ("\n" + (Repeat(k.pad, n) + s))) == Then(AsObject(ms), rest)
  {
    SkipLine(k, n, s);
    assert ("{" + ("\n" + (Repeat(k.pad, n) + s)))[1..] == "\n" + (Repeat(k.pad, n) + s);
  }

  lemma OpenArray(k: Ink, n: nat, s: string, xs: Option<JItems>, rest: string)
    requires (n == 0 || IsSpace(k.pad)) && s != "" && s[0] == '{' && ParseItems(k.rd, s) == Then(xs, rest)
    ensures ParseValue(k.rd, "[" + ("\n" + (Repeat(k.pad, n) + s))) == Then(AsArray(xs), rest)
  {
    SkipLine(k, n, s);
    assert ("[" + ("\n" + (Repeat(k.pad, n) + s)))[1..] == "\n" + (Repeat(k.pad, n) + s);
  }

  lemma {:induction false} ReadValue(k: Ink, i: nat, n: Node, rest: string)
    requires AiryAt(k, i) && Formed(n) && Sees(k)
    ensures ParseValue(k.rd, ValueText(k, i, n, rest)) == Then(SeenValue(k.see, n), rest)
    decreases n, 1
  {
    match n
    case Entry(_, value) => StringValue(k, value, rest);
    case Container(_, children) => ReadArray(k, i, children, rest);
    case Section(_, children) => ReadObject(k, i, children, rest);
    case Object(children) => ReadObject(k, i, children, rest);
  }

  lemma {:induction false} ReadObject(k: Ink, i: nat, ns: Nodes, rest: string)
    requires AiryAt(k, i) && Members(ns) && Sees(k)
    ensures ParseValue(k.rd, "{" + InsideText(k, i, ns, "}" + rest)) == Then(AsObject(SeenMembers(k.see, ns)), rest)
    decreases ns, 2
  {
    if ns.Nil? {
      EmptyGroup(k, rest);
    } else {
      var deeper, end := i + k.amount, EndText(k, i, '}', rest);
      ReadMembers(k, deeper, ns, i, rest);
      ListStart(k, deeper, ns, end);
      OpenObject(k, deeper, ListText(k, deeper, ns, end), SeenMembers(k.see, ns), rest);
    }
  }

  lemma {:induction false} ReadArray(k: Ink, i: nat, ns: Nodes, rest: string)
    requires AiryAt(k, i) && Objects(ns) && Sees(k)
    ensures ParseValue(k.rd, "[" + InsideText(k, i, ns, "]" + rest)) == Then(AsArray(SeenItems(k.see, ns)), rest)
    decreases ns, 2
  {
    if ns.Nil? {
      EmptyGroup(k, rest);
    } else {
      var deeper, end := i + k.amount, EndText(k, i, ']', rest);
      ReadItems(k, deeper, ns, i, rest);
      ListStart(k, deeper, ns, end);
      OpenArray(k, deeper, ListText(k, deeper, ns, end), SeenItems(k.see, ns), rest);
    }
  }

  // ----- members

  /** A member's name, colon and value. */
  lemma ReadMember(k: Ink, name: string, value: string, v: Option<Json>, after: string)
    requires Sees(k) && StartsSolid(value) && ParseValue(k.rd, value) == Then(v, after)
    ensures ParseMembers(k.rd, "\"" + (k.enc(name) + ("\"" + (" : " + value))))
         == if k.see(name).None? || v.None? then None else AfterMember(k.rd, k.see(name).value, v.value, after)
  {
    var s := "\"" + (k.enc(name) + ("\"" + (" : " + value)));
    assert s[1..] == k.enc(name) + ("\"" + (" : " + value));
    ColonSkipped(value);
    assert k.see(name).Some? ==> ReadString(k.rd, s[1..]) == Some(Scan(k.see(name).value, " : " + value));
  }

  lemma ColonSkipped(value: string)
    requires StartsSolid(value)
    ensures SkipSpace(" : " + value) == ": " + value && (": " + value)[1..] == " " + value
            && SkipSpace(" " + value) == value
  {
  }

  lemma LastMember(k: Ink, name: string, v: Json, j: nat, rest: string)
    requires AiryAt(k, j)
    ensures AfterMember(k.rd, name, v, EndText(k, j, '}', rest)) == Some(Parsed(Member(name, v, NoMembers), rest))
  {
    EndSkipped(k, j, '}', rest);
    assert (['}'] + rest)[1..] == rest;
  }

  lemma OtherMember(k: Ink, name: string, v: Json, i: nat, s: string, more: Option<JMembers>, rest: string)
    requires AiryAt(k, i) && StartsSolid(s) && ParseMembers(k.rd, s) == Then(more, rest)
    ensures AfterMember(k.rd, name, v, "," + ("\n" + (Repeat(k.pad, i) + s)))
            == Then(WithMember(Some(name), Some(v), more), rest)
  {
    var after := "," + ("\n" + (Repeat(k.pad, i) + s));
    SkipLine(k, i, s);
    assert after[1..] == "\n" + (Repeat(k.pad, i) + s);
  }

  lemma {:induction false} ReadMembers(k: Ink, i: nat, ns: Nodes, j: nat, rest: string)
    requires AiryAt(k, i) && AiryAt(k, j) && ns.Cons? && Members(ns) && Sees(k)
    ensures ParseMembers(k.rd, ListText(k, i, ns, EndText(k, j, '}', rest))) == Then(SeenMembers(k.see, ns), rest)
    decreases ns, 1
  {
    var end := EndText(k, j, '}', rest);
    var after := AfterHead(k, i, ns.tail, end);
    var name, v := k.see(ns.head.name), SeenValue(k.see, ns.head);
    ValueStart(k, i, ns.head, after);
    ReadValue(k, i, ns.head, after);
    ReadMember(k, ns.head.name, ValueText(k, i, ns.head, after), v, after);
    if name.Some? && v.Some? {
      if ns.tail.Nil? {
        LastMember(k, name.value, v.value, j, rest);
      } else {
        ReadMembers(k, i, ns.tail, j, rest);
        ListStart(k, i, ns.tail, end);
        OtherMember(k, name.value, v.value, i, ListText(k, i, ns.tail, end), SeenMembers(k.see, ns.tail), rest);
      }
    }
  }

  // ----- items

  lemma LastItem(k: Ink, v: Json, j: nat, rest: string)
    requires AiryAt(k, j)
    ensures AfterItem(k.rd, v, EndText(k, j, ']', rest)) == Some(Parsed(Item(v, NoItems), rest))
  {
    EndSkipped(k, j, ']', rest);
    assert ([']'] + rest)[1..] == rest;
  }

  lemma OtherItem(k: Ink, v: Json, i: nat, s: string, more: Option<JItems>, rest: string)
    requires AiryAt(k, i) && StartsSolid(s) && ParseItems(k.rd, s) == Then(more, rest)
    ensures AfterItem(k.rd, v, "," + ("\n" + (Repeat(k.pad, i) + s))) == Then(WithItem(Some(v), more), rest)
  {
    var after := "," + ("\n" + (Repeat(k.pad, i) + s));
    SkipLine(k, i, s);
    assert after[1..] == "\n" + (Repeat(k.pad, i) + s);
  }

  lemma {:induction false} ReadItems(k: Ink, i: nat, ns: Nodes, j: nat, rest: string)
    requires AiryAt(k, i) && AiryAt(k, j) && ns.Cons? && Objects(ns) && Sees(k)
    ensures ParseItems(k.rd, ListText(k, i, ns, EndText(k, j, ']', rest))) == Then(SeenItems(k.see, ns), rest)
    decreases ns, 1
  {
    var end := EndText(k, j, ']', rest);
    var after := AfterHead(k, i, ns.tail, end);
    var v := SeenValue(k.see, ns.head);
    ReadValue(k, i, ns.head, after);
    assert ListText(k, i, ns, end) == ValueText(k, i, ns.head, after) by {
      assert ListText(k, i, ns, end) == NodeText(k, i, ns.head, after);
    }
    if v.Some? {
      if ns.tail.Nil? {
        LastItem(k, v.value, j, rest);
      } else {
        ReadItems(k, i, ns.tail, j, rest);
        ListStart(k, i, ns.tail, end);
        OtherItem(k, v.value, i, ListText(k, i, ns.tail, end), SeenItems(k.see, ns.tail), rest);
      }
    }
  }
}
