/**
 Where a reader stops: what it leaves is the end of what it was given, right after the character that closes the value.
 */
module ReadingEnds {
  import opened Prelude
  import opened Numerals
  import opened Decoding
  import opened JsonReader
  import opened XmlReader
  import opened Cleaning
  import opened TextLines
  import opened CleanedLines
  import opened ShownLines

  predicate Tail(s: string, rest: string) {
    |rest| <= |s| && s[|s| - |rest|..] == rest
  }

  lemma TailOfTail(a: string, b: string, c: string)
    requires Tail(a, b) && Tail(b, c)
    ensures Tail(a, c)
  {
  }

  lemma DropTail(s: string, n: nat)
    requires n <= |s|
    ensures Tail(s, s[n..])
  {
  }

  lemma {:induction false} SpaceTail(s: string)
    ensures Tail(s, SkipSpace(s))
  {
    if s != "" && IsSpace(s[0]) {
      SpaceTail(s[1..]);
      TailOfTail(s, s[1..], SkipSpace(s));
    }
  }

  // ----- the last character that is not white space

  predicate InkEnds(s: string, x: char) {
    s != "" && if IsSpace(s[|s| - 1]) then InkEnds(s[..|s| - 1], x) else s[|s| - 1] == x
  }

  lemma {:induction false} OnlySpace(s: string)
    requires SkipSpace(s) == ""
    ensures forall i :: 0 <= i < |s| ==> IsSpace(s[i])
  {
    if s != "" {
      OnlySpace(s[1..]);
      assert forall i :: 1 <= i < |s| ==> s[i] == s[1..][i - 1];
    }
  }

  lemma {:induction false} InkBefore(u: string, x: char, rest: string)
    requires !IsSpace(x) && forall i :: 0 <= i < |rest| ==> IsSpace(rest[i])
    ensures InkEnds(u + ([x] + rest), x)
    decreases |rest|
  {
    var s := u + ([x] + rest);
    if rest != "" {
      var less := rest[..|rest| - 1];
      assert s[|s| - 1] == rest[|rest| - 1];
      assert s[..|s| - 1] == u + ([x] + less);
      InkBefore(u, x, less);
    }
  }

  /** If only white space is left, the value's last character is the text's. */
  lemma InkIsClose(s: string, x: char, rest: string)
    requires Tail(s, [x] + rest) && !IsSpace(x) && SkipSpace(rest) == ""
    ensures InkEnds(s, x)
  {
    OnlySpace(rest);
    var n := |s| - |rest| - 1;
    assert s == s[..n] + s[n..];
    InkBefore(s[..n], x, rest);
  }

  /** The last character, or the last before a newline. */
  predicate EndsAs(s: string, x: char) {
    (s != "" && s[|s| - 1] == x) || EndsWith(s, x)
  }

  lemma InkOfLine(s: string, x: char, y: char)
    requires InkEnds(s, y) && !IsSpace(x) && EndsAs(s, x)
    ensures x == y
  {
  }

  // ----- after the clean-up

  predicate LastIs(lines: seq<string>, x: char) {
    lines != [] && var w := lines[|lines| - 1]; w != "" && w[|w| - 1] == x
  }

  lemma UnlinesLast(lines: seq<string>, x: char)
    requires LastIs(lines, x)
    ensures EndsWith(Unlines(lines), x)
  {
    UnlinesEnds(lines);
  }

  lemma FoldLast(c: char, lines: seq<string>, x: char)
    requires LastIs(lines, x) && x != c
    ensures EndsWith(Fold(c, lines), x)
  {
    FoldEnds(c, lines);
  }

  lemma CutEndsAs(text: string, q: string, cut: bool, x: char)
    requires Shows(text, q, cut) && EndsWith(q, x)
    ensures EndsAs(text, x)
  {
  }

  lemma FoldShown(c: char, lines: seq<string>, x: char)
    requires NoNewlines(lines) && LastIs(Trimmed(c, lines), x) && x != c
    ensures EndsAs(CleanedUp(c, Unlines(lines)), x)
  {
    var ts := Trimmed(c, lines);
    FoldLast(c, ts, x);
    CleanedIs(c, lines);
    CutEndsAs(CleanedUp(c, Unlines(lines)), Fold(c, ts), Cuts(c, ts), x);
  }

  lemma ChompShown(c: char, lines: seq<string>, x: char)
    requires NoNewlines(lines) && LastIs(Trimmed(c, lines), x)
    ensures EndsWith(Chomped(c, Unlines(lines)), x)
  {
    ChompLines(c, lines);
    UnlinesLast(Trimmed(c, lines), x);
  }

  lemma TrimmedLast(c: char, lines: seq<string>, x: char)
    requires NoNewlines(lines) && LastIs(Trimmed(c, lines), x)
    ensures x != c
  {
    TrimmedLines(c, lines);
  }

  /** Whatever is shown of these lines ends in the last character that is taken for text. */
  lemma CleanedEnds(c: char, lines: seq<string>, x: char)
    requires NoNewlines(lines) && LastIs(Trimmed(c, lines), x)
    ensures EndsAs(Chomped(c, Unlines(lines)), x) && EndsAs(CleanedUp(c, Unlines(lines)), x)
  {
    TrimmedLast(c, lines, x);
    ChompShown(c, lines, x);
    FoldShown(c, lines, x);
  }

  // ----- JSON

  ghost predicate HonestReader(rd: string -> Option<Scan>) {
    forall s: string {:trigger rd(s)} :: rd(s).Some? ==> Tail(s, rd(s).value.rest)
  }

  lemma {:induction false} StringTail(s: string)
    ensures var r := ReadJsonString(s); r.Some? ==> Tail(s, r.value.rest)
    decreases |s|
  {
    var r := ReadJsonString(s);
    if r.Some? && s[0] != '"' {
      var n := if s[0] != '\\' then 1 else if ShortEscape(s[1]).Some? then 2
               else if IsScalar(UnicodeEscape(s).value) then 6 else 12;
      StringTail(s[n..]);
      TailOfTail(s, s[n..], r.value.rest);
    }
  }

  lemma {:induction false} ValueTail(rd: StringReader, s: string)
    requires HonestReader(rd)
    ensures var r := ParseValue(rd, s);
            r.Some? ==> Tail(s, r.value.rest) && (r.value.value.JObject? ==> Tail(s, "}" + r.value.rest))
    decreases |s|, 0
  {
    var r := ParseValue(rd, s);
    if r.Some? {
      var u := s[1..];
      if s[0] == '"' {
        TailOfTail(s, u, r.value.rest);
      } else {
        var t := SkipSpace(u);
        SpaceTail(u);
        TailOfTail(s, u, t);
        if s[0] == '{' {
          if t[0] != '}' {
            MembersTail(rd, t);
          }
          CloseTail(s, t, '}', r.value.rest);
        } else {
          if t[0] != ']' {
            ItemsTail(rd, t);
          }
          CloseTail(s, t, ']', r.value.rest);
        }
      }
    }
  }

  lemma CloseTail(s: string, t: string, close: char, rest: string)
    requires Tail(s, t) && (Tail(t, [close] + rest) || (t != "" && t[0] == close && rest == t[1..]))
    ensures Tail(s, [close] + rest) && Tail(s, rest)
  {
    assert Tail(t, [close] + rest) by {
      if t != "" && t[0] == close && rest == t[1..] {
        assert [close] + rest == t;
      }
    }
    TailOfTail(s, t, [close] + rest);
    assert ([close] + rest)[1..] == rest;
    DropTail([close] + rest, 1);
    TailOfTail(s, [close] + rest, rest);
  }

  lemma {:induction false} MembersTail(rd: StringReader, s: string)
    requires HonestReader(rd)
    ensures var r := ParseMembers(rd, s); r.Some? ==> Tail(s, "}" + r.value.rest)
    decreases |s|, 0
  {
    var r := ParseMembers(rd, s);
    if r.Some? {
      var name := ReadString(rd, s[1..]).value;
      var t := SkipSpace(name.rest);
      var u := SkipSpace(t[1..]);
      var v := ParseValue(rd, u).value;
      TailOfTail(s, s[1..], name.rest);
      SpaceTail(name.rest);
      TailOfTail(s, name.rest, t);
      TailOfTail(s, t, t[1..]);
      SpaceTail(t[1..]);
      TailOfTail(s, t[1..], u);
      ValueTail(rd, u);
      TailOfTail(s, u, v.rest);
      AfterMemberTail(rd, name.text, v.value, v.rest);
      TailOfTail(s, v.rest, "}" + r.value.rest);
    }
  }

  lemma {:induction false} AfterMemberTail(rd: StringReader, name: string, v: Json, s: string)
    requires HonestReader(rd)
    ensures var r := AfterMember(rd, name, v, s); r.Some? ==> Tail(s, "}" + r.value.rest)
    decreases |s|, 0
  {
    var r := AfterMember(rd, name, v, s);
    if r.Some? {
      var u := SkipSpace(s);
      SpaceTail(s);
      if u[0] == '}' {
        CloseTail(s, u, '}', r.value.rest);
      } else {
        var t := SkipSpace(u[1..]);
        TailOfTail(s, u, u[1..]);
        SpaceTail(u[1..]);
        TailOfTail(s, u[1..], t);
        MembersTail(rd, t);
        TailOfTail(s, t, "}" + r.value.rest);
      }
    }
  }

  lemma {:induction false} ItemsTail(rd: StringReader, s: string)
    requires HonestReader(rd)
    ensures var r := ParseItems(rd, s); r.Some? ==> Tail(s, "]" + r.value.rest)
    decreases |s|, 1
  {
    var r := ParseItems(rd, s);
    if r.Some? {
      var v := ParseValue(rd, s).value;
      ValueTail(rd, s);
      AfterItemTail(rd, v.value, v.rest);
      TailOfTail(s, v.rest, "]" + r.value.rest);
    }
  }

  lemma {:induction false} AfterItemTail(rd: StringReader, v: Json, s: string)
    requires HonestReader(rd)
    ensures var r := AfterItem(rd, v, s); r.Some? ==> Tail(s, "]" + r.value.rest)
    decreases |s|, 0
  {
    var r := AfterItem(rd, v, s);
    if r.Some? {
      var u := SkipSpace(s);
      SpaceTail(s);
      if u[0] == ']' {
        CloseTail(s, u, ']', r.value.rest);
      } else {
        var t := SkipSpace(u[1..]);
        TailOfTail(s, u, u[1..]);
        SpaceTail(u[1..]);
        TailOfTail(s, u[1..], t);
        ItemsTail(rd, t);
        TailOfTail(s, t, "]" + r.value.rest);
      }
    }
  }

  /** A JSON text that is an object ends in a closing brace. */
  lemma ObjectInk(s: string)
    requires var r := ParseJson(s); r.Some? && r.value.JObject?
    ensures InkEnds(s, '}')
  {
    var t := SkipSpace(s);
    var v := ParseValue(ReadJsonString, t).value;
    forall u: string
      ensures var r := ReadJsonString(u); r.Some? ==> Tail(u, r.value.rest)
    {
      StringTail(u);
    }
    ValueTail(ReadJsonString, t);
    SpaceTail(s);
    TailOfTail(s, t, "}" + v.rest);
    InkIsClose(s, '}', v.rest);
  }

  // ----- XML

  lemma NumberTail(base: Base, s: string)
    ensures var r := ReadCharacterNumber(base, s); r.Some? ==> Tail(s, r.value.1)
  {
  }

  lemma ReferenceTail(s: string)
    ensures var r := ReadReference(s); r.Some? ==> Tail(s, r.value.1)
  {
    var r := ReadReference(s);
    if StartsWith(s, "&#x") {
      NumberTail(16, s[3..]);
    } else if StartsWith(s, "&#") {
      NumberTail(10, s[2..]);
    }
  }

  lemma {:induction false} TextTail(p: Place, s: string)
    ensures var r := ReadXmlText(p, s); r.Some? ==> Tail(s, r.value.rest)
    decreases |s|
  {
    var r := ReadXmlText(p, s);
    if r.Some? && s[0] != Delimiter(p) {
      if s[0] != '&' {
        TextTail(p, s[1..]);
        TailOfTail(s, s[1..], r.value.rest);
      } else {
        var after := ReadReference(s).value.1;
        ReferenceTail(s);
        TextTail(p, after);
        TailOfTail(s, after, r.value.rest);
      }
    }
  }

  ghost predicate HonestReaders(x: Readers) {
    HonestReader(x.content) && HonestReader(x.attribute)
  }

  lemma {:induction false} AttributesTail(x: Readers, s: string)
    requires HonestReaders(x)
    ensures var r := ParseAttributes(x, s); r.Some? ==> Tail(s, r.value.rest)
    decreases |s|, 1
  {
    var r, t := ParseAttributes(x, s), SkipSpace(s);
    if r.Some? {
      SpaceTail(s);
      if t[0] == '>' {
        TailOfTail(s, t, t[1..]);
      } else {
        AttributeTail(x, t);
        TailOfTail(s, t, r.value.rest);
      }
    }
  }

  lemma {:induction false} AttributeTail(x: Readers, t: string)
    requires HonestReaders(x)
    ensures var r := ParseAttribute(x, t); r.Some? ==> Tail(t, r.value.rest)
    decreases |t|, 0
  {
    var r := ParseAttribute(x, t);
    if r.Some? {
      var value := t[NameLength(t) + 2..];
      var scan := ReadTo(x.attribute, value).value;
      var more := scan.rest[1..];
      DropTail(t, NameLength(t) + 2);
      TailOfTail(t, value, scan.rest);
      DropTail(scan.rest, 1);
      TailOfTail(t, scan.rest, more);
      AttributesTail(x, more);
      TailOfTail(t, more, r.value.rest);
    }
  }

  lemma EndTagTail(tag: string, s: string)
    ensures var r := ParseEndTag(tag, s); r.Some? ==> Tail(s, ">" + r.value)
  {
    var r := ParseEndTag(tag, s);
    if r.Some? {
      var u := s[2 + |tag|..];
      DropTail(s, 2 + |tag|);
      SpaceTail(u);
      CloseTail(u, SkipSpace(u), '>', r.value);
      TailOfTail(s, u, ">" + r.value);
    }
  }

  lemma {:induction false} ElementTail(x: Readers, s: string)
    requires HonestReaders(x)
    ensures var r := ParseElement(x, s); r.Some? ==> Tail(s, ">" + r.value.rest) && Tail(s, r.value.rest)
    decreases |s|, 0
  {
    var r := ParseElement(x, s);
    if r.Some? {
      var n := NameLength(s[1..]);
      var u := s[1..][n..];
      var attrs := ParseAttributes(x, u).value;
      var nodes := ParseContent(x, attrs.rest).value;
      DropTail(s, 1);
      DropTail(s[1..], n);
      TailOfTail(s, s[1..], u);
      AttributesTail(x, u);
      TailOfTail(s, u, attrs.rest);
      ContentTail(x, attrs.rest);
      TailOfTail(s, attrs.rest, nodes.rest);
      EndTagTail(s[1..][..n], nodes.rest);
      TailOfTail(s, nodes.rest, ">" + r.value.rest);
      CloseTail(s, s, '>', r.value.rest);
    }
  }

  lemma {:induction false} ContentTail(x: Readers, s: string)
    requires HonestReaders(x)
    ensures var r := ParseContent(x, s); r.Some? ==> Tail(s, r.value.rest)
    decreases |s|, 2
  {
    var r := ParseContent(x, s);
    if r.Some? {
      var scan := ReadTo(x.content, s).value;
      MarkupTail(x, scan.rest);
      TailOfTail(s, scan.rest, r.value.rest);
    }
  }

  lemma {:induction false} MarkupTail(x: Readers, s: string)
    requires HonestReaders(x)
    ensures var r := ParseMarkup(x, s); r.Some? ==> Tail(s, r.value.rest)
    decreases |s|, 1
  {
    var r, first := ParseMarkup(x, s), ParseElement(x, s);
    if r.Some? && r.value.rest != s {
      assert first.Some? && ParseContent(x, first.value.rest).Some?;
      assert r.value.rest == ParseContent(x, first.value.rest).value.rest;
      ElementTail(x, s);
      ContentTail(x, first.value.rest);
      TailOfTail(s, first.value.rest, r.value.rest);
    }
  }

  lemma {:induction false} DeclarationTail(s: string)
    ensures Tail(s, AfterDeclaration(s))
  {
    if s != "" && !StartsWith(s, "?>") {
      DeclarationTail(s[1..]);
      TailOfTail(s, s[1..], AfterDeclaration(s));
    }
  }

  lemma XmlReadersHonest()
    ensures HonestReaders(XML_READERS)
  {
    forall v: string, p: Place
      ensures var r := ReadXmlText(p, v); r.Some? ==> Tail(v, r.value.rest)
    {
      TextTail(p, v);
    }
  }

  lemma OnlyInk(x: Readers, s: string)
    requires HonestReaders(x) && Whole(ParseElement(x, s)).Some?
    ensures InkEnds(s, '>')
  {
    var rest := ParseElement(x, s).value.rest;
    ElementTail(x, s);
    InkIsClose(s, '>', rest);
  }

  lemma {:induction false} InkOfTail(s: string, t: string, x: char)
    requires Tail(s, t) && InkEnds(t, x)
    ensures InkEnds(s, x)
    decreases |t|
  {
    assert s[|s| - 1] == t[|t| - 1];
    if IsSpace(t[|t| - 1]) {
      assert Tail(s[..|s| - 1], t[..|t| - 1]);
      InkOfTail(s[..|s| - 1], t[..|t| - 1], x);
    }
  }

  /** An XML document ends in the end of a tag. */
  lemma DocumentInk(x: Readers, s: string)
    requires HonestReaders(x) && ParseWith(x, s).Some?
    ensures InkEnds(s, '>')
  {
    var d := s[5..];
    var t := AfterDeclaration(d);
    var u := SkipSpace(t);
    DropTail(s, 5);
    DeclarationTail(d);
    TailOfTail(s, d, t);
    SpaceTail(t);
    TailOfTail(s, t, u);
    OnlyInk(x, u);
    InkOfTail(s, u, '>');
  }
}
