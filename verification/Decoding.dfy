/**
 Readers for encoded text, written from the two standards and not from the encoder:
 JSON strings (section 7 of RFC 8259) and XML character data and attribute values
 (sections 3.3.3, 4.1 and 4.6 of XML 1.0).
 */
module Decoding {
  import opened Prelude
  import opened Numerals
  import opened Encoding

  /** A code point that stands for a character on its own. */
  predicate IsScalar(n: nat) {
    n < 0xD800 || 0xE000 <= n <= 0x10FFFF
  }

  /** A text read off the front of the input, and the input after it. */
  datatype Scan = Scan(text: string, rest: string)

  /** Something read, and what follows it. */
  datatype Parsed<+T> = Parsed(value: T, rest: string)

  /** White space, the same in JSON and XML. */
  predicate IsSpace(c: char) {
    c == ' ' || c == '\t' || c == '\n' || c == '\r'
  }

  function SkipSpace(s: string): (r: string)
    ensures |r| <= |s|
  {
    if s != "" && IsSpace(s[0]) then SkipSpace(s[1..]) else s
  }

  function Prepend(c: char, r: Option<Scan>): Option<Scan> {
    if r.None? then None else Some(Scan([c] + r.value.text, r.value.rest))
  }

  // ----- decimal numbers

  /** A number as "%d" writes it: no zero in front. */
  function ReadNumber(s: string): (r: Option<Parsed<nat>>)
    ensures r.Some? ==> |r.value.rest| < |s|
  {
    var n := DigitRun(10, s);
    if n == 0 || (s[0] == '0' && n > 1) then None else Some(Parsed(Value(10, s[..n]), s[n..]))
  }

  lemma NumberRead(n: nat, rest: string)
    requires rest != "" ==> DigitValue(10, rest[0]).None?
    ensures ReadNumber(Numeral(10, n) + rest) == Some(Parsed(n, rest))
  {
    var d := Numeral(10, n);
    NumeralValue(10, n);
    NumeralShortest(10, n);
    DigitRunOf(10, d, rest);
    assert (d + rest)[..|d|] == d && (d + rest)[|d|..] == rest && (d + rest)[0] == d[0];
  }

  /** What is read as a number is its numeral. */
  lemma NumberWritten(s: string)
    ensures var r := ReadNumber(s); r.Some? ==> s == Numeral(10, r.value.value) + r.value.rest
  {
    var n := DigitRun(10, s);
    if ReadNumber(s).Some? {
      var d := s[..n];
      assert d[0] == s[0];
      assert forall i :: 0 <= i < |d| ==> DigitValue(10, d[i]).Some?;
      ShortestIsNumeral(10, d);
      assert s == s[..n] + s[n..];
    }
  }

  // ----- JSON

  /** The two-character escapes of section 7 of RFC 8259. */
  function ShortEscape(c: char): Option<char> {
    match c
    case '"' => Some('"')
    case '\\' => Some('\\')
    case '/' => Some('/')
    case 'b' => Some(8 as char)
    case 'f' => Some(12 as char)
    case 'n' => Some('\n')
    case 'r' => Some('\r')
    case 't' => Some('\t')
    case _ => None
  }

  /** The code unit of a \uXXXX escape at the front of `s`. */
  function UnicodeEscape(s: string): (r: Option<nat>)
    ensures r.Some? ==> |s| >= 6 && s[0] == '\\' && r.value < 0x10000
  {
    if |s| >= 6 && s[0] == '\\' && s[1] == 'u' && AllDigits(16, s[2..6]) then
      var v := Value(16, s[2..6]);
      FourDigits(s[2..6]);
      Some(v)
    else None
  }

  lemma OneMoreDigit(s: string, bound: nat)
    requires s != "" && AllDigits(16, s) && Value(16, s[..|s| - 1]) < bound
    ensures Value(16, s) < 16 * bound
  {
  }

  lemma FourDigits(s: string)
    requires |s| == 4 && AllDigits(16, s)
    ensures Value(16, s) < 0x10000
  {
    assert Value(16, s[..0]) < 1;
    assert s[..1][..0] == s[..0] && s[..2][..1] == s[..1] && s[..3][..2] == s[..2];
    OneMoreDigit(s[..1], 1);
    OneMoreDigit(s[..2], 16);
    OneMoreDigit(s[..3], 256);
    OneMoreDigit(s, 4096);
  }

  /** Reads a JSON string whose opening quote has been read, up to and past its closing quote. */
  function ReadJsonString(s: string): (r: Option<Scan>)
    ensures r.Some? ==> |r.value.rest| < |s|
    decreases |s|
  {
    if s == "" then None
    else if s[0] == '"' then Some(Scan("", s[1..]))
    else if s[0] < ' ' then None
    else if s[0] != '\\' then Prepend(s[0], ReadJsonString(s[1..]))
    else if |s| < 2 then None
    else if ShortEscape(s[1]).Some? then Prepend(ShortEscape(s[1]).value, ReadJsonString(s[2..]))
    else
      match UnicodeEscape(s)
      case None => None
      case Some(u) =>
        if IsScalar(u) then Prepend(u as char, ReadJsonString(s[6..]))
        else
          var low := UnicodeEscape(s[6..]);
          if u < 0xDC00 && low.Some? && 0xDC00 <= low.value < 0xE000 then
            Prepend((0x10000 + (u - 0xD800) * 0x400 + (low.value - 0xDC00)) as char, ReadJsonString(s[12..]))
          else None
  }

  /** The string a JSON reader sees: each backslash of the original comes back as two. */
  function DoubleBackslashes(s: string): string {
    if s == "" then ""
    else (if s[0] == '\\' then "\\\\" else [s[0]]) + DoubleBackslashes(s[1..])
  }

  /** A character whose JSON encoding a reader understands: printable, or in the Basic Multilingual Plane. */
  predicate JsonReadable(printable: char -> bool, c: char) {
    printable(c) || c as int <= 0xFFFF
  }

  predicate AllJsonReadable(printable: char -> bool, s: string) {
    forall i :: 0 <= i < |s| ==> JsonReadable(printable, s[i])
  }

  /**
   What a reader sees of one character. An escape of more than four digits is read as one character followed by stray
   digits, or not at all if its first four digits are a surrogate.
   */
  function SeenChar(printable: char -> bool, c: char): Option<string> {
    if JsonReadable(printable, c) then Some(if c == '\\' then "\\\\" else [c])
    else
      var h := PaddedHex(c as int, 4);
      WideHex(c);
      var u := Value(16, h[..4]);
      if IsScalar(u) then Some([u as char] + h[4..]) else None
  }

  /** What a reader sees of a text, if it can read it at all. */
  function JsonSeen(printable: char -> bool, s: string): Option<string> {
    if s == "" then Some("")
    else
      var first, more := SeenChar(printable, s[0]), JsonSeen(printable, s[1..]);
      if first.None? || more.None? then None else Some(first.value + more.value)
  }

  lemma WideHex(c: char)
    ensures var h := PaddedHex(c as int, 4); |h| >= 4 && AllDigits(16, h[..4]) && AllDigits(16, h[4..])
    ensures c as int > 0xFFFF <==> |PaddedHex(c as int, 4)| > 4
  {
    HexLengths(c as int);
    PaddedHexValue(c as int, 4);
  }

  function PrependAll(p: Option<string>, r: Option<Scan>): Option<Scan> {
    if p.None? || r.None? then None else Some(Scan(p.value + r.value.text, r.value.rest))
  }

  lemma JsonEscapeRead(c: char, tail: string)
    requires c as int <= 0xFFFF
    ensures ReadJsonString(Escape(Json, c) + tail) == Prepend(c, ReadJsonString(tail))
  {
    var n := c as int;
    HexLengths(n);
    PaddedHexValue(n, 4);
    var s := Escape(Json, c) + tail;
    assert s[2..6] == PaddedHex(n, 4);
    assert s[6..] == tail;
  }

  lemma DigitRead(c: char, tail: string)
    requires DigitValue(16, c).Some?
    ensures ReadJsonString([c] + tail) == Prepend(c, ReadJsonString(tail))
  {
  }

  lemma {:induction false} JsonDigitsRead(d: string, tail: string)
    requires AllDigits(16, d)
    ensures ReadJsonString(d + tail) == PrependAll(Some(d), ReadJsonString(tail))
  {
    var r := ReadJsonString(tail);
    if d == "" {
      assert d + tail == tail;
      assert r.Some? ==> "" + r.value.text == r.value.text;
    } else {
      assert d == [d[0]] + d[1..];
      Regroup([d[0]], d[1..], tail);
      DigitRead(d[0], d[1..] + tail);
      JsonDigitsRead(d[1..], tail);
      if r.Some? {
        Regroup([d[0]], d[1..], r.value.text);
      }
    }
  }

  lemma UnicodeEscapeIs(d: string, t: string)
    requires |d| == 4 && AllDigits(16, d)
    ensures var s := "\\u" + (d + t); UnicodeEscape(s) == Some(Value(16, d)) && |s| >= 6 && s[6..] == t
  {
    var s := "\\u" + (d + t);
    assert s[2..6] == d;
    FourDigits(d);
  }

  /** An escape with digits to spare, as the reader takes it. */
  lemma LongEscapeRead(d: string, more: string, tail: string)
    requires |d| == 4 && AllDigits(16, d) && more != "" && AllDigits(16, more)
    ensures var u := Value(16, d);
            ReadJsonString("\\u" + (d + (more + tail)))
            == if IsScalar(u) then Prepend(u as char, PrependAll(Some(more), ReadJsonString(tail))) else None
  {
    UnicodeEscapeIs(d, more + tail);
    assert DigitValue(16, more[0]).Some?;
    assert (more + tail)[0] == more[0];
    assert UnicodeEscape(more + tail).None?;
    JsonDigitsRead(more, tail);
  }

  lemma SplitEscape(h: string, tail: string)
    requires |h| >= 4
    ensures "\\u" + h + tail == "\\u" + (h[..4] + (h[4..] + tail))
  {
    assert h == h[..4] + h[4..];
  }

  lemma PrependBoth(u: char, more: string, r: Option<Scan>)
    ensures Prepend(u, PrependAll(Some(more), r)) == PrependAll(Some([u] + more), r)
  {
    if r.Some? {
      Regroup([u], more, r.value.text);
    }
  }

  lemma JsonWideRead(printable: char -> bool, c: char, tail: string)
    requires !JsonReadable(printable, c)
    ensures ReadJsonString(Escape(Json, c) + tail) == PrependAll(SeenChar(printable, c), ReadJsonString(tail))
  {
    WideHex(c);
    var h := PaddedHex(c as int, 4);
    var u := Value(16, h[..4]);
    SplitEscape(h, tail);
    LongEscapeRead(h[..4], h[4..], tail);
    if IsScalar(u) {
      PrependBoth(u as char, h[4..], ReadJsonString(tail));
    }
  }

  lemma QuoteEscapeRead(tail: string)
    ensures ReadJsonString("\\\"" + tail) == PrependAll(Some("\""), ReadJsonString(tail))
  {
    var s := "\\\"" + tail;
    assert s[0] == '\\' && s[1] == '"' && s[2..] == tail;
  }

  lemma PairRead(tail: string)
    ensures ReadJsonString("\\\\" + tail) == Prepend('\\', ReadJsonString(tail))
  {
    var s := "\\\\" + tail;
    assert s[0] == '\\' && s[1] == '\\' && s[2..] == tail;
  }

  lemma BackslashRead(tail: string)
    ensures ReadJsonString("\\\\\\\\" + tail) == PrependAll(Some("\\\\"), ReadJsonString(tail))
  {
    assert "\\\\\\\\" + tail == "\\\\" + ("\\\\" + tail);
    PairRead("\\\\" + tail);
    PairRead(tail);
    var r := ReadJsonString(tail);
    assert r.Some? ==> ['\\'] + (['\\'] + r.value.text) == "\\\\" + r.value.text;
  }

  lemma PlainRead(c: char, tail: string)
    requires c >= ' ' && c != '"' && c != '\\'
    ensures ReadJsonString([c] + tail) == PrependAll(Some([c]), ReadJsonString(tail))
  {
    var s := [c] + tail;
    assert s[0] == c && s[1..] == tail;
  }

  lemma JsonCharRead(printable: char -> bool, c: char, tail: string)
    requires AsciiPrintable(printable)
    ensures ReadJsonString(EncodeChar(Json, printable, c) + tail)
            == PrependAll(SeenChar(printable, c), ReadJsonString(tail))
  {
    if c == '"' {
      QuoteEscapeRead(tail);
    } else if c == '\\' {
      BackslashRead(tail);
    } else if printable(c) {
      PlainRead(c, tail);
    } else if c as int <= 0xFFFF {
      JsonEscapeRead(c, tail);
    } else {
      JsonWideRead(printable, c, tail);
    }
  }

  lemma PrependInTurn(a: Option<string>, b: Option<string>, r: Option<Scan>)
    ensures PrependAll(a, PrependAll(b, r))
            == PrependAll(if a.None? || b.None? then None else Some(a.value + b.value), r)
  {
    if a.Some? && b.Some? && r.Some? {
      Regroup(a.value, b.value, r.value.text);
    }
  }

  /** The reader takes an encoded text as it is seen and goes on behind it, whatever follows. */
  lemma {:induction false} JsonEachRead(printable: char -> bool, s: string, tail: string)
    requires AsciiPrintable(printable)
    ensures ReadJsonString(EncodeEach(Json, printable, s) + tail)
         == PrependAll(JsonSeen(printable, s), ReadJsonString(tail))
  {
    var r := ReadJsonString(tail);
    if s == "" {
      assert "" + tail == tail;
      assert r.Some? ==> "" + r.value.text == r.value.text;
    } else {
      var more := EncodeEach(Json, printable, s[1..]) + tail;
      Regroup(EncodeChar(Json, printable, s[0]), EncodeEach(Json, printable, s[1..]), tail);
      JsonEachRead(printable, s[1..], tail);
      JsonCharRead(printable, s[0], more);
      PrependInTurn(SeenChar(printable, s[0]), JsonSeen(printable, s[1..]), r);
    }
  }

  lemma QuoteRead(rest: string)
    ensures ReadJsonString("\"" + rest) == Some(Scan("", rest))
  {
  }

  /** What a JSON reader gets from any encoded text. */
  lemma JsonStringRead(printable: char -> bool, s: string, rest: string)
    requires AsciiPrintable(printable)
    ensures var seen := JsonSeen(printable, s);
            ReadJsonString(Encode(Json, printable, s) + "\"" + rest)
            == if seen.None? then None else Some(Scan(seen.value, rest))
  {
    TwoPassesAreOne(Json, printable, s);
    Regroup(Encode(Json, printable, s), "\"", rest);
    JsonEachRead(printable, s, "\"" + rest);
    QuoteRead(rest);
    var seen := JsonSeen(printable, s);
    assert seen.Some? ==> seen.value + "" == seen.value;
  }

  lemma {:induction false} JsonSeenLength(printable: char -> bool, s: string)
    ensures var seen := JsonSeen(printable, s);
            if AllJsonReadable(printable, s) then seen == Some(DoubleBackslashes(s))
            else seen.Some? ==> |seen.value| > |DoubleBackslashes(s)|
  {
    if s != "" {
      JsonSeenLength(printable, s[1..]);
      assert AllJsonReadable(printable, s) <==> JsonReadable(printable, s[0]) && AllJsonReadable(printable, s[1..]) by {
        assert forall i :: 1 <= i < |s| ==> s[i] == s[1..][i - 1];
      }
      WideHex(s[0]);
    }
  }

  /** The text comes back, backslashes doubled, exactly when no non-printable character is beyond 0xFFFF. */
  lemma JsonStringRoundTrip(printable: char -> bool, s: string, rest: string)
    requires AsciiPrintable(printable)
    ensures ReadJsonString(Encode(Json, printable, s) + "\"" + rest) == Some(Scan(DoubleBackslashes(s), rest))
            <==> AllJsonReadable(printable, s)
  {
    JsonStringRead(printable, s, rest);
    JsonSeenLength(printable, s);
  }

  // ----- quotes in JSON

  /** Every quote, and every backslash, is the second character of an escape. */
  predicate QuoteFree(s: string) {
    s == "" || if s[0] == '\\' then |s| >= 2 && QuoteFree(s[2..]) else s[0] != '"' && QuoteFree(s[1..])
  }

  lemma {:induction false} PlainQuoteFree(a: string, tail: string)
    requires QuoteFree(tail) && forall i :: 0 <= i < |a| ==> a[i] != '"' && a[i] != '\\'
    ensures QuoteFree(a + tail)
  {
    if a == "" {
      assert a + tail == tail;
    } else {
      assert (a + tail)[1..] == a[1..] + tail;
      PlainQuoteFree(a[1..], tail);
    }
  }

  lemma EscapeQuoteFree(c: char, tail: string)
    requires QuoteFree(tail)
    ensures QuoteFree(['\\', c] + tail)
  {
  }

  lemma HexQuoteFree(h: string, tail: string)
    requires AllDigits(16, h) && QuoteFree(tail)
    ensures QuoteFree("\\u" + h + tail)
  {
    assert forall i :: 0 <= i < |h| ==> DigitValue(16, h[i]).Some?;
    PlainQuoteFree(h, tail);
    EscapeQuoteFree('u', h + tail);
    Regroup("\\u", h, tail);
  }

  lemma CharQuoteFree(printable: char -> bool, c: char, tail: string)
    requires QuoteFree(tail)
    ensures QuoteFree(EncodeChar(Json, printable, c) + tail)
  {
    if c == '"' {
      EscapeQuoteFree('"', tail);
    } else if c == '\\' {
      EscapeQuoteFree('\\', tail);
      EscapeQuoteFree('\\', "\\\\" + tail);
      assert "\\\\\\\\" + tail == "\\\\" + ("\\\\" + tail);
    } else if printable(c) {
      PlainQuoteFree([c], tail);
    } else {
      PaddedHexValue(c as int, 4);
      HexQuoteFree(PaddedHex(c as int, 4), tail);
    }
  }

  /** No encoded text holds an unescaped quote. */
  lemma {:induction false} EncodedQuoteFree(printable: char -> bool, s: string)
    requires AsciiPrintable(printable)
    ensures QuoteFree(Encode(Json, printable, s))
    decreases |s|
  {
    TwoPassesAreOne(Json, printable, s);
    if s != "" {
      EncodedQuoteFree(printable, s[1..]);
      TwoPassesAreOne(Json, printable, s[1..]);
      CharQuoteFree(printable, s[0], EncodeEach(Json, printable, s[1..]));
    }
  }

  // ----- XML

  /** A character or entity reference at the front of `s`: the character and the input after it. */
  function ReadReference(s: string): (r: Option<(char, string)>)
    ensures r.Some? ==> |r.value.1| < |s|
  {
    if StartsWith(s, "&amp;") then Some(('&', s[5..]))
    else if StartsWith(s, "&lt;") then Some(('<', s[4..]))
    else if StartsWith(s, "&gt;") then Some(('>', s[4..]))
    else if StartsWith(s, "&apos;") then Some(('\'', s[6..]))
    else if StartsWith(s, "&quot;") then Some(('"', s[6..]))
    else if StartsWith(s, "&#x") then ReadCharacterNumber(16, s[3..])
    else if StartsWith(s, "&#") then ReadCharacterNumber(10, s[2..])
    else None
  }

  function ReadCharacterNumber(base: Base, s: string): (r: Option<(char, string)>)
    ensures r.Some? ==> |r.value.1| < |s|
  {
    var n := DigitRun(base, s);
    if 0 < n < |s| && s[n] == ';' && IsScalar(Value(base, s[..n])) then
      Some((Value(base, s[..n]) as char, s[n + 1..]))
    else None
  }

  /** Where a run of XML text stands: between tags, or inside a double-quoted attribute value. */
  datatype Place = Content | Attribute

  function Delimiter(p: Place): char {
    if p == Content then '<' else '"'
  }

  /** Section 3.3.3: white space written literally in an attribute value reads as a space. */
  function Normalize(p: Place, c: char): char {
    if p == Attribute && (c == '\n' || c == '\t' || c == '\r') then ' ' else c
  }

  /** Reads XML text up to its delimiter, which stays in the input. */
  function ReadXmlText(p: Place, s: string): (r: Option<Scan>)
    ensures r.Some? ==> 0 < |r.value.rest| <= |s| && r.value.rest[0] == Delimiter(p)
    decreases |s|
  {
    if s == "" then None
    else if s[0] == Delimiter(p) then Some(Scan("", s))
    else if s[0] == '<' then None
    else if s[0] != '&' then Prepend(Normalize(p, s[0]), ReadXmlText(p, s[1..]))
    else
      match ReadReference(s)
      case None => None
      case Some((c, rest)) => Prepend(c, ReadXmlText(p, rest))
  }

  lemma XmlNumberRead(c: char, tail: string)
    ensures ReadCharacterNumber(16, PaddedHex(c as int, 2) + (";" + tail)) == Some((c, tail))
  {
    var h := PaddedHex(c as int, 2);
    PaddedHexValue(c as int, 2);
    DigitRunOf(16, h, ";" + tail);
    var s := h + (";" + tail);
    assert s[..|h|] == h;
    assert s[|h| + 1..] == tail;
  }

  lemma NumberReference(t: string)
    ensures ReadReference("&#x" + t) == ReadCharacterNumber(16, t)
  {
    var s := "&#x" + t;
    assert s[..3] == "&#x" && s[3..] == t && s[1] == '#';
    assert !StartsWith(s, "&amp;") && !StartsWith(s, "&lt;") && !StartsWith(s, "&gt;")
        && !StartsWith(s, "&apos;") && !StartsWith(s, "&quot;") by {
      assert |s| >= 4 ==> s[..4][1] == '#';
      assert |s| >= 5 ==> s[..5][1] == '#';
      assert |s| >= 6 ==> s[..6][1] == '#';
    }
  }

  lemma XmlEscapeRead(p: Place, c: char, tail: string)
    ensures ReadXmlText(p, Escape(Xml, c) + tail) == Prepend(c, ReadXmlText(p, tail))
  {
    var h := PaddedHex(c as int, 2);
    XmlNumberRead(c, tail);
    NumberReference(h + (";" + tail));
    ReferenceRead(p, "&#x" + (h + (";" + tail)), c, tail);
    RegroupFour("&#x", h, ";", tail);
  }

  lemma ReferenceRead(p: Place, s: string, c: char, tail: string)
    requires s != "" && s[0] == '&' && ReadReference(s) == Some((c, tail))
    ensures ReadXmlText(p, s) == Prepend(c, ReadXmlText(p, tail))
  {
  }

  lemma XmlCharRead(printable: char -> bool, p: Place, c: char, tail: string)
    requires AsciiPrintable(printable)
    ensures ReadXmlText(p, EncodeChar(Xml, printable, c) + tail) == Prepend(c, ReadXmlText(p, tail))
  {
    var e := EncodeChar(Xml, printable, c);
    var s := e + tail;
    if Substitute(Xml, c) != [c] {
      assert s[..|e|] == e && s[|e|..] == tail;
      assert s[1] == e[1] && s[2] == e[2];
      XmlEntityRead(c, tail);
    } else if printable(c) {
      assert s[1..] == tail;
    } else {
      XmlEscapeRead(p, c, tail);
    }
  }

  lemma XmlEntityRead(c: char, tail: string)
    requires Substitute(Xml, c) != [c]
    ensures ReadReference(Substitute(Xml, c) + tail) == Some((c, tail))
  {
    var e := Substitute(Xml, c);
    var s := e + tail;
    assert s[..|e|] == e && s[|e|..] == tail;
    assert s[1] == e[1] && s[2] == e[2] && s[3] == e[3];
    assert StartsWith(s, "&amp;") ==> s[..5][1] == 'a' && s[..5][2] == 'm';
    assert StartsWith(s, "&lt;") ==> s[..4][1] == 'l';
    assert StartsWith(s, "&gt;") ==> s[..4][1] == 'g';
    assert StartsWith(s, "&apos;") ==> s[..6][1] == 'a' && s[..6][2] == 'p';
  }

  lemma {:induction false} XmlEachRead(printable: char -> bool, p: Place, s: string, rest: string)
    requires AsciiPrintable(printable)
    requires rest != "" && rest[0] == Delimiter(p)
    ensures ReadXmlText(p, EncodeEach(Xml, printable, s) + rest) == Some(Scan(s, rest))
  {
    if s == "" {
      assert "" + rest == rest;
    } else {
      var tail := EncodeEach(Xml, printable, s[1..]) + rest;
      assert EncodeEach(Xml, printable, s) + rest == EncodeChar(Xml, printable, s[0]) + tail;
      XmlEachRead(printable, p, s[1..], rest);
      XmlCharRead(printable, p, s[0], tail);
      assert [s[0]] + s[1..] == s;
    }
  }

  /** XML text and attribute values of every content come back unchanged. */
  lemma XmlTextRoundTrip(printable: char -> bool, p: Place, s: string, rest: string)
    requires AsciiPrintable(printable)
    requires rest != "" && rest[0] == Delimiter(p)
    ensures ReadXmlText(p, Encode(Xml, printable, s) + rest) == Some(Scan(s, rest))
  {
    TwoPassesAreOne(Xml, printable, s);
    XmlEachRead(printable, p, s, rest);
  }
}
