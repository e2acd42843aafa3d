/**
 The text encodings of src/output.c: the substitution table (`output_translate`) and the
 replacement of non-printable characters (`encode_string`), as functions on strings.
 */
module Encoding {
  import opened Prelude
  import opened Numerals

  datatype Format = Text | Crumb | Json | Xml

  predicate Encoded(f: Format) {
    f == Json || f == Xml
  }

  /** One row of the translation table: `from` is replaced by `to`. */
  datatype Row = Row(from: char, to: string)

  const END_ROW := Row(NUL, "")

  const XML_TABLE: seq<Row> := [
    Row('\'', "&apos;"), Row('"', "&quot;"), Row('&', "&amp;"), Row('<', "&lt;"), Row('>', "&gt;"), END_ROW
  ]

  const JSON_TABLE: seq<Row> := [
    Row('"', "\\\""), Row('\\', "\\\\\\\\"), END_ROW, END_ROW, END_ROW, END_ROW
  ]

  /** The table for a format; every table has the same fixed number of rows. */
  function Table(f: Format): (t: seq<Row>)
    requires Encoded(f)
    ensures |t| == 6
  {
    if f == Xml then XML_TABLE else JSON_TABLE
  }

  /** What the two formats ask of one character: the table's text, or the character itself. */
  function Substitute(f: Format, c: char): string
    requires Encoded(f)
  {
    if f == Xml then
      (match c
       case '\'' => "&apos;"
       case '"' => "&quot;"
       case '&' => "&amp;"
       case '<' => "&lt;"
       case '>' => "&gt;"
       case _ => [c])
    else
      (match c
       case '"' => "\\\""
       case '\\' => "\\\\\\\\"
       case _ => [c])
  }

  function Translate(f: Format, s: string): string
    requires Encoded(f)
  {
    if s == "" then "" else Substitute(f, s[0]) + Translate(f, s[1..])
  }

  // ----- characters that cannot be printed

  /** The text written for a character that cannot be printed. */
  function Escape(f: Format, c: char): string {
    if f == Json then "\\u" + PaddedHex(c as int, 4) else "&#x" + PaddedHex(c as int, 2) + ";"
  }

  /** The second pass of `encode_string`. */
  function EscapeAll(f: Format, printable: char -> bool, s: string): string
    requires Encoded(f)
  {
    if s == "" then ""
    else (if printable(s[0]) then [s[0]] else Escape(f, s[0])) + EscapeAll(f, printable, s[1..])
  }

  /** `encode_string`: the two passes for JSON and XML, nothing for the other formats. */
  function Encode(f: Format, printable: char -> bool, s: string): string {
    if Encoded(f) then EscapeAll(f, printable, Translate(f, s)) else s
  }

  /** Within ASCII, `iswprint` is fixed by its standard; beyond ASCII it is whatever the locale says. */
  ghost predicate AsciiPrintable(printable: char -> bool) {
    forall c: char :: c as int < 128 ==> (printable(c) <==> ' ' <= c <= '~')
  }

  // ----- the two passes are one per-character encoding

  /** The encoding of one character, as a reader of the two formats would define it. */
  function EncodeChar(f: Format, printable: char -> bool, c: char): string
    requires Encoded(f)
  {
    if Substitute(f, c) != [c] then Substitute(f, c)
    else if printable(c) then [c]
    else Escape(f, c)
  }

  function EncodeEach(f: Format, printable: char -> bool, s: string): string
    requires Encoded(f)
  {
    if s == "" then "" else EncodeChar(f, printable, s[0]) + EncodeEach(f, printable, s[1..])
  }

  lemma {:induction false} EscapeAllConcat(f: Format, printable: char -> bool, a: string, b: string)
    requires Encoded(f)
    ensures EscapeAll(f, printable, a + b) == EscapeAll(f, printable, a) + EscapeAll(f, printable, b)
  {
    if a == "" {
      assert a + b == b;
    } else {
      assert (a + b)[0] == a[0] && (a + b)[1..] == a[1..] + b;
      EscapeAllConcat(f, printable, a[1..], b);
    }
  }

  lemma {:induction false} EscapeAllPrintable(f: Format, printable: char -> bool, s: string)
    requires Encoded(f)
    requires forall i :: 0 <= i < |s| ==> printable(s[i])
    ensures EscapeAll(f, printable, s) == s
  {
    if s != "" {
      EscapeAllPrintable(f, printable, s[1..]);
    }
  }

  lemma SubstituteEscaped(f: Format, printable: char -> bool, c: char)
    requires Encoded(f) && AsciiPrintable(printable)
    ensures EscapeAll(f, printable, Substitute(f, c)) == EncodeChar(f, printable, c)
  {
    var t := Substitute(f, c);
    if t == [c] {
      assert t[1..] == "";
    } else {
      EscapeAllPrintable(f, printable, t);
    }
  }

  /** The table pass followed by the non-printable pass is one encoding applied per character. */
  lemma {:induction false} TwoPassesAreOne(f: Format, printable: char -> bool, s: string)
    requires Encoded(f) && AsciiPrintable(printable)
    ensures Encode(f, printable, s) == EncodeEach(f, printable, s)
  {
    if s != "" {
      EscapeAllConcat(f, printable, Substitute(f, s[0]), Translate(f, s[1..]));
      SubstituteEscaped(f, printable, s[0]);
      TwoPassesAreOne(f, printable, s[1..]);
    }
  }

  // ----- what is written

  /** A character that has a row in the table of the format. */
  predicate Special(f: Format, c: char) {
    if f == Xml then c == '\'' || c == '"' || c == '&' || c == '<' || c == '>' else c == '"' || c == '\\'
  }

  /** Printable text without special characters is written as it is. */
  lemma {:induction false} PlainIsKept(f: Format, printable: char -> bool, s: string)
    requires Encoded(f) && AsciiPrintable(printable)
    requires forall i :: 0 <= i < |s| ==> printable(s[i]) && !Special(f, s[i])
    ensures Encode(f, printable, s) == s
  {
    TwoPassesAreOne(f, printable, s);
    if s != "" {
      PlainIsKept(f, printable, s[1..]);
      TwoPassesAreOne(f, printable, s[1..]);
      assert s == [s[0]] + s[1..];
    }
  }

  lemma OneChar(f: Format, printable: char -> bool, c: char)
    requires Encoded(f) && AsciiPrintable(printable)
    ensures Encode(f, printable, [c]) == EncodeChar(f, printable, c)
  {
    TwoPassesAreOne(f, printable, [c]);
    var none := [c][1..];
    assert EncodeEach(f, printable, none) == "";
  }

  /** How XML spells one character, beside the table and the passes. */
  lemma XmlSpelling(printable: char -> bool, c: char)
    requires AsciiPrintable(printable)
    ensures Encode(Xml, printable, [c])
         == if c == '\'' then "&apos;" else if c == '"' then "&quot;" else if c == '&' then "&amp;"
            else if c == '<' then "&lt;" else if c == '>' then "&gt;" else if printable(c) then [c]
            else "&#x" + PaddedHex(c as int, 2) + ";"
  {
    OneChar(Xml, printable, c);
  }

  /** How JSON spells one character. */
  lemma JsonSpelling(printable: char -> bool, c: char)
    requires AsciiPrintable(printable)
    ensures Encode(Json, printable, [c])
         == if c == '"' then "\\\"" else if c == '\\' then "\\\\\\\\" else if printable(c) then [c]
            else "\\u" + PaddedHex(c as int, 4)
  {
    OneChar(Json, printable, c);
  }

  /** A newline and an escape character, as the conversions %2.2x and %4.4x write them. */
  lemma HexSpelling()
    ensures PaddedHex(0xa, 2) == "0a" && PaddedHex(0xa, 4) == "000a"
    ensures PaddedHex(0x1b, 2) == "1b" && PaddedHex(0x1b, 4) == "001b"
  {
    assert Numeral(16, 0xa) == "a";
    assert Numeral(16, 0x1) == "1";
    assert Numeral(16, 0x1b) == "1" + "b" == "1b";
    assert Repeat('0', 1) == "0" && Repeat('0', 2) == "00" && Repeat('0', 3) == "000";
  }

  // ----- what an encoding never contains

  /** Every character of `s` is printable ASCII. */
  predicate Plain(s: string) {
    forall i :: 0 <= i < |s| ==> ' ' <= s[i] <= '~'
  }

  lemma EscapePlain(f: Format, c: char)
    requires Encoded(f)
    ensures Plain(Escape(f, c))
  {
    NumeralPlain(16, c as int);
  }

  /** A run-time text holding neither the terminator nor a newline. */
  predicate OneLine(s: string) {
    NoNul(s) && NoNewline(s)
  }

  lemma EncodeCharOneLine(f: Format, printable: char -> bool, c: char)
    requires Encoded(f) && AsciiPrintable(printable)
    ensures OneLine(EncodeChar(f, printable, c))
    ensures EncodeChar(f, printable, c) != ""
  {
    EscapePlain(f, c);
  }

  lemma {:induction false} EncodeEachOneLine(f: Format, printable: char -> bool, s: string)
    requires Encoded(f) && AsciiPrintable(printable)
    ensures OneLine(EncodeEach(f, printable, s))
  {
    if s != "" {
      EncodeCharOneLine(f, printable, s[0]);
      EncodeEachOneLine(f, printable, s[1..]);
    }
  }

  /** Encoded text fits on one line, whatever the original held. */
  lemma EncodeOneLine(f: Format, printable: char -> bool, s: string)
    requires Encoded(f) && AsciiPrintable(printable)
    ensures OneLine(Encode(f, printable, s))
  {
    TwoPassesAreOne(f, printable, s);
    EncodeEachOneLine(f, printable, s);
  }
}
