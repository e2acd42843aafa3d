/**
 The text format with an indent of one character: what the clean-up takes for text and is not.
 */
module StrayLines {
  import opened Prelude
  import opened Encoding
  import opened Document
  import opened Layout
  import opened Emission
  import opened TextLines
  import opened CleanedLines
  import opened ShownLines
  import opened Outlines
  import opened FirmTexts

  /** A section that holds a section with an entry, and then an entry. */
  function Nested(a: string, b: string, x: string, y: string): Nodes {
    Cons(Section(a, Cons(Section(b, Cons(Entry(x, "1"), Nil)), Cons(Entry(y, "2"), Nil))), Nil)
  }

  /** The label of an entry or a group head. */
  function Row(cfg: Config, i: nat, text: string): string {
    Repeat(cfg.indentChar, i) + text
  }

  lemma NestedOutline(cfg: Config, a: string, b: string, x: string, y: string)
    requires cfg.indentAmount == 1
    ensures var first := [Row(cfg, 0, a + ":"), Row(cfg, 1, b + ":"), Row(cfg, 2, x + cfg.textSeparator + "1")];
            var last := Row(cfg, 1, y + cfg.textSeparator + "2");
            Outline(cfg, 0, Nested(a, b, x, y)) == first + [[cfg.indentChar], last, ""]
            && Labels(cfg, 0, Nested(a, b, x, y)) == first + [last]
  {
    var xs, ys := Cons(Entry(x, "1"), Nil), Cons(Entry(y, "2"), Nil);
    var inner, last := Row(cfg, 2, x + cfg.textSeparator + "1"), Row(cfg, 1, y + cfg.textSeparator + "2");
    var head := Row(cfg, 1, b + ":");
    assert Repeat(cfg.indentChar, 0) == "" && Repeat(cfg.indentChar, 1) == [cfg.indentChar];
    assert Outline(cfg, 2, xs) == [inner] && Labels(cfg, 2, xs) == [inner];
    assert Outline(cfg, 1, ys) == [last] && Labels(cfg, 1, ys) == [last];
    assert GroupOutline(cfg, 1, b, xs) == [head, inner, [cfg.indentChar]];
    assert GroupLabels(cfg, 1, b, xs) == [head, inner];
    var ns := Cons(Section(b, xs), ys);
    assert Outline(cfg, 1, ns) == [head, inner, [cfg.indentChar], last] && Labels(cfg, 1, ns) == [head, inner, last];
    var top := Row(cfg, 0, a + ":");
    assert GroupOutline(cfg, 0, a, ns) == [top, head, inner, [cfg.indentChar], last, ""];
    assert GroupLabels(cfg, 0, a, ns) == [top, head, inner, last];
  }

  lemma {:induction false} FirmStays(c: char, lines: seq<string>, rest: seq<string>)
    requires AllFirm(c, lines)
    ensures Kept(c, lines + rest) == lines + Kept(c, rest)
  {
    if lines == [] {
      assert lines + rest == rest;
    } else {
      assert (lines + rest)[1..] == lines[1..] + rest;
      FirmStays(c, lines[1..], rest);
    }
  }

  lemma LoneKept(c: char, lines: seq<string>, last: string)
    requires AllFirm(c, lines) && Firm(c, last)
    ensures Kept(c, lines + [[c], last]) == lines + [[c], last]
  {
    FirmStays(c, lines, [[c], last]);
    assert [[c], last][1..] == [last] && [last][1..] == [];
    assert Kept(c, [last]) == [last];
    assert Kept(c, [[c], last]) == [[c]] + [last];
  }

  lemma LoneTrimmed(c: char, lines: seq<string>, last: string)
    requires Firm(c, last) && last[|last| - 1] != c
    ensures Trimmed(c, lines + [last] + [""]) == lines + [last]
  {
    var all := lines + [last];
    assert (all + [""])[..|all|] == all && all[..|lines|] == lines;
    assert Stripped(c, last) == last;
  }

  lemma LoneLineKept(c: char, lines: seq<string>, last: string)
    requires AllFirm(c, lines) && Firm(c, last) && last[|last| - 1] != c && c != NEWLINE && lines != []
    ensures var all := lines + [[c], last]; CleanedUp(c, Unlines(all + [""])) == Unlines(all)
  {
    var all := lines + [[c], last];
    assert Trimmed(c, all + [""]) == all by {
      assert all == lines + [[c]] + [last];
      LoneTrimmed(c, lines + [[c]], last);
    }
    LoneKept(c, lines, last);
    NothingDropped(c, all);
    AllShown(c, all);
  }

  lemma AllShown(c: char, lines: seq<string>)
    requires NoNewlines(lines) && lines != [] && lines[0] != "" && AllNeat(c, lines) && Dropless(c, lines)
    requires Kept(c, lines) == lines && Trimmed(c, lines + [""]) == lines
    ensures CleanedUp(c, Unlines(lines + [""])) == Unlines(lines)
  {
    CleanLines(c, lines + [""]);
  }

  lemma {:induction false} NothingDropped(c: char, lines: seq<string>)
    requires forall k :: 0 <= k < |lines| ==> lines[k] != "" && !EndsDouble(c, lines[k])
    ensures Dropless(c, lines)
  {
    if lines != [] {
      NothingDropped(c, lines[1..]);
    }
  }

  /**
   With an indent of one, although every label is firm, a line of one indent character is shown between the two entries,
   so the lines shown are not the labels.
   */
  lemma StrayLine(cfg: Config, rel: Release, a: string, b: string, x: string, y: string)
    requires cfg.format == Text && cfg.indentAmount == 1 && cfg.indentChar != NEWLINE && cfg.indentChar != '2'
    requires AllFirm(cfg.indentChar, Labels(cfg, 0, Nested(a, b, x, y)))
    ensures var ns := Nested(a, b, x, y);
            var labels, clean := Labels(cfg, 0, ns), CleanedUp(cfg.indentChar, PrintDocument(cfg, rel, ns));
            Strays(cfg, ns) && |labels| == 4
            && clean == Unlines(labels[..3] + [[cfg.indentChar]] + labels[3..]) != Unlines(labels)
  {
    var c, ns := cfg.indentChar, Nested(a, b, x, y);
    var labels := Labels(cfg, 0, ns);
    NestedOutline(cfg, a, b, x, y);
    NestedIsFlat(a, b, x, y);
    TextIsOutline(cfg, rel, ns);
    var first, last := labels[..3], labels[3];
    assert labels == first + [last] && last[|last| - 1] == '2';
    LoneLineKept(c, first, last);
    assert first + [[c], last] == first + [[c]] + labels[3..];
    assert first + [[c], last, ""] == first + [[c], last] + [""];
    NestedStrays(cfg, a, b, x, y);
    LongerText(first, [c], labels[3..]);
  }

  lemma LongerText(a: seq<string>, w: string, b: seq<string>)
    ensures |Unlines(a + [w] + b)| > |Unlines(a + b)|
  {
    UnlinesConcat(a, b);
    UnlinesConcat(a + [w], b);
    UnlinesConcat(a, [w]);
  }

  lemma NestedIsFlat(a: string, b: string, x: string, y: string)
    ensures Flatten(Nested(a, b, x, y)) == Nested(a, b, x, y)
  {
    var xs, ys := Cons(Entry(x, "1"), Nil), Cons(Entry(y, "2"), Nil);
    assert ObjectFree(xs) && ObjectFree(ys) && ObjectFree(Cons(Section(b, xs), ys));
    FlattenFlat(Nested(a, b, x, y));
  }

  lemma NestedStrays(cfg: Config, a: string, b: string, x: string, y: string)
    requires cfg.indentAmount == 1 && cfg.indentChar != NEWLINE
    requires Firm(cfg.indentChar, Row(cfg, 1, y + cfg.textSeparator + "2"))
    ensures Strays(cfg, Nested(a, b, x, y))
  {
    var xs, ys := Cons(Entry(x, "1"), Nil), Cons(Entry(y, "2"), Nil);
    var last, kind := Row(cfg, 1, y + cfg.textSeparator + "2"), Unsteady(cfg.indentChar);
    assert Labels(cfg, 1, ys) == [last];
    PhysicalSame([last]);
    SingleLine(cfg.indentChar, kind, last, false);
    assert HasText(cfg.indentChar, LabelLines(cfg, 1, ys));
    assert NodeCloses(cfg, kind, 1, Section(b, xs), true);
    assert Closes(cfg, kind, 1, Cons(Section(b, xs), ys), false);
  }

  /** One such document, in the default separator and indent character. */
  lemma StrayExample(cfg: Config, rel: Release)
    requires cfg.format == Text && cfg.indentAmount == 1 && cfg.indentChar == ' ' && cfg.textSeparator == ": "
    ensures CleanedUp(' ', PrintDocument(cfg, rel, Nested("a", "b", "x", "y"))) == "a:\n b:\n  x: 1\n \n y: 2\n"
  {
    var a, b, x, y := "a:", "b:", "x: 1", "y: 2";
    assert "a" + ":" == a && "b" + ":" == b && "x" + ": " + "1" == x && "y" + ": " + "2" == y;
    FirmRow(cfg, 0, a);
    FirmRow(cfg, 1, b);
    FirmRow(cfg, 2, x);
    FirmRow(cfg, 1, y);
    NestedOutline(cfg, "a", "b", "x", "y");
    StrayLine(cfg, rel, "a", "b", "x", "y");
    StrayRows(cfg, Row(cfg, 0, a), Row(cfg, 1, b), Row(cfg, 2, x), Row(cfg, 1, y));
  }

  lemma StrayRows(cfg: Config, p: string, q: string, r: string, t: string)
    requires cfg.indentChar == ' '
    requires p == Row(cfg, 0, "a:") && q == Row(cfg, 1, "b:") && r == Row(cfg, 2, "x: 1") && t == Row(cfg, 1, "y: 2")
    ensures var labels := [p, q, r] + [t];
            Unlines(labels[..3] + [" "] + labels[3..]) == "a:\n b:\n  x: 1\n \n y: 2\n"
  {
    var labels := [p, q, r] + [t];
    assert labels[..3] + [" "] + labels[3..] == [p, q, r, " ", t];
    assert p == "a:" && q == " b:" && r == "  x: 1" && t == " y: 2";
    FiveLines(p, q, r, " ", t);
    StrayText();
  }

  lemma StrayText()
    ensures ("a:" + "\n") + ((" b:" + "\n") + (("  x: 1" + "\n") + ((" " + "\n") + (" y: 2" + "\n"))))
         == "a:\n b:\n  x: 1\n \n y: 2\n"
  {
  }

  lemma FiveLines(p: string, q: string, r: string, s: string, t: string)
    ensures Unlines([p, q, r, s, t]) == (p + "\n") + ((q + "\n") + ((r + "\n") + ((s + "\n") + (t + "\n"))))
  {
    UnlinesFirst(t, []);
    UnlinesFirst(s, [t]);
    UnlinesFirst(r, [s, t]);
    UnlinesFirst(q, [r, s, t]);
    UnlinesFirst(p, [q, r, s, t]);
  }

  lemma UnlinesFirst(w: string, lines: seq<string>)
    ensures Unlines([w] + lines) == (w + "\n") + Unlines(lines)
  {
    Regroup(w, "\n", Unlines(lines));
    assert ([w] + lines)[1..] == lines;
  }

  lemma FirmRow(cfg: Config, i: nat, text: string)
    requires NoNewline(text) && text != "" && text[|text| - 1] != cfg.indentChar && cfg.indentChar != NEWLINE
    ensures Firm(cfg.indentChar, Row(cfg, i, text))
  {
    var row := Row(cfg, i, text);
    assert row[|row| - 1] == text[|text| - 1];
  }
}
