/**
 What chomp and compress together make of a document, line by line, down to its final newline.
 */
module CleanedLines {
  import opened Prelude
  import opened Cleaning
  import opened TextLines

  // ----- the counters, line by line

  /** What compress keeps of a line. */
  function Held(c: char, w: string): string {
    if EndsDouble(c, w) then Stripped(c, w) else w
  }

  /** Neither empty nor starting with the indent character. */
  predicate StartsOther(c: char, lines: seq<string>) {
    lines != [] ==> lines[0] != "" && lines[0][0] != c
  }

  /**
   The counters miss nothing: no line that ends in two indent characters is followed by an empty line or by one that
   starts with the indent character, and no line after it keeps an indent character.
   */
  predicate ExactLines(c: char, lines: seq<string>, counted: bool) {
    lines == [] ||
    ((c in Held(c, lines[0]) ==> !counted)
     && if EndsDouble(c, lines[0]) then StartsOther(c, lines[1..]) && ExactLines(c, lines[1..], true)
        else ExactLines(c, lines[1..], counted && c !in lines[0]))
  }

  lemma {:induction false} ExactShift(c: char, s: string, n: nat, t: string, k: nat, counted: bool)
    requires Suffix(s, n, t) && k <= |t|
    ensures Exact(c, s, n + k, counted) <==> Exact(c, t, k, counted)
    decreases |t| - k
  {
    if k < |t| {
      BlankLineShift(c, s, n, t, k);
      RunEndShift(c, s, n, t, k);
      NewlineShift(s, n, t, k);
      assert s[n + k] == t[k];
      if DoubleNewline(t, k) {
        ExactShift(c, s, n, t, k + 1, counted);
      } else if BlankLine(c, t, k) {
        var j := AfterBlankLine(c, t, k);
        ExactShift(c, s, n, t, j, true);
        assert j < |t| ==> s[n + j] == t[j];
      } else {
        ExactShift(c, s, n, t, k + 1, if t[k] == c then false else counted);
      }
    }
  }

  /** The counters on a text. */
  predicate Counts(c: char, s: string, counted: bool) {
    Exact(c, s, 0, counted)
  }

  lemma CountsFirst(c: char, x: char, t: string, counted: bool)
    requires var s := [x] + t; !DoubleNewline(s, 0) && !BlankLine(c, s, 0)
    ensures Counts(c, [x] + t, counted) <==> (x == c ==> !counted) && Counts(c, t, counted && x != c)
  {
    ExactShift(c, [x] + t, 1, t, 0, counted && x != c);
  }

  lemma {:induction false} CountsSolid(c: char, u: string, v: string, counted: bool)
    requires NoNewline(u) && (u != "" ==> u[|u| - 1] != c)
    ensures Counts(c, u + v, counted) <==> (c in u ==> !counted) && Counts(c, v, counted && c !in u)
    decreases |u|
  {
    if u == "" {
      assert u + v == v;
    } else {
      var t := u[1..] + v;
      assert u + v == [u[0]] + t;
      assert u == [u[0]] + u[1..];
      SolidIsNotBlank(c, u, v);
      CountsFirst(c, u[0], t, counted);
      CountsSolid(c, u[1..], v, counted && u[0] != c);
    }
  }

  lemma CountsNewline(c: char, t: string, counted: bool)
    requires c != NEWLINE || !counted
    ensures Counts(c, "\n" + t, counted) <==> Counts(c, t, counted)
  {
    if t != "" && t[0] == NEWLINE {
      assert DoubleNewline("\n" + t, 0);
      ExactShift(c, "\n" + t, 1, t, 0, counted);
    } else {
      NewlineIsNotBlank(c, t);
      CountsFirst(c, NEWLINE, t, counted);
    }
  }

  lemma CountsOne(c: char, t: string, counted: bool)
    requires c != NEWLINE
    ensures Counts(c, [c] + ("\n" + t), counted) <==> !counted && Counts(c, "\n" + t, false)
  {
    var s := [c] + ("\n" + t);
    assert s[1] == NEWLINE;
    RunEndIs(c, s, 0, 1);
    CountsFirst(c, c, "\n" + t, counted);
  }

  /** The first character after a run of newlines is not one more line break, if the next line is not empty. */
  lemma OneNewline(lines: seq<string>)
    requires NoNewlines(lines)
    ensures RunEnd(NEWLINE, "\n" + Unlines(lines), 0) == 1 <==> (lines != [] ==> lines[0] != "")
  {
    NewlineThen(Unlines(lines));
    if lines != [] && lines[0] != "" {
      NextLineStarts(lines);
    }
  }

  lemma CountsBlank(c: char, v: string, lines: seq<string>, counted: bool)
    requires Only(c, v) && |v| >= 2 && NoNewlines(lines) && c != NEWLINE
    ensures Counts(c, v + ("\n" + Unlines(lines)), counted)
            <==> StartsOther(c, lines) && Counts(c, Unlines(lines), true)
  {
    var t := "\n" + Unlines(lines);
    var s := v + t;
    RunEndIs(c, s, 0, |v|);
    RunEndShift(NEWLINE, s, |v|, t, 0);
    OneNewline(lines);
    if lines != [] && lines[0] != "" {
      assert s[|v| + 1] == lines[0][0];
    }
    CountsSkipped(c, s, |v|, Unlines(lines), counted);
  }

  lemma CountsSkipped(c: char, s: string, e: nat, rest: string, counted: bool)
    requires e < |s| && Suffix(s, e + 1, rest) && RunEnd(c, s, 0) == e && s[e] == NEWLINE && e >= 2 && s[0] != NEWLINE
    ensures var j := RunEnd(NEWLINE, s, e);
            Counts(c, s, counted) <==> j == e + 1 && (j < |s| ==> s[j] != c) && Counts(c, rest, true)
  {
    assert BlankLine(c, s, 0) && !DoubleNewline(s, 0);
    ExactShift(c, s, e + 1, rest, 0, true);
  }

  lemma CountsEnd(c: char, v: string, lines: seq<string>, counted: bool)
    requires Only(c, v) && (v != "" ==> c != NEWLINE) && (c == NEWLINE ==> !counted) && NoNewlines(lines)
    ensures Counts(c, v + ("\n" + Unlines(lines)), counted)
            <==> if |v| >= 2 then StartsOther(c, lines) && Counts(c, Unlines(lines), true)
                 else (v != "" ==> !counted) && Counts(c, Unlines(lines), counted && v == "")
  {
    if |v| >= 2 {
      CountsBlank(c, v, lines, counted);
    } else if |v| == 1 {
      assert v == [c];
      CountsOne(c, Unlines(lines), counted);
      CountsNewline(c, Unlines(lines), false);
    } else {
      assert v + ("\n" + Unlines(lines)) == "\n" + Unlines(lines);
      CountsNewline(c, Unlines(lines), counted);
    }
  }

  lemma CountsLine(c: char, w: string, lines: seq<string>, counted: bool)
    requires NoNewline(w) && NoNewlines(lines) && (c == NEWLINE ==> !counted)
    ensures Counts(c, w + ("\n" + Unlines(lines)), counted)
            <==> (c in Held(c, w) ==> !counted)
                 && if EndsDouble(c, w) then StartsOther(c, lines) && Counts(c, Unlines(lines), true)
                    else Counts(c, Unlines(lines), counted && c !in w)
  {
    var u := Stripped(c, w);
    StrippedSplits(c, w);
    var v := w[|u|..];
    assert w == u + v && (v != "" ==> c != NEWLINE);
    assert c in w <==> c in u || v != "" by {
      assert v != "" ==> v[0] == c;
    }
    Regroup(u, v, "\n" + Unlines(lines));
    CountsSolid(c, u, v + ("\n" + Unlines(lines)), counted);
    CountsEnd(c, v, lines, counted && c !in u);
  }

  lemma {:induction false} CountsLines(c: char, lines: seq<string>, counted: bool)
    requires NoNewlines(lines) && (c == NEWLINE ==> !counted)
    ensures Counts(c, Unlines(lines), counted) <==> ExactLines(c, lines, counted)
    decreases |lines|
  {
    if lines != [] {
      CountsLine(c, lines[0], lines[1..], counted);
      CountsLines(c, lines[1..], EndsDouble(c, lines[0]) || (counted && c !in lines[0]));
    }
  }

  // ----- whether anything is dropped

  predicate Dropless(c: char, lines: seq<string>) {
    lines == [] || (!EndsDouble(c, lines[0]) && (|lines| > 1 ==> lines[1] != "") && Dropless(c, lines[1..]))
  }

  lemma {:induction false} DropEmptyShorter(lines: seq<string>)
    ensures |Unlines(DropEmpty(lines))| <= |Unlines(lines)|
    ensures |Unlines(DropEmpty(lines))| == |Unlines(lines)| <==> (lines != [] ==> lines[0] != "")
  {
    if lines != [] && lines[0] == "" {
      DropEmptyShorter(lines[1..]);
    }
  }

  lemma {:induction false} FoldShorter(c: char, lines: seq<string>)
    ensures |Fold(c, lines)| <= |Unlines(lines)|
    ensures |Fold(c, lines)| == |Unlines(lines)| <==> Dropless(c, lines)
    decreases |lines|
  {
    if lines != [] {
      var rest := lines[1..];
      DropEmptyShorter(rest);
      FoldShorter(c, DropEmpty(rest));
      StrippedSplits(c, lines[0]);
      if rest != [] && rest[0] != "" {
        assert DropEmpty(rest) == rest;
      }
    }
  }

  /** Compress drops nothing exactly from a text in normal form. */
  lemma NormalLines(c: char, lines: seq<string>)
    requires NoNewlines(lines)
    ensures Normal(c, Unlines(lines)) <==> Dropless(c, lines)
  {
    var s := Unlines(lines);
    SqueezeIsFold(c, lines);
    FoldShorter(c, lines);
    SqueezedIsNormal(c, s, 0);
    SqueezedShrinks(c, s, 0);
    assert s[0..] == s;
    if Normal(c, s) {
      NormalIsFixed(c, s, 0);
    }
  }

  // ----- chomp and compress together

  function CleanedUp(c: char, d: string): string {
    Compressed(c, Chomped(c, d))
  }

  /** The final newline goes: something is dropped, and the counters miss nothing of it. */
  predicate Cuts(c: char, lines: seq<string>) {
    !Dropless(c, lines) && ExactLines(c, lines, false)
  }

  /** The text is the wanted one, without its last character if that is cut. */
  predicate Shows(text: string, wanted: string, cut: bool) {
    wanted != "" && text == if cut then wanted[..|wanted| - 1] else wanted
  }

  predicate EndsLine(s: string) {
    s != "" && s[|s| - 1] == NEWLINE
  }

  lemma CutEnds(c: char, text: string, q: string, cut: bool)
    requires Normal(c, q) && EndsLine(q) && Shows(text, q, cut)
    ensures EndsLine(text) <==> !cut
  {
    assert |q| >= 2 ==> !DoubleNewline(q, |q| - 2);
  }

  lemma ShowsSame(text: string, q: string, wanted: string, cut: bool)
    requires Shows(text, q, cut) && EndsLine(q) && EndsLine(wanted)
    ensures Shows(text, wanted, cut) <==> q == wanted
  {
    assert q == q[..|q| - 1] + "\n" && wanted == wanted[..|wanted| - 1] + "\n";
  }

  /** What compress leaves of lines that chomp has been through. */
  lemma CompressedIs(c: char, lines: seq<string>)
    requires NoNewlines(lines) && Settled(c, Unlines(lines))
    ensures var q := Fold(c, lines);
            Normal(c, q) && EndsLine(q) && Shows(Compressed(c, Unlines(lines)), q, Cuts(c, lines))
  {
    var s := Unlines(lines);
    SqueezeIsFold(c, lines);
    SqueezedIsNormal(c, s, 0);
    CutIff(c, s);
    NormalLines(c, lines);
    CountsLines(c, lines, false);
  }

  /**
   What the clean-up leaves of any lines that are not all blank, to the last character. It ends in a newline exactly
   when none is cut.
   */
  lemma CleanedIs(c: char, lines: seq<string>)
    requires NoNewlines(lines) && Trimmed(c, lines) != []
    ensures var q := Fold(c, Trimmed(c, lines));
            HasSolid(c, Unlines(lines)) && EndsLine(q)
            && Shows(CleanedUp(c, Unlines(lines)), q, Cuts(c, Trimmed(c, lines)))
            && (EndsLine(CleanedUp(c, Unlines(lines))) <==> !Cuts(c, Trimmed(c, lines)))
  {
    var ts := Trimmed(c, lines);
    TrimmedLines(c, lines);
    ChompLines(c, lines);
    UnlinesEnds(lines);
    ChompedSettles(c, Unlines(lines));
    CompressedIs(c, ts);
    CutEnds(c, CleanedUp(c, Unlines(lines)), Fold(c, ts), Cuts(c, ts));
  }

  lemma ShowsFolded(c: char, lines: seq<string>, wanted: seq<string>)
    requires NoNewlines(lines) && Trimmed(c, lines) != [] && wanted != []
    ensures Shows(CleanedUp(c, Unlines(lines)), Unlines(wanted), Cuts(c, Trimmed(c, lines)))
            <==> Fold(c, Trimmed(c, lines)) == Unlines(wanted)
  {
    var ts := Trimmed(c, lines);
    CleanedIs(c, lines);
    UnlinesEnds(wanted);
    ShowsSame(CleanedUp(c, Unlines(lines)), Fold(c, ts), Unlines(wanted), Cuts(c, ts));
  }

  /** Chomp and compress drop the blank lines and nothing else, if and only if the lines chomp leaves are neat. */
  lemma CleanLines(c: char, lines: seq<string>)
    requires NoNewlines(lines) && Trimmed(c, lines) != [] && lines[0] != ""
    ensures var ts := Trimmed(c, lines);
            HasSolid(c, Unlines(lines))
            && (Shows(CleanedUp(c, Unlines(lines)), Unlines(Kept(c, ts)), Cuts(c, ts)) <==> AllNeat(c, ts))
  {
    var ts := Trimmed(c, lines);
    TrimmedLines(c, lines);
    KeptEnds(c, ts);
    CleanedIs(c, lines);
    ShowsFolded(c, lines, Kept(c, ts));
    SqueezeLines(c, ts);
    SqueezeIsFold(c, ts);
  }

  lemma {:induction false} KeptEnds(c: char, lines: seq<string>)
    requires lines != [] && var w := lines[|lines| - 1]; w != "" && w[|w| - 1] != c
    ensures Kept(c, lines) != []
  {
    if |lines| > 1 {
      KeptEnds(c, lines[1..]);
    }
  }
}
