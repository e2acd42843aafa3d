/**
 What chomp and compress make of a document, line by line, for every text and every indent character.
 */
module TextLines {
  import opened Prelude
  import opened Cleaning

  function Unlines(lines: seq<string>): string {
    if lines == [] then "" else lines[0] + ("\n" + Unlines(lines[1..]))
  }

  lemma {:induction false} UnlinesConcat(a: seq<string>, b: seq<string>)
    ensures Unlines(a + b) == Unlines(a) + Unlines(b)
  {
    if a == [] {
      assert a + b == b;
    } else {
      assert (a + b)[0] == a[0] && (a + b)[1..] == a[1..] + b;
      UnlinesConcat(a[1..], b);
    }
  }

  function JoinLines(lines: seq<string>): string {
    if lines == [] then ""
    else if |lines| == 1 then lines[0]
    else lines[0] + "\n" + JoinLines(lines[1..])
  }

  lemma {:induction false} JoinLinesConcat(a: seq<string>, b: seq<string>)
    requires a != [] && b != []
    ensures JoinLines(a + b) == JoinLines(a) + "\n" + JoinLines(b)
  {
    if |a| == 1 {
      assert (a + b)[1..] == b;
    } else {
      assert (a + b)[0] == a[0] && (a + b)[1..] == a[1..] + b;
      JoinLinesConcat(a[1..], b);
      var head, rest, more := a[0] + "\n", JoinLines(a[1..]), JoinLines(b);
      assert head + (rest + "\n" + more) == head + rest + "\n" + more;
    }
  }

  lemma {:induction false} JoinedIsUnlined(lines: seq<string>)
    requires lines != []
    ensures JoinLines(lines) + "\n" == Unlines(lines)
  {
    if |lines| == 1 {
      assert lines[1..] == [];
      assert lines[0] + ("\n" + "") == lines[0] + "\n";
    } else {
      JoinedIsUnlined(lines[1..]);
      var a, b := lines[0], JoinLines(lines[1..]);
      assert a + "\n" + b + "\n" == a + ("\n" + (b + "\n"));
    }
  }

  predicate NoNewlines(lines: seq<string>) {
    forall k :: 0 <= k < |lines| ==> NoNewline(lines[k])
  }

  predicate Only(c: char, w: string) {
    forall i :: 0 <= i < |w| ==> w[i] == c
  }

  predicate EndsDouble(c: char, w: string) {
    |w| >= 2 && w[|w| - 1] == c && w[|w| - 2] == c
  }

  /** Without the indent characters that end the line. */
  function Stripped(c: char, w: string): string {
    if w != "" && w[|w| - 1] == c then Stripped(c, w[..|w| - 1]) else w
  }

  lemma {:induction false} StrippedSplits(c: char, w: string)
    ensures var t := Stripped(c, w);
            (t == "" || t[|t| - 1] != c) && |t| <= |w| && w[..|t|] == t && Only(c, w[|t|..])
    ensures Only(c, w) <==> Stripped(c, w) == ""
    ensures EndsDouble(c, w) <==> |w| >= |Stripped(c, w)| + 2
    decreases |w|
  {
    StrippedPrefix(c, w);
    var t := Stripped(c, w);
    assert w == t + w[|t|..];
    TailFacts(c, t, w[|t|..]);
  }

  lemma TailFacts(c: char, t: string, v: string)
    requires Only(c, v) && (t == "" || t[|t| - 1] != c)
    ensures Only(c, t + v) <==> t == ""
    ensures EndsDouble(c, t + v) <==> |v| >= 2
  {
    assert t != "" ==> (t + v)[|t| - 1] == t[|t| - 1];
  }

  lemma {:induction false} StrippedPrefix(c: char, w: string)
    ensures var t := Stripped(c, w);
            (t == "" || t[|t| - 1] != c) && |t| <= |w| && w[..|t|] == t && Only(c, w[|t|..])
    decreases |w|
  {
    if w != "" && w[|w| - 1] == c {
      var t, v := Stripped(c, w), w[..|w| - 1];
      StrippedPrefix(c, v);
      assert w == v + [c];
      assert w[|t|..] == v[|t|..] + [c];
    }
  }

  function DropEmpty(lines: seq<string>): (rest: seq<string>)
    ensures |rest| <= |lines|
    ensures rest != [] ==> rest[0] != ""
    ensures NoNewlines(lines) ==> NoNewlines(rest)
  {
    if lines != [] && lines[0] == "" then DropEmpty(lines[1..]) else lines
  }

  // ----- the compaction loop only looks ahead

  predicate Suffix(s: string, n: nat, t: string) {
    n <= |s| && s[n..] == t
  }

  lemma {:induction false} RunEndShift(x: char, s: string, n: nat, t: string, k: nat)
    requires Suffix(s, n, t) && k <= |t|
    ensures RunEnd(x, s, n + k) == n + RunEnd(x, t, k)
    decreases |t| - k
  {
    if k < |t| && t[k] == x {
      RunEndShift(x, s, n, t, k + 1);
    }
  }

  lemma BlankLineShift(c: char, s: string, n: nat, t: string, k: nat)
    requires Suffix(s, n, t) && k <= |t|
    ensures BlankLine(c, s, n + k) <==> BlankLine(c, t, k)
    ensures BlankLine(c, t, k) ==> AfterBlankLine(c, s, n + k) == n + AfterBlankLine(c, t, k)
  {
    RunEndShift(c, s, n, t, k);
    RunEndShift(NEWLINE, s, n, t, RunEnd(c, t, k));
  }

  lemma NewlineShift(s: string, n: nat, t: string, k: nat)
    requires Suffix(s, n, t) && k <= |t|
    ensures DoubleNewline(s, n + k) <==> DoubleNewline(t, k)
  {
    assert k < |t| ==> s[n + k] == t[k];
    assert k + 1 < |t| ==> s[n + (k + 1)] == t[k + 1];
  }

  lemma SqueezedNext(c: char, s: string, i: nat)
    requires i < |s| && (DoubleNewline(s, i) || !BlankLine(c, s, i))
    ensures Squeezed(c, s, i) == (if DoubleNewline(s, i) then "" else [s[i]]) + Squeezed(c, s, i + 1)
  {
    assert "" + Squeezed(c, s, i + 1) == Squeezed(c, s, i + 1);
  }

  lemma ShiftPast(c: char, s: string, n: nat, t: string, k: nat)
    requires Suffix(s, n, t) && k < |t| && !DoubleNewline(t, k) && BlankLine(c, t, k)
    requires var j := AfterBlankLine(c, t, k); Squeezed(c, s, n + j) == Squeezed(c, t, j)
    ensures Squeezed(c, s, n + k) == Squeezed(c, t, k)
  {
    NewlineShift(s, n, t, k);
    BlankLineShift(c, s, n, t, k);
    SqueezedPast(c, s, n + k);
    SqueezedPast(c, t, k);
  }

  lemma ShiftNext(c: char, s: string, n: nat, t: string, k: nat)
    requires Suffix(s, n, t) && k < |t| && (DoubleNewline(t, k) || !BlankLine(c, t, k))
    requires Squeezed(c, s, n + k + 1) == Squeezed(c, t, k + 1)
    ensures Squeezed(c, s, n + k) == Squeezed(c, t, k)
  {
    assert s[n + k] == t[k];
    NewlineShift(s, n, t, k);
    assert BlankLine(c, s, n + k) <==> BlankLine(c, t, k) by {
      BlankLineShift(c, s, n, t, k);
    }
    SqueezedNext(c, s, n + k);
    SqueezedNext(c, t, k);
  }

  lemma {:induction false} SqueezedShift(c: char, s: string, n: nat, t: string, k: nat)
    requires Suffix(s, n, t) && k <= |t|
    ensures Squeezed(c, s, n + k) == Squeezed(c, t, k)
    decreases |t| - k
  {
    if k == |t| {
    } else if !DoubleNewline(t, k) && BlankLine(c, t, k) {
      SqueezedShift(c, s, n, t, AfterBlankLine(c, t, k));
      ShiftPast(c, s, n, t, k);
    } else {
      SqueezedShift(c, s, n, t, k + 1);
      ShiftNext(c, s, n, t, k);
    }
  }

  lemma SqueezedPast(c: char, s: string, i: nat)
    requires i <= |s| && !DoubleNewline(s, i) && BlankLine(c, s, i)
    ensures Squeezed(c, s, i) == Squeezed(c, s, AfterBlankLine(c, s, i))
  {
  }

  /** The loop on a text. */
  function Squeeze(c: char, s: string): string {
    Squeezed(c, s, 0)
  }

  lemma SqueezeFirst(c: char, x: char, t: string)
    requires var s := [x] + t; !DoubleNewline(s, 0) && !BlankLine(c, s, 0)
    ensures Squeeze(c, [x] + t) == [x] + Squeeze(c, t)
  {
    SqueezedShift(c, [x] + t, 1, t, 0);
  }

  // ----- compress, line by line

  /** Nothing in a stretch that ends in another character than the indent is dropped. */
  lemma {:induction false} SqueezeSolid(c: char, u: string, v: string)
    requires NoNewline(u) && (u != "" ==> u[|u| - 1] != c)
    ensures Squeeze(c, u + v) == u + Squeeze(c, v)
    decreases |u|
  {
    if u == "" {
      assert u + v == v;
      assert u + Squeeze(c, v) == Squeeze(c, v);
    } else {
      var t := u[1..] + v;
      assert u + v == [u[0]] + t;
      SolidIsNotBlank(c, u, v);
      SqueezeFirst(c, u[0], t);
      SqueezeSolid(c, u[1..], v);
      assert [u[0]] + (u[1..] + Squeeze(c, v)) == u + Squeeze(c, v);
    }
  }

  lemma SolidIsNotBlank(c: char, u: string, v: string)
    requires u != "" && NoNewline(u) && u[|u| - 1] != c
    ensures !DoubleNewline(u + v, 0) && !BlankLine(c, u + v, 0)
  {
    var s := u + v;
    RunEndSpec(c, s, 0);
    assert s[0] == u[0] && s[|u| - 1] == u[|u| - 1];
    var e := RunEnd(c, s, 0);
    assert e < |u| && s[e] == u[e];
  }

  lemma NextLineStarts(lines: seq<string>)
    requires NoNewlines(lines) && lines != [] && lines[0] != ""
    ensures Unlines(lines) != "" && Unlines(lines)[0] != NEWLINE
  {
    assert Unlines(lines)[0] == lines[0][0];
  }

  /** A newline swallows the empty lines after it. */
  lemma {:induction false} SqueezeNewline(c: char, lines: seq<string>)
    requires NoNewlines(lines)
    ensures Squeeze(c, "\n" + Unlines(lines)) == "\n" + Squeeze(c, Unlines(DropEmpty(lines)))
  {
    var t := Unlines(lines);
    var s := ['\n'] + t;
    if lines != [] && lines[0] == "" {
      assert t == "\n" + Unlines(lines[1..]);
      assert DoubleNewline(s, 0);
      SqueezedShift(c, s, 1, t, 0);
      SqueezeNewline(c, lines[1..]);
    } else {
      if lines != [] {
        NextLineStarts(lines);
      }
      NewlineIsNotBlank(c, t);
      SqueezeFirst(c, '\n', t);
    }
  }

  lemma NewlineIsNotBlank(c: char, t: string)
    requires t != "" ==> t[0] != NEWLINE
    ensures !DoubleNewline(['\n'] + t, 0) && !BlankLine(c, ['\n'] + t, 0)
  {
    var s := ['\n'] + t;
    RunEndSpec(c, s, 0);
    assert s[0] == NEWLINE && (t != "" ==> s[1] == t[0]);
  }

  lemma SqueezeOne(c: char, t: string)
    requires c != NEWLINE
    ensures Squeeze(c, [c] + ("\n" + t)) == [c] + Squeeze(c, "\n" + t)
  {
    var s := [c] + ("\n" + t);
    assert s[1] == NEWLINE;
    RunEndIs(c, s, 0, 1);
    SqueezeFirst(c, c, "\n" + t);
  }

  lemma NewlineThen(t: string)
    ensures var s, e := "\n" + t, RunEnd(NEWLINE, t, 0); RunEnd(NEWLINE, s, 0) == 1 + e && s[1 + e..] == t[e..]
  {
    RunEndShift(NEWLINE, "\n" + t, 1, t, 0);
  }

  /** A run of newlines ends where the next line that is not empty begins. */
  lemma {:induction false} NewlinesEnd(lines: seq<string>)
    requires NoNewlines(lines)
    ensures var s := "\n" + Unlines(lines); s[RunEnd(NEWLINE, s, 0)..] == Unlines(DropEmpty(lines))
  {
    var t := Unlines(lines);
    NewlineThen(t);
    if lines != [] && lines[0] == "" {
      assert t == "\n" + Unlines(lines[1..]);
      NewlinesEnd(lines[1..]);
    } else if lines != [] {
      NextLineStarts(lines);
    }
  }

  lemma SqueezeBlank(c: char, w: string, lines: seq<string>)
    requires Only(c, w) && |w| >= 2 && NoNewlines(lines) && c != NEWLINE
    ensures Squeeze(c, w + ("\n" + Unlines(lines))) == Squeeze(c, Unlines(DropEmpty(lines)))
  {
    var t := "\n" + Unlines(lines);
    NewlinesEnd(lines);
    BlankLineThen(c, w, t, Unlines(DropEmpty(lines)));
  }

  lemma BlankLineThen(c: char, w: string, t: string, rest: string)
    requires Only(c, w) && |w| >= 2 && t != "" && t[0] == NEWLINE && c != NEWLINE
    requires t[RunEnd(NEWLINE, t, 0)..] == rest
    ensures Squeeze(c, w + t) == Squeeze(c, rest)
  {
    var e := RunEnd(NEWLINE, t, 0);
    BlankSkipped(c, w, t);
    SuffixOf(w, t, e);
    SqueezeSkipped(c, w + t, |w| + e, rest);
  }

  lemma BlankSkipped(c: char, w: string, t: string)
    requires Only(c, w) && |w| >= 2 && t != "" && t[0] == NEWLINE && c != NEWLINE
    ensures Squeezed(c, w + t, 0) == Squeezed(c, w + t, |w| + RunEnd(NEWLINE, t, 0))
  {
    var s := w + t;
    RunEndIs(c, s, 0, |w|);
    RunEndShift(NEWLINE, s, |w|, t, 0);
    SqueezedPast(c, s, 0);
  }

  lemma SuffixOf(w: string, t: string, e: nat)
    requires e <= |t|
    ensures Suffix(w + t, |w| + e, t[e..])
  {
  }

  lemma SqueezeSkipped(c: char, s: string, n: nat, t: string)
    requires Suffix(s, n, t) && Squeezed(c, s, 0) == Squeezed(c, s, n)
    ensures Squeeze(c, s) == Squeeze(c, t)
  {
    SqueezedShift(c, s, n, t, 0);
  }

  /**
   What compress makes of lines: empty lines go, and a line that ends in two or more indent characters loses them and
   its newline, so that it runs into the next one. A line of nothing but indent is the case with nothing left.
   */
  function Fold(c: char, lines: seq<string>): string
    decreases |lines|
  {
    if lines == [] then ""
    else
      var rest := Fold(c, DropEmpty(lines[1..]));
      if EndsDouble(c, lines[0]) then Stripped(c, lines[0]) + rest else lines[0] + ("\n" + rest)
  }

  /** That is exactly what compress does, to every text that ends in a newline. */
  lemma {:induction false} SqueezeIsFold(c: char, lines: seq<string>)
    requires NoNewlines(lines)
    ensures Squeeze(c, Unlines(lines)) == Fold(c, lines)
    decreases |lines|
  {
    if lines != [] {
      SqueezeIsFold(c, DropEmpty(lines[1..]));
      SqueezeLine(c, lines[0], lines[1..]);
    }
  }

  // ----- texts that do not end in a newline

  lemma RunEndBefore(c: char, s: string, t: string, i: nat)
    requires i <= |s| && t != "" && t[0] != c
    ensures RunEnd(c, s + t, i) == RunEnd(c, s, i)
  {
    var e := RunEnd(c, s, i);
    RunEndSpec(c, s, i);
    assert forall k :: i <= k < e ==> (s + t)[k] == s[k];
    RunEndIs(c, s + t, i, e);
  }

  lemma BlankLineBefore(c: char, s: string, t: string, i: nat)
    requires i <= |s| && t != "" && t[0] != c && t[0] != NEWLINE
    ensures BlankLine(c, s + t, i) <==> BlankLine(c, s, i)
    ensures BlankLine(c, s, i) ==> AfterBlankLine(c, s + t, i) == AfterBlankLine(c, s, i)
    ensures DoubleNewline(s + t, i) <==> DoubleNewline(s, i)
  {
    RunEndBefore(c, s, t, i);
    RunEndBefore(NEWLINE, s, t, RunEnd(c, s, i));
    assert forall k :: 0 <= k < |s| ==> (s + t)[k] == s[k];
    assert (s + t)[|s|] == t[0];
  }

  /** What follows a text and is neither newline nor indent has no part in what becomes of the text. */
  lemma {:induction false} SqueezedBefore(c: char, s: string, t: string, i: nat)
    requires i <= |s| && t != "" && t[0] != c && t[0] != NEWLINE
    ensures Squeezed(c, s + t, i) == Squeezed(c, s, i) + Squeezed(c, t, 0)
    decreases |s| - i
  {
    if i == |s| {
      SqueezedShift(c, s + t, |s|, t, 0);
    } else {
      BlankLineBefore(c, s, t, i);
      if !DoubleNewline(s, i) && BlankLine(c, s, i) {
        SqueezedBefore(c, s, t, AfterBlankLine(c, s, i));
        SqueezedPast(c, s, i);
        SqueezedPast(c, s + t, i);
      } else {
        SqueezedBefore(c, s, t, i + 1);
        SqueezedNext(c, s, i);
        SqueezedNext(c, s + t, i);
        BeforeNext(c, s, t, i);
      }
    }
  }

  lemma BeforeNext(c: char, s: string, t: string, i: nat)
    requires i < |s|
    ensures var first := if DoubleNewline(s, i) then "" else [s[i]];
            (s + t)[i] == s[i]
            && first + (Squeezed(c, s, i + 1) + Squeezed(c, t, 0)) == first + Squeezed(c, s, i + 1) + Squeezed(c, t, 0)
  {
  }

  lemma LineKept(c: char, x: char)
    requires x != c && x != NEWLINE
    ensures Squeeze(c, [x, NEWLINE]) == [x, NEWLINE]
  {
    var t := [x, NEWLINE];
    RunEndIs(c, t, 0, 0);
    NewlineIsNotBlank(c, "");
    assert t == [x] + "\n" && ['\n'] + "" == "\n";
    SqueezeFirst(c, x, "\n");
    SqueezeFirst(c, '\n', "");
  }

  /**
   The same for every text: what becomes of lines with something after the last newline is what becomes of them if that
   ended in some other character and a newline, without these two.
   */
  lemma SqueezeOpen(c: char, lines: seq<string>, w: string, x: char)
    requires NoNewlines(lines) && NoNewline(w) && x != c && x != NEWLINE
    ensures Squeeze(c, Unlines(lines) + w) + [x, NEWLINE] == Fold(c, lines + [w + [x]])
  {
    var s, t := Unlines(lines) + w, [x, NEWLINE];
    SqueezedBefore(c, s, t, 0);
    LineKept(c, x);
    UnlinesAppend(lines, w + [x]);
    assert s + t == Unlines(lines + [w + [x]]);
    SqueezeIsFold(c, lines + [w + [x]]);
  }

  lemma SqueezeLine(c: char, w: string, lines: seq<string>)
    requires NoNewline(w) && NoNewlines(lines)
    ensures var rest := Squeeze(c, Unlines(DropEmpty(lines)));
            Squeeze(c, w + ("\n" + Unlines(lines)))
            == if EndsDouble(c, w) then Stripped(c, w) + rest else w + ("\n" + rest)
  {
    var u := Stripped(c, w);
    StrippedSplits(c, w);
    assert w == u + w[|u|..];
    SqueezeSplit(c, u, w[|u|..], lines);
  }

  lemma SqueezeSplit(c: char, u: string, v: string, lines: seq<string>)
    requires NoNewline(u + v) && (u != "" ==> u[|u| - 1] != c) && Only(c, v) && NoNewlines(lines)
    ensures var rest := Squeeze(c, Unlines(DropEmpty(lines)));
            Squeeze(c, u + v + ("\n" + Unlines(lines))) == if |v| >= 2 then u + rest else u + v + ("\n" + rest)
  {
    var t := "\n" + Unlines(lines);
    assert NoNewline(u) && (v != "" ==> c != NEWLINE) by {
      assert forall i :: 0 <= i < |u| ==> u[i] == (u + v)[i];
      assert v != "" ==> (u + v)[|u|] == c;
    }
    Regroup(u, v, t);
    SqueezeSolid(c, u, v + t);
    SqueezeEnd(c, v, lines);
    Regroup(u, v, "\n" + Squeeze(c, Unlines(DropEmpty(lines))));
  }

  lemma SqueezeEnd(c: char, v: string, lines: seq<string>)
    requires Only(c, v) && (v != "" ==> c != NEWLINE) && NoNewlines(lines)
    ensures var rest := Squeeze(c, Unlines(DropEmpty(lines)));
            Squeeze(c, v + ("\n" + Unlines(lines))) == if |v| >= 2 then rest else v + ("\n" + rest)
  {
    var t := "\n" + Unlines(lines);
    SqueezeNewline(c, lines);
    if |v| >= 2 {
      SqueezeBlank(c, v, lines);
    } else if |v| == 1 {
      assert v == [c];
      SqueezeOne(c, Unlines(lines));
    } else {
      assert v + t == t && v + Squeeze(c, t) == Squeeze(c, t);
    }
  }

  // ----- which lines compress keeps or drops as a whole

  /** Two indent characters do not end the line after a text. */
  predicate Neat(c: char, w: string) {
    EndsDouble(c, w) ==> Only(c, w)
  }

  predicate AllNeat(c: char, lines: seq<string>) {
    forall k :: 0 <= k < |lines| ==> Neat(c, lines[k])
  }

  /** Empty, or two or more indent characters; a line of one is taken for text. */
  predicate Dropped(c: char, w: string) {
    Only(c, w) && |w| != 1
  }

  function Kept(c: char, lines: seq<string>): seq<string> {
    if lines == [] then []
    else (if Dropped(c, lines[0]) then [] else [lines[0]]) + Kept(c, lines[1..])
  }

  lemma {:induction false} KeptDropEmpty(c: char, lines: seq<string>)
    ensures Kept(c, DropEmpty(lines)) == Kept(c, lines)
    ensures AllNeat(c, lines) ==> AllNeat(c, DropEmpty(lines))
  {
    if lines != [] && lines[0] == "" {
      KeptDropEmpty(c, lines[1..]);
    }
  }

  lemma {:induction false} NeatFold(c: char, lines: seq<string>)
    requires AllNeat(c, lines) && (lines != [] ==> lines[0] != "")
    ensures Fold(c, lines) == Unlines(Kept(c, lines))
    decreases |lines|
  {
    if lines != [] {
      var w, rest := lines[0], Kept(c, lines[1..]);
      KeptDropEmpty(c, lines[1..]);
      NeatFold(c, DropEmpty(lines[1..]));
      StrippedSplits(c, w);
      assert EndsDouble(c, w) <==> Dropped(c, w);
      assert ([w] + rest)[1..] == rest && [] + rest == rest;
      assert "" + Unlines(rest) == Unlines(rest);
    }
  }

  lemma NormalSuffix(c: char, a: string, b: string)
    requires Normal(c, a + b)
    ensures Normal(c, b)
  {
    assert forall i :: 0 <= i < |b| ==> (a + b)[|a| + i] == b[i];
  }

  lemma DoubleIsNotNormal(c: char, w: string, t: string)
    requires EndsDouble(c, w)
    ensures !Normal(c, w + ("\n" + t))
  {
    var s, i := w + ("\n" + t), |w| - 2;
    assert s[i] == c && s[i + 1] == c && s[i + 2] == NEWLINE;
  }

  /** A line that is kept but not neat leaves what compress never leaves. */
  lemma {:induction false} KeptNeedsNeat(c: char, lines: seq<string>)
    requires Normal(c, Unlines(Kept(c, lines)))
    ensures AllNeat(c, lines)
  {
    if lines != [] {
      var w, rest := lines[0], Kept(c, lines[1..]);
      if Dropped(c, w) {
        assert [] + rest == rest;
      } else {
        assert ([w] + rest)[1..] == rest;
        var s := w + ("\n" + Unlines(rest));
        assert s == (w + "\n") + Unlines(rest);
        NormalSuffix(c, w + "\n", Unlines(rest));
        if EndsDouble(c, w) {
          DoubleIsNotNormal(c, w, Unlines(rest));
        }
      }
      KeptNeedsNeat(c, lines[1..]);
    }
  }

  /** Compress drops the blank lines and nothing else, if and only if no text ends in two indent characters. */
  lemma SqueezeLines(c: char, lines: seq<string>)
    requires NoNewlines(lines) && (lines != [] ==> lines[0] != "")
    ensures Squeeze(c, Unlines(lines)) == Unlines(Kept(c, lines)) <==> AllNeat(c, lines)
  {
    SqueezeIsFold(c, lines);
    SqueezedIsNormal(c, Unlines(lines), 0);
    if AllNeat(c, lines) {
      NeatFold(c, lines);
    } else if Squeeze(c, Unlines(lines)) == Unlines(Kept(c, lines)) {
      KeptNeedsNeat(c, lines);
    }
  }

  /** A text line that ends in two indent characters runs into the next line. */
  lemma JoinedLines()
    ensures Squeeze(' ', "a  \nb\n") == "ab\n"
  {
    var lines := ["a  ", "b"];
    assert Unlines(["b"]) == "b\n";
    assert Unlines(lines) == "a  \nb\n";
    SqueezeIsFold(' ', lines);
    assert Fold(' ', ["b"]) == "b\n";
    StrippedSplits(' ', "a  ");
    assert Stripped(' ', "a  ") == "a";
  }

  /** A line of one indent character stays, although it holds nothing. */
  lemma LoneIndentStays()
    ensures Squeeze(' ', "a\n \nb\n") == "a\n \nb\n"
  {
    var lines := ["a", " ", "b"];
    assert Unlines(["b"]) == "b\n";
    assert Unlines([" ", "b"]) == " \nb\n";
    assert Unlines(lines) == "a\n \nb\n";
    SqueezeIsFold(' ', lines);
    assert Fold(' ', ["b"]) == "b\n";
    assert Fold(' ', [" ", "b"]) == " \nb\n";
  }

  // ----- chomp

  /** Without the last lines that hold nothing but indent, and without the indent that ends the line before. */
  function Trimmed(c: char, lines: seq<string>): seq<string> {
    if lines == [] then []
    else
      var last, before := lines[|lines| - 1], lines[..|lines| - 1];
      if Only(c, last) then Trimmed(c, before) else before + [Stripped(c, last)]
  }

  lemma {:induction false} UnlinesAppend(lines: seq<string>, w: string)
    ensures Unlines(lines + [w]) == Unlines(lines) + (w + "\n")
  {
    if lines == [] {
      assert ([w])[1..] == [];
      assert Unlines([w]) == w + ("\n" + "");
    } else {
      assert (lines + [w])[1..] == lines[1..] + [w];
      UnlinesAppend(lines[1..], w);
      var a, b := lines[0], Unlines(lines[1..]);
      assert a + ("\n" + (b + (w + "\n"))) == a + ("\n" + b) + (w + "\n");
    }
  }

  predicate AllBlank(c: char, s: string) {
    forall i :: 0 <= i < |s| ==> Blank(c, s[i])
  }

  /** Everything chomp removes stands behind the trimmed lines. */
  lemma {:induction false} TrimSplits(c: char, lines: seq<string>) returns (body: string, tail: string)
    requires NoNewlines(lines) && Trimmed(c, lines) != []
    ensures Unlines(lines) == body + tail && AllBlank(c, tail) && tail != "" && tail[|tail| - 1] == NEWLINE
    ensures body != "" && !Blank(c, body[|body| - 1]) && Unlines(Trimmed(c, lines)) == body + "\n"
    decreases |lines|
  {
    var n := |lines| - 1;
    var last, before := lines[n], lines[..n];
    assert lines == before + [last];
    UnlinesAppend(before, last);
    if Only(c, last) {
      body, tail := TrimSplits(c, before);
      tail := tail + (last + "\n");
    } else {
      var t := Stripped(c, last);
      StrippedSplits(c, last);
      UnlinesAppend(before, t);
      body, tail := Unlines(before) + t, last[|t|..] + "\n";
      assert last == t + last[|t|..];
      assert t[|t| - 1] == last[|t| - 1];
    }
  }

  lemma ChompLines(c: char, lines: seq<string>)
    requires NoNewlines(lines) && Trimmed(c, lines) != []
    ensures Chomped(c, Unlines(lines)) == Unlines(Trimmed(c, lines)) && HasSolid(c, Unlines(lines))
  {
    var body, tail := TrimSplits(c, lines);
    var s := body + tail;
    assert !Blank(c, s[|body| - 1]);
    var n := TrailingBlanks(c, s);
    assert n == |tail|;
    assert s[..|s| - n] == body;
    assert |tail| == 1 ==> tail == "\n";
  }

  lemma {:induction false} TrimmedLines(c: char, lines: seq<string>)
    requires NoNewlines(lines)
    ensures NoNewlines(Trimmed(c, lines))
    ensures var ts := Trimmed(c, lines);
            ts != [] ==> (ts[0] == "" <==> lines[0] == "") && var w := ts[|ts| - 1]; w != "" && w[|w| - 1] != c
    decreases |lines|
  {
    if lines != [] {
      var last, before := lines[|lines| - 1], lines[..|lines| - 1];
      if Only(c, last) {
        TrimmedLines(c, before);
      } else {
        StrippedSplits(c, last);
      }
    }
  }

  lemma UnlinesEnds(lines: seq<string>)
    requires lines != []
    ensures var s, w := Unlines(lines), lines[|lines| - 1];
            |s| > |w| && s[|s| - 1] == NEWLINE && (w != "" ==> s[|s| - 2] == w[|w| - 1])
  {
    var n := |lines| - 1;
    assert lines == lines[..n] + [lines[n]];
    UnlinesAppend(lines[..n], lines[n]);
  }
}
