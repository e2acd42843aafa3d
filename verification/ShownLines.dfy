/**
 When the clean-up leaves exactly the lines that hold something, each on a line of its own.
 */
module ShownLines {
  import opened Prelude
  import opened Cleaning
  import opened TextLines
  import opened CleanedLines

  /** The lines that hold something other than indent. */
  function Texts(c: char, lines: seq<string>): (texts: seq<string>)
    ensures NoNewlines(lines) ==> NoNewlines(texts)
    ensures forall k :: 0 <= k < |texts| ==> !Only(c, texts[k])
  {
    if lines == [] then []
    else (if Only(c, lines[0]) then [] else [lines[0]]) + Texts(c, lines[1..])
  }

  predicate HasText(c: char, lines: seq<string>) {
    Texts(c, lines) != []
  }

  /** Chomp also takes the indent characters that end the last line. */
  function StripLast(c: char, lines: seq<string>): seq<string> {
    if lines == [] then [] else lines[..|lines| - 1] + [Stripped(c, lines[|lines| - 1])]
  }

  /** Some line of the kind has a text after it; `after` says whether a text follows the last line. */
  predicate BeforeText(c: char, kind: string -> bool, lines: seq<string>, after: bool) {
    lines != []
    && (BeforeText(c, kind, lines[1..], after) || ((after || HasText(c, lines[1..])) && kind(lines[0])))
  }

  /** A text that keeps its newline, or a line of indent that goes. */
  predicate Steady(c: char, w: string) {
    if Only(c, w) then |w| != 1 else !EndsDouble(c, w)
  }

  function Unsteady(c: char): string -> bool {
    w => !Steady(c, w)
  }

  /** Every line with a text after it is steady. */
  predicate Smooth(c: char, lines: seq<string>, after: bool) {
    !BeforeText(c, Unsteady(c), lines, after)
  }

  lemma {:induction false} TextsConcat(c: char, a: seq<string>, b: seq<string>)
    ensures Texts(c, a + b) == Texts(c, a) + Texts(c, b)
  {
    if a == [] {
      assert a + b == b;
    } else {
      assert (a + b)[0] == a[0] && (a + b)[1..] == a[1..] + b;
      TextsConcat(c, a[1..], b);
    }
  }

  lemma {:induction false} BeforeTextConcat(c: char, kind: string -> bool, a: seq<string>, b: seq<string>, after: bool)
    ensures BeforeText(c, kind, a + b, after)
            <==> BeforeText(c, kind, a, after || HasText(c, b)) || BeforeText(c, kind, b, after)
  {
    if a == [] {
      assert a + b == b;
    } else {
      assert (a + b)[0] == a[0] && (a + b)[1..] == a[1..] + b;
      BeforeTextConcat(c, kind, a[1..], b, after);
      TextsConcat(c, a[1..], b);
    }
  }

  lemma SingleLine(c: char, kind: string -> bool, w: string, after: bool)
    ensures Texts(c, [w]) == (if Only(c, w) then [] else [w])
    ensures BeforeText(c, kind, [w], after) <==> after && kind(w)
  {
    assert [w][1..] == [];
  }

  lemma {:induction false} TextsDropEmpty(c: char, lines: seq<string>, after: bool)
    ensures Texts(c, DropEmpty(lines)) == Texts(c, lines)
    ensures Smooth(c, DropEmpty(lines), after) <==> Smooth(c, lines, after)
  {
    if lines != [] && lines[0] == "" {
      TextsDropEmpty(c, lines[1..], after);
    }
  }

  lemma {:induction false} DropEmptyLast(lines: seq<string>)
    requires lines != [] && lines[|lines| - 1] != ""
    ensures var rest := DropEmpty(lines); rest != [] && rest[|rest| - 1] == lines[|lines| - 1]
  {
    if lines[0] == "" {
      DropEmptyLast(lines[1..]);
    }
  }

  /** The last line is a text that does not end in indent. */
  predicate Ended(c: char, lines: seq<string>) {
    lines != [] && var w := lines[|lines| - 1]; w != "" && w[|w| - 1] != c
  }

  lemma {:induction false} EndedHasText(c: char, lines: seq<string>)
    requires Ended(c, lines)
    ensures HasText(c, lines)
  {
    if |lines| > 1 {
      EndedHasText(c, lines[1..]);
    }
  }

  /** A line of text that ends in the given character. */
  predicate EndsWith(s: string, x: char) {
    |s| >= 2 && s[|s| - 1] == NEWLINE && s[|s| - 2] == x
  }

  lemma EndsAfter(a: string, s: string, x: char)
    requires EndsWith(s, x)
    ensures EndsWith(a + s, x)
  {
  }

  /** Compress keeps how a text ends. */
  lemma {:induction false} FoldEnds(c: char, lines: seq<string>)
    requires Ended(c, lines)
    ensures var w := lines[|lines| - 1]; EndsWith(Fold(c, lines), w[|w| - 1])
    decreases |lines|
  {
    var w, last := lines[0], lines[|lines| - 1];
    var x := last[|last| - 1];
    if |lines| == 1 {
      assert Fold(c, lines) == w + ("\n" + "");
    } else {
      var rest := DropEmpty(lines[1..]);
      DropEmptyLast(lines[1..]);
      FoldEnds(c, rest);
      EndsAfter(Stripped(c, w), Fold(c, rest), x);
      EndsAfter("\n", Fold(c, rest), x);
      EndsAfter(w, "\n" + Fold(c, rest), x);
    }
  }

  lemma FirstLineDiffers(c: char, x: string, s: string, texts: seq<string>)
    requires NoNewline(x) && Only(c, x) && NoNewlines(texts) && texts != [] && !Only(c, texts[0])
    ensures x + ("\n" + s) != Unlines(texts)
  {
    var w, t := texts[0], Unlines(texts[1..]);
    if x + ("\n" + s) == w + ("\n" + t) {
      SameFirstLine(x, s, w, t);
    }
  }

  lemma SameFirstLine(x: string, s: string, w: string, t: string)
    requires NoNewline(x) && NoNewline(w) && x + ("\n" + s) == w + ("\n" + t)
    ensures x == w && s == t
  {
    var l := x + ("\n" + s);
    assert l[|x|] == NEWLINE && l[|w|] == NEWLINE;
    assert forall i :: 0 <= i < |x| ==> l[i] == x[i];
    assert forall i :: 0 <= i < |w| ==> l[i] == w[i];
    assert |x| == |w|;
    assert l[..|x|] == x && l[..|w|] == w;
    assert l[|x| + 1..] == s && l[|w| + 1..] == t;
  }

  /** Compress leaves exactly the lines of text, if and only if the lines before the last text are steady. */
  lemma {:induction false} FoldIsTexts(c: char, lines: seq<string>)
    requires NoNewlines(lines) && Ended(c, lines) && lines[0] != ""
    ensures Fold(c, lines) == Unlines(Texts(c, lines)) <==> Smooth(c, lines, false)
    decreases |lines|
  {
    if |lines| == 1 {
      assert lines == [lines[0]];
      OneLineFold(c, lines[0]);
    } else {
      DropEmptyLast(lines[1..]);
      FoldIsTexts(c, DropEmpty(lines[1..]));
      EndedHasText(c, lines[1..]);
      MoreLinesFold(c, lines);
    }
  }

  lemma MoreLinesFold(c: char, lines: seq<string>)
    requires NoNewlines(lines) && lines != [] && lines[0] != "" && HasText(c, lines[1..])
    requires var rest := DropEmpty(lines[1..]); Fold(c, rest) == Unlines(Texts(c, rest)) <==> Smooth(c, rest, false)
    ensures Fold(c, lines) == Unlines(Texts(c, lines)) <==> Smooth(c, lines, false)
  {
    var w, texts, folded := lines[0], Texts(c, lines[1..]), Fold(c, DropEmpty(lines[1..]));
    TextsDropEmpty(c, lines[1..], false);
    FoldIsNormal(c, lines);
    SmoothStep(c, lines);
    assert Fold(c, lines) == if EndsDouble(c, w) then Stripped(c, w) + folded else w + ("\n" + folded);
    assert Texts(c, lines) == (if Only(c, w) then [] else [w]) + texts;
    FoldStep(c, w, folded, texts);
  }

  lemma OneLineFold(c: char, w: string)
    requires w != "" && w[|w| - 1] != c
    ensures Fold(c, [w]) == Unlines(Texts(c, [w])) && Smooth(c, [w], false)
  {
    SingleLine(c, Unsteady(c), w, false);
    assert [w][1..] == [];
  }

  lemma FoldIsNormal(c: char, lines: seq<string>)
    requires NoNewlines(lines)
    ensures Normal(c, Fold(c, lines))
  {
    SqueezedIsNormal(c, Unlines(lines), 0);
    SqueezeIsFold(c, lines);
  }

  lemma SmoothStep(c: char, lines: seq<string>)
    requires lines != [] && HasText(c, lines[1..])
    ensures Smooth(c, lines, false) <==> Smooth(c, lines[1..], false) && Steady(c, lines[0])
  {
  }

  lemma FoldStep(c: char, w: string, rest: string, texts: seq<string>)
    requires NoNewline(w) && w != "" && NoNewlines(texts) && texts != [] && !Only(c, texts[0])
    requires Normal(c, if EndsDouble(c, w) then Stripped(c, w) + rest else w + ("\n" + rest))
    ensures (if EndsDouble(c, w) then Stripped(c, w) + rest else w + ("\n" + rest))
            == Unlines((if Only(c, w) then [] else [w]) + texts)
            <==> rest == Unlines(texts) && Steady(c, w)
  {
    if Only(c, w) {
      BlankStep(c, w, rest, texts);
    } else {
      assert ([w] + texts)[1..] == texts;
      if EndsDouble(c, w) {
        DoubleIsNotNormal(c, w, Unlines(texts));
      } else {
        SameRest(w, rest, Unlines(texts));
      }
    }
  }

  lemma BlankStep(c: char, w: string, rest: string, texts: seq<string>)
    requires NoNewline(w) && w != "" && Only(c, w) && NoNewlines(texts) && texts != [] && !Only(c, texts[0])
    ensures (if EndsDouble(c, w) then Stripped(c, w) + rest else w + ("\n" + rest)) == Unlines([] + texts)
            <==> rest == Unlines(texts) && |w| != 1
  {
    StrippedSplits(c, w);
    assert [] + texts == texts && "" + rest == rest;
    if |w| == 1 {
      FirstLineDiffers(c, w, rest, texts);
    }
  }

  lemma SameRest(w: string, s: string, t: string)
    ensures w + ("\n" + s) == w + ("\n" + t) <==> s == t
  {
    assert (w + ("\n" + s))[|w| + 1..] == s && (w + ("\n" + t))[|w| + 1..] == t;
  }

  lemma {:induction false} TrimmedTexts(c: char, kind: string -> bool, lines: seq<string>)
    ensures Texts(c, Trimmed(c, lines)) == StripLast(c, Texts(c, lines))
    ensures Trimmed(c, lines) == [] <==> !HasText(c, lines)
    ensures BeforeText(c, kind, Trimmed(c, lines), false) <==> BeforeText(c, kind, lines, false)
    decreases |lines|
  {
    if lines != [] {
      var last, before := lines[|lines| - 1], lines[..|lines| - 1];
      assert lines == before + [last];
      TextsConcat(c, before, [last]);
      BeforeTextConcat(c, kind, before, [last], false);
      SingleLine(c, kind, last, false);
      if Only(c, last) {
        TrimmedTexts(c, kind, before);
        assert Texts(c, before) + [] == Texts(c, before);
      } else {
        var t := Stripped(c, last);
        StrippedSplits(c, last);
        StrippedSplits(c, t);
        TextsConcat(c, before, [t]);
        BeforeTextConcat(c, kind, before, [t], false);
        SingleLine(c, kind, t, false);
      }
    }
  }

  lemma {:induction false} NoTextIsBlank(c: char, lines: seq<string>)
    requires !HasText(c, lines)
    ensures AllBlank(c, Unlines(lines))
  {
    if lines != [] {
      NoTextIsBlank(c, lines[1..]);
    }
  }

  /** Whether the clean-up of these lines takes their final newline. */
  predicate EndsCut(c: char, lines: seq<string>) {
    Cuts(c, Trimmed(c, lines))
  }

  /**
   Chomp and compress leave exactly the lines that hold something, without the indent that ends the last, if and only if
   the text does not start with an empty line and every line before the last text is steady: no text there ends in two
   indent characters, and no line there is a single indent character. The text ends in a newline unless it is cut.
   */
  lemma CleanTexts(c: char, lines: seq<string>)
    requires NoNewlines(lines) && lines != []
    ensures HasSolid(c, Unlines(lines)) <==> HasText(c, lines)
    ensures HasText(c, lines) ==>
              (Shows(CleanedUp(c, Unlines(lines)), Unlines(StripLast(c, Texts(c, lines))), EndsCut(c, lines))
               <==> lines[0] != "" && Smooth(c, lines, false))
              && (EndsLine(CleanedUp(c, Unlines(lines))) <==> !EndsCut(c, lines))
  {
    if HasText(c, lines) {
      var ts := Trimmed(c, lines);
      TrimmedTexts(c, Unsteady(c), lines);
      TrimmedLines(c, lines);
      EndedHasText(c, ts);
      CleanedIs(c, lines);
      ShowsFolded(c, lines, Texts(c, ts));
      if lines[0] == "" {
        FirstLineDiffers(c, "", Fold(c, DropEmpty(ts[1..])), Texts(c, ts));
      } else {
        FoldIsTexts(c, ts);
      }
    } else {
      NoTextIsBlank(c, lines);
    }
  }

  /** The same for lines with an empty line after them. */
  lemma CleanTextsAndEmpty(c: char, lines: seq<string>)
    requires NoNewlines(lines) && lines != []
    ensures var d := Unlines(lines) + "\n";
            (HasSolid(c, d) <==> HasText(c, lines))
            && (HasText(c, lines) ==>
                  (Shows(CleanedUp(c, d), Unlines(StripLast(c, Texts(c, lines))), EndsCut(c, lines))
                   <==> lines[0] != "" && Smooth(c, lines, false))
                  && (EndsLine(CleanedUp(c, d)) <==> !EndsCut(c, lines)))
  {
    UnlinesAppend(lines, "");
    assert "" + "\n" == "\n";
    EmptyAfter(c, lines);
    CleanTexts(c, lines + [""]);
  }

  lemma EmptyAfter(c: char, lines: seq<string>)
    requires lines != []
    ensures var all := lines + [""];
            Texts(c, all) == Texts(c, lines) && (Smooth(c, all, false) <==> Smooth(c, lines, false))
            && Trimmed(c, all) == Trimmed(c, lines) && all[0] == lines[0]
  {
    var all := lines + [""];
    TextsConcat(c, lines, [""]);
    BeforeTextConcat(c, Unsteady(c), lines, [""], false);
    SingleLine(c, Unsteady(c), "", false);
    assert Texts(c, lines) + [] == Texts(c, lines);
    assert all[..|lines|] == lines;
  }

  // ----- texts that hold newlines of their own

  function SplitLines(s: string): (lines: seq<string>)
    ensures lines != [] && NoNewlines(lines)
  {
    if s == "" then [""]
    else
      var more := SplitLines(s[1..]);
      if s[0] == NEWLINE then [""] + more else [[s[0]] + more[0]] + more[1..]
  }

  /** The lines a reader counts. */
  function Physical(lines: seq<string>): (all: seq<string>)
    ensures NoNewlines(all) && (lines != [] ==> all != [])
  {
    if lines == [] then [] else SplitLines(lines[0]) + Physical(lines[1..])
  }

  lemma {:induction false} SplitUnlines(s: string)
    ensures Unlines(SplitLines(s)) == s + "\n"
  {
    if s == "" {
      assert [""][1..] == [];
    } else {
      SplitUnlines(s[1..]);
      var more := SplitLines(s[1..]);
      assert s == [s[0]] + s[1..];
      if s[0] == NEWLINE {
        assert ([""] + more)[1..] == more;
      } else {
        assert ([[s[0]] + more[0]] + more[1..])[1..] == more[1..];
        Regroup([s[0]], more[0], "\n" + Unlines(more[1..]));
        Regroup([s[0]], s[1..], "\n");
      }
    }
  }

  lemma {:induction false} PhysicalUnlines(lines: seq<string>)
    ensures Unlines(Physical(lines)) == Unlines(lines)
  {
    if lines != [] {
      SplitUnlines(lines[0]);
      PhysicalUnlines(lines[1..]);
      UnlinesConcat(SplitLines(lines[0]), Physical(lines[1..]));
      Regroup(lines[0], "\n", Unlines(lines[1..]));
    }
  }

  lemma {:induction false} PhysicalConcat(a: seq<string>, b: seq<string>)
    ensures Physical(a + b) == Physical(a) + Physical(b)
  {
    if a == [] {
      assert a + b == b;
    } else {
      assert (a + b)[0] == a[0] && (a + b)[1..] == a[1..] + b;
      PhysicalConcat(a[1..], b);
    }
  }

  lemma {:induction false} SplitOne(s: string)
    requires NoNewline(s)
    ensures SplitLines(s) == [s]
  {
    if s != "" {
      SplitOne(s[1..]);
      assert [s[0]] + s[1..] == s;
    }
  }

  lemma {:induction false} PhysicalSame(lines: seq<string>)
    requires NoNewlines(lines)
    ensures Physical(lines) == lines
  {
    if lines != [] {
      SplitOne(lines[0]);
      PhysicalSame(lines[1..]);
    }
  }

  /** A line of indent is one line, or that many empty ones more if the indent character is the newline. */
  lemma {:induction false} IndentLines(c: char, i: nat)
    ensures !HasText(c, SplitLines(Repeat(c, i)))
    ensures var lines := SplitLines(Repeat(c, i));
            if c == NEWLINE then lines == seq(i + 1, _ => "") else lines == [Repeat(c, i)]
    decreases i
  {
    var s := Repeat(c, i);
    if c != NEWLINE {
      SplitOne(s);
      SingleLine(c, Unsteady(c), s, false);
    } else if i == 0 {
      SingleLine(c, Unsteady(c), "", false);
      assert [""] == seq(1, _ => "");
    } else {
      IndentLines(c, i - 1);
      assert s[1..] == Repeat(c, i - 1);
      assert [""] + seq(i, _ => "") == seq(i + 1, _ => "");
      TextsConcat(c, [""], SplitLines(s[1..]));
      SingleLine(c, Unsteady(c), "", false);
    }
  }

  /** A kind of which the line that ends a group at this indent is one, or holds one. */
  predicate OfKind(c: char, kind: string -> bool, i: nat) {
    kind(if c == NEWLINE then "" else Repeat(c, i))
  }

  lemma IndentKind(c: char, kind: string -> bool, i: nat, after: bool)
    ensures BeforeText(c, kind, SplitLines(Repeat(c, i)), after) <==> after && OfKind(c, kind, i)
  {
    IndentLines(c, i);
    if c == NEWLINE {
      EmptiesKind(c, kind, i + 1, after);
    } else {
      SingleLine(c, kind, Repeat(c, i), after);
    }
  }

  lemma {:induction false} EmptiesKind(c: char, kind: string -> bool, n: nat, after: bool)
    requires n > 0
    ensures !HasText(c, seq(n, _ => "")) && (BeforeText(c, kind, seq(n, _ => ""), after) <==> after && kind(""))
  {
    var lines := seq(n, _ => "");
    if n == 1 {
      assert lines == [""];
      SingleLine(c, kind, "", after);
    } else {
      assert lines[1..] == seq(n - 1, _ => "");
      EmptiesKind(c, kind, n - 1, after);
    }
  }

  // ----- when the final newline goes

  function IsEmpty(): string -> bool {
    w => w == ""
  }

  function Doubled(c: char): string -> bool {
    w => EndsDouble(c, w)
  }

  /** A line that ends in two indent characters is followed by an empty line or by one that starts with indent. */
  predicate Stepped(c: char, lines: seq<string>) {
    lines == []
    || (Stepped(c, lines[1..]) && (EndsDouble(c, lines[0]) && |lines| > 1 ==> !StartsOther(c, lines[1..])))
  }

  lemma {:induction false} SteppedInexact(c: char, lines: seq<string>, counted: bool)
    requires Stepped(c, lines) && BeforeText(c, Doubled(c), lines, false)
    ensures !ExactLines(c, lines, counted)
    decreases |lines|
  {
    var rest := lines[1..];
    if !EndsDouble(c, lines[0]) {
      SteppedInexact(c, rest, counted && c !in lines[0]);
    }
  }

  lemma {:induction false} SingleExact(c: char, lines: seq<string>)
    requires Ended(c, lines) && !BeforeText(c, Doubled(c), lines, false)
    ensures ExactLines(c, lines, false)
    ensures Dropless(c, lines) <==> !BeforeText(c, IsEmpty(), lines[1..], false)
    decreases |lines|
  {
    var rest := lines[1..];
    if rest != [] {
      EndedHasText(c, rest);
      SingleExact(c, rest);
      assert rest[1..] == lines[2..];
    }
  }

  /** If lines step down like this, the final newline goes exactly when empty lines are dropped and nothing else is. */
  lemma CutsIff(c: char, lines: seq<string>)
    requires Ended(c, lines) && lines[0] != "" && Stepped(c, lines)
    ensures Cuts(c, lines) <==> BeforeText(c, IsEmpty(), lines, false) && !BeforeText(c, Doubled(c), lines, false)
  {
    if BeforeText(c, Doubled(c), lines, false) {
      SteppedInexact(c, lines, false);
    } else {
      SingleExact(c, lines);
    }
  }

  lemma {:induction false} SteppedConcat(c: char, a: seq<string>, b: seq<string>)
    ensures Stepped(c, a + b)
            <==> Stepped(c, a) && Stepped(c, b)
                 && (a != [] && b != [] && EndsDouble(c, a[|a| - 1]) ==> !StartsOther(c, b))
  {
    if a == [] {
      assert a + b == b;
    } else {
      assert (a + b)[0] == a[0] && (a + b)[1..] == a[1..] + b;
      SteppedConcat(c, a[1..], b);
    }
  }

  lemma {:induction false} SteppedTrimmed(c: char, lines: seq<string>)
    requires Stepped(c, lines)
    ensures Stepped(c, Trimmed(c, lines))
    decreases |lines|
  {
    if lines != [] {
      var last, before := lines[|lines| - 1], lines[..|lines| - 1];
      assert lines == before + [last];
      SteppedConcat(c, before, [last]);
      if Only(c, last) {
        SteppedTrimmed(c, before);
      } else {
        var t := Stripped(c, last);
        StrippedSplits(c, last);
        assert t[0] == last[0];
        SteppedConcat(c, before, [t]);
      }
    }
  }
}
