/**
 What the document clean-up of src/pstring.c does to a text, with `c` the indent character:
 `Chomped` for `pstring_chomp`, `Squeezed` for the compaction loop of `pstring_compress` and
 `Tally` for the two counters that loop keeps.
 */
module Cleaning {
  import opened Prelude

  /** The characters the clean-up may remove. */
  predicate Blank(c: char, x: char) {
    x == NEWLINE || x == c
  }

  /** Some character is neither a newline nor an indent character. */
  predicate HasSolid(c: char, s: string) {
    exists i :: 0 <= i < |s| && !Blank(c, s[i])
  }

  /** The characters that must survive, in order. */
  function Solid(c: char, s: string): string {
    if s == "" then "" else (if Blank(c, s[0]) then "" else [s[0]]) + Solid(c, s[1..])
  }

  // ----- pstring_chomp

  function TrailingBlanks(c: char, s: string): (n: nat)
    ensures n <= |s|
    ensures forall i :: |s| - n <= i < |s| ==> Blank(c, s[i])
    ensures n < |s| ==> !Blank(c, s[|s| - n - 1])
  {
    if s == "" || !Blank(c, s[|s| - 1]) then 0 else 1 + TrailingBlanks(c, s[..|s| - 1])
  }

  function Chomped(c: char, s: string): string {
    var n := TrailingBlanks(c, s);
    if |s| < 2 || n < 2 then s else s[..|s| - n] + [NEWLINE]
  }

  // ----- the loop of pstring_compress, from position `i` of its text

  /** Where the run of `c` at `i` ends. */
  function RunEnd(c: char, s: string, i: nat): (e: nat)
    requires i <= |s|
    ensures i <= e <= |s|
    decreases |s| - i
  {
    if i < |s| && s[i] == c then RunEnd(c, s, i + 1) else i
  }

  lemma {:induction false} RunEndSpec(c: char, s: string, i: nat)
    requires i <= |s|
    ensures var e := RunEnd(c, s, i); (forall k :: i <= k < e ==> s[k] == c) && (e < |s| ==> s[e] != c)
    decreases |s| - i
  {
    if i < |s| && s[i] == c {
      RunEndSpec(c, s, i + 1);
    }
  }

  /** `RunEnd` is the one position of that kind. */
  lemma {:induction false} RunEndIs(c: char, s: string, i: nat, e: nat)
    requires i <= e <= |s| && (forall k :: i <= k < e ==> s[k] == c) && (e < |s| ==> s[e] != c)
    ensures RunEnd(c, s, i) == e
    decreases e - i
  {
    if i < e {
      RunEndIs(c, s, i + 1, e);
    }
  }

  predicate DoubleNewline(s: string, i: nat) {
    i + 1 < |s| && s[i] == NEWLINE && s[i + 1] == NEWLINE
  }

  /** Two or more indent characters and then a newline. */
  predicate BlankLine(c: char, s: string, i: nat)
    requires i <= |s|
  {
    var e := RunEnd(c, s, i);
    i + 2 <= e < |s| && s[e] == NEWLINE
  }

  /** Past a blank line and all the newlines that end it. */
  function AfterBlankLine(c: char, s: string, i: nat): (j: nat)
    requires i <= |s| && BlankLine(c, s, i)
    ensures i + 2 < j <= |s|
  {
    RunEnd(NEWLINE, s, RunEnd(c, s, i))
  }

  lemma AfterBlankLineSpec(c: char, s: string, i: nat)
    requires i <= |s| && BlankLine(c, s, i)
    ensures var j := AfterBlankLine(c, s, i);
            s[i] == c && s[i + 1] == c && (j < |s| ==> s[j] != NEWLINE) && forall k :: i <= k < j ==> Blank(c, s[k])
  {
    RunEndSpec(c, s, i);
    RunEndSpec(NEWLINE, s, RunEnd(c, s, i));
  }

  /** Newline runs become one newline, blank lines go, and everything else stays. */
  function Squeezed(c: char, s: string, i: nat): string
    requires i <= |s|
    decreases |s| - i
  {
    if i == |s| then ""
    else if DoubleNewline(s, i) then Squeezed(c, s, i + 1)
    else if BlankLine(c, s, i) then Squeezed(c, s, AfterBlankLine(c, s, i))
    else [s[i]] + Squeezed(c, s, i + 1)
  }

  /** The value of `blanks + count` when the loop ends, from the values they have at `i`. */
  function Tally(c: char, s: string, i: nat, blanks: nat, count: nat): nat
    requires i <= |s|
    decreases |s| - i
  {
    if i == |s| then blanks + count
    else if DoubleNewline(s, i) then Tally(c, s, i + 1, blanks + 1, count)
    else if BlankLine(c, s, i) then
      var j := AfterBlankLine(c, s, i);
      var again := j < |s| && s[j] == c;
      Tally(c, s, j, if again then blanks else blanks + 1, count + (RunEnd(c, s, i) - i))
    else Tally(c, s, i + 1, blanks, if s[i] == c then 0 else count)
  }

  /** The text `pstring_compress` leaves: the late terminator write cuts one character when the counters were exact. */
  function Compressed(c: char, s: string): string {
    var q := Squeezed(c, s, 0);
    var t := Tally(c, s, 0, 0, 0);
    if 0 < t == |s| - |q| && q != "" then q[..|q| - 1] else q
  }

  // ----- the loop's result is a normal form and the loop stops there

  /** No two newlines in a row, no two indent characters before a newline. */
  predicate Normal(c: char, s: string) {
    (forall i :: 0 <= i < |s| - 1 ==> !(s[i] == NEWLINE && s[i + 1] == NEWLINE)) &&
    (forall i :: 0 <= i < |s| - 2 ==> !(s[i] == c && s[i + 1] == c && s[i + 2] == NEWLINE))
  }

  lemma {:induction false} SqueezedHead(c: char, s: string, i: nat)
    requires i < |s|
    ensures var q := Squeezed(c, s, i);
            (s[i] == NEWLINE ==> q != "" && q[0] == NEWLINE) && (s[i] != NEWLINE && q != "" ==> q[0] != NEWLINE)
    decreases |s| - i
  {
    if DoubleNewline(s, i) {
      SqueezedHead(c, s, i + 1);
    } else if BlankLine(c, s, i) {
      AfterBlankLineSpec(c, s, i);
      var j := AfterBlankLine(c, s, i);
      if j < |s| {
        SqueezedHead(c, s, j);
      } else {
        RunEndSpec(c, s, i);
      }
    }
  }

  /** A run of indent characters that no newline follows is kept whole, and no newline follows it afterwards. */
  lemma {:induction false} SqueezedRun(c: char, s: string, i: nat)
    requires i < |s| && s[i] == c && c != NEWLINE
    requires var e := RunEnd(c, s, i); e == |s| || s[e] != NEWLINE
    ensures var q := Squeezed(c, s, i); q != "" && q[0] == c && (|q| > 1 ==> q[1] != NEWLINE)
    decreases |s| - i
  {
  }

  lemma NormalStep(c: char, x: char, q: string)
    requires Normal(c, q)
    requires q != "" && x == NEWLINE ==> q[0] != NEWLINE
    requires |q| > 1 && x == c ==> !(q[0] == c && q[1] == NEWLINE)
    ensures Normal(c, [x] + q)
  {
  }

  lemma {:induction false} SqueezedSecond(c: char, s: string, i: nat)
    requires i < |s| && s[i] == c && !BlankLine(c, s, i) && !DoubleNewline(s, i)
    ensures var q := Squeezed(c, s, i + 1); !(|q| > 1 && q[0] == c && q[1] == NEWLINE)
  {
    if i + 1 < |s| {
      SqueezedHead(c, s, i + 1);
      if c == NEWLINE {
      } else if s[i + 1] == c {
        RunEndSpec(c, s, i + 1);
        SqueezedRun(c, s, i + 1);
      }
    }
  }

  /** The loop leaves no empty line and no line of two or more indent characters. */
  lemma {:induction false} SqueezedIsNormal(c: char, s: string, i: nat)
    requires i <= |s|
    ensures Normal(c, Squeezed(c, s, i))
    decreases |s| - i
  {
    if i == |s| {
    } else if DoubleNewline(s, i) {
      SqueezedIsNormal(c, s, i + 1);
    } else if BlankLine(c, s, i) {
      SqueezedIsNormal(c, s, AfterBlankLine(c, s, i));
    } else {
      SqueezedIsNormal(c, s, i + 1);
      if i + 1 < |s| {
        SqueezedHead(c, s, i + 1);
      }
      if s[i] == c {
        SqueezedSecond(c, s, i);
      }
      NormalStep(c, s[i], Squeezed(c, s, i + 1));
    }
  }

  lemma BlankLineIsNotNormal(c: char, s: string, i: nat)
    requires i <= |s|
    ensures BlankLine(c, s, i) ==> !Normal(c, s)
  {
    if BlankLine(c, s, i) {
      RunEndSpec(c, s, i);
      var e := RunEnd(c, s, i);
      assert s[e - 2] == c && s[e - 1] == c && s[e - 2 + 2] == NEWLINE;
    }
  }

  lemma {:induction false} NormalIsFixed(c: char, s: string, i: nat)
    requires i <= |s| && Normal(c, s)
    ensures Squeezed(c, s, i) == s[i..] && Tally(c, s, i, 0, 0) == 0
    decreases |s| - i
  {
    if i < |s| {
      BlankLineIsNotNormal(c, s, i);
      NormalIsFixed(c, s, i + 1);
    }
  }

  /** Running the loop on its own result changes nothing. */
  lemma SqueezedTwice(c: char, s: string)
    ensures var q := Squeezed(c, s, 0); Squeezed(c, q, 0) == q
  {
    SqueezedIsNormal(c, s, 0);
    NormalIsFixed(c, Squeezed(c, s, 0), 0);
  }

  // ----- what the clean-up drops

  lemma {:induction false} SolidSkip(c: char, s: string, n: nat)
    requires n <= |s| && forall i :: 0 <= i < n ==> Blank(c, s[i])
    ensures Solid(c, s) == Solid(c, s[n..])
  {
    if n > 0 {
      SolidSkip(c, s[1..], n - 1);
      assert s[1..][n - 1..] == s[n..];
    }
  }

  lemma {:induction false} SolidConcat(c: char, a: string, b: string)
    ensures Solid(c, a + b) == Solid(c, a) + Solid(c, b)
  {
    if a == "" {
      assert a + b == b;
    } else {
      assert (a + b)[0] == a[0] && (a + b)[1..] == a[1..] + b;
      SolidConcat(c, a[1..], b);
    }
  }

  lemma SolidOfBlanks(c: char, s: string)
    requires forall i :: 0 <= i < |s| ==> Blank(c, s[i])
    ensures Solid(c, s) == ""
  {
  }

  lemma SolidRange(c: char, s: string, i: nat, j: nat)
    requires i <= j <= |s| && forall k :: i <= k < j ==> Blank(c, s[k])
    ensures Solid(c, s[i..]) == Solid(c, s[j..])
  {
    SolidSkip(c, s[i..], j - i);
    assert s[i..][j - i..] == s[j..];
  }

  lemma SolidFirst(c: char, x: char, t: string, u: string)
    requires Solid(c, t) == Solid(c, u)
    ensures Solid(c, [x] + t) == Solid(c, [x] + u)
  {
    assert ([x] + t)[1..] == t && ([x] + u)[1..] == u;
  }

  lemma {:induction false} SqueezedKeepsSolid(c: char, s: string, i: nat)
    requires i <= |s|
    ensures Solid(c, Squeezed(c, s, i)) == Solid(c, s[i..])
    decreases |s| - i
  {
    if i == |s| {
    } else if DoubleNewline(s, i) {
      SqueezedKeepsSolid(c, s, i + 1);
      SolidRange(c, s, i, i + 1);
    } else if BlankLine(c, s, i) {
      AfterBlankLineSpec(c, s, i);
      SqueezedKeepsSolid(c, s, AfterBlankLine(c, s, i));
      SolidRange(c, s, i, AfterBlankLine(c, s, i));
    } else {
      SqueezedKeepsSolid(c, s, i + 1);
      SolidFirst(c, s[i], Squeezed(c, s, i + 1), s[i + 1..]);
      assert s[i..] == [s[i]] + s[i + 1..];
      assert Squeezed(c, s, i) == [s[i]] + Squeezed(c, s, i + 1);
    }
  }

  /** The counters never claim more than was dropped. */
  lemma {:induction false} TallyBound(c: char, s: string, i: nat, blanks: nat, count: nat)
    requires i <= |s|
    ensures Tally(c, s, i, blanks, count) + |Squeezed(c, s, i)| <= blanks + count + |s| - i
    decreases |s| - i, 1
  {
    if i == |s| {
    } else if DoubleNewline(s, i) {
      TallyBound(c, s, i + 1, blanks + 1, count);
    } else if BlankLine(c, s, i) {
      BlankTallyBound(c, s, i, blanks, count);
    } else {
      TallyBound(c, s, i + 1, blanks, if s[i] == c then 0 else count);
    }
  }

  lemma {:induction false} BlankTallyBound(c: char, s: string, i: nat, blanks: nat, count: nat)
    requires i < |s| && !DoubleNewline(s, i) && BlankLine(c, s, i)
    ensures Tally(c, s, i, blanks, count) + |Squeezed(c, s, i)| <= blanks + count + |s| - i
    decreases |s| - i, 0
  {
    var e, j := RunEnd(c, s, i), AfterBlankLine(c, s, i);
    var more := if j < |s| && s[j] == c then blanks else blanks + 1;
    assert j > e by {
      RunEndSpec(c, s, i);
    }
    TallyBound(c, s, j, more, count + (e - i));
  }

  // ----- the whole clean-up

  /** The text ends in a newline that follows a character the clean-up keeps. */
  predicate Settled(c: char, s: string) {
    |s| >= 2 && s[|s| - 1] == NEWLINE && !Blank(c, s[|s| - 2])
  }

  /** Any text, split where its last newlines and indent characters begin: two or more of them become one newline. */
  lemma ChompedIs(c: char, a: string, b: string)
    requires (a != "" ==> !Blank(c, a[|a| - 1])) && forall i :: 0 <= i < |b| ==> Blank(c, b[i])
    ensures Chomped(c, a + b) == if |b| < 2 then a + b else a + "\n"
  {
    var s := a + b;
    var n := TrailingBlanks(c, s);
    assert n == |b| by {
      assert a != "" ==> s[|a| - 1] == a[|a| - 1];
      assert forall i :: 0 <= i < |b| ==> s[|a| + i] == b[i];
    }
    assert s[..|s| - n] == a;
  }

  lemma ChompedSettles(c: char, s: string)
    requires HasSolid(c, s) && s[|s| - 1] == NEWLINE
    ensures Settled(c, Chomped(c, s))
    ensures Solid(c, Chomped(c, s)) == Solid(c, s)
  {
    var n := TrailingBlanks(c, s);
    var t := Chomped(c, s);
    if n >= 2 {
      assert s == s[..|s| - n] + s[|s| - n..];
      SolidConcat(c, s[..|s| - n], s[|s| - n..]);
      SolidConcat(c, s[..|s| - n], [NEWLINE]);
      SolidOfBlanks(c, s[|s| - n..]);
      SolidOfBlanks(c, [NEWLINE]);
    }
  }

  lemma {:induction false} SqueezedStaysSettled(c: char, s: string, i: nat)
    requires Settled(c, s) && i <= |s| - 2
    ensures Settled(c, Squeezed(c, s, i))
    decreases |s| - i
  {
    if DoubleNewline(s, i) {
      SqueezedStaysSettled(c, s, i + 1);
    } else if BlankLine(c, s, i) {
      AfterBlankLineSpec(c, s, i);
      SqueezedStaysSettled(c, s, AfterBlankLine(c, s, i));
    } else if i == |s| - 2 {
      assert Squeezed(c, s, i + 2) == "";
      assert Squeezed(c, s, i + 1) == [NEWLINE];
    } else {
      SqueezedStaysSettled(c, s, i + 1);
    }
  }

  /**
   For every document with some character other than newline and indent and ending in a newline:
   every such character survives the clean-up, in order, and at most the final newline is cut.
   */
  lemma CleanKeepsSolid(c: char, s: string)
    requires HasSolid(c, s) && s[|s| - 1] == NEWLINE
    ensures var t := Chomped(c, s);
            Solid(c, Compressed(c, t)) == Solid(c, s)
            && (Compressed(c, t) == Squeezed(c, t, 0) || Compressed(c, t) + [NEWLINE] == Squeezed(c, t, 0))
  {
    var t := Chomped(c, s);
    ChompedSettles(c, s);
    SqueezedKeepsSolid(c, t, 0);
    SqueezedStaysSettled(c, t, 0);
    var q := Squeezed(c, t, 0);
    assert q == q[..|q| - 1] + [NEWLINE];
    SolidConcat(c, q[..|q| - 1], [NEWLINE]);
    SolidOfBlanks(c, [NEWLINE]);
  }

  /** Clean-up leaves alone a text already in normal form that ends in one newline. */
  lemma CleanIsIdentity(c: char, s: string)
    requires Normal(c, s) && Settled(c, s)
    ensures Chomped(c, s) == s && Compressed(c, s) == s
  {
    NormalIsFixed(c, s, 0);
    assert TrailingBlanks(c, s) == 1;
  }

  // ----- when the counters are exact, and the late terminator write cuts a character

  /**
   The counters miss nothing from `i` on; `counted` says whether indent characters have been counted and not forgotten.
   A blank line must end in a single newline and not be followed by the indent character, and an indent character that
   is copied makes the loop forget those it has counted.
   */
  predicate Exact(c: char, s: string, i: nat, counted: bool)
    requires i <= |s|
    decreases |s| - i
  {
    i == |s| ||
    if DoubleNewline(s, i) then Exact(c, s, i + 1, counted)
    else if BlankLine(c, s, i) then
      var j := AfterBlankLine(c, s, i);
      j == RunEnd(c, s, i) + 1 && (j < |s| ==> s[j] != c) && Exact(c, s, j, true)
    else if s[i] == c then !counted && Exact(c, s, i + 1, false)
    else Exact(c, s, i + 1, counted)
  }

  lemma {:induction false} TallyExact(c: char, s: string, i: nat, blanks: nat, count: nat)
    requires i <= |s|
    ensures Tally(c, s, i, blanks, count) + |Squeezed(c, s, i)| == blanks + count + |s| - i
            <==> Exact(c, s, i, count > 0)
    decreases |s| - i, 1
  {
    if i == |s| {
    } else if DoubleNewline(s, i) {
      TallyExact(c, s, i + 1, blanks + 1, count);
    } else if BlankLine(c, s, i) {
      BlankTallyExact(c, s, i, blanks, count);
    } else {
      var kept := if s[i] == c then 0 else count;
      TallyExact(c, s, i + 1, blanks, kept);
      TallyBound(c, s, i + 1, blanks, kept);
    }
  }

  lemma {:induction false} BlankTallyExact(c: char, s: string, i: nat, blanks: nat, count: nat)
    requires i < |s| && !DoubleNewline(s, i) && BlankLine(c, s, i)
    ensures Tally(c, s, i, blanks, count) + |Squeezed(c, s, i)| == blanks + count + |s| - i
            <==> Exact(c, s, i, count > 0)
    decreases |s| - i, 0
  {
    var e, j := RunEnd(c, s, i), AfterBlankLine(c, s, i);
    var more := if j < |s| && s[j] == c then blanks else blanks + 1;
    assert j > e by {
      RunEndSpec(c, s, i);
    }
    TallyExact(c, s, j, more, count + (e - i));
    TallyBound(c, s, j, more, count + (e - i));
  }

  /**
   The last character of a text is cut if and only if something was dropped and the counters missed nothing; in a
   settled text it is the final newline.
   */
  lemma CutIff(c: char, s: string)
    ensures var q := Squeezed(c, s, 0);
            Compressed(c, s) == (if q != "" && !Normal(c, s) && Exact(c, s, 0, false) then q[..|q| - 1] else q)
            && (Settled(c, s) ==> q != "" && q[|q| - 1] == NEWLINE)
  {
    if Settled(c, s) {
      SqueezedStaysSettled(c, s, 0);
    }
    TallyExact(c, s, 0, 0, 0);
    TallyBound(c, s, 0, 0, 0);
    if Normal(c, s) {
      NormalIsFixed(c, s, 0);
    } else {
      SqueezedIsNormal(c, s, 0);
      SqueezedShrinks(c, s, 0);
    }
  }

  /** A text that the loop does not shorten is left alone. */
  lemma {:induction false} SqueezedShrinks(c: char, s: string, i: nat)
    requires i <= |s|
    ensures |Squeezed(c, s, i)| <= |s| - i
    ensures |Squeezed(c, s, i)| == |s| - i ==> Squeezed(c, s, i) == s[i..]
    decreases |s| - i
  {
    if i == |s| {
    } else if DoubleNewline(s, i) {
      SqueezedShrinks(c, s, i + 1);
    } else if BlankLine(c, s, i) {
      SqueezedShrinks(c, s, AfterBlankLine(c, s, i));
    } else {
      SqueezedShrinks(c, s, i + 1);
      assert s[i..] == [s[i]] + s[i + 1..];
    }
  }

  // ----- where the loop is safe

  /** The text ends in two or more indent characters followed only by newlines. */
  ghost predicate EndsBlank(c: char, s: string) {
    exists k :: EndsBlankAt(c, s, k)
  }

  ghost predicate EndsBlankAt(c: char, s: string, k: int) {
    0 <= k < |s| - 2 && c != NEWLINE && s[k] == c && s[k + 1] == c
    && forall i :: k + 2 <= i < |s| ==> s[i] == NEWLINE
  }

  /** A blank line with nothing after it ends the whole text; a safe text has none. */
  lemma LastBlankLine(c: char, s: string, i: nat)
    requires i <= |s| && BlankLine(c, s, i)
    ensures AfterBlankLine(c, s, i) == |s| ==> EndsBlank(c, s)
  {
    var e := RunEnd(c, s, i);
    RunEndSpec(c, s, i);
    RunEndSpec(NEWLINE, s, e);
    if AfterBlankLine(c, s, i) == |s| {
      assert EndsBlankAt(c, s, e - 2);
    }
  }

  /** Chomp walks backwards without a bound, so a longer text must hold something solid. */
  predicate Chompable(c: char, s: string) {
    |s| < 2 || HasSolid(c, s)
  }

  /** Whether the loop, from `i`, follows a blank line to the terminator; it then copies the terminator and reads on. */
  predicate Overruns(c: char, s: string, i: nat)
    requires i <= |s|
    decreases |s| - i
  {
    i < |s| &&
    if DoubleNewline(s, i) then Overruns(c, s, i + 1)
    else if BlankLine(c, s, i) then
      var j := AfterBlankLine(c, s, i);
      j == |s| || Overruns(c, s, j)
    else Overruns(c, s, i + 1)
  }

  lemma {:induction false} OverrunEndsBlank(c: char, s: string, i: nat)
    requires i <= |s| && Overruns(c, s, i)
    ensures EndsBlank(c, s)
    decreases |s| - i
  {
    if !DoubleNewline(s, i) && BlankLine(c, s, i) {
      LastBlankLine(c, s, i);
      var j := AfterBlankLine(c, s, i);
      if j < |s| {
        OverrunEndsBlank(c, s, j);
      }
    } else {
      OverrunEndsBlank(c, s, i + 1);
    }
  }

  /** A last run of indent characters that only newlines follow: from `k` to `e`. */
  predicate LastRun(c: char, s: string, k: nat, e: nat) {
    k + 2 <= e < |s| && c != NEWLINE && (forall i :: k <= i < e ==> s[i] == c) && (k > 0 ==> s[k - 1] != c)
    && forall i :: e <= i < |s| ==> s[i] == NEWLINE
  }

  lemma {:induction false} FindLastRun(c: char, s: string, k: nat, e: nat) returns (first: nat)
    requires k + 2 <= e < |s| && c != NEWLINE && (forall i :: k <= i < e ==> s[i] == c)
    requires forall i :: e <= i < |s| ==> s[i] == NEWLINE
    ensures LastRun(c, s, first, e)
    decreases k
  {
    if k > 0 && s[k - 1] == c {
      first := FindLastRun(c, s, k - 1, e);
    } else {
      first := k;
    }
  }

  lemma {:induction false} LastRunOverruns(c: char, s: string, i: nat, k: nat, e: nat)
    requires LastRun(c, s, k, e) && i <= k
    ensures Overruns(c, s, i)
    decreases k - i
  {
    RunEndSpec(c, s, i);
    if i == k {
      RunEndIs(c, s, k, e);
      RunEndIs(NEWLINE, s, e, |s|);
    } else if DoubleNewline(s, i) {
      LastRunOverruns(c, s, i + 1, k, e);
    } else if BlankLine(c, s, i) {
      AfterBlankLineSpec(c, s, i);
      BlankLineBefore(c, s, i, k);
      LastRunOverruns(c, s, AfterBlankLine(c, s, i), k, e);
    } else {
      LastRunOverruns(c, s, i + 1, k, e);
    }
  }

  lemma BlankLineBefore(c: char, s: string, i: nat, k: nat)
    requires i < k < |s| && BlankLine(c, s, i) && s[k] == c && s[k - 1] != c && c != NEWLINE
    ensures AfterBlankLine(c, s, i) <= k
  {
    var e := RunEnd(c, s, i);
    RunEndSpec(c, s, i);
    assert e <= k - 1;
    RunEndSpec(NEWLINE, s, e);
  }

  /** The loop steps past the terminator if and only if the text ends in a blank line. */
  lemma OverrunsIffEndsBlank(c: char, s: string)
    ensures Overruns(c, s, 0) <==> EndsBlank(c, s)
  {
    if Overruns(c, s, 0) {
      OverrunEndsBlank(c, s, 0);
    }
    if EndsBlank(c, s) {
      var k :| EndsBlankAt(c, s, k);
      var first := FindLastRun(c, s, k, k + 2);
      LastRunOverruns(c, s, 0, first, k + 2);
    }
  }

  /** Whatever the document was, a chomped document is safe for the compaction loop. */
  lemma ChompedIsSafe(c: char, s: string)
    requires Chompable(c, s)
    ensures !EndsBlank(c, Chomped(c, s))
  {
    var t := Chomped(c, s);
    var n := TrailingBlanks(c, s);
    if |s| >= 2 {
      assert n < |s|;
      assert t != "" && !Blank(c, t[if n == 0 then |t| - 1 else |t| - 2]);
    }
  }
}
