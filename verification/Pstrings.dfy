/**
 The growable wide strings of src/pstring.c and src/string-util.c. A buffer is an array that
 may be longer than its text and whose unwritten cells hold anything.

 Two conventions for `len` coexist. In a document (`Valid`) it excludes the terminator; in a
 string made by `pstring_create` or by formatting into a null handle (`Counted`) it includes it.
 */
module Pstrings {
  import opened Prelude
  import opened Cleaning

  /** Bytes in a wide character. */
  const WCHAR_SIZE: nat := 4

  /** `realloc`: a block of `n` cells that keeps as much of the old contents as fits. */
  method Realloc(a: array?<char>, n: nat) returns (b: array<char>)
    ensures fresh(b) && b.Length == n
    ensures a != null ==> forall i :: 0 <= i < n && i < a.Length ==> b[i] == a[i]
  {
    b := new char[n];
    if a != null {
      var m := if a.Length < n then a.Length else n;
      for i := 0 to m
        invariant forall j :: 0 <= j < i ==> b[j] == a[j]
      {
        b[i] := a[i];
      }
    }
  }

  /** `memset` to zero. */
  method Clear(a: array<char>)
    modifies a
    ensures forall i :: 0 <= i < a.Length ==> a[i] == NUL
  {
    for i := 0 to a.Length
      invariant forall j :: 0 <= j < i ==> a[j] == NUL
    {
      a[i] := NUL;
    }
  }

  /** `wcsncat` of `src` onto the terminator at `at`. */
  method Wcsncat(dst: array<char>, at: nat, src: string)
    requires at + |src| < dst.Length && dst[at] == NUL
    modifies dst
    ensures dst[..] == old(dst[..at]) + src + [NUL] + old(dst[at + |src| + 1..])
  {
    for i := 0 to |src|
      invariant dst[..at] == old(dst[..at])
      invariant dst[at..at + i] == src[..i]
      invariant dst[at + |src| + 1..] == old(dst[at + |src| + 1..])
    {
      dst[at + i] := src[i];
    }
    dst[at + |src|] := NUL;
    assert dst[..] == dst[..at] + dst[at..at + |src|] + [dst[at + |src|]] + dst[at + |src| + 1..];
  }

  class PString {
    var buf: array?<char>
    var len: nat
    var size: nat

    /** A document: `len` characters, then the terminator. */
    ghost predicate Valid()
      reads this, buf
    {
      if buf == null then len == 0 && size == 0
      else len < buf.Length && buf[len] == NUL && NoNul(buf[..len]) && size == WCHAR_SIZE * buf.Length
    }

    ghost function Text(): (s: string)
      requires Valid()
      reads this, buf
    {
      if buf == null then "" else buf[..len]
    }

    /** A counted string: the terminator is the last of the `len` characters. */
    ghost predicate Counted()
      reads this, buf
    {
      buf != null && 1 <= len <= buf.Length && buf[len - 1] == NUL && NoNul(buf[..len - 1])
      && size == WCHAR_SIZE * buf.Length
    }

    ghost function Word(): (s: string)
      requires Counted()
      reads this, buf
    {
      buf[..len - 1]
    }

    /** `pstring_new` */
    constructor New()
      ensures Valid() && Text() == "" && buf == null
    {
      buf, len, size := null, 0, 0;
    }

    /** `pstring_create` */
    constructor Create(s: string)
      requires NoNul(s)
      ensures Counted() && Word() == s && buf.Length == len && fresh(buf)
    {
      var b := new char[|s| + 1];
      buf, len, size := b, |s| + 1, WCHAR_SIZE * (|s| + 1);
      new;
      b[0] := NUL;
      Wcsncat(b, 0, s);
      assert b[..len - 1] == s;
    }

    /** A counted string around a buffer already filled with `s` and its terminator. */
    constructor Adopt(b: array<char>, n: nat, ghost s: string)
      requires n == |s| < b.Length && b[..n] == s && b[n] == NUL && NoNul(s)
      ensures Counted() && Word() == s && buf == b && len == n + 1
    {
      buf, len, size := b, n + 1, WCHAR_SIZE * b.Length;
    }

    /** `wappendva` into a null handle: `s` is the formatted text. */
    constructor Formatted(s: string)
      requires NoNul(s)
      ensures Counted() && Word() == s && fresh(buf)
    {
      var b := new char[|s| + 2];
      buf, len, size := b, |s| + 1, WCHAR_SIZE * (|s| + 2);
      new;
      b[0] := NUL;
      Wcsncat(b, 0, s);
      assert b[..len - 1] == s;
    }

    /**
     `wappendn`, with `src` already cut to its first `n` characters; also `wappend` and `wappendf`, which end here.
     */
    method Wappendn(src: string)
      requires Valid() && NoNul(src)
      modifies this
      ensures Valid() && Text() == old(Text()) + src
      ensures src == "" ==> buf == old(buf)
      ensures src != "" ==> buf != null && fresh(buf) && buf.Length == len + 1
    {
      if |src| == 0 {
        assert Text() + src == Text();
        return;
      }
      var total := len + |src|;
      var p := Realloc(buf, 1 + total);
      ghost var before := Text();
      assert buf != null ==> p[..len] == before;
      buf := p;
      if len == 0 {
        Clear(p);
      }
      assert p[..len] == before;
      p[total] := NUL;
      assert p[..len] == before;
      Wcsncat(p, len, src);
      len := total;
      size := WCHAR_SIZE * (1 + total);
      assert p[..total] == before + src;
    }

    /** `pappend`: the terminator both lengths would count is counted once. */
    method Pappend(src: PString)
      requires Valid() && src.Counted() && src != this
      requires len > 0
      modifies this
      ensures Valid() && Text() == old(Text()) + old(src.Word())
      ensures fresh(buf) && buf.Length == len + 1
    {
      var total := len + src.len - 1;
      var p := Realloc(buf, 1 + total);
      ghost var before := Text();
      assert p[..len] == before;
      buf := p;
      Wcsncat(p, len, src.buf[..src.len - 1]);
      len := total;
      size := WCHAR_SIZE * (1 + total);
      p[total] := NUL;
      assert p[..total] == before + old(src.Word());
    }

    /** The walk backwards of `pstring_chomp`; `false` if it leaves the front of the buffer. */
    method CountRemovable(c: char) returns (ok: bool, removable: nat)
      requires Valid() && len > 0
      ensures ok == HasSolid(c, Text()) && (ok ==> removable == TrailingBlanks(c, Text()))
    {
      ghost var s := Text();
      var p := len - 1;
      removable := 0;
      while buf[p] == NEWLINE || buf[p] == c
        invariant p == len - 1 - removable
        invariant 0 <= p
        invariant forall i :: p < i < len ==> Blank(c, s[i])
        decreases p
      {
        assert Blank(c, s[p]);
        if p == 0 {
          return false, removable;
        }
        p, removable := p - 1, removable + 1;
      }
      assert !Blank(c, s[p]);
      TrailingBlanksIs(c, s, removable);
      return true, removable;
    }

    /** `pstring_chomp` */
    method Chomp(c: char) returns (ok: bool)
      requires Valid()
      modifies this, buf
      ensures Valid() && buf == old(buf) && ok == Chompable(c, old(Text()))
      ensures Text() == if ok then Chomped(c, old(Text())) else old(Text())
    {
      if len < 2 {
        return true;
      }
      ghost var s := Text();
      var removable;
      ok, removable := CountRemovable(c);
      if ok && removable > 1 {
        var n := len - (removable - 1);
        buf[n - 1] := NEWLINE;
        buf[n] := NUL;
        len := n;
        assert buf[..n] == s[..|s| - removable] + [NEWLINE];
      }
    }

    /**
     `pstring_compress`: the text C reads from the buffer afterwards is `Compressed` of the text before; `false` if the
     loop steps past the terminator.
     */
    method Compress(c: char) returns (ok: bool)
      requires Valid() && buf != null && c != NUL
      modifies this, buf
      ensures ok == !EndsBlank(c, old(Text()))
      ensures buf != null && (buf == old(buf) || fresh(buf))
      ensures ok ==> UpToNul(buf[..]) == Compressed(c, old(Text())) && exists i :: 0 <= i < buf.Length && buf[i] == NUL
      ensures size == WCHAR_SIZE * buf.Length
    {
      ghost var s := Text();
      OverrunsIffEndsBlank(c, s);
      var from, dropped;
      ok, from, dropped := Squeeze(buf, c, s);
      if ok {
        Shrink(from, dropped, c, s);
      }
    }

    /** The end of `pstring_compress`: a shorter buffer, and the late terminator. */
    method Shrink(from: nat, dropped: nat, ghost c: char, ghost s: string)
      requires buf != null && size == WCHAR_SIZE * buf.Length && len == |s| && len < buf.Length
      requires from == |Squeezed(c, s, 0)| && from < buf.Length && buf[..from] == Squeezed(c, s, 0) && buf[from] == NUL
      requires NoNul(Squeezed(c, s, 0)) && (s != "" ==> from > 0) && dropped == Tally(c, s, 0, 0, 0)
      modifies this, buf
      ensures buf != null && (buf == old(buf) || fresh(buf)) && size == WCHAR_SIZE * buf.Length
      ensures UpToNul(buf[..]) == Compressed(c, s) && exists i :: 0 <= i < buf.Length && buf[i] == NUL
    {
      ghost var q := Squeezed(c, s, 0);
      TallyBound(c, s, 0, 0, 0);
      if dropped == 0 {
        UpToNulAt(buf[..], from);
      } else {
        var newLen := len - dropped;
        assert from <= newLen;
        var p := Realloc(buf, newLen);
        assert forall i :: 0 <= i < from ==> p[i] == q[i];
        p[newLen - 1] := NUL;
        ghost var end := if newLen == from then from - 1 else from;
        assert p[end] == NUL && p[..end] == q[..end];
        UpToNulAt(p[..], end);
        buf, len, size := p, newLen, WCHAR_SIZE * newLen;
      }
    }
  }

  /** The buffer still holds the text `s` from `i` to the terminator. */
  ghost predicate Unread(buf: array<char>, s: string, i: nat)
    reads buf
  {
    i <= |s| < buf.Length && buf[|s|] == NUL && NoNul(s) && forall k :: i <= k < |s| ==> buf[k] == s[k]
  }

  /**
   The compaction loop of `pstring_compress`, in place: what is read is never yet overwritten.
   Returns the new length and the sum of the two counters.
   */
  method Squeeze(buf: array<char>, c: char, ghost s: string) returns (ok: bool, from: nat, dropped: nat)
    requires c != NUL && Unread(buf, s, 0)
    modifies buf
    ensures ok == !Overruns(c, s, 0)
    ensures ok ==> from == |Squeezed(c, s, 0)| <= |s| && buf[..from] == Squeezed(c, s, 0) && buf[from] == NUL
    ensures ok ==> NoNul(Squeezed(c, s, 0)) && (s != "" ==> from > 0)
    ensures ok ==> dropped == Tally(c, s, 0, 0, 0)
  {
    SqueezedNoNul(c, s, 0);
    var to, blanks, count := 0, 0, 0;
    ok, from, dropped := true, 0, 0;
    ghost var whole, kept := Squeezed(c, s, 0), "";
    assert kept + whole == whole;
    while buf[to] != NUL
      invariant 0 <= from <= to <= |s| && (to > 0 ==> from > 0)
      invariant Unread(buf, s, to) && buf[..from] == kept
      invariant kept + Squeezed(c, s, to) == whole
      invariant Tally(c, s, to, blanks, count) == Tally(c, s, 0, 0, 0)
      invariant Overruns(c, s, to) == Overruns(c, s, 0)
      decreases |s| - to
    {
      ok, to, blanks, count := NextKept(buf, c, s, to, blanks, count);
      if !ok {
        return;
      }
      CopyDown(buf, from, to, s, kept);
      Regroup(kept, [s[to]], Squeezed(c, s, to + 1));
      kept := kept + [s[to]];
      from, to := from + 1, to + 1;
    }
    buf[from] := NUL;
    dropped := blanks + count;
  }

  /** Copies one character down; everything not yet read stays readable. */
  method CopyDown(buf: array<char>, from: nat, to: nat, ghost s: string, ghost kept: string)
    requires from <= to < |s| && Unread(buf, s, to) && buf[..from] == kept
    modifies buf
    ensures Unread(buf, s, to + 1) && buf[..from + 1] == kept + [s[to]]
  {
    buf[from] := buf[to];
  }

  /**
   The reading half of one round of the compaction loop: skips empty and blank lines from `start` and stops at the next
   character to copy, or fails at the terminator. `s` is the text the buffer held when the loop began.
   */
  method NextKept(buf: array<char>, c: char, ghost s: string, start: nat, blanks0: nat, count0: nat)
    returns (ok: bool, to: nat, blanks: nat, count: nat)
    requires c != NUL && start < |s| && Unread(buf, s, start)
    ensures ok ==> start <= to < |s| && Squeezed(c, s, start) == [s[to]] + Squeezed(c, s, to + 1)
    ensures ok ==> Tally(c, s, start, blanks0, count0) == Tally(c, s, to + 1, blanks, count)
    ensures Overruns(c, s, start) == (!ok || Overruns(c, s, to + 1))
  {
    to, blanks, count := start, blanks0, count0;
    var again := true;
    while again
      invariant start <= to < |s| && Squeezed(c, s, start) == Squeezed(c, s, to)
      invariant Tally(c, s, start, blanks0, count0) == Tally(c, s, to, blanks, count)
      invariant Overruns(c, s, start) == Overruns(c, s, to)
      invariant !again ==> !DoubleNewline(s, to) && !BlankLine(c, s, to) && (s[to] == c ==> count == 0)
      decreases |s| - to, again
    {
      while buf[to] == NEWLINE && buf[to + 1] == NEWLINE
        invariant start <= to < |s| && Squeezed(c, s, start) == Squeezed(c, s, to)
        invariant Tally(c, s, start, blanks0, count0) == Tally(c, s, to, blanks, count)
        invariant Overruns(c, s, start) == Overruns(c, s, to)
        decreases |s| - to
      {
        to, blanks := to + 1, blanks + 1;
      }
      ok, again, to, blanks, count := AtLineStart(buf, c, s, to, blanks, count);
      if !ok {
        return;
      }
    }
    ok := true;
  }

  /** The round after its empty lines: drops a blank line if there is one, else goes back to where it was. */
  method AtLineStart(buf: array<char>, c: char, ghost s: string, start: nat, blanks0: nat, count0: nat)
    returns (ok: bool, again: bool, to: nat, blanks: nat, count: nat)
    requires c != NUL && start < |s| && Unread(buf, s, start) && !DoubleNewline(s, start)
    ensures ok ==> start <= to < |s| && (again ==> start < to) && Squeezed(c, s, start) == Squeezed(c, s, to)
    ensures ok ==> Tally(c, s, start, blanks0, count0) == Tally(c, s, to, blanks, count)
    ensures ok && !again ==> !DoubleNewline(s, to) && !BlankLine(c, s, to) && (s[to] == c ==> count == 0)
    ensures Overruns(c, s, start) == (!ok || Overruns(c, s, to))
  {
    ok, again, blanks := true, false, blanks0;
    to := SkipRun(buf, c, s, start);
    count := count0 + (to - start);
    if to != start {
      if buf[to] == NEWLINE && to != start + 1 {
        BlankLineGone(c, s, start, blanks0, count0);
        to := SkipRun(buf, NEWLINE, s, to);
        if buf[to] == NUL {
          ok := false;
        } else if buf[to] == c {
          again := true;
        } else {
          blanks := blanks + 1;
        }
      } else {
        to, count := start, 0;
      }
    }
  }

  lemma BlankLineGone(c: char, s: string, i: nat, blanks: nat, count: nat)
    requires i <= |s| && !DoubleNewline(s, i) && BlankLine(c, s, i)
    ensures var j := AfterBlankLine(c, s, i);
            Overruns(c, s, i) == (j == |s| || Overruns(c, s, j))
            && (j < |s| ==>
                  s[j] != NEWLINE && Squeezed(c, s, i) == Squeezed(c, s, j)
                  && Tally(c, s, i, blanks, count)
                  == Tally(c, s, j, if s[j] == c then blanks else blanks + 1, count + (RunEnd(c, s, i) - i)))
  {
    AfterBlankLineSpec(c, s, i);
  }

  /** Steps over every `x` from `start`; the terminator stops it at the latest. */
  method SkipRun(buf: array<char>, x: char, ghost s: string, start: nat) returns (end: nat)
    requires x != NUL && Unread(buf, s, start)
    ensures end == RunEnd(x, s, start) && buf[end] != x
  {
    end := start;
    while buf[end] == x
      invariant start <= end <= |s| && RunEnd(x, s, end) == RunEnd(x, s, start)
      decreases |s| - end
    {
      end := end + 1;
    }
  }

  lemma {:induction false} SqueezedNoNul(c: char, s: string, i: nat)
    requires i <= |s| && NoNul(s)
    ensures NoNul(Squeezed(c, s, i))
    decreases |s| - i
  {
    if i == |s| {
    } else if DoubleNewline(s, i) {
      SqueezedNoNul(c, s, i + 1);
    } else if BlankLine(c, s, i) {
      SqueezedNoNul(c, s, AfterBlankLine(c, s, i));
    } else {
      SqueezedNoNul(c, s, i + 1);
    }
  }

  lemma {:induction false} TrailingBlanksIs(c: char, s: string, n: nat)
    requires n < |s| && !Blank(c, s[|s| - n - 1])
    requires forall i :: |s| - n <= i < |s| ==> Blank(c, s[i])
    ensures TrailingBlanks(c, s) == n
  {
  }
}
