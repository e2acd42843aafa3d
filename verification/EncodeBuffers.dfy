/**
 The count-then-fill passes of `output_translate` and `encode_string` over real buffers, proved
 against the string functions of module Encoding.
 */
module EncodeBuffers {
  import opened Prelude
  import opened Numerals
  import opened Encoding
  import opened Pstrings

  // ----- output_translate

  /** What a table says of one character, from row `k` on. */
  ghost function Entry(t: seq<Row>, c: char, k: nat): string
    requires k <= |t|
    decreases |t| - k
  {
    if k == |t| then [c] else if t[k].from == c then t[k].to else Entry(t, c, k + 1)
  }

  /** The rows that can match have different keys and never shrink the text. */
  predicate Usable(t: seq<Row>) {
    forall i :: 0 <= i < |t| && t[i].from != NUL ==>
      |t[i].to| > 1 && forall j :: i < j < |t| ==> t[j].from != t[i].from
  }

  lemma TablesUsable(f: Format)
    requires Encoded(f)
    ensures Usable(Table(f))
  {
  }

  lemma EntryIsSubstitute(f: Format, c: char)
    requires Encoded(f) && c != NUL
    ensures Entry(Table(f), c, 0) == Substitute(f, c)
  {
    var t := Table(f);
    assert Entry(t, c, 5) == [c];
    assert Entry(t, c, 4) == if c == t[4].from then t[4].to else [c];
    assert Entry(t, c, 3) == if c == t[3].from then t[3].to else Entry(t, c, 4);
    assert Entry(t, c, 2) == if c == t[2].from then t[2].to else Entry(t, c, 3);
  }

  /** The counting pass for one character: every matching row counts, and the rows' keys differ. */
  method ExtraFor(t: seq<Row>, c: char) returns (extra: nat)
    requires c != NUL && Usable(t)
    ensures extra + 1 == |Entry(t, c, 0)|
  {
    extra := 0;
    ghost var found := false;
    for k := 0 to |t|
      invariant !found ==> extra == 0 && Entry(t, c, k) == Entry(t, c, 0)
      invariant found ==> extra + 1 == |Entry(t, c, 0)| && forall j :: k <= j < |t| ==> t[j].from != c
    {
      if c == t[k].from {
        extra, found := extra + (|t[k].to| - 1), true;
      }
    }
  }

  /** The filling pass for one character: the first matching row wins. */
  method Lookup(t: seq<Row>, c: char) returns (to: Option<string>)
    requires c != NUL
    ensures Entry(t, c, 0) == if to.Some? then to.value else [c]
  {
    for k := 0 to |t|
      invariant Entry(t, c, k) == Entry(t, c, 0)
    {
      if c == t[k].from {
        return Some(t[k].to);
      }
    }
    return None;
  }

  /** The translation of the first `i` characters, as the passes build it from the left. */
  ghost function TranslatedTo(t: seq<Row>, s: string, i: nat): string
    requires i <= |s|
  {
    if i == 0 then "" else TranslatedTo(t, s, i - 1) + Entry(t, s[i - 1], 0)
  }

  lemma {:induction false} TranslatedToGrows(t: seq<Row>, s: string, i: nat, j: nat)
    requires i <= j <= |s|
    ensures |TranslatedTo(t, s, i)| <= |TranslatedTo(t, s, j)|
    decreases j - i
  {
    if i < j {
      TranslatedToGrows(t, s, i, j - 1);
    }
  }

  lemma {:induction false} TranslatedToEnd(f: Format, s: string, i: nat)
    requires Encoded(f) && i <= |s| && NoNul(s)
    ensures TranslatedTo(Table(f), s, i) + Translate(f, s[i..]) == Translate(f, s)
  {
    if i == 0 {
      assert s[0..] == s;
    } else {
      TranslatedToEnd(f, s, i - 1);
      EntryIsSubstitute(f, s[i - 1]);
      assert s[i - 1..][1..] == s[i..];
      Regroup(TranslatedTo(Table(f), s, i - 1), Substitute(f, s[i - 1]), Translate(f, s[i..]));
    }
  }

  lemma SubstituteLength(f: Format, c: char)
    requires Encoded(f)
    ensures |Substitute(f, c)| >= 1 && (|Substitute(f, c)| == 1 ==> Substitute(f, c) == [c])
  {
  }

  /** A translation is longer than the text, or it is the text. */
  lemma {:induction false} TranslateLength(f: Format, s: string)
    requires Encoded(f)
    ensures |Translate(f, s)| >= |s| && (|Translate(f, s)| == |s| ==> Translate(f, s) == s)
  {
    if s != "" {
      TranslateLength(f, s[1..]);
      SubstituteLength(f, s[0]);
      assert s == [s[0]] + s[1..];
    }
  }

  /** The first pass of `output_translate`: how much longer the result is than the input. */
  method CountExtra(t: seq<Row>, src: array<char>, ghost w: string) returns (extra: nat)
    requires Usable(t) && Unread(src, w, 0)
    ensures extra + |w| == |TranslatedTo(t, w, |w|)|
  {
    extra := 0;
    var i := 0;
    while src[i] != NUL
      invariant 0 <= i <= |w| && extra + i == |TranslatedTo(t, w, i)|
      decreases |w| - i
    {
      assert src[i] == w[i];
      var more := ExtraFor(t, src[i]);
      extra, i := extra + more, i + 1;
    }
  }

  /** Appends `src` to the `n` characters of a zeroed buffer. */
  method Fill(buf: array<char>, n: nat, src: string) returns (m: nat)
    requires n + |src| < buf.Length && forall k :: n <= k < buf.Length ==> buf[k] == NUL
    modifies buf
    ensures m == n + |src| && buf[..m] == old(buf[..n]) + src
    ensures forall k :: m <= k < buf.Length ==> buf[k] == NUL
  {
    Wcsncat(buf, n, src);
    m := n + |src|;
    assert buf[..] == old(buf[..n]) + src + [NUL] + old(buf[m + 1..]);
    assert buf[..m] == old(buf[..n]) + src;
    forall k | m <= k < buf.Length
      ensures buf[k] == NUL
    {
      assert buf[k] == buf[..][k];
      assert k > m ==> old(buf[m + 1..])[k - m - 1] == old(buf[k]);
    }
  }

  /** The second pass: unchanged stretches and replacements alternate; it ends exactly at the buffer's last cell. */
  method FillTranslated(t: seq<Row>, src: array<char>, ghost w: string, buf: array<char>) returns (n: nat)
    requires src != buf && Unread(src, w, 0)
    requires buf.Length == |TranslatedTo(t, w, |w|)| + 1 && forall k :: 0 <= k < buf.Length ==> buf[k] == NUL
    modifies buf
    ensures n + 1 == buf.Length && buf[..n] == TranslatedTo(t, w, |w|) && buf[n] == NUL
  {
    n := 0;
    var i: nat, start: nat := 0, 0;
    while src[i] != NUL
      invariant i <= |w| && Filled(t, w, buf, n, start, i)
      decreases |w| - i
    {
      n, start := FillNext(t, src, w, buf, n, start, i);
      i := i + 1;
    }
    n := Fill(buf, n, src[start..i]);
  }

  /**
   The buffer holds the translation up to `start`, is zero after it, and nothing from `start` to `i` is translated.
   */
  ghost predicate Filled(t: seq<Row>, w: string, buf: array<char>, n: nat, start: nat, i: nat)
    reads buf
  {
    start <= i <= |w| && n < buf.Length && buf.Length == |TranslatedTo(t, w, |w|)| + 1
    && TranslatedTo(t, w, i) == buf[..n] + w[start..i]
    && forall k :: n <= k < buf.Length ==> buf[k] == NUL
  }

  method FillNext(t: seq<Row>, src: array<char>, ghost w: string, buf: array<char>, n0: nat, start0: nat, i: nat)
    returns (n: nat, start: nat)
    requires src != buf && Unread(src, w, 0) && i < |w| && Filled(t, w, buf, n0, start0, i)
    modifies buf
    ensures Filled(t, w, buf, n, start, i + 1)
  {
    TranslatedToGrows(t, w, i + 1, |w|);
    var to := Lookup(t, src[i]);
    if to.Some? {
      assert src[start0..i] == w[start0..i];
      n := FillStretch(buf, n0, src[start0..i], to.value);
      start := i + 1;
      assert buf[..n] + w[start..i + 1] == buf[..n];
    } else {
      n, start := n0, start0;
      assert buf[..n] + w[start..i + 1] == buf[..n] + w[start..i] + [w[i]];
    }
  }

  method FillStretch(buf: array<char>, n: nat, stretch: string, to: string) returns (m: nat)
    requires n + |stretch| + |to| < buf.Length && forall k :: n <= k < buf.Length ==> buf[k] == NUL
    modifies buf
    ensures m == n + |stretch| + |to| && buf[..m] == old(buf[..n]) + stretch + to
    ensures forall k :: m <= k < buf.Length ==> buf[k] == NUL
  {
    m := Fill(buf, n, stretch);
    m := Fill(buf, m, to);
  }

  /** The two passes with a given table. */
  method TranslateWith(t: seq<Row>, p: PString) returns (r: PString)
    requires Usable(t) && p.Counted()
    requires var w := p.Word();
             NoNul(TranslatedTo(t, w, |w|)) && (|TranslatedTo(t, w, |w|)| == |w| ==> TranslatedTo(t, w, |w|) == w)
    ensures fresh(r) && r.Counted() && r.Word() == TranslatedTo(t, p.Word(), |p.Word()|)
    ensures r.len == r.buf.Length
  {
    ghost var w := p.Word();
    var extra := CountExtra(t, p.buf, w);
    if extra == 0 {
      r := new PString.Create(p.buf[..p.len - 1]);
    } else {
      var buf := new char[p.len + extra];
      Clear(buf);
      var n := FillTranslated(t, p.buf, w, buf);
      r := new PString.Adopt(buf, n, TranslatedTo(t, w, |w|));
    }
  }

  /** `output_translate`: the length it ends with is the length it allocated. */
  method OutputTranslate(f: Format, p: PString) returns (r: PString)
    requires Encoded(f) && p.Counted()
    ensures fresh(r) && r.Counted() && r.Word() == Translate(f, p.Word())
    ensures r.len == r.buf.Length
  {
    TablesUsable(f);
    TranslatedIsTranslate(f, p.Word());
    r := TranslateWith(Table(f), p);
  }

  lemma TranslatedIsTranslate(f: Format, w: string)
    requires Encoded(f) && NoNul(w)
    ensures var r := TranslatedTo(Table(f), w, |w|); r == Translate(f, w) && NoNul(r) && (|r| == |w| ==> r == w)
  {
    TranslatedToEnd(f, w, |w|);
    TranslateLength(f, w);
    TranslateNoNul(f, w);
  }

  lemma {:induction false} TranslateNoNul(f: Format, s: string)
    requires Encoded(f) && NoNul(s)
    ensures NoNul(Translate(f, s))
  {
    if s != "" {
      TranslateNoNul(f, s[1..]);
    }
  }

  // ----- encode_string

  /** The number of characters the escaping pass replaces. */
  function NonPrintables(printable: char -> bool, s: string): nat {
    if s == "" then 0 else (if printable(s[0]) then 0 else 1) + NonPrintables(printable, s[1..])
  }

  /** Characters an escape takes beyond the six the buffer size allows for. */
  function Overflow(f: Format, printable: char -> bool, c: char): nat
    requires Encoded(f)
  {
    if printable(c) then 0 else |Escape(f, c)| - 6
  }

  function Excess(f: Format, printable: char -> bool, s: string): nat
    requires Encoded(f)
  {
    if s == "" then 0 else Overflow(f, printable, s[0]) + Excess(f, printable, s[1..])
  }

  /**
   When `encode_string` stays inside its buffer: no escape is longer than six characters, or just one is, by
   just one, and it is not alone (the buffer has one spare cell, the bound given to `swprintf` has none).
   */
  predicate Fits(f: Format, printable: char -> bool, s: string) {
    Encoded(f) ==> Excess(f, printable, s) == 0 || (Excess(f, printable, s) == 1 && |s| > 1)
  }

  /** What the escaping pass writes for one character. */
  function Piece(f: Format, printable: char -> bool, c: char): string {
    if printable(c) then [c] else Escape(f, c)
  }

  ghost predicate ArePieces(f: Format, printable: char -> bool, w: string, pieces: seq<string>) {
    |pieces| == |w| && forall k :: 0 <= k < |w| ==> pieces[k] == Piece(f, printable, w[k])
  }

  /** The first `i` pieces together, as the pass writes them from the left. */
  ghost function Joined(pieces: seq<string>, i: nat): string
    requires i <= |pieces|
  {
    if i == 0 then "" else Joined(pieces, i - 1) + pieces[i - 1]
  }

  lemma {:induction false} JoinedGrows(pieces: seq<string>, i: nat, j: nat)
    requires i <= j <= |pieces|
    ensures |Joined(pieces, i)| <= |Joined(pieces, j)|
    decreases j - i
  {
    if i < j {
      JoinedGrows(pieces, i, j - 1);
    }
  }

  lemma {:induction false} JoinedIsEscaped(f: Format, printable: char -> bool, w: string, pieces: seq<string>, i: nat)
    requires Encoded(f) && i <= |w| && ArePieces(f, printable, w, pieces)
    ensures Joined(pieces, i) + EscapeAll(f, printable, w[i..]) == EscapeAll(f, printable, w)
  {
    if i == 0 {
      assert w[0..] == w;
    } else {
      JoinedIsEscaped(f, printable, w, pieces, i - 1);
      assert w[i - 1..][1..] == w[i..];
      Regroup(Joined(pieces, i - 1), pieces[i - 1], EscapeAll(f, printable, w[i..]));
    }
  }

  lemma {:induction false} EscapedLength(f: Format, printable: char -> bool, s: string)
    requires Encoded(f)
    ensures |EscapeAll(f, printable, s)| == |s| + 5 * NonPrintables(printable, s) + Excess(f, printable, s)
  {
    if s != "" {
      EscapedLength(f, printable, s[1..]);
    }
  }

  lemma {:induction false} OverflowBound(f: Format, printable: char -> bool, s: string, i: nat)
    requires Encoded(f) && i < |s|
    ensures Overflow(f, printable, s[i]) <= Excess(f, printable, s)
    ensures !printable(s[i]) ==> NonPrintables(printable, s) > 0
  {
    if i > 0 {
      OverflowBound(f, printable, s[1..], i - 1);
    }
  }

  lemma {:induction false} NonPrintablesSplit(printable: char -> bool, s: string, i: nat)
    requires i < |s|
    ensures NonPrintables(printable, s[..i + 1]) == NonPrintables(printable, s[..i]) + if printable(s[i]) then 0 else 1
  {
    if i == 0 {
      assert s[..1][1..] == "" && s[..0] == "";
    } else {
      NonPrintablesSplit(printable, s[1..], i - 1);
      assert s[..i + 1][1..] == s[1..][..i] && s[..i][1..] == s[1..][..i - 1];
    }
  }

  method CountNonPrintables(printable: char -> bool, src: array<char>, ghost w: string) returns (n: nat)
    requires Unread(src, w, 0)
    ensures n == NonPrintables(printable, w)
  {
    n := 0;
    var i := 0;
    while src[i] != NUL
      invariant 0 <= i <= |w| && n == NonPrintables(printable, w[..i])
      decreases |w| - i
    {
      NonPrintablesSplit(printable, w, i);
      if !printable(src[i]) {
        n := n + 1;
      }
      i := i + 1;
    }
    assert w[..i] == w;
  }

  /** The text leaves room for its terminator, and every piece is within the bound given to `swprintf`. */
  ghost predicate Roomy(pieces: seq<string>, newSize: nat) {
    |Joined(pieces, |pieces|)| <= newSize && forall k :: 0 <= k < |pieces| ==> |pieces[k]| < newSize
  }

  /** The first `i` pieces are in the buffer, which is zero after them. */
  ghost predicate Written(pieces: seq<string>, buf: array<char>, q: nat, i: nat)
    reads buf
  {
    i <= |pieces| && q < buf.Length && buf[..q] == Joined(pieces, i)
    && (forall k :: q <= k < buf.Length ==> buf[k] == NUL)
    && forall k :: 0 <= k < i ==> |pieces[k]| < buf.Length - 1
  }

  /** One write of the loop, bounded by the end of the buffer and by the size given to `swprintf`. */
  method WriteNext(ghost pieces: seq<string>, buf: array<char>, q: nat, ghost i: nat, t: string)
      returns (r: Option<nat>)
    requires i < |pieces| && t == pieces[i] && Written(pieces, buf, q, i)
    modifies buf
    ensures r.Some? ==> Written(pieces, buf, r.value, i + 1)
    ensures r.None? ==> !Roomy(pieces, buf.Length - 1)
  {
    JoinedGrows(pieces, i + 1, |pieces|);
    if q + |t| >= buf.Length || |t| >= buf.Length - 1 {
      return None;
    }
    var m := Fill(buf, q, t);
    return Some(m);
  }

  /** One round of the loop: the character's piece is written, if there is room for it. */
  method EscapeNext(f: Format, printable: char -> bool, src: array<char>, ghost w: string, ghost pieces: seq<string>,
                    buf: array<char>, q: nat, i: nat) returns (r: Option<nat>)
    requires src != buf && Unread(src, w, 0) && ArePieces(f, printable, w, pieces) && i < |w|
    requires Written(pieces, buf, q, i)
    modifies buf
    ensures r.Some? ==> Written(pieces, buf, r.value, i + 1)
    ensures r.None? ==> !Roomy(pieces, buf.Length - 1)
  {
    assert src[i] == w[i];
    r := WriteNext(pieces, buf, q, i, Piece(f, printable, src[i]));
  }

  /**
   The filling loop of `encode_string` into a zeroed buffer of one cell more than the size given to `swprintf`.
   `None` stands for the runs that leave the buffer or whose `swprintf` fails; it is returned before the first
   bad write.
   */
  method FillEscaped(f: Format, printable: char -> bool, src: array<char>, ghost w: string, ghost pieces: seq<string>,
                     buf: array<char>) returns (r: Option<nat>)
    requires src != buf && Unread(src, w, 0) && ArePieces(f, printable, w, pieces)
    requires buf.Length > 2 && forall k :: 0 <= k < buf.Length ==> buf[k] == NUL
    modifies buf
    ensures r.Some? <==> Roomy(pieces, buf.Length - 1)
    ensures r.Some? ==> r.value < buf.Length && buf[..r.value] == Joined(pieces, |w|) && buf[r.value] == NUL
  {
    var i, q := 0, 0;
    assert Unread(src, w, 0) && |pieces| == |w|;
    while src[i] != NUL
      invariant 0 <= i <= |w| && 0 <= q && Written(pieces, buf, q, i)
      decreases |w| - i
    {
      var next := EscapeNext(f, printable, src, w, pieces, buf, q, i);
      if next.None? {
        return None;
      }
      q, i := next.value, i + 1;
    }
    WrittenIsRoomy(pieces, buf, q);
    return Some(q);
  }

  lemma WrittenIsRoomy(pieces: seq<string>, buf: array<char>, q: nat)
    requires Written(pieces, buf, q, |pieces|)
    ensures Roomy(pieces, buf.Length - 1) && buf[..q] == Joined(pieces, |pieces|) && buf[q] == NUL
  {
    assert |buf[..q]| == q;
  }

  lemma FitsIsExact(f: Format, printable: char -> bool, s: string)
    requires Encoded(f) && NonPrintables(printable, s) > 0
    ensures var newSize := |s| + 1 + 5 * NonPrintables(printable, s);
            (|EscapeAll(f, printable, s)| <= newSize
             && forall k :: 0 <= k < |s| && !printable(s[k]) ==> |Escape(f, s[k])| < newSize)
            <==> Fits(f, printable, s)
  {
    EscapedLength(f, printable, s);
    forall k | 0 <= k < |s|
      ensures Overflow(f, printable, s[k]) <= Excess(f, printable, s)
    {
      OverflowBound(f, printable, s, k);
    }
    if |s| == 1 {
      assert s[1..] == "";
      assert Excess(f, printable, s) == Overflow(f, printable, s[0]);
    }
  }

  lemma RoomyIsFits(f: Format, printable: char -> bool, w: string, pieces: seq<string>)
    requires Encoded(f) && NonPrintables(printable, w) > 0 && ArePieces(f, printable, w, pieces)
    ensures Roomy(pieces, |w| + 1 + 5 * NonPrintables(printable, w)) <==> Fits(f, printable, w)
    ensures Joined(pieces, |w|) == EscapeAll(f, printable, w)
  {
    FitsIsExact(f, printable, w);
    JoinedIsEscaped(f, printable, w, pieces, |w|);
    assert EscapeAll(f, printable, w[|w|..]) == "";
    assert forall k :: 0 <= k < |w| && printable(w[k]) ==> |pieces[k]| == 1;
  }

  /**
   The escaping half of `encode_string` on an already translated string. It produces the encoded text inside its
   buffer exactly when the text fits.
   */
  method EscapeString(f: Format, printable: char -> bool, p: PString) returns (r: Option<PString>)
    requires Encoded(f) && p.Counted()
    ensures r.Some? <==> Fits(f, printable, p.Word())
    ensures r.Some? ==> r.value.Counted() && r.value.Word() == EscapeAll(f, printable, p.Word())
  {
    ghost var w := p.Word();
    var np := CountNonPrintables(printable, p.buf, w);
    if np == 0 {
      NothingToEscape(f, printable, w);
      return Some(p);
    }
    var newSize := (p.len - np) + np * 6;
    r := EscapeInto(f, printable, p, newSize);
  }

  method EscapeInto(f: Format, printable: char -> bool, p: PString, newSize: nat) returns (r: Option<PString>)
    requires Encoded(f) && p.Counted() && NonPrintables(printable, p.Word()) > 0
    requires newSize == |p.Word()| + 1 + 5 * NonPrintables(printable, p.Word())
    ensures r.Some? <==> Fits(f, printable, p.Word())
    ensures r.Some? ==> r.value.Counted() && r.value.Word() == EscapeAll(f, printable, p.Word())
  {
    ghost var w := p.Word();
    EscapeAllNoNul(f, printable, w);
    var n, buf := FillBuffer(f, printable, p.buf, w, newSize);
    if n.None? {
      return None;
    }
    var q := new PString.Adopt(buf, n.value, EscapeAll(f, printable, w));
    return Some(q);
  }

  /** The new buffer, zeroed and filled. */
  method FillBuffer(f: Format, printable: char -> bool, src: array<char>, ghost w: string, newSize: nat)
      returns (n: Option<nat>, buf: array<char>)
    requires Encoded(f) && Unread(src, w, 0) && NonPrintables(printable, w) > 0
    requires newSize == |w| + 1 + 5 * NonPrintables(printable, w)
    ensures fresh(buf) && (n.Some? <==> Fits(f, printable, w))
    ensures n.Some? ==> n.value < buf.Length && buf[..n.value] == EscapeAll(f, printable, w) && buf[n.value] == NUL
  {
    ghost var pieces := PiecesOf(f, printable, w);
    RoomyIsFits(f, printable, w, pieces);
    buf := new char[1 + newSize];
    Clear(buf);
    n := FillEscaped(f, printable, src, w, pieces, buf);
  }

  ghost function PiecesOf(f: Format, printable: char -> bool, w: string): (pieces: seq<string>)
    ensures ArePieces(f, printable, w, pieces)
  {
    seq(|w|, k requires 0 <= k < |w| => Piece(f, printable, w[k]))
  }

  lemma {:induction false} NothingToEscape(f: Format, printable: char -> bool, s: string)
    requires Encoded(f) && NonPrintables(printable, s) == 0
    ensures EscapeAll(f, printable, s) == s && Excess(f, printable, s) == 0
  {
    if s != "" {
      NothingToEscape(f, printable, s[1..]);
    }
  }

  lemma {:induction false} EscapeAllNoNul(f: Format, printable: char -> bool, s: string)
    requires Encoded(f) && NoNul(s)
    ensures NoNul(EscapeAll(f, printable, s))
  {
    if s != "" {
      EscapePlain(f, s[0]);
      EscapeAllNoNul(f, printable, s[1..]);
    }
  }

  lemma {:induction false} ExcessConcat(f: Format, printable: char -> bool, a: string, b: string)
    requires Encoded(f)
    ensures Excess(f, printable, a + b) == Excess(f, printable, a) + Excess(f, printable, b)
  {
    if a == "" {
      assert a + b == b;
    } else {
      assert (a + b)[0] == a[0] && (a + b)[1..] == a[1..] + b;
      ExcessConcat(f, printable, a[1..], b);
    }
  }

  lemma SubstituteExcess(f: Format, printable: char -> bool, c: char)
    requires Encoded(f) && AsciiPrintable(printable)
    ensures Excess(f, printable, Substitute(f, c)) == Overflow(f, printable, c)
  {
    var t := Substitute(f, c);
    if t == [c] {
      assert t[1..] == "";
    } else {
      PrintableExcess(f, printable, t);
    }
  }

  lemma {:induction false} PrintableExcess(f: Format, printable: char -> bool, s: string)
    requires Encoded(f) && forall i :: 0 <= i < |s| ==> printable(s[i])
    ensures Excess(f, printable, s) == 0
  {
    if s != "" {
      PrintableExcess(f, printable, s[1..]);
    }
  }

  /** The table adds only printable text, so the caller can check the original string. */
  lemma {:induction false} TranslateExcess(f: Format, printable: char -> bool, s: string)
    requires Encoded(f) && AsciiPrintable(printable)
    ensures Excess(f, printable, Translate(f, s)) == Excess(f, printable, s)
  {
    if s != "" {
      ExcessConcat(f, printable, Substitute(f, s[0]), Translate(f, s[1..]));
      SubstituteExcess(f, printable, s[0]);
      TranslateExcess(f, printable, s[1..]);
    }
  }

  lemma TranslateFits(f: Format, printable: char -> bool, s: string)
    requires Encoded(f) && AsciiPrintable(printable)
    ensures Fits(f, printable, Translate(f, s)) <==> Fits(f, printable, s)
  {
    TranslateExcess(f, printable, s);
    TranslateLength(f, s);
    if |s| == 1 {
      assert s == [s[0]] && s[1..] == "" && Translate(f, s) == Substitute(f, s[0]);
    }
  }

  /**
   `encode_string`, for a string the caller owns: exactly when the text fits, the result is its encoding, a counted
   string. The only failure is a non-printable character too wide for the space counted for it.
   */
  method EncodeString(f: Format, printable: char -> bool, p: PString) returns (r: Option<PString>)
    requires AsciiPrintable(printable) && p.Counted()
    ensures r.Some? <==> Fits(f, printable, p.Word())
    ensures r.Some? ==> r.value.Counted() && r.value.Word() == Encode(f, printable, p.Word())
  {
    if p.len <= 1 || !Encoded(f) {
      return Some(p);
    }
    TranslateFits(f, printable, p.Word());
    var q := OutputTranslate(f, p);
    r := EscapeString(f, printable, q);
  }

  /** Non-printable characters up to 0xFF in XML and up to 0xFFFF in JSON always fit. */
  lemma {:induction false} NarrowFits(f: Format, printable: char -> bool, s: string)
    requires Encoded(f)
    requires forall i :: 0 <= i < |s| ==> printable(s[i]) || s[i] as int <= if f == Xml then 0xFF else 0xFFFF
    ensures Excess(f, printable, s) == 0 && Fits(f, printable, s)
  {
    if s != "" {
      HexLengths(s[0] as int);
      NarrowFits(f, printable, s[1..]);
    }
  }

  /** One character past the limit does not fit on its own, and a second one never does. */
  lemma WideDoesNotFit()
    ensures var printable := (c: char) => ' ' <= c <= '~';
            !Fits(Xml, printable, [0x100 as char]) && Fits(Xml, printable, [0x100 as char, 'a'])
            && !Fits(Xml, printable, [0x100 as char, 0x100 as char]) && !Fits(Json, printable, [0x10000 as char])
  {
    var printable := (c: char) => ' ' <= c <= '~';
    var c, d := 0x100 as char, 0x10000 as char;
    assert Numeral(16, 0x100) == Numeral(16, 0x10) + ['0'];
    assert |Numeral(16, 0x10)| == 2;
    assert |Numeral(16, 0x10000)| == 1 + |Numeral(16, 0x1000)|;
    assert |Numeral(16, 0x1000)| == 1 + |Numeral(16, 0x100)|;
    assert [c][1..] == "" && [d][1..] == "" && [c, 'a'][1..] == ['a'] && ['a'][1..] == "" && [c, c][1..] == [c];
    assert Overflow(Xml, printable, c) == 1 && Overflow(Json, printable, d) == 1 && Overflow(Xml, printable, 'a') == 0;
    assert Excess(Xml, printable, [c]) == 1 && Excess(Xml, printable, ['a']) == 0;
  }

  /** A text that fits although one of its characters has an escape with a digit too many. */
  lemma LongEscapeFits(printable: char -> bool)
    requires printable('a') && !printable(0x10000 as char)
    ensures Fits(Json, printable, ['a', 0x10000 as char])
  {
    var wide := 0x10000 as char;
    var s := ['a', wide];
    assert s[1..] == [wide] && [wide][1..] == [];
    WideNumeral();
    assert Excess(Json, printable, [wide]) == 1;
    assert Excess(Json, printable, s) == 1;
  }

  lemma WideNumeral()
    ensures |Numeral(16, 0x10000)| == 5
  {
    assert |Numeral(16, 0x1)| == 1;
    assert |Numeral(16, 0x10)| == 2;
    assert |Numeral(16, 0x100)| == 3;
    assert |Numeral(16, 0x1000)| == 4;
  }
}
