/**
 Shared vocabulary: optional results, C strings and runs of one character.
 */
module Prelude {

  datatype Option<+T> = None | Some(value: T)

  const NUL: char := '\0'
  const NEWLINE: char := '\n'

  /** A wide string as C sees it: no character before the terminator is the terminator. */
  predicate NoNul(s: string) {
    forall i :: 0 <= i < |s| ==> s[i] != NUL
  }

  predicate NoNewline(s: string) {
    forall i :: 0 <= i < |s| ==> s[i] != NEWLINE
  }

  /** The text a C string function sees in a buffer: everything before the first terminator. */
  function UpToNul(s: seq<char>): string {
    if s == [] || s[0] == NUL then "" else [s[0]] + UpToNul(s[1..])
  }

  lemma {:induction false} UpToNulAt(s: seq<char>, n: nat)
    requires n < |s| && s[n] == NUL && NoNul(s[..n])
    ensures UpToNul(s) == s[..n]
  {
    if n > 0 {
      assert s[0] == s[..n][0];
      assert s[1..][..n - 1] == s[..n][1..];
      UpToNulAt(s[1..], n - 1);
      assert s[..n] == [s[0]] + s[1..][..n - 1];
    }
  }

  /** `n` copies of `c`: what a pad of width `n` looks like. */
  function Repeat(c: char, n: nat): (r: string)
    ensures |r| == n
    ensures forall i :: 0 <= i < n ==> r[i] == c
  {
    seq(n, _ => c)
  }

  lemma Regroup(a: string, b: string, c: string)
    ensures a + b + c == a + (b + c)
  {
  }

  lemma RegroupFour(a: string, b: string, c: string, d: string)
    ensures a + b + c + d == a + (b + (c + d))
  {
  }

  predicate StartsWith(s: string, prefix: string) {
    |prefix| <= |s| && s[..|prefix|] == prefix
  }
}
