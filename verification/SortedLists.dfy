/**
 What sorted insertion does to a sequence: from the front for `pr_list_prepend_sorted`, from the back for
 `pr_list_append_sorted`. A comparison is negative when its first argument comes first.
 */
module SortedLists {

  /** The comparison is a strict weak ordering. */
  ghost predicate StrictWeak<D(!new)>(cmp: (D, D) -> int) {
    (forall a, b :: cmp(a, b) < 0 ==> !(cmp(b, a) < 0)) &&
    (forall a, b, c :: cmp(a, b) < 0 && !(cmp(c, b) < 0) ==> cmp(a, c) < 0)
  }

  /** Where the forward scan from `i` stops: at the first element the new one comes before. */
  function Forward<D>(cmp: (D, D) -> int, x: D, s: seq<D>, i: nat): (j: nat)
    requires i <= |s|
    ensures i <= j <= |s|
    ensures forall k :: i <= k < j ==> !(cmp(x, s[k]) < 0)
    ensures j < |s| ==> cmp(x, s[j]) < 0
    decreases |s| - i
  {
    if i == |s| || cmp(x, s[i]) < 0 then i else Forward(cmp, x, s, i + 1)
  }

  /** Where the backward scan below `i` stops: just after the last element the new one comes before. */
  function Backward<D>(cmp: (D, D) -> int, x: D, s: seq<D>, i: nat): (j: nat)
    requires i <= |s|
    ensures j <= i
    ensures forall k :: j <= k < i ==> !(cmp(x, s[k]) < 0)
    ensures j > 0 ==> cmp(x, s[j - 1]) < 0
  {
    if i == 0 || cmp(x, s[i - 1]) < 0 then i else Backward(cmp, x, s, i - 1)
  }

  function InsertAt<D>(s: seq<D>, j: nat, x: D): seq<D>
    requires j <= |s|
  {
    s[..j] + [x] + s[j..]
  }

  function InsertForward<D>(cmp: (D, D) -> int, x: D, s: seq<D>): seq<D> {
    InsertAt(s, Forward(cmp, x, s, 0), x)
  }

  function InsertBackward<D>(cmp: (D, D) -> int, x: D, s: seq<D>): seq<D> {
    InsertAt(s, Backward(cmp, x, s, |s|), x)
  }

  ghost predicate Ascending<D>(cmp: (D, D) -> int, s: seq<D>) {
    forall i, j :: 0 <= i < j < |s| ==> !(cmp(s[j], s[i]) < 0)
  }

  ghost predicate Descending<D>(cmp: (D, D) -> int, s: seq<D>) {
    forall i, j :: 0 <= i < j < |s| ==> !(cmp(s[i], s[j]) < 0)
  }

  /** Forward insertion keeps the order and puts the new element after all its equals. */
  lemma InsertForwardSorted<D(!new)>(cmp: (D, D) -> int, x: D, s: seq<D>)
    requires StrictWeak(cmp) && Ascending(cmp, s)
    ensures Ascending(cmp, InsertForward(cmp, x, s))
    ensures forall k :: Forward(cmp, x, s, 0) <= k < |s| ==> cmp(x, s[k]) < 0
  {
    var j := Forward(cmp, x, s, 0);
    var r := InsertForward(cmp, x, s);
    forall k | j <= k < |s|
      ensures cmp(x, s[k]) < 0
    {
      assert k > j ==> !(cmp(s[k], s[j]) < 0);
    }
    forall a, b | 0 <= a < b < |r|
      ensures !(cmp(r[b], r[a]) < 0)
    {
      if a == j {
        assert r[b] == s[b - 1];
      } else if b == j {
        assert r[a] == s[a];
      }
    }
  }

  // ----- the two directions mirror each other

  function Reverse<D>(s: seq<D>): (r: seq<D>)
    ensures |r| == |s| && forall i :: 0 <= i < |s| ==> r[i] == s[|s| - 1 - i]
  {
    seq(|s|, i requires 0 <= i < |s| => s[|s| - 1 - i])
  }

  lemma {:induction false} ForwardIs<D>(cmp: (D, D) -> int, x: D, s: seq<D>, i: nat, j: nat)
    requires i <= j <= |s| && (forall k :: i <= k < j ==> !(cmp(x, s[k]) < 0)) && (j < |s| ==> cmp(x, s[j]) < 0)
    ensures Forward(cmp, x, s, i) == j
    decreases j - i
  {
  }

  lemma {:induction false} BackwardIs<D>(cmp: (D, D) -> int, x: D, s: seq<D>, i: nat, j: nat)
    requires j <= i <= |s| && (forall k :: j <= k < i ==> !(cmp(x, s[k]) < 0)) && (j > 0 ==> cmp(x, s[j - 1]) < 0)
    ensures Backward(cmp, x, s, i) == j
  {
  }

  /** Inserting from the back is inserting from the front of the mirror image. */
  lemma InsertMirror<D>(cmp: (D, D) -> int, x: D, s: seq<D>)
    ensures Reverse(InsertBackward(cmp, x, s)) == InsertForward(cmp, x, Reverse(s))
  {
    var b := Backward(cmp, x, s, |s|);
    ForwardIs(cmp, x, Reverse(s), 0, |s| - b);
  }

  lemma ReverseSorted<D>(cmp: (D, D) -> int, s: seq<D>)
    ensures Ascending(cmp, Reverse(s)) <==> Descending(cmp, s)
  {
    if Ascending(cmp, Reverse(s)) {
      forall i, j | 0 <= i < j < |s|
        ensures !(cmp(s[i], s[j]) < 0)
      {
        assert Reverse(s)[|s| - 1 - j] == s[j] && Reverse(s)[|s| - 1 - i] == s[i];
      }
    }
  }

  lemma {:induction false} BeforeEquals<D(!new)>(cmp: (D, D) -> int, x: D, s: seq<D>, k: nat)
    requires StrictWeak(cmp) && Descending(cmp, s) && k < Backward(cmp, x, s, |s|)
    ensures cmp(x, s[k]) < 0
  {
  }

  /** Backward insertion keeps descending order and puts the new element before all its equals. */
  lemma InsertBackwardSorted<D(!new)>(cmp: (D, D) -> int, x: D, s: seq<D>)
    requires StrictWeak(cmp) && Descending(cmp, s)
    ensures Descending(cmp, InsertBackward(cmp, x, s))
    ensures forall k :: 0 <= k < Backward(cmp, x, s, |s|) ==> cmp(x, s[k]) < 0
  {
    ReverseSorted(cmp, s);
    InsertForwardSorted(cmp, x, Reverse(s));
    InsertMirror(cmp, x, s);
    ReverseSorted(cmp, InsertBackward(cmp, x, s));
    forall k | 0 <= k < Backward(cmp, x, s, |s|)
      ensures cmp(x, s[k]) < 0
    {
      BeforeEquals(cmp, x, s, k);
    }
  }

  // ----- whole insertion sequences

  function AllForward<D>(cmp: (D, D) -> int, xs: seq<D>): seq<D> {
    if xs == [] then [] else InsertForward(cmp, xs[|xs| - 1], AllForward(cmp, xs[..|xs| - 1]))
  }

  function AllBackward<D>(cmp: (D, D) -> int, xs: seq<D>): seq<D> {
    if xs == [] then [] else InsertBackward(cmp, xs[|xs| - 1], AllBackward(cmp, xs[..|xs| - 1]))
  }

  /** The same insertions through the two routines give mirror-image lists. */
  lemma {:induction false} AllMirror<D>(cmp: (D, D) -> int, xs: seq<D>)
    ensures Reverse(AllBackward(cmp, xs)) == AllForward(cmp, xs)
  {
    if xs == [] {
      assert Reverse<D>([]) == [];
    } else {
      AllMirror(cmp, xs[..|xs| - 1]);
      InsertMirror(cmp, xs[|xs| - 1], AllBackward(cmp, xs[..|xs| - 1]));
    }
  }

  lemma InsertMultiset<D>(s: seq<D>, j: nat, x: D)
    requires j <= |s|
    ensures multiset(InsertAt(s, j, x)) == multiset(s) + multiset{x}
  {
    assert s == s[..j] + s[j..];
  }

  lemma {:induction false} AllForwardOnce<D>(cmp: (D, D) -> int, xs: seq<D>)
    ensures multiset(AllForward(cmp, xs)) == multiset(xs)
  {
    if xs != [] {
      var init, x := xs[..|xs| - 1], xs[|xs| - 1];
      AllForwardOnce(cmp, init);
      InsertMultiset(AllForward(cmp, init), Forward(cmp, x, AllForward(cmp, init), 0), x);
      assert xs == init + [x];
    }
  }

  /** Whatever the insertion order, the list is sorted and holds each inserted element once. */
  lemma {:induction false} AllForwardSorts<D(!new)>(cmp: (D, D) -> int, xs: seq<D>)
    requires StrictWeak(cmp)
    ensures Ascending(cmp, AllForward(cmp, xs)) && multiset(AllForward(cmp, xs)) == multiset(xs)
  {
    AllForwardOnce(cmp, xs);
    if xs != [] {
      var init := xs[..|xs| - 1];
      AllForwardSorts(cmp, init);
      InsertForwardSorted(cmp, xs[|xs| - 1], AllForward(cmp, init));
    }
  }
}
