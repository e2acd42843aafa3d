/**
 The circular doubly linked list of src/pr_list.c. A ring is given by the sequence of its nodes in forward order;
 position 0 is the entry every caller keeps as its handle (the sentinel).
 */
module PrList {
  import opened SortedLists

  class Link<D> {
    var data: D
    var next: Link<D>
    var prev: Link<D>

    /** `pr_list_new`: a ring of one. */
    constructor (data: D)
      ensures Alone(this) && this.data == data
    {
      this.data := data;
      next := this;
      prev := this;
    }
  }

  /** The nodes are distinct and linked in a circle, in this order, in both directions. */
  ghost predicate Ring<D>(ns: seq<Link<D>>)
    reads ns
  {
    |ns| > 0
    && (forall i, j :: 0 <= i < j < |ns| ==> ns[i] != ns[j])
    && (forall i {:trigger ns[i].next} :: 0 <= i < |ns| - 1 ==> ns[i].next == ns[i + 1])
    && (forall i {:trigger ns[i].prev} :: 1 <= i < |ns| ==> ns[i].prev == ns[i - 1])
    && ns[|ns| - 1].next == ns[0] && ns[0].prev == ns[|ns| - 1]
  }

  /** The data after the sentinel, in forward order. */
  ghost predicate Holds<D>(ns: seq<Link<D>>, vals: seq<D>)
    reads ns
  {
    |ns| == |vals| + 1 && forall i :: 0 <= i < |vals| ==> ns[i + 1].data == vals[i]
  }

  /** A node that is its own ring. */
  ghost predicate Alone<D>(n: Link<D>)
    reads n
  {
    n.next == n && n.prev == n
  }

  // ----- linking and unlinking one node

  /** `pr_list_append`: `entry` goes right after the ring's node at `k`. */
  method Append<D>(list: Link<D>, entry: Link<D>, ghost ns: seq<Link<D>>, ghost k: nat)
    requires Ring(ns) && k < |ns| && ns[k] == list && entry !in ns
    modifies list`next, list.next`prev, entry`next, entry`prev
    ensures Ring(InsertAt(ns, k + 1, entry))
  {
    assert list.next == if k + 1 < |ns| then ns[k + 1] else ns[0];
    entry.next := list.next;
    entry.prev := list;
    list.next.prev := entry;
    list.next := entry;
  }

  /** `pr_list_prepend`: right before the node at `k`; before the sentinel means last. */
  method Prepend<D>(list: Link<D>, entry: Link<D>, ghost ns: seq<Link<D>>, ghost k: nat)
    requires Ring(ns) && k < |ns| && ns[k] == list && entry !in ns
    modifies list`prev, list.prev`next, entry`next, entry`prev
    ensures Ring(InsertAt(ns, if k == 0 then |ns| else k, entry))
  {
    assert list.prev == if k == 0 then ns[|ns| - 1] else ns[k - 1];
    entry.next := list;
    entry.prev := list.prev;
    list.prev.next := entry;
    list.prev := entry;
  }

  /** `pr_list_remove`: the node leaves its ring and becomes a ring of its own. */
  method Remove<D>(entry: Link<D>, ghost ns: seq<Link<D>>, ghost k: nat)
    requires Ring(ns) && k < |ns| && ns[k] == entry
    modifies entry.prev`next, entry.next`prev, entry`next, entry`prev
    ensures |ns| > 1 ==> Ring(ns[..k] + ns[k + 1..])
    ensures Alone(entry)
  {
    assert entry.next == if k + 1 < |ns| then ns[k + 1] else ns[0];
    assert entry.prev == if k == 0 then ns[|ns| - 1] else ns[k - 1];
    entry.prev.next := entry.next;
    entry.next.prev := entry.prev;
    entry.next := entry;
    entry.prev := entry;
  }

  // ----- sorted insertion

  /**
   The scan of `pr_list_add_sorted_internal` forwards: stops at the first entry `x` comes before, else at the
   sentinel.
   */
  method ScanForward<D>(list: Link<D>, x: D, cmp: (D, D) -> int, ghost ns: seq<Link<D>>, ghost vals: seq<D>)
    returns (p: Link<D>, ghost k: nat)
    requires Ring(ns) && ns[0] == list && Holds(ns, vals)
    ensures 1 <= k <= |ns| && p == (if k < |ns| then ns[k] else list) && k - 1 == Forward(cmp, x, vals, 0)
  {
    p, k := list.next, 1;
    while p != list && !(cmp(x, p.data) < 0)
      invariant 1 <= k <= |ns| && p == (if k < |ns| then ns[k] else list)
      invariant forall i :: 0 <= i < k - 1 ==> !(cmp(x, vals[i]) < 0)
      decreases |ns| - k
    {
      assert p.data == vals[k - 1];
      p, k := p.next, k + 1;
    }
    assert k < |ns| ==> p.data == vals[k - 1];
    ForwardIs(cmp, x, vals, 0, k - 1);
  }

  /** The same scan backwards: stops at the last entry `x` comes before, else at the sentinel. */
  method ScanBackward<D>(list: Link<D>, x: D, cmp: (D, D) -> int, ghost ns: seq<Link<D>>, ghost vals: seq<D>)
    returns (p: Link<D>, ghost k: nat)
    requires Ring(ns) && ns[0] == list && Holds(ns, vals)
    ensures k < |ns| && p == ns[k] && k == Backward(cmp, x, vals, |vals|)
  {
    p, k := list.prev, |ns| - 1;
    while p != list && !(cmp(x, p.data) < 0)
      invariant k < |ns| && p == ns[k]
      invariant forall i :: k <= i < |vals| ==> !(cmp(x, vals[i]) < 0)
      decreases k
    {
      assert p.data == vals[k - 1];
      p, k := p.prev, k - 1;
    }
    assert k > 0 ==> p.data == vals[k - 1];
    BackwardIs(cmp, x, vals, |vals|, k);
  }

  lemma HoldsInsert<D>(ns: seq<Link<D>>, vals: seq<D>, j: nat, entry: Link<D>)
    requires 1 <= j <= |ns| && Holds(ns, vals)
    ensures Holds(InsertAt(ns, j, entry), InsertAt(vals, j - 1, entry.data))
  {
  }

  /** `pr_list_prepend_sorted`: the ring gains exactly the new node, where the forward scan stopped. */
  method PrependSorted<D>(list: Link<D>, entry: Link<D>, cmp: (D, D) -> int, ghost ns: seq<Link<D>>, ghost vals: seq<D>)
    returns (ghost j: nat)
    requires Ring(ns) && ns[0] == list && entry !in ns && Holds(ns, vals)
    modifies ns, entry
    ensures 1 <= j <= |ns| && Ring(InsertAt(ns, j, entry))
    ensures Holds(InsertAt(ns, j, entry), InsertForward(cmp, old(entry.data), vals))
  {
    var p;
    p, j := ScanForward(list, entry.data, cmp, ns, vals);
    Prepend(p, entry, ns, if j < |ns| then j else 0);
    HoldsInsert(ns, vals, j, entry);
  }

  /** `pr_list_append_sorted`: the same from the other end. */
  method AppendSorted<D>(list: Link<D>, entry: Link<D>, cmp: (D, D) -> int, ghost ns: seq<Link<D>>, ghost vals: seq<D>)
    returns (ghost j: nat)
    requires Ring(ns) && ns[0] == list && entry !in ns && Holds(ns, vals)
    modifies ns, entry
    ensures 1 <= j <= |ns| && Ring(InsertAt(ns, j, entry))
    ensures Holds(InsertAt(ns, j, entry), InsertBackward(cmp, old(entry.data), vals))
  {
    var p, k := ScanBackward(list, entry.data, cmp, ns, vals);
    Append(p, entry, ns, k);
    j := k + 1;
    HoldsInsert(ns, vals, j, entry);
  }
}
