/**
 `show_namespaces_linux` of src/platform/linux/platform.c: directory entries are sorted into a ring as they are read,
 and the ring is then drained while it is walked.
 */
module Namespaces {
  import opened Prelude
  import opened SortedLists
  import opened PrList
  import opened Document

  // ----- pr_list_cmp_str

  /** The sign of `strcmp`. */
  function Strcmp(a: string, b: string): int {
    if a == "" && b == "" then 0
    else if a == "" then -1
    else if b == "" then 1
    else if a[0] < b[0] then -1
    else if b[0] < a[0] then 1
    else Strcmp(a[1..], b[1..])
  }

  /** `pr_list_cmp_str`: a null string comes first. */
  function CmpStr(a: Option<string>, b: Option<string>): int {
    if a.None? && b.None? then 0
    else if a.None? then -1
    else if b.None? then 1
    else Strcmp(a.value, b.value)
  }

  lemma {:induction false} StrcmpAntisymmetric(a: string, b: string)
    ensures Strcmp(a, b) == -Strcmp(b, a)
    ensures Strcmp(a, b) == 0 ==> a == b
  {
    if a != "" && b != "" && a[0] == b[0] {
      StrcmpAntisymmetric(a[1..], b[1..]);
      assert a == [a[0]] + a[1..] && b == [b[0]] + b[1..];
    }
  }

  lemma {:induction false} StrcmpTransitive(a: string, b: string, c: string)
    requires Strcmp(a, b) < 0 && Strcmp(c, b) >= 0
    ensures Strcmp(a, c) < 0
  {
    if a != "" && b != "" && c != "" && a[0] == b[0] == c[0] {
      StrcmpTransitive(a[1..], b[1..], c[1..]);
    }
  }

  /** Dictionary order: `a` is a proper beginning of `b`, or has a smaller character where they first differ. */
  ghost predicate Precedes(a: string, b: string) {
    exists i: nat :: PrecedesAt(a, b, i)
  }

  predicate PrecedesAt(a: string, b: string, i: nat) {
    i <= |a| && i < |b| && a[..i] == b[..i] && (i == |a| || a[i] < b[i])
  }

  lemma PrecedesLater(x: char, a: string, b: string, i: nat)
    ensures PrecedesAt([x] + a, [x] + b, i + 1) <==> PrecedesAt(a, b, i)
  {
    var s, t := [x] + a, [x] + b;
    if i <= |a| && i < |b| {
      assert s[..i + 1] == [x] + a[..i] && t[..i + 1] == [x] + b[..i];
      assert s[..i + 1][1..] == a[..i] && t[..i + 1][1..] == b[..i];
    }
  }

  /** A negative comparison means dictionary order. */
  lemma {:induction false} StrcmpIsOrder(a: string, b: string)
    ensures Strcmp(a, b) < 0 <==> Precedes(a, b)
  {
    if a == "" || b == "" || a[0] != b[0] {
      assert PrecedesAt(a, b, 0) <==> Strcmp(a, b) < 0;
      forall i: nat | 0 < i <= |a| && i < |b|
        ensures a[..i] != b[..i]
      {
        assert a[..i][0] == a[0] && b[..i][0] == b[0];
      }
    } else {
      var x, s, t := a[0], a[1..], b[1..];
      assert a == [x] + s && b == [x] + t;
      StrcmpIsOrder(s, t);
      if Precedes(s, t) {
        var i: nat :| PrecedesAt(s, t, i);
        PrecedesLater(x, s, t, i);
      }
      if Precedes(a, b) {
        var i: nat :| PrecedesAt(a, b, i);
        assert i > 0;
        PrecedesLater(x, s, t, i - 1);
      }
    }
  }

  /** Any sorted insertion with this comparison meets the ordering its theorems ask for. */
  lemma CmpStrIsStrictWeak()
    ensures StrictWeak(CmpStr)
    ensures forall a, b :: CmpStr(a, b) < 0 <==> b.Some? && (a.None? || Precedes(a.value, b.value))
  {
    forall a: Option<string>, b: Option<string> | a.Some? && b.Some?
      ensures CmpStr(a, b) < 0 <==> Precedes(a.value, b.value)
    {
      StrcmpIsOrder(a.value, b.value);
    }
    forall a, b | CmpStr(a, b) < 0
      ensures !(CmpStr(b, a) < 0)
    {
      if a.Some? {
        StrcmpAntisymmetric(a.value, b.value);
      }
    }
    forall a, b, c | CmpStr(a, b) < 0 && !(CmpStr(c, b) < 0)
      ensures CmpStr(a, c) < 0
    {
      if a.Some? {
        StrcmpTransitive(a.value, b.value, c.value);
      }
    }
  }

  // ----- reading the directory

  /** A directory entry and what `readlink` gave for it. */
  datatype Item = Item(name: string, link: Option<string>)

  predicate Listed(e: Item) {
    e.name != "." && e.name != ".." && e.link.Some?
  }

  /** A link of no length: the source asserts that there is none. */
  predicate Stops(e: Item) {
    Listed(e) && e.link.value == ""
  }

  /** The strings stored in the ring, in the order they are read. */
  function Lines(items: seq<Item>): seq<Option<string>> {
    if items == [] then []
    else
      var last := items[|items| - 1];
      Lines(items[..|items| - 1]) + if Listed(last) then [Some(last.name + " " + last.link.value)] else []
  }

  /** One round of the read loop: a new node for `line` goes to its place in the ring. */
  method AddLine(list: Link<Option<string>>, line: Option<string>, ghost ns: seq<Link<Option<string>>>,
                 ghost vals: seq<Option<string>>) returns (ghost ms: seq<Link<Option<string>>>)
    requires Ring(ns) && ns[0] == list && Holds(ns, vals)
    modifies ns
    ensures Ring(ms) && ms[0] == list && Holds(ms, InsertForward(CmpStr, line, vals))
    ensures forall i :: 0 <= i < |ms| ==> ms[i] in ns || fresh(ms[i])
  {
    var entry := new Link(line);
    ghost var j := PrependSorted(list, entry, CmpStr, ns, vals);
    ms := InsertAt(ns, j, entry);
  }

  lemma LinesNext(items: seq<Item>, i: nat)
    requires i < |items|
    ensures var ls := Lines(items[..i]);
            if Listed(items[i]) then
              var line := Some(items[i].name + " " + items[i].link.value);
              AllForward(CmpStr, Lines(items[..i + 1])) == InsertForward(CmpStr, line, AllForward(CmpStr, ls))
            else Lines(items[..i + 1]) == ls
  {
    assert items[..i + 1][..i] == items[..i];
    var ls := Lines(items[..i + 1]);
    if Listed(items[i]) {
      assert ls[..|ls| - 1] == Lines(items[..i]);
    }
  }

  /** The ring holds the lines of these entries, sorted. */
  ghost predicate Stored(list: Link<Option<string>>, ns: seq<Link<Option<string>>>, items: seq<Item>)
    reads ns
  {
    Ring(ns) && ns[0] == list && Holds(ns, AllForward(CmpStr, Lines(items)))
  }

  method NewRing() returns (list: Link<Option<string>>)
    ensures fresh(list) && Stored(list, [list], [])
  {
    list := new Link(None);
  }

  method ReadOne(list: Link<Option<string>>, items: seq<Item>, i: nat, ghost ns: seq<Link<Option<string>>>)
    returns (ghost ms: seq<Link<Option<string>>>)
    requires i < |items| && Stored(list, ns, items[..i])
    modifies ns
    ensures Stored(list, ms, items[..i + 1])
    ensures forall i :: 0 <= i < |ms| ==> ms[i] in ns || fresh(ms[i])
  {
    LinesNext(items, i);
    ms := ns;
    if Listed(items[i]) {
      ms := AddLine(list, Some(items[i].name + " " + items[i].link.value), ns, AllForward(CmpStr, Lines(items[..i])));
    }
  }

  /** Behind the sentinel, a node for the line of each entry, in this order. */
  ghost predicate HoldsLines(ns: seq<Link<Option<string>>>, sorted: seq<Item>)
    reads ns
  {
    |ns| == |sorted| + 1
    && forall k :: 0 <= k < |sorted| ==>
         sorted[k].link.Some? && ns[k + 1].data == Some(sorted[k].name + " " + sorted[k].link.value)
  }

  lemma StoredIsListing(list: Link<Option<string>>, ns: seq<Link<Option<string>>>, items: seq<Item>)
    requires Stored(list, ns, items)
    ensures Listing(items, SortedItems(items)) && HoldsLines(ns, SortedItems(items))
  {
    var sorted := SortedItems(items);
    SortedIsListing(items);
    SortedListed(items);
    LinesOfListed(items);
    SortOfLines(ListedItems(items));
    forall k | 0 <= k < |sorted|
      ensures sorted[k].link.Some? && ns[k + 1].data == Some(sorted[k].name + " " + sorted[k].link.value)
    {
      assert Listed(sorted[k]);
      assert LinesOf(sorted)[k] == LineOf(sorted[k]);
    }
  }

  method ReadAll(items: seq<Item>)
    returns (ok: bool, list: Link<Option<string>>, ghost ns: seq<Link<Option<string>>>)
    ensures ok <==> forall k :: 0 <= k < |items| ==> !Stops(items[k])
    ensures forall i :: 0 <= i < |ns| ==> fresh(ns[i])
    ensures ok ==> Stored(list, ns, items)
  {
    list := NewRing();
    ns := [list];
    assert items[..0] == [];
    for i := 0 to |items|
      invariant Stored(list, ns, items[..i]) && forall k :: 0 <= k < |ns| ==> fresh(ns[k])
      invariant forall k :: 0 <= k < i ==> !Stops(items[k])
    {
      if Stops(items[i]) {
        return false, list, ns;
      }
      ghost var before := ns;
      ns := ReadOne(list, items, i, ns);
      assert forall k :: 0 <= k < |before| ==> fresh(before[k]);
    }
    assert items[..|items|] == items;
    ok := true;
  }

  /** The read loop: it gets to the end exactly when no link is empty, and then the ring holds the listing. */
  method ReadNamespaces(items: seq<Item>)
    returns (ok: bool, list: Link<Option<string>>, ghost ns: seq<Link<Option<string>>>)
    ensures ok <==> !HasEmptyLink(items)
    ensures forall i :: 0 <= i < |ns| ==> fresh(ns[i])
    ensures ok ==> Stored(list, ns, items) && Listing(items, SortedItems(items)) && HoldsLines(ns, SortedItems(items))
  {
    StopsIff(items);
    ok, list, ns := ReadAll(items);
    if ok {
      StoredIsListing(list, ns, items);
    }
  }

  // ----- draining the ring

  type StringLink = Link<Option<string>>

  /**
   Entries before `k` have left the ring; the rest still form one behind the sentinel, and `iter` is its first entry.
   */
  ghost predicate Draining(ns: seq<StringLink>, vals: seq<Option<string>>, k: nat, iter: StringLink)
    reads ns
  {
    1 <= k <= |ns| && (forall i, j :: 0 <= i < j < |ns| ==> ns[i] != ns[j])
    && Ring([ns[0]] + ns[k..]) && iter == (if k < |ns| then ns[k] else ns[0])
    && Holds(ns, vals) && forall i :: 1 <= i < k ==> Alone(ns[i])
  }

  lemma RingAhead(ns: seq<StringLink>, k: nat)
    requires 1 <= k < |ns| && Ring([ns[0]] + ns[k..])
    ensures ns[k].prev == ns[0] && ns[k].next == if k + 1 < |ns| then ns[k + 1] else ns[0]
  {
    var rest := [ns[0]] + ns[k..];
    assert rest[1].prev == rest[0];
    assert rest[1].next == if |rest| > 2 then rest[2] else rest[0];
  }

  /** Unlinking the first entry still in the ring. */
  method Unlink(iter: StringLink, ghost ns: seq<StringLink>, ghost vals: seq<Option<string>>, ghost k: nat)
    requires Draining(ns, vals, k, iter) && k < |ns|
    modifies ns
    ensures iter.data == vals[k - 1] && Draining(ns, vals, k + 1, old(iter.next))
  {
    ghost var rest := [ns[0]] + ns[k..];
    RingAhead(ns, k);
    assert ns[k - 1 + 1].data == vals[k - 1];
    Remove(iter, rest, 1);
    assert rest[..1] + rest[2..] == [ns[0]] + ns[k + 1..];
  }

  lemma DrainEnd(ns: seq<StringLink>, vals: seq<Option<string>>, k: nat, iter: StringLink)
    requires Draining(ns, vals, k, iter)
    ensures iter == ns[0] <==> k == |ns|
    ensures k == |ns| ==> forall i :: 0 <= i < |ns| ==> Alone(ns[i])
  {
  }

  /** The walk stands at `iter`, having taken the data of the entries before it. */
  ghost predicate Walking(ns: seq<StringLink>, vals: seq<Option<string>>, k: nat, iter: StringLink,
                          visited: seq<Option<string>>)
    reads ns
  {
    Draining(ns, vals, k, iter) && visited == vals[..k - 1]
  }

  lemma WalkStart(ns: seq<StringLink>, vals: seq<Option<string>>)
    requires Ring(ns) && Holds(ns, vals)
    ensures Walking(ns, vals, 1, ns[0].next, [])
  {
  }

  lemma WalkEnd(ns: seq<StringLink>, vals: seq<Option<string>>, k: nat, visited: seq<Option<string>>)
    requires ns != [] && Walking(ns, vals, k, ns[0], visited)
    ensures visited == vals && forall i :: 0 <= i < |ns| ==> Alone(ns[i])
  {
    DrainEnd(ns, vals, k, ns[0]);
    assert vals[..|vals|] == vals;
  }

  /** One round: the node leaves the ring and its data is taken. */
  method Visit(list: StringLink, iter: StringLink, visited: seq<Option<string>>, ghost ns: seq<StringLink>,
               ghost vals: seq<Option<string>>, ghost k: nat)
    returns (more: seq<Option<string>>)
    requires Walking(ns, vals, k, iter, visited) && ns[0] == list && iter != list
    modifies ns
    ensures k < |ns| && Walking(ns, vals, k + 1, old(iter.next), more)
  {
    DrainEnd(ns, vals, k, iter);
    Unlink(iter, ns, vals, k);
    more := visited + [iter.data];
    assert vals[..k] == vals[..k - 1] + [vals[k - 1]];
  }

  /**
   The PR_LIST_FOREACH_SAFE loop: each node is unlinked as it is visited, the saved successor is where the walk goes
   on, and the sentinel ends alone in its ring.
   */
  method Drain(list: StringLink, ghost ns: seq<StringLink>, ghost vals: seq<Option<string>>)
    returns (visited: seq<Option<string>>)
    requires Ring(ns) && ns[0] == list && Holds(ns, vals)
    modifies ns
    ensures visited == vals
    ensures forall i :: 0 <= i < |ns| ==> Alone(ns[i])
  {
    ghost var k: nat := 1;
    WalkStart(ns, vals);
    visited := [];
    var iter := list.next;
    var tmp := iter.next;
    while iter != list
      invariant k <= |ns| && Walking(ns, vals, k, iter, visited) && tmp == iter.next
      decreases |ns| - k
    {
      visited := Visit(list, iter, visited, ns, vals, k);
      k := k + 1;
      iter := tmp;
      tmp := iter.next;
    }
    WalkEnd(ns, vals, k, visited);
  }

  // ----- the whole listing

  /** `strsep` on a space: what comes before the first one, and what comes after it. */
  function SplitAtSpace(line: string): Option<(string, string)> {
    if line == "" then None
    else if line[0] == ' ' then Some(("", line[1..]))
    else
      match SplitAtSpace(line[1..])
      case None => None
      case Some((name, value)) => Some(([line[0]] + name, value))
  }

  /** The name and the link come back if and only if the name holds no space. */
  lemma {:induction false} SplitIsJoinUndone(name: string, link: string)
    ensures var split := SplitAtSpace(name + " " + link);
            split.Some? && (split.value == (name, link) <==> ' ' !in name) && ' ' !in split.value.0
            && split.value.0 + " " + split.value.1 == name + " " + link
  {
    var line := name + " " + link;
    if name == "" {
      assert line[1..] == link;
    } else {
      assert line[1..] == name[1..] + " " + link;
      SplitIsJoinUndone(name[1..], link);
      assert [name[0]] + name[1..] == name;
      var rest := SplitAtSpace(line[1..]).value;
      assert name[0] != ' ' ==> [name[0]] + rest.0 + " " + rest.1 == [name[0]] + (rest.0 + " " + rest.1);
      assert line == [name[0]] + line[1..];
    }
  }

  /** What the loop body shows for one stored line: an entry inside an object, or nothing if there is no space in it. */
  function Show(line: Option<string>): seq<Call> {
    var split := if line.None? then None else SplitAtSpace(line.value);
    if split.None? then [] else [ObjectOpenCall, EntryCall(split.value.0, split.value.1), ObjectCloseCall]
  }

  function ShowAll(lines: seq<Option<string>>): seq<Call> {
    if lines == [] then [] else Show(lines[0]) + ShowAll(lines[1..])
  }

  // ----- in terms of the directory

  /** The line stored for an entry. */
  function LineOf(e: Item): Option<string> {
    if e.link.None? then None else Some(e.name + " " + e.link.value)
  }

  function LinesOf(items: seq<Item>): seq<Option<string>> {
    seq(|items|, i requires 0 <= i < |items| => LineOf(items[i]))
  }

  function ListedItems(items: seq<Item>): (listed: seq<Item>)
    ensures forall e :: e in listed ==> e in items && Listed(e)
  {
    if items == [] then []
    else
      var last := items[|items| - 1];
      ListedItems(items[..|items| - 1]) + if Listed(last) then [last] else []
  }

  /** Entries in the order of their lines. */
  function CmpItem(a: Item, b: Item): int {
    CmpStr(LineOf(a), LineOf(b))
  }

  /** The listed entries, sorted. */
  function SortedItems(items: seq<Item>): seq<Item> {
    AllForward(CmpItem, ListedItems(items))
  }

  lemma {:induction false} ForwardOfLines(x: Item, s: seq<Item>, i: nat)
    requires i <= |s|
    ensures Forward(CmpStr, LineOf(x), LinesOf(s), i) == Forward(CmpItem, x, s, i)
    decreases |s| - i
  {
    if i < |s| && !(CmpItem(x, s[i]) < 0) {
      ForwardOfLines(x, s, i + 1);
    }
  }

  lemma {:induction false} SortOfLines(xs: seq<Item>)
    ensures AllForward(CmpStr, LinesOf(xs)) == LinesOf(AllForward(CmpItem, xs))
  {
    if xs != [] {
      var n, ls := |xs| - 1, LinesOf(xs);
      SortOfLines(xs[..n]);
      assert ls[..n] == LinesOf(xs[..n]) && ls[n] == LineOf(xs[n]);
      InsertOfLines(xs[n], AllForward(CmpItem, xs[..n]));
      assert AllForward(CmpStr, ls) == InsertForward(CmpStr, ls[n], AllForward(CmpStr, ls[..n]));
    }
  }

  lemma InsertOfLines(x: Item, s: seq<Item>)
    ensures InsertForward(CmpStr, LineOf(x), LinesOf(s)) == LinesOf(InsertForward(CmpItem, x, s))
  {
    ForwardOfLines(x, s, 0);
    LinesOfInsert(x, s, Forward(CmpItem, x, s, 0));
  }

  lemma LinesOfInsert(x: Item, s: seq<Item>, j: nat)
    requires j <= |s|
    ensures LinesOf(InsertAt(s, j, x)) == InsertAt(LinesOf(s), j, LineOf(x))
  {
  }

  lemma {:induction false} LinesOfListed(items: seq<Item>)
    ensures Lines(items) == LinesOf(ListedItems(items))
  {
    if items != [] {
      LinesOfListed(items[..|items| - 1]);
    }
  }

  lemma CmpItemIsStrictWeak()
    ensures StrictWeak(CmpItem)
  {
    CmpStrIsStrictWeak();
  }

  /** The calls for entries: an object that holds the name and the link. */
  function ItemCalls(items: seq<Item>): seq<Call> {
    if items == [] then []
    else
      var e := items[0];
      var value := if e.link.None? then "" else e.link.value;
      [ObjectOpenCall, EntryCall(e.name, value), ObjectCloseCall] + ItemCalls(items[1..])
  }

  predicate SpaceFree(items: seq<Item>) {
    forall k :: 0 <= k < |items| ==> ' ' !in items[k].name
  }

  lemma SameTriple(a: Call, b: Call, x: Call, y: Call, s: seq<Call>, t: seq<Call>)
    ensures [a, x, b] + s == [a, y, b] + t <==> x == y && s == t
  {
    var u, v := [a, x, b] + s, [a, y, b] + t;
    assert u[1] == x && v[1] == y && u[3..] == s && v[3..] == t;
  }

  /** The stored lines show the entries themselves if and only if no name holds a space. */
  lemma {:induction false} ShowsItems(items: seq<Item>)
    requires forall k :: 0 <= k < |items| ==> Listed(items[k])
    ensures ShowAll(LinesOf(items)) == ItemCalls(items) <==> SpaceFree(items)
  {
    if items != [] {
      var e, lines := items[0], LinesOf(items);
      var split := SplitAtSpace(e.name + " " + e.link.value);
      assert Listed(e);
      SplitIsJoinUndone(e.name, e.link.value);
      assert lines[1..] == LinesOf(items[1..]) && lines[0] == Some(e.name + " " + e.link.value);
      ShowsItems(items[1..]);
      SpaceFreeFirst(items);
      SameTriple(ObjectOpenCall, ObjectCloseCall, EntryCall(split.value.0, split.value.1),
                 EntryCall(e.name, e.link.value), ShowAll(lines[1..]), ItemCalls(items[1..]));
    }
  }

  /** Three calls that show one entry: its line is cut at the first space. */
  predicate ShownAs(calls: seq<Call>, at: nat, e: Item) {
    at + 3 <= |calls| && calls[at] == ObjectOpenCall && calls[at + 1].EntryCall? && calls[at + 2] == ObjectCloseCall
    && ' ' !in calls[at + 1].name && e.link.Some?
    && calls[at + 1].name + " " + calls[at + 1].value == e.name + " " + e.link.value
  }

  predicate AllShownAs(calls: seq<Call>, items: seq<Item>) {
    |calls| == 3 * |items| && forall k :: 0 <= k < |items| ==> ShownAs(calls, 3 * k, items[k])
  }

  lemma {:induction false} ShowAllAs(items: seq<Item>, k: nat)
    requires k < |items| && forall i :: 0 <= i < |items| ==> Listed(items[i])
    ensures |ShowAll(LinesOf(items))| == 3 * |items| && ShownAs(ShowAll(LinesOf(items)), 3 * k, items[k])
  {
    var e, lines := items[0], LinesOf(items);
    assert Listed(e);
    SplitIsJoinUndone(e.name, e.link.value);
    assert lines[1..] == LinesOf(items[1..]) && lines[0] == Some(e.name + " " + e.link.value);
    var first, rest := Show(lines[0]), ShowAll(lines[1..]);
    assert ShowAll(lines) == first + rest && |first| == 3;
    if |items| > 1 {
      ShowAllAs(items[1..], if k > 0 then k - 1 else 0);
    } else {
      assert lines[1..] == [];
    }
    if k == 0 {
      assert ShownAs(first + rest, 0, e);
    } else {
      ShownLater(first, rest, 3 * (k - 1), items[k]);
    }
  }

  lemma ShownLater(first: seq<Call>, rest: seq<Call>, at: nat, e: Item)
    requires |first| == 3 && ShownAs(rest, at, e)
    ensures ShownAs(first + rest, 3 + at, e)
  {
  }

  lemma SpaceFreeFirst(items: seq<Item>)
    requires items != []
    ensures SpaceFree(items) <==> ' ' !in items[0].name && SpaceFree(items[1..])
  {
    assert forall k :: 1 <= k < |items| ==> items[k] == items[1..][k - 1];
  }

  lemma SortedListed(items: seq<Item>)
    ensures Ascending(CmpItem, SortedItems(items)) && multiset(SortedItems(items)) == multiset(ListedItems(items))
    ensures forall e :: e in SortedItems(items) ==> e in items && Listed(e)
  {
    CmpItemIsStrictWeak();
    AllForwardSorts(CmpItem, ListedItems(items));
    forall e | e in SortedItems(items)
      ensures e in ListedItems(items)
    {
      assert e in multiset(SortedItems(items));
    }
  }

  lemma {:induction false} ListedCount(items: seq<Item>, e: Item)
    ensures multiset(ListedItems(items))[e]
         == if e.name != "." && e.name != ".." && e.link.Some? then multiset(items)[e] else 0
  {
    if items != [] {
      var n := |items| - 1;
      ListedCount(items[..n], e);
      assert items == items[..n] + [items[n]];
      assert multiset(items)[e] == multiset(items[..n])[e] + if items[n] == e then 1 else 0;
      assert multiset(ListedItems(items))[e]
          == multiset(ListedItems(items[..n]))[e] + if Listed(items[n]) && items[n] == e then 1 else 0;
    }
  }

  /** The entries are in the order of their lines. */
  lemma SortedInOrder(items: seq<Item>, i: nat, j: nat)
    requires i < j < |SortedItems(items)|
    ensures var a, b := SortedItems(items)[i], SortedItems(items)[j];
            a.link.Some? && b.link.Some? && !Precedes(b.name + " " + b.link.value, a.name + " " + a.link.value)
  {
    var a, b := SortedItems(items)[i], SortedItems(items)[j];
    SortedListed(items);
    assert Listed(a) && Listed(b);
    assert !(CmpItem(b, a) < 0);
    StrcmpIsOrder(b.name + " " + b.link.value, a.name + " " + a.link.value);
  }

  lemma SpaceFreeSame(a: seq<Item>, b: seq<Item>)
    requires multiset(a) == multiset(b) && SpaceFree(a)
    ensures SpaceFree(b)
  {
    forall k | 0 <= k < |b|
      ensures ' ' !in b[k].name
    {
      assert b[k] in multiset(a);
      var j :| 0 <= j < |a| && a[j] == b[k];
    }
  }

  /** Sorting does not change whether a name holds a space. */
  lemma ShowsSorted(items: seq<Item>)
    ensures ShowAll(LinesOf(SortedItems(items))) == ItemCalls(SortedItems(items)) <==> SpaceFree(ListedItems(items))
  {
    var sorted, listed := SortedItems(items), ListedItems(items);
    SortedListed(items);
    ShowsItems(sorted);
    if SpaceFree(sorted) {
      SpaceFreeSame(sorted, listed);
    }
    if SpaceFree(listed) {
      SpaceFreeSame(listed, sorted);
    }
  }

  /** What the listing is, said of the directory. */
  ghost predicate Listing(items: seq<Item>, sorted: seq<Item>) {
    (forall e: Item :: multiset(sorted)[e]
                 == if e.name != "." && e.name != ".." && e.link.Some? then multiset(items)[e] else 0)
    && forall i, j :: 0 <= i < j < |sorted| ==>
         sorted[i].link.Some? && sorted[j].link.Some?
         && !Precedes(sorted[j].name + " " + sorted[j].link.value, sorted[i].name + " " + sorted[i].link.value)
  }

  lemma SortedIsListing(items: seq<Item>)
    ensures Listing(items, SortedItems(items))
  {
    var sorted := SortedItems(items);
    SortedListed(items);
    forall e: Item
      ensures multiset(sorted)[e]
           == if e.name != "." && e.name != ".." && e.link.Some? then multiset(items)[e] else 0
    {
      ListedCount(items, e);
    }
    forall i, j | 0 <= i < j < |sorted|
      ensures sorted[i].link.Some? && sorted[j].link.Some?
      ensures !Precedes(sorted[j].name + " " + sorted[j].link.value, sorted[i].name + " " + sorted[i].link.value)
    {
      SortedInOrder(items, i, j);
    }
  }

  lemma SortedShown(items: seq<Item>)
    ensures var sorted := SortedItems(items);
            AllShownAs(ShowAll(LinesOf(sorted)), sorted)
  {
    var sorted := SortedItems(items);
    SortedListed(items);
    forall k | 0 <= k < |sorted|
      ensures |ShowAll(LinesOf(sorted))| == 3 * |sorted| && ShownAs(ShowAll(LinesOf(sorted)), 3 * k, sorted[k])
    {
      ShowAllAs(sorted, k);
    }
  }

  /** Some entry other than "." and ".." has an empty link. */
  predicate HasEmptyLink(items: seq<Item>) {
    exists k :: 0 <= k < |items| && items[k].name != "." && items[k].name != ".." && items[k].link == Some("")
  }

  lemma StopsIff(items: seq<Item>)
    ensures HasEmptyLink(items) <==> exists k :: 0 <= k < |items| && Stops(items[k])
  {
    if HasEmptyLink(items) {
      var k :| 0 <= k < |items| && items[k].name != "." && items[k].name != ".." && items[k].link == Some("");
      assert Stops(items[k]);
    }
  }

  /**
   `show_namespaces_linux`: it stops exactly when some entry other than "." and ".." has an empty link. Otherwise every
   such entry whose link can be read is shown exactly once, in the dictionary order of name, space and link, as an
   object with one entry: this text cut at its first space, which is the entry's name and link if and only if no name
   holds a space.
   */
  method ShowNamespaces(items: seq<Item>) returns (shown: Option<seq<Call>>)
    ensures shown.None? <==> HasEmptyLink(items)
    ensures Listing(items, SortedItems(items))
    ensures shown.Some? ==> AllShownAs(shown.value, SortedItems(items))
    ensures shown.Some? ==> (shown.value == ItemCalls(SortedItems(items)) <==> SpaceFree(ListedItems(items)))
  {
    SortedIsListing(items);
    var ok, list, ns := ReadNamespaces(items);
    if !ok {
      return None;
    }
    var visited := Drain(list, ns, AllForward(CmpStr, Lines(items)));
    LinesOfListed(items);
    SortOfLines(ListedItems(items));
    ShowsSorted(items);
    SortedShown(items);
    return Some(ShowAll(visited));
  }
}
