/**
 What `show_network` of src/procenv.c shows for a list of network interfaces. A link-level entry carries no address,
 only a MAC; it is cached until an entry of the same name that has an address uses its MAC, or shown at the end.
 Entries are known by their position in the list.
 */
module Interfaces {
  import opened Prelude

  datatype Address = NoAddress | LinkLevel(mac: Option<string>) | Inet(text: string)

  datatype Interface = Interface(name: string, address: Address)

  type Interfaces = seq<Interface>

  predicate Link(ifs: Interfaces, i: nat) {
    i < |ifs| && ifs[i].address.LinkLevel?
  }

  predicate Addressed(ifs: Interfaces, i: nat) {
    i < |ifs| && ifs[i].address.Inet?
  }

  predicate SameName(ifs: Interfaces, i: nat, j: nat) {
    i < |ifs| && j < |ifs| && ifs[i].name == ifs[j].name
  }

  /** One interface shown: the entry, and the link-level entry its MAC comes from. */
  datatype Line = Line(entry: nat, mac: Option<nat>)

  /** The cache, most recent entry first, and the lines shown so far. */
  datatype Net = Net(cache: seq<nat>, lines: seq<Line>)

  /** The first cached entry from `k` on with the same name as entry `i`. */
  function Find(ifs: Interfaces, cache: seq<nat>, i: nat, k: nat): (r: nat)
    requires k <= |cache|
    ensures k <= r <= |cache|
    ensures r < |cache| ==> SameName(ifs, cache[r], i)
    ensures forall j :: k <= j < r ==> !SameName(ifs, cache[j], i)
    decreases |cache| - k
  {
    if k == |cache| || SameName(ifs, cache[k], i) then k else Find(ifs, cache, i, k + 1)
  }

  function Without<T>(s: seq<T>, k: nat): seq<T>
    requires k < |s|
  {
    s[..k] + s[k + 1..]
  }

  /** One round of the loop. */
  function Round(ifs: Interfaces, i: nat, net: Net): Net {
    if Link(ifs, i) then Net([i] + net.cache, net.lines)
    else if !Addressed(ifs, i) then net
    else
      var k := Find(ifs, net.cache, i, 0);
      if k == |net.cache| then Net(net.cache, net.lines + [Line(i, None)])
      else Net(Without(net.cache, k), net.lines + [Line(i, Some(net.cache[k]))])
  }

  /** The loop up to entry `n`. */
  function UpTo(ifs: Interfaces, n: nat): Net {
    if n == 0 then Net([], []) else Round(ifs, n - 1, UpTo(ifs, n - 1))
  }

  /** What is left in the cache, each entry shown with its own MAC. */
  function Leftover(cache: seq<nat>): seq<Line> {
    seq(|cache|, k requires 0 <= k < |cache| => Line(cache[k], Some(cache[k])))
  }

  function Lines(ifs: Interfaces): seq<Line> {
    var net := UpTo(ifs, |ifs|);
    net.lines + Leftover(net.cache)
  }

  // ----- what every round keeps

  /** The cache holds link-level entries, most recent first. */
  predicate Cached(ifs: Interfaces, n: nat, cache: seq<nat>) {
    (forall k :: 0 <= k < |cache| ==> cache[k] < n && Link(ifs, cache[k]))
    && forall j, k :: 0 <= j < k < |cache| ==> cache[k] < cache[j]
  }

  /** The lines show exactly the entries with an address, in order. */
  ghost predicate InOrder(ifs: Interfaces, n: nat, lines: seq<Line>) {
    (forall l :: 0 <= l < |lines| ==> lines[l].entry < n && Addressed(ifs, lines[l].entry))
    && (forall l, m :: 0 <= l < m < |lines| ==> lines[l].entry < lines[m].entry)
    && forall i :: 0 <= i < n && Addressed(ifs, i) ==> ShownIn(lines, i)
  }

  ghost predicate ShownIn(lines: seq<Line>, i: nat) {
    exists l :: 0 <= l < |lines| && lines[l].entry == i
  }

  ghost predicate UsedIn(lines: seq<Line>, i: nat) {
    exists l :: 0 <= l < |lines| && lines[l].mac == Some(i)
  }

  /** A MAC comes from an earlier link-level entry of the same name, and from each at most once. */
  predicate Matched(ifs: Interfaces, lines: seq<Line>) {
    (forall l :: 0 <= l < |lines| && lines[l].mac.Some? ==>
      var m, i := lines[l].mac.value, lines[l].entry; m < i < |ifs| && Link(ifs, m) && ifs[m].name == ifs[i].name)
    && forall l, m :: 0 <= l < m < |lines| && lines[l].mac.Some? ==> lines[l].mac != lines[m].mac
  }

  /** A link-level entry is either still cached or has been used. */
  ghost predicate Accounted(ifs: Interfaces, n: nat, net: Net) {
    (forall i :: 0 <= i < n && Link(ifs, i) ==> i in net.cache || UsedIn(net.lines, i))
    && forall k :: 0 <= k < |net.cache| ==> !UsedIn(net.lines, net.cache[k])
  }

  /** Each line takes the most recent link-level entry of its name that is not yet used. */
  ghost predicate MostRecent(ifs: Interfaces, lines: seq<Line>) {
    forall l, i :: 0 <= l < |lines| && PassedOver(ifs, lines[l], i) ==> UsedIn(lines[..l], i)
  }

  /** An earlier link-level entry of the line's name, more recent than the one the line used. */
  predicate PassedOver(ifs: Interfaces, line: Line, i: nat) {
    i < line.entry < |ifs| && Link(ifs, i) && ifs[i].name == ifs[line.entry].name
    && (line.mac.Some? ==> line.mac.value < i)
  }

  lemma RoundCaches(ifs: Interfaces, i: nat, net: Net)
    requires Cached(ifs, i, net.cache)
    ensures Cached(ifs, i + 1, Round(ifs, i, net).cache)
  {
    var k := Find(ifs, net.cache, i, 0);
    if k < |net.cache| {
      CachedWithout(ifs, i, net.cache, k);
    }
  }

  lemma CachedWithout(ifs: Interfaces, n: nat, cache: seq<nat>, k: nat)
    requires Cached(ifs, n, cache) && k < |cache|
    ensures Cached(ifs, n, Without(cache, k))
  {
  }

  lemma RoundOrders(ifs: Interfaces, n: nat, net: Net)
    requires InOrder(ifs, n, net.lines)
    ensures InOrder(ifs, n + 1, Round(ifs, n, net).lines)
  {
    var lines := Round(ifs, n, net).lines;
    forall i | 0 <= i < n + 1 && Addressed(ifs, i)
      ensures ShownIn(lines, i)
    {
      if i < n {
        var l :| 0 <= l < |net.lines| && net.lines[l].entry == i;
        assert lines[l].entry == i;
      } else {
        assert lines[|net.lines|].entry == i;
      }
    }
  }

  lemma UsedAppend(lines: seq<Line>, line: Line, i: nat)
    ensures UsedIn(lines + [line], i) <==> UsedIn(lines, i) || line.mac == Some(i)
  {
    var longer := lines + [line];
    assert longer[|lines|] == line;
    if UsedIn(lines, i) {
      var l :| 0 <= l < |lines| && lines[l].mac == Some(i);
      assert longer[l].mac == Some(i);
    }
  }

  lemma WithoutHolds(s: seq<nat>, k: nat, i: nat)
    requires k < |s| && i in s && i != s[k]
    ensures i in Without(s, k)
  {
  }

  lemma RoundAccounts(ifs: Interfaces, i: nat, net: Net)
    requires Cached(ifs, i, net.cache) && InOrder(ifs, i, net.lines) && Matched(ifs, net.lines)
             && Accounted(ifs, i, net)
    ensures var next := Round(ifs, i, net); Accounted(ifs, i + 1, next) && Matched(ifs, next.lines)
  {
    if Link(ifs, i) {
      assert ([i] + net.cache)[0] == i;
      assert forall j :: j in net.cache ==> j in [i] + net.cache;
      assert !UsedIn(net.lines, i);
    } else if Addressed(ifs, i) {
      var k := Find(ifs, net.cache, i, 0);
      if k == |net.cache| {
        forall j: nat
          ensures UsedIn(net.lines + [Line(i, None)], j) <==> UsedIn(net.lines, j)
        {
          UsedAppend(net.lines, Line(i, None), j);
        }
      } else {
        RoundUses(ifs, i, net, k);
      }
    }
  }

  lemma RoundUses(ifs: Interfaces, i: nat, net: Net, k: nat)
    requires Cached(ifs, i, net.cache) && InOrder(ifs, i, net.lines) && Matched(ifs, net.lines)
             && Accounted(ifs, i, net)
    requires Addressed(ifs, i) && k < |net.cache| && SameName(ifs, net.cache[k], i)
    ensures var m := net.cache[k];
            var next := Net(Without(net.cache, k), net.lines + [Line(i, Some(m))]);
            Accounted(ifs, i + 1, next) && Matched(ifs, next.lines)
  {
    var m := net.cache[k];
    UseAccounts(ifs, i, net, k, Line(i, Some(m)));
    assert !UsedIn(net.lines, m);
  }

  lemma UseAccounts(ifs: Interfaces, i: nat, net: Net, k: nat, line: Line)
    requires k < |net.cache| && line.mac == Some(net.cache[k]) && Cached(ifs, i, net.cache) && Accounted(ifs, i, net)
    requires !Link(ifs, i)
    ensures Accounted(ifs, i + 1, Net(Without(net.cache, k), net.lines + [line]))
  {
    var m, next := net.cache[k], Net(Without(net.cache, k), net.lines + [line]);
    forall j: nat
      ensures UsedIn(next.lines, j) <==> UsedIn(net.lines, j) || j == m
    {
      UsedAppend(net.lines, line, j);
    }
    forall j | 0 <= j < i + 1 && Link(ifs, j)
      ensures j in next.cache || UsedIn(next.lines, j)
    {
      if j in net.cache && j != m {
        WithoutHolds(net.cache, k, j);
      }
    }
  }

  lemma RoundRecent(ifs: Interfaces, n: nat, net: Net)
    requires Cached(ifs, n, net.cache) && Accounted(ifs, n, net) && MostRecent(ifs, net.lines)
    ensures MostRecent(ifs, Round(ifs, n, net).lines)
  {
    var lines := Round(ifs, n, net).lines;
    forall l, i: nat | 0 <= l < |lines| && PassedOver(ifs, lines[l], i)
      ensures UsedIn(lines[..l], i)
    {
      if l < |net.lines| {
        assert lines[..l] == net.lines[..l];
      } else {
        assert lines[..l] == net.lines;
        PassedOverIsUsed(ifs, n, net, i);
      }
    }
  }

  lemma PassedOverIsUsed(ifs: Interfaces, n: nat, net: Net, i: nat)
    requires Cached(ifs, n, net.cache) && Accounted(ifs, n, net) && Addressed(ifs, n)
    requires var lines := Round(ifs, n, net).lines; PassedOver(ifs, lines[|lines| - 1], i)
    ensures UsedIn(net.lines, i)
  {
  }

  ghost predicate Kept(ifs: Interfaces, n: nat, net: Net) {
    Cached(ifs, n, net.cache) && InOrder(ifs, n, net.lines) && Matched(ifs, net.lines) && Accounted(ifs, n, net)
    && MostRecent(ifs, net.lines)
  }

  lemma RoundKeeps(ifs: Interfaces, n: nat, net: Net)
    requires n > 0 && Kept(ifs, n - 1, net)
    ensures Kept(ifs, n, Round(ifs, n - 1, net))
  {
    RoundCaches(ifs, n - 1, net);
    RoundOrders(ifs, n - 1, net);
    RoundAccounts(ifs, n - 1, net);
    RoundRecent(ifs, n - 1, net);
  }

  /** Every round of every run keeps the invariant. */
  lemma {:induction false} AlwaysKept(ifs: Interfaces, n: nat)
    ensures Kept(ifs, n, UpTo(ifs, n))
  {
    if n > 0 {
      AlwaysKept(ifs, n - 1);
      RoundKeeps(ifs, n, UpTo(ifs, n - 1));
    }
  }

  // ----- the whole list

  /** The `l`-th line and no other uses the MAC of entry `i`. */
  predicate OnlyUse(lines: seq<Line>, l: nat, i: nat) {
    l < |lines| && lines[l].mac == Some(i) && forall m :: 0 <= m < |lines| && m != l ==> lines[m].mac != Some(i)
  }

  /** First every entry with an address, in order; then link-level entries with their own MAC, most recent first. */
  ghost predicate WellShown(ifs: Interfaces, lines: seq<Line>, split: nat) {
    split <= |lines| && InOrder(ifs, |ifs|, lines[..split])
    && (forall l :: split <= l < |lines| ==> Link(ifs, lines[l].entry) && lines[l].mac == Some(lines[l].entry))
    && forall l, m :: split <= l < m < |lines| ==> lines[m].entry < lines[l].entry
  }

  lemma LinesInOrder(ifs: Interfaces)
    ensures WellShown(ifs, Lines(ifs), |UpTo(ifs, |ifs|).lines|)
  {
    var net := UpTo(ifs, |ifs|);
    AlwaysKept(ifs, |ifs|);
    assert Lines(ifs)[..|net.lines|] == net.lines;
  }

  lemma CachedUse(ifs: Interfaces, net: Net, i: nat) returns (l: nat)
    requires Kept(ifs, |ifs|, net) && Link(ifs, i) && i in net.cache
    ensures OnlyUse(net.lines + Leftover(net.cache), l, i) && (net.lines + Leftover(net.cache))[l].entry == i
  {
    var lines := net.lines + Leftover(net.cache);
    var k :| 0 <= k < |net.cache| && net.cache[k] == i;
    l := |net.lines| + k;
    assert forall m :: 0 <= m < |net.lines| ==> lines[m] == net.lines[m];
  }

  lemma TakenUse(ifs: Interfaces, net: Net, i: nat) returns (l: nat)
    requires Kept(ifs, |ifs|, net) && Link(ifs, i) && i !in net.cache
    ensures OnlyUse(net.lines + Leftover(net.cache), l, i)
    ensures var j := (net.lines + Leftover(net.cache))[l].entry;
            j == i || (i < j && Addressed(ifs, j) && ifs[i].name == ifs[j].name)
  {
    var lines := net.lines + Leftover(net.cache);
    l :| 0 <= l < |net.lines| && net.lines[l].mac == Some(i);
    assert lines[l] == net.lines[l];
  }

  /** Every link-level entry gives its MAC to exactly one line: a later one of its name, or its own at the end. */
  lemma LinkUsedOnce(ifs: Interfaces, i: nat) returns (l: nat)
    requires Link(ifs, i)
    ensures OnlyUse(Lines(ifs), l, i)
    ensures var j := Lines(ifs)[l].entry; j == i || (i < j && Addressed(ifs, j) && ifs[i].name == ifs[j].name)
  {
    var net := UpTo(ifs, |ifs|);
    AlwaysKept(ifs, |ifs|);
    if i in net.cache {
      l := CachedUse(ifs, net, i);
    } else {
      l := TakenUse(ifs, net, i);
    }
  }

  /** No interface with an address of any kind is lost. */
  lemma NoNameLost(ifs: Interfaces, i: nat) returns (l: nat)
    requires i < |ifs| && !ifs[i].address.NoAddress?
    ensures l < |Lines(ifs)| && var j := Lines(ifs)[l].entry; j < |ifs| && ifs[j].name == ifs[i].name
  {
    if Link(ifs, i) {
      l := LinkUsedOnce(ifs, i);
    } else {
      AlwaysKept(ifs, |ifs|);
      var lines := UpTo(ifs, |ifs|).lines;
      assert ShownIn(lines, i);
      l :| 0 <= l < |lines| && lines[l].entry == i;
      assert Lines(ifs)[l] == lines[l];
    }
  }
}
