/**
 The cache loop of `show_network` in src/procenv.c on its doubly linked list of heap nodes. A node is `live` from its
 allocation until it is released; only a live node can be released, and its links read.
 */
module Network {
  import opened Prelude
  import opened Interfaces

  class CacheNode {
    var ifaddr: Interface
    var mac: Option<string>
    var next: CacheNode?
    var prev: CacheNode?
    ghost var live: bool

    constructor (ifaddr: Interface, mac: Option<string>)
      ensures this.ifaddr == ifaddr && this.mac == mac && next == null && prev == null && live
    {
      this.ifaddr, this.mac, next, prev, live := ifaddr, mac, null, null, true;
    }

    /** Reading a link: a released node must not be followed. */
    method Next() returns (n: CacheNode?)
      requires live
      ensures n == next
    {
      n := next;
    }

    method Prev() returns (n: CacheNode?)
      requires live
      ensures n == prev
    {
      n := prev;
    }

    /** `free` */
    method Free()
      requires live
      modifies this`live
      ensures !live
    {
      live := false;
    }
  }

  /** Distinct live nodes, linked in this order in both directions; the first is the head, which holds nothing. */
  ghost predicate Chain(ns: seq<CacheNode>)
    reads ns
  {
    |ns| > 0
    && (forall j, k :: 0 <= j < k < |ns| ==> ns[j] != ns[k])
    && (forall k :: 0 <= k < |ns| ==> ns[k].live)
    && (forall k {:trigger ns[k].next} :: 0 <= k < |ns| ==> ns[k].next == if k + 1 < |ns| then ns[k + 1] else null)
    && (forall k {:trigger ns[k].prev} :: 1 <= k < |ns| ==> ns[k].prev == ns[k - 1])
  }

  /** The nodes after the head hold these entries and their MACs. */
  ghost predicate Holds(ns: seq<CacheNode>, ifs: Interfaces, cache: seq<nat>)
    reads ns
  {
    |ns| == |cache| + 1
    && forall k :: 0 <= k < |cache| ==>
         Link(ifs, cache[k]) && ns[k + 1].ifaddr == ifs[cache[k]] && ns[k + 1].mac == ifs[cache[k]].address.mac
  }

  /** What `show_network_if` is given. */
  datatype Display = Display(ifaddr: Interface, mac: Option<string>)

  function DisplayOf(ifs: Interfaces, line: Line): Display
    requires line.entry < |ifs|
  {
    var m := line.mac;
    Display(ifs[line.entry], if m.Some? && Link(ifs, m.value) then ifs[m.value].address.mac else None)
  }

  /** What is shown for a line: its interface, with the MAC of the link-level entry of that name that the line used. */
  predicate ShownFor(ifs: Interfaces, line: Line, d: Display) {
    line.entry < |ifs| && d.ifaddr == ifs[line.entry]
    && match line.mac
       case None => d.mac == None
       case Some(m) =>
         m < |ifs| && ifs[m].address.LinkLevel? && ifs[m].name == d.ifaddr.name && d.mac == ifs[m].address.mac
  }

  predicate InRange(ifs: Interfaces, lines: seq<Line>) {
    forall l :: 0 <= l < |lines| ==> lines[l].entry < |ifs|
  }

  function Displayed(ifs: Interfaces, lines: seq<Line>): seq<Display>
    requires InRange(ifs, lines)
  {
    seq(|lines|, l requires 0 <= l < |lines| => DisplayOf(ifs, lines[l]))
  }

  // ----- one node at a time

  /** Adds a node right after the head. */
  method Prepend(head: CacheNode, node: CacheNode, ghost ns: seq<CacheNode>)
    requires Chain(ns) && ns[0] == head && node !in ns && node.live
    modifies head`next, (if head.next == null then {} else {head.next})`prev, node`next, node`prev
    ensures Chain([head, node] + ns[1..])
  {
    var first := head.Next();
    node.next := first;
    if first != null {
      first.prev := node;
    }
    node.prev := head;
    head.next := node;
  }

  lemma GoneFrom(ns: seq<CacheNode>, k: nat)
    requires Chain(ns) && k < |ns|
    ensures ns[k] !in Without(ns, k)
  {
  }

  /** The neighbours are linked to each other. */
  method Bypass(node: CacheNode, ghost ns: seq<CacheNode>, ghost k: nat)
    requires Chain(ns) && 1 <= k < |ns| && ns[k] == node
    modifies node.prev`next, (if node.next == null then {} else {node.next})`prev
    ensures Chain(Without(ns, k))
  {
    var before := node.Prev();
    var after := node.Next();
    assert before == ns[k - 1] && after == if k + 1 < |ns| then ns[k + 1] else null;
    before.next := after;
    if after != null {
      after.prev := before;
    }
  }

  /** Takes the node at `k` out of the list and releases it. */
  method Unlink(node: CacheNode, ghost ns: seq<CacheNode>, ghost k: nat)
    requires Chain(ns) && 1 <= k < |ns| && ns[k] == node
    modifies node.prev`next, (if node.next == null then {} else {node.next})`prev, node`live
    ensures Chain(Without(ns, k)) && !node.live
  {
    GoneFrom(ns, k);
    Bypass(node, ns, k);
    node.Free();
  }

  /** The first cached node with the name of entry `i`. */
  method Search(head: CacheNode, ifs: Interfaces, i: nat, ghost ns: seq<CacheNode>, ghost cache: seq<nat>)
    returns (node: CacheNode?, ghost k: nat)
    requires Chain(ns) && ns[0] == head && Holds(ns, ifs, cache) && i < |ifs|
    ensures k == Find(ifs, cache, i, 0) && node == if k < |cache| then ns[k + 1] else null
  {
    node := head.Next();
    k := 0;
    while node != null && node.ifaddr.name != ifs[i].name
      invariant k <= |cache| && node == (if k < |cache| then ns[k + 1] else null)
      invariant Find(ifs, cache, i, k) == Find(ifs, cache, i, 0)
      decreases |cache| - k
    {
      node := node.Next();
      k := k + 1;
    }
  }

  // ----- one round

  /** A link-level entry goes to the front of the cache. */
  method Remember(head: CacheNode, ifs: Interfaces, i: nat, ghost ns: seq<CacheNode>, ghost cache: seq<nat>)
    returns (node: CacheNode)
    requires Chain(ns) && ns[0] == head && Holds(ns, ifs, cache) && Link(ifs, i)
    modifies ns
    ensures fresh(node) && Chain([head, node] + ns[1..]) && Holds([head, node] + ns[1..], ifs, [i] + cache)
  {
    node := new CacheNode(ifs[i], ifs[i].address.mac);
    Prepend(head, node, ns);
  }

  /** The MAC cached for entry `i`, if any; its node is used up. */
  method TakeMac(head: CacheNode, ifs: Interfaces, i: nat, ghost ns: seq<CacheNode>, ghost cache: seq<nat>)
    returns (mac: Option<string>, ghost k: nat)
    requires Chain(ns) && ns[0] == head && Holds(ns, ifs, cache) && i < |ifs|
    modifies ns
    ensures k == Find(ifs, cache, i, 0)
    ensures k == |cache| ==> mac == None && Chain(ns) && Holds(ns, ifs, cache)
    ensures k < |cache| ==> Link(ifs, cache[k]) && mac == ifs[cache[k]].address.mac && !ns[k + 1].live
                            && Chain(Without(ns, k + 1)) && Holds(Without(ns, k + 1), ifs, Without(cache, k))
  {
    var node;
    node, k := Search(head, ifs, i, ns, cache);
    if node == null {
      return None, k;
    }
    mac := node.mac;
    Unlink(node, ns, k + 1);
  }

  // ----- the leftover nodes

  /** The last loop: shows every node that is left and releases it, its successor saved before. */
  method Drain(head: CacheNode, ifs: Interfaces, ghost ns: seq<CacheNode>, ghost cache: seq<nat>)
      returns (shown: seq<Display>)
    requires Chain(ns) && ns[0] == head && Holds(ns, ifs, cache)
    modifies ns`live
    ensures InRange(ifs, Leftover(cache)) && shown == Displayed(ifs, Leftover(cache))
    ensures |shown| == |cache| && forall j :: 0 <= j < |cache| ==>
              Link(ifs, cache[j]) && shown[j] == Display(ifs[cache[j]], ifs[cache[j]].address.mac)
    ensures forall k :: 0 <= k < |ns| ==> !ns[k].live
  {
    shown := [];
    var node := head.Next();
    ghost var k := 1;
    while node != null
      invariant 1 <= k <= |ns| && node == (if k < |ns| then ns[k] else null)
      invariant ns[0].live && forall j :: k <= j < |ns| ==> ns[j].live
      invariant forall j :: 1 <= j < k ==> !ns[j].live
      invariant |shown| == k - 1
      invariant forall j :: 0 <= j < k - 1 ==> shown[j] == Display(ifs[cache[j]], ifs[cache[j]].address.mac)
      decreases |ns| - k
    {
      var tmp := node.Next();
      shown := shown + [Display(node.ifaddr, node.mac)];
      node.Free();
      node, k := tmp, k + 1;
    }
    head.Free();
  }

  // ----- the whole list

  /** Every node ever allocated is still in the list or has been released. */
  ghost predicate Tracked(made: set<CacheNode>, ns: seq<CacheNode>)
    reads made
  {
    (forall k :: 0 <= k < |ns| ==> ns[k] in made) && forall n :: n in made ==> n in ns || !n.live
  }

  /** What a round shows: nothing, or the line it adds. */
  ghost predicate Shows(ifs: Interfaces, i: nat, net: Net, shown: seq<Display>)
    requires i < |ifs|
  {
    var next := Round(ifs, i, net);
    if Addressed(ifs, i) then
      |next.lines| == |net.lines| + 1 && shown == [DisplayOf(ifs, next.lines[|net.lines|])]
    else shown == []
  }

  method Visit(head: CacheNode, ifs: Interfaces, i: nat, ghost ns: seq<CacheNode>, ghost net: Net,
               ghost made: set<CacheNode>)
    returns (shown: seq<Display>, ghost rest: seq<CacheNode>, ghost grown: set<CacheNode>)
    requires Chain(ns) && ns[0] == head && Holds(ns, ifs, net.cache) && i < |ifs| && Tracked(made, ns)
    modifies ns
    ensures Chain(rest) && rest[0] == head && Holds(rest, ifs, Round(ifs, i, net).cache)
    ensures Shows(ifs, i, net, shown)
    ensures Tracked(grown, rest) && made <= grown && fresh(grown - made)
  {
    shown, rest, grown := [], ns, made;
    match ifs[i].address {
      case NoAddress =>
      case LinkLevel(_) =>
        var node := Remember(head, ifs, i, ns, net.cache);
        rest, grown := [head, node] + ns[1..], made + {node};
        RememberTracks(made, ns, node);
      case Inet(_) =>
        var mac, k := TakeMac(head, ifs, i, ns, net.cache);
        shown := [Display(ifs[i], mac)];
        if k < |net.cache| {
          rest := Without(ns, k + 1);
          TakeTracks(made, ns, k + 1);
        }
    }
  }

  lemma RememberTracks(made: set<CacheNode>, ns: seq<CacheNode>, node: CacheNode)
    requires Tracked(made, ns) && ns != []
    ensures Tracked(made + {node}, [ns[0], node] + ns[1..])
  {
  }

  lemma TakeTracks(made: set<CacheNode>, ns: seq<CacheNode>, k: nat)
    requires Tracked(made, ns) && k < |ns| && !ns[k].live
    ensures Tracked(made, Without(ns, k))
  {
  }

  lemma RoundDisplayed(ifs: Interfaces, i: nat, net: Net, shown: seq<Display>)
    requires i < |ifs| && InRange(ifs, net.lines) && Shows(ifs, i, net, shown)
    ensures var next := Round(ifs, i, net);
            InRange(ifs, next.lines) && Displayed(ifs, next.lines) == Displayed(ifs, net.lines) + shown
  {
  }

  /** The loop over the interfaces. */
  method VisitAll(head: CacheNode, ifs: Interfaces)
    returns (shown: seq<Display>, ghost ns: seq<CacheNode>, ghost made: set<CacheNode>)
    requires Chain([head])
    modifies head
    ensures Chain(ns) && ns[0] == head && Holds(ns, ifs, UpTo(ifs, |ifs|).cache)
    ensures var lines := UpTo(ifs, |ifs|).lines; InRange(ifs, lines) && shown == Displayed(ifs, lines)
    ensures Tracked(made, ns) && fresh(made - {head})
  {
    ghost var net := Net([], []);
    shown, ns, made := [], [head], {head};
    for i := 0 to |ifs|
      invariant Chain(ns) && ns[0] == head && Holds(ns, ifs, net.cache) && net == UpTo(ifs, i)
      invariant InRange(ifs, net.lines) && shown == Displayed(ifs, net.lines)
      invariant Tracked(made, ns) && fresh(made - {head})
    {
      var more;
      more, ns, made := Visit(head, ifs, i, ns, net, made);
      RoundDisplayed(ifs, i, net, more);
      shown := shown + more;
      net := Round(ifs, i, net);
    }
  }

  lemma LinesDisplayed(ifs: Interfaces)
    requires InRange(ifs, UpTo(ifs, |ifs|).lines) && InRange(ifs, Leftover(UpTo(ifs, |ifs|).cache))
    ensures var net := UpTo(ifs, |ifs|);
            InRange(ifs, Lines(ifs))
            && Displayed(ifs, Lines(ifs)) == Displayed(ifs, net.lines) + Displayed(ifs, Leftover(net.cache))
  {
  }

  lemma LinesShown(ifs: Interfaces, l: nat)
    requires InRange(ifs, Lines(ifs)) && l < |Lines(ifs)|
    ensures ShownFor(ifs, Lines(ifs)[l], Displayed(ifs, Lines(ifs))[l])
  {
    var net := UpTo(ifs, |ifs|);
    AlwaysKept(ifs, |ifs|);
    if l < |net.lines| {
      assert Lines(ifs)[l] == net.lines[l];
    } else {
      assert Lines(ifs)[l] == Leftover(net.cache)[l - |net.lines|];
    }
  }

  /**
   `show_network`: one interface for each line that module Interfaces has for the list, with the MAC of the link-level
   entry the line used; and when it returns every cache node it allocated has been released. A released node is not
   live, so none is released twice.
   */
  method ShowNetwork(ifs: Interfaces) returns (shown: seq<Display>, ghost made: set<CacheNode>)
    ensures InRange(ifs, Lines(ifs)) && shown == Displayed(ifs, Lines(ifs))
    ensures |shown| == |Lines(ifs)| && forall l :: 0 <= l < |shown| ==> ShownFor(ifs, Lines(ifs)[l], shown[l])
    ensures fresh(made) && forall n :: n in made ==> !n.live
  {
    var head := new CacheNode(Interface("", NoAddress), None);
    ghost var ns;
    shown, ns, made := VisitAll(head, ifs);
    var rest := Drain(head, ifs, ns, UpTo(ifs, |ifs|).cache);
    LinesDisplayed(ifs);
    shown := shown + rest;
    forall l | 0 <= l < |shown|
      ensures ShownFor(ifs, Lines(ifs)[l], shown[l])
    {
      LinesShown(ifs, l);
    }
  }

  /** A link-level entry and an address of the same interface: one line, with the MAC. */
  lemma OneInterface(ifs: Interfaces, name: string, mac: Option<string>, text: string)
    requires ifs == [Interface(name, LinkLevel(mac)), Interface(name, Inet(text))]
    ensures InRange(ifs, Lines(ifs)) && Displayed(ifs, Lines(ifs)) == [Display(ifs[1], mac)]
  {
    var empty := Net([], []);
    assert UpTo(ifs, 0) == empty;
    assert UpTo(ifs, 1) == Net([0], []);
    assert Find(ifs, [0], 1, 0) == 0;
    assert UpTo(ifs, 2) == Net([], [Line(1, Some(0))]);
    assert Lines(ifs) == [Line(1, Some(0))];
  }
}
