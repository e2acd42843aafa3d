/**
 The "ancestry" text read back: each process and its ancestors, with their process IDs and names.
 */
module AncestryReader {
  import opened Prelude
  import opened Numerals
  import opened Decoding
  import opened Ancestry
  import Parents

  datatype Ancestor = Ancestor(pid: nat, comm: string)

  /** How many characters come before the first quote. */
  function Unquoted(s: string): (n: nat)
    ensures n <= |s|
  {
    if s == "" || s[0] == '\'' then 0 else 1 + Unquoted(s[1..])
  }

  /** The name in quotes and brackets behind a process ID. */
  function ReadComm(pid: nat, s: string): (r: Option<Parsed<Ancestor>>)
    ensures r.Some? ==> |r.value.rest| < |s|
  {
    if !StartsWith(s, " ('") then None
    else
      var t := s[3..];
      var n := Unquoted(t);
      if StartsWith(t[n..], "')") then Some(Parsed(Ancestor(pid, t[..n]), t[n + 2..])) else None
  }

  function ReadAncestor(s: string): (r: Option<Parsed<Ancestor>>)
    ensures r.Some? ==> |r.value.rest| < |s|
  {
    match ReadNumber(s)
    case None => None
    case Some(Parsed(pid, rest)) => ReadComm(pid, rest)
  }

  function ReadAncestors(s: string): Option<seq<Ancestor>>
    decreases |s|, 1
  {
    match ReadAncestor(s)
    case None => None
    case Some(Parsed(a, rest)) => ReadMore(a, rest)
  }

  /** What may follow an ancestor: nothing, or a comma, a space and more ancestors. */
  function ReadMore(a: Ancestor, rest: string): Option<seq<Ancestor>>
    decreases |rest|, 2
  {
    if rest == "" then Some([a])
    else if !StartsWith(rest, ", ") then None
    else
      match ReadAncestors(rest[2..])
      case None => None
      case Some(more) => Some([a] + more)
  }

  // ----- reading what was written

  lemma {:induction false} UnquotedIs(comm: string, rest: string)
    requires '\'' !in comm
    ensures Unquoted(comm + ("'" + rest)) == |comm|
  {
    var s := comm + ("'" + rest);
    if comm != "" {
      assert s[0] == comm[0] && s[1..] == comm[1..] + ("'" + rest);
      UnquotedIs(comm[1..], rest);
    }
  }

  lemma CommRead(pid: nat, comm: string, rest: string)
    requires '\'' !in comm
    ensures ReadComm(pid, " ('" + (comm + ("')" + rest))) == Some(Parsed(Ancestor(pid, comm), rest))
  {
    var t := comm + ("')" + rest);
    var s := " ('" + t;
    assert s[..3] == " ('" && s[3..] == t;
    assert "')" + rest == "'" + (")" + rest);
    UnquotedIs(comm, ")" + rest);
    assert t[..|comm|] == comm && t[|comm|..] == "')" + rest && t[|comm| + 2..] == rest;
    assert ("')" + rest)[..2] == "')";
  }

  lemma ItemRead(p: Parents.Proc, rest: string)
    requires '\'' !in p.comm
    ensures ReadAncestor(Item(p) + rest) == Some(Parsed(Ancestor(p.pid, p.comm), rest))
  {
    var after := " ('" + (p.comm + ("')" + rest));
    ItemPieces(Numeral(10, p.pid), p.comm, rest);
    NumberRead(p.pid, after);
    CommRead(p.pid, p.comm, rest);
  }

  lemma ItemPieces(number: string, comm: string, rest: string)
    ensures number + " ('" + comm + "')" + rest == number + (" ('" + (comm + ("')" + rest)))
  {
  }

  lemma MoreRead(a: Ancestor, more: string, rs: seq<Ancestor>)
    requires ReadAncestors(more) == Some(rs)
    ensures ReadMore(a, ", " + more) == Some([a] + rs)
  {
    var rest := ", " + more;
    assert rest[..2] == ", " && rest[2..] == more;
  }

  // ----- the chain

  /** The processes of a chain, the first one first. */
  function Chain(t: Parents.Table, s: seq<nat>): seq<Ancestor>
    requires InTable(t, s)
  {
    if s == [] then [] else [Ancestor(t[s[0]].pid, t[s[0]].comm)] + Chain(t, s[1..])
  }

  lemma {:induction false} JoinedFirst(t: Parents.Table, s: seq<nat>)
    requires InTable(t, s) && |s| > 1
    ensures Joined(t, s) == Item(t[s[0]]) + ", " + Joined(t, s[1..])
    decreases |s|
  {
    var k := |s| - 1;
    var first, last, before, rest := Item(t[s[0]]), Item(t[s[k]]), s[..k], s[1..];
    assert Joined(t, s) == Joined(t, before) + (", " + last);
    if k == 1 {
      assert before[0] == s[0] && rest[0] == s[1];
      assert Joined(t, before) == first && Joined(t, rest) == last;
      Regroup(first, ", ", last);
    } else {
      JoinedFirst(t, before);
      assert before[1..] == rest[..k - 1] && rest[k - 1] == s[k];
      assert Joined(t, rest) == Joined(t, rest[..k - 1]) + (", " + last);
      Regroup(first + ", ", Joined(t, rest[..k - 1]), ", " + last);
    }
  }

  lemma {:induction false} JoinedRead(t: Parents.Table, s: seq<nat>)
    requires InTable(t, s) && s != [] && forall i :: 0 <= i < |t| ==> '\'' !in t[i].comm
    ensures ReadAncestors(Joined(t, s)) == Some(Chain(t, s))
    decreases |s|
  {
    var p := t[s[0]];
    if |s| == 1 {
      assert s[1..] == [] && Joined(t, s) == Item(p);
      assert Chain(t, s) == [Ancestor(p.pid, p.comm)];
      FirstRead(p, "");
      assert Item(p) + "" == Item(p);
    } else {
      var more := Joined(t, s[1..]);
      JoinedFirst(t, s);
      JoinedRead(t, s[1..]);
      FirstRead(p, ", " + more);
      Regroup(Item(p), ", ", more);
      MoreRead(Ancestor(p.pid, p.comm), more, Chain(t, s[1..]));
    }
  }

  lemma FirstRead(p: Parents.Proc, rest: string)
    requires '\'' !in p.comm
    ensures ReadAncestors(Item(p) + rest) == ReadMore(Ancestor(p.pid, p.comm), rest)
  {
    ItemRead(p, rest);
  }

  /**
   If no name holds a quote, the text of the walk reads back as the process and its ancestors in order, each with its
   own process ID and name.
   */
  lemma AncestryReadsBack(t: Parents.Table, self: nat)
    requires Parents.UniqueIds(t) && Parents.Ends(t, self, |t|) && Parents.Listed(t, self)
    requires forall i :: 0 <= i < |t| ==> '\'' !in t[i].comm
    ensures var w := Parents.Walk(t, self, |t|);
            InTable(t, w) && Built(t, self, w).Some? && ReadAncestors(Built(t, self, w).value) == Some(Chain(t, w))
  {
    AncestorsText(t, self);
    JoinedRead(t, Parents.Walk(t, self, |t|));
  }

  /** The text of ancestors: "%d ('%s')" for each, with a comma and a space between them. */
  function Written(rs: seq<Ancestor>): string
    requires rs != []
  {
    Numeral(10, rs[0].pid) + " ('" + rs[0].comm + "')" + if |rs| == 1 then "" else ", " + Written(rs[1..])
  }

  lemma {:induction false} JoinedIsWritten(t: Parents.Table, s: seq<nat>)
    requires InTable(t, s) && s != []
    ensures Chain(t, s) != [] && Joined(t, s) == Written(Chain(t, s))
    decreases |s|
  {
    var p := t[s[0]];
    if |s| == 1 {
      assert s[1..] == [] && Joined(t, s) == Item(p);
      assert Item(p) + "" == Item(p);
    } else {
      JoinedFirst(t, s);
      JoinedIsWritten(t, s[1..]);
      assert Chain(t, s)[1..] == Chain(t, s[1..]);
      Regroup(Item(p), ", ", Joined(t, s[1..]));
    }
  }

  /** Whatever the names hold, the text is that of the process and its ancestors in order. */
  lemma AncestryIsWritten(t: Parents.Table, self: nat)
    requires Parents.UniqueIds(t) && Parents.Ends(t, self, |t|) && Parents.Listed(t, self)
    ensures var w := Parents.Walk(t, self, |t|);
            InTable(t, w) && Chain(t, w) != [] && Built(t, self, w) == Some(Written(Chain(t, w)))
  {
    AncestorsText(t, self);
    JoinedIsWritten(t, Parents.Walk(t, self, |t|));
  }

  lemma SampleWalk(t: Parents.Table)
    requires t == [Parents.Proc(7, 1, "sh"), Parents.Proc(1, 0, "init")]
    ensures Parents.UniqueIds(t) && Parents.Ends(t, 7, 2) && Parents.Walk(t, 7, 2) == [0, 1]
  {
    assert Parents.Find(t, 7, 0) == 0 && Parents.Find(t, 1, 0) == 1 && Parents.Find(t, 0, 0) == 2;
    assert Parents.Ends(t, 0, 0) && Parents.Ends(t, 1, 1);
    assert Parents.Walk(t, 0, 0) == [] && Parents.Walk(t, 1, 1) == [1];
  }

  lemma SampleItems()
    ensures Item(Parents.Proc(7, 1, "sh")) == "7 ('sh')" && Item(Parents.Proc(1, 0, "init")) == "1 ('init')"
    ensures "7 ('sh')" + (", " + "1 ('init')") == "7 ('sh'), 1 ('init')"
  {
    assert Numeral(10, 7) == "7" && Numeral(10, 1) == "1";
  }

  lemma TwoBuilt(t: Parents.Table, self: nat)
    requires |t| == 2 && t[0].pid == self != t[1].pid
    ensures Built(t, self, [0, 1]) == Some(Item(t[0]) + (", " + Item(t[1])))
  {
    var none: seq<nat> := [];
    BuiltNext(t, self, none, 0);
    BuiltNext(t, self, [0], 1);
    Bare(Item(t[0]));
    assert none + [0] == [0] && [0] + [1] == [0, 1];
  }

  /** A shell started by init. */
  lemma AncestrySample(t: Parents.Table)
    requires t == [Parents.Proc(7, 1, "sh"), Parents.Proc(1, 0, "init")]
    ensures Parents.Ends(t, 7, |t|) && InTable(t, Parents.Walk(t, 7, |t|))
    ensures Built(t, 7, Parents.Walk(t, 7, |t|)) == Some("7 ('sh'), 1 ('init')")
  {
    SampleWalk(t);
    SampleItems();
    TwoBuilt(t, 7);
  }
}
