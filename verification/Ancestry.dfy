/**
 The ancestor walk of `handle_proc_branch_freebsd` (src/platform/freebsd/platform.c): nested loops over the process
 table that build the "ancestry" text.
 */
module Ancestry {
  import opened Prelude
  import opened Numerals
  import opened Parents

  predicate InTable(t: Table, s: seq<nat>) {
    forall i :: 0 <= i < |s| ==> s[i] < |t|
  }

  /** The conversion "%d ('%s')". */
  function Item(p: Proc): string {
    Numeral(10, p.pid) + " ('" + p.comm + "')"
  }

  /** The string after these entries: null at first, and no separator before the process itself. */
  function Built(t: Table, self: nat, s: seq<nat>): Option<string>
    requires InTable(t, s)
  {
    if s == [] then None
    else
      var p, before := t[s[|s| - 1]], Built(t, self, s[..|s| - 1]);
      Some((if before.None? then "" else before.value) + ((if p.pid == self then "" else ", ") + Item(p)))
  }

  /** The items of a chain, separated by commas. */
  function Joined(t: Table, s: seq<nat>): string
    requires InTable(t, s) && s != []
  {
    var item := Item(t[s[|s| - 1]]);
    if |s| == 1 then item else Joined(t, s[..|s| - 1]) + (", " + item)
  }

  /** In a chain that ends, the separators fall exactly between the items. */
  lemma {:induction false} BuiltIsJoined(t: Table, self: nat, s: seq<nat>, end: nat, n: nat)
    requires UniqueIds(t) && Path(t, self, s, end) && Ends(t, self, n) && s != [] && InTable(t, s)
    ensures Built(t, self, s) == Some(Joined(t, s))
    decreases |s|
  {
    var k := |s| - 1;
    var item := Item(t[s[k]]);
    EndedIsDistinct(t, self, s, end, n);
    if k == 0 {
      assert s[..0] == [];
      Bare(item);
    } else {
      PathPrefix(t, self, s, end, k);
      BuiltIsJoined(t, self, s[..k], t[s[k]].pid, n);
      assert s[0] != s[k];
    }
  }

  lemma Bare(s: string)
    ensures "" + ("" + s) == s
  {
  }

  /** One `appendf` of the scan. */
  method AppendItem(t: Table, self: nat, str: Option<string>, i: nat, ghost s: seq<nat>)
      returns (longer: Option<string>)
    requires InTable(t, s) && str == Built(t, self, s) && i < |t|
    ensures InTable(t, s + [i]) && longer == Built(t, self, s + [i])
  {
    BuiltNext(t, self, s, i);
    var text := (if t[i].pid == self then "" else ", ") + Item(t[i]);
    longer := Some((if str.None? then "" else str.value) + text);
  }

  /** The `for` loop: one scan of the table. */
  method ScanTable(t: Table, self: nat, start: nat, str0: Option<string>, ghost seen0: seq<nat>)
    returns (find: nat, found: bool, str: Option<string>)
    requires InTable(t, seen0) && str0 == Built(t, self, seen0)
    ensures var sweep := Scan(t, 0, start);
            find == sweep.next && found == (sweep.seen != [])
            && InTable(t, seen0 + sweep.seen) && str == Built(t, self, seen0 + sweep.seen)
  {
    find, found, str := start, false, str0;
    ghost var seen: seq<nat> := seen0;
    for i := 0 to |t|
      invariant InTable(t, seen) && str == Built(t, self, seen)
      invariant |seen0| <= |seen| && found == (|seen| > |seen0|)
      invariant ScanOnto(t, i, find, seen) == ScanOnto(t, 0, start, seen0)
    {
      if t[i].pid == find {
        str := AppendItem(t, self, str, i, seen);
        seen := seen + [i];
        find := t[i].ppid;
        found := true;
      }
    }
    ScanOntoIs(t, 0, start, seen0);
  }

  /** The scan that adds to the entries found before. */
  function ScanOnto(t: Table, i: nat, find: nat, seen: seq<nat>): Sweep
    requires i <= |t|
    decreases |t| - i
  {
    if i == |t| then Sweep(find, seen)
    else if t[i].pid != find then ScanOnto(t, i + 1, find, seen)
    else ScanOnto(t, i + 1, t[i].ppid, seen + [i])
  }

  lemma {:induction false} ScanOntoIs(t: Table, i: nat, find: nat, seen: seq<nat>)
    requires i <= |t|
    ensures var sweep := Scan(t, i, find); ScanOnto(t, i, find, seen) == Sweep(sweep.next, seen + sweep.seen)
    decreases |t| - i
  {
    if i == |t| {
      assert seen + [] == seen;
    } else if t[i].pid != find {
      ScanOntoIs(t, i + 1, find, seen);
    } else {
      ScanOntoIs(t, i + 1, t[i].ppid, seen + [i]);
      RestOfScan(seen, i, Scan(t, i + 1, t[i].ppid).seen);
    }
  }

  lemma BuiltNext(t: Table, self: nat, s: seq<nat>, i: nat)
    requires InTable(t, s) && i < |t|
    ensures InTable(t, s + [i])
    ensures var before := Built(t, self, s);
            Built(t, self, s + [i])
            == Some((if before.None? then "" else before.value)
                    + ((if t[i].pid == self then "" else ", ") + Item(t[i])))
  {
  }

  lemma RestOfScan(seen: seq<nat>, i: nat, rest: seq<nat>)
    ensures seen + ([i] + rest) == seen + [i] + rest
  {
  }

  lemma StillRunning(t: Table, self: nat, m: nat)
    requires UniqueIds(t) && NoKernel(t) && Acyclic(t, self) && After(t, self, m).Running?
    ensures m <= |t|
  {
    var loop := After(t, self, m);
    EndsIffAcyclic(t, self);
    AlwaysFollows(t, self, m);
    Progress(t, self, m);
    EndsAfter(t, self, loop.seen, loop.next, |t|);
  }

  /** The outer loop stops for every acyclic table, in any order, with the text of the walk. */
  method FindAncestors(t: Table, self: nat) returns (str: Option<string>)
    requires UniqueIds(t) && NoKernel(t) && Acyclic(t, self)
    ensures Ends(t, self, |t|) && InTable(t, Walk(t, self, |t|)) && str == Built(t, self, Walk(t, self, |t|))
  {
    var find := self;
    var found := true;
    str := None;
    ghost var m, seen := 0, [];
    while true
      invariant After(t, self, m) == Running(find, seen) && m <= |t|
      invariant InTable(t, seen) && str == Built(t, self, seen)
      decreases |t| - m
    {
      ghost var sweep := Scan(t, 0, find);
      find, found, str := ScanTable(t, self, find, str, seen);
      seen, m := seen + sweep.seen, m + 1;
      if !found || find == 0 {
        StoppedIsWalk(t, self, m);
        return;
      }
      StillRunning(t, self, m);
    }
  }

  /** If the process itself is in the table, the text is its ancestors' items, separated by commas. */
  lemma AncestorsText(t: Table, self: nat)
    requires UniqueIds(t) && Ends(t, self, |t|) && Listed(t, self)
    ensures var w := Walk(t, self, |t|); InTable(t, w) && w != [] && Built(t, self, w) == Some(Joined(t, w))
  {
    var end := WalkIsPath(t, self, |t|);
    PathInTable(t, self, Walk(t, self, |t|), end);
    BuiltIsJoined(t, self, Walk(t, self, |t|), end, |t|);
  }

  lemma {:induction false} WalkIsPath(t: Table, pid: nat, n: nat) returns (end: nat)
    requires Ends(t, pid, n)
    ensures Path(t, pid, Walk(t, pid, n), end) && !Listed(t, end)
    decreases n
  {
    if Listed(t, pid) {
      end := WalkIsPath(t, t[Entry(t, pid)].ppid, n - 1);
      var w := Walk(t, pid, n);
      assert w[1..] == Walk(t, t[Entry(t, pid)].ppid, n - 1);
    } else {
      end := pid;
    }
  }
}
