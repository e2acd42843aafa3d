/**
 Parent chains in a process table, and what the nested loops of `handle_proc_branch_freebsd`
 (src/platform/freebsd/platform.c) find of one.
 */
module Parents {
  datatype Proc = Proc(pid: nat, ppid: nat, comm: string)

  type Table = seq<Proc>

  predicate UniqueIds(t: Table) {
    forall i, j :: 0 <= i < j < |t| ==> t[i].pid != t[j].pid
  }

  /** The kernel's process 0 is only ever mentioned as a parent. */
  predicate NoKernel(t: Table) {
    forall i :: 0 <= i < |t| ==> t[i].pid != 0
  }

  // ----- one lookup at a time

  /** The first entry from `i` on for the process, or the size of the table. */
  function Find(t: Table, pid: nat, i: nat): (r: nat)
    requires i <= |t|
    ensures i <= r <= |t|
    ensures r < |t| ==> t[r].pid == pid
    ensures forall j :: i <= j < r ==> t[j].pid != pid
    decreases |t| - i
  {
    if i == |t| || t[i].pid == pid then i else Find(t, pid, i + 1)
  }

  predicate Listed(t: Table, pid: nat) {
    Find(t, pid, 0) < |t|
  }

  function Entry(t: Table, pid: nat): (i: nat)
    requires Listed(t, pid)
    ensures i < |t| && t[i].pid == pid
  {
    Find(t, pid, 0)
  }

  /** The chain leaves the table after at most `n` lookups. */
  predicate Ends(t: Table, pid: nat, n: nat)
    decreases n
  {
    !Listed(t, pid) || (n > 0 && Ends(t, t[Entry(t, pid)].ppid, n - 1))
  }

  /** The process, its parent, and so on until one is not in the table. */
  function Walk(t: Table, pid: nat, n: nat): seq<nat>
    requires Ends(t, pid, n)
    decreases n
  {
    if !Listed(t, pid) then [] else [Entry(t, pid)] + Walk(t, t[Entry(t, pid)].ppid, n - 1)
  }

  /** A piece of a chain: these entries, from `pid` up to but not including `end`. */
  predicate Path(t: Table, pid: nat, s: seq<nat>, end: nat)
    decreases |s|
  {
    if s == [] then pid == end
    else Listed(t, pid) && s[0] == Entry(t, pid) && Path(t, t[s[0]].ppid, s[1..], end)
  }

  lemma {:induction false} PathConcat(t: Table, pid: nat, a: seq<nat>, mid: nat, b: seq<nat>, end: nat)
    requires Path(t, pid, a, mid) && Path(t, mid, b, end)
    ensures Path(t, pid, a + b, end)
    decreases |a|
  {
    if a == [] {
      assert a + b == b;
    } else {
      assert (a + b)[0] == a[0] && (a + b)[1..] == a[1..] + b;
      PathConcat(t, t[a[0]].ppid, a[1..], mid, b, end);
    }
  }

  lemma PathOne(t: Table, pid: nat)
    requires Listed(t, pid)
    ensures Path(t, pid, [Entry(t, pid)], t[Entry(t, pid)].ppid)
  {
  }

  /** A piece of a chain uses up that many lookups. */
  lemma {:induction false} EndsAfter(t: Table, pid: nat, s: seq<nat>, end: nat, n: nat)
    requires Path(t, pid, s, end) && Ends(t, pid, n)
    ensures |s| <= n && Ends(t, end, n - |s|)
    decreases |s|
  {
    if s != [] {
      EndsAfter(t, t[s[0]].ppid, s[1..], end, n - 1);
    }
  }

  /** A complete piece of a chain is the walk. */
  lemma {:induction false} PathIsWalk(t: Table, pid: nat, s: seq<nat>, end: nat, n: nat)
    requires Path(t, pid, s, end) && !Listed(t, end) && |s| <= n
    ensures Ends(t, pid, n) && s == Walk(t, pid, n)
    decreases |s|
  {
    if s != [] {
      PathIsWalk(t, t[s[0]].ppid, s[1..], end, n - 1);
      assert s == [s[0]] + s[1..];
    }
  }

  // ----- a chain ends exactly when no process is its own ancestor

  predicate Distinct(s: seq<nat>) {
    forall i, j :: 0 <= i < j < |s| ==> s[i] != s[j]
  }

  /** No process occurs twice among the ancestors. */
  ghost predicate Acyclic(t: Table, pid: nat) {
    forall s, end :: Path(t, pid, s, end) ==> Distinct(s)
  }

  lemma {:induction false} NoCycle(t: Table, pid: nat, s: seq<nat>, n: nat)
    requires Path(t, pid, s, pid) && Ends(t, pid, n)
    ensures s == []
    decreases n
  {
    if s != [] {
      EndsAfter(t, pid, s, pid, n);
      NoCycle(t, pid, s, n - |s|);
    }
  }

  /** The entries before position `k` lead to the process at `k`. */
  lemma {:induction false} PathPrefix(t: Table, pid: nat, s: seq<nat>, end: nat, k: nat)
    requires Path(t, pid, s, end) && k < |s|
    ensures s[k] < |t| && Path(t, pid, s[..k], t[s[k]].pid)
    decreases |s|
  {
    if k > 0 {
      PathPrefix(t, t[s[0]].ppid, s[1..], end, k - 1);
      assert s[..k][0] == s[0] && s[..k][1..] == s[1..][..k - 1];
    }
  }

  lemma {:induction false} EndedIsDistinct(t: Table, pid: nat, s: seq<nat>, end: nat, n: nat)
    requires Path(t, pid, s, end) && Ends(t, pid, n)
    ensures Distinct(s)
    decreases |s|
  {
    if s != [] {
      EndedIsDistinct(t, t[s[0]].ppid, s[1..], end, n - 1);
      forall k | 1 <= k < |s|
        ensures s[k] != s[0]
      {
        FirstIsNew(t, pid, s, end, n, k);
      }
      assert forall i, j :: 1 <= i < j < |s| ==> s[i] == s[1..][i - 1] && s[j] == s[1..][j - 1];
    }
  }

  lemma FirstIsNew(t: Table, pid: nat, s: seq<nat>, end: nat, n: nat, k: nat)
    requires Path(t, pid, s, end) && Ends(t, pid, n) && 1 <= k < |s|
    ensures s[k] != s[0]
  {
    PathPrefix(t, pid, s, end, k);
    if s[k] == s[0] {
      NoCycle(t, pid, s[..k], n);
    }
  }

  lemma {:induction false} Pigeonhole(s: seq<nat>, n: nat)
    requires Distinct(s) && forall i :: 0 <= i < |s| ==> s[i] < n
    ensures |s| <= n
    decreases n
  {
    assert s == [] || s[0] < n;
    if n > 0 && n - 1 in s {
      var k :| 0 <= k < |s| && s[k] == n - 1;
      var rest := s[..k] + s[k + 1..];
      Pigeonhole(rest, n - 1);
    } else if n > 0 {
      Pigeonhole(s, n - 1);
    }
  }

  lemma {:induction false} PathInTable(t: Table, pid: nat, s: seq<nat>, end: nat)
    requires Path(t, pid, s, end)
    ensures forall i :: 0 <= i < |s| ==> s[i] < |t|
    decreases |s|
  {
    if s != [] {
      PathInTable(t, t[s[0]].ppid, s[1..], end);
      assert forall i :: 1 <= i < |s| ==> s[i] == s[1..][i - 1];
    }
  }

  lemma {:induction false} AcyclicFrom(t: Table, pid: nat, s: seq<nat>, mid: nat, n: nat)
    requires Acyclic(t, pid) && Path(t, pid, s, mid) && |s| + n == |t|
    ensures Ends(t, mid, n)
    decreases n
  {
    if Listed(t, mid) {
      var i := Entry(t, mid);
      PathOne(t, mid);
      PathConcat(t, pid, s, mid, [i], t[i].ppid);
      PathInTable(t, pid, s + [i], t[i].ppid);
      Pigeonhole(s + [i], |t|);
      AcyclicFrom(t, pid, s + [i], t[i].ppid, n - 1);
    }
  }

  /** A chain leaves the table if and only if it is acyclic, and then within as many lookups as there are processes. */
  lemma EndsIffAcyclic(t: Table, pid: nat)
    ensures Acyclic(t, pid) <==> Ends(t, pid, |t|)
    ensures forall n: nat :: Ends(t, pid, n) ==> Acyclic(t, pid)
  {
    if Acyclic(t, pid) {
      AcyclicFrom(t, pid, [], pid, |t|);
    }
    forall n: nat | Ends(t, pid, n)
      ensures Acyclic(t, pid)
    {
      forall s, end | Path(t, pid, s, end)
        ensures Distinct(s)
      {
        EndedIsDistinct(t, pid, s, end, n);
      }
    }
  }

  // ----- the loops

  /** One scan of the table: the process looked for afterwards, and the entries found. */
  datatype Sweep = Sweep(next: nat, seen: seq<nat>)

  /** The scan from entry `i`; finding a process makes the rest of the scan look for its parent. */
  function Scan(t: Table, i: nat, find: nat): Sweep
    requires i <= |t|
    decreases |t| - i
  {
    if i == |t| then Sweep(find, [])
    else if t[i].pid != find then Scan(t, i + 1, find)
    else
      var rest := Scan(t, i + 1, t[i].ppid);
      Sweep(rest.next, [i] + rest.seen)
  }

  datatype Loop = Running(next: nat, seen: seq<nat>) | Stopped(seen: seq<nat>)

  function Again(t: Table, loop: Loop): Loop {
    if loop.Stopped? then loop
    else
      var sweep := Scan(t, 0, loop.next);
      var seen := loop.seen + sweep.seen;
      if sweep.seen == [] || sweep.next == 0 then Stopped(seen) else Running(sweep.next, seen)
  }

  /** The outer loop after `m` scans. */
  function After(t: Table, self: nat, m: nat): Loop {
    if m == 0 then Running(self, []) else Again(t, After(t, self, m - 1))
  }

  lemma UniqueEntry(t: Table, i: nat)
    requires UniqueIds(t) && i < |t|
    ensures Listed(t, t[i].pid) && Entry(t, t[i].pid) == i
  {
  }

  /** However many generations a scan finds, they are the next ones of the chain, and it finds one if there is one. */
  lemma {:induction false} ScanIsPath(t: Table, i: nat, find: nat)
    requires UniqueIds(t) && i <= |t|
    ensures var sweep := Scan(t, i, find); Path(t, find, sweep.seen, sweep.next)
    ensures Find(t, find, i) < |t| <==> Scan(t, i, find).seen != []
    decreases |t| - i
  {
    if i < |t| {
      if t[i].pid != find {
        ScanIsPath(t, i + 1, find);
      } else {
        UniqueEntry(t, i);
        ScanIsPath(t, i + 1, t[i].ppid);
        var rest := Scan(t, i + 1, t[i].ppid);
        assert ([i] + rest.seen)[1..] == rest.seen;
      }
    }
  }

  /** The loop so far has followed the chain, and it has stopped only where the chain leaves the table. */
  ghost predicate Following(t: Table, self: nat, loop: Loop) {
    match loop
    case Running(next, seen) => Path(t, self, seen, next)
    case Stopped(seen) => exists end :: Path(t, self, seen, end) && !Listed(t, end)
  }

  lemma AgainFollows(t: Table, self: nat, loop: Loop)
    requires UniqueIds(t) && NoKernel(t) && Following(t, self, loop)
    ensures Following(t, self, Again(t, loop))
  {
    if loop.Running? {
      var sweep := Scan(t, 0, loop.next);
      ScanIsPath(t, 0, loop.next);
      PathConcat(t, self, loop.seen, loop.next, sweep.seen, sweep.next);
      assert sweep.seen == [] ==> !Listed(t, sweep.next);
      assert !Listed(t, 0);
    }
  }

  lemma {:induction false} AlwaysFollows(t: Table, self: nat, m: nat)
    requires UniqueIds(t) && NoKernel(t)
    ensures Following(t, self, After(t, self, m))
  {
    if m > 0 {
      AlwaysFollows(t, self, m - 1);
      AgainFollows(t, self, After(t, self, m - 1));
    }
  }

  /** Each scan that does not stop the loop goes up at least one generation. */
  lemma {:induction false} Progress(t: Table, self: nat, m: nat)
    requires UniqueIds(t)
    ensures After(t, self, m).Running? ==> |After(t, self, m).seen| >= m
  {
    if m > 0 {
      Progress(t, self, m - 1);
    }
  }

  /**
   For any order of the table: the loop stops if and only if no process is its own ancestor, and whenever it stops it
   has found exactly what a walk that looks up one process at a time finds.
   */
  lemma ScansAreTheWalk(t: Table, self: nat)
    requires UniqueIds(t) && NoKernel(t)
    ensures Acyclic(t, self) <==> exists m: nat :: After(t, self, m).Stopped?
    ensures forall m: nat :: After(t, self, m).Stopped? ==>
      Ends(t, self, |t|) && After(t, self, m).seen == Walk(t, self, |t|)
  {
    EndsIffAcyclic(t, self);
    forall m: nat | After(t, self, m).Stopped?
      ensures Ends(t, self, |t|) && After(t, self, m).seen == Walk(t, self, |t|)
    {
      StoppedIsWalk(t, self, m);
    }
    if Acyclic(t, self) {
      Stops(t, self);
    }
  }

  lemma StoppedIsWalk(t: Table, self: nat, m: nat)
    requires UniqueIds(t) && NoKernel(t) && After(t, self, m).Stopped?
    ensures Ends(t, self, |t|) && After(t, self, m).seen == Walk(t, self, |t|)
  {
    var s := After(t, self, m).seen;
    AlwaysFollows(t, self, m);
    var end :| Path(t, self, s, end) && !Listed(t, end);
    PathIsWalk(t, self, s, end, |s|);
    EndsIffAcyclic(t, self);
    PathInTable(t, self, s, end);
    Pigeonhole(s, |t|);
    PathIsWalk(t, self, s, end, |t|);
  }

  lemma Stops(t: Table, self: nat)
    requires UniqueIds(t) && NoKernel(t) && Ends(t, self, |t|)
    ensures After(t, self, |t| + 1).Stopped?
  {
    var loop := After(t, self, |t| + 1);
    AlwaysFollows(t, self, |t| + 1);
    Progress(t, self, |t| + 1);
    if loop.Running? {
      EndsAfter(t, self, loop.seen, loop.next, |t|);
    }
  }
}
