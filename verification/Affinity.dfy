/**
 The compressed list of enabled CPUs (src/platform/platform-generic.c), such as "0-3,8,10-11".
 */
module Affinity {
  import opened Prelude
  import opened Numerals
  import opened Decoding

  datatype Range = Range(first: nat, last: nat)

  predicate In(n: nat, r: Range) {
    r.first <= n <= r.last
  }

  predicate InSome(n: nat, rs: seq<Range>) {
    exists i :: 0 <= i < |rs| && In(n, rs[i])
  }

  // ----- the ranges themselves

  /** The ranges of the CPUs below `n`: a CPU extends the range of the CPU before it, or starts one. */
  function Ranges(has: nat -> bool, n: nat): (rs: seq<Range>)
    ensures n > 0 && has(n - 1) ==> rs != [] && rs[|rs| - 1].last == n - 1
  {
    if n == 0 then []
    else
      var rs := Ranges(has, n - 1);
      if !has(n - 1) then rs
      else if n >= 2 && has(n - 2) then rs[|rs| - 1 := Range(rs[|rs| - 1].first, n - 1)]
      else rs + [Range(n - 1, n - 1)]
  }

  /** Ascending and disjoint, with a gap before each next range. */
  predicate Apart(rs: seq<Range>) {
    (forall i :: 0 <= i < |rs| ==> rs[i].first <= rs[i].last)
    && forall i, j :: 0 <= i < j < |rs| ==> rs[i].last + 1 < rs[j].first
  }

  predicate Below(rs: seq<Range>, n: nat) {
    forall i :: 0 <= i < |rs| ==> rs[i].last < n
  }

  ghost predicate Covers(rs: seq<Range>, has: nat -> bool, max: nat) {
    forall n: nat :: InSome(n, rs) <==> n < max && has(n)
  }

  /** No range can be made longer on either side. */
  ghost predicate Maximal(rs: seq<Range>, has: nat -> bool, max: nat) {
    forall i :: 0 <= i < |rs| ==>
      (rs[i].first > 0 ==> !has(rs[i].first - 1)) && (rs[i].last + 1 < max ==> !has(rs[i].last + 1))
  }

  lemma {:induction false} RangesApart(has: nat -> bool, n: nat)
    ensures Apart(Ranges(has, n)) && Below(Ranges(has, n), n)
    ensures n > 0 && !has(n - 1) ==> Below(Ranges(has, n), n - 1)
  {
    if n > 0 {
      RangesApart(has, n - 1);
      var rs, next := Ranges(has, n - 1), Ranges(has, n);
      if !has(n - 1) {
        assert next == rs;
      } else if n >= 2 && has(n - 2) {
        ExtendApart(rs, n - 1);
        assert next == rs[|rs| - 1 := Range(rs[|rs| - 1].first, n - 1)];
      } else {
        AppendApart(rs, n - 1);
        assert next == rs + [Range(n - 1, n - 1)];
      }
    }
  }

  lemma ExtendApart(rs: seq<Range>, n: nat)
    requires Apart(rs) && rs != [] && rs[|rs| - 1].last < n
    ensures var e := |rs| - 1; var longer := rs[e := Range(rs[e].first, n)]; Apart(longer) && Below(longer, n + 1)
  {
  }

  lemma AppendApart(rs: seq<Range>, n: nat)
    requires Apart(rs) && (n > 0 ==> Below(rs, n - 1)) && (n == 0 ==> rs == [])
    ensures Apart(rs + [Range(n, n)]) && Below(rs + [Range(n, n)], n + 1)
  {
  }

  lemma {:induction false} RangesCover(has: nat -> bool, n: nat)
    ensures Covers(Ranges(has, n), has, n)
  {
    if n > 0 {
      RangesCover(has, n - 1);
      RangesApart(has, n - 1);
      var before, rs := Ranges(has, n - 1), Ranges(has, n);
      forall k: nat
        ensures InSome(k, rs) <==> k < n && has(k)
      {
        CoverStep(has, n, k, before, rs);
      }
    }
  }

  lemma CoverForward(has: nat -> bool, n: nat, k: nat, before: seq<Range>, rs: seq<Range>)
    requires n > 0 && has(n - 1) && before == Ranges(has, n - 1) && rs == Ranges(has, n)
    requires Apart(before) && Below(before, n - 1) && (k == n - 1 || InSome(k, before))
    ensures InSome(k, rs)
  {
    var e := |rs| - 1;
    if InSome(k, before) {
      var i :| 0 <= i < |before| && In(k, before[i]);
      assert In(k, rs[i]);
    } else {
      assert In(n - 1, rs[e]);
    }
  }

  lemma CoverBackward(has: nat -> bool, n: nat, k: nat, before: seq<Range>, rs: seq<Range>)
    requires n > 0 && has(n - 1) && before == Ranges(has, n - 1) && rs == Ranges(has, n)
    requires InSome(k, rs) && k != n - 1
    ensures InSome(k, before)
  {
    var i :| 0 <= i < |rs| && In(k, rs[i]);
    assert i < |before| && In(k, before[i]);
  }

  lemma CoverStep(has: nat -> bool, n: nat, k: nat, before: seq<Range>, rs: seq<Range>)
    requires n > 0 && before == Ranges(has, n - 1) && rs == Ranges(has, n)
    requires Apart(before) && Below(before, n - 1) && (InSome(k, before) <==> k < n - 1 && has(k))
    ensures InSome(k, rs) <==> k < n && has(k)
  {
    if has(n - 1) {
      if k == n - 1 || InSome(k, before) {
        CoverForward(has, n, k, before, rs);
      } else if InSome(k, rs) {
        CoverBackward(has, n, k, before, rs);
      }
    }
  }

  lemma RangesMaximal(has: nat -> bool, max: nat)
    ensures Maximal(Ranges(has, max), has, max)
  {
    var rs := Ranges(has, max);
    RangesApart(has, max);
    RangesCover(has, max);
    forall i | 0 <= i < |rs|
      ensures rs[i].first > 0 ==> !has(rs[i].first - 1)
      ensures rs[i].last + 1 < max ==> !has(rs[i].last + 1)
    {
      assert In(rs[i].first, rs[i]);
      assert rs[i].first > 0 ==> !InSome(rs[i].first - 1, rs);
      assert !InSome(rs[i].last + 1, rs);
    }
  }

  // ----- their text

  /** The conversions "%d" and "%d-%d". */
  function RangeText(r: Range): string {
    if r.first == r.last then Numeral(10, r.first) else Numeral(10, r.first) + "-" + Numeral(10, r.last)
  }

  function ListText(rs: seq<Range>): string {
    if rs == [] then ""
    else if |rs| == 1 then RangeText(rs[0])
    else RangeText(rs[0]) + "," + ListText(rs[1..])
  }

  lemma {:induction false} ListTextAppend(rs: seq<Range>, r: Range)
    ensures ListText(rs + [r]) == if rs == [] then RangeText(r) else ListText(rs) + "," + RangeText(r)
  {
    if |rs| == 1 {
      assert (rs + [r])[1..] == [r];
    } else if |rs| > 1 {
      assert (rs + [r])[1..] == rs[1..] + [r];
      ListTextAppend(rs[1..], r);
      Glue(RangeText(rs[0]) + ",", ListText(rs[1..]), ",", RangeText(r));
    }
  }

  lemma Glue(a: string, b: string, c: string, d: string)
    ensures a + (b + c + d) == a + b + c + d
  {
  }

  // ----- the loop

  /** `cpu_list`, null until the first range is appended. */
  function ListOf(rs: seq<Range>): Option<string> {
    if rs == [] then None else Some(ListText(rs))
  }

  method AppendRange(list: Option<string>, displayed: bool, first: nat, last: nat, ghost rs: seq<Range>)
    returns (longer: Option<string>)
    requires list == ListOf(rs) && displayed == (rs != [])
    ensures longer == ListOf(rs + [Range(first, last)])
  {
    var text;
    if first == last {
      text := Numeral(10, first);
    } else {
      text := Numeral(10, first) + "-" + Numeral(10, last);
    }
    longer := Appendf(list, if displayed then "," else "", text);
    ListTextAppend(rs, Range(first, last));
  }

  /** `appendf` of "%s..." to a list that may still be null. */
  method Appendf(list: Option<string>, separator: string, text: string) returns (longer: Option<string>)
    ensures list.None? && separator == "" ==> longer == Some(text)
    ensures list.Some? ==> longer == Some(list.value + separator + text)
  {
    if list.None? {
      assert separator == "" ==> separator + text == text;
      longer := Some(separator + text);
    } else {
      longer := Some(list.value + separator + text);
    }
  }

  /** The loop of `show_cpu_affinities_generic`; a null list means no CPU. */
  method CpuList(has: nat -> bool, max: nat) returns (list: Option<string>)
    ensures list == ListOf(Ranges(has, max))
  {
    var displayed, count, first, last := false, 0, 0, 0;
    ghost var done: seq<Range> := [];
    list := None;
    for cpu := 0 to max
      invariant list == ListOf(done) && displayed == (done != [])
      invariant count > 0 <==> cpu > 0 && has(cpu - 1)
      invariant count > 0 ==> last == cpu - 1
      invariant Ranges(has, cpu) == if count > 0 then done + [Range(first, last)] else done
    {
      if has(cpu) {
        if count == 0 {
          first := cpu;
        }
        last := cpu;
        count := count + 1;
      } else {
        if count > 0 {
          list := AppendRange(list, displayed, first, last, done);
          displayed := true;
          done := done + [Range(first, last)];
        }
        count := 0;
      }
    }
    if count > 0 {
      list := AppendRange(list, displayed, first, last, done);
    }
  }

  /** The value of the "affinity list" entry. */
  function Shown(has: nat -> bool, max: nat): string {
    var list := ListOf(Ranges(has, max));
    if list.None? then "-1" else list.value
  }

  method AffinityEntry(has: nat -> bool, max: nat) returns (value: string)
    ensures value == Shown(has, max)
  {
    var list := CpuList(has, max);
    value := if list.None? then "-1" else list.value;
  }

  // ----- reading it back

  /** The end of a range whose first number has been read; a range of one CPU is written without a dash. */
  function ReadEnd(first: nat, s: string): (r: Option<Parsed<Range>>)
    ensures r.Some? ==> |r.value.rest| <= |s|
  {
    if s == "" || s[0] != '-' then Some(Parsed(Range(first, first), s))
    else
      match ReadNumber(s[1..])
      case None => None
      case Some(Parsed(last, rest)) => if first < last then Some(Parsed(Range(first, last), rest)) else None
  }

  function ReadRange(s: string): (r: Option<Parsed<Range>>)
    ensures r.Some? ==> |r.value.rest| < |s|
  {
    match ReadNumber(s)
    case None => None
    case Some(Parsed(first, rest)) => ReadEnd(first, rest)
  }

  function ReadRanges(s: string): Option<seq<Range>>
    decreases |s|, 1
  {
    match ReadRange(s)
    case None => None
    case Some(Parsed(r, rest)) => ReadMore(r, rest)
  }

  /** What may follow a range: nothing, or a comma and more ranges. */
  function ReadMore(r: Range, rest: string): Option<seq<Range>>
    decreases |rest|, 2
  {
    if rest == "" then Some([r])
    else if rest[0] != ',' then None
    else
      match ReadRanges(rest[1..])
      case None => None
      case Some(rs) => Some([r] + rs)
  }

  /** The reader of an "affinity list" entry. */
  function ReadList(s: string): Option<seq<Range>> {
    if s == "-1" then Some([]) else ReadRanges(s)
  }

  lemma SecondRead(first: nat, last: nat, more: string, rest: string)
    requires ReadNumber(more) == Some(Parsed(last, rest)) && first < last
    ensures ReadEnd(first, "-" + more) == Some(Parsed(Range(first, last), rest))
  {
  }

  lemma RangeRead(r: Range, rest: string)
    requires (rest != "" ==> rest[0] == ',') && r.first <= r.last
    ensures ReadRange(RangeText(r) + rest) == Some(Parsed(r, rest))
  {
    if r.first == r.last {
      NumberRead(r.first, rest);
    } else {
      var more := Numeral(10, r.last) + rest;
      NumberRead(r.first, "-" + more);
      NumberRead(r.last, rest);
      SecondRead(r.first, r.last, more, rest);
      RegroupFour(Numeral(10, r.first), "-", Numeral(10, r.last), rest);
    }
  }

  lemma MoreRead(r: Range, more: string, rs: seq<Range>)
    requires ReadRanges(more) == Some(rs)
    ensures ReadMore(r, "," + more) == Some([r] + rs)
  {
    var rest := "," + more;
    assert rest[0] == ',' && rest[1..] == more;
  }

  lemma {:induction false} RangesRead(rs: seq<Range>)
    requires rs != [] && forall i :: 0 <= i < |rs| ==> rs[i].first <= rs[i].last
    ensures ReadRanges(ListText(rs)) == Some(rs)
  {
    if |rs| == 1 {
      assert rs == [rs[0]];
      RangeRead(rs[0], "");
      assert RangeText(rs[0]) + "" == RangeText(rs[0]);
    } else {
      RangesRead(rs[1..]);
      RangeRead(rs[0], "," + ListText(rs[1..]));
      MoreRead(rs[0], ListText(rs[1..]), rs[1..]);
      Regroup(RangeText(rs[0]), ",", ListText(rs[1..]));
      assert [rs[0]] + rs[1..] == rs;
    }
  }

  lemma ListStart(rs: seq<Range>)
    requires rs != []
    ensures ListText(rs) != "" && '0' <= ListText(rs)[0] <= '9'
  {
    NumeralShortest(10, rs[0].first);
    assert Printed(10, Numeral(10, rs[0].first)[0]);
  }

  /**
   For every set of enabled CPUs, the printed list reads back as its ranges, which are ascending, disjoint, never
   adjacent, maximal and cover exactly the set; "-1" stands for the empty set and for nothing else.
   */
  lemma ShownReadsBack(has: nat -> bool, max: nat)
    ensures var rs := Ranges(has, max);
            ReadList(Shown(has, max)) == Some(rs) && Apart(rs) && Covers(rs, has, max) && Maximal(rs, has, max)
    ensures Shown(has, max) == "-1" <==> forall n :: 0 <= n < max ==> !has(n)
  {
    var rs := Ranges(has, max);
    RangesApart(has, max);
    RangesCover(has, max);
    RangesMaximal(has, max);
    if rs != [] {
      RangesRead(rs);
      ListStart(rs);
      assert In(rs[0].first, rs[0]);
      assert InSome(rs[0].first, rs);
    } else {
      forall n | 0 <= n < max
        ensures !has(n)
      {
        assert !InSome(n, rs);
      }
    }
  }

  lemma EndWritten(first: nat, s: string)
    ensures var r := ReadEnd(first, s);
            r.Some? ==> Numeral(10, first) + s == RangeText(r.value.value) + r.value.rest
  {
    var r := ReadEnd(first, s);
    if r.Some? && s != "" && s[0] == '-' {
      var last := ReadNumber(s[1..]).value.value;
      NumberWritten(s[1..]);
      assert s == "-" + s[1..];
      RegroupFour(Numeral(10, first), "-", Numeral(10, last), r.value.rest);
    }
  }

  lemma RangeWritten(s: string)
    ensures var r := ReadRange(s); r.Some? ==> s == RangeText(r.value.value) + r.value.rest
  {
    var n := ReadNumber(s);
    if n.Some? {
      NumberWritten(s);
      EndWritten(n.value.value, n.value.rest);
    }
  }

  lemma {:induction false} RangesWritten(s: string)
    ensures var rs := ReadRanges(s); rs.Some? ==> rs.value != [] && s == ListText(rs.value)
    decreases |s|, 1
  {
    var r := ReadRange(s);
    if r.Some? {
      RangeWritten(s);
      MoreWritten(r.value.value, r.value.rest);
    }
  }

  lemma {:induction false} MoreWritten(r: Range, rest: string)
    ensures var rs := ReadMore(r, rest); rs.Some? ==> rs.value != [] && RangeText(r) + rest == ListText(rs.value)
    decreases |rest|, 2
  {
    if rest == "" {
      assert RangeText(r) + "" == RangeText(r);
    } else if rest[0] == ',' {
      var more := ReadRanges(rest[1..]);
      RangesWritten(rest[1..]);
      assert rest == "," + rest[1..];
      if more.Some? {
        assert ([r] + more.value)[1..] == more.value;
        Regroup(RangeText(r), ",", rest[1..]);
      }
    }
  }

  /** No other text reads as the ranges of the set. */
  lemma OnlyShownReads(has: nat -> bool, max: nat, s: string)
    ensures ReadList(s) == Some(Ranges(has, max)) <==> s == Shown(has, max)
  {
    ShownReadsBack(has, max);
    if s != "-1" {
      RangesWritten(s);
    }
  }

  /** Only one list of ranges is kept apart and covers a given set. */
  lemma {:induction false} ApartIsUnique(a: seq<Range>, b: seq<Range>)
    requires Apart(a) && Apart(b) && forall n: nat :: InSome(n, a) <==> InSome(n, b)
    ensures a == b
  {
    if a == [] || b == [] {
      if a != [] {
        assert In(a[0].first, a[0]);
        assert InSome(a[0].first, a);
      }
      if b != [] {
        assert In(b[0].first, b[0]);
        assert InSome(b[0].first, b);
      }
    } else {
      SameFirst(a, b);
      SameFirst(b, a);
      SameLast(a, b);
      SameLast(b, a);
      TailsAgree(a, b);
      ApartIsUnique(a[1..], b[1..]);
      assert a == [a[0]] + a[1..] && b == [b[0]] + b[1..];
    }
  }

  lemma SameFirst(a: seq<Range>, b: seq<Range>)
    requires Apart(a) && Apart(b) && a != [] && b != [] && forall n: nat :: InSome(n, a) ==> InSome(n, b)
    ensures b[0].first <= a[0].first
  {
    assert In(a[0].first, a[0]);
    assert InSome(a[0].first, a);
    var i :| 0 <= i < |b| && In(a[0].first, b[i]);
  }

  lemma SameLast(a: seq<Range>, b: seq<Range>)
    requires Apart(a) && Apart(b) && a != [] && b != [] && a[0].first == b[0].first
    requires forall n: nat :: InSome(n, a) ==> InSome(n, b)
    ensures a[0].last <= b[0].last
  {
    var n := b[0].last + 1;
    assert !InSome(n, b);
    assert !InSome(n, a);
    assert !In(n, a[0]);
  }

  lemma TailsAgree(a: seq<Range>, b: seq<Range>)
    requires Apart(a) && Apart(b) && a != [] && b != [] && a[0] == b[0]
    requires forall n: nat :: InSome(n, a) <==> InSome(n, b)
    ensures Apart(a[1..]) && Apart(b[1..]) && forall n: nat :: InSome(n, a[1..]) <==> InSome(n, b[1..])
  {
    forall n: nat
      ensures InSome(n, a[1..]) <==> InSome(n, b[1..])
    {
      TailHolds(a, n);
      TailHolds(b, n);
    }
  }

  lemma TailHolds(rs: seq<Range>, n: nat)
    requires rs != [] && Apart(rs)
    ensures InSome(n, rs[1..]) <==> InSome(n, rs) && n > rs[0].last
  {
  }
}
