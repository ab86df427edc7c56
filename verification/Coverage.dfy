/** The set of served byte ranges kept per transfer
    (`RangeCoverage` in secure_transfer.rs; loopback.rs holds a copy).

    The specification works on sets of offsets. A list of ranges in canonical
    form (non-empty, increasing, with a gap between neighbours) is the unique
    representation of its set, so the sort-and-merge algorithm can be compared
    with one-range insertion by comparing the sets they denote. */
module Coverage {
  import opened Common

  const MAX_TRACKED_RANGES: nat := 4096

  datatype Range = Range(start: nat, end: nat)

  datatype Cover = Cover(ranges: seq<Range>, unique: nat, saturated: bool)

  const EMPTY: Cover := Cover([], 0, false)

  // ---------------------------------------------------------------- denotation

  ghost predicate Within(lo: int, x: int, hi: int) {
    lo <= x < hi
  }

  ghost function Span(lo: int, hi: int): set<int> {
    set x | lo <= x < hi && Within(lo, x, hi)
  }

  lemma {:induction false} SpanSize(lo: int, hi: int)
    requires lo <= hi
    ensures |Span(lo, hi)| == hi - lo
    decreases hi - lo
  {
    if lo < hi {
      SpanSize(lo, hi - 1);
      assert Span(lo, hi) == Span(lo, hi - 1) + {hi - 1};
    } else {
      assert Span(lo, hi) == {};
    }
  }

  ghost function Interval(r: Range): set<int> {
    Span(r.start, r.end)
  }

  ghost function Offsets(rs: seq<Range>): set<int> {
    if rs == [] then {} else Interval(rs[0]) + Offsets(rs[1..])
  }

  /** Ranges are never inverted, so the subtraction never saturates. */
  function TotalLength(rs: seq<Range>): nat {
    if rs == [] then 0 else Monus(rs[0].end, rs[0].start) + TotalLength(rs[1..])
  }

  ghost predicate Canonical(rs: seq<Range>) {
    && (forall i | 0 <= i < |rs| :: rs[i].start < rs[i].end)
    && (forall i, j | 0 <= i < j < |rs| :: rs[i].end < rs[j].start)
  }

  lemma {:induction false} OffsetsAppend(a: seq<Range>, b: seq<Range>)
    ensures Offsets(a + b) == Offsets(a) + Offsets(b)
  {
    if a == [] {
      assert a + b == b;
    } else {
      OffsetsAppend(a[1..], b);
      assert (a + b)[1..] == a[1..] + b;
    }
  }

  lemma {:induction false} OffsetsMembers(rs: seq<Range>)
    ensures forall x :: x in Offsets(rs) <==> exists i :: 0 <= i < |rs| && rs[i].start <= x < rs[i].end
  {
    if rs != [] {
      OffsetsMembers(rs[1..]);
      forall x ensures x in Offsets(rs) <==> exists i :: 0 <= i < |rs| && rs[i].start <= x < rs[i].end {
        if x in Offsets(rs) && x in Offsets(rs[1..]) {
          var i :| 0 <= i < |rs| - 1 && rs[1..][i].start <= x < rs[1..][i].end;
          assert rs[i + 1].start <= x < rs[i + 1].end;
        } else if i :| 0 <= i < |rs| && rs[i].start <= x < rs[i].end {
          if i > 0 {
            assert rs[1..][i - 1].start <= x < rs[1..][i - 1].end;
          }
        }
      }
    }
  }

  /** `unique_bytes` is the number of distinct offsets. */
  lemma {:induction false} CanonicalSize(rs: seq<Range>)
    requires Canonical(rs)
    ensures |Offsets(rs)| == TotalLength(rs)
  {
    if rs != [] {
      CanonicalSize(rs[1..]);
      SpanSize(rs[0].start, rs[0].end);
      OffsetsMembers(rs[1..]);
      assert Interval(rs[0]) !! Offsets(rs[1..]);
    }
  }

  /** Every offset of a canonical list lies at or after its first start, and
      the offset just past the first range is free. */
  lemma {:induction false} CanonicalHead(rs: seq<Range>)
    requires Canonical(rs) && rs != []
    ensures rs[0].start in Offsets(rs)
    ensures rs[0].end !in Offsets(rs)
    ensures forall x | x in Offsets(rs) :: rs[0].start <= x
    ensures forall x | rs[0].start <= x < rs[0].end :: x in Offsets(rs)
    ensures forall x | x in Offsets(rs[1..]) :: rs[0].end < x
    ensures Offsets(rs[1..]) == Offsets(rs) - Interval(rs[0])
  {
    OffsetsMembers(rs);
    OffsetsMembers(rs[1..]);
    forall x | x in Offsets(rs[1..]) ensures rs[0].end < x {
      var i :| 0 <= i < |rs| - 1 && rs[1..][i].start <= x < rs[1..][i].end;
      assert rs[0].end < rs[i + 1].start;
    }
  }

  /** A set of offsets has one canonical list. */
  lemma {:induction false} CanonicalUnique(a: seq<Range>, b: seq<Range>)
    requires Canonical(a) && Canonical(b) && Offsets(a) == Offsets(b)
    ensures a == b
  {
    if a != [] && b != [] {
      CanonicalHead(a);
      CanonicalHead(b);
      assert a[0] == b[0];
      CanonicalUnique(a[1..], b[1..]);
      assert a == [a[0]] + a[1..] && b == [b[0]] + b[1..];
    } else if a != [] {
      CanonicalHead(a);
    } else if b != [] {
      CanonicalHead(b);
    }
  }

  /** The first offset of every maximal run. */
  ghost function RunStarts(s: set<int>): set<int> {
    set x | x in s && BeginsRun(s, x)
  }

  ghost predicate BeginsRun(s: set<int>, x: int) {
    x - 1 !in s
  }

  lemma RunsOfHead(all: set<int>, rest: set<int>, head: Range)
    requires head.start < head.end && all == rest + Interval(head)
    requires forall x | x in rest :: head.end < x
    ensures RunStarts(all) == {head.start} + RunStarts(rest) && head.start !in rest
  {
  }

  /** The number of tracked ranges is the number of maximal runs. */
  lemma {:induction false} CanonicalRuns(rs: seq<Range>)
    requires Canonical(rs)
    ensures |RunStarts(Offsets(rs))| == |rs|
  {
    if rs != [] {
      CanonicalHead(rs);
      CanonicalRuns(rs[1..]);
      var all, rest := Offsets(rs), Offsets(rs[1..]);
      RunsOfHead(all, rest, rs[0]);
    } else {
      assert RunStarts(Offsets(rs)) == {};
    }
  }

  // ------------------------------------------------- specification of one note

  function Max(a: nat, b: nat): nat {
    if a <= b then b else a
  }

  /** Adds one range to a canonical list, absorbing every range it meets. */
  function Insert(rs: seq<Range>, r: Range): seq<Range> {
    if rs == [] || r.end < rs[0].start then [r] + rs
    else if rs[0].end < r.start then [rs[0]] + Insert(rs[1..], r)
    else Insert(rs[1..], Joined(rs[0], r))
  }

  function Joined(a: Range, b: Range): Range {
    Range(Min(a.start, b.start), Max(a.end, b.end))
  }

  lemma {:induction false} InsertCanonical(rs: seq<Range>, r: Range, floor: int)
    requires Canonical(rs) && r.start < r.end
    requires floor < r.start && forall i | 0 <= i < |rs| :: floor < rs[i].start
    ensures Canonical(Insert(rs, r))
    ensures forall i | 0 <= i < |Insert(rs, r)| :: floor < Insert(rs, r)[i].start
    decreases |rs|
  {
    if rs == [] || r.end < rs[0].start {
    } else if rs[0].end < r.start {
      InsertCanonical(rs[1..], r, rs[0].end);
    } else {
      InsertCanonical(rs[1..], Joined(rs[0], r), floor);
    }
  }

  lemma {:induction false} InsertOffsets(rs: seq<Range>, r: Range)
    requires Canonical(rs) && r.start < r.end
    ensures Offsets(Insert(rs, r)) == Offsets(rs) + Interval(r)
    decreases |rs|
  {
    if rs == [] || r.end < rs[0].start {
      assert ([r] + rs)[1..] == rs;
    } else if rs[0].end < r.start {
      var rest := Insert(rs[1..], r);
      InsertOffsets(rs[1..], r);
      assert ([rs[0]] + rest)[1..] == rest;
    } else {
      InsertOffsets(rs[1..], Joined(rs[0], r));
      JoinedInterval(rs[0], r);
    }
  }

  lemma JoinedInterval(a: Range, b: Range)
    requires a.start <= b.end && b.start <= a.end && a.start <= a.end && b.start <= b.end
    ensures Interval(Joined(a, b)) == Interval(a) + Interval(b)
  {
  }

  /** One call of `note`: saturation is permanent, an end past u64 saturates,
      and more than 4096 runs saturate without touching `unique`. */
  function Noted(c: Cover, start: nat, length: nat): Cover {
    if c.saturated || length == 0 then c
    else if start + length > U64_MAX then c.(saturated := true)
    else
      var merged := Insert(c.ranges, Range(start, start + length));
      if |merged| > MAX_TRACKED_RANGES then Cover([], c.unique, true)
      else Cover(merged, TotalLength(merged), false)
  }

  ghost predicate Valid(c: Cover) {
    && Canonical(c.ranges)
    && |c.ranges| <= MAX_TRACKED_RANGES
    && (!c.saturated ==> c.unique == TotalLength(c.ranges))
    && forall i | 0 <= i < |c.ranges| :: c.ranges[i].end <= U64_MAX
  }

  // ------------------------------------------------------ the imperative object

  ghost predicate SortedByStart(rs: seq<Range>) {
    forall i, j | 0 <= i < j < |rs| :: rs[i].start <= rs[j].start
  }

  /** `sort_unstable_by_key(start)`: any permutation ordered by start will do,
      and nothing else about it is used. */
  method SortByStart(rs: seq<Range>) returns (sorted: seq<Range>)
    ensures SortedByStart(sorted)
    ensures multiset(sorted) == multiset(rs)
  {
    sorted := [];
    for i := 0 to |rs|
      invariant SortedByStart(sorted)
      invariant multiset(sorted) == multiset(rs[..i])
    {
      assert rs[..i + 1] == rs[..i] + [rs[i]];
      sorted := PlaceByStart(sorted, rs[i]);
    }
    assert rs[..|rs|] == rs;
  }

  method PlaceByStart(sorted: seq<Range>, r: Range) returns (placed: seq<Range>)
    requires SortedByStart(sorted)
    ensures SortedByStart(placed)
    ensures multiset(placed) == multiset(sorted) + multiset{r}
  {
    var k := |sorted|;
    while k > 0 && r.start < sorted[k - 1].start
      invariant 0 <= k <= |sorted|
      invariant k < |sorted| ==> r.start < sorted[k].start
    {
      k := k - 1;
    }
    PlacingSorts(sorted, k, r);
    placed := sorted[..k] + [r] + sorted[k..];
    assert sorted == sorted[..k] + sorted[k..];
  }

  lemma PlacingSorts(sorted: seq<Range>, k: nat, r: Range)
    requires SortedByStart(sorted) && k <= |sorted|
    requires k > 0 ==> sorted[k - 1].start <= r.start
    requires k < |sorted| ==> r.start < sorted[k].start
    ensures SortedByStart(sorted[..k] + [r] + sorted[k..])
  {
  }

  lemma {:induction false} SamePermutationSameOffsets(a: seq<Range>, b: seq<Range>)
    requires multiset(a) == multiset(b)
    ensures Offsets(a) == Offsets(b)
  {
    OffsetsMembers(a);
    OffsetsMembers(b);
    forall x ensures x in Offsets(a) <==> x in Offsets(b) {
      if i :| 0 <= i < |a| && a[i].start <= x < a[i].end {
        assert a[i] in multiset(b);
        var j :| 0 <= j < |b| && b[j] == a[i];
      }
      if i :| 0 <= i < |b| && b[i].start <= x < b[i].end {
        assert b[i] in multiset(a);
        var j :| 0 <= j < |a| && a[j] == b[i];
      }
    }
  }

  lemma SortedStaysProper(ranges: seq<Range>, added: Range, sorted: seq<Range>)
    requires Canonical(ranges) && added.start < added.end
    requires multiset(sorted) == multiset(ranges + [added])
    ensures forall i | 0 <= i < |sorted| :: sorted[i].start < sorted[i].end
  {
    forall i | 0 <= i < |sorted| ensures sorted[i].start < sorted[i].end {
      assert sorted[i] in multiset(ranges + [added]);
    }
  }

  /** Sorting everything and sweeping once equals inserting the new range:
      both are canonical lists of the same set. */
  lemma {:induction false} SortMergeIsInsert(ranges: seq<Range>, added: Range, sorted: seq<Range>, merged: seq<Range>)
    requires Canonical(ranges) && added.start < added.end
    requires multiset(sorted) == multiset(ranges + [added])
    requires Canonical(merged) && Offsets(merged) == Offsets(sorted)
    ensures merged == Insert(ranges, added)
  {
    SamePermutationSameOffsets(sorted, ranges + [added]);
    OffsetsAppend(ranges, [added]);
    OffsetsOne(added);
    InsertCanonical(ranges, added, -1);
    InsertOffsets(ranges, added);
    CanonicalUnique(merged, Insert(ranges, added));
  }

  class RangeCoverage {
    var ranges: seq<Range>
    var unique_bytes: nat
    var saturated: bool

    ghost function View(): Cover reads this {
      Cover(ranges, unique_bytes, saturated)
    }

    constructor ()
      ensures View() == EMPTY
    {
      ranges, unique_bytes, saturated := [], 0, false;
    }

    /** A coverage in the state `c`. */
    constructor Of(c: Cover)
      ensures View() == c
    {
      ranges, unique_bytes, saturated := c.ranges, c.unique, c.saturated;
    }

    /** Sort, sweep once merging touching ranges, then check the limit. */
    method Note(start: nat, length: nat)
      requires Valid(View())
      modifies this
      ensures View() == Noted(old(View()), start, length)
    {
      if saturated || length == 0 {
        return;
      }
      if start + length > U64_MAX {
        saturated := true;
        return;
      }
      var added := Range(start, start + length);
      var sorted := SortByStart(ranges + [added]);
      SortedStaysProper(ranges, added, sorted);
      var merged := Sweep(sorted);
      SortMergeIsInsert(ranges, added, sorted, merged);
      if |merged| > MAX_TRACKED_RANGES {
        saturated := true;
        ranges := [];
        return;
      }
      unique_bytes := Sum(merged);
      ranges := merged;
    }
  }

  /** One step of the sweep: the next range either touches the last merged one
      or starts a new run. */
  function Swept(merged: seq<Range>, next: Range): seq<Range> {
    if merged != [] && next.start <= merged[|merged| - 1].end then
      var last := merged[|merged| - 1];
      merged[..|merged| - 1] + [Range(last.start, Max(last.end, next.end))]
    else
      merged + [next]
  }

  lemma {:induction false} SweptOffsets(merged: seq<Range>, next: Range)
    requires Canonical(merged) && next.start < next.end
    requires merged != [] ==> merged[|merged| - 1].start <= next.start
    ensures Offsets(Swept(merged, next)) == Offsets(merged) + Interval(next)
  {
    OffsetsOne(next);
    if merged != [] && next.start <= merged[|merged| - 1].end {
      var init, last := merged[..|merged| - 1], merged[|merged| - 1];
      OffsetsAppend(init, [last]);
      OffsetsAppend(init, [Joined(last, next)]);
      OffsetsOne(last);
      OffsetsOne(Joined(last, next));
      JoinedInterval(last, next);
      assert merged == init + [last];
      assert Swept(merged, next) == init + [Joined(last, next)];
    } else {
      OffsetsAppend(merged, [next]);
    }
  }

  lemma SweptCanonical(merged: seq<Range>, next: Range)
    requires Canonical(merged) && next.start < next.end
    requires merged != [] ==> merged[|merged| - 1].start <= next.start
    ensures Canonical(Swept(merged, next))
    ensures var s := Swept(merged, next); s != [] && s[|s| - 1].start <= next.start
  {
  }

  lemma OffsetsOne(r: Range)
    ensures Offsets([r]) == Interval(r)
  {
    assert Offsets([r]) == Interval(r) + Offsets([]);
  }

  lemma SweepProgress(merged: seq<Range>, sorted: seq<Range>, i: nat)
    requires i < |sorted| && Canonical(merged) && Offsets(merged) == Offsets(sorted[..i])
    requires sorted[i].start < sorted[i].end
    requires merged != [] ==> merged[|merged| - 1].start <= sorted[i].start
    ensures var s := Swept(merged, sorted[i]);
      Canonical(s) && Offsets(s) == Offsets(sorted[..i + 1]) && s != [] && s[|s| - 1].start <= sorted[i].start
  {
    SweptCanonical(merged, sorted[i]);
    SweptOffsets(merged, sorted[i]);
    OffsetsAppend(sorted[..i], [sorted[i]]);
    OffsetsOne(sorted[i]);
    assert sorted[..i + 1] == sorted[..i] + [sorted[i]];
  }

  method Sweep(sorted: seq<Range>) returns (merged: seq<Range>)
    requires SortedByStart(sorted)
    requires forall i | 0 <= i < |sorted| :: sorted[i].start < sorted[i].end
    ensures Canonical(merged) && Offsets(merged) == Offsets(sorted)
  {
    merged := [];
    for i := 0 to |sorted|
      invariant Canonical(merged)
      invariant Offsets(merged) == Offsets(sorted[..i])
      invariant merged != [] && i < |sorted| ==> merged[|merged| - 1].start <= sorted[i].start
    {
      ghost var before := merged;
      var next := sorted[i];
      SweepProgress(before, sorted, i);
      if merged != [] && next.start <= merged[|merged| - 1].end {
        var last := merged[|merged| - 1];
        merged := merged[..|merged| - 1] + [Range(last.start, Max(last.end, next.end))];
      } else {
        merged := merged + [next];
      }
      assert merged == Swept(before, next);
    }
    assert sorted[..|sorted|] == sorted;
  }

  lemma {:induction false} TotalLengthAppend(a: seq<Range>, r: Range)
    ensures TotalLength(a + [r]) == TotalLength(a) + Monus(r.end, r.start)
  {
    if a != [] {
      TotalLengthAppend(a[1..], r);
      assert (a + [r])[1..] == a[1..] + [r];
    }
  }

  method Sum(rs: seq<Range>) returns (total: nat)
    requires forall i | 0 <= i < |rs| :: rs[i].start <= rs[i].end
    ensures total == TotalLength(rs)
  {
    total := 0;
    for i := 0 to |rs|
      invariant total == TotalLength(rs[..i])
    {
      TotalLengthAppend(rs[..i], rs[i]);
      assert rs[..i + 1] == rs[..i] + [rs[i]];
      total := total + (rs[i].end - rs[i].start);
    }
    assert rs[..|rs|] == rs;
  }

  // ------------------------------------------------------ whole runs of notes

  datatype NoteCall = NoteCall(start: nat, length: nat)

  function NoteAll(notes: seq<NoteCall>): Cover {
    if notes == [] then EMPTY
    else
      var last := notes[|notes| - 1];
      Noted(NoteAll(notes[..|notes| - 1]), last.start, last.length)
  }

  /** Every offset any of the notes mentions. */
  ghost function Union(notes: seq<NoteCall>): set<int> {
    if notes == [] then {}
    else
      var last := notes[|notes| - 1];
      Union(notes[..|notes| - 1]) + Interval(Range(last.start, last.start + last.length))
  }

  lemma {:induction false} UnionMembers(notes: seq<NoteCall>)
    ensures forall x :: x in Union(notes) <==>
      exists i :: 0 <= i < |notes| && notes[i].start <= x < notes[i].start + notes[i].length
  {
    if notes != [] {
      var init, last := notes[..|notes| - 1], notes[|notes| - 1];
      UnionMembers(init);
      assert notes == init + [last];
      forall x ensures x in Union(notes) <==>
        exists i :: 0 <= i < |notes| && notes[i].start <= x < notes[i].start + notes[i].length
      {
        if i :| 0 <= i < |notes| && notes[i].start <= x < notes[i].start + notes[i].length {
          assert i < |init| ==> init[i] == notes[i];
        }
        if x in Union(init) {
          var i :| 0 <= i < |init| && init[i].start <= x < init[i].start + init[i].length;
          assert notes[i] == init[i];
        }
      }
    }
  }

  /** What one note does to a cover that has not saturated, in terms of the
      set of offsets noted so far. */
  lemma {:induction false} NotedMeaning(c: Cover, start: nat, length: nat)
    requires Valid(c) && !c.saturated
    ensures var d := Noted(c, start, length); var whole := Offsets(c.ranges) + Span(start, start + length);
      && Valid(d)
      && (d.saturated <==> (length > 0 && start + length > U64_MAX) || |RunStarts(whole)| > MAX_TRACKED_RANGES)
      && (d.saturated ==> d.unique == c.unique)
      && (!d.saturated ==> Offsets(d.ranges) == whole)
  {
    CanonicalRuns(c.ranges);
    if length == 0 {
      assert Offsets(c.ranges) + Span(start, start + length) == Offsets(c.ranges);
    } else if start + length <= U64_MAX {
      var r := Range(start, start + length);
      InsertCanonical(c.ranges, r, -1);
      InsertOffsets(c.ranges, r);
      var merged := Insert(c.ranges, r);
      CanonicalRuns(merged);
      EndsBounded(c.ranges, r);
      assert Interval(r) == Span(start, start + length);
      hide Offsets, Insert, Canonical;
    }
  }

  lemma {:induction false} EndsBounded(rs: seq<Range>, r: Range)
    requires r.end <= U64_MAX && forall i | 0 <= i < |rs| :: rs[i].end <= U64_MAX
    ensures forall i | 0 <= i < |Insert(rs, r)| :: Insert(rs, r)[i].end <= U64_MAX
    decreases |rs|
  {
    if rs == [] || r.end < rs[0].start {
    } else if rs[0].end < r.start {
      EndsBounded(rs[1..], r);
    } else {
      EndsBounded(rs[1..], Joined(rs[0], r));
    }
  }

  /** No sum of tracked lengths exceeds u64. */
  lemma {:induction false} TotalFits(rs: seq<Range>)
    requires Canonical(rs) && forall i | 0 <= i < |rs| :: rs[i].end <= U64_MAX
    ensures TotalLength(rs) <= U64_MAX
  {
    CanonicalSize(rs);
    OffsetsMembers(rs);
    SpanSize(0, U64_MAX);
    SubsetSize(Offsets(rs), Span(0, U64_MAX));
  }

  /** The cover agrees with a plain set of offsets until it saturates; after
      that the count is a frozen lower bound. */
  ghost predicate Agrees(c: Cover, offsets: set<int>) {
    && Valid(c)
    && c.unique <= |offsets|
    && c.unique <= U64_MAX
    && (!c.saturated ==> Offsets(c.ranges) == offsets && c.unique == |offsets|)
  }

  lemma {:induction false} NotedAgrees(c: Cover, start: nat, length: nat, offsets: set<int>)
    requires Agrees(c, offsets)
    ensures Agrees(Noted(c, start, length), offsets + Span(start, start + length))
  {
    var d, whole := Noted(c, start, length), offsets + Span(start, start + length);
    SubsetSize(offsets, whole);
    if !c.saturated {
      NotedMeaning(c, start, length);
      UnsaturatedCount(d);
    }
  }

  lemma {:induction false} NoteAllMeaning(notes: seq<NoteCall>)
    ensures Agrees(NoteAll(notes), Union(notes))
  {
    if notes != [] {
      var init, last := notes[..|notes| - 1], notes[|notes| - 1];
      NoteAllMeaning(init);
      NotedAgrees(NoteAll(init), last.start, last.length, Union(init));
    }
  }

  lemma UnsaturatedCount(c: Cover)
    requires Valid(c)
    ensures !c.saturated ==> c.unique == |Offsets(c.ranges)| && c.unique <= U64_MAX
  {
    CanonicalSize(c.ranges);
    TotalFits(c.ranges);
  }

  /** A note sequence is too much for the list when some note ends past u64, or
      at some moment the offsets noted so far form more than 4096 runs. */
  ghost predicate Overfull(notes: seq<NoteCall>) {
    exists k :: 0 <= k <= |notes| && OverfullAt(notes, k)
  }

  ghost predicate OverfullAt(notes: seq<NoteCall>, k: nat)
    requires k <= |notes|
  {
    || |RunStarts(Union(notes[..k]))| > MAX_TRACKED_RANGES
    || (k < |notes| && notes[k].length > 0 && notes[k].start + notes[k].length > U64_MAX)
  }

  lemma {:induction false} OverfullSplits(init: seq<NoteCall>, last: NoteCall)
    ensures Overfull(init + [last]) <==>
      || Overfull(init)
      || (last.length > 0 && last.start + last.length > U64_MAX)
      || |RunStarts(Union(init + [last]))| > MAX_TRACKED_RANGES
  {
    var notes := init + [last];
    assert notes[..|notes|] == notes && notes[..|init|] == init == init[..|init|];
    assert forall k | 0 <= k <= |init| :: notes[..k] == init[..k];
    if k :| 0 <= k <= |init| && OverfullAt(init, k) {
      assert OverfullAt(notes, k);
    }
    if k :| 0 <= k <= |notes| && OverfullAt(notes, k) {
      if k < |init| {
        assert OverfullAt(init, k);
      } else if k == |init| && |RunStarts(Union(init))| > MAX_TRACKED_RANGES {
        assert OverfullAt(init, k);
      }
    }
    if last.length > 0 && last.start + last.length > U64_MAX {
      assert OverfullAt(notes, |init|);
    }
    if |RunStarts(Union(notes))| > MAX_TRACKED_RANGES {
      assert OverfullAt(notes, |notes|);
    }
  }

  lemma {:induction false} NotedSaturates(c: Cover, start: nat, length: nat, offsets: set<int>)
    requires Agrees(c, offsets)
    ensures Noted(c, start, length).saturated <==>
      || c.saturated
      || (length > 0 && start + length > U64_MAX)
      || (!c.saturated && |RunStarts(offsets + Span(start, start + length))| > MAX_TRACKED_RANGES)
  {
    if !c.saturated {
      NotedMeaning(c, start, length);
    }
  }

  lemma NothingNotedIsNotOverfull()
    ensures !Overfull([])
  {
    var none: seq<NoteCall> := [];
    assert RunStarts({}) == {};
    forall k | 0 <= k <= |none| ensures !OverfullAt(none, k) {
      assert none[..k] == none;
    }
  }

  lemma NoteAllSnoc(init: seq<NoteCall>, last: NoteCall)
    ensures NoteAll(init + [last]) == Noted(NoteAll(init), last.start, last.length)
    ensures Union(init + [last]) == Union(init) + Span(last.start, last.start + last.length)
  {
    assert (init + [last])[..|init|] == init;
  }

  lemma {:induction false} SaturationStep(init: seq<NoteCall>, last: NoteCall)
    requires NoteAll(init).saturated <==> Overfull(init)
    ensures NoteAll(init + [last]).saturated <==> Overfull(init + [last])
  {
    hide *;
    NoteAllMeaning(init);
    NoteAllSnoc(init, last);
    NotedSaturates(NoteAll(init), last.start, last.length, Union(init));
    OverfullSplits(init, last);
  }

  /** Saturation, exactly. */
  lemma {:induction false} SaturatesExactly(notes: seq<NoteCall>)
    ensures NoteAll(notes).saturated <==> Overfull(notes)
  {
    if notes == [] {
      NothingNotedIsNotOverfull();
    } else {
      var init, last := notes[..|notes| - 1], notes[|notes| - 1];
      SaturatesExactly(init);
      SaturationStep(init, last);
      assert notes == init + [last];
    }
  }

  /** Order, repetition and overlap of notes do not matter: two runs that cover
      the same offsets and stay below the limit end in the same object. */
  lemma {:induction false} OrderDoesNotMatter(a: seq<NoteCall>, b: seq<NoteCall>)
    requires !NoteAll(a).saturated && !NoteAll(b).saturated
    ensures NoteAll(a) == NoteAll(b) <==> Union(a) == Union(b)
  {
    NoteAllMeaning(a);
    NoteAllMeaning(b);
    if Union(a) == Union(b) {
      CanonicalUnique(NoteAll(a).ranges, NoteAll(b).ranges);
    }
  }

  /** Once saturated, nothing a later note does is visible. */
  lemma {:induction false} SaturationIsFinal(notes: seq<NoteCall>, more: seq<NoteCall>)
    requires NoteAll(notes).saturated
    ensures NoteAll(notes + more) == NoteAll(notes)
  {
    if more == [] {
      assert notes + more == notes;
    } else {
      SaturationIsFinal(notes, more[..|more| - 1]);
      assert (notes + more)[..|notes + more| - 1] == notes + more[..|more| - 1];
    }
  }

  // --------------------------- the order can matter for saturation: an example

  function Ascending(n: nat): seq<NoteCall> {
    seq(n, (i: nat) => NoteCall(i, 1))
  }

  lemma {:induction false} AscendingUnion(k: nat)
    ensures Union(Ascending(k)) == Span(0, k)
  {
    if k > 0 {
      AscendingUnion(k - 1);
      assert Ascending(k)[..k - 1] == Ascending(k - 1);
    }
  }

  lemma {:induction false} AscendingNeverOverfull(n: nat)
    requires n < U64_MAX
    ensures !Overfull(Ascending(n))
  {
    var a := Ascending(n);
    forall k | 0 <= k <= n ensures !OverfullAt(a, k) {
      AscendingUnion(k);
      assert a[..k] == Ascending(k);
      assert RunStarts(Span(0, k)) <= {0};
      SubsetSize(RunStarts(Span(0, k)), {0});
    }
  }

  function Evens(n: nat): seq<NoteCall> {
    seq(n, (i: nat) => NoteCall(2 * i, 1))
  }

  lemma {:induction false} EvensRuns(n: nat)
    ensures |RunStarts(Union(Evens(n)))| == n
    ensures forall x | x in Union(Evens(n)) :: x < 2 * n - 1
  {
    if n > 0 {
      EvensRuns(n - 1);
      var less := Union(Evens(n - 1));
      assert Evens(n)[..n - 1] == Evens(n - 1);
      assert Union(Evens(n)) == less + {2 * n - 2};
      assert RunStarts(less + {2 * n - 2}) == RunStarts(less) + {2 * n - 2};
    } else {
      assert RunStarts({}) == {};
    }
  }

  function Odds(n: nat): seq<NoteCall> {
    seq(n, (i: nat) => NoteCall(2 * i + 1, 1))
  }

  lemma {:induction false} EvensOddsUnion(n: nat)
    ensures Union(Evens(n) + Odds(n)) == Span(0, 2 * n)
  {
    var b := Evens(n) + Odds(n);
    UnionMembers(b);
    forall x | 0 <= x < 2 * n ensures x in Union(b) {
      var i := if x % 2 == 0 then x / 2 else n + x / 2;
      assert b[i].start <= x < b[i].start + b[i].length;
    }
  }

  /** The same offsets noted in two orders: in increasing order they stay one
      range, but even offsets first are 4097 separate ranges. */
  lemma {:induction false} OrderCanSaturate()
    ensures var n := MAX_TRACKED_RANGES + 1;
      && Union(Ascending(2 * n)) == Union(Evens(n) + Odds(n))
      && !NoteAll(Ascending(2 * n)).saturated
      && NoteAll(Evens(n) + Odds(n)).saturated
  {
    var n := MAX_TRACKED_RANGES + 1;
    AscendingUnion(2 * n);
    EvensOddsUnion(n);
    AscendingNeverOverfull(2 * n);
    SaturatesExactly(Ascending(2 * n));
    EvensRuns(n);
    assert Evens(n)[..n] == Evens(n);
    assert OverfullAt(Evens(n), n);
    SaturatesExactly(Evens(n));
    SaturationIsFinal(Evens(n), Odds(n));
  }
}
