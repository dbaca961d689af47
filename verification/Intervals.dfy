/** Time intervals of measured and confirmed-down time
  (frontend/src/user-traffic-realtime.tsx, lines 241-280), over exact reals. */
module Intervals {

  datatype Interval = Interval(lo: real, hi: real)

  predicate Holds(x: Interval, t: real) { x.lo <= t < x.hi }

  ghost predicate Covers(xs: seq<Interval>, t: real) {
    exists i :: 0 <= i < |xs| && Holds(xs[i], t)
  }

  /** In order, none empty, and a gap between any two: the normal form of a set of times. */
  ghost predicate Gapped(xs: seq<Interval>) {
    && (forall i | 0 <= i < |xs| :: xs[i].lo < xs[i].hi)
    && (forall i, j | 0 <= i < j < |xs| :: xs[i].hi < xs[j].lo)
  }

  function Min(x: real, y: real): real { if x <= y then x else y }
  function Max(x: real, y: real): real { if x >= y then x else y }

  // ----- mergedIntervals

  function NonEmpty(xs: seq<Interval>): seq<Interval> {
    if xs == [] then []
    else if xs[0].hi > xs[0].lo then [xs[0]] + NonEmpty(xs[1..])
    else NonEmpty(xs[1..])
  }

  /** Stable insertion by start. */
  function Insert(x: Interval, sorted: seq<Interval>): seq<Interval> {
    if sorted == [] || sorted[|sorted| - 1].lo <= x.lo then sorted + [x]
    else Insert(x, sorted[..|sorted| - 1]) + [sorted[|sorted| - 1]]
  }

  function SortByStart(xs: seq<Interval>): seq<Interval> {
    if xs == [] then [] else Insert(xs[|xs| - 1], SortByStart(xs[..|xs| - 1]))
  }

  ghost predicate SortedByStart(xs: seq<Interval>) {
    forall i, j | 0 <= i < j < |xs| :: xs[i].lo <= xs[j].lo
  }

  function MergeStep(merged: seq<Interval>, x: Interval): seq<Interval> {
    if merged != [] && x.lo <= merged[|merged| - 1].hi
    then merged[|merged| - 1 := Interval(merged[|merged| - 1].lo, Max(merged[|merged| - 1].hi, x.hi))]
    else merged + [x]
  }

  function MergeSorted(xs: seq<Interval>): seq<Interval> {
    if xs == [] then [] else MergeStep(MergeSorted(xs[..|xs| - 1]), xs[|xs| - 1])
  }

  function Merged(xs: seq<Interval>): seq<Interval> {
    MergeSorted(SortByStart(NonEmpty(xs)))
  }

  lemma CoversSplit(xs: seq<Interval>, ys: seq<Interval>, t: real)
    ensures Covers(xs + ys, t) <==> Covers(xs, t) || Covers(ys, t)
  {
    var zs := xs + ys;
    assert forall i | 0 <= i < |xs| :: zs[i] == xs[i];
    assert forall i | 0 <= i < |ys| :: zs[|xs| + i] == ys[i];
    if Covers(zs, t) {
      var i :| 0 <= i < |zs| && Holds(zs[i], t);
      assert i >= |xs| ==> Holds(ys[i - |xs|], t);
    }
  }

  lemma CoversOne(x: Interval, t: real)
    ensures Covers([x], t) <==> Holds(x, t)
  {
    assert [x][0] == x;
  }

  lemma {:induction false} NonEmptyCovers(xs: seq<Interval>, t: real)
    ensures Covers(NonEmpty(xs), t) <==> Covers(xs, t)
    ensures forall x | x in NonEmpty(xs) :: x.lo < x.hi
  {
    if xs != [] {
      NonEmptyCovers(xs[1..], t);
      assert xs == [xs[0]] + xs[1..];
      CoversSplit([xs[0]], xs[1..], t);
      CoversSplit([xs[0]], NonEmpty(xs[1..]), t);
      CoversOne(xs[0], t);
    }
  }

  lemma {:induction false} InsertMembers(x: Interval, sorted: seq<Interval>, y: Interval)
    ensures y in Insert(x, sorted) <==> y == x || y in sorted
  {
    if sorted != [] && x.lo < sorted[|sorted| - 1].lo {
      InsertMembers(x, sorted[..|sorted| - 1], y);
      assert sorted == sorted[..|sorted| - 1] + [sorted[|sorted| - 1]];
    }
  }

  lemma {:induction false} InsertSorts(x: Interval, sorted: seq<Interval>)
    requires SortedByStart(sorted)
    ensures SortedByStart(Insert(x, sorted))
  {
    if sorted != [] && x.lo < sorted[|sorted| - 1].lo {
      var front, last := sorted[..|sorted| - 1], sorted[|sorted| - 1];
      InsertSorts(x, front);
      forall y | y in Insert(x, front) ensures y.lo <= last.lo {
        InsertMembers(x, front, y);
      }
    }
  }

  lemma {:induction false} SortSorts(xs: seq<Interval>)
    ensures SortedByStart(SortByStart(xs))
    ensures forall y :: y in SortByStart(xs) <==> y in xs
  {
    if xs != [] {
      var front, last := xs[..|xs| - 1], xs[|xs| - 1];
      SortSorts(front);
      InsertSorts(last, SortByStart(front));
      forall y ensures y in SortByStart(xs) <==> y in xs {
        InsertMembers(last, SortByStart(front), y);
        assert xs == front + [last];
      }
    }
  }

  lemma SameMembersCover(xs: seq<Interval>, ys: seq<Interval>, t: real)
    requires forall y :: y in xs <==> y in ys
    ensures Covers(xs, t) <==> Covers(ys, t)
  {
    if Covers(xs, t) {
      var i :| 0 <= i < |xs| && Holds(xs[i], t);
      assert xs[i] in ys;
    }
    if Covers(ys, t) {
      var i :| 0 <= i < |ys| && Holds(ys[i], t);
      assert ys[i] in xs;
    }
  }

  /** One round of the merge keeps the normal form and adds exactly the new interval's times. */
  lemma MergeStepOk(merged: seq<Interval>, x: Interval)
    requires Gapped(merged) && x.lo < x.hi
    requires merged != [] ==> merged[|merged| - 1].lo <= x.lo
    ensures Gapped(MergeStep(merged, x))
    ensures MergeStep(merged, x) != [] && MergeStep(merged, x)[|MergeStep(merged, x)| - 1].lo <= x.lo
    ensures forall t :: Covers(MergeStep(merged, x), t) <==> Covers(merged, t) || Holds(x, t)
  {
    var after := MergeStep(merged, x);
    forall t ensures Covers(after, t) <==> Covers(merged, t) || Holds(x, t) {
      if merged != [] && x.lo <= merged[|merged| - 1].hi {
        var front, last := merged[..|merged| - 1], merged[|merged| - 1];
        var grown := after[|merged| - 1];
        assert merged == front + [last] && after == front + [grown];
        CoversSplit(front, [last], t);
        CoversSplit(front, [grown], t);
        CoversOne(last, t);
        CoversOne(grown, t);
      } else {
        CoversSplit(merged, [x], t);
        CoversOne(x, t);
      }
    }
  }

  lemma {:induction false} MergeSortedOk(xs: seq<Interval>)
    requires SortedByStart(xs) && forall x | x in xs :: x.lo < x.hi
    ensures Gapped(MergeSorted(xs))
    ensures forall t :: Covers(MergeSorted(xs), t) <==> Covers(xs, t)
    ensures xs != [] ==> MergeSorted(xs) != [] && MergeSorted(xs)[|MergeSorted(xs)| - 1].lo <= xs[|xs| - 1].lo
  {
    if xs != [] {
      var front, last := xs[..|xs| - 1], xs[|xs| - 1];
      assert forall x | x in front :: x in xs;
      MergeSortedOk(front);
      MergeStepOk(MergeSorted(front), last);
      forall t ensures Covers(MergeSorted(xs), t) <==> Covers(xs, t) {
        CoversLast(xs, t);
      }
    }
  }

  lemma CoversLast(xs: seq<Interval>, t: real)
    requires xs != []
    ensures Covers(xs, t) <==> Covers(xs[..|xs| - 1], t) || Holds(xs[|xs| - 1], t)
  {
    assert xs == xs[..|xs| - 1] + [xs[|xs| - 1]];
    CoversSplit(xs[..|xs| - 1], [xs[|xs| - 1]], t);
    CoversOne(xs[|xs| - 1], t);
  }

  /** `mergedIntervals` covers the times of its input, in normal form. */
  lemma MergedCovers(xs: seq<Interval>)
    ensures Gapped(Merged(xs))
    ensures forall t :: Covers(Merged(xs), t) <==> Covers(xs, t)
  {
    var kept := NonEmpty(xs);
    SortSorts(kept);
    forall x | x in SortByStart(kept) ensures x.lo < x.hi {
      assert x in kept;
      NonEmptyCovers(xs, 0.0);
    }
    MergeSortedOk(SortByStart(kept));
    forall t ensures Covers(Merged(xs), t) <==> Covers(xs, t) {
      NonEmptyCovers(xs, t);
      SameMembersCover(SortByStart(kept), kept, t);
    }
  }

  method MergedIntervals(intervals: seq<Interval>) returns (merged: seq<Interval>)
    ensures merged == Merged(intervals)
    ensures Gapped(merged) && forall t :: Covers(merged, t) <==> Covers(intervals, t)
  {
    MergedCovers(intervals);
    var sorted := SortByStart(NonEmpty(intervals));
    merged := [];
    for i := 0 to |sorted|
      invariant merged == MergeSorted(sorted[..i])
    {
      assert sorted[..i + 1][..i] == sorted[..i];
      var x := sorted[i];
      if merged != [] && x.lo <= merged[|merged| - 1].hi {
        var last := merged[|merged| - 1];
        merged := merged[|merged| - 1 := last.(hi := Max(last.hi, x.hi))];
      } else {
        merged := merged + [x];
      }
    }
    assert sorted[..|sorted|] == sorted;
  }

  /** The normal form is unique, so a merge depends only on the times its input covers. */
  lemma {:induction false} GappedIsUnique(xs: seq<Interval>, ys: seq<Interval>)
    requires Gapped(xs) && Gapped(ys)
    requires forall t :: Covers(xs, t) <==> Covers(ys, t)
    ensures xs == ys
  {
    SomeTime(xs);
    SomeTime(ys);
    if xs != [] && ys != [] {
      FirstStarts(xs, ys);
      FirstStarts(ys, xs);
      FirstEnds(xs, ys);
      FirstEnds(ys, xs);
      forall t ensures Covers(xs[1..], t) <==> Covers(ys[1..], t) {
        RestCovers(xs, t);
        RestCovers(ys, t);
      }
      GappedIsUnique(xs[1..], ys[1..]);
    }
  }

  lemma SomeTime(xs: seq<Interval>)
    requires Gapped(xs)
    ensures if xs == [] then forall t :: !Covers(xs, t) else Covers(xs, xs[0].lo)
  {
    assert xs != [] ==> Holds(xs[0], xs[0].lo);
  }

  lemma FirstStarts(xs: seq<Interval>, ys: seq<Interval>)
    requires xs != [] && ys != [] && Gapped(xs) && Gapped(ys)
    requires forall t :: Covers(xs, t) <==> Covers(ys, t)
    ensures xs[0].lo <= ys[0].lo
  {
    assert Holds(ys[0], ys[0].lo) && Covers(ys, ys[0].lo);
    var i :| 0 <= i < |xs| && Holds(xs[i], ys[0].lo);
  }

  lemma FirstEnds(xs: seq<Interval>, ys: seq<Interval>)
    requires xs != [] && ys != [] && Gapped(xs) && Gapped(ys) && xs[0].lo == ys[0].lo
    requires forall t :: Covers(xs, t) <==> Covers(ys, t)
    ensures xs[0].hi <= ys[0].hi
  {
    var t := ys[0].hi;
    forall i | 0 <= i < |ys| ensures !Holds(ys[i], t) {}
    assert !Covers(ys, t);
    assert !Holds(xs[0], t);
  }

  lemma RestCovers(xs: seq<Interval>, t: real)
    requires xs != [] && Gapped(xs)
    ensures Covers(xs[1..], t) <==> Covers(xs, t) && !Holds(xs[0], t)
  {
    assert xs == [xs[0]] + xs[1..];
    CoversSplit([xs[0]], xs[1..], t);
    CoversOne(xs[0], t);
    if Covers(xs[1..], t) {
      var i :| 0 <= i < |xs[1..]| && Holds(xs[1..][i], t);
      assert xs[0].hi < xs[i + 1].lo;
    }
  }

  // ----- overlap: how much of a span the intervals take

  function OverlapOne(start: real, end: real, x: Interval): real {
    Max(0.0, Min(end, x.hi) - Max(start, x.lo))
  }

  function Overlap(start: real, end: real, xs: seq<Interval>): (seconds: real)
    ensures seconds >= 0.0
  {
    if xs == [] then 0.0 else Overlap(start, end, xs[..|xs| - 1]) + OverlapOne(start, end, xs[|xs| - 1])
  }

  lemma {:induction false} OverlapSplits(a: real, b: real, c: real, xs: seq<Interval>)
    requires a <= b <= c
    ensures Overlap(a, c, xs) == Overlap(a, b, xs) + Overlap(b, c, xs)
  {
    if xs != [] { OverlapSplits(a, b, c, xs[..|xs| - 1]); }
  }

  lemma {:induction false} OverlapAppend(start: real, end: real, xs: seq<Interval>, x: Interval)
    ensures Overlap(start, end, xs + [x]) == Overlap(start, end, xs) + OverlapOne(start, end, x)
  {
    assert (xs + [x])[..|xs|] == xs;
  }

  /** A span the intervals never meet takes nothing; a span one of them contains is full. */
  lemma {:induction false} OverlapNone(start: real, end: real, xs: seq<Interval>)
    requires forall t | start <= t < end :: !Covers(xs, t)
    requires forall x | x in xs :: x.lo < x.hi
    ensures Overlap(start, end, xs) == 0.0
  {
    if xs != [] {
      var front, last := xs[..|xs| - 1], xs[|xs| - 1];
      assert xs == front + [last];
      forall t | start <= t < end ensures !Covers(front, t) && !Holds(last, t) {
        CoversSplit(front, [last], t);
        CoversOne(last, t);
      }
      OverlapNone(start, end, front);
      if start < end {
        var t := Max(start, last.lo);
        assert start <= t < end ==> !Holds(last, t);
      }
    }
  }

  lemma {:induction false} OverlapAtLeast(start: real, end: real, xs: seq<Interval>, i: nat)
    requires i < |xs|
    ensures Overlap(start, end, xs) >= OverlapOne(start, end, xs[i])
  {
    if i < |xs| - 1 { OverlapAtLeast(start, end, xs[..|xs| - 1], i); }
  }

  lemma EndIsOpen(xs: seq<Interval>, i: nat)
    requires Gapped(xs) && i < |xs|
    ensures !Covers(xs, xs[i].hi)
  {}

  /** Covered without a break means covered by one interval of the normal form. */
  lemma FullSpan(start: real, end: real, xs: seq<Interval>)
    requires start < end && Gapped(xs)
    requires forall t | start <= t < end :: Covers(xs, t)
    ensures Overlap(start, end, xs) >= end - start
  {
    assert Covers(xs, start);
    var i :| 0 <= i < |xs| && Holds(xs[i], start);
    EndIsOpen(xs, i);
    assert xs[i].hi >= end;
    OverlapAtLeast(start, end, xs, i);
  }

  // ----- activeIntervals: a window less its confirmed downtime

  datatype Cut = Cut(active: seq<Interval>, cursor: real)

  function CutStep(cut: Cut, end: real, zero: Interval): Cut {
    if zero.hi <= cut.cursor || zero.lo >= end then cut
    else Cut(if zero.lo > cut.cursor then cut.active + [Interval(cut.cursor, Min(zero.lo, end))] else cut.active,
             Max(cut.cursor, zero.hi))
  }

  function CutAll(start: real, end: real, zeros: seq<Interval>): Cut {
    if zeros == [] then Cut([], start)
    else CutStep(CutAll(start, end, zeros[..|zeros| - 1]), end, zeros[|zeros| - 1])
  }

  function Active(start: real, end: real, zeros: seq<Interval>): seq<Interval> {
    var cut := CutAll(start, end, zeros);
    if cut.cursor < end then cut.active + [Interval(cut.cursor, end)] else cut.active
  }

  /** What the loop has established after some of the zeros. */
  ghost predicate CutOk(cut: Cut, start: real, end: real, zeros: seq<Interval>) {
    && start <= cut.cursor
    && (forall x | x in cut.active :: start <= x.lo < x.hi <= Min(cut.cursor, end))
    && (forall t :: Covers(cut.active, t) <==> start <= t < Min(cut.cursor, end) && !Covers(zeros, t))
    && (forall z | z in zeros :: z.hi <= cut.cursor || z.lo >= end)
    && (cut.cursor == start || exists z :: z in zeros && z.hi == cut.cursor)
    && Overlap(start, end, cut.active) + Overlap(start, end, zeros) == Min(cut.cursor, end) - start
  }

  lemma {:induction false} CutAllOk(start: real, end: real, zeros: seq<Interval>)
    requires start <= end && Gapped(zeros)
    ensures CutOk(CutAll(start, end, zeros), start, end, zeros)
  {
    if zeros == [] {
      assert forall t :: !Covers([], t);
    } else {
      var front, zero := zeros[..|zeros| - 1], zeros[|zeros| - 1];
      assert zeros == front + [zero];
      CutAllOk(start, end, front);
      CutStepOk(CutAll(start, end, front), start, end, front, zero);
    }
  }

  lemma CutStepOk(cut: Cut, start: real, end: real, front: seq<Interval>, zero: Interval)
    requires start <= end && Gapped(front + [zero])
    requires CutOk(cut, start, end, front)
    ensures CutOk(CutStep(cut, end, zero), start, end, front + [zero])
  {
    var zeros, after := front + [zero], CutStep(cut, end, zero);
    CursorBehind(cut, start, end, front, zero);
    CutStepMeasures(cut, start, end, front, zero);
    forall t ensures Covers(after.active, t) <==> start <= t < Min(after.cursor, end) && !Covers(zeros, t) {
      CoversSplit(front, [zero], t);
      CoversOne(zero, t);
      CutStepCovers(cut, start, end, front, zero, t);
    }
    assert zero in zeros;
    if after.cursor == cut.cursor && after.cursor != start {
      var z :| z in front && z.hi == cut.cursor;
      assert z in zeros;
    }
  }

  lemma CursorBehind(cut: Cut, start: real, end: real, front: seq<Interval>, zero: Interval)
    requires Gapped(front + [zero]) && CutOk(cut, start, end, front)
    ensures cut.cursor == start || cut.cursor < zero.lo
    ensures zero.lo < zero.hi
  {
    var zeros := front + [zero];
    assert zeros[|front|] == zero;
    if cut.cursor != start {
      var z :| z in front && z.hi == cut.cursor;
      var i :| 0 <= i < |front| && front[i] == z;
      assert zeros[i] == z;
    }
  }

  lemma CutStepMeasures(cut: Cut, start: real, end: real, front: seq<Interval>, zero: Interval)
    requires start <= end && start <= cut.cursor
    requires cut.cursor == start || cut.cursor < zero.lo
    requires zero.lo < zero.hi
    requires Overlap(start, end, cut.active) + Overlap(start, end, front) == Min(cut.cursor, end) - start
    ensures var after := CutStep(cut, end, zero);
            Overlap(start, end, after.active) + Overlap(start, end, front + [zero]) == Min(after.cursor, end) - start
  {
    OverlapAppend(start, end, front, zero);
    OverlapAppend(start, end, cut.active, Interval(cut.cursor, Min(zero.lo, end)));
  }

  lemma CutStepCovers(cut: Cut, start: real, end: real, front: seq<Interval>, zero: Interval, t: real)
    requires start <= end && Gapped(front + [zero])
    requires CutOk(cut, start, end, front)
    requires cut.cursor == start || cut.cursor < zero.lo
    ensures var after := CutStep(cut, end, zero);
            Covers(after.active, t) <==>
            start <= t < Min(after.cursor, end) && !Covers(front, t) && !Holds(zero, t)
  {
    var zeros, after := front + [zero], CutStep(cut, end, zero);
    assert zeros[|front|] == zero;
    assert Covers(cut.active, t) <==> start <= t < Min(cut.cursor, end) && !Covers(front, t);
    assert cut.cursor <= t < end ==> !Covers(front, t) by {
      if cut.cursor <= t < end {
        forall i | 0 <= i < |front| ensures !Holds(front[i], t) {
          assert front[i] in front;
        }
      }
    }
    if !(zero.hi <= cut.cursor || zero.lo >= end) && zero.lo > cut.cursor {
      CoversSplit(cut.active, [Interval(cut.cursor, Min(zero.lo, end))], t);
      CoversOne(Interval(cut.cursor, Min(zero.lo, end)), t);
    }
  }

  lemma ActiveCovers(start: real, end: real, zeros: seq<Interval>, t: real)
    requires start <= end && CutOk(CutAll(start, end, zeros), start, end, zeros)
    ensures Covers(Active(start, end, zeros), t) <==> start <= t < end && !Covers(zeros, t)
  {
    var cut := CutAll(start, end, zeros);
    var last := Interval(cut.cursor, end);
    assert Covers(cut.active, t) <==> start <= t < Min(cut.cursor, end) && !Covers(zeros, t);
    if cut.cursor <= t < end {
      forall i | 0 <= i < |zeros| ensures !Holds(zeros[i], t) { assert zeros[i] in zeros; }
    }
    CoversSplit(cut.active, [last], t);
    CoversOne(last, t);
  }

  lemma ActiveMeasures(start: real, end: real, zeros: seq<Interval>)
    requires start <= end && CutOk(CutAll(start, end, zeros), start, end, zeros)
    ensures Overlap(start, end, Active(start, end, zeros)) + Overlap(start, end, zeros) == end - start
    ensures forall x | x in Active(start, end, zeros) :: start <= x.lo < x.hi <= end
  {
    var cut := CutAll(start, end, zeros);
    if cut.cursor < end { OverlapAppend(start, end, cut.active, Interval(cut.cursor, end)); }
  }

  /** `activeIntervals` is the window less the zeros, point by point and in total length. */
  lemma ActiveIsRemainder(start: real, end: real, zeros: seq<Interval>)
    requires start <= end && Gapped(zeros)
    ensures forall t :: Covers(Active(start, end, zeros), t) <==> start <= t < end && !Covers(zeros, t)
    ensures Overlap(start, end, Active(start, end, zeros)) + Overlap(start, end, zeros) == end - start
    ensures forall x | x in Active(start, end, zeros) :: start <= x.lo < x.hi <= end
  {
    CutAllOk(start, end, zeros);
    ActiveMeasures(start, end, zeros);
    forall t ensures Covers(Active(start, end, zeros), t) <==> start <= t < end && !Covers(zeros, t) {
      ActiveCovers(start, end, zeros, t);
    }
  }

  method ActiveIntervals(start: real, end: real, zeros: seq<Interval>) returns (active: seq<Interval>)
    requires Gapped(zeros)
    ensures active == Active(start, end, zeros)
    ensures start <= end ==> forall t :: Covers(active, t) <==> start <= t < end && !Covers(zeros, t)
    ensures start <= end ==> Overlap(start, end, active) + Overlap(start, end, zeros) == end - start
  {
    active := [];
    var cursor := start;
    for i := 0 to |zeros|
      invariant Cut(active, cursor) == CutAll(start, end, zeros[..i])
    {
      assert zeros[..i + 1][..i] == zeros[..i];
      var zero := zeros[i];
      if zero.hi <= cursor || zero.lo >= end { continue; }
      if zero.lo > cursor { active := active + [Interval(cursor, Min(zero.lo, end))]; }
      cursor := Max(cursor, zero.hi);
    }
    assert zeros[..|zeros|] == zeros;
    if cursor < end { active := active + [Interval(cursor, end)]; }
    if start <= end { ActiveIsRemainder(start, end, zeros); }
  }

  // ----- intersectIntervals

  /** The two-cursor sweep from positions `i` and `j`. */
  function IntersectFrom(left: seq<Interval>, right: seq<Interval>, i: nat, j: nat): seq<Interval>
    requires i <= |left| && j <= |right|
    decreases |left| - i + |right| - j
  {
    if i == |left| || j == |right| then []
    else
      var start, end := Max(left[i].lo, right[j].lo), Min(left[i].hi, right[j].hi);
      (if end > start then [Interval(start, end)] else []) +
      (if left[i].hi < right[j].hi then IntersectFrom(left, right, i + 1, j) else IntersectFrom(left, right, i, j + 1))
  }

  function Intersect(left: seq<Interval>, right: seq<Interval>): seq<Interval> {
    IntersectFrom(left, right, 0, 0)
  }

  lemma CoversFrom(xs: seq<Interval>, i: nat, t: real)
    requires i < |xs|
    ensures Covers(xs[i..], t) <==> Holds(xs[i], t) || Covers(xs[i + 1..], t)
  {
    assert xs[i..] == [xs[i]] + xs[i + 1..];
    CoversSplit([xs[i]], xs[i + 1..], t);
    CoversOne(xs[i], t);
  }

  lemma LaterStarts(xs: seq<Interval>, i: nat, t: real)
    requires Gapped(xs) && i < |xs|
    ensures Covers(xs[i + 1..], t) ==> t > xs[i].hi
    ensures Covers(xs[i..], t) ==> t >= xs[i].lo
  {
    var rest, all := xs[i + 1..], xs[i..];
    if Covers(rest, t) {
      var k :| 0 <= k < |rest| && Holds(rest[k], t);
      assert rest[k] == xs[i + 1 + k];
    }
    if Covers(all, t) {
      var k :| 0 <= k < |all| && Holds(all[k], t);
      assert all[k] == xs[i + k];
    }
  }

  lemma SweepStep(left: seq<Interval>, right: seq<Interval>, i: nat, j: nat, rest: seq<Interval>, t: real)
    requires i < |left| && j < |right| && Gapped(left) && Gapped(right)
    requires Covers(rest, t) <==>
             if left[i].hi < right[j].hi then Covers(left[i + 1..], t) && Covers(right[j..], t)
             else Covers(left[i..], t) && Covers(right[j + 1..], t)
    ensures var start, end := Max(left[i].lo, right[j].lo), Min(left[i].hi, right[j].hi);
            Covers((if end > start then [Interval(start, end)] else []) + rest, t)
            <==> Covers(left[i..], t) && Covers(right[j..], t)
    ensures Covers(rest, t) ==> t > Min(left[i].hi, right[j].hi)
  {
    var start, end := Max(left[i].lo, right[j].lo), Min(left[i].hi, right[j].hi);
    CoversSplit(if end > start then [Interval(start, end)] else [], rest, t);
    CoversOne(Interval(start, end), t);
    CoversFrom(left, i, t);
    CoversFrom(right, j, t);
    LaterStarts(left, i, t);
    LaterStarts(right, j, t);
    assert !Covers([], t);
  }

  /** The sweep covers exactly the times both sides cover, and stays in normal form. */
  lemma {:induction false} IntersectFromOk(left: seq<Interval>, right: seq<Interval>, i: nat, j: nat)
    requires i <= |left| && j <= |right| && Gapped(left) && Gapped(right)
    ensures forall t :: Covers(IntersectFrom(left, right, i, j), t) <==> Covers(left[i..], t) && Covers(right[j..], t)
    ensures Gapped(IntersectFrom(left, right, i, j))
    decreases |left| - i + |right| - j
  {
    if i == |left| || j == |right| {
      assert forall t :: !Covers([], t);
      assert left[|left|..] == [] && right[|right|..] == [];
    } else if left[i].hi < right[j].hi {
      IntersectFromOk(left, right, i + 1, j);
      SweepOk(left, right, i, j, IntersectFrom(left, right, i + 1, j));
    } else {
      IntersectFromOk(left, right, i, j + 1);
      SweepOk(left, right, i, j, IntersectFrom(left, right, i, j + 1));
    }
  }

  lemma SweepOk(left: seq<Interval>, right: seq<Interval>, i: nat, j: nat, rest: seq<Interval>)
    requires i < |left| && j < |right| && Gapped(left) && Gapped(right) && Gapped(rest)
    requires forall t :: Covers(rest, t) <==>
               if left[i].hi < right[j].hi then Covers(left[i + 1..], t) && Covers(right[j..], t)
               else Covers(left[i..], t) && Covers(right[j + 1..], t)
    ensures var start, end := Max(left[i].lo, right[j].lo), Min(left[i].hi, right[j].hi);
            var all := (if end > start then [Interval(start, end)] else []) + rest;
            Gapped(all) && forall t :: Covers(all, t) <==> Covers(left[i..], t) && Covers(right[j..], t)
  {
    var start, end := Max(left[i].lo, right[j].lo), Min(left[i].hi, right[j].hi);
    var all := (if end > start then [Interval(start, end)] else []) + rest;
    forall t ensures Covers(all, t) <==> Covers(left[i..], t) && Covers(right[j..], t) {
      SweepStep(left, right, i, j, rest, t);
    }
    forall k | 0 <= k < |rest| ensures rest[k].lo > end {
      assert Holds(rest[k], rest[k].lo);
      SweepStep(left, right, i, j, rest, rest[k].lo);
    }
  }

  lemma IntersectCovers(left: seq<Interval>, right: seq<Interval>)
    requires Gapped(left) && Gapped(right)
    ensures Gapped(Intersect(left, right))
    ensures forall t :: Covers(Intersect(left, right), t) <==> Covers(left, t) && Covers(right, t)
  {
    IntersectFromOk(left, right, 0, 0);
    assert left[0..] == left && right[0..] == right;
  }

  method IntersectIntervals(left: seq<Interval>, right: seq<Interval>) returns (intersections: seq<Interval>)
    requires Gapped(left) && Gapped(right)
    ensures intersections == Intersect(left, right) && Gapped(intersections)
    ensures forall t :: Covers(intersections, t) <==> Covers(left, t) && Covers(right, t)
  {
    intersections := Sweep(left, right);
    IntersectCovers(left, right);
  }

  /** What was found so far and what the sweep will still find make the whole. */
  ghost predicate Swept(left: seq<Interval>, right: seq<Interval>, i: int, j: int, found: seq<Interval>) {
    0 <= i <= |left| && 0 <= j <= |right| && found + IntersectFrom(left, right, i, j) == Intersect(left, right)
  }

  lemma Regroup(found: seq<Interval>, first: seq<Interval>, rest: seq<Interval>)
    ensures found + (first + rest) == (found + first) + rest
  {}

  function WithCommon(found: seq<Interval>, x: Interval, y: Interval): seq<Interval> {
    var start, end := Max(x.lo, y.lo), Min(x.hi, y.hi);
    if end > start then found + [Interval(start, end)] else found
  }

  lemma SweptStep(left: seq<Interval>, right: seq<Interval>, i: nat, j: nat, found: seq<Interval>)
    requires Swept(left, right, i, j, found) && i < |left| && j < |right|
    ensures left[i].hi < right[j].hi ==> Swept(left, right, i + 1, j, WithCommon(found, left[i], right[j]))
    ensures left[i].hi >= right[j].hi ==> Swept(left, right, i, j + 1, WithCommon(found, left[i], right[j]))
  {
    var start, end := Max(left[i].lo, right[j].lo), Min(left[i].hi, right[j].hi);
    var first := if end > start then [Interval(start, end)] else [];
    assert found + [] == found;
    if left[i].hi < right[j].hi {
      Regroup(found, first, IntersectFrom(left, right, i + 1, j));
    } else {
      Regroup(found, first, IntersectFrom(left, right, i, j + 1));
    }
  }

  lemma SweptAll(left: seq<Interval>, right: seq<Interval>, i: nat, j: nat, found: seq<Interval>)
    requires Swept(left, right, i, j, found) && (i == |left| || j == |right|)
    ensures found == Intersect(left, right)
  {
    assert found + [] == found;
  }

  /** The loop itself. */
  method Sweep(left: seq<Interval>, right: seq<Interval>) returns (intersections: seq<Interval>)
    ensures intersections == Intersect(left, right)
  {
    intersections := [];
    var i, j := 0, 0;
    while i < |left| && j < |right|
      invariant Swept(left, right, i, j, intersections)
      decreases |left| - i + |right| - j
    {
      SweptStep(left, right, i, j, intersections);
      ghost var next := WithCommon(intersections, left[i], right[j]);
      var start, end := Max(left[i].lo, right[j].lo), Min(left[i].hi, right[j].hi);
      if end > start { intersections := intersections + [Interval(start, end)]; }
      assert intersections == next;
      if left[i].hi < right[j].hi { i := i + 1; } else { j := j + 1; }
    }
    SweptAll(left, right, i, j, intersections);
  }
}
