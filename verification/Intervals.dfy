/** Half-open lecture intervals: measuring a union, merging to a canonical list,
    and the context interval of a recovery request. */
module Intervals {
  import opened Common

  datatype Interval = Interval(start: int, end: int)

  predicate Has(i: Interval, t: int) { i.start <= t < i.end }

  /** The point `t` lies in the union of the intervals. */
  predicate Covered(intervals: seq<Interval>, t: int) {
    exists k :: 0 <= k < |intervals| && Has(intervals[k], t)
  }

  ghost predicate SamePoints(a: seq<Interval>, b: seq<Interval>) {
    forall t :: Covered(a, t) <==> Covered(b, t)
  }

  /** How many milliseconds of `[lo, hi)` lie in the union of the intervals. */
  ghost function Measure(intervals: seq<Interval>, lo: int, hi: int): (n: nat)
    ensures lo <= hi ==> n <= hi - lo
    decreases hi - lo
  {
    if lo >= hi then 0 else Measure(intervals, lo, hi - 1) + (if Covered(intervals, hi - 1) then 1 else 0)
  }

  // ------------------------------------------------------- laws of the measure

  /** Only the point set matters: order and duplicates do not. */
  lemma {:induction false} MeasureMonotone(a: seq<Interval>, b: seq<Interval>, lo: int, hi: int)
    requires forall t :: lo <= t < hi && Covered(a, t) ==> Covered(b, t)
    ensures Measure(a, lo, hi) <= Measure(b, lo, hi)
    decreases hi - lo
  {
    if lo < hi { MeasureMonotone(a, b, lo, hi - 1); }
  }

  lemma MeasureOfPoints(a: seq<Interval>, b: seq<Interval>, lo: int, hi: int)
    requires forall t :: lo <= t < hi ==> (Covered(a, t) <==> Covered(b, t))
    ensures Measure(a, lo, hi) == Measure(b, lo, hi)
  {
    MeasureMonotone(a, b, lo, hi);
    MeasureMonotone(b, a, lo, hi);
  }

  /** The measure is additive over adjacent ranges. */
  lemma {:induction false} MeasureAdds(intervals: seq<Interval>, lo: int, mid: int, hi: int)
    requires lo <= mid <= hi
    ensures Measure(intervals, lo, hi) == Measure(intervals, lo, mid) + Measure(intervals, mid, hi)
    decreases hi - mid
  {
    if mid < hi { MeasureAdds(intervals, lo, mid, hi - 1); }
  }

  /** The measure is full exactly when every millisecond is covered, and zero
      exactly when none is. */
  lemma {:induction false} MeasureExtremes(intervals: seq<Interval>, lo: int, hi: int)
    requires lo <= hi
    ensures Measure(intervals, lo, hi) == hi - lo <==> forall t :: lo <= t < hi ==> Covered(intervals, t)
    ensures Measure(intervals, lo, hi) == 0 <==> forall t :: lo <= t < hi ==> !Covered(intervals, t)
    decreases hi - lo
  {
    if lo < hi { MeasureExtremes(intervals, lo, hi - 1); }
  }

  // ----------------------------------------------------------------- sorting

  /** Python's order on pairs. */
  predicate Before(a: Interval, b: Interval) { a.start < b.start || (a.start == b.start && a.end <= b.end) }

  predicate IsSorted(s: seq<Interval>) {
    forall i, j :: 0 <= i < j < |s| ==> Before(s[i], s[j])
  }

  function Insert(x: Interval, s: seq<Interval>): (r: seq<Interval>)
    ensures |r| == |s| + 1
  {
    if s == [] || Before(x, s[0]) then [x] + s else [s[0]] + Insert(x, s[1..])
  }

  function Sort(s: seq<Interval>): (r: seq<Interval>)
    ensures |r| == |s|
  {
    if s == [] then [] else Insert(s[0], Sort(s[1..]))
  }

  lemma {:induction false} InsertSorted(x: Interval, s: seq<Interval>)
    requires IsSorted(s)
    ensures IsSorted(Insert(x, s)) && multiset(Insert(x, s)) == multiset(s) + multiset{x}
  {
    if s == [] || Before(x, s[0]) {
    } else {
      InsertSorted(x, s[1..]);
      var r := Insert(x, s[1..]);
      assert s == [s[0]] + s[1..];
      forall j | 0 <= j < |r| ensures Before(s[0], r[j]) {
        assert r[j] in multiset(r);
        assert r[j] in s[1..] || r[j] == x;
      }
    }
  }

  lemma {:induction false} SortIsSorted(s: seq<Interval>)
    ensures IsSorted(Sort(s)) && multiset(Sort(s)) == multiset(s)
  {
    if s != [] {
      SortIsSorted(s[1..]);
      InsertSorted(s[0], Sort(s[1..]));
      assert s == [s[0]] + s[1..];
    }
  }

  lemma SameElementsSamePoints(a: seq<Interval>, b: seq<Interval>)
    requires multiset(a) == multiset(b)
    ensures SamePoints(a, b)
  {
    forall t ensures Covered(a, t) <==> Covered(b, t) {
      if Covered(a, t) {
        var k :| 0 <= k < |a| && Has(a[k], t);
        assert a[k] in multiset(b);
      }
      if Covered(b, t) {
        var k :| 0 <= k < |b| && Has(b[k], t);
        assert b[k] in multiset(a);
      }
    }
  }

  // --------------------------------------------------------- covered_duration

  predicate StartsSorted(s: seq<Interval>) {
    forall i, j :: 0 <= i < j < |s| ==> s[i].start <= s[j].start
  }

  lemma SortStarts(s: seq<Interval>)
    ensures StartsSorted(Sort(s)) && multiset(Sort(s)) == multiset(s)
    ensures forall x :: x in s <==> x in Sort(s)
  {
    SortIsSorted(s);
    forall i, j | 0 <= i < j < |Sort(s)|
      ensures Sort(s)[i].start <= Sort(s)[j].start
    {
      assert Before(Sort(s)[i], Sort(s)[j]);
    }
    forall x
      ensures x in s <==> x in Sort(s)
    {
      assert x in s <==> x in multiset(s); assert x in Sort(s) <==> x in multiset(Sort(s));
    }
  }

  /** The current block may grow at its end; starts stay sorted. */
  lemma StartsSortedTail(current: Interval, rest: seq<Interval>, grown: Interval)
    requires StartsSorted([current] + rest) && rest != [] && grown.start == current.start
    ensures StartsSorted([grown] + rest[1..]) && StartsSorted([rest[0]] + rest[1..]) && current.start <= rest[0].start
  {
    var all := [current] + rest;
    forall i, j | 0 <= i < j < |rest|
      ensures ([grown] + rest[1..])[i].start <= ([grown] + rest[1..])[j].start
      ensures ([rest[0]] + rest[1..])[i].start <= ([rest[0]] + rest[1..])[j].start
    {
      assert all[0].start <= all[j + 1].start && all[i + 1].start <= all[j + 1].start;
    }
    assert all[0].start <= all[1].start;
  }


  function Clip(intervals: seq<Interval>, lo: int, hi: int): seq<Interval> {
    if intervals == [] then []
    else
      var i := intervals[0];
      (if i.start < hi && lo < i.end then [Interval(Max(i.start, lo), Min(i.end, hi))] else [])
      + Clip(intervals[1..], lo, hi)
  }

  lemma CoveredAppend(a: seq<Interval>, b: seq<Interval>, t: int)
    ensures Covered(a + b, t) <==> Covered(a, t) || Covered(b, t)
  {
    if Covered(a, t) {
      var k :| 0 <= k < |a| && Has(a[k], t);
      assert Has((a + b)[k], t);
    }
    if Covered(b, t) {
      var k :| 0 <= k < |b| && Has(b[k], t);
      assert Has((a + b)[|a| + k], t);
    }
  }

  lemma {:induction false} ClipPoints(intervals: seq<Interval>, lo: int, hi: int)
    ensures forall t :: Covered(Clip(intervals, lo, hi), t) <==> lo <= t < hi && Covered(intervals, t)
    ensures forall k :: 0 <= k < |Clip(intervals, lo, hi)| ==>
        lo <= Clip(intervals, lo, hi)[k].start && Clip(intervals, lo, hi)[k].end <= hi
  {
    if intervals != [] {
      ClipPoints(intervals[1..], lo, hi);
      var i := intervals[0];
      var head := if i.start < hi && lo < i.end then [Interval(Max(i.start, lo), Min(i.end, hi))] else [];
      forall t ensures Covered(Clip(intervals, lo, hi), t) <==> lo <= t < hi && Covered(intervals, t) {
        CoveredAppend(head, Clip(intervals[1..], lo, hi), t);
        assert intervals == [i] + intervals[1..];
        CoveredAppend([i], intervals[1..], t);
        assert Covered([i], t) <==> Has(i, t) by { if Has(i, t) { assert Has([i][0], t); } }
        assert Covered(head, t) <==> lo <= t < hi && Has(i, t) by {
          if lo <= t < hi && Has(i, t) { assert Has(head[0], t); }
        }
      }
    }
  }

  /** Sweeping one more sorted interval extends the measured union. */
  lemma SweepStep(swept: seq<Interval>, next: Interval, start: int, cursor: int)
    requires start <= cursor
    requires forall k :: 0 <= k < |swept| ==> swept[k].end <= cursor && swept[k].start <= next.start
    requires cursor == start || exists k :: 0 <= k < |swept| && swept[k].end == cursor
    requires start <= next.start
    ensures Measure(swept + [next], start, Max(cursor, next.end))
            == Measure(swept, start, cursor) + Max(0, next.end - Max(cursor, next.start))
  {
    var all := swept + [next];
    var high, low := Max(cursor, next.end), Max(cursor, Min(next.start, Max(cursor, next.end)));
    forall t ensures Covered(all, t) <==> Covered(swept, t) || Has(next, t) {
      CoveredAppend(swept, [next], t);
      if Has(next, t) { assert Has([next][0], t); }
    }
    forall t | start <= t < cursor ensures Covered(all, t) <==> Covered(swept, t) {
      if Has(next, t) {
        var k :| 0 <= k < |swept| && swept[k].end == cursor;
        assert Has(swept[k], t);
      }
    }
    MeasureOfPoints(all, swept, start, cursor);
    MeasureAdds(all, start, cursor, high);
    MeasureAdds(all, cursor, low, high);
    MeasureExtremes(all, cursor, low);
    MeasureExtremes(all, low, high);
  }

  lemma SweepEnds(ordered: seq<Interval>, intervals: seq<Interval>, start: int, end: int, cursor: int)
    requires multiset(ordered) == multiset(Clip(intervals, start, end)) && start <= cursor
    requires forall j :: 0 <= j < |ordered| ==> ordered[j].end <= cursor
    requires cursor == start || exists j :: 0 <= j < |ordered| && ordered[j].end == cursor
    ensures Measure(ordered, start, cursor) == Measure(intervals, start, end)
  {
    ClipPoints(intervals, start, end);
    SameElementsSamePoints(ordered, Clip(intervals, start, end));
    if cursor != start {
      var j :| 0 <= j < |ordered| && ordered[j].end == cursor;
      assert ordered[j] in multiset(Clip(intervals, start, end));
    }
    if start <= end {
      MeasureAdds(ordered, start, cursor, end);
      MeasureExtremes(ordered, cursor, end);
      MeasureOfPoints(ordered, intervals, start, end);
    }
  }

  /** Union duration within `[start, end)`; overlaps and retries never inflate it. */
  method CoveredDuration(intervals: seq<Interval>, start: int, end: int) returns (total: int)
    ensures total == Measure(intervals, start, end)
  {
    hide Covered, Clip, Sort;
    var ordered := Sort(Clip(intervals, start, end));
    SortStarts(Clip(intervals, start, end));
    ClipPoints(intervals, start, end);
    var cursor := start;
    total := 0;
    var k := 0;
    while k < |ordered|
      invariant k <= |ordered| && start <= cursor && total == Measure(ordered[..k], start, cursor)
      invariant forall j :: 0 <= j < k ==> ordered[j].end <= cursor
      invariant cursor == start || exists j :: 0 <= j < k && ordered[j].end == cursor
    {
      var left, right := ordered[k].start, ordered[k].end;
      ghost var swept := ordered[..k];
      assert ordered[k] in Clip(intervals, start, end);
      assert cursor == start || exists j :: 0 <= j < |swept| && swept[j].end == cursor by {
        if cursor != start {
          var j :| 0 <= j < k && ordered[j].end == cursor;
          assert swept[j].end == cursor;
        }
      }
      SweepStep(swept, ordered[k], start, cursor);
      assert ordered[..k + 1] == swept + [ordered[k]];
      total := total + Max(0, right - Max(cursor, left));
      cursor := Max(cursor, right);
      k := k + 1;
    }
    assert ordered[..k] == ordered;
    SweepEnds(ordered, intervals, start, end, cursor);
  }

  // ------------------------------------------------------------------ merging

  /** Sorted, non-touching intervals: the canonical way to write a union. */
  predicate Canonical(s: seq<Interval>) {
    && (forall i :: 0 <= i < |s| ==> s[i].start < s[i].end)
    && (forall i, j :: 0 <= i < j < |s| ==> s[i].end < s[j].start)
  }

  predicate Proper(s: seq<Interval>) { forall i :: 0 <= i < |s| ==> s[i].start < s[i].end }

  /** The reference reading of a merge: fold the sorted list into its last block. */
  function MergeFrom(current: Interval, rest: seq<Interval>): (merged: seq<Interval>)
    ensures merged != []
    decreases |rest|
  {
    if rest == [] then [current]
    else if rest[0].start <= current.end then
        MergeFrom(Interval(current.start, Max(current.end, rest[0].end)), rest[1..])
    else [current] + MergeFrom(rest[0], rest[1..])
  }

  function Merged(intervals: seq<Interval>): seq<Interval> {
    var ordered := Sort(intervals);
    if ordered == [] then [] else MergeFrom(ordered[0], ordered[1..])
  }

  method MergeOverlapping(intervals: seq<Interval>) returns (merged: seq<Interval>)
    ensures merged == Merged(intervals)
  {
    hide Insert, Sort;
    if intervals == [] { return []; }
    var ordered := Sort(intervals);
    var current := ordered[0];
    merged := [];
    var k := 1;
    while k < |ordered|
      invariant 1 <= k <= |ordered|
      invariant merged + MergeFrom(current, ordered[k..]) == Merged(intervals)
    {
      ghost var rest := ordered[k..];
      assert rest[0] == ordered[k] && rest[1..] == ordered[k + 1..];
      if ordered[k].start <= current.end {
        current := Interval(current.start, Max(current.end, ordered[k].end));
      } else {
        assert merged + ([current] + MergeFrom(rest[0], rest[1..])) == (merged + [current])
            + MergeFrom(rest[0], rest[1..]);
        merged := merged + [current];
        current := ordered[k];
      }
      k := k + 1;
    }
    assert ordered[k..] == [];
    merged := merged + [current];
  }

  lemma SplitCovered(x: Interval, s: seq<Interval>, t: int)
    ensures Covered([x] + s, t) <==> Has(x, t) || Covered(s, t)
  {
    CoveredAppend([x], s, t);
    if Has(x, t) { assert Has([x][0], t); }
  }

  lemma {:induction false} MergeFromPoints(current: Interval, rest: seq<Interval>, t: int)
    requires StartsSorted([current] + rest)
    ensures Covered(MergeFrom(current, rest), t) <==> Covered([current] + rest, t)
    decreases |rest|
  {
    if rest != [] {
      assert rest == [rest[0]] + rest[1..];
      SplitCovered(current, rest, t);
      SplitCovered(rest[0], rest[1..], t);
      var grown := Interval(current.start, Max(current.end, rest[0].end));
      StartsSortedTail(current, rest, grown);
      if rest[0].start <= current.end {
        MergeFromPoints(grown, rest[1..], t);
        SplitCovered(grown, rest[1..], t);
      } else {
        MergeFromPoints(rest[0], rest[1..], t);
        SplitCovered(current, MergeFrom(rest[0], rest[1..]), t);
      }
    } else {
      assert [current] + rest == [current];
    }
  }

  lemma {:induction false} MergeFromCanonical(current: Interval, rest: seq<Interval>)
    requires StartsSorted([current] + rest) && Proper([current] + rest)
    ensures var out := MergeFrom(current, rest); Canonical(out) && out[0].start == current.start
    decreases |rest|
  {
    if rest != [] {
      var grown := Interval(current.start, Max(current.end, rest[0].end));
      StartsSortedTail(current, rest, grown);
      forall i | 0 <= i < |rest|
        ensures ([grown] + rest[1..])[i].start < ([grown] + rest[1..])[i].end
        ensures ([rest[0]] + rest[1..])[i].start < ([rest[0]] + rest[1..])[i].end
      {
        assert ([current] + rest)[i + 1].start < ([current] + rest)[i + 1].end && ([current] + rest)[0] == current;
      }
      if rest[0].start <= current.end {
        MergeFromCanonical(grown, rest[1..]);
      } else {
        MergeFromCanonical(rest[0], rest[1..]);
        var tail := MergeFrom(rest[0], rest[1..]);
        forall j | 0 <= j < |tail| ensures current.end < tail[j].start {
          if j > 0 { assert tail[0].end < tail[j].start; }
        }
      }
    } else {
      assert ([current] + rest)[0] == current;
    }
  }

  /** Merging keeps the point set, of any input. */
  lemma MergedSamePoints(intervals: seq<Interval>)
    ensures SamePoints(Merged(intervals), intervals)
  {
    SortIsSorted(intervals);
    var ordered := Sort(intervals);
    SameElementsSamePoints(ordered, intervals);
    if ordered != [] {
      assert ordered == [ordered[0]] + ordered[1..];
      forall i, j | 0 <= i < j < |ordered|
        ensures ordered[i].start <= ordered[j].start
      {
        assert Before(ordered[i], ordered[j]);
      }
      forall t ensures Covered(Merged(intervals), t) <==> Covered(intervals, t) {
        MergeFromPoints(ordered[0], ordered[1..], t);
      }
    }
  }

  /** Merging non-empty intervals gives a sorted, strictly separated list. */
  lemma MergedCanonical(intervals: seq<Interval>)
    requires Proper(intervals)
    ensures Canonical(Merged(intervals))
  {
    SortIsSorted(intervals);
    var ordered := Sort(intervals);
    if ordered != [] {
      assert ordered == [ordered[0]] + ordered[1..];
      forall i, j | 0 <= i < j < |ordered|
        ensures ordered[i].start <= ordered[j].start
      {
        assert Before(ordered[i], ordered[j]);
      }
      forall i | 0 <= i < |ordered| ensures ordered[i].start < ordered[i].end {
        assert ordered[i] in multiset(intervals);
      }
      MergeFromCanonical(ordered[0], ordered[1..]);
    }
  }

  lemma CanonicalFirst(s: seq<Interval>)
    requires Canonical(s) && s != []
    ensures Covered(s, s[0].start) && !Covered(s, s[0].end)
    ensures forall t :: Covered(s, t) ==> s[0].start <= t
    ensures forall t :: Covered(s, t) && t >= s[0].end <==> Covered(s[1..], t)
  {
    assert Has(s[0], s[0].start);
    assert s == [s[0]] + s[1..];
    forall t ensures Covered(s, t) ==> s[0].start <= t
             ensures Covered(s, t) && t >= s[0].end <==> Covered(s[1..], t)
             ensures t == s[0].end ==> !Covered(s, t)
    {
      SplitCovered(s[0], s[1..], t);
      if Covered(s[1..], t) {
        var k :| 0 <= k < |s[1..]| && Has(s[1..][k], t);
        assert s[0].end < s[k + 1].start;
      }
    }
  }

  /** A canonical list is determined by its point set. */
  lemma {:induction false} CanonicalUnique(a: seq<Interval>, b: seq<Interval>)
    requires Canonical(a) && Canonical(b) && SamePoints(a, b)
    ensures a == b
    decreases |a|
  {
    if a != [] && b != [] {
      CanonicalFirst(a);
      CanonicalFirst(b);
      assert a[0].start == b[0].start;
      assert Has(b[0], a[0].end) || b[0].end <= a[0].end;
      assert Has(a[0], b[0].end) || a[0].end <= b[0].end;
      CanonicalUnique(a[1..], b[1..]);
    } else if a != [] {
      CanonicalFirst(a);
    } else if b != [] {
      CanonicalFirst(b);
    }
  }

  /** Lists of non-empty intervals merge to the same list exactly when they have
      the same point set; so order and repetition do not matter. */
  lemma MergeIsCanonicalForm(a: seq<Interval>, b: seq<Interval>)
    requires Proper(a) && Proper(b)
    ensures Merged(a) == Merged(b) <==> SamePoints(a, b)
    ensures Merged(Merged(a)) == Merged(a)
  {
    MergedSamePoints(a); MergedSamePoints(b);
    MergedCanonical(a); MergedCanonical(b);
    if SamePoints(a, b) { CanonicalUnique(Merged(a), Merged(b)); }
    MergedSamePoints(Merged(a));
    MergedCanonical(Merged(a));
    CanonicalUnique(Merged(Merged(a)), Merged(a));
  }

  function TotalLength(s: seq<Interval>): int {
    if s == [] then 0 else s[0].end - s[0].start + TotalLength(s[1..])
  }

  lemma {:induction false} CanonicalMeasure(s: seq<Interval>, lo: int, hi: int)
    requires Canonical(s) && lo <= hi
    requires forall i :: 0 <= i < |s| ==> lo <= s[i].start && s[i].end <= hi
    ensures TotalLength(s) == Measure(s, lo, hi)
    decreases |s|
  {
    if s == [] {
      MeasureExtremes(s, lo, hi);
    } else {
      var x := s[0];
      CanonicalFirst(s);
      MeasureAdds(s, lo, x.start, hi);
      MeasureAdds(s, x.start, x.end, hi);
      MeasureExtremes(s, lo, x.start);
      forall t | x.start <= t < x.end ensures Covered(s, t) { assert Has(s[0], t); }
      MeasureExtremes(s, x.start, x.end);
      MeasureOfPoints(s, s[1..], x.end, hi);
      CanonicalMeasure(s[1..], x.end, hi);
    }
  }

  /** The merged list's total length is what the report measures, over any
      range that encloses the intervals. */
  lemma MergedLengthIsCoveredDuration(intervals: seq<Interval>, lo: int, hi: int)
    requires Proper(intervals) && lo <= hi
    requires forall i :: 0 <= i < |intervals| ==> lo <= intervals[i].start && intervals[i].end <= hi
    ensures TotalLength(Merged(intervals)) == Measure(intervals, lo, hi)
  {
    var merged := Merged(intervals);
    MergedSamePoints(intervals);
    MergedCanonical(intervals);
    forall i | 0 <= i < |merged| ensures lo <= merged[i].start && merged[i].end <= hi {
      assert Has(merged[i], merged[i].start) && Has(merged[i], merged[i].end - 1);
      assert Covered(intervals, merged[i].start) && Covered(intervals, merged[i].end - 1);
    }
    CanonicalMeasure(merged, lo, hi);
    MeasureOfPoints(merged, intervals, lo, hi);
  }

  // ---------------------------------------------------------- context interval

  predicate Touches(a: Interval, b: Interval) { a.start <= b.end && b.start <= a.end }

  function Connected(requested: Interval, events: seq<Interval>): seq<Interval> {
    if events == [] then []
    else (if Touches(events[0], requested) then [events[0]] else []) + Connected(requested, events[1..])
  }

  function ContextInterval(requested: Interval, events: seq<Interval>): Interval {
    Merged([requested] + Connected(requested, events))[0]
  }

  lemma {:induction false} ConnectedIsFilter(requested: Interval, events: seq<Interval>, x: Interval)
    ensures x in Connected(requested, events) <==> x in events && Touches(x, requested)
  {
    if events != [] {
      assert events == [events[0]] + events[1..];
      ConnectedIsFilter(requested, events[1..], x);
    }
  }

  ghost predicate Hull(h: Interval, s: seq<Interval>) {
    && (forall x :: x in s ==> h.start <= x.start && x.end <= h.end)
    && (exists x :: x in s && x.start == h.start)
    && (exists x :: x in s && x.end == h.end)
  }

  /** One block remains: while the request is still ahead, what is merged so far
      reaches its start; afterwards, what follows starts by its end. */
  lemma {:induction false} OneBlock(current: Interval, rest: seq<Interval>, requested: Interval)
    requires StartsSorted([current] + rest)
    requires if requested in rest then requested.start <= current.end else requested.end <= current.end
    requires forall x :: x in rest ==> x == requested || Touches(x, requested)
    ensures var out := MergeFrom(current, rest);
            && |out| == 1 && out[0].start == current.start && current.end <= out[0].end
            && (forall x :: x in rest ==> x.end <= out[0].end)
            && (out[0].end == current.end || exists x :: x in rest && x.end == out[0].end)
    decreases |rest|
  {
    if rest != [] {
      var grown := Interval(current.start, Max(current.end, rest[0].end));
      StartsSortedTail(current, rest, grown);
      assert rest == [rest[0]] + rest[1..];
      if requested in rest {
        var k :| 0 <= k < |rest| && rest[k] == requested;
        var all := [current] + rest;
        assert all[1] == rest[0] && all[k + 1] == requested;
        assert k == 0 || all[1].start <= all[k + 1].start;
      } else {
        assert rest[0] in rest && Touches(rest[0], requested);
      }
      assert rest[0].start <= current.end;
      OneBlock(grown, rest[1..], requested);
    } else {
      assert MergeFrom(current, rest) == [current];
    }
  }

  /** The sorted list starts with the request or with something that reaches it. */
  lemma FirstReachesRequest(requested: Interval, linked: seq<Interval>, ordered: seq<Interval>)
    requires multiset(ordered) == multiset([requested] + linked) && ordered != []
    requires forall x :: x in linked ==> Touches(x, requested)
    ensures if requested in ordered[1..] then requested.start <= ordered[0].end else requested.end <= ordered[0].end
    ensures forall x :: x in ordered[1..] ==> x == requested || Touches(x, requested)
  {
    var all, rest := [requested] + linked, ordered[1..];
    assert ordered == [ordered[0]] + rest;
    forall x | x in ordered ensures x == requested || x in linked {
      assert x in multiset(all);
    }
    assert requested in multiset(ordered) by { assert all[0] == requested; }
    assert requested in ordered && ordered[0] in ordered;
    if ordered[0] == requested && requested in rest {
      assert multiset(ordered)[requested] == 1 + multiset(rest)[requested];
      assert multiset(all)[requested] == 1 + multiset(linked)[requested];
      assert requested in multiset(rest) && requested in linked by { assert multiset(linked)[requested] > 0; }
    }
  }

  /** Exactly one interval remains, and it is the hull of the request and the
      source events that touch it. */
  lemma ContextIntervalIsHull(requested: Interval, events: seq<Interval>)
    ensures var all := [requested] + Connected(requested, events);
            |Merged(all)| == 1 && Hull(ContextInterval(requested, events), all)
  {
    var linked := Connected(requested, events);
    var all := [requested] + linked;
    SortStarts(all);
    var ordered := Sort(all);
    assert all[0] in ordered;
    forall x | x in linked ensures Touches(x, requested) { ConnectedIsFilter(requested, events, x); }
    FirstReachesRequest(requested, linked, ordered);
    var rest := ordered[1..];
    assert ordered == [ordered[0]] + rest;
    OneBlock(ordered[0], rest, requested);
    HullOfBlock(ContextInterval(requested, events), all, ordered);
  }

  lemma HullOfBlock(h: Interval, all: seq<Interval>, ordered: seq<Interval>)
    requires StartsSorted(ordered) && ordered != [] && forall x :: x in all <==> x in ordered
    requires h.start == ordered[0].start && ordered[0].end <= h.end
    requires forall x :: x in ordered[1..] ==> x.end <= h.end
    requires h.end == ordered[0].end || exists x :: x in ordered[1..] && x.end == h.end
    ensures Hull(h, all)
  {
    forall x | x in all ensures h.start <= x.start && x.end <= h.end {
      var k :| 0 <= k < |ordered| && ordered[k] == x;
      if k > 0 { assert ordered[0].start <= ordered[k].start && ordered[1..][k - 1] == x; }
    }
    assert ordered[0] in all;
    if h.end != ordered[0].end {
      var x :| x in ordered[1..] && x.end == h.end;
      assert x in ordered;
    }
  }
}
