/** Which intervals one label emits, in terms of its samples alone: the positive samples
    fall into stretches, and every stretch that lasts long enough is one interval. */
module SignalReadings {
  import opened Common
  import opened SignalIntervals
  import opened SignalAccounts

  /** No sample gap between this sample and the one before it. */
  predicate IsLinked(p: Timing, samples: seq<Sample>, k: nat)
    requires k < |samples|
  {
    k > 0 && samples[k].time - samples[k - 1].time <= p.maximumGap
  }

  /** Two positive samples with none in between belong together: no sample gap separates
      them and the pause between them, if there is one, is shorter than the merge gap. */
  predicate AreJoined(p: Timing, samples: seq<Sample>, a: nat, b: nat)
    requires a < |samples| && b < |samples|
  {
    && a < b && (forall k :: a < k <= b ==> IsLinked(p, samples, k))
    && (a + 1 < b ==> samples[b].time - samples[a + 1].time < p.mergeGap)
  }

  /** Positions of samples, each joined to the one before. */
  predicate IsStretch(p: Timing, samples: seq<Sample>, g: seq<nat>) {
    && g != [] && Inside(samples, g)
    && forall i :: 0 <= i < |g| - 1 ==> AreJoined(p, samples, g[i], g[i + 1])
  }

  function LastOf(g: seq<nat>): nat
    requires g != []
  {
    g[|g| - 1]
  }

  /** Where a stretch ends: at the sample after its last one, unless a sample gap or
      nothing at all comes after that. */
  function EndAt(p: Timing, samples: seq<Sample>, last: nat): Option<int> {
    if last + 1 < |samples| && IsLinked(p, samples, last + 1) then Some(samples[last + 1].time) else None
  }

  /** The two stretches do not belong together. */
  predicate AreApart(p: Timing, samples: seq<Sample>, g: seq<nat>, h: seq<nat>) {
    && g != [] && h != [] && Inside(samples, g) && Inside(samples, h)
    && !AreJoined(p, samples, LastOf(g), h[0])
  }

  /** No sample from `n` on belongs to the stretch. */
  ghost predicate IsOver(p: Timing, samples: seq<Sample>, g: seq<nat>, n: nat) {
    && g != [] && Inside(samples, g)
    && forall b :: n <= b < |samples| ==> !AreJoined(p, samples, LastOf(g), b)
  }

  /** The finished stretches after the first `n` samples, each with its end, apart. */
  ghost predicate AreFinished(p: Timing, samples: seq<Sample>, runs: seq<Run>, groups: seq<seq<nat>>, n: nat) {
    && |runs| == |groups|
    && (forall k :: 0 <= k < |groups| ==>
          IsStretch(p, samples, groups[k]) && LastOf(groups[k]) + 1 < n
          && runs[k].end == EndAt(p, samples, LastOf(groups[k])))
    && (forall k :: 0 <= k < |groups| - 1 ==> AreApart(p, samples, groups[k], groups[k + 1]))
  }

  /** The stretch that the candidate holds before sample `n`: it is running, or paused
      since the sample after its last one for less than the merge gap. */
  predicate IsHeld(p: Timing, samples: seq<Sample>, c: Candidate, g: seq<nat>, n: nat)
    requires n <= |samples|
  {
    && IsStretch(p, samples, g)
    && var last := LastOf(g);
    && last < n && (forall k :: last < k < n ==> IsLinked(p, samples, k))
    && (if last == n - 1 then c.gapStart.None?
        else c.gapStart == Some(samples[last + 1].time) && samples[n - 1].time - samples[last + 1].time < p.mergeGap)
  }

  ghost predicate IsRead(p: Timing, samples: seq<Sample>, n: nat)
    requires n <= |samples|
  {
    var a, candidate := AccountAt(p, samples, n), CandidateAt(p, samples, n);
    && AreFinished(p, samples, FinishedAt(p, samples, n), a.finished, n)
    && (if candidate.Some? then
          && IsHeld(p, samples, candidate.value, a.active, n)
          && (a.finished != [] ==> AreApart(p, samples, a.finished[|a.finished| - 1], a.active))
        else a.active == [] && (a.finished != [] ==> IsOver(p, samples, a.finished[|a.finished| - 1], n)))
  }

  function FinishedNow(p: Timing, samples: seq<Sample>, i: nat, candidate: Option<Candidate>): seq<Run>
    requires i < |samples|
  {
    if IsSplit(p, PreviousAt(samples, i), samples[i].time) then FinishedAtSplit(candidate)
    else FinishedBy(p, candidate, samples[i])
  }

  lemma SplitsAt(p: Timing, samples: seq<Sample>, i: nat)
    requires i < |samples|
    ensures IsSplit(p, PreviousAt(samples, i), samples[i].time) <==> i > 0 && !IsLinked(p, samples, i)
  {
  }

  /** A sample finishes the held stretch when nothing after it belongs to the stretch. */
  lemma FinishingReads(p: Timing, samples: seq<Sample>, i: nat, c: Candidate, active: seq<nat>)
    requires Increasing(samples) && i < |samples| && IsHeld(p, samples, c, active, i)
    requires FinishedNow(p, samples, i, Some(c)) != []
    ensures |FinishedNow(p, samples, i, Some(c))| == 1
    ensures FinishedNow(p, samples, i, Some(c))[0].end == EndAt(p, samples, LastOf(active))
    ensures IsOver(p, samples, active, i + 1) && (samples[i].positive ==> !AreJoined(p, samples, LastOf(active), i))
  {
    var last := LastOf(active);
    SplitsAt(p, samples, i);
    forall b | i < b < |samples| ensures !AreJoined(p, samples, last, b) {
      assert samples[i].time < samples[b].time;
      assert IsLinked(p, samples, i) || !AreJoined(p, samples, last, b);
    }
  }

  /** Otherwise the stretch goes on, with this sample when it is positive. */
  lemma HoldingReads(p: Timing, samples: seq<Sample>, i: nat, c: Candidate, active: seq<nat>)
    requires Increasing(samples) && i < |samples| && IsHeld(p, samples, c, active, i)
    requires FinishedNow(p, samples, i, Some(c)) == []
    ensures var next := Observe(p, PreviousAt(samples, i), Some(c), samples[i]).0;
            next.Some? && IsHeld(p, samples, next.value, active + if samples[i].positive then [i] else [], i + 1)
  {
    var last, now := LastOf(active), active + [i];
    SplitsAt(p, samples, i);
    if samples[i].positive {
      assert AreJoined(p, samples, last, i);
      forall k | 0 <= k < |now| - 1 ensures AreJoined(p, samples, now[k], now[k + 1]) {
        if k < |active| - 1 { assert now[k] == active[k] && now[k + 1] == active[k + 1]; }
      }
    } else {
      assert active + [] == active;
    }
  }

  lemma NewReads(p: Timing, samples: seq<Sample>, i: nat, candidate: Option<Candidate>)
    requires i < |samples| && (candidate.None? || FinishedNow(p, samples, i, candidate) != [])
    ensures var next := Observe(p, PreviousAt(samples, i), candidate, samples[i]).0;
            if samples[i].positive then next.Some? && IsHeld(p, samples, next.value, [i], i + 1) else next.None?
  {
  }

  /** One more finished stretch, apart from the last one. */
  lemma FinishedGrows(p: Timing, samples: seq<Sample>, runs: seq<Run>, groups: seq<seq<nat>>, n: nat, r: Run,
                      g: seq<nat>)
    requires AreFinished(p, samples, runs, groups, n) && IsStretch(p, samples, g) && LastOf(g) < n
    requires r.end == EndAt(p, samples, LastOf(g))
    requires groups != [] ==> AreApart(p, samples, groups[|groups| - 1], g)
    ensures AreFinished(p, samples, runs + [r], groups + [g], n + 1)
  {
    hide AreJoined, EndAt;
  }

  lemma FinishedLater(p: Timing, samples: seq<Sample>, runs: seq<Run>, groups: seq<seq<nat>>, n: nat)
    requires AreFinished(p, samples, runs, groups, n)
    ensures AreFinished(p, samples, runs, groups, n + 1)
  {
  }

  /** What one sample does to the account. */
  lemma AccountNext(p: Timing, samples: seq<Sample>, i: nat)
    requires i < |samples|
    ensures var before, after := AccountAt(p, samples, i), AccountAt(p, samples, i + 1);
            var finished := FinishedNow(p, samples, i, CandidateAt(p, samples, i));
            && FinishedAt(p, samples, i + 1) == FinishedAt(p, samples, i) + finished
            && CandidateAt(p, samples, i + 1)
                == Observe(p, PreviousAt(samples, i), CandidateAt(p, samples, i), samples[i]).0
            && after.finished == (if finished != [] then before.finished + [before.active] else before.finished)
            && after.active == (if finished != [] then [] else before.active)
                + if samples[i].positive then [i] else []
  {
    hide Observe, FinishedBy, FinishedAtSplit, IsSplit;
  }

  lemma ReadStep(p: Timing, samples: seq<Sample>, i: nat)
    requires Increasing(samples) && i < |samples| && IsRead(p, samples, i)
    ensures IsRead(p, samples, i + 1)
  {
    hide AreFinished, IsStretch, AreJoined, EndAt, Observe, FinishedNow, Increasing, AccountAt, CandidateAt, FinishedAt;
    var a, candidate := AccountAt(p, samples, i), CandidateAt(p, samples, i);
    var finished := FinishedNow(p, samples, i, candidate);
    AccountNext(p, samples, i);
    FinishedLater(p, samples, FinishedAt(p, samples, i), a.finished, i);
    if candidate.None? {
      NothingFinished(p, samples, i);
      NewReads(p, samples, i, candidate);
      assert [] + [i] == [i];
      assert FinishedAt(p, samples, i) + [] == FinishedAt(p, samples, i);
    } else if finished != [] {
      FinishingReads(p, samples, i, candidate.value, a.active);
      NewReads(p, samples, i, candidate);
      assert finished == [finished[0]] && [] + [i] == [i];
      HeldIsStretch(p, samples, candidate.value, a.active, i);
      FinishedGrows(p, samples, FinishedAt(p, samples, i), a.finished, i, finished[0], a.active);
    } else {
      HoldingReads(p, samples, i, candidate.value, a.active);
      HeldIsStretch(p, samples, candidate.value, a.active, i);
      assert FinishedAt(p, samples, i) + [] == FinishedAt(p, samples, i) && a.active + [] == a.active;
    }
  }

  lemma NothingFinished(p: Timing, samples: seq<Sample>, i: nat)
    requires i < |samples|
    ensures FinishedNow(p, samples, i, None) == []
  {
  }

  lemma HeldIsStretch(p: Timing, samples: seq<Sample>, c: Candidate, g: seq<nat>, n: nat)
    requires n <= |samples| && IsHeld(p, samples, c, g, n)
    ensures IsStretch(p, samples, g) && g != [] && Inside(samples, g) && LastOf(g) < n
  {
  }

  lemma NothingRead(p: Timing, samples: seq<Sample>)
    ensures IsRead(p, samples, 0)
  {
  }

  lemma {:induction false} EverythingRead(p: Timing, samples: seq<Sample>, n: nat)
    requires Increasing(samples) && n <= |samples|
    ensures IsRead(p, samples, n)
  {
    hide IsRead, Increasing;
    if n == 0 {
      NothingRead(p, samples);
    } else {
      EverythingRead(p, samples, n - 1);
      ReadStep(p, samples, n - 1);
    }
  }

  // ------------------------------------------------------------ what is emitted

  lemma {:induction false} KeepAppend(p: Timing, a: seq<Run>, b: seq<Run>, closing: Option<int>)
    ensures Keep(p, a + b, closing) == Keep(p, a, closing) + Keep(p, b, closing)
  {
    if a == [] {
      assert a + b == b;
    } else {
      assert (a + b)[1..] == a[1..] + b;
      KeepAppend(p, a[1..], b, closing);
    }
  }

  lemma KeepOne(p: Timing, r: Run, closing: Option<int>)
    ensures var end := if r.end.Some? then r.end else closing;
            Keep(p, [r], closing) ==
            if end.None? || r.count == 0 || end.value - r.begin < p.minimumDuration then []
            else [Detected(r.begin, end.value, Clamp(r.total / r.count as real))]
  {
    assert [r][1..] == [];
  }

  /** What a sample makes the automaton emit is what is kept of what it finishes. */
  lemma EmitsFinished(p: Timing, samples: seq<Sample>, i: nat, candidate: Option<Candidate>)
    requires i < |samples|
    ensures Observe(p, PreviousAt(samples, i), candidate, samples[i]).1
        == Keep(p, FinishedNow(p, samples, i, candidate), None)
  {
    hide Keep;
    NothingKept(p);
    if candidate.Some? {
      var c := candidate.value;
      KeepOne(p, RunOf(c), None);
      KeepOne(p, RunOf(c.(gapStart := Some(if c.gapStart.Some? then c.gapStart.value else samples[i].time))), None);
    }
  }

  lemma NothingKept(p: Timing)
    ensures forall closing :: Keep(p, [], closing) == []
  {
  }

  lemma {:induction false} EmittedSoFar(p: Timing, samples: seq<Sample>, n: nat, flushAt: int)
    requires n <= |samples|
    ensures Online(p, None, None, samples, flushAt)
            == Keep(p, FinishedAt(p, samples, n), None)
               + Online(p, PreviousAt(samples, n), CandidateAt(p, samples, n), samples[n..], flushAt)
  {
    hide Observe, FinishedBy, FinishedAtSplit, IsSplit, Keep;
    if n == 0 {
      NothingKept(p);
      assert samples[0..] == samples;
      var all := Online(p, None, None, samples, flushAt);
      assert [] + all == all;
    } else {
      EmittedSoFar(p, samples, n - 1, flushAt);
      assert samples[n - 1..][1..] == samples[n..];
      EmitsFinished(p, samples, n - 1, CandidateAt(p, samples, n - 1));
      KeepAppend(p, FinishedAt(p, samples, n - 1),
                 FinishedNow(p, samples, n - 1, CandidateAt(p, samples, n - 1)), None);
    }
  }

  lemma FlushKeeps(p: Timing, candidate: Option<Candidate>, flushAt: int)
    ensures Flush(p, candidate, flushAt) == Keep(p, FinishedAtSplit(candidate), Some(flushAt))
  {
    if candidate.Some? { KeepOne(p, RunOf(candidate.value), Some(flushAt)); }
  }

  /** The candidate is kept for this interval, when it has an end. */
  predicate IsKept(p: Timing, r: Run, end: Option<int>, d: Detected) {
    && end.Some? && r.count > 0 && end.value - r.begin >= p.minimumDuration
    && d == Detected(r.begin, end.value, Clamp(r.total / r.count as real))
  }

  lemma {:induction false} KeepMembers(p: Timing, runs: seq<Run>, d: Detected)
    ensures d in Keep(p, runs, None) <==> exists k :: 0 <= k < |runs| && IsKept(p, runs[k], runs[k].end, d)
  {
    if runs != [] {
      KeepMembers(p, runs[1..], d);
      if k :| 0 <= k < |runs[1..]| && IsKept(p, runs[1..][k], runs[1..][k].end, d) {
        assert runs[k + 1] == runs[1..][k];
      }
      if k :| 0 < k < |runs| && IsKept(p, runs[k], runs[k].end, d) { assert runs[1..][k - 1] == runs[k]; }
    }
  }

  /** The stretches of a run: they hold exactly the positions of its positive samples, in
      order, and neighbours do not belong together. */
  ghost predicate AreStretches(p: Timing, samples: seq<Sample>, groups: seq<seq<nat>>) {
    && Rise(Flattened(groups)) && (forall i: nat :: i in Flattened(groups) <==> i < |samples| && samples[i].positive)
    && (forall k :: 0 <= k < |groups| ==> IsStretch(p, samples, groups[k]))
    && (forall k :: 0 <= k < |groups| - 1 ==> AreApart(p, samples, groups[k], groups[k + 1]))
  }

  function MeanOf(samples: seq<Sample>, g: seq<nat>): real
    requires g != [] && Inside(samples, g)
  {
    SumAt(samples, g) / |g| as real
  }

  /** A stretch with an end, or still going on at the flush, that lasts long enough is
      reported from its first sample to its end, with its mean contribution, kept
      between 0 and 1, as the confidence. */
  predicate IsReported(p: Timing, samples: seq<Sample>, flushAt: int, g: seq<nat>, d: Detected)
    requires g != [] && Inside(samples, g)
  {
    var end := if LastOf(g) + 1 == |samples| then Some(flushAt) else EndAt(p, samples, LastOf(g));
    var mean := MeanOf(samples, g);
    && end.Some? && d.begin == samples[g[0]].time && d.end == end.value && d.end - d.begin >= p.minimumDuration
    && d.confidence == if mean < 0.0 then 0.0 else if mean > 1.0 then 1.0 else mean
  }

  ghost predicate ReportsExactly(p: Timing, samples: seq<Sample>, flushAt: int, groups: seq<seq<nat>>,
                                 out: seq<Detected>)
  {
    forall d ::
      d in out <==>
      exists k :: 0 <= k < |groups| && groups[k] != [] && Inside(samples, groups[k])
                  && IsReported(p, samples, flushAt, groups[k], d)
  }

  lemma KeptIsReported(p: Timing, samples: seq<Sample>, flushAt: int, r: Run, g: seq<nat>, end: Option<int>,
                       d: Detected)
    requires Counts(samples, r, g)
    requires end == if LastOf(g) + 1 == |samples| then Some(flushAt) else EndAt(p, samples, LastOf(g))
    ensures IsKept(p, r, end, d) <==> IsReported(p, samples, flushAt, g, d)
  {
    hide SumAt, EndAt;
  }

  lemma HeldEnds(p: Timing, samples: seq<Sample>, c: Candidate, g: seq<nat>, flushAt: int)
    requires IsHeld(p, samples, c, g, |samples|)
    ensures (if c.gapStart.Some? then c.gapStart else Some(flushAt))
            == if LastOf(g) + 1 == |samples| then Some(flushAt) else EndAt(p, samples, LastOf(g))
  {
    if LastOf(g) + 1 < |samples| { assert IsLinked(p, samples, LastOf(g) + 1); }
  }

  lemma OnlineOfNothing(p: Timing, previous: Option<int>, candidate: Option<Candidate>, flushAt: int)
    ensures Online(p, previous, candidate, [], flushAt) == Flush(p, candidate, flushAt)
  {
  }

  /** The stretches the automaton went through, the last one still held. */
  function StretchesOf(p: Timing, samples: seq<Sample>): seq<seq<nat>> {
    var a := AccountAt(p, samples, |samples|);
    a.finished + if CandidateAt(p, samples, |samples|).Some? then [a.active] else []
  }

  lemma StretchesAre(p: Timing, samples: seq<Sample>)
    requires Increasing(samples)
    ensures AreStretches(p, samples, StretchesOf(p, samples))
  {
    hide IsStretch, AreJoined, EndAt, Counts, Candidates, FinishedAt, CandidateAt, AccountAt, Flattened,
        PositivePositions;
    var n := |samples|;
    var a := AccountAt(p, samples, n);
    EverythingRead(p, samples, n);
    EveryPositiveCountedOnce(p, samples);
    PositionsArePositive(samples, n);
    FlattenedAppend(a.finished, a.active);
    assert a.finished + [] == a.finished && Flattened(a.finished) + [] == Flattened(a.finished);
    if CandidateAt(p, samples, n).Some? {
      HeldIsStretch(p, samples, CandidateAt(p, samples, n).value, a.active, n);
    }
  }

  lemma FinishedReported(p: Timing, samples: seq<Sample>, flushAt: int, runs: seq<Run>, groups: seq<seq<nat>>,
                         d: Detected)
    requires AreFinished(p, samples, runs, groups, |samples|)
    requires forall k :: 0 <= k < |runs| ==> Counts(samples, runs[k], groups[k])
    ensures d in Keep(p, runs, None) <==>
        exists k :: 0 <= k < |groups| && groups[k] != [] && Inside(samples, groups[k])
                    && IsReported(p, samples, flushAt, groups[k], d)
  {
    hide Keep, Counts, EndAt, IsReported, IsKept, AreJoined;
    KeepMembers(p, runs, d);
    forall k | 0 <= k < |groups|
      ensures groups[k] != [] && Inside(samples, groups[k])
      ensures IsKept(p, runs[k], runs[k].end, d) <==> IsReported(p, samples, flushAt, groups[k], d)
    {
      KeptIsReported(p, samples, flushAt, runs[k], groups[k], runs[k].end, d);
    }
  }

  /** On every increasing run, what is emitted for a label is exactly the stretches of its
      positive samples that have an end and last long enough. */
  lemma OfflineExactly(p: Timing, samples: seq<Sample>, flushAt: int)
    requires Increasing(samples)
    ensures exists groups ::
        AreStretches(p, samples, groups) && ReportsExactly(p, samples, flushAt, groups, Offline(p, samples, flushAt))
  {
    hide AreStretches, AreApart, IsStretch, Counts, Candidates, FinishedAt, CandidateAt, AccountAt, Offline, Online,
        Keep, Increasing, IsReported, FinishedAtSplit, Flattened, PositivePositions, EndAt;
    var n := |samples|;
    var a, runs, candidate := AccountAt(p, samples, n), FinishedAt(p, samples, n), CandidateAt(p, samples, n);
    StretchesAre(p, samples);
    EverythingRead(p, samples, n);
    EveryPositiveCountedOnce(p, samples);
    OnlineIsOffline(p, None, samples, flushAt);
    EmittedSoFar(p, samples, n, flushAt);
    assert samples[n..] == [];
    OnlineOfNothing(p, PreviousAt(samples, n), candidate, flushAt);
    FlushKeeps(p, candidate, flushAt);
    var out := Offline(p, samples, flushAt);
    var groups := StretchesOf(p, samples);
    forall d
      ensures d in out <==>
          exists k :: 0 <= k < |groups| && groups[k] != [] && Inside(samples, groups[k])
                      && IsReported(p, samples, flushAt, groups[k], d)
    {
      FinishedReported(p, samples, flushAt, runs, a.finished, d);
      if candidate.Some? {
        HeldReported(p, samples, flushAt, candidate.value, a.active, d);
        assert groups[|a.finished|] == a.active;
      } else {
        NothingFlushed(p, flushAt);
        assert groups == a.finished;
      }
      assert forall k :: 0 <= k < |a.finished| ==> groups[k] == a.finished[k];
    }
  }

  lemma NothingFlushed(p: Timing, flushAt: int)
    ensures Keep(p, FinishedAtSplit(None), Some(flushAt)) == []
  {
  }

  lemma HeldReported(p: Timing, samples: seq<Sample>, flushAt: int, c: Candidate, g: seq<nat>, d: Detected)
    requires IsHeld(p, samples, c, g, |samples|) && Counts(samples, RunOf(c), g)
    ensures g != [] && Inside(samples, g)
    ensures d in Keep(p, FinishedAtSplit(Some(c)), Some(flushAt)) <==> IsReported(p, samples, flushAt, g, d)
  {
    hide IsReported, EndAt, IsStretch;
    HeldEnds(p, samples, c, g, flushAt);
    KeepOne(p, RunOf(c), Some(flushAt));
    KeptIsReported(p, samples, flushAt, RunOf(c), g, if c.gapStart.Some? then c.gapStart else Some(flushAt), d);
  }
}
