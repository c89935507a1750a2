/** One label of the student-signal detector: the online candidate automaton, an
    offline definition over the whole sample sequence, and the proof that the
    automaton emits exactly what the offline definition says. */
module SignalIntervals {
  import opened Common

  datatype Timing = Timing(minimumDuration: nat, maximumGap: nat, mergeGap: nat)

  /** One analysed sample of one label. */
  datatype Sample = Sample(time: int, positive: bool, contribution: real)

  datatype Candidate = Candidate(begin: int, count: nat, total: real, gapStart: Option<int>)

  datatype Detected = Detected(begin: int, end: int, confidence: real)

  function Clamp(x: real): real { if x < 0.0 then 0.0 else if x > 1.0 then 1.0 else x }

  // ---------------------------------------------------------------- online

  function Close(p: Timing, c: Candidate, end: int): seq<Detected> {
    if end - c.begin < p.minimumDuration || c.count == 0 then []
    else [Detected(c.begin, end, Clamp(c.total / c.count as real))]
  }

  function Advance(p: Timing, candidate: Option<Candidate>, s: Sample): (Option<Candidate>, seq<Detected>) {
    match candidate
    case None =>
      (if s.positive then Some(Candidate(s.time, 1, s.contribution, None)) else None, [])
    case Some(c) =>
      if s.positive then
        if c.gapStart.Some? && s.time - c.gapStart.value >= p.mergeGap then
          (Some(Candidate(s.time, 1, s.contribution, None)), Close(p, c, c.gapStart.value))
        else
          (Some(Candidate(c.begin, c.count + 1, c.total + s.contribution, None)), [])
      else
        var gap := if c.gapStart.Some? then c.gapStart.value else s.time;
        if s.time - gap >= p.mergeGap then (None, Close(p, c, gap))
        else (Some(c.(gapStart := Some(gap))), [])
  }

  /** A sample gap: nothing is known about what happened in between. */
  predicate IsSplit(p: Timing, previous: Option<int>, now: int) {
    previous.Some? && now - previous.value > p.maximumGap
  }

  /** At a sample gap, close what had already stopped and drop what was running. */
  function FinishEnded(p: Timing, candidate: Option<Candidate>): seq<Detected> {
    if candidate.Some? && candidate.value.gapStart.Some?
    then Close(p, candidate.value, candidate.value.gapStart.value) else []
  }

  function Flush(p: Timing, candidate: Option<Candidate>, now: int): seq<Detected> {
    if candidate.None? then []
    else Close(p, candidate.value, if candidate.value.gapStart.Some? then candidate.value.gapStart.value else now)
  }

  /** One analysed sample through the gap check and the automaton. */
  function Observe(p: Timing, previous: Option<int>, candidate: Option<Candidate>, s: Sample)
    : (Option<Candidate>, seq<Detected>)
  {
    if IsSplit(p, previous, s.time) then
      var (next, out) := Advance(p, None, s);
      (next, FinishEnded(p, candidate) + out)
    else Advance(p, candidate, s)
  }

  function Online(p: Timing, previous: Option<int>, candidate: Option<Candidate>, samples: seq<Sample>, flushAt: int)
    : seq<Detected>
    decreases |samples|
  {
    if samples == [] then Flush(p, candidate, flushAt)
    else
      var (next, out) := Observe(p, previous, candidate, samples[0]);
      out + Online(p, Some(samples[0].time), next, samples[1..], flushAt)
  }

  /** What is emitted without a flush, and the candidate that is left open. */
  function Streamed(p: Timing, previous: Option<int>, candidate: Option<Candidate>, samples: seq<Sample>)
    : (Option<Candidate>, seq<Detected>)
    decreases |samples|
  {
    if samples == [] then (candidate, [])
    else
      var (next, out) := Observe(p, previous, candidate, samples[0]);
      var (last, rest) := Streamed(p, Some(samples[0].time), next, samples[1..]);
      (last, out + rest)
  }

  lemma {:induction false} OnlineStreams(p: Timing, previous: Option<int>, candidate: Option<Candidate>,
                                         samples: seq<Sample>, flushAt: int)
    ensures var (last, out) := Streamed(p, previous, candidate, samples);
            Online(p, previous, candidate, samples, flushAt) == out + Flush(p, last, flushAt)
    decreases |samples|
  {
    hide Observe, Flush;
    if samples == [] {
      assert [] + Flush(p, candidate, flushAt) == Flush(p, candidate, flushAt);
    } else {
      OnlineStreams(p, Some(samples[0].time), Observe(p, previous, candidate, samples[0]).0, samples[1..], flushAt);
    }
  }

  // --------------------------------------------------------------- offline

  /** A maximal block of positive samples. It ends at the first sample that does
      not match, and has no end when the segment stops first. */
  datatype Run = Run(begin: int, end: Option<int>, count: nat, total: real)

  /** How many leading samples follow `previous` without a sample gap. */
  function SegmentAfter(p: Timing, previous: int, samples: seq<Sample>): (n: nat)
    ensures n <= |samples|
    decreases |samples|
  {
    if samples == [] || samples[0].time - previous > p.maximumGap then 0
    else 1 + SegmentAfter(p, samples[0].time, samples[1..])
  }

  function SegmentLength(p: Timing, samples: seq<Sample>): (n: nat)
    requires samples != []
    ensures 0 < n <= |samples|
  {
    1 + SegmentAfter(p, samples[0].time, samples[1..])
  }

  function PositivePrefix(samples: seq<Sample>): (n: nat)
    ensures n <= |samples|
  {
    if samples == [] || !samples[0].positive then 0 else 1 + PositivePrefix(samples[1..])
  }

  function Sum(samples: seq<Sample>): real {
    if samples == [] then 0.0 else samples[0].contribution + Sum(samples[1..])
  }

  function EndAfter(samples: seq<Sample>, n: nat): Option<int> {
    if n < |samples| then Some(samples[n].time) else None
  }

  /** The maximal positive runs of one segment. */
  function Runs(samples: seq<Sample>): seq<Run>
    decreases |samples|
  {
    if samples == [] then []
    else if !samples[0].positive then Runs(samples[1..])
    else
      var n := PositivePrefix(samples);
      [Run(samples[0].time, EndAfter(samples, n), n, Sum(samples[..n]))] + Runs(samples[n..])
  }

  predicate Bridges(p: Timing, a: Run, b: Run) {
    a.end.Some? && b.begin - a.end.value < p.mergeGap
  }

  /** Join each run to the next one that resumes within the merge gap. */
  function Bridge(p: Timing, runs: seq<Run>): seq<Run>
    decreases |runs|
  {
    if |runs| < 2 then runs
    else if Bridges(p, runs[0], runs[1]) then
      Bridge(p, [Run(runs[0].begin, runs[1].end, runs[0].count + runs[1].count, runs[0].total + runs[1].total)]
             + runs[2..])
    else [runs[0]] + Bridge(p, runs[1..])
  }

  /** Keep the runs that last long enough. A run that is still going ends at
      `closing`, or is dropped when there is no closing time. */
  function Keep(p: Timing, runs: seq<Run>, closing: Option<int>): seq<Detected> {
    if runs == [] then []
    else
      var end := if runs[0].end.Some? then runs[0].end else closing;
      (if end.None? || runs[0].count == 0 || end.value - runs[0].begin < p.minimumDuration then []
       else [Detected(runs[0].begin, end.value, Clamp(runs[0].total / runs[0].count as real))])
      + Keep(p, runs[1..], closing)
  }

  function Offline(p: Timing, samples: seq<Sample>, flushAt: int): seq<Detected>
    decreases |samples|
  {
    if samples == [] then []
    else
      var n := SegmentLength(p, samples);
      Keep(p, Bridge(p, Runs(samples[..n])), if n == |samples| then Some(flushAt) else None)
      + Offline(p, samples[n..], flushAt)
  }

  // ------------------------------------------------------------ refinement

  predicate Increasing(samples: seq<Sample>) {
    forall i, j :: 0 <= i < j < |samples| ==> samples[i].time < samples[j].time
  }

  predicate After(time: int, samples: seq<Sample>) {
    forall i :: 0 <= i < |samples| ==> time < samples[i].time
  }

  predicate Ended(candidate: Option<Candidate>, previous: int) {
    candidate.Some? ==>
        candidate.value.count > 0 && (candidate.value.gapStart.Some? ==> candidate.value.gapStart.value <= previous)
  }

  /** The runs of a segment whose first samples are already in `candidate`. */
  function Attach(candidate: Option<Candidate>, samples: seq<Sample>): seq<Run> {
    if candidate.None? then Runs(samples)
    else
      var c := candidate.value;
      if c.gapStart.Some? then [Run(c.begin, c.gapStart, c.count, c.total)] + Runs(samples)
      else
        var n := PositivePrefix(samples);
        [Run(c.begin, EndAfter(samples, n), c.count + n, c.total + Sum(samples[..n]))] + Runs(samples[n..])
  }

  lemma {:induction false} RunsStartInside(time: int, samples: seq<Sample>)
    requires After(time, samples)
    ensures forall i :: 0 <= i < |Runs(samples)| ==> time < Runs(samples)[i].begin
    decreases |samples|
  {
    if samples == [] {
    } else if !samples[0].positive {
      RunsStartInside(time, samples[1..]);
    } else {
      RunsStartInside(time, samples[PositivePrefix(samples)..]);
    }
  }

  /** A positive sample opens the runs of the rest of its segment. */
  lemma {:induction false} OpenRun(s: Sample, rest: seq<Sample>)
    requires s.positive
    ensures Runs([s] + rest) == Attach(Some(Candidate(s.time, 1, s.contribution, None)), rest)
    ensures PositivePrefix([s] + rest) == 1 + PositivePrefix(rest)
    ensures Sum(([s] + rest)[..1 + PositivePrefix(rest)]) == s.contribution + Sum(rest[..PositivePrefix(rest)])
  {
    hide Sum;
    var all, n := [s] + rest, PositivePrefix(rest);
    assert all[1..] == rest;
    assert all[n + 1..] == rest[n..];
    OpenSum(s, rest, n);
  }

  lemma OpenSum(s: Sample, rest: seq<Sample>, n: nat)
    requires n <= |rest|
    ensures Sum(([s] + rest)[..n + 1]) == s.contribution + Sum(rest[..n])
  {
    assert ([s] + rest)[..n + 1][1..] == rest[..n];
  }

  /** Positive samples that follow a running candidate extend its run. */
  lemma ExtendRun(c: Candidate, s: Sample, rest: seq<Sample>)
    requires s.positive && c.gapStart.None?
    ensures Attach(Some(c), [s] + rest)
        == Attach(Some(Candidate(c.begin, c.count + 1, c.total + s.contribution, None)), rest)
  {
    OpenRun(s, rest);
    assert ([s] + rest)[PositivePrefix(rest) + 1..] == rest[PositivePrefix(rest)..];
  }

  lemma SkipNegative(s: Sample, rest: seq<Sample>)
    requires !s.positive
    ensures Runs([s] + rest) == Runs(rest)
    ensures PositivePrefix([s] + rest) == 0
  {
    assert ([s] + rest)[1..] == rest;
  }

  /** A finished candidate followed by runs that start too late is closed alone. */
  lemma CloseAlone(p: Timing, c: Candidate, tail: seq<Run>, closing: Option<int>)
    requires c.gapStart.Some?
    requires tail != [] ==> tail[0].begin - c.gapStart.value >= p.mergeGap
    ensures var runs := [Run(c.begin, c.gapStart, c.count, c.total)] + tail;
            Keep(p, Bridge(p, runs), closing) == Close(p, c, c.gapStart.value) + Keep(p, Bridge(p, tail), closing)
  {
    var r := Run(c.begin, c.gapStart, c.count, c.total);
    var runs := [r] + tail;
    assert runs[1..] == tail;
    assert Bridge(p, runs) == [r] + Bridge(p, tail);
    assert ([r] + Bridge(p, tail))[1..] == Bridge(p, tail);
  }

  /** A run that resumes within the merge gap continues the candidate. */
  lemma Resume(p: Timing, c: Candidate, s: Sample, rest: seq<Sample>)
    requires s.positive && c.gapStart.Some? && s.time - c.gapStart.value < p.mergeGap
    ensures Bridge(p, Attach(Some(c), [s] + rest))
            == Bridge(p, Attach(Some(Candidate(c.begin, c.count + 1, c.total + s.contribution, None)), rest))
  {
    OpenRun(s, rest);
    var n := PositivePrefix(rest);
    var r := Run(c.begin, c.gapStart, c.count, c.total);
    var resumed := Run(s.time, EndAfter(rest, n), 1 + n, s.contribution + Sum(rest[..n]));
    var runs := Attach(Some(c), [s] + rest);
    assert runs == [r, resumed] + Runs(rest[n..]);
    assert runs[2..] == Runs(rest[n..]);
  }

  /** Feeding one more sample commutes with the offline passes over the segment. */
  lemma AdvanceStep(p: Timing, candidate: Option<Candidate>, s: Sample, rest: seq<Sample>,
                    closing: Option<int>)
    requires After(s.time, rest)
    ensures var (next, out) := Advance(p, candidate, s);
            Segment(p, candidate, [s] + rest, closing)
            == out + Segment(p, next, rest, closing)
  {
    if candidate.None? {
      if s.positive { OpenRun(s, rest); } else { SkipNegative(s, rest); }
    } else if s.positive {
      AdvancePositive(p, candidate.value, s, rest, closing);
    } else {
      AdvanceNegative(p, candidate.value, s, rest, closing);
    }
  }

  lemma AdvancePositive(p: Timing, c: Candidate, s: Sample, rest: seq<Sample>, closing: Option<int>)
    requires s.positive
    ensures var (next, out) := Advance(p, Some(c), s);
            Segment(p, Some(c), [s] + rest, closing)
            == out + Segment(p, next, rest, closing)
  {
    hide Keep, Bridge, Runs, Sum, PositivePrefix;
    if c.gapStart.None? {
      ExtendRun(c, s, rest);
    } else if s.time - c.gapStart.value < p.mergeGap {
      Resume(p, c, s, rest);
    } else {
      OpenRun(s, rest);
      CloseAlone(p, c, Runs([s] + rest), closing);
    }
  }

  lemma AdvanceNegative(p: Timing, c: Candidate, s: Sample, rest: seq<Sample>, closing: Option<int>)
    requires !s.positive && After(s.time, rest)
    ensures var (next, out) := Advance(p, Some(c), s);
            Segment(p, Some(c), [s] + rest, closing)
            == out + Segment(p, next, rest, closing)
  {
    SkipNegative(s, rest);
    RunsStartInside(s.time, rest);
    var stopped := c.(gapStart := Some(if c.gapStart.Some? then c.gapStart.value else s.time));
    var all := [s] + rest;
    assert all[..0] == [] && all[0..] == all;
    assert Attach(Some(c), all) == Attach(Some(stopped), rest);
    if s.time - stopped.gapStart.value >= p.mergeGap {
      CloseAlone(p, stopped, Runs(rest), closing);
    }
  }

  /** What the offline passes keep of one segment. */
  function Segment(p: Timing, candidate: Option<Candidate>, samples: seq<Sample>, closing: Option<int>): seq<Detected> {
    Keep(p, Bridge(p, Attach(candidate, samples)), closing)
  }

  // The offline reading of a run that continues from `candidate` after `previous`.
  function Resumed(p: Timing, previous: int, candidate: Option<Candidate>, samples: seq<Sample>,
                   flushAt: int): seq<Detected> {
    var n := SegmentAfter(p, previous, samples);
    Segment(p, candidate, samples[..n], if n == |samples| then Some(flushAt) else None)
    + Offline(p, samples[n..], flushAt)
  }

  lemma AttachNothing(p: Timing, candidate: Option<Candidate>, closing: Option<int>)
    requires candidate.Some? ==> candidate.value.count > 0
    ensures Segment(p, candidate, [], closing)
            == if closing.Some? then Flush(p, candidate, closing.value) else FinishEnded(p, candidate)
  {
    var none: seq<Sample> := [];
    assert none[..0] == [] && none[0..] == [];
    assert Runs(none) == [] && Bridge(p, []) == [] && Keep(p, [], closing) == [];
    if candidate.Some? {
      var c := candidate.value;
      assert Attach(candidate, none) == [Run(c.begin, c.gapStart, c.count, c.total + 0.0)];
    }
  }

  lemma SegmentAfterInside(p: Timing, previous: int, s: Sample, rest: seq<Sample>)
    requires !IsSplit(p, Some(previous), s.time)
    ensures var m := SegmentAfter(p, s.time, rest);
            && SegmentAfter(p, previous, [s] + rest) == m + 1
            && ([s] + rest)[..m + 1] == [s] + rest[..m]
            && ([s] + rest)[m + 1..] == rest[m..]
  {
    assert ([s] + rest)[1..] == rest;
  }

  lemma {:induction false} ResumedInside(p: Timing, previous: int, candidate: Option<Candidate>, s: Sample,
                                         rest: seq<Sample>, flushAt: int, next: Option<Candidate>, out: seq<Detected>)
    requires !IsSplit(p, Some(previous), s.time)
    requires var m := SegmentAfter(p, s.time, rest);
             var closing := if m == |rest| then Some(flushAt) else None;
             Segment(p, candidate, [s] + rest[..m], closing) == out + Segment(p, next, rest[..m], closing)
    ensures Resumed(p, previous, candidate, [s] + rest, flushAt) == out + Resumed(p, s.time, next, rest, flushAt)
  {
    hide Segment, SegmentAfter, Offline;
    SegmentAfterInside(p, previous, s, rest);
  }

  lemma FirstSegment(p: Timing, samples: seq<Sample>, closing: Option<int>)
    ensures Segment(p, None, samples, closing) == Keep(p, Bridge(p, Runs(samples)), closing)
  {
  }

  lemma OfflineOpens(p: Timing, s: Sample, rest: seq<Sample>, flushAt: int)
    requires After(s.time, rest)
    ensures var (next, out) := Advance(p, None, s);
            Offline(p, [s] + rest, flushAt) == out + Resumed(p, s.time, next, rest, flushAt)
  {
    hide Keep, Bridge, Attach, Advance;
    var m := SegmentAfter(p, s.time, rest);
    var all := [s] + rest;
    assert all[1..] == rest;
    assert all[..m + 1] == [s] + rest[..m] && all[m + 1..] == rest[m..];
    AdvanceStep(p, None, s, rest[..m], if m == |rest| then Some(flushAt) else None);
    FirstSegment(p, all[..m + 1], if m == |rest| then Some(flushAt) else None);
  }

  lemma ResumedSplit(p: Timing, previous: int, candidate: Option<Candidate>, s: Sample,
                     rest: seq<Sample>, flushAt: int)
    requires After(s.time, rest) && Ended(candidate, previous)
    requires IsSplit(p, Some(previous), s.time)
    ensures var (next, out) := Advance(p, None, s);
            Resumed(p, previous, candidate, [s] + rest, flushAt)
            == FinishEnded(p, candidate) + (out + Resumed(p, s.time, next, rest, flushAt))
  {
    var all := [s] + rest;
    assert all[..0] == [] && all[0..] == all;
    AttachNothing(p, candidate, None);
    OfflineOpens(p, s, rest, flushAt);
  }

  lemma ObserveEnded(p: Timing, previous: Option<int>, candidate: Option<Candidate>, s: Sample)
    requires candidate.Some? ==>
        candidate.value.count > 0 && (candidate.value.gapStart.Some? ==> candidate.value.gapStart.value <= s.time)
    ensures Ended(Observe(p, previous, candidate, s).0, s.time)
  {
  }

  lemma ResumedStep(p: Timing, previous: int, candidate: Option<Candidate>, s: Sample,
                    rest: seq<Sample>, flushAt: int)
    requires After(s.time, rest) && Ended(candidate, previous)
    ensures var (next, out) := Observe(p, Some(previous), candidate, s);
            Resumed(p, previous, candidate, [s] + rest, flushAt) == out + Resumed(p, s.time, next, rest, flushAt)
  {
    hide Segment, SegmentAfter, Offline, Advance, Resumed;
    var (next, out) := Observe(p, Some(previous), candidate, s);
    if IsSplit(p, Some(previous), s.time) {
      ResumedSplit(p, previous, candidate, s, rest, flushAt);
    } else {
      var m := SegmentAfter(p, s.time, rest);
      AdvanceStep(p, candidate, s, rest[..m], if m == |rest| then Some(flushAt) else None);
      ResumedInside(p, previous, candidate, s, rest, flushAt, next, out);
    }
  }

  /** Refinement from any reachable state of the automaton. */
  lemma {:induction false} OnlineResumes(p: Timing, previous: int, candidate: Option<Candidate>, samples: seq<Sample>,
                                         flushAt: int)
    requires Increasing(samples) && After(previous, samples) && Ended(candidate, previous)
    ensures Online(p, Some(previous), candidate, samples, flushAt) == Resumed(p, previous, candidate, samples, flushAt)
    decreases |samples|
  {
    if samples == [] {
      AttachNothing(p, candidate, Some(flushAt));
      assert samples[..0] == [] && samples[0..] == [];
    } else {
      var s, rest := samples[0], samples[1..];
      assert samples == [s] + rest;
      ObserveEnded(p, Some(previous), candidate, s);
      OnlineResumes(p, s.time, Observe(p, Some(previous), candidate, s).0, rest, flushAt);
      ResumedStep(p, previous, candidate, s, rest, flushAt);
    }
  }

  /** The detector is exactly the offline definition, on every increasing run. */
  lemma OnlineIsOffline(p: Timing, previous: Option<int>, samples: seq<Sample>, flushAt: int)
    requires Increasing(samples)
    ensures Online(p, previous, None, samples, flushAt) == Offline(p, samples, flushAt)
  {
    if samples != [] {
      var s, rest := samples[0], samples[1..];
      assert samples == [s] + rest;
      var (next, out) := Advance(p, None, s);
      assert [] + out == out;
      OnlineResumes(p, s.time, next, rest, flushAt);
      OfflineOpens(p, s, rest, flushAt);
    }
  }

  // ------------------------------------------------------------ corollaries

  /** Runs of one segment observed over `[lo, hi]`: in order, non-empty, and only
      the last one may still be going; neighbours are at least `gap` apart. */
  predicate Ordered(runs: seq<Run>, lo: int, hi: int, gap: int) {
    && (forall i :: 0 <= i < |runs| ==>
         && lo <= runs[i].begin <= hi && runs[i].count > 0
         && (runs[i].end.Some? ==> runs[i].begin < runs[i].end.value <= hi))
    && (forall i :: 0 <= i < |runs| - 1 ==>
         runs[i].end.Some? && runs[i + 1].begin - runs[i].end.value >= gap)
  }

  lemma {:induction false} PrefixIsPositive(samples: seq<Sample>)
    ensures var n := PositivePrefix(samples);
            && (forall i :: 0 <= i < n ==> samples[i].positive)
            && (n < |samples| ==> !samples[n].positive)
  {
    if samples != [] && samples[0].positive { PrefixIsPositive(samples[1..]); }
  }

  lemma PrependOrdered(first: Run, rest: seq<Run>, lo: int, hi: int, gap: int)
    requires Ordered(rest, lo, hi, gap) && lo <= first.begin <= hi && first.count > 0
    requires first.end.Some? ==> first.begin < first.end.value <= hi
    requires rest != [] ==> first.end.Some? && rest[0].begin - first.end.value >= gap
    ensures Ordered([first] + rest, lo, hi, gap)
  {
    var all := [first] + rest;
    forall i | 0 <= i < |all| - 1 ensures all[i].end.Some? && all[i + 1].begin - all[i].end.value >= gap {
      if i > 0 { assert all[i] == rest[i - 1] && all[i + 1] == rest[i]; }
    }
  }

  lemma TailOrdered(runs: seq<Run>, lo: int, hi: int, gap: int)
    requires Ordered(runs, lo, hi, gap) && runs != []
    ensures Ordered(runs[1..], lo, hi, gap)
    ensures |runs| > 1 ==> runs[0].end.Some? && runs[1..][0].begin - runs[0].end.value >= gap
  {
    var rest := runs[1..];
    forall i | 0 <= i < |rest| - 1 ensures rest[i].end.Some? && rest[i + 1].begin - rest[i].end.value >= gap {
      assert rest[i] == runs[i + 1] && rest[i + 1] == runs[i + 2];
    }
  }

  lemma {:induction false} RunsOrdered(samples: seq<Sample>, lo: int, hi: int)
    requires Increasing(samples)
    requires forall i :: 0 <= i < |samples| ==> lo <= samples[i].time <= hi
    ensures Ordered(Runs(samples), lo, hi, 1)
    decreases |samples|
  {
    if samples == [] {
    } else if !samples[0].positive {
      RunsOrdered(samples[1..], lo, hi);
    } else {
      var n := PositivePrefix(samples);
      PrefixIsPositive(samples);
      var first := Run(samples[0].time, EndAfter(samples, n), n, Sum(samples[..n]));
      var rest := Runs(samples[n..]);
      RunsOrdered(samples[n..], lo, hi);
      if n < |samples| {
        assert rest == Runs(samples[n..][1..]);
        RunsStartInside(samples[n].time, samples[n..][1..]);
      }
      PrependOrdered(first, rest, lo, hi, 1);
    }
  }

  lemma {:induction false} BridgeOrdered(p: Timing, runs: seq<Run>, lo: int, hi: int)
    requires Ordered(runs, lo, hi, 1)
    ensures Ordered(Bridge(p, runs), lo, hi, p.mergeGap)
    ensures runs != [] ==> Bridge(p, runs) != [] && Bridge(p, runs)[0].begin == runs[0].begin
    ensures runs != [] ==> Bridge(p, runs)[0].end.None? || runs[0].end.Some?
    decreases |runs|
  {
    if |runs| < 2 {
    } else if Bridges(p, runs[0], runs[1]) {
      var joined := Run(runs[0].begin, runs[1].end, runs[0].count + runs[1].count, runs[0].total + runs[1].total);
      var next := [joined] + runs[2..];
      TailOrdered(runs, lo, hi, 1);
      TailOrdered(runs[1..], lo, hi, 1);
      assert runs[1..][1..] == runs[2..];
      PrependOrdered(joined, runs[2..], lo, hi, 1);
      BridgeOrdered(p, next, lo, hi);
    } else {
      var rest := runs[1..];
      BridgeOrdered(p, rest, lo, hi);
      PrependOrdered(runs[0], Bridge(p, rest), lo, hi, p.mergeGap);
    }
  }

  /** Detected intervals inside `[lo, hi]`, in order, each at least `least` long
      and at least `gap` after the one before it. */
  predicate Separated(found: seq<Detected>, lo: int, hi: int, least: int, gap: int) {
    && (forall i :: 0 <= i < |found| ==> lo <= found[i].begin && found[i].begin + least <= found[i].end <= hi)
    && (forall i, j :: 0 <= i < j < |found| ==> found[i].end + gap <= found[j].begin)
  }

  lemma {:induction false} KeepSeparated(p: Timing, runs: seq<Run>, lo: int, hi: int, closing: Option<int>)
    requires Ordered(runs, lo, hi, p.mergeGap)
    requires closing.Some? ==> hi <= closing.value
    ensures Separated(Keep(p, runs, closing), lo, if closing.Some? then closing.value else hi, p.minimumDuration,
                      p.mergeGap)
    decreases |runs|
  {
    if runs != [] {
      var rest := runs[1..];
      if rest != [] {
        var next := rest[0].begin;
        assert Ordered(rest, next, hi, p.mergeGap) by {
          forall i | 0 <= i < |rest|
            ensures next <= rest[i].begin
          {
            BeginsGrow(p, rest, lo, hi, i);
          }
        }
        KeepSeparated(p, rest, next, hi, closing);
      }
    }
  }

  lemma {:induction false} BeginsGrow(p: Timing, runs: seq<Run>, lo: int, hi: int, i: nat)
    requires Ordered(runs, lo, hi, p.mergeGap) && i < |runs|
    ensures runs[0].begin <= runs[i].begin
  {
    if i > 0 { BeginsGrow(p, runs, lo, hi, i - 1); }
  }

  lemma {:induction false} SegmentBoundary(p: Timing, previous: int, samples: seq<Sample>)
    ensures var n := SegmentAfter(p, previous, samples);
            n < |samples| ==> samples[n].time - (if n == 0 then previous else samples[n - 1].time) > p.maximumGap
    decreases |samples|
  {
    if samples != [] && samples[0].time - previous <= p.maximumGap {
      SegmentBoundary(p, samples[0].time, samples[1..]);
    }
  }

  lemma SeparatedAppend(a: seq<Detected>, b: seq<Detected>, lo: int, mid: int, next: int, hi: int, least: int,
                        inner: int, gap: int)
    requires Separated(a, lo, mid, least, inner) && Separated(b, next, hi, least, gap)
    requires gap <= inner && mid + gap <= next && lo <= next && mid <= hi
    ensures Separated(a + b, lo, hi, least, gap)
  {
  }

  lemma SeparatedRelax(a: seq<Detected>, lo: int, hi: int, least: int, inner: int, gap: int)
    requires Separated(a, lo, hi, least, inner) && gap <= inner
    ensures Separated(a, lo, hi, least, gap)
  {
  }

  /** Emitted intervals are in order, long enough, disjoint, and at least the
      smaller of the merge gap and the sample gap apart. */
  lemma {:induction false} OfflineSeparated(p: Timing, samples: seq<Sample>, flushAt: int)
    requires samples != [] && Increasing(samples) && samples[|samples| - 1].time <= flushAt
    ensures Separated(Offline(p, samples, flushAt), samples[0].time, flushAt, p.minimumDuration,
                      Min(p.mergeGap, p.maximumGap))
    decreases |samples|
  {
    hide Keep, Bridge, Runs, SegmentAfter, Separated, Ordered;
    var n := SegmentLength(p, samples);
    var lo, hi := samples[0].time, samples[n - 1].time;
    var closing := if n == |samples| then Some(flushAt) else None;
    RunsOrdered(samples[..n], lo, hi);
    BridgeOrdered(p, Runs(samples[..n]), lo, hi);
    var first, rest := Keep(p, Bridge(p, Runs(samples[..n])), closing), Offline(p, samples[n..], flushAt);
    KeepSeparated(p, Bridge(p, Runs(samples[..n])), lo, hi, closing);
    assert Offline(p, samples, flushAt) == first + rest;
    if n < |samples| {
      SegmentBoundary(p, lo, samples[1..]);
      OfflineSeparated(p, samples[n..], flushAt);
      SeparatedAppend(first, rest, lo, hi, samples[n].time, flushAt, p.minimumDuration, p.mergeGap,
                      Min(p.mergeGap, p.maximumGap));
    } else {
      assert rest == [] && first + rest == first;
      SeparatedRelax(first, lo, flushAt, p.minimumDuration, p.mergeGap, Min(p.mergeGap, p.maximumGap));
    }
  }
}
