/** Where each positive sample of a label is counted: the offline candidates are the ones
    the automaton closes, drops or holds active, and they share out the positive samples. */
module SignalAccounts {
  import opened Common
  import opened SignalIntervals

  /** Every candidate interval of the run, kept or not. */
  function Candidates(p: Timing, samples: seq<Sample>): seq<Run>
    decreases |samples|
  {
    if samples == [] then []
    else
      var n := SegmentLength(p, samples);
      Bridge(p, Runs(samples[..n])) + Candidates(p, samples[n..])
  }

  function CountOf(runs: seq<Run>): nat {
    if runs == [] then 0 else runs[0].count + CountOf(runs[1..])
  }

  function TotalOf(runs: seq<Run>): real {
    if runs == [] then 0.0 else runs[0].total + TotalOf(runs[1..])
  }

  function Positives(samples: seq<Sample>): nat {
    if samples == [] then 0 else (if samples[0].positive then 1 else 0) + Positives(samples[1..])
  }

  function Mass(samples: seq<Sample>): real {
    if samples == [] then 0.0 else (if samples[0].positive then samples[0].contribution else 0.0) + Mass(samples[1..])
  }

  lemma {:induction false} CountsAppend(a: seq<Run>, b: seq<Run>)
    ensures CountOf(a + b) == CountOf(a) + CountOf(b) && TotalOf(a + b) == TotalOf(a) + TotalOf(b)
  {
    if a == [] {
      assert a + b == b;
    } else {
      assert (a + b)[1..] == a[1..] + b;
      CountsAppend(a[1..], b);
    }
  }

  lemma {:induction false} PositivesAppend(a: seq<Sample>, b: seq<Sample>)
    ensures Positives(a + b) == Positives(a) + Positives(b) && Mass(a + b) == Mass(a) + Mass(b)
  {
    if a == [] {
      assert a + b == b;
    } else {
      assert (a + b)[1..] == a[1..] + b;
      PositivesAppend(a[1..], b);
    }
  }

  lemma {:induction false} AllPositive(samples: seq<Sample>)
    requires forall i :: 0 <= i < |samples| ==> samples[i].positive
    ensures Positives(samples) == |samples| && Mass(samples) == Sum(samples)
  {
    if samples != [] { AllPositive(samples[1..]); }
  }

  lemma {:induction false} RunsCount(samples: seq<Sample>)
    ensures CountOf(Runs(samples)) == Positives(samples) && TotalOf(Runs(samples)) == Mass(samples)
    decreases |samples|
  {
    if samples == [] {
    } else if !samples[0].positive {
      RunsCount(samples[1..]);
    } else {
      var n := PositivePrefix(samples);
      PrefixIsPositive(samples);
      AllPositive(samples[..n]);
      PositivesAppend(samples[..n], samples[n..]);
      assert samples[..n] + samples[n..] == samples;
      RunsCount(samples[n..]);
      assert Runs(samples)[1..] == Runs(samples[n..]);
    }
  }

  lemma {:induction false} BridgeCount(p: Timing, runs: seq<Run>)
    ensures CountOf(Bridge(p, runs)) == CountOf(runs) && TotalOf(Bridge(p, runs)) == TotalOf(runs)
    decreases |runs|
  {
    if |runs| < 2 {
    } else if Bridges(p, runs[0], runs[1]) {
      var joined := Run(runs[0].begin, runs[1].end, runs[0].count + runs[1].count, runs[0].total + runs[1].total);
      BridgeCount(p, [joined] + runs[2..]);
      assert ([joined] + runs[2..])[1..] == runs[2..] == runs[1..][1..];
    } else {
      BridgeCount(p, runs[1..]);
      assert ([runs[0]] + Bridge(p, runs[1..]))[1..] == Bridge(p, runs[1..]);
    }
  }

  /** The candidates count the positive samples and their contributions. */
  lemma {:induction false} CandidatesCount(p: Timing, samples: seq<Sample>)
    ensures CountOf(Candidates(p, samples)) == Positives(samples)
    ensures TotalOf(Candidates(p, samples)) == Mass(samples)
    decreases |samples|
  {
    if samples != [] {
      var n := SegmentLength(p, samples);
      CandidatesCount(p, samples[n..]);
      RunsCount(samples[..n]);
      BridgeCount(p, Runs(samples[..n]));
      CountsAppend(Bridge(p, Runs(samples[..n])), Candidates(p, samples[n..]));
      PositivesAppend(samples[..n], samples[n..]);
      assert samples[..n] + samples[n..] == samples;
    }
  }

  // ------------------------------- the candidates are the automaton's candidates

  function RunOf(c: Candidate): Run { Run(c.begin, c.gapStart, c.count, c.total) }

  function FinishedAtSplit(candidate: Option<Candidate>): seq<Run> {
    if candidate.None? then [] else [RunOf(candidate.value)]
  }

  /** The candidate that one sample finishes: closed where it stopped matching. */
  function FinishedBy(p: Timing, candidate: Option<Candidate>, s: Sample): seq<Run> {
    if candidate.None? then []
    else
      var c := candidate.value;
      var gap := if c.gapStart.Some? then c.gapStart.value else s.time;
      if (s.positive ==> c.gapStart.Some?) && s.time - gap >= p.mergeGap then [RunOf(c.(gapStart := Some(gap)))] else []
  }

  /** Every candidate the automaton goes through: closed, dropped, and at last active. */
  function OnlineRuns(p: Timing, previous: Option<int>, candidate: Option<Candidate>, samples: seq<Sample>): seq<Run>
    decreases |samples|
  {
    if samples == [] then FinishedAtSplit(candidate)
    else
      var s := samples[0];
      (if IsSplit(p, previous, s.time) then FinishedAtSplit(candidate) else FinishedBy(p, candidate, s))
      + OnlineRuns(p, Some(s.time), Observe(p, previous, candidate, s).0, samples[1..])
  }

  lemma BridgeAlone(p: Timing, r: Run, tail: seq<Run>)
    requires r.end.Some? && (tail != [] ==> tail[0].begin - r.end.value >= p.mergeGap)
    ensures Bridge(p, [r] + tail) == [r] + Bridge(p, tail)
  {
    assert ([r] + tail)[1..] == tail;
  }

  lemma {:induction false} BridgeAdvance(p: Timing, candidate: Option<Candidate>, s: Sample, rest: seq<Sample>)
    requires After(s.time, rest)
    ensures Bridge(p, Attach(candidate, [s] + rest))
            == FinishedBy(p, candidate, s) + Bridge(p, Attach(Advance(p, candidate, s).0, rest))
  {
    var after := Bridge(p, Attach(Advance(p, candidate, s).0, rest));
    assert [] + after == after;
    if candidate.None? {
      if s.positive { OpenRun(s, rest); } else { SkipNegative(s, rest); }
    } else if s.positive {
      BridgePositive(p, candidate.value, s, rest);
    } else {
      BridgeNegative(p, candidate.value, s, rest);
    }
  }

  lemma BridgePositive(p: Timing, c: Candidate, s: Sample, rest: seq<Sample>)
    requires s.positive
    ensures Bridge(p, Attach(Some(c), [s] + rest))
            == FinishedBy(p, Some(c), s) + Bridge(p, Attach(Advance(p, Some(c), s).0, rest))
  {
    var after := Bridge(p, Attach(Advance(p, Some(c), s).0, rest));
    assert [] + after == after;
    if c.gapStart.None? {
      ExtendRun(c, s, rest);
    } else if s.time - c.gapStart.value < p.mergeGap {
      Resume(p, c, s, rest);
    } else {
      OpenRun(s, rest);
      BridgeAlone(p, RunOf(c), Runs([s] + rest));
    }
  }

  lemma BridgeNegative(p: Timing, c: Candidate, s: Sample, rest: seq<Sample>)
    requires !s.positive && After(s.time, rest)
    ensures Bridge(p, Attach(Some(c), [s] + rest))
            == FinishedBy(p, Some(c), s) + Bridge(p, Attach(Advance(p, Some(c), s).0, rest))
  {
    SkipNegative(s, rest);
    RunsStartInside(s.time, rest);
    var stopped := c.(gapStart := Some(if c.gapStart.Some? then c.gapStart.value else s.time));
    var all, after := [s] + rest, Bridge(p, Attach(Advance(p, Some(c), s).0, rest));
    assert all[..0] == [] && all[0..] == all && [] + after == after;
    assert Attach(Some(c), all) == Attach(Some(stopped), rest);
    if s.time - stopped.gapStart.value >= p.mergeGap { BridgeAlone(p, RunOf(stopped), Runs(rest)); }
  }

  function ResumedRuns(p: Timing, previous: int, candidate: Option<Candidate>, samples: seq<Sample>): seq<Run> {
    var n := SegmentAfter(p, previous, samples);
    Bridge(p, Attach(candidate, samples[..n])) + Candidates(p, samples[n..])
  }

  lemma AttachOnly(p: Timing, candidate: Option<Candidate>)
    ensures Bridge(p, Attach(candidate, [])) == FinishedAtSplit(candidate)
  {
    var none: seq<Sample> := [];
    assert none[..0] == [] && none[0..] == [];
    if candidate.Some? {
      var c := candidate.value;
      assert Attach(candidate, none) == [Run(c.begin, c.gapStart, c.count, c.total + 0.0)];
    }
  }

  lemma CandidatesOpen(p: Timing, s: Sample, rest: seq<Sample>)
    requires After(s.time, rest)
    ensures Candidates(p, [s] + rest) == ResumedRuns(p, s.time, Advance(p, None, s).0, rest)
  {
    hide Bridge, Attach, Advance;
    var m, all := SegmentAfter(p, s.time, rest), [s] + rest;
    assert all[1..] == rest;
    assert all[..m + 1] == [s] + rest[..m] && all[m + 1..] == rest[m..];
    BridgeAdvance(p, None, s, rest[..m]);
    NoneAttaches(all[..m + 1]);
    var first := Bridge(p, Attach(Advance(p, None, s).0, rest[..m]));
    assert [] + first == first;
  }

  lemma NoneAttaches(samples: seq<Sample>)
    ensures Attach(None, samples) == Runs(samples)
  {
  }

  lemma RunsResumeStep(p: Timing, previous: int, candidate: Option<Candidate>, s: Sample,
                       rest: seq<Sample>)
    requires After(s.time, rest)
    ensures ResumedRuns(p, previous, candidate, [s] + rest)
            == (if IsSplit(p, Some(previous), s.time) then FinishedAtSplit(candidate) else FinishedBy(p, candidate, s))
               + ResumedRuns(p, s.time, Observe(p, Some(previous), candidate, s).0, rest)
  {
    hide Bridge, Attach, Advance, Candidates, FinishedBy;
    var all := [s] + rest;
    if IsSplit(p, Some(previous), s.time) {
      assert all[..0] == [] && all[0..] == all;
      AttachOnly(p, candidate);
      CandidatesOpen(p, s, rest);
    } else {
      var m := SegmentAfter(p, s.time, rest);
      SegmentAfterInside(p, previous, s, rest);
      BridgeAdvance(p, candidate, s, rest[..m]);
    }
  }

  lemma {:induction false} OnlineRunsResume(p: Timing, previous: int, candidate: Option<Candidate>,
                                            samples: seq<Sample>)
    requires Increasing(samples) && After(previous, samples)
    ensures OnlineRuns(p, Some(previous), candidate, samples) == ResumedRuns(p, previous, candidate, samples)
    decreases |samples|
  {
    hide Bridge, Attach, Advance, ResumedRuns, FinishedBy;
    if samples == [] {
      AttachOnly(p, candidate);
      ResumedNothing(p, previous, candidate);
    } else {
      var s, rest := samples[0], samples[1..];
      assert samples == [s] + rest;
      OnlineRunsResume(p, s.time, Observe(p, Some(previous), candidate, s).0, rest);
      RunsResumeStep(p, previous, candidate, s, rest);
    }
  }

  lemma ResumedNothing(p: Timing, previous: int, candidate: Option<Candidate>)
    ensures ResumedRuns(p, previous, candidate, []) == Bridge(p, Attach(candidate, []))
  {
    hide Bridge, Attach;
    var none: seq<Sample> := [];
    assert none[..0] == [] && none[0..] == [];
  }

  /** The offline candidates are the automaton's: closed, dropped or active, in order. */
  lemma OnlineRunsAreCandidates(p: Timing, previous: Option<int>, samples: seq<Sample>)
    requires Increasing(samples)
    ensures OnlineRuns(p, previous, None, samples) == Candidates(p, samples)
  {
    hide Bridge, Attach, Advance, ResumedRuns;
    if samples != [] {
      var s, rest := samples[0], samples[1..];
      assert samples == [s] + rest;
      OnlineRunsResume(p, s.time, Advance(p, None, s).0, rest);
      CandidatesOpen(p, s, rest);
      var first := ResumedRuns(p, s.time, Advance(p, None, s).0, rest);
      assert [] + first == first;
    }
  }

  // ------------------------------------------------ where each sample is counted

  /** The positions of the samples counted by the finished candidates and by the active one. */
  datatype Account = Account(finished: seq<seq<nat>>, active: seq<nat>)

  function PreviousAt(samples: seq<Sample>, n: nat): Option<int>
    requires n <= |samples|
  {
    if n == 0 then None else Some(samples[n - 1].time)
  }

  /** The automaton's candidate after the first `n` samples. */
  function CandidateAt(p: Timing, samples: seq<Sample>, n: nat): Option<Candidate>
    requires n <= |samples|
  {
    if n == 0 then None else Observe(p, PreviousAt(samples, n - 1), CandidateAt(p, samples, n - 1), samples[n - 1]).0
  }

  /** The candidates finished by the first `n` samples. */
  function FinishedAt(p: Timing, samples: seq<Sample>, n: nat): seq<Run>
    requires n <= |samples|
  {
    if n == 0 then []
    else
      var candidate, s := CandidateAt(p, samples, n - 1), samples[n - 1];
      FinishedAt(p, samples, n - 1)
      + if IsSplit(p, PreviousAt(samples, n - 1), s.time) then FinishedAtSplit(candidate)
          else FinishedBy(p, candidate, s)
  }

  /** Which sample went where: a positive one joins the active candidate, which moves
      to the finished ones when the automaton finishes it. */
  function AccountAt(p: Timing, samples: seq<Sample>, n: nat): Account
    requires n <= |samples|
  {
    if n == 0 then Account([], [])
    else
      var before, i := AccountAt(p, samples, n - 1), n - 1;
      var isFinished := |FinishedAt(p, samples, n)| > |FinishedAt(p, samples, i)|;
      var kept := if isFinished then Account(before.finished + [before.active], []) else before;
      if samples[i].positive then kept.(active := kept.active + [i]) else kept
  }

  function Flattened(groups: seq<seq<nat>>): seq<nat> {
    if groups == [] then [] else Flattened(groups[..|groups| - 1]) + groups[|groups| - 1]
  }

  /** The positions of the positive samples among the first `n`, in order. */
  function PositivePositions(samples: seq<Sample>, n: nat): seq<nat>
    requires n <= |samples|
  {
    if n == 0 then [] else PositivePositions(samples, n - 1) + if samples[n - 1].positive then [n - 1] else []
  }

  predicate Inside(samples: seq<Sample>, members: seq<nat>) {
    forall k :: 0 <= k < |members| ==> members[k] < |samples|
  }

  function SumAt(samples: seq<Sample>, members: seq<nat>): real
    requires Inside(samples, members)
  {
    if members == [] then 0.0
    else SumAt(samples, members[..|members| - 1]) + samples[members[|members| - 1]].contribution
  }

  /** A run counts exactly these samples: it begins at the first and totals them all. */
  predicate Counts(samples: seq<Sample>, r: Run, members: seq<nat>) {
    && members != [] && Inside(samples, members)
    && r.begin == samples[members[0]].time && r.count == |members| && r.total == SumAt(samples, members)
  }

  ghost predicate Accounted(p: Timing, samples: seq<Sample>, n: nat)
    requires n <= |samples|
  {
    var a, runs, candidate := AccountAt(p, samples, n), FinishedAt(p, samples, n), CandidateAt(p, samples, n);
    && |a.finished| == |runs| && (forall k :: 0 <= k < |runs| ==> Counts(samples, runs[k], a.finished[k]))
    && (if candidate.Some? then Counts(samples, RunOf(candidate.value), a.active) else a.active == [])
    && Flattened(a.finished) + a.active == PositivePositions(samples, n)
  }

  lemma FlattenedAppend(groups: seq<seq<nat>>, g: seq<nat>)
    ensures Flattened(groups + [g]) == Flattened(groups) + g
  {
    assert (groups + [g])[..|groups|] == groups;
  }

  lemma SumAppend(samples: seq<Sample>, members: seq<nat>, i: nat)
    requires i < |samples| && Inside(samples, members)
    ensures SumAt(samples, members + [i]) == SumAt(samples, members) + samples[i].contribution
  {
    assert (members + [i])[..|members|] == members;
  }

  lemma CountsOne(samples: seq<Sample>, i: nat)
    requires i < |samples|
    ensures Counts(samples, Run(samples[i].time, None, 1, samples[i].contribution), [i])
  {
    SumAppend(samples, [], i);
    assert [] + [i] == [i];
    assert SumAt(samples, [i]) == samples[i].contribution;
  }

  /** The end of a run does not matter to what it counts. */
  lemma CountsEnds(samples: seq<Sample>, r: Run, members: seq<nat>, end: Option<int>)
    requires Counts(samples, r, members)
    ensures Counts(samples, r.(end := end), members)
  {
  }

  lemma CountsMore(samples: seq<Sample>, c: Candidate, members: seq<nat>, i: nat)
    requires Counts(samples, RunOf(c), members) && i < |samples|
    ensures Counts(samples, RunOf(Candidate(c.begin, c.count + 1, c.total + samples[i].contribution, None)), members
                   + [i])
  {
    SumAppend(samples, members, i);
  }

  /** What one sample does to the candidate: what it finishes, and what is active then. */
  lemma StepCounts(p: Timing, samples: seq<Sample>, i: nat, candidate: Option<Candidate>, active: seq<nat>)
    requires i < |samples|
    requires if candidate.Some? then Counts(samples, RunOf(candidate.value), active) else active == []
    ensures var s := samples[i];
            var isSplit := IsSplit(p, PreviousAt(samples, i), s.time);
            var finished := if isSplit then FinishedAtSplit(candidate) else FinishedBy(p, candidate, s);
            var kept := if finished != [] then [] else active;
            var next := Observe(p, PreviousAt(samples, i), candidate, s).0;
            && |finished| <= 1 && (finished != [] ==> Counts(samples, finished[0], active))
            && var now := if s.positive then kept + [i] else kept;
            if next.Some? then Counts(samples, RunOf(next.value), now) else now == []
  {
    hide Counts;
    var s := samples[i];
    CountsOne(samples, i);
    assert [] + [i] == [i];
    if candidate.Some? {
      var c := candidate.value;
      CountsEnds(samples, RunOf(c), active, Some(if c.gapStart.Some? then c.gapStart.value else s.time));
      CountsMore(samples, c, active, i);
    }
  }

  /** Adding the group of a finished run. */
  lemma GroupsNext(samples: seq<Sample>, runs: seq<Run>, groups: seq<seq<nat>>, finished: seq<Run>, active: seq<nat>)
    requires |groups| == |runs| && forall k :: 0 <= k < |runs| ==> Counts(samples, runs[k], groups[k])
    requires |finished| <= 1 && (finished != [] ==> Counts(samples, finished[0], active))
    ensures var more, all := if finished != [] then groups + [active] else groups, runs + finished;
            |more| == |all| && forall k :: 0 <= k < |all| ==> Counts(samples, all[k], more[k])
  {
    hide Counts;
  }

  lemma AccountStep(p: Timing, samples: seq<Sample>, n: nat)
    requires 0 < n <= |samples| && Accounted(p, samples, n - 1)
    ensures Accounted(p, samples, n)
  {
    hide Counts, Observe, FinishedBy, FinishedAtSplit, IsSplit, Flattened, PositivePositions;
    var i, before := n - 1, AccountAt(p, samples, n - 1);
    var candidate, s := CandidateAt(p, samples, i), samples[i];
    StepCounts(p, samples, i, candidate, before.active);
    var finished := if IsSplit(p, PreviousAt(samples, i), s.time) then FinishedAtSplit(candidate)
        else FinishedBy(p, candidate, s);
    GroupsNext(samples, FinishedAt(p, samples, i), before.finished, finished, before.active);
    assert FinishedAt(p, samples, n) == FinishedAt(p, samples, i) + finished;
    StepPlaces(p, samples, n);
  }

  /** Moving a group to the finished ones keeps the positions in order. */
  lemma StepPlaces(p: Timing, samples: seq<Sample>, n: nat)
    requires 0 < n <= |samples|
    requires var a := AccountAt(p, samples, n - 1);
             Flattened(a.finished) + a.active == PositivePositions(samples, n - 1)
    ensures var a := AccountAt(p, samples, n); Flattened(a.finished) + a.active == PositivePositions(samples, n)
  {
    hide FinishedAt, Flattened;
    var i, before := n - 1, AccountAt(p, samples, n - 1);
    var placed := Flattened(before.finished) + before.active;
    FlattenedAppend(before.finished, before.active);
    assert placed + [] == placed;
    assert Flattened(before.finished) + (before.active + [i]) == placed + [i];
    assert placed + ([] + [i]) == placed + [i];
  }

  lemma {:induction false} EverythingAccounted(p: Timing, samples: seq<Sample>, n: nat)
    requires n <= |samples|
    ensures Accounted(p, samples, n)
  {
    if n == 0 {
      assert Flattened([]) + [] == [];
    } else {
      EverythingAccounted(p, samples, n - 1);
      AccountStep(p, samples, n);
    }
  }

  lemma {:induction false} FinishedSoFar(p: Timing, samples: seq<Sample>, n: nat)
    requires n <= |samples|
    ensures OnlineRuns(p, None, None, samples)
            == FinishedAt(p, samples, n)
                + OnlineRuns(p, PreviousAt(samples, n), CandidateAt(p, samples, n), samples[n..])
  {
    hide Observe, FinishedBy, FinishedAtSplit, IsSplit;
    if n == 0 {
      assert samples[0..] == samples;
      var all := OnlineRuns(p, None, None, samples);
      assert [] + all == all;
    } else {
      FinishedSoFar(p, samples, n - 1);
      assert samples[n - 1..][1..] == samples[n..];
    }
  }

  /** Every positive sample belongs to exactly one candidate. The offline candidates are,
      in order, the ones the automaton closed or dropped and the one it holds active at
      the end; the positions they count, laid end to end, are exactly the positions of
      the positive samples, each once; and each candidate begins at its first sample and
      totals all of its samples. */
  lemma {:induction false} EveryPositiveCountedOnce(p: Timing, samples: seq<Sample>)
    requires Increasing(samples)
    ensures var n := |samples|;
            var a, runs, active := AccountAt(p, samples, n), FinishedAt(p, samples, n), CandidateAt(p, samples, n);
            && Candidates(p, samples) == runs + FinishedAtSplit(active)
            && |a.finished| == |runs| && (forall k :: 0 <= k < |runs| ==> Counts(samples, runs[k], a.finished[k]))
            && (if active.Some? then Counts(samples, RunOf(active.value), a.active) else a.active == [])
            && Flattened(a.finished) + a.active == PositivePositions(samples, n)
  {
    hide Counts, Observe, FinishedBy, Candidates, OnlineRuns, FinishedAt, CandidateAt, AccountAt;
    EverythingAccounted(p, samples, |samples|);
    FinishedSoFar(p, samples, |samples|);
    OnlineRunsAreCandidates(p, None, samples);
    assert samples[|samples|..] == [];
    OnlineRunsOfNothing(p, PreviousAt(samples, |samples|), CandidateAt(p, samples, |samples|));
  }

  lemma OnlineRunsOfNothing(p: Timing, previous: Option<int>, candidate: Option<Candidate>)
    ensures OnlineRuns(p, previous, candidate, []) == FinishedAtSplit(candidate)
  {
  }

  lemma {:induction false} PositionsArePositive(samples: seq<Sample>, n: nat)
    requires n <= |samples|
    ensures var at := PositivePositions(samples, n);
            && (forall i: nat :: i in at <==> i < n && samples[i].positive)
            && (forall j, k :: 0 <= j < k < |at| ==> at[j] < at[k])
  {
    if n > 0 {
      PositionsArePositive(samples, n - 1);
      var before, at := PositivePositions(samples, n - 1), PositivePositions(samples, n);
      forall j, k | 0 <= j < k < |at| ensures at[j] < at[k] { assert j < |before| ==> at[j] in before; }
    }
  }
}
