/** Whole-run properties of the head-angle baseline and of turn continuity, for
    one stretch of analysed frames with no camera loss in between. */
module HeadTurn {
  import opened Common
  import opened SignalIntervals
  import opened StudentSignals

  /** The remembered face after analysing `frames` from `face`. */
  function FaceAfter(p: Policy, face: Face, frames: seq<Timed>): Face
    decreases |frames|
  {
    if frames == [] then face
    else
      var n := |frames| - 1;
      NextFace(p, FaceAfter(p, face, frames[..n]), frames[n].seen, frames[n].time)
  }

  /** Whether frame `i` of the run is flagged `head_away`. */
  predicate FlaggedAway(p: Policy, face: Face, frames: seq<Timed>, i: nat)
    requires i < |frames|
  {
    Positive(p, FaceAfter(p, face, frames[..i]), frames[i].seen, HeadAway)
  }

  /** Whether the turn in progress at frame `i` is taken as a new seating position. */
  predicate ResetsAt(p: Policy, face: Face, frames: seq<Timed>, i: nat)
    requires i < |frames|
  {
    Rebaselines(p, FaceAfter(p, face, frames[..i]).turnSince, FlaggedAway(p, face, frames, i), frames[i].time)
  }

  lemma FaceAfterNext(p: Policy, face: Face, frames: seq<Timed>, i: nat)
    requires i < |frames|
    ensures FaceAfter(p, face, frames[..i + 1])
        == NextFace(p, FaceAfter(p, face, frames[..i]), frames[i].seen, frames[i].time)
  {
    assert frames[..i + 1][..i] == frames[..i];
  }

  lemma {:induction false} FaceAfterFirst(p: Policy, face: Face, frames: seq<Timed>)
    requires frames != []
    ensures FaceAfter(p, face, frames) == FaceAfter(p, NextFace(p, face, frames[0].seen, frames[0].time), frames[1..])
    decreases |frames|
  {
    var n := |frames| - 1;
    if n > 0 {
      assert frames[1..][..n - 1] == frames[..n][1..];
      FaceAfterFirst(p, face, frames[..n]);
    } else {
      assert frames[..0] == [];
    }
  }

  /** The flags whose intervals a capture run emits are the ones judged here. */
  lemma {:induction false} SamplesFollowFace(p: Policy, face: Face, frames: seq<Timed>, kind: Label, i: nat)
    requires i < |frames|
    ensures |SamplesOf(p, face, frames, kind)| == |frames|
    ensures SamplesOf(p, face, frames, kind)[i]
        == SampleOf(p, FaceAfter(p, face, frames[..i]), frames[i].seen, frames[i].time, kind)
    decreases |frames|
  {
    var next := NextFace(p, face, frames[0].seen, frames[0].time);
    if |frames| > 1 { SamplesFollowFace(p, next, frames[1..], kind, if i > 0 then i - 1 else 0); }
    if i > 0 {
      assert frames[..i][1..] == frames[1..][..i - 1];
      FaceAfterFirst(p, face, frames[..i]);
    }
  }

  // ---------------------------------------------------- what feeds the baseline

  function Recent(values: seq<real>, window: nat): seq<real> {
    if |values| > window then values[|values| - window..] else values
  }

  /** The yaws of the frames whose visible face was not judged turned, in order, since
      the last reset; before any reset they follow what was there at the start. */
  function UnturnedYaws(p: Policy, face: Face, frames: seq<Timed>): seq<real>
    decreases |frames|
  {
    if frames == [] then face.history
    else
      var n := |frames| - 1;
      if ResetsAt(p, face, frames, n) then []
      else UnturnedYaws(p, face, frames[..n])
           + if frames[n].seen.faceYaw.Some? && !FlaggedAway(p, face, frames, n)
             then [frames[n].seen.faceYaw.value]
             else []
  }

  lemma RecentAppend(values: seq<real>, yaw: real, window: nat)
    ensures Append(Recent(values, window), yaw, window) == Recent(values + [yaw], window)
  {
    if |values| > window {
      if window == 0 {
        assert Recent(values, window) == [];
      } else {
        assert Append(Recent(values, window), yaw, window) == values[|values| - window + 1..] + [yaw];
      }
    }
  }

  /** The baseline is fed by exactly the unturned yaws: it holds the most recent of
      them since the last reset, so a yaw judged turned never enters it. */
  lemma {:induction false} BaselineIsRecentUnturned(p: Policy, face: Face, frames: seq<Timed>)
    requires |face.history| <= p.baselineWindow
    ensures FaceAfter(p, face, frames).history == Recent(UnturnedYaws(p, face, frames), p.baselineWindow)
    decreases |frames|
  {
    if frames != [] {
      var n := |frames| - 1;
      var before, seen := frames[..n], frames[n].seen;
      BaselineIsRecentUnturned(p, face, before);
      var fed := UnturnedYaws(p, face, before);
      if ResetsAt(p, face, frames, n) {
        assert UnturnedYaws(p, face, frames) == [];
      } else if seen.faceYaw.Some? && !FlaggedAway(p, face, frames, n) {
        RecentAppend(fed, seen.faceYaw.value, p.baselineWindow);
      } else {
        assert UnturnedYaws(p, face, frames) == fed;
        TurnedMeansEstablished(p, FaceAfter(p, face, before), seen);
      }
    }
  }

  /** Only an established baseline can judge a visible face as turned. */
  lemma TurnedMeansEstablished(p: Policy, face: Face, seen: Observation)
    ensures seen.faceYaw.Some? && Positive(p, face, seen, HeadAway) ==> |face.history| >= p.baselineMinimum
  {
  }

  /** A reset forgets everything: the next visible face is never judged turned. */
  lemma ResetUnflagsNext(p: Policy, face: Face, frames: seq<Timed>, i: nat)
    requires i + 1 < |frames| && ResetsAt(p, face, frames, i)
    ensures frames[i + 1].seen.faceYaw.Some? ==> !FlaggedAway(p, face, frames, i + 1)
  {
    FaceAfterNext(p, face, frames, i);
  }

  // --------------------------------------------------------- how long turns last

  predicate Rising(frames: seq<Timed>) {
    forall i, j :: 0 <= i < j < |frames| ==> frames[i].time < frames[j].time
  }

  lemma {:induction false} TurnStartedBefore(p: Policy, frames: seq<Timed>, n: nat)
    requires Rising(frames) && 0 < n <= |frames|
    ensures var since := FaceAfter(p, NO_FACE, frames[..n]).turnSince; since.Some? ==> since.value <= frames[n - 1].time
  {
    FaceAfterNext(p, NO_FACE, frames, n - 1);
    if n > 1 {
      TurnStartedBefore(p, frames, n - 1);
    } else {
      assert frames[..0] == [];
    }
  }

  /** While a turn keeps being reported its start is remembered. */
  lemma {:induction false} TurnKeepsStart(p: Policy, frames: seq<Timed>, first: nat, k: nat)
    requires Rising(frames) && first <= k < |frames|
    requires forall i :: first <= i <= k ==> FlaggedAway(p, NO_FACE, frames, i)
    requires forall i :: first <= i < k ==> !ResetsAt(p, NO_FACE, frames, i)
    ensures !ResetsAt(p, NO_FACE, frames, k) ==>
              var since := FaceAfter(p, NO_FACE, frames[..k + 1]).turnSince;
              since.Some? && since.value <= frames[first].time && frames[k].time - since.value <= p.baselineResetMs
  {
    FaceAfterNext(p, NO_FACE, frames, k);
    if first < k {
      TurnKeepsStart(p, frames, first, k - 1);
    } else if k > 0 {
      TurnStartedBefore(p, frames, k);
    } else {
      assert frames[..0] == [];
    }
  }

  /** A turn is reported for at most the reset time: in any stretch of visible
      faces all flagged `head_away`, only the last may exceed it. */
  lemma {:induction false} LongTurnIsRebaselined(p: Policy, frames: seq<Timed>, first: nat, last: nat)
    requires Rising(frames) && first <= last < |frames|
    requires forall i :: first <= i <= last ==> frames[i].seen.faceYaw.Some? && FlaggedAway(p, NO_FACE, frames, i)
    ensures forall k :: first <= k < last ==> frames[k].time - frames[first].time <= p.baselineResetMs
  {
    forall i | first <= i < last ensures !ResetsAt(p, NO_FACE, frames, i) {
      if ResetsAt(p, NO_FACE, frames, i) { ResetUnflagsNext(p, NO_FACE, frames, i); }
    }
    forall k | first <= k < last ensures frames[k].time - frames[first].time <= p.baselineResetMs {
      TurnKeepsStart(p, frames, first, k);
    }
  }

  // ------------------------------------------------------------- turn continuity

  /** The most recent face, since the person last left, was seen at `k` and was turned. */
  predicate TurnedAwayAt(p: Policy, frames: seq<Timed>, k: nat)
    requires k < |frames|
  {
    && frames[k].seen.faceYaw.Some? && FlaggedAway(p, NO_FACE, frames, k)
    && forall m :: k < m < |frames| ==> frames[m].seen.faceYaw.None? && IsPerson(p, frames[m].seen)
  }

  /** A present person without a visible face leaves the most recent face as it was. */
  lemma TurnedAwayCarriesOver(p: Policy, frames: seq<Timed>, k: nat)
    requires k < |frames| - 1
    requires frames[|frames| - 1].seen.faceYaw.None? && IsPerson(p, frames[|frames| - 1].seen)
    ensures TurnedAwayAt(p, frames, k) <==> TurnedAwayAt(p, frames[..|frames| - 1], k)
  {
    var before := frames[..|frames| - 1];
    assert before[..k] == frames[..k];
    if TurnedAwayAt(p, before, k) {
      forall m | k < m < |frames| ensures frames[m].seen.faceYaw.None? && IsPerson(p, frames[m].seen) {
        if m < |before| { assert before[m] == frames[m]; }
      }
    }
  }

  lemma {:induction false} RemembersMostRecentFace(p: Policy, frames: seq<Timed>)
    ensures FaceAfter(p, NO_FACE, frames).lastWasTurned == Some(true) <==>
        exists k :: 0 <= k < |frames| && TurnedAwayAt(p, frames, k)
    decreases |frames|
  {
    hide FeedBaseline, Rebaselines, IsTurned;
    if frames != [] {
      var n := |frames| - 1;
      var seen, face := frames[n].seen, FaceAfter(p, NO_FACE, frames[..n]);
      assert FaceAfter(p, NO_FACE, frames).lastWasTurned == Remember(p, face, seen);
      if seen.faceYaw.Some? {
        assert FlaggedAway(p, NO_FACE, frames, n) <==> TurnedAwayAt(p, frames, n);
      } else if IsPerson(p, seen) {
        RemembersMostRecentFace(p, frames[..n]);
        forall k | 0 <= k < n ensures TurnedAwayAt(p, frames, k) <==> TurnedAwayAt(p, frames[..n], k) {
          TurnedAwayCarriesOver(p, frames, k);
        }
      }
    }
  }

  /** A missing face is `face_absent` exactly when it did not vanish mid-turn. */
  lemma {:induction false} FaceAbsentExactly(p: Policy, frames: seq<Timed>, next: Observation)
    ensures var face := FaceAfter(p, NO_FACE, frames);
            var hidden := IsPerson(p, next) && next.faceYaw.None?;
            var midTurn := exists k :: 0 <= k < |frames| && TurnedAwayAt(p, frames, k);
            && (Positive(p, face, next, FaceAbsent) <==> hidden && !midTurn)
            && (next.faceYaw.None? ==> (Positive(p, face, next, HeadAway) <==> hidden && midTurn))
  {
    RemembersMostRecentFace(p, frames);
  }

  // --------------------------------------------------------- what a baseline is

  function Below(values: seq<real>, x: real): nat {
    if values == [] then 0 else (if values[0] < x then 1 else 0) + Below(values[1..], x)
  }

  function Above(values: seq<real>, x: real): nat {
    if values == [] then 0 else (if values[0] > x then 1 else 0) + Above(values[1..], x)
  }

  /** The value with `k` smaller or equal ones before it: at most `k` lie below it and
      fewer than the rest above it. */
  predicate IsRanked(values: seq<real>, k: int, x: real) {
    x in values && Below(values, x) <= k && Above(values, x) < |values| - k
  }

  predicate AreMiddle(values: seq<real>, half: int, a: real, b: real) {
    IsRanked(values, half - 1, a) && IsRanked(values, half, b)
  }

  /** The middle value, or the mean of the two middle ones. */
  ghost predicate IsMedian(values: seq<real>, m: real) {
    var half := |values| / 2;
    if |values| % 2 == 1 then IsRanked(values, half, m)
    else exists a, b :: AreMiddle(values, half, a, b) && m == (a + b) / 2.0
  }

  predicate Ordered(s: seq<real>) { forall i, j :: 0 <= i < j < |s| ==> s[i] <= s[j] }

  lemma {:induction false} InsertPermutes(x: real, sorted: seq<real>)
    ensures multiset(Insert(x, sorted)) == multiset(sorted) + multiset{x}
  {
    if sorted != [] && x > sorted[0] {
      InsertPermutes(x, sorted[1..]);
      assert sorted == [sorted[0]] + sorted[1..];
    }
  }

  lemma {:induction false} InsertKeepsOrder(x: real, sorted: seq<real>)
    requires Ordered(sorted)
    ensures Ordered(Insert(x, sorted))
  {
    if sorted != [] && x > sorted[0] {
      var rest := Insert(x, sorted[1..]);
      InsertKeepsOrder(x, sorted[1..]);
      InsertPermutes(x, sorted[1..]);
      forall i | 0 <= i < |rest| ensures sorted[0] <= rest[i] { assert rest[i] in multiset(rest); }
    }
  }

  /** Sorting orders the values and keeps each of them as often as it occurs. */
  lemma {:induction false} SortedPermutes(values: seq<real>)
    ensures Ordered(Sorted(values)) && multiset(Sorted(values)) == multiset(values)
  {
    if values != [] {
      SortedPermutes(values[1..]);
      InsertKeepsOrder(values[0], Sorted(values[1..]));
      InsertPermutes(values[0], Sorted(values[1..]));
      assert values == [values[0]] + values[1..];
    }
  }

  lemma {:induction false} CountsInsert(y: real, sorted: seq<real>, x: real)
    ensures Below(Insert(y, sorted), x) == (if y < x then 1 else 0) + Below(sorted, x)
    ensures Above(Insert(y, sorted), x) == (if y > x then 1 else 0) + Above(sorted, x)
  {
    if sorted == [] || y <= sorted[0] {
      assert ([y] + sorted)[1..] == sorted;
    } else {
      CountsInsert(y, sorted[1..], x);
      assert ([sorted[0]] + Insert(y, sorted[1..]))[1..] == Insert(y, sorted[1..]);
    }
  }

  lemma {:induction false} CountsSorted(values: seq<real>, x: real)
    ensures Below(Sorted(values), x) == Below(values, x) && Above(Sorted(values), x) == Above(values, x)
  {
    if values != [] {
      CountsSorted(values[1..], x);
      CountsInsert(values[0], Sorted(values[1..]), x);
    }
  }

  /** Nothing from position `k` on lies below `x`, and nothing up to `n` above it. */
  lemma {:induction false} CountsBound(s: seq<real>, x: real, k: nat, n: nat)
    requires forall i :: k <= i < |s| ==> x <= s[i]
    requires n <= |s| && forall i :: 0 <= i < n ==> s[i] <= x
    ensures Below(s, x) <= k && Above(s, x) <= |s| - n
  {
    if s != [] {
      CountsBound(s[1..], x, if k > 0 then k - 1 else 0, if n > 0 then n - 1 else 0);
    }
  }

  lemma SortedIsRanked(values: seq<real>, k: nat)
    requires k < |values|
    ensures IsRanked(values, k, Sorted(values)[k])
  {
    var s := Sorted(values);
    SortedPermutes(values);
    CountsBound(s, s[k], k, k + 1);
    CountsSorted(values, s[k]);
    assert s[k] in multiset(s);
  }

  lemma {:induction false} CountsTogether(values: seq<real>, x: real, y: real)
    requires x < y
    ensures Below(values, y) + Above(values, x) >= |values|
  {
    if values != [] { CountsTogether(values[1..], x, y); }
  }

  lemma RankedUnique(values: seq<real>, k: nat, x: real, y: real)
    requires IsRanked(values, k, x) && IsRanked(values, k, y)
    ensures x == y
  {
    if x < y { CountsTogether(values, x, y); }
    if y < x { CountsTogether(values, y, x); }
  }

  /** The baseline is the median: the value ranked in the middle, or the mean of the two. */
  lemma MedianIsMedian(values: seq<real>, m: real)
    requires values != []
    ensures IsMedian(values, m) <==> m == Median(values)
  {
    var half := |values| / 2;
    SortedIsRanked(values, half);
    if |values| % 2 == 0 {
      SortedIsRanked(values, half - 1);
      assert AreMiddle(values, half, Sorted(values)[half - 1], Sorted(values)[half]);
    }
    if IsMedian(values, m) {
      if |values| % 2 == 1 {
        RankedUnique(values, half, m, Median(values));
      } else {
        var a, b :| AreMiddle(values, half, a, b) && m == (a + b) / 2.0;
        RankedUnique(values, half - 1, a, Sorted(values)[half - 1]);
        RankedUnique(values, half, b, Sorted(values)[half]);
      }
    }
  }

  /** At most half of the values lie below their median and at most half above it. */
  lemma MedianHalves(values: seq<real>, m: real)
    requires IsMedian(values, m)
    ensures 2 * Below(values, m) <= |values| && 2 * Above(values, m) <= |values|
  {
    if |values| % 2 == 0 {
      var half := |values| / 2;
      var a, b :| AreMiddle(values, half, a, b) && m == (a + b) / 2.0;
      if b < a {
        CountsTogether(values, b, a);
      }
      assert a <= m <= b;
      CountsGrow(values, m, b);
      CountsGrow(values, a, m);
    }
  }

  lemma {:induction false} CountsGrow(values: seq<real>, x: real, y: real)
    requires x <= y
    ensures Below(values, x) <= Below(values, y) && Above(values, y) <= Above(values, x)
  {
    if values != [] { CountsGrow(values[1..], x, y); }
  }

  // --------------------------------------------------------- which flags are raised

  /** Enough yaws, and this one further from their median than the policy allows. */
  ghost predicate IsFarFrom(p: Policy, yaws: seq<real>, yaw: real) {
    && |yaws| >= p.baselineMinimum
    && exists m :: IsMedian(yaws, m) && (yaw > m + p.headTurnYaw || yaw < m - p.headTurnYaw)
  }

  /** A visible face is flagged away exactly when it is turned further than allowed from
      the median of the most recent yaws not judged turned, once there are enough. */
  lemma VisibleFaceAwayExactly(p: Policy, face: Face, frames: seq<Timed>, i: nat)
    requires |face.history| <= p.baselineWindow && i < |frames| && frames[i].seen.faceYaw.Some?
    ensures FlaggedAway(p, face, frames, i) <==>
        IsFarFrom(p, Recent(UnturnedYaws(p, face, frames[..i]), p.baselineWindow), frames[i].seen.faceYaw.value)
  {
    hide Median, IsMedian, FaceAfter, UnturnedYaws, Recent;
    BaselineIsRecentUnturned(p, face, frames[..i]);
    var history := FaceAfter(p, face, frames[..i]).history;
    if |history| >= p.baselineMinimum {
      forall m ensures IsMedian(history, m) <==> m == Median(history) { MedianIsMedian(history, m); }
      assert IsMedian(history, Median(history));
    }
  }

  /** The face went missing, with the person present, in the middle of a turn. */
  predicate LostMidTurn(p: Policy, before: seq<Timed>, seen: Observation) {
    && seen.personScore >= p.personThreshold && seen.faceYaw.None?
    && exists k :: 0 <= k < |before| && TurnedAwayAt(p, before, k)
  }

  /** The sample each label is given for each frame of a run, in terms of the frames. */
  lemma SamplesExactly(p: Policy, frames: seq<Timed>, kind: Label, i: nat)
    requires i < |frames|
    ensures |SamplesOf(p, NO_FACE, frames, kind)| == |frames|
    ensures var s := SamplesOf(p, NO_FACE, frames, kind)[i];
            var before, seen := frames[..i], frames[i].seen;
            var isPresent := seen.personScore >= p.personThreshold;
            var isFar := seen.faceYaw.Some?
                && IsFarFrom(p, Recent(UnturnedYaws(p, NO_FACE, before), p.baselineWindow), seen.faceYaw.value);
            var isLost := LostMidTurn(p, before, seen);
            && s.time == frames[i].time
            && match kind
               case StudentLeftFrame => s.positive == !isPresent && s.contribution == 0.5
               case FaceAbsent =>
                 s.positive == (isPresent && seen.faceYaw.None? && !isLost) && s.contribution == 0.5
               case HeadAway =>
                 s.positive == (isFar || isLost) && s.contribution == (if isFar then seen.faceScore else 0.5)
               case PhoneVisible =>
                 && s.positive == (isPresent && seen.phoneScore >= p.phoneThreshold)
                 && s.contribution == seen.phoneScore
  {
    hide FaceAfter, UnturnedYaws, Recent, IsFarFrom, TurnedAwayAt, Baseline, SamplesOf;
    SamplesFollowFace(p, NO_FACE, frames, kind, i);
    FaceAbsentExactly(p, frames[..i], frames[i].seen);
    if frames[i].seen.faceYaw.Some? { VisibleFaceAwayExactly(p, NO_FACE, frames, i); }
  }

  // ------------------------------------------------------------ when a turn resets

  /** The frames from `first` up to `n` are one turn that is still going on: all flagged,
      none of them taken as a new seating position, and begun at `first`. */
  predicate IsTurn(p: Policy, frames: seq<Timed>, first: nat, n: nat)
    requires n <= |frames|
  {
    && first < n
    && (forall i :: first <= i < n ==> FlaggedAway(p, NO_FACE, frames, i) && !ResetsAt(p, NO_FACE, frames, i))
    && (first > 0 ==> !FlaggedAway(p, NO_FACE, frames, first - 1) || ResetsAt(p, NO_FACE, frames, first - 1))
  }

  lemma TurnSinceStep(p: Policy, frames: seq<Timed>, n: nat)
    requires n < |frames|
    ensures var before := FaceAfter(p, NO_FACE, frames[..n]).turnSince;
            FaceAfter(p, NO_FACE, frames[..n + 1]).turnSince ==
            if !FlaggedAway(p, NO_FACE, frames, n) || ResetsAt(p, NO_FACE, frames, n) then None
            else if before.None? then Some(frames[n].time) else before
  {
    hide FeedBaseline, Remember, IsTurned, LostAfterTurn;
    FaceAfterNext(p, NO_FACE, frames, n);
  }

  lemma NoTurnYet(p: Policy, frames: seq<Timed>)
    ensures FaceAfter(p, NO_FACE, frames[..0]).turnSince == None
  {
    assert frames[..0] == [];
  }

  lemma {:induction false} TurnSinceExactly(p: Policy, frames: seq<Timed>, n: nat)
    requires n <= |frames|
    ensures var since := FaceAfter(p, NO_FACE, frames[..n]).turnSince;
            && (since.Some? ==> exists first: nat :: IsTurn(p, frames, first, n) && frames[first].time == since.value)
            && forall first: nat :: IsTurn(p, frames, first, n) ==> since == Some(frames[first].time)
  {
    hide FlaggedAway, ResetsAt, FaceAfter;
    if n == 0 {
      NoTurnYet(p, frames);
    } else {
      TurnSinceStep(p, frames, n - 1);
      TurnSinceExactly(p, frames, n - 1);
      var before, since := FaceAfter(p, NO_FACE, frames[..n - 1]).turnSince,
          FaceAfter(p, NO_FACE, frames[..n]).turnSince;
      forall first: nat | IsTurn(p, frames, first, n) ensures since == Some(frames[first].time) {
        if first < n - 1 { assert IsTurn(p, frames, first, n - 1); }
      }
      if since.Some? {
        if before.Some? {
          var first: nat :| IsTurn(p, frames, first, n - 1) && frames[first].time == before.value;
          assert IsTurn(p, frames, first, n);
        } else {
          if n > 1 { TurnSinceStep(p, frames, n - 2); }
          assert IsTurn(p, frames, n - 1, n);
        }
      }
    }
  }

  /** A turn is taken as a new seating position exactly at a flagged frame that comes more
      than the reset time after the turn's first one. */
  lemma ResetsExactly(p: Policy, frames: seq<Timed>, i: nat)
    requires i < |frames|
    ensures ResetsAt(p, NO_FACE, frames, i) <==>
        FlaggedAway(p, NO_FACE, frames, i)
            && exists first: nat ::
                IsTurn(p, frames, first, i) && frames[i].time - frames[first].time > p.baselineResetMs
  {
    TurnSinceExactly(p, frames, i);
  }
}
