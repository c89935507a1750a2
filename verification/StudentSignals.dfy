/** The student webcam worker: flags from one observation, the rolling head-angle
    baseline, one candidate per label, and the capture loop that drives it. */
module StudentSignals {
  import opened Common
  import opened SignalIntervals

  datatype Label = StudentLeftFrame | FaceAbsent | HeadAway | PhoneVisible

  const LABELS: seq<Label> := [StudentLeftFrame, FaceAbsent, HeadAway, PhoneVisible]

  /** The position of a label in the order the flags are handled. */
  function Rank(kind: Label): (i: nat)
    ensures i < |LABELS| && LABELS[i] == kind
  {
    match kind
    case StudentLeftFrame => 0
    case FaceAbsent => 1
    case HeadAway => 2
    case PhoneVisible => 3
  }

  lemma RankAt(i: nat)
    requires i < 4
    ensures |LABELS| == 4 && Rank(LABELS[i]) == i
  {
    assert LABELS[0] == StudentLeftFrame && LABELS[1] == FaceAbsent && LABELS[2] == HeadAway
        && LABELS[3] == PhoneVisible;
  }

  const MAXIMUM_LECTURE_MS := 28_800_000
  const PLACEHOLDER_CONFIDENCE := 0.5

  datatype Observation = Observation(personScore: real, phoneScore: real, faceScore: real, faceYaw: Option<real>)

  datatype Settings = Settings(
    samplingMs: nat, timing: Timing, personThreshold: real, phoneThreshold: real, headTurnYaw: real,
    baselineWindow: nat, baselineMinimum: nat, baselineResetMs: nat)

  /** The bounds the policy fields are declared with. */
  predicate ValidPolicy(p: Settings) {
    && 100 <= p.samplingMs <= 2000
    && 100 <= p.timing.minimumDuration <= 60_000 && 100 <= p.timing.maximumGap <= 10_000 && p.timing.mergeGap <= 10_000
    && 6 <= p.baselineWindow <= 1000 && 3 <= p.baselineMinimum <= 100 && 5_000 <= p.baselineResetMs <= 600_000
  }

  type Policy = p: Settings | ValidPolicy(p)
    witness Settings(100, Timing(100, 100, 0), 0.0, 0.0, 0.0, 6, 3, 5_000)

  datatype Signal = Signal(kind: Label, interval: Detected)

  /** The intervals emitted for one label, in order. */
  function Of(signals: seq<Signal>, kind: Label): seq<Detected> {
    if signals == [] then []
    else (if signals[0].kind == kind then [signals[0].interval] else []) + Of(signals[1..], kind)
  }

  function Tagged(kind: Label, found: seq<Detected>): seq<Signal> {
    if found == [] then [] else [Signal(kind, found[0])] + Tagged(kind, found[1..])
  }

  lemma OfFirst(s: Signal, rest: seq<Signal>, kind: Label)
    ensures Of([s] + rest, kind) == (if s.kind == kind then [s.interval] else []) + Of(rest, kind)
  {
    assert ([s] + rest)[1..] == rest;
  }

  lemma {:induction false} OfAppend(a: seq<Signal>, b: seq<Signal>, kind: Label)
    ensures Of(a + b, kind) == Of(a, kind) + Of(b, kind)
  {
    if a == [] {
      assert a + b == b;
    } else {
      assert a == [a[0]] + a[1..] && a + b == [a[0]] + (a[1..] + b);
      OfFirst(a[0], a[1..], kind);
      OfFirst(a[0], a[1..] + b, kind);
      OfAppend(a[1..], b, kind);
    }
  }

  lemma {:induction false} OfTagged(kind: Label, found: seq<Detected>, other: Label)
    ensures Of(Tagged(kind, found), other) == if kind == other then found else []
  {
    if found != [] {
      assert Tagged(kind, found)[1..] == Tagged(kind, found[1..]);
      OfTagged(kind, found[1..], other);
    }
  }

  /** The signals of one pass over the labels, in label order. */
  function Gather(found: map<Label, seq<Detected>>): (signals: seq<Signal>)
    requires forall kind :: kind in found
  {
    Tagged(StudentLeftFrame, found[StudentLeftFrame]) + Tagged(FaceAbsent, found[FaceAbsent])
    + Tagged(HeadAway, found[HeadAway]) + Tagged(PhoneVisible, found[PhoneVisible])
  }

  lemma GatherOf(found: map<Label, seq<Detected>>)
    requires forall kind :: kind in found
    ensures forall kind :: Of(Gather(found), kind) == found[kind]
  {
    forall kind ensures Of(Gather(found), kind) == found[kind] {
      var a, b, c, d := Tagged(StudentLeftFrame, found[StudentLeftFrame]), Tagged(FaceAbsent, found[FaceAbsent]),
                        Tagged(HeadAway, found[HeadAway]), Tagged(PhoneVisible, found[PhoneVisible]);
      OfAppend(a, b, kind); OfAppend(a + b, c, kind); OfAppend(a + b + c, d, kind);
      OfTagged(StudentLeftFrame, found[StudentLeftFrame], kind); OfTagged(FaceAbsent, found[FaceAbsent], kind);
      OfTagged(HeadAway, found[HeadAway], kind); OfTagged(PhoneVisible, found[PhoneVisible], kind);
    }
  }

  lemma AppendSignals(a: seq<Signal>, b: seq<Signal>)
    ensures forall kind :: Of(a + b, kind) == Of(a, kind) + Of(b, kind)
  {
    forall kind ensures Of(a + b, kind) == Of(a, kind) + Of(b, kind) { OfAppend(a, b, kind); }
  }

  // ------------------------------------------------------- head-angle state

  /** What the worker remembers about the face between samples. */
  datatype Face = Face(history: seq<real>, turnSince: Option<int>, lastWasTurned: Option<bool>)

  const NO_FACE := Face([], None, None)

  function Insert(x: real, sorted: seq<real>): seq<real> {
    if sorted == [] || x <= sorted[0] then [x] + sorted else [sorted[0]] + Insert(x, sorted[1..])
  }

  function Sorted(values: seq<real>): (r: seq<real>)
    ensures |r| == |values|
  {
    if values == [] then [] else InsertLength(values[0], Sorted(values[1..])); Insert(values[0], Sorted(values[1..]))
  }

  lemma InsertLength(x: real, sorted: seq<real>)
    ensures |Insert(x, sorted)| == |sorted| + 1
  {
  }

  function Median(values: seq<real>): real
    requires values != []
  {
    var s, n := Sorted(values), |values|;
    if n % 2 == 1 then s[n / 2] else (s[n / 2 - 1] + s[n / 2]) / 2.0
  }

  function Baseline(p: Policy, history: seq<real>): Option<real> {
    if |history| < p.baselineMinimum then None else Some(Median(history))
  }

  function Abs(x: real): real { if x < 0.0 then -x else x }

  predicate IsPerson(p: Policy, o: Observation) { o.personScore >= p.personThreshold }

  /** The visible face is turned away from this person's own baseline. */
  predicate IsTurned(p: Policy, face: Face, o: Observation) {
    var baseline := Baseline(p, face.history);
    o.faceYaw.Some? && baseline.Some? && Abs(o.faceYaw.value - baseline.value) > p.headTurnYaw
  }

  /** The face left the detector's view while the head was already turned. */
  predicate LostAfterTurn(p: Policy, face: Face, o: Observation) {
    IsPerson(p, o) && o.faceYaw.None? && face.lastWasTurned == Some(true)
  }

  predicate Positive(p: Policy, face: Face, o: Observation, kind: Label) {
    match kind
    case StudentLeftFrame => !IsPerson(p, o)
    case FaceAbsent => IsPerson(p, o) && o.faceYaw.None? && !LostAfterTurn(p, face, o)
    case HeadAway => IsTurned(p, face, o) || LostAfterTurn(p, face, o)
    case PhoneVisible => IsPerson(p, o) && o.phoneScore >= p.phoneThreshold
  }

  function Contribution(p: Policy, face: Face, o: Observation, kind: Label): real {
    match kind
    case StudentLeftFrame => PLACEHOLDER_CONFIDENCE
    case FaceAbsent => PLACEHOLDER_CONFIDENCE
    case HeadAway => if IsTurned(p, face, o) then o.faceScore else PLACEHOLDER_CONFIDENCE
    case PhoneVisible => o.phoneScore
  }

  function SampleOf(p: Policy, face: Face, o: Observation, now: int, kind: Label): Sample {
    Sample(now, Positive(p, face, o, kind), Contribution(p, face, o, kind))
  }

  /** `deque(maxlen=window).append`. */
  function Append(history: seq<real>, yaw: real, window: nat): seq<real> {
    var longer := history + [yaw];
    if |longer| > window then longer[|longer| - window..] else longer
  }

  function Remember(p: Policy, face: Face, o: Observation): Option<bool> {
    if o.faceYaw.Some? then Some(Positive(p, face, o, HeadAway))
    else if !IsPerson(p, o) then None
    else face.lastWasTurned
  }

  function FeedBaseline(p: Policy, history: seq<real>, yaw: Option<real>, isTurned: bool): seq<real> {
    if yaw.Some? && !(isTurned && |history| >= p.baselineMinimum) then Append(history, yaw.value, p.baselineWindow)
    else history
  }

  /** A turn that has lasted longer than the reset time re-baselines the worker. */
  predicate Rebaselines(p: Policy, turnSince: Option<int>, isTurned: bool, now: int) {
    isTurned && turnSince.Some? && now - turnSince.value > p.baselineResetMs
  }

  function NextFace(p: Policy, face: Face, o: Observation, now: int): Face {
    var isTurned := Positive(p, face, o, HeadAway);
    var remembered := Remember(p, face, o);
    if Rebaselines(p, face.turnSince, isTurned, now) then Face([], None, remembered)
    else Face(FeedBaseline(p, face.history, o.faceYaw, isTurned),
              if !isTurned then None else if face.turnSince.None? then Some(now) else face.turnSince,
              remembered)
  }

  // -------------------------------------------------------------- whole runs

  datatype Timed = Timed(time: int, seen: Observation)

  /** What one label sees of a run of analysed frames. */
  function SamplesOf(p: Policy, face: Face, frames: seq<Timed>, kind: Label): seq<Sample>
    decreases |frames|
  {
    if frames == [] then []
    else [SampleOf(p, face, frames[0].seen, frames[0].time, kind)]
         + SamplesOf(p, NextFace(p, face, frames[0].seen, frames[0].time), frames[1..], kind)
  }

  datatype Error = InvalidFrame | TimestampsMustIncrease | AnalysisFailed | InvalidSignal

  /** One read of the camera: a frame with what the analyser would say about it. */
  datatype Read = Frame(time: int, isWellFormed: bool, analysis: Option<Observation>) | CameraLost

  predicate TooEarly(p: Policy, previous: Option<int>, now: int) {
    previous.Some? && now - previous.value < p.samplingMs
  }

  predicate InOrder(previous: Option<int>, now: int) {
    0 <= now <= MAXIMUM_LECTURE_MS && (previous.Some? ==> previous.value < now)
  }

  /** Every read is a well-formed frame inside the clock and after the last
      analysed one, and every frame that is analysed can be. */
  predicate Clean(p: Policy, previous: Option<int>, captures: seq<Read>)
    decreases |captures|
  {
    captures != [] ==>
      var read := captures[0];
      && read.Frame? && read.isWellFormed && InOrder(previous, read.time)
      && (TooEarly(p, previous, read.time) || read.analysis.Some?)
      && Clean(p, if TooEarly(p, previous, read.time) then previous else Some(read.time), captures[1..])
  }

  /** How one capture run ended. */
  datatype Outcome = Completed | Lost | Raised(error: Error)

  /** What is wrong with one read, if anything. */
  function FaultOf(p: Policy, previous: Option<int>, read: Read): Option<Outcome> {
    if read.CameraLost? then Some(Lost)
    else if !read.isWellFormed then Some(Raised(InvalidFrame))
    else if !InOrder(previous, read.time) then Some(Raised(TimestampsMustIncrease))
    else if !TooEarly(p, previous, read.time) && read.analysis.None? then Some(Raised(AnalysisFailed))
    else None
  }

  /** The time of the last analysed frame, after a read without a fault. */
  function PreviousAfter(p: Policy, previous: Option<int>, read: Read): Option<int>
    requires read.Frame?
  {
    if TooEarly(p, previous, read.time) then previous else Some(read.time)
  }

  /** How many reads come before the first one with a fault. */
  function CleanReads(p: Policy, previous: Option<int>, captures: seq<Read>): (n: nat)
    ensures n <= |captures| && Clean(p, previous, captures[..n])
    ensures n < |captures| <==> !Clean(p, previous, captures)
    decreases |captures|
  {
    if captures == [] || FaultOf(p, previous, captures[0]).Some? then 0
    else
      var n := CleanReads(p, PreviousAfter(p, previous, captures[0]), captures[1..]);
      assert captures[..n + 1][1..] == captures[1..][..n];
      n + 1
  }

  /** How a run over these reads ends: at the first fault, or completed. */
  function OutcomeOf(p: Policy, previous: Option<int>, captures: seq<Read>): Outcome
    decreases |captures|
  {
    if captures == [] then Completed
    else if FaultOf(p, previous, captures[0]).Some? then FaultOf(p, previous, captures[0]).value
    else OutcomeOf(p, PreviousAfter(p, previous, captures[0]), captures[1..])
  }

  lemma {:induction false} CompletedIsClean(p: Policy, previous: Option<int>, captures: seq<Read>)
    ensures OutcomeOf(p, previous, captures).Completed? <==> Clean(p, previous, captures)
    decreases |captures|
  {
    if captures != [] && FaultOf(p, previous, captures[0]).None? {
      CompletedIsClean(p, PreviousAfter(p, previous, captures[0]), captures[1..]);
    }
  }

  /** The frames that are far enough from the previous analysed one. */
  function Analysed(p: Policy, previous: Option<int>, captures: seq<Read>): seq<Timed>
    requires Clean(p, previous, captures)
    decreases |captures|
  {
    if captures == [] then []
    else if TooEarly(p, previous, captures[0].time) then Analysed(p, previous, captures[1..])
    else [Timed(captures[0].time, captures[0].analysis.value)] + Analysed(p, Some(captures[0].time), captures[1..])
  }

  /** The read is at least the sampling interval after the last frame analysed before it. */
  predicate IsDue(p: Policy, previous: Option<int>, captures: seq<Read>, at: seq<nat>, i: nat)
    requires i < |captures| && captures[i].Frame?
  {
    && (previous.Some? ==> captures[i].time - previous.value >= p.samplingMs)
    && forall j: nat :: j in at && j < i && captures[j].Frame? ==> captures[i].time - captures[j].time >= p.samplingMs
  }

  /** Exactly these reads are due. */
  ghost predicate AreDue(p: Policy, previous: Option<int>, captures: seq<Read>, at: seq<nat>) {
    forall i: nat :: i in at <==> i < |captures| && captures[i].Frame? && IsDue(p, previous, captures, at, i)
  }

  lemma DueLater(p: Policy, previous: Option<int>, captures: seq<Read>, tail: seq<nat>, at: seq<nat>, i: nat)
    requires 0 < i < |captures| && captures[0].Frame? && captures[i].Frame? && InOrder(previous, captures[0].time)
    requires InFront(!TooEarly(p, previous, captures[0].time), tail, at)
    ensures IsDue(p, previous, captures, at, i) <==>
        IsDue(p, if TooEarly(p, previous, captures[0].time) then previous else Some(captures[0].time), captures[1..],
              tail, i - 1)
  {
    if IsDue(p, previous, captures, at, i) {
      forall j: nat | j in tail && j < i - 1 && captures[1..][j].Frame?
        ensures captures[i].time - captures[1..][j].time >= p.samplingMs
      {
        assert j + 1 in at;
      }
    } else if !TooEarly(p, previous, captures[0].time) {
      assert 0 in at;
    }
  }

  /** These are the frames read at these positions. */
  predicate AreFramesAt(captures: seq<Read>, at: seq<nat>, frames: seq<Timed>) {
    |frames| == |at| && forall k :: 0 <= k < |at| ==>
        at[k] < |captures| && captures[at[k]].Frame? && captures[at[k]].analysis.Some?
        && frames[k] == Timed(captures[at[k]].time, captures[at[k]].analysis.value)
  }

  lemma FramesCons(at: seq<nat>, captures: seq<Read>, frames: seq<Timed>, isTaken: bool)
    requires captures != [] && AreFramesAt(captures[1..], at, frames)
    requires isTaken ==> captures[0].Frame? && captures[0].analysis.Some?
    ensures AreFramesAt(captures, (if isTaken then [0] else []) + Later(at),
                        (if isTaken then [Timed(captures[0].time, captures[0].analysis.value)] else []) + frames)
  {
    var later := Later(at);
    forall k | 0 <= k < |at|
      ensures later[k] < |captures| && captures[later[k]] == captures[1..][at[k]]
    {
    }
  }

  lemma NothingBefore(p: Policy, previous: Option<int>, captures: seq<Read>, at: seq<nat>)
    requires captures != [] && captures[0].Frame?
    ensures IsDue(p, previous, captures, at, 0) <==> !TooEarly(p, previous, captures[0].time)
  {
  }

  /** The reads that are due, given which ones of the rest are. */
  lemma DueCons(p: Policy, previous: Option<int>, captures: seq<Read>, tail: seq<nat>, at: seq<nat>)
    requires captures != [] && captures[0].Frame? && InOrder(previous, captures[0].time)
    requires InFront(!TooEarly(p, previous, captures[0].time), tail, at)
    requires AreDue(p, if TooEarly(p, previous, captures[0].time) then previous else Some(captures[0].time),
                    captures[1..], tail)
    ensures AreDue(p, previous, captures, at)
  {
    hide IsDue;
    NothingBefore(p, previous, captures, at);
    forall i: nat
      ensures i in at <==> i < |captures| && captures[i].Frame? && IsDue(p, previous, captures, at, i)
    {
      if 0 < i < |captures| && captures[i].Frame? { DueLater(p, previous, captures, tail, at, i); }
    }
  }

  /** The first read of a clean run. */
  lemma FirstAnalysed(p: Policy, previous: Option<int>, captures: seq<Read>)
    requires Clean(p, previous, captures) && captures != []
    ensures var read, isTaken := captures[0], !TooEarly(p, previous, captures[0].time);
            var next := if TooEarly(p, previous, read.time) then previous else Some(read.time);
            && read.Frame? && InOrder(previous, read.time) && (isTaken ==> read.analysis.Some?)
            && Clean(p, next, captures[1..])
            && Analysed(p, previous, captures)
                == (if isTaken then [Timed(read.time, read.analysis.value)] else [])
                   + Analysed(p, next, captures[1..])
  {
    var rest := Analysed(p, previous, captures);
    assert [] + rest == rest;
  }

  /** Of a clean run, exactly the reads that are due are analysed, in order. */
  lemma {:induction false} AnalysedExactly(p: Policy, previous: Option<int>, captures: seq<Read>)
    returns (at: seq<nat>)
    requires Clean(p, previous, captures)
    ensures Rise(at) && AreDue(p, previous, captures, at) && AreFramesAt(captures, at, Analysed(p, previous, captures))
    decreases |captures|
  {
    hide AreDue, AreFramesAt, InFront, Clean, Analysed, TooEarly;
    if captures == [] {
      at := [];
      NothingDue(p, previous, captures);
    } else {
      FirstAnalysed(p, previous, captures);
      var read, isTaken := captures[0], !TooEarly(p, previous, captures[0].time);
      var next := if TooEarly(p, previous, read.time) then previous else Some(read.time);
      var tail := AnalysedExactly(p, next, captures[1..]);
      at := (if isTaken then [0] else []) + Later(tail);
      RiseCons(tail, isTaken);
      DueCons(p, previous, captures, tail, at);
      FramesCons(tail, captures, Analysed(p, next, captures[1..]), isTaken);
    }
  }

  lemma NothingDue(p: Policy, previous: Option<int>, captures: seq<Read>)
    requires captures == []
    ensures AreDue(p, previous, captures, []) && AreFramesAt(captures, [], Analysed(p, previous, captures))
  {
  }

  lemma {:induction false} SamplesIncrease(p: Policy, face: Face, previous: Option<int>, captures: seq<Read>,
                                           kind: Label)
    requires Clean(p, previous, captures)
    ensures var samples := SamplesOf(p, face, Analysed(p, previous, captures), kind);
            Increasing(samples) && (previous.Some? ==> After(previous.value, samples))
    decreases |captures|
  {
    if captures != [] {
      var read := captures[0];
      if TooEarly(p, previous, read.time) {
        SamplesIncrease(p, face, previous, captures[1..], kind);
      } else {
        SamplesIncrease(p, NextFace(p, face, read.analysis.value, read.time), Some(read.time), captures[1..], kind);
      }
    }
  }

  /** What one label still emits from a given worker state on the remaining reads, and
      the candidate they leave open. */
  function Streaming(p: Policy, face: Face, previous: Option<int>, candidate: Option<Candidate>, captures: seq<Read>,
                     kind: Label)
    : (Option<Candidate>, seq<Detected>)
    requires Clean(p, previous, captures)
  {
    Streamed(p.timing, previous, candidate, SamplesOf(p, face, Analysed(p, previous, captures), kind))
  }

  /** The rest of a stream, after what has been emitted of it. */
  function Then(out: seq<Detected>, rest: (Option<Candidate>, seq<Detected>)): (Option<Candidate>, seq<Detected>) {
    (rest.0, out + rest.1)
  }

  lemma StreamingSteps(p: Policy, face: Face, previous: Option<int>, candidate: Option<Candidate>,
                       read: Read, rest: seq<Read>, kind: Label)
    requires Clean(p, previous, [read] + rest) && !TooEarly(p, previous, read.time)
    requires Clean(p, Some(read.time), rest)
    ensures var (now, seen) := (read.time, read.analysis.value);
            var (next, out) := Observe(p.timing, previous, candidate, SampleOf(p, face, seen, now, kind));
            Streaming(p, face, previous, candidate, [read] + rest, kind)
            == Then(out, Streaming(p, NextFace(p, face, seen, now), Some(now), next, rest, kind))
  {
    hide Observe, NextFace;
    assert ([read] + rest)[1..] == rest;
    var frame := Timed(read.time, read.analysis.value);
    var tail := Analysed(p, Some(frame.time), rest);
    var after := NextFace(p, face, frame.seen, frame.time);
    var samples := SamplesOf(p, face, [frame] + tail, kind);
    assert ([frame] + tail)[1..] == tail;
    assert samples == [SampleOf(p, face, frame.seen, frame.time, kind)] + SamplesOf(p, after, tail, kind);
    assert samples[1..] == SamplesOf(p, after, tail, kind);
  }

  lemma CleanStep(p: Policy, previous: Option<int>, read: Read, rest: seq<Read>)
    ensures Clean(p, previous, [read] + rest) <==>
        FaultOf(p, previous, read).None? && Clean(p, PreviousAfter(p, previous, read), rest)
  {
    assert ([read] + rest)[1..] == rest;
  }

  lemma TooEarlyStep(p: Policy, face: Face, previous: Option<int>, candidate: Option<Candidate>, read: Read,
                     rest: seq<Read>, kind: Label)
    requires Clean(p, previous, [read] + rest) && TooEarly(p, previous, read.time)
    requires Clean(p, previous, rest)
    ensures Streaming(p, face, previous, candidate, [read] + rest, kind)
            == Then([], Streaming(p, face, previous, candidate, rest, kind))
  {
    assert ([read] + rest)[1..] == rest;
    var s := Streaming(p, face, previous, candidate, rest, kind);
    assert [] + s.1 == s.1;
  }

  // --------------------------------------------------------------- the worker

  /** The time of the last frame read, which is where the capture loop flushes. */
  function LastTime(clockOffset: int, captures: seq<Read>): int {
    if captures == [] || captures[|captures| - 1].CameraLost? then clockOffset else captures[|captures| - 1].time
  }

  class StudentSignalWorker {
    const policy: Policy
    var active: map<Label, Candidate>
    var yawHistory: seq<real>
    var turnSince: Option<int>
    var lastFaceWasTurned: Option<bool>
    var previous: Option<int>
    var isAvailable: bool

    constructor (policy: Policy)
      ensures this.policy == policy && active == map[] && CurrentFace() == NO_FACE && previous == None && isAvailable
    {
      this.policy := policy;
      active, yawHistory, turnSince, lastFaceWasTurned, previous, isAvailable := map[], [], None, None, None, true;
    }

    function CurrentFace(): Face
      reads this
    {
      Face(yawHistory, turnSince, lastFaceWasTurned)
    }

    predicate Cleared()
      reads this
    {
      active == map[] && CurrentFace() == NO_FACE && previous == None && !isAvailable
    }

    method Unavailable()
      modifies this
      ensures Cleared()
    {
      active, yawHistory, turnSince, lastFaceWasTurned, previous, isAvailable := map[], [], None, None, None, false;
    }

    method UpdateBaseline(yaw: Option<real>, isTurned: bool, now: int)
      modifies this`yawHistory, this`turnSince
      ensures yawHistory == if Rebaselines(policy, old(turnSince), isTurned, now) then []
                            else FeedBaseline(policy, old(yawHistory), yaw, isTurned)
      ensures turnSince == if !isTurned || Rebaselines(policy, old(turnSince), isTurned, now) then None
                           else if old(turnSince).None? then Some(now) else old(turnSince)
    {
      var established := |yawHistory| >= policy.baselineMinimum;
      if yaw.Some? && !(isTurned && established) {
        yawHistory := Append(yawHistory, yaw.value, policy.baselineWindow);
      }
      if !isTurned {
        turnSince := None;
      } else if turnSince.None? {
        turnSince := Some(now);
      } else if now - turnSince.value > policy.baselineResetMs {
        yawHistory := [];
        turnSince := None;
      }
    }

    method AdvanceLabel(kind: Label, s: Sample) returns (found: seq<Detected>)
      modifies this`active
      ensures var (next, out) := Advance(policy.timing, Get(old(active), kind), s);
              active == Put(old(active), kind, next) && found == out
    {
      found := [];
      if s.positive {
        if kind !in active {
          active := active[kind := Candidate(s.time, 1, s.contribution, None)];
        } else {
          var c := active[kind];
          if c.gapStart.Some? && s.time - c.gapStart.value >= policy.timing.mergeGap {
            found := Close(policy.timing, c, c.gapStart.value);
            active := active[kind := Candidate(s.time, 1, s.contribution, None)];
          } else {
            active := active[kind := Candidate(c.begin, c.count + 1, c.total + s.contribution, None)];
          }
        }
      } else if kind in active {
        var c := active[kind];
        if c.gapStart.None? {
          c := c.(gapStart := Some(s.time));
          active := active[kind := c];
        }
        if s.time - c.gapStart.value >= policy.timing.mergeGap {
          active := active - {kind};
          found := Close(policy.timing, c, c.gapStart.value);
        }
      }
    }

    method FinishEndedCandidates() returns (signals: seq<Signal>)
      modifies this`active
      ensures active == map[]
      ensures forall kind :: Of(signals, kind) == FinishEnded(policy.timing, Get(old(active), kind))
    {
      var found: map<Label, seq<Detected>> := map[];
      for i := 0 to 4
        invariant active == old(active)
        invariant forall kind :: Rank(kind) < i ==>
            kind in found && found[kind] == FinishEnded(policy.timing, Get(active, kind))
      {
        RankAt(i);
        found := found[LABELS[i] := FinishEnded(policy.timing, Get(active, LABELS[i]))];
      }
      active := map[];
      GatherOf(found);
      signals := Gather(found);
    }

    /** Close what is still open. A signal past the end of the lecture clock is
        rejected and leaves the candidates in place. */
    method FlushAll(now: int) returns (r: Result<seq<Signal>, Error>)
      modifies this`active
      ensures r.Err? <==> exists kind :: EndsTooLate(Flush(policy.timing, Get(old(active), kind), now))
      ensures r.Err? ==> active == old(active)
      ensures r.Ok? ==> active == map[]
      ensures r.Ok? ==> forall kind :: Of(r.value, kind) == Flush(policy.timing, Get(old(active), kind), now)
    {
      var found: map<Label, seq<Detected>> := map[];
      for i := 0 to 4
        invariant active == old(active)
        invariant forall kind :: Rank(kind) < i ==>
            kind in found && found[kind] == Flush(policy.timing, Get(active, kind), now)
        invariant forall kind :: Rank(kind) < i ==> !EndsTooLate(Flush(policy.timing, Get(active, kind), now))
      {
        RankAt(i);
        var closed := Flush(policy.timing, Get(active, LABELS[i]), now);
        if EndsTooLate(closed) { return Err(InvalidSignal); }
        found := found[LABELS[i] := closed];
      }
      active := map[];
      GatherOf(found);
      r := Ok(Gather(found));
    }

    method AdvanceAll(flags: map<Label, Sample>) returns (signals: seq<Signal>)
      requires forall kind :: kind in flags
      modifies this`active
      ensures forall kind ::
          (Get(active, kind), Of(signals, kind)) == Advance(policy.timing, Get(old(active), kind), flags[kind])
    {
      hide Advance;
      var found: map<Label, seq<Detected>> := map[];
      for i := 0 to 4
        invariant forall kind :: i <= Rank(kind) ==> Get(active, kind) == Get(old(active), kind)
        invariant forall kind :: Rank(kind) < i ==>
                    kind in found
                        && (Get(active, kind), found[kind])
                            == Advance(policy.timing, Get(old(active), kind), flags[kind])
      {
        RankAt(i);
        var out := AdvanceLabel(LABELS[i], flags[LABELS[i]]);
        found := found[LABELS[i] := out];
      }
      GatherOf(found);
      signals := Gather(found);
    }

    method ObserveFrame(isWellFormed: bool, now: int, analysis: Option<Observation>)
      returns (r: Result<seq<Signal>, Error>)
      modifies this
      ensures r.Err? ==> Cleared()
      ensures FaultOf(policy, old(previous), Frame(now, isWellFormed, analysis))
              == if r.Err? then Some(Raised(r.error)) else None
      ensures r.Ok? && TooEarly(policy, old(previous), now) ==>
                (r.value == [] && active == old(active) && CurrentFace() == old(CurrentFace())
                 && previous == old(previous))
      ensures r.Ok? && !TooEarly(policy, old(previous), now) ==>
                (previous == Some(now) && isAvailable
                 && CurrentFace() == NextFace(policy, old(CurrentFace()), analysis.value, now))
      ensures r.Ok? && !TooEarly(policy, old(previous), now) ==>
                forall kind ::
                  (Get(active, kind), Of(r.value, kind))
                  == Observe(policy.timing, old(previous), Get(old(active), kind),
                             SampleOf(policy, old(CurrentFace()), analysis.value, now, kind))
    {
      hide Advance, IsTurned, LostAfterTurn, FeedBaseline;
      if !isWellFormed { Unavailable(); return Err(InvalidFrame); }
      if !InOrder(previous, now) { Unavailable(); return Err(TimestampsMustIncrease); }
      if TooEarly(policy, previous, now) { return Ok([]); }
      var events := [];
      if IsSplit(policy.timing, previous, now) { events := FinishEndedCandidates(); }
      previous := Some(now);
      if analysis.None? { Unavailable(); return Err(AnalysisFailed); }
      var seen, face := analysis.value, CurrentFace();
      var isTurned := Positive(policy, face, seen, HeadAway);
      if seen.faceYaw.Some? {
        lastFaceWasTurned := Some(isTurned);
      } else if !IsPerson(policy, seen) {
        lastFaceWasTurned := None;
      }
      UpdateBaseline(seen.faceYaw, isTurned, now);
      ghost var kept := active;
      var samples := map kind: Label | true :: SampleOf(policy, face, seen, now, kind);
      var advanced := AdvanceAll(samples);
      ObservedAll(policy.timing, old(previous), now, old(active), kept, active, samples, events, advanced);
      isAvailable := true;
      r := Ok(events + advanced);
    }

    /** Candidates never point past the last analysed sample. */
    ghost predicate Settled()
      reads this
    {
      forall kind :: Get(active, kind).Some? ==>
                       previous.Some? && previous.value <= MAXIMUM_LECTURE_MS
                           && Ended(Get(active, kind), previous.value)
    }

    /** One read of a capture run: what it emits, followed by what is still to
        come, is what was to come before it. */
    method ObserveRead(read: Read, ghost rest: seq<Read>) returns (r: Result<seq<Signal>, Error>)
      requires read.Frame? && Settled()
      modifies this
      ensures Settled()
      ensures FaultOf(policy, old(previous), read) == if r.Err? then Some(Raised(r.error)) else None
      ensures r.Err? ==> Cleared()
      ensures r.Ok? ==> previous == PreviousAfter(policy, old(previous), read) && 0 <= read.time <= MAXIMUM_LECTURE_MS
      ensures r.Ok? && Clean(policy, previous, rest) ==> Clean(policy, old(previous), [read] + rest)
      ensures r.Ok? && Clean(policy, previous, rest) ==>
                forall kind ::
                  Then(Of(r.value, kind), Streaming(policy, CurrentFace(), previous, Get(active, kind), rest, kind))
                  == Streaming(policy, old(CurrentFace()), old(previous), Get(old(active), kind), [read] + rest, kind)
    {
      hide Observe, NextFace, Streaming, Clean;
      r := ObserveFrame(read.isWellFormed, read.time, read.analysis);
      if r.Ok? {
        CleanStep(policy, old(previous), read, rest);
        if !TooEarly(policy, old(previous), read.time) {
          forall kind
            ensures Get(active, kind).Some? ==> Ended(Get(active, kind), read.time)
          {
            ObserveEnded(policy.timing, old(previous), Get(old(active), kind),
                         SampleOf(policy, old(CurrentFace()), read.analysis.value, read.time, kind));
          }
        }
        if Clean(policy, previous, rest) {
          forall kind
            ensures Then(Of(r.value, kind), Streaming(policy, CurrentFace(), previous, Get(active, kind), rest, kind))
                    == Streaming(policy, old(CurrentFace()), old(previous), Get(old(active), kind), [read] + rest, kind)
          {
            if TooEarly(policy, old(previous), read.time) {
              TooEarlyStep(policy, old(CurrentFace()), old(previous), Get(old(active), kind), read, rest, kind);
            } else {
              StreamingSteps(policy, old(CurrentFace()), old(previous), Get(old(active), kind), read, rest, kind);
            }
          }
        }
      }
    }

    /** Read the camera until it ends, then flush at the last frame time. On a run
        with no fault, every label emits exactly its offline intervals. A fault is
        answered as such, and what was emitted is what the reads before it emit
        without a flush. */
    method RunCapture(clockOffset: int, captures: seq<Read>) returns (emitted: seq<Signal>, outcome: Outcome)
      requires active == map[] && 0 <= clockOffset <= MAXIMUM_LECTURE_MS
      modifies this
      ensures outcome == OutcomeOf(policy, old(previous), captures)
      ensures outcome.Completed? <==> Clean(policy, old(previous), captures)
      ensures !outcome.Completed? ==> Cleared()
      ensures outcome.Completed? ==> active == map[]
      ensures outcome.Completed? ==>
                var frames := Analysed(policy, old(previous), captures);
                forall kind :: Of(emitted, kind)
                               == Offline(policy.timing, SamplesOf(policy, old(CurrentFace()), frames, kind),
                                          LastTime(clockOffset, captures))
      ensures !outcome.Completed? ==>
                var clean := captures[..CleanReads(policy, old(previous), captures)];
                forall kind :: Of(emitted, kind)
                               == Streaming(policy, old(CurrentFace()), old(previous), None, clean, kind).1
    {
      hide Streaming, CleanReads;
      emitted := [];
      var last := clockOffset;
      ghost var n, start, face := CleanReads(policy, previous, captures), previous, CurrentFace();
      var i := 0;
      CompletedIsClean(policy, start, captures);
      assert captures[0..] == captures && captures[0..n] == captures[..n];
      forall kind { NothingYet(Streaming(policy, face, start, None, captures[..n], kind), kind); }
      while i < |captures|
        invariant i <= n && 0 <= last <= MAXIMUM_LECTURE_MS && Settled()
        invariant last == LastTime(clockOffset, captures[..i])
        invariant OutcomeOf(policy, previous, captures[i..]) == OutcomeOf(policy, start, captures)
        invariant CleanReads(policy, previous, captures[i..]) == n - i && Clean(policy, previous, captures[i..n])
        invariant forall kind ::
                    Then(Of(emitted, kind),
                         Streaming(policy, CurrentFace(), previous, Get(active, kind), captures[i..n], kind))
                    == Streaming(policy, face, start, None, captures[..n], kind)
      {
        FirstRead(policy, previous, captures[i..]);
        assert captures[i..][1..] == captures[i + 1..];
        if captures[i].CameraLost? {
          NothingLeft(policy, CurrentFace(), previous, active, captures[i..n]);
          Unavailable();
          return emitted, Lost;
        }
        last := captures[i].time;
        ghost var before, rest := emitted, if i < n then captures[i + 1..n] else [];
        if i < n { assert [captures[i]] + rest == captures[i..n]; }
        if i == n { NothingLeft(policy, CurrentFace(), previous, active, captures[i..n]); }
        ghost var was, had, held := CurrentFace(), previous, active;
        var r := ObserveRead(captures[i], rest);
        if r.Err? { return emitted, Raised(r.error); }
        CleanStep(policy, had, captures[i], rest);
        AppendSignals(emitted, r.value);
        emitted := emitted + r.value;
        forall kind
          ensures Then(Of(emitted, kind), Streaming(policy, CurrentFace(), previous, Get(active, kind), rest, kind))
                  == Streaming(policy, face, start, None, captures[..n], kind)
        {
          Chained(Of(before, kind), Of(r.value, kind),
                  Streaming(policy, CurrentFace(), previous, Get(active, kind), rest, kind));
        }
        i := i + 1;
        assert captures[..i][|captures[..i]| - 1] == captures[i - 1];
      }
      assert captures[..i] == captures && captures[..n] == captures;
      NothingLeft(policy, CurrentFace(), previous, active, captures[i..n]);
      var rest := FlushAll(last);
      AppendSignals(emitted, rest.value);
      forall kind { EverythingStreamed(policy, face, start, captures, kind, last); }
      emitted := emitted + rest.value;
      outcome := Completed;
    }
  }

  /** The first of the remaining reads decides how many are clean and how the run ends. */
  lemma FirstRead(p: Policy, previous: Option<int>, captures: seq<Read>)
    requires captures != []
    ensures var fault := FaultOf(p, previous, captures[0]);
            && (fault.Some? ==>
                  CleanReads(p, previous, captures) == 0 && OutcomeOf(p, previous, captures) == fault.value)
            && (fault.None? ==>
                  var next := PreviousAfter(p, previous, captures[0]);
                  && CleanReads(p, previous, captures) == 1 + CleanReads(p, next, captures[1..])
                  && OutcomeOf(p, previous, captures) == OutcomeOf(p, next, captures[1..]))
  {
  }

  lemma NothingLeft(p: Policy, face: Face, previous: Option<int>, active: map<Label, Candidate>, captures: seq<Read>)
    requires captures == []
    ensures forall kind :: Streaming(p, face, previous, Get(active, kind), captures, kind) == (Get(active, kind), [])
  {
  }

  lemma NothingYet(rest: (Option<Candidate>, seq<Detected>), kind: Label)
    ensures Then(Of([], kind), rest) == rest
  {
    assert [] + rest.1 == rest.1;
  }

  lemma Chained(a: seq<Detected>, b: seq<Detected>, rest: (Option<Candidate>, seq<Detected>))
    ensures Then(a, Then(b, rest)) == Then(a + b, rest)
  {
    assert a + (b + rest.1) == a + b + rest.1;
  }

  lemma EverythingStreamed(p: Policy, face: Face, previous: Option<int>, captures: seq<Read>,
                           kind: Label, flushAt: int)
    requires Clean(p, previous, captures)
    ensures var (last, out) := Streaming(p, face, previous, None, captures, kind);
            out + Flush(p.timing, last, flushAt)
            == Offline(p.timing, SamplesOf(p, face, Analysed(p, previous, captures), kind), flushAt)
  {
    hide Offline, Online, Streamed, Flush;
    var samples := SamplesOf(p, face, Analysed(p, previous, captures), kind);
    SamplesIncrease(p, face, previous, captures, kind);
    OnlineIsOffline(p.timing, previous, samples, flushAt);
    OnlineStreams(p.timing, previous, None, samples, flushAt);
  }

  /** Closing what a sample gap ends and then advancing is one observation of each label. */
  lemma ObservedAll(p: Timing, previous: Option<int>, now: int, was: map<Label, Candidate>,
                    kept: map<Label, Candidate>, active: map<Label, Candidate>, samples: map<Label, Sample>,
                    events: seq<Signal>, advanced: seq<Signal>)
    requires forall kind :: kind in samples && samples[kind].time == now
    requires if IsSplit(p, previous, now)
             then kept == map[] && forall kind :: Of(events, kind) == FinishEnded(p, Get(was, kind))
             else kept == was && events == []
    requires forall kind :: (Get(active, kind), Of(advanced, kind)) == Advance(p, Get(kept, kind), samples[kind])
    ensures forall kind ::
        (Get(active, kind), Of(events + advanced, kind)) == Observe(p, previous, Get(was, kind), samples[kind])
  {
    hide Advance, FinishEnded;
    AppendSignals(events, advanced);
    forall kind
      ensures (Get(active, kind), Of(events + advanced, kind)) == Observe(p, previous, Get(was, kind), samples[kind])
    {
      assert [] + Of(advanced, kind) == Of(advanced, kind);
    }
  }

  predicate EndsTooLate(found: seq<Detected>) {
    found != [] && found[0].end > MAXIMUM_LECTURE_MS
  }

  // ------------------------------------------------------------- corollary

  /** Every read of a clean run comes after the last frame analysed before it. */
  lemma {:induction false} ReadsComeLater(p: Policy, previous: int, captures: seq<Read>)
    requires Clean(p, Some(previous), captures)
    ensures forall i :: 0 <= i < |captures| ==> captures[i].Frame? && previous < captures[i].time
    decreases |captures|
  {
    if captures != [] {
      var read := captures[0];
      ReadsComeLater(p, if TooEarly(p, Some(previous), read.time) then previous else read.time, captures[1..]);
      assert captures == [read] + captures[1..];
    }
  }

  lemma {:induction false} LastAnalysedIsNotLater(p: Policy, previous: Option<int>, captures: seq<Read>)
    requires Clean(p, previous, captures) && captures != []
    ensures captures[|captures| - 1].Frame?
    ensures var frames := Analysed(p, previous, captures);
            frames != [] ==> frames[|frames| - 1].time <= captures[|captures| - 1].time
    decreases |captures|
  {
    var read, rest := captures[0], captures[1..];
    var next := if TooEarly(p, previous, read.time) then previous else Some(read.time);
    if rest != [] {
      LastAnalysedIsNotLater(p, next, rest);
      if !TooEarly(p, previous, read.time) {
        ReadsComeLater(p, read.time, rest);
        var tail := Analysed(p, next, rest);
        if tail == [] { assert rest[|rest| - 1].time > read.time; }
      }
    }
  }

  lemma {:induction false} SamplesKeepTimes(p: Policy, face: Face, frames: seq<Timed>, kind: Label)
    ensures var samples := SamplesOf(p, face, frames, kind);
            |samples| == |frames| && forall i :: 0 <= i < |frames| ==> samples[i].time == frames[i].time
    decreases |frames|
  {
    if frames != [] { SamplesKeepTimes(p, NextFace(p, face, frames[0].seen, frames[0].time), frames[1..], kind); }
  }

  /** What a clean capture run emits for a label is in order, long enough, disjoint
      and separated, and lies inside the run. */
  lemma CaptureIsSeparated(p: Policy, face: Face, previous: Option<int>, clockOffset: int,
                           captures: seq<Read>, kind: Label)
    requires Clean(p, previous, captures)
    ensures var frames := Analysed(p, previous, captures);
            var found := Offline(p.timing, SamplesOf(p, face, frames, kind), LastTime(clockOffset, captures));
            if frames == [] then found == []
            else Separated(found, frames[0].time, LastTime(clockOffset, captures), p.timing.minimumDuration,
                           Min(p.timing.mergeGap, p.timing.maximumGap))
  {
    hide Offline, Separated;
    var frames := Analysed(p, previous, captures);
    SamplesKeepTimes(p, face, frames, kind);
    SamplesIncrease(p, face, previous, captures, kind);
    if frames != [] {
      LastAnalysedIsNotLater(p, previous, captures);
      OfflineSeparated(p.timing, SamplesOf(p, face, frames, kind), LastTime(clockOffset, captures));
    } else {
      NothingOffline(p.timing, LastTime(clockOffset, captures));
      assert SamplesOf(p, face, frames, kind) == [];
    }
  }

  /** A fault makes nothing up: what a label emitted before it is a prefix of the offline
      intervals of the frames analysed before it, wherever those are flushed; at most
      the interval still open is missing, and every interval ended by the last of them. */
  lemma FaultEmitsPrefix(p: Policy, face: Face, previous: Option<int>, captures: seq<Read>, kind: Label, flushAt: int)
    ensures var clean := captures[..CleanReads(p, previous, captures)];
            var frames := Analysed(p, previous, clean);
            var out := Streaming(p, face, previous, None, clean, kind).1;
            var found := Offline(p.timing, SamplesOf(p, face, frames, kind), flushAt);
            && out <= found && |found| <= |out| + 1
            && forall i :: 0 <= i < |out| ==> frames != [] && out[i].end <= frames[|frames| - 1].time
  {
    hide Streaming, Offline, CleanReads, SamplesOf, NextFace;
    var clean := captures[..CleanReads(p, previous, captures)];
    var frames := Analysed(p, previous, clean);
    EverythingStreamed(p, face, previous, clean, kind, flushAt);
    SamplesKeepTimes(p, face, frames, kind);
    SamplesIncrease(p, face, previous, clean, kind);
    if frames == [] {
      NothingOffline(p.timing, flushAt);
    } else {
      var last := frames[|frames| - 1].time;
      EverythingStreamed(p, face, previous, clean, kind, last);
      OfflineSeparated(p.timing, SamplesOf(p, face, frames, kind), last);
      var out := Streaming(p, face, previous, None, clean, kind).1;
      var found := Offline(p.timing, SamplesOf(p, face, frames, kind), last);
      forall i | 0 <= i < |out| ensures out[i].end <= last { assert out[i] == found[i]; }
    }
  }

  lemma NothingOffline(t: Timing, flushAt: int)
    ensures Offline(t, [], flushAt) == []
  {
  }
}
