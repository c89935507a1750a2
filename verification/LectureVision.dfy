/** The lecture camera worker: per-condition candidates with cooldowns, adaptive
    sampling, and the pacing its events keep over whole runs. */
module LectureVision {
  import opened Common

  datatype Kind = PresenterOutOfFrame | BoardOrScreenOccluded | SlideTextLowLegibility

  datatype Profile = LowPower | Balanced | Performance

  const MAXIMUM_LECTURE_MS := 28_800_000
  const MAXIMUM_SAMPLES := 100_000
  const MAXIMUM_SAMPLING_MS := 2000

  datatype Region = Region(x1: real, y1: real, x2: real, y2: real)

  datatype Detection = Detection(region: Region, confidence: real)

  datatype Policy = Policy(minimumDurationMs: nat, maximumGapMs: nat, cooldownMs: nat, minimumConfidence: real,
                           occlusionRatio: real, profile: Profile)

  predicate ValidPolicy(p: Policy) {
    && 100 <= p.minimumDurationMs <= 60_000 && 100 <= p.maximumGapMs <= 10_000 && p.cooldownMs <= 60_000
    && 0.0 <= p.minimumConfidence <= 1.0 && 0.0 < p.occlusionRatio <= 1.0
  }

  function InitialSampling(profile: Profile): nat {
    match profile
    case LowPower => 1000
    case Balanced => 334
    case Performance => 200
  }

  /** The policies under which a candidate can outgrow the evidence cap: the fastest
      sampling, with sample gaps long enough for two samples to belong together. */
  predicate CanExceed(p: Policy) { p.profile.Performance? && p.maximumGapMs >= InitialSampling(Performance) }

  predicate Nonempty(r: Region) { r.x1 < r.x2 && r.y1 < r.y2 }

  function MinReal(a: real, b: real): real { if a < b then a else b }

  function MaxReal(a: real, b: real): real { if a > b then a else b }

  function Area(width: real, height: real): (area: real)
    ensures width > 0.0 && height > 0.0 ==> area > 0.0
  {
    width * height
  }

  /** The fraction of `right` that `left` covers. */
  function OverlapFraction(left: Region, right: Region): real
    requires Nonempty(right)
  {
    Area(MaxReal(0.0, MinReal(left.x2, right.x2) - MaxReal(left.x1, right.x1)),
         MaxReal(0.0, MinReal(left.y2, right.y2) - MaxReal(left.y1, right.y1)))
    / Area(right.x2 - right.x1, right.y2 - right.y1)
  }

  /** A candidate: its first positive sample and how many there were. */
  datatype Candidate = Candidate(begin: int, count: nat)

  datatype Event = Event(kind: Kind, start: int, end: int, sampleCount: nat, positiveCount: nat)

  datatype Error = InvalidFrame | TimestampsMustIncrease | DetectionFailed | InvalidEvent

  /** An event, nothing when the interval was too short, or a rejected payload. */
  function CloseInterval(p: Policy, kind: Kind, c: Candidate, end: int): Result<Option<Event>, Error> {
    if end - c.begin < p.minimumDurationMs then Ok(None)
    else if end > MAXIMUM_LECTURE_MS || c.count + 1 > MAXIMUM_SAMPLES then Err(InvalidEvent)
    else Ok(Some(Event(kind, c.begin, end, c.count + 1, c.count)))
  }

  /** What one sample does to one condition: its candidate, its cooldown, its event. */
  datatype Handled = Handled(candidate: Option<Candidate>, cooldown: Option<int>, event: Result<Option<Event>, Error>)

  function CooldownUntil(cooldown: Option<int>): int { if cooldown.Some? then cooldown.value else 0 }

  function Handle(p: Policy, kind: Kind, candidate: Option<Candidate>, cooldown: Option<int>, flag: Option<bool>,
                  now: int): Handled {
    if flag == Some(true) && now >= CooldownUntil(cooldown) then
      var c := if candidate.Some? then candidate.value else Candidate(now, 0);
      Handled(Some(c.(count := c.count + 1)), cooldown, Ok(None))
    else if flag == Some(false) && candidate.Some? then
      var event := CloseInterval(p, kind, candidate.value, now);
      Handled(None, if event.Ok? && event.value.Some? then Some(now + p.cooldownMs) else cooldown, event)
    else Handled(candidate, cooldown, Ok(None))
  }

  /** What the detector and the board region say about one frame. */
  datatype Seen = Seen(detections: seq<Detection>, slideIsIllegible: Option<bool>)

  function Confident(p: Policy, detections: seq<Detection>): seq<Detection> {
    if detections == [] then []
    else
      (if detections[0].confidence >= p.minimumConfidence then [detections[0]] else []) + Confident(p, detections[1..])
  }

  function Flag(p: Policy, presenter: Region, board: Option<Region>, seen: Seen, kind: Kind): Option<bool>
    requires Nonempty(presenter) && (board.Some? ==> Nonempty(board.value))
  {
    var people := Confident(p, seen.detections);
    match kind
    case PresenterOutOfFrame =>
      Some(!exists k :: 0 <= k < |people| && OverlapFraction(people[k].region, presenter) > 0.0)
    case BoardOrScreenOccluded =>
      if board.None? || p.profile.LowPower? then None
      else Some(exists k :: 0 <= k < |people| && OverlapFraction(people[k].region, board.value) >= p.occlusionRatio)
    case SlideTextLowLegibility =>
      if board.None? || p.profile.LowPower? then None else seen.slideIsIllegible
  }

  /** Sampling slows down when a frame took longer than the sampling interval. */
  function NextSampling(sampling: nat, latency: nat): nat {
    if latency > sampling then Min(MAXIMUM_SAMPLING_MS, Max(sampling, latency * 2)) else sampling
  }

  const KINDS: seq<Kind> := [PresenterOutOfFrame, BoardOrScreenOccluded, SlideTextLowLegibility]

  function Rank(kind: Kind): (i: nat)
    ensures i < 3 && KINDS[i] == kind
  {
    match kind
    case PresenterOutOfFrame => 0
    case BoardOrScreenOccluded => 1
    case SlideTextLowLegibility => 2
  }

  lemma RankAt(i: nat)
    requires i < 3
    ensures |KINDS| == 3 && Rank(KINDS[i]) == i
  {
    assert KINDS[0] == PresenterOutOfFrame && KINDS[1] == BoardOrScreenOccluded && KINDS[2] == SlideTextLowLegibility;
  }

  predicate InOrder(previous: Option<int>, now: int) {
    0 <= now <= MAXIMUM_LECTURE_MS && (previous.Some? ==> previous.value < now)
  }

  // -------------------------------------------------------------------- pacing

  /** Each event of a kind starts no earlier than the cooldown after the one before. */
  ghost predicate Paced(p: Policy, emitted: seq<Event>) {
    forall i, j :: 0 <= i < j < |emitted| && emitted[i].kind == emitted[j].kind ==>
        emitted[i].end + p.cooldownMs <= emitted[j].start
  }

  /** A duration that `count` samples can span. */
  predicate Spans(p: Policy, kind: Kind, count: nat, duration: int) {
    && count * InitialSampling(p.profile) <= duration
    && (kind.PresenterOutOfFrame? ==> duration <= count * p.maximumGapMs)
  }

  ghost predicate CandidateSound(p: Policy, kind: Kind, candidate: Option<Candidate>, cooldown: Option<int>,
                                 previous: Option<int>) {
    candidate.Some? ==>
      var c := candidate.value;
      && previous.Some? && c.count > 0 && 0 <= c.begin
      && CooldownUntil(cooldown) <= c.begin <= previous.value <= MAXIMUM_LECTURE_MS
      && Spans(p, kind, c.count - 1, previous.value - c.begin)
  }

  /** One analysed sample keeps a candidate sound, and an event it closes is paced. */
  lemma HandleIsSound(p: Policy, kind: Kind, candidate: Option<Candidate>, cooldown: Option<int>,
                      previous: Option<int>,
                      sampling: nat, flag: Option<bool>, now: int)
    requires CandidateSound(p, kind, candidate, cooldown, previous) && InOrder(previous, now)
    requires InitialSampling(p.profile) <= sampling && (previous.Some? ==> now - previous.value >= sampling)
    requires candidate.Some? ==> now - previous.value <= p.maximumGapMs
    requires kind.PresenterOutOfFrame? ==> flag.Some?
    ensures var h := Handle(p, kind, candidate, cooldown, flag, now);
            && CandidateSound(p, kind, h.candidate, h.cooldown, Some(now))
            && CooldownUntil(cooldown) <= CooldownUntil(h.cooldown)
            && (h.event.Ok? && h.event.value.Some? ==>
                  var e := h.event.value.value;
                  && e.kind == kind && e.end == now && CooldownUntil(h.cooldown) == now + p.cooldownMs
                  && CooldownUntil(cooldown) <= e.start && Spans(p, kind, e.positiveCount, e.end - e.start))
            && (h.event.Err? ==> CanExceed(p) && h.event.error == InvalidEvent)
  {
    hide Spans;
    if candidate.Some? {
      var c := candidate.value;
      var h := Handle(p, kind, candidate, cooldown, flag, now);
      SpansNext(p, kind, c.count, previous.value - c.begin, now - c.begin);
      if flag.None? {
        SpansLater(p, kind, c.count - 1, previous.value - c.begin, now - c.begin);
      } else if flag.value {
        assert h.candidate == Some(Candidate(c.begin, c.count + 1));
        assert h.candidate.value.count - 1 == c.count;
      }
      if InitialSampling(p.profile) >= 334 { CapFits(p, kind, c.count, now - c.begin); }
    } else {
      SpansNothing(p, kind);
      assert now - now == 0;
    }
  }

  lemma SpansNothing(p: Policy, kind: Kind)
    ensures Spans(p, kind, 0, 0)
  {
  }

  /** A frame that says nothing about a board condition only lengthens it. */
  lemma SpansLater(p: Policy, kind: Kind, count: nat, duration: int, longer: int)
    requires Spans(p, kind, count, duration) && duration <= longer && !kind.PresenterOutOfFrame?
    ensures Spans(p, kind, count, longer)
  {
  }

  lemma SpansNext(p: Policy, kind: Kind, count: nat, duration: int, longer: int)
    requires 0 < count && Spans(p, kind, count - 1, duration)
    requires InitialSampling(p.profile) <= longer - duration <= p.maximumGapMs
    ensures Spans(p, kind, count, longer)
  {
    assert count * InitialSampling(p.profile) == (count - 1) * InitialSampling(p.profile) + InitialSampling(p.profile);
    assert count * p.maximumGapMs == (count - 1) * p.maximumGapMs + p.maximumGapMs;
  }

  /** Sampling at least every 334 ms, a lecture is too short to exceed the cap. */
  lemma CapFits(p: Policy, kind: Kind, count: nat, duration: int)
    requires Spans(p, kind, count, duration) && duration <= MAXIMUM_LECTURE_MS && InitialSampling(p.profile) >= 334
    ensures count + 1 <= MAXIMUM_SAMPLES
  {
    assert count * 334 <= count * InitialSampling(p.profile);
  }

  lemma NoCandidates(p: Policy, cooldowns: map<Kind, int>, previous: Option<int>)
    ensures forall kind :: CandidateSound(p, kind, None, Get(cooldowns, kind), previous)
  {
  }

  lemma NothingHeld()
    ensures forall kind: Kind :: Get<Kind, Candidate>(map[], kind) == None
  {
  }

  lemma NothingBefore(p: Policy, active: map<Kind, Candidate>, cooldowns: map<Kind, int>, previous: Option<int>)
    requires forall kind :: CandidateSound(p, kind, Get(active, kind), Get(cooldowns, kind), previous)
    ensures previous.None? ==> active == map[]
  {
    forall kind
      ensures kind in active ==> previous.Some?
    {
      assert CandidateSound(p, kind, Get(active, kind), Get(cooldowns, kind), previous);
    }
  }

  lemma PresenterIsJudged(p: Policy, presenter: Region, board: Option<Region>, seen: Seen)
    requires Nonempty(presenter) && (board.Some? ==> Nonempty(board.value))
    ensures Flag(p, presenter, board, seen, PresenterOutOfFrame).Some?
  {
  }

  /** An event closed by a flush starts after every cooldown. */
  lemma FlushKeepsCooldown(p: Policy, active: map<Kind, Candidate>, cooldowns: map<Kind, int>, previous: Option<int>,
                           now: int)
    requires forall kind :: CandidateSound(p, kind, Get(active, kind), Get(cooldowns, kind), previous)
    ensures forall kind ::
        kind in active && CloseInterval(p, kind, active[kind], now).Ok?
            && CloseInterval(p, kind, active[kind], now).value.Some? ==>
              var e := CloseInterval(p, kind, active[kind], now).value.value;
              e.kind == kind && CooldownUntil(Get(cooldowns, kind)) <= e.start
  {
    forall kind | kind in active ensures CooldownUntil(Get(cooldowns, kind)) <= active[kind].begin {
      assert CandidateSound(p, kind, Get(active, kind), Get(cooldowns, kind), previous);
    }
  }

  /** Events carry the kind they were closed for. */
  lemma HandleEvents(p: Policy, active: map<Kind, Candidate>, cooldowns: map<Kind, int>,
                     flags: map<Kind, Option<bool>>, now: int)
    requires forall kind :: kind in flags
    ensures forall kind ::
        var event := Handle(p, kind, Get(active, kind), Get(cooldowns, kind), flags[kind], now).event;
              && (event.Ok? && event.value.Some? ==> event.value.value.kind == kind)
              && (event.Err? ==> event.error == InvalidEvent)
  {
  }

  ghost predicate PassSound(p: Policy, kind: Kind, candidate: Option<Candidate>, cooldown: Option<int>,
                            flag: Option<bool>, now: int) {
    var h := Handle(p, kind, candidate, cooldown, flag, now);
    && CandidateSound(p, kind, h.candidate, h.cooldown, Some(now))
    && CooldownUntil(cooldown) <= CooldownUntil(h.cooldown)
    && (h.event.Ok? && h.event.value.Some? ==>
          var e := h.event.value.value;
          && e.kind == kind && e.end == now && CooldownUntil(h.cooldown) == now + p.cooldownMs
          && CooldownUntil(cooldown) <= e.start && Spans(p, kind, e.positiveCount, e.end - e.start))
    && (h.event.Err? ==> CanExceed(p) && h.event.error == InvalidEvent)
  }

  lemma PassIsSound(p: Policy, held: map<Kind, Candidate>, cooldowns: map<Kind, int>, flags: map<Kind, Option<bool>>,
                    previous: Option<int>, sampling: nat, now: int)
    requires forall kind :: kind in flags
    requires flags[PresenterOutOfFrame].Some? && InOrder(previous, now)
    requires forall kind :: CandidateSound(p, kind, Get(held, kind), Get(cooldowns, kind), previous)
    requires InitialSampling(p.profile) <= sampling && (previous.Some? ==> now - previous.value >= sampling)
    requires held != map[] ==> previous.Some? && now - previous.value <= p.maximumGapMs
    ensures forall kind :: PassSound(p, kind, Get(held, kind), Get(cooldowns, kind), flags[kind], now)
  {
    hide Handle, CandidateSound;
    forall kind ensures PassSound(p, kind, Get(held, kind), Get(cooldowns, kind), flags[kind], now) {
      HandleIsSound(p, kind, Get(held, kind), Get(cooldowns, kind), previous, sampling, flags[kind], now);
    }
  }

  /** What is known of the events emitted so far, given the current cooldowns. */
  ghost predicate History(p: Policy, emitted: seq<Event>, cooldowns: map<Kind, int>) {
    && Paced(p, emitted)
    && (forall k :: 0 <= k < |emitted| ==>
        emitted[k].end + p.cooldownMs <= CooldownUntil(Get(cooldowns, emitted[k].kind)))
    && (forall k :: 0 <= k < |emitted| ==>
        Spans(p, emitted[k].kind, emitted[k].positiveCount, emitted[k].end - emitted[k].start))
  }

  /** Cooldowns only move later, so an aborted pass keeps the history. */
  lemma HistoryKept(p: Policy, emitted: seq<Event>, before: map<Kind, int>, after: map<Kind, int>)
    requires History(p, emitted, before)
    requires forall kind :: CooldownUntil(Get(before, kind)) <= CooldownUntil(Get(after, kind))
    ensures History(p, emitted, after)
  {
  }

  lemma CooldownsGrow(p: Policy, held: map<Kind, Candidate>, before: map<Kind, int>, after: map<Kind, int>,
                     flags: map<Kind, Option<bool>>, now: int)
    requires forall kind :: kind in flags
    requires forall kind :: PassSound(p, kind, Get(held, kind), Get(before, kind), flags[kind], now)
    requires forall kind :: (Get(after, kind) == Get(before, kind)
                             || Get(after, kind)
                                 == Handle(p, kind, Get(held, kind), Get(before, kind), flags[kind], now).cooldown)
    ensures forall kind :: CooldownUntil(Get(before, kind)) <= CooldownUntil(Get(after, kind))
  {
    hide Handle, CandidateSound, Spans;
    forall kind ensures CooldownUntil(Get(before, kind)) <= CooldownUntil(Get(after, kind)) {
      assert PassSound(p, kind, Get(held, kind), Get(before, kind), flags[kind], now);
    }
  }

  lemma PassFails(p: Policy, held: map<Kind, Candidate>, before: map<Kind, int>, flags: map<Kind, Option<bool>>,
                  now: int)
    requires forall kind :: kind in flags
    requires forall kind :: PassSound(p, kind, Get(held, kind), Get(before, kind), flags[kind], now)
    ensures forall kind :: Handle(p, kind, Get(held, kind), Get(before, kind), flags[kind], now).event.Err? ==>
        CanExceed(p)
  {
    hide Handle, CandidateSound, Spans;
    forall kind
      ensures Handle(p, kind, Get(held, kind), Get(before, kind), flags[kind], now).event.Err? ==> CanExceed(p)
    {
      assert PassSound(p, kind, Get(held, kind), Get(before, kind), flags[kind], now);
    }
  }

  /** A completed pass: every candidate is sound, and the new events are paced
      against everything emitted before them. */
  lemma PassCompletes(p: Policy, held: map<Kind, Candidate>, active: map<Kind, Candidate>, before: map<Kind, int>,
                      after: map<Kind, int>,
                      flags: map<Kind, Option<bool>>, now: int, emitted: seq<Event>, events: seq<Event>)
    requires forall kind :: kind in flags
    requires forall kind :: PassSound(p, kind, Get(held, kind), Get(before, kind), flags[kind], now)
    requires forall kind :: Handled(Get(active, kind), Get(after, kind), Ok(Last(events, kind)))
                            == Handle(p, kind, Get(held, kind), Get(before, kind), flags[kind], now)
    requires forall e :: e in events ==> Last(events, e.kind) == Some(e)
    requires forall i, j :: 0 <= i < j < |events| ==> events[i].kind != events[j].kind
    requires History(p, emitted, before)
    ensures forall kind :: CandidateSound(p, kind, Get(active, kind), Get(after, kind), Some(now))
    ensures History(p, emitted + events, after)
  {
    hide Handle, CandidateSound, Spans, Last;
    forall kind
      ensures CandidateSound(p, kind, Get(active, kind), Get(after, kind), Some(now))
      ensures CooldownUntil(Get(before, kind)) <= CooldownUntil(Get(after, kind))
    {
      assert PassSound(p, kind, Get(held, kind), Get(before, kind), flags[kind], now);
    }
    forall k | 0 <= k < |events|
      ensures var e := events[k];
              && CooldownUntil(Get(before, e.kind)) <= e.start
              && e.end + p.cooldownMs <= CooldownUntil(Get(after, e.kind))
              && Spans(p, e.kind, e.positiveCount, e.end - e.start)
    {
      var e := events[k];
      assert PassSound(p, e.kind, Get(held, e.kind), Get(before, e.kind), flags[e.kind], now);
      assert Last(events, e.kind) == Some(e);
    }
    HistoryGrows(p, emitted, events, before, after);
  }

  lemma HistoryGrows(p: Policy, emitted: seq<Event>, events: seq<Event>, before: map<Kind, int>, after: map<Kind, int>)
    requires History(p, emitted, before)
    requires forall kind :: CooldownUntil(Get(before, kind)) <= CooldownUntil(Get(after, kind))
    requires forall i, j :: 0 <= i < j < |events| ==> events[i].kind != events[j].kind
    requires forall k :: 0 <= k < |events| ==>
               var e := events[k];
               && CooldownUntil(Get(before, e.kind)) <= e.start
               && e.end + p.cooldownMs <= CooldownUntil(Get(after, e.kind))
               && Spans(p, e.kind, e.positiveCount, e.end - e.start)
    ensures History(p, emitted + events, after)
  {
    hide Spans;
    var all := emitted + events;
    forall i, j | |emitted| <= i < j < |all| ensures all[i].kind != all[j].kind {
      assert all[i] == events[i - |emitted|] && all[j] == events[j - |emitted|];
    }
    forall i, j | 0 <= i < j < |all| && all[i].kind == all[j].kind ensures all[i].end + p.cooldownMs <= all[j].start {
      if i < |emitted| <= j { assert all[j] == events[j - |emitted|]; }
    }
    forall k | 0 <= k < |all|
      ensures all[k].end + p.cooldownMs <= CooldownUntil(Get(after, all[k].kind))
      ensures Spans(p, all[k].kind, all[k].positiveCount, all[k].end - all[k].start)
    {
      if k >= |emitted| { assert all[k] == events[k - |emitted|]; }
    }
  }

  // ------------------------------------------------------- the worker as a value

  /** A worker's fixed configuration. */
  datatype Setup = Setup(policy: Policy, presenter: Region, board: Option<Region>)

  predicate ValidSetup(u: Setup) {
    ValidPolicy(u.policy) && Nonempty(u.presenter) && (u.board.Some? ==> Nonempty(u.board.value))
  }

  /** What a worker remembers between frames. */
  datatype Camera = Camera(active: map<Kind, Candidate>, cooldowns: map<Kind, int>, previous: Option<int>,
                           samplingMs: nat,
                           isAvailable: bool)

  function Started(u: Setup): Camera { Camera(map[], map[], None, InitialSampling(u.policy.profile), true) }

  function Lost(c: Camera): Camera { c.(active := map[], previous := None, isAvailable := false) }

  predicate TooEarly(c: Camera, now: int) { c.previous.Some? && now - c.previous.value < c.samplingMs }

  /** A sample gap drops what was running. */
  function Carried(p: Policy, c: Camera, now: int): Camera {
    if c.previous.Some? && now - c.previous.value > p.maximumGapMs then c.(active := map[]) else c
  }

  function FlagsOf(u: Setup, seen: Seen): (flags: map<Kind, Option<bool>>)
    requires ValidSetup(u)
    ensures forall kind :: kind in flags
  {
    map kind: Kind | true :: Flag(u.policy, u.presenter, u.board, seen, kind)
  }

  function HandledAs(p: Policy, c: Camera, flags: map<Kind, Option<bool>>, now: int, kind: Kind): Handled
    requires forall kind :: kind in flags
  {
    Handle(p, kind, Get(c.active, kind), Get(c.cooldowns, kind), flags[kind], now)
  }

  /** The first condition, in order, whose event is rejected; 3 when none is. */
  function FirstRejected(p: Policy, c: Camera, flags: map<Kind, Option<bool>>, now: int): nat
    requires forall kind :: kind in flags
  {
    if HandledAs(p, c, flags, now, PresenterOutOfFrame).event.Err? then 0
    else if HandledAs(p, c, flags, now, BoardOrScreenOccluded).event.Err? then 1
    else if HandledAs(p, c, flags, now, SlideTextLowLegibility).event.Err? then 2
    else 3
  }

  function CandidateAfter(p: Policy, c: Camera, flags: map<Kind, Option<bool>>, now: int, kind: Kind): Option<Candidate>
    requires forall kind :: kind in flags
  {
    HandledAs(p, c, flags, now, kind).candidate
  }

  /** A rejected event keeps the cooldowns set before it in the same pass. */
  function CooldownAfter(p: Policy, c: Camera, flags: map<Kind, Option<bool>>, now: int, kind: Kind): Option<int>
    requires forall kind :: kind in flags
  {
    if Rank(kind) < FirstRejected(p, c, flags, now) then HandledAs(p, c, flags, now, kind).cooldown
    else Get(c.cooldowns, kind)
  }

  function EventOf(r: Result<Option<Event>, Error>): Option<Event> { if r.Ok? then r.value else None }

  function CooldownsAfter(p: Policy, c: Camera, flags: map<Kind, Option<bool>>, now: int): map<Kind, int>
    requires forall kind :: kind in flags
  {
    map kind: Kind | CooldownAfter(p, c, flags, now, kind).Some? :: CooldownAfter(p, c, flags, now, kind).value
  }

  /** All conditions in turn: the new state and the events, in order. */
  function Pass(p: Policy, c: Camera, flags: map<Kind, Option<bool>>, now: int): (Camera, Result<seq<Event>, Error>)
    requires forall kind :: kind in flags
  {
    var cooldowns := CooldownsAfter(p, c, flags, now);
    if FirstRejected(p, c, flags, now) < 3 then (Lost(c).(cooldowns := cooldowns), Err(InvalidEvent))
    else
      (Camera(map kind: Kind | CandidateAfter(p, c, flags, now, kind).Some? ::
              CandidateAfter(p, c, flags, now, kind).value,
              cooldowns, Some(now), c.samplingMs, true),
       Ok(Gather(map kind: Kind | true :: EventOf(HandledAs(p, c, flags, now, kind).event))))
  }

  /** One thing that happens to a worker: a frame, with what would be seen in it and
      how long it takes, a lost camera, or a flush. */
  datatype Happening = Frame(isWellFormed: bool, time: int, seen: Option<Seen>, latency: nat) | CameraLost
    | Flush(time: int)

  datatype Outcome = Observed(result: Result<seq<Event>, Error>) | Cleared | Flushed(flushed: Result<seq<Event>, Error>)

  function Observe(u: Setup, c: Camera, f: Happening): (Camera, Result<seq<Event>, Error>)
    requires ValidSetup(u) && f.Frame?
  {
    var (next, r) :=
      if !f.isWellFormed then (Lost(c), Err(InvalidFrame))
      else if !InOrder(c.previous, f.time) then (Lost(c), Err(TimestampsMustIncrease))
      else if TooEarly(c, f.time) then (c, Ok([]))
      else if f.seen.None? then (Lost(c), Err(DetectionFailed))
      else Pass(u.policy, Carried(u.policy, c, f.time), FlagsOf(u, f.seen.value), f.time);
    (next.(samplingMs := NextSampling(c.samplingMs, f.latency)), r)
  }

  function ClosedAt(p: Policy, c: Camera, now: int, kind: Kind): Result<Option<Event>, Error> {
    if kind in c.active then CloseInterval(p, kind, c.active[kind], now) else Ok(None)
  }

  /** Close what is still open, unless one of the events is rejected. */
  function FlushAt(p: Policy, c: Camera, now: int): (Camera, Result<seq<Event>, Error>) {
    if exists kind :: ClosedAt(p, c, now, kind).Err? then (c, Err(InvalidEvent))
    else (c.(active := map[]), Ok(Gather(map kind: Kind | true :: EventOf(ClosedAt(p, c, now, kind)))))
  }

  function Step(u: Setup, c: Camera, h: Happening): (Camera, Outcome)
    requires ValidSetup(u)
  {
    match h
    case Frame(_, _, _, _) => var (next, r) := Observe(u, c, h); (next, Observed(r))
    case CameraLost => (Lost(c), Cleared)
    case Flush(now) => var (next, r) := FlushAt(u.policy, c, now); (next, Flushed(r))
  }

  /** The worker after a run of happenings, and what each of them came to. */
  function After(u: Setup, c: Camera, happenings: seq<Happening>): Camera
    requires ValidSetup(u)
  {
    if happenings == [] then c
    else Step(u, After(u, c, happenings[..|happenings| - 1]), happenings[|happenings| - 1]).0
  }

  function Outcomes(u: Setup, c: Camera, happenings: seq<Happening>): (outcomes: seq<Outcome>)
    requires ValidSetup(u)
    ensures |outcomes| == |happenings|
  {
    if happenings == [] then []
    else
      var before := happenings[..|happenings| - 1];
      Outcomes(u, c, before) + [Step(u, After(u, c, before), happenings[|happenings| - 1]).1]
  }

  /** The events observed by a run: those of frames, not those of flushes. */
  function EventsOf(o: Outcome): seq<Event> { if o.Observed? && o.result.Ok? then o.result.value else [] }

  function Emitted(outcomes: seq<Outcome>): seq<Event> {
    if outcomes == [] then [] else Emitted(outcomes[..|outcomes| - 1]) + EventsOf(outcomes[|outcomes| - 1])
  }

  predicate IsRejection(o: Outcome) { o.Observed? && o.result == Err(InvalidEvent) }

  // -------------------------------------------------------------- whole runs

  ghost predicate CameraSound(p: Policy, c: Camera) {
    && InitialSampling(p.profile) <= c.samplingMs <= MAXIMUM_SAMPLING_MS
    && forall kind :: CandidateSound(p, kind, Get(c.active, kind), Get(c.cooldowns, kind), c.previous)
  }

  ghost predicate Sound(p: Policy, c: Camera, emitted: seq<Event>) {
    CameraSound(p, c) && History(p, emitted, c.cooldowns)
  }

  lemma SameMap<V>(a: map<Kind, V>, b: map<Kind, V>)
    requires forall kind :: Get(a, kind) == Get(b, kind)
    ensures a == b
  {
    forall kind ensures kind in a <==> kind in b { assert Get(a, kind) == Get(b, kind); }
    forall kind | kind in a ensures a[kind] == b[kind] { assert Get(a, kind) == Get(b, kind); }
  }

  lemma LostIsSound(p: Policy, c: Camera, emitted: seq<Event>)
    requires Sound(p, c, emitted)
    ensures Sound(p, Lost(c), emitted)
  {
    hide History;
    NoCandidates(p, c.cooldowns, None);
    NothingHeld();
  }

  lemma PassGets(p: Policy, c: Camera, flags: map<Kind, Option<bool>>, now: int)
    requires forall kind :: kind in flags
    ensures var next := Pass(p, c, flags, now).0;
            forall kind :: Get(next.cooldowns, kind) == CooldownAfter(p, c, flags, now, kind)
    ensures Pass(p, c, flags, now).1.Ok? ==>
              forall kind :: Get(Pass(p, c, flags, now).0.active, kind) == CandidateAfter(p, c, flags, now, kind)
  {
    hide HandledAs, CooldownAfter, CandidateAfter, Gather;
  }

  lemma FirstRejectedIs(p: Policy, c: Camera, flags: map<Kind, Option<bool>>, now: int)
    requires forall kind :: kind in flags
    ensures var n := FirstRejected(p, c, flags, now);
            && (forall kind :: Rank(kind) < n ==> HandledAs(p, c, flags, now, kind).event.Ok?)
            && (n < 3 ==> HandledAs(p, c, flags, now, KINDS[n]).event.Err?)
  {
    hide HandledAs;
    RankAt(0);
    RankAt(1);
    RankAt(2);
  }

  /** A pass over sound candidates keeps everything paced, and is rejected only
      under a policy that can exceed the cap. */
  lemma PassKeepsSound(p: Policy, c: Camera, emitted: seq<Event>, flags: map<Kind, Option<bool>>, now: int)
    requires (forall kind :: kind in flags) && flags[PresenterOutOfFrame].Some?
    requires Sound(p, c, emitted) && InOrder(c.previous, now) && !TooEarly(c, now)
    requires c.active != map[] ==> c.previous.Some? && now - c.previous.value <= p.maximumGapMs
    ensures var (next, r) := Pass(p, c, flags, now);
            && Sound(p, next, emitted + (if r.Ok? then r.value else [])) && (r.Err? ==> CanExceed(p))
  {
    hide Handle, CandidateSound, History, PassSound, Last, Gather, Pass, FirstRejected, InitialSampling;
    var (next, r) := Pass(p, c, flags, now);
    NothingBefore(p, c.active, c.cooldowns, c.previous);
    PassIsSound(p, c.active, c.cooldowns, flags, c.previous, c.samplingMs, now);
    PassGets(p, c, flags, now);
    FirstRejectedIs(p, c, flags, now);
    PassShape(p, c, flags, now);
    if r.Err? {
      CooldownsGrow(p, c.active, c.cooldowns, next.cooldowns, flags, now);
      HistoryKept(p, emitted, c.cooldowns, next.cooldowns);
      PassFails(p, c.active, c.cooldowns, flags, now);
      NoCandidates(p, next.cooldowns, None);
      NothingHeld();
      assert emitted + [] == emitted;
    } else {
      PassEvents(p, c, flags, now);
      PassCompletes(p, c.active, next.active, c.cooldowns, next.cooldowns, flags, now, emitted, r.value);
    }
  }

  /** The parts of a pass that are not per condition. */
  lemma PassShape(p: Policy, c: Camera, flags: map<Kind, Option<bool>>, now: int)
    requires forall kind :: kind in flags
    ensures var (next, r) := Pass(p, c, flags, now);
            && next.samplingMs == c.samplingMs && FirstRejected(p, c, flags, now) <= 3
            && (r.Err? <==> FirstRejected(p, c, flags, now) < 3)
            && (if r.Err?
                then r.error == InvalidEvent && next.active == map[] && next.previous == None && !next.isAvailable
                else next.previous == Some(now) && next.isAvailable)
  {
    hide HandledAs, CooldownAfter, CandidateAfter, Gather;
  }

  lemma PassEvents(p: Policy, c: Camera, flags: map<Kind, Option<bool>>, now: int)
    requires (forall kind :: kind in flags) && Pass(p, c, flags, now).1.Ok?
    ensures var events := Pass(p, c, flags, now).1.value;
            && (forall kind :: HandledAs(p, c, flags, now, kind).event == Ok(Last(events, kind)))
            && (forall e :: e in events ==> Last(events, e.kind) == Some(e))
            && (forall i, j :: 0 <= i < j < |events| ==> events[i].kind != events[j].kind)
  {
    hide Handle, Last, Gather, FirstRejected, CooldownsAfter;
    FirstRejectedIs(p, c, flags, now);
    PassShape(p, c, flags, now);
    HandleEvents(p, c.active, c.cooldowns, flags, now);
    GatherOf(map kind: Kind | true :: EventOf(HandledAs(p, c, flags, now, kind).event));
  }

  lemma CarriedIsSound(p: Policy, c: Camera, emitted: seq<Event>, now: int)
    requires Sound(p, c, emitted)
    ensures Sound(p, Carried(p, c, now), emitted)
    ensures Carried(p, c, now).active != map[] ==> c.previous.Some? && now - c.previous.value <= p.maximumGapMs
  {
    hide History;
    NoCandidates(p, c.cooldowns, c.previous);
    NothingHeld();
    NothingBefore(p, c.active, c.cooldowns, c.previous);
  }

  lemma SamplingIsBounded(p: Policy, c: Camera, latency: nat)
    requires CameraSound(p, c)
    ensures c.samplingMs <= NextSampling(c.samplingMs, latency) <= MAXIMUM_SAMPLING_MS
  {
  }

  /** One happening keeps a worker sound and its observed events paced; sampling never
      speeds up; evidence is rejected only under a policy that can exceed the cap; and
      flushed events keep the cooldown of every observed one. */
  lemma StepKeepsSound(u: Setup, c: Camera, emitted: seq<Event>, h: Happening)
    requires ValidSetup(u) && Sound(u.policy, c, emitted)
    ensures var (next, o) := Step(u, c, h);
            && Sound(u.policy, next, emitted + EventsOf(o)) && c.samplingMs <= next.samplingMs
            && (IsRejection(o) ==> CanExceed(u.policy))
  {
    hide History, Handle, CandidateSound, Pass, Gather, Flag, CanExceed, FlagsOf;
    assert emitted + [] == emitted;
    LostIsSound(u.policy, c, emitted);
    match h
    case CameraLost =>
    case Flush(now) =>
      NoCandidates(u.policy, c.cooldowns, c.previous);
      NothingHeld();
    case Frame(isWellFormed, now, seen, latency) =>
      SamplingIsBounded(u.policy, c, latency);
      if isWellFormed && InOrder(c.previous, now) && !TooEarly(c, now) && seen.Some? {
        var carried := Carried(u.policy, c, now);
        CarriedIsSound(u.policy, c, emitted, now);
        FlagsGiven(u, seen.value);
        PassShape(u.policy, carried, FlagsOf(u, seen.value), now);
        PassKeepsSound(u.policy, carried, emitted, FlagsOf(u, seen.value), now);
      }
  }

  lemma FlagsGiven(u: Setup, seen: Seen)
    requires ValidSetup(u)
    ensures FlagsOf(u, seen)[PresenterOutOfFrame].Some?
  {
    PresenterIsJudged(u.policy, u.presenter, u.board, seen);
  }

  lemma StartIsSound(u: Setup)
    ensures Sound(u.policy, Started(u), [])
  {
    NoCandidates(u.policy, map[], None);
    NothingHeld();
  }

  lemma {:induction false} RunKeepsSound(u: Setup, c: Camera, emitted: seq<Event>, happenings: seq<Happening>)
    requires ValidSetup(u) && Sound(u.policy, c, emitted)
    ensures Sound(u.policy, After(u, c, happenings), emitted + Emitted(Outcomes(u, c, happenings)))
    ensures c.samplingMs <= After(u, c, happenings).samplingMs
    ensures forall k :: 0 <= k < |happenings| && IsRejection(Outcomes(u, c, happenings)[k]) ==> CanExceed(u.policy)
  {
    hide Sound, Step, CanExceed;
    if happenings == [] {
      assert emitted + [] == emitted;
    } else {
      var before, last := happenings[..|happenings| - 1], happenings[|happenings| - 1];
      RunKeepsSound(u, c, emitted, before);
      var seen := emitted + Emitted(Outcomes(u, c, before));
      StepKeepsSound(u, After(u, c, before), seen, last);
      var outcomes := Outcomes(u, c, happenings);
      assert outcomes[..|outcomes| - 1] == Outcomes(u, c, before);
      assert seen + EventsOf(outcomes[|outcomes| - 1]) == emitted + Emitted(outcomes);
    }
  }

  /** Whole runs from a fresh worker, through camera losses, rejected frames, restarted
      timestamps and flushes: observed events of a kind are a cooldown apart, and an
      event's duration fits its samples. */
  lemma RunIsPaced(u: Setup, happenings: seq<Happening>)
    requires ValidSetup(u)
    ensures var events := Emitted(Outcomes(u, Started(u), happenings));
            && Paced(u.policy, events)
            && forall k :: 0 <= k < |events| ==>
                Spans(u.policy, events[k].kind, events[k].positiveCount, events[k].end - events[k].start)
  {
    hide Spans, Paced, CameraSound, After, Outcomes, Emitted, History;
    StartIsSound(u);
    RunKeepsSound(u, Started(u), [], happenings);
    var events := Emitted(Outcomes(u, Started(u), happenings));
    assert [] + events == events;
    HistoryIsPaced(u.policy, events, After(u, Started(u), happenings).cooldowns);
  }

  lemma HistoryIsPaced(p: Policy, emitted: seq<Event>, cooldowns: map<Kind, int>)
    requires History(p, emitted, cooldowns)
    ensures Paced(p, emitted)
    ensures forall k :: 0 <= k < |emitted| ==>
        Spans(p, emitted[k].kind, emitted[k].positiveCount, emitted[k].end - emitted[k].start)
  {
  }

  /** Flushed events keep the cooldown of every event observed before them. */
  lemma FlushIsPaced(u: Setup, happenings: seq<Happening>, now: int)
    requires ValidSetup(u)
    ensures var c, events := After(u, Started(u), happenings), Emitted(Outcomes(u, Started(u), happenings));
            FlushAt(u.policy, c, now).1.Ok? ==>
              forall e, k :: e in FlushAt(u.policy, c, now).1.value && 0 <= k < |events| && events[k].kind == e.kind ==>
                events[k].end + u.policy.cooldownMs <= e.start
  {
    hide After, Outcomes, Spans, Paced, CandidateSound, CloseInterval, Last;
    var c, events := After(u, Started(u), happenings), Emitted(Outcomes(u, Started(u), happenings));
    StartIsSound(u);
    RunKeepsSound(u, Started(u), [], happenings);
    assert [] + events == events;
    FlushKeepsCooldown(u.policy, c.active, c.cooldowns, c.previous, now);
    if FlushAt(u.policy, c, now).1.Ok? {
      var found := map kind: Kind | true :: EventOf(ClosedAt(u.policy, c, now, kind));
      forall kind
        ensures found[kind].Some? ==>
            kind in c.active && CloseInterval(u.policy, kind, c.active[kind], now) == Ok(found[kind])
      {
        assert !ClosedAt(u.policy, c, now, kind).Err?;
      }
      GatherOf(found);
    }
  }

  // ------------------------------------------------------------ the evidence cap

  function AwayFrame(now: int): Happening { Frame(true, now, Some(Seen([], None)), 0) }

  function BackFrame(u: Setup, now: int): Happening {
    Frame(true, now, Some(Seen([Detection(u.presenter, 1.0)], None)), 0)
  }

  /** Nobody in view for `n` samples at the fastest rate. */
  function Absence(n: nat): (run: seq<Happening>)
    ensures |run| == n
  {
    if n == 0 then [] else Absence(n - 1) + [AwayFrame((n - 1) * 200)]
  }

  lemma AwayIsFlagged(u: Setup)
    requires ValidSetup(u)
    ensures var flags := FlagsOf(u, Seen([], None));
            flags[PresenterOutOfFrame] == Some(true) && flags[SlideTextLowLegibility] == None
            && (flags[BoardOrScreenOccluded].Some? ==> flags[BoardOrScreenOccluded] == Some(false))
  {
  }

  lemma SelfOverlap(r: Region)
    requires Nonempty(r)
    ensures OverlapFraction(r, r) > 0.0
  {
    hide Area;
    assert MaxReal(0.0, MinReal(r.x2, r.x2) - MaxReal(r.x1, r.x1)) == r.x2 - r.x1;
    assert MaxReal(0.0, MinReal(r.y2, r.y2) - MaxReal(r.y1, r.y1)) == r.y2 - r.y1;
  }

  lemma BackIsFlagged(u: Setup)
    requires ValidSetup(u)
    ensures FlagsOf(u, Seen([Detection(u.presenter, 1.0)], None))[PresenterOutOfFrame] == Some(false)
  {
    var seen := [Detection(u.presenter, 1.0)];
    assert seen[1..] == [] && Confident(u.policy, seen) == seen;
    SelfOverlap(u.presenter);
    assert OverlapFraction(seen[0].region, u.presenter) > 0.0;
  }

  /** The worker in the middle of an absence. */
  function Waiting(n: nat): Camera {
    if n == 0 then Camera(map[], map[], None, 200, true)
    else Camera(map[PresenterOutOfFrame := Candidate(0, n)], map[], Some((n - 1) * 200), 200, true)
  }

  lemma AwayStep(u: Setup, n: nat)
    requires ValidSetup(u) && CanExceed(u.policy) && n < MAXIMUM_SAMPLES
    ensures Step(u, Waiting(n), AwayFrame(n * 200)) == (Waiting(n + 1), Observed(Ok([])))
  {
    hide FlagsOf, Flag, CloseInterval;
    var c, flags, now := Waiting(n), FlagsOf(u, Seen([], None)), n * 200;
    AwayIsFlagged(u);
    assert Carried(u.policy, c, now) == c && !TooEarly(c, now) && InOrder(c.previous, now);
    forall kind
      ensures HandledAs(u.policy, c, flags, now, kind)
              == Handled(if kind.PresenterOutOfFrame? then Some(Candidate(0, n + 1)) else None, None, Ok(None))
    {
    }
    AllAccepted(u.policy, c, flags, now);
    PassGets(u.policy, c, flags, now);
    PassShape(u.policy, c, flags, now);
    var (next, r) := Pass(u.policy, c, flags, now);
    assert r.value == [] by {
      assert r.value == Gather(map kind: Kind | true :: EventOf(HandledAs(u.policy, c, flags, now, kind).event));
    }
    SameMap(next.active, Waiting(n + 1).active);
    SameMap(next.cooldowns, Waiting(n + 1).cooldowns);
  }

  lemma {:induction false} AbsenceWaits(u: Setup, n: nat)
    requires ValidSetup(u) && CanExceed(u.policy) && n <= MAXIMUM_SAMPLES
    ensures After(u, Started(u), Absence(n)) == Waiting(n)
    ensures forall k :: 0 <= k < n ==> Outcomes(u, Started(u), Absence(n))[k] == Observed(Ok([]))
  {
    hide Step;
    if n > 0 {
      AbsenceWaits(u, n - 1);
      AwayStep(u, n - 1);
      assert Absence(n)[..n - 1] == Absence(n - 1);
    }
  }

  lemma BackStep(u: Setup)
    requires ValidSetup(u) && CanExceed(u.policy)
    ensures Step(u, Waiting(MAXIMUM_SAMPLES), BackFrame(u, MAXIMUM_SAMPLES * 200)).1 == Observed(Err(InvalidEvent))
  {
    hide FlagsOf, Flag;
    var c, flags, now := Waiting(MAXIMUM_SAMPLES), FlagsOf(u, Seen([Detection(u.presenter, 1.0)], None)),
        MAXIMUM_SAMPLES * 200;
    BackIsFlagged(u);
    assert Carried(u.policy, c, now) == c && !TooEarly(c, now) && InOrder(c.previous, now);
    assert HandledAs(u.policy, c, flags, now, PresenterOutOfFrame).event == Err(InvalidEvent);
    PassShape(u.policy, c, flags, now);
  }

  /** The failing run: 100 000 samples without a presenter, each accepted, and one with
      the presenter back, whose event is rejected and lost. */
  lemma LongAbsence(u: Setup)
    requires ValidSetup(u) && CanExceed(u.policy)
    ensures var run := Absence(MAXIMUM_SAMPLES) + [BackFrame(u, MAXIMUM_SAMPLES * 200)];
            var outcomes := Outcomes(u, Started(u), run);
            && (forall k :: 0 <= k < MAXIMUM_SAMPLES ==> outcomes[k] == Observed(Ok([])))
            && outcomes[MAXIMUM_SAMPLES] == Observed(Err(InvalidEvent))
  {
    hide Step;
    AbsenceWaits(u, MAXIMUM_SAMPLES);
    BackStep(u);
    var absence := Absence(MAXIMUM_SAMPLES);
    assert (absence + [BackFrame(u, MAXIMUM_SAMPLES * 200)])[..MAXIMUM_SAMPLES] == absence;
  }

  ghost predicate RejectsEvidence(u: Setup, happenings: seq<Happening>)
    requires ValidSetup(u)
  {
    exists k :: 0 <= k < |happenings| && IsRejection(Outcomes(u, Started(u), happenings)[k])
  }

  /** Exactly when the evidence cap can be exceeded: some run of a fresh worker makes
      a frame's event be rejected if and only if the policy samples at the
      performance rate and tolerates gaps of at least that rate. */
  lemma CapCanBeExceeded(u: Setup)
    requires ValidSetup(u)
    ensures (exists happenings :: RejectsEvidence(u, happenings)) <==> CanExceed(u.policy)
  {
    hide Outcomes, Sound, CanExceed;
    if CanExceed(u.policy) {
      LongAbsence(u);
      var run := Absence(MAXIMUM_SAMPLES) + [BackFrame(u, MAXIMUM_SAMPLES * 200)];
      AbsenceWaits(u, MAXIMUM_SAMPLES);
      assert IsRejection(Outcomes(u, Started(u), run)[MAXIMUM_SAMPLES]);
      assert RejectsEvidence(u, run);
    }
    if exists happenings :: RejectsEvidence(u, happenings) {
      var happenings :| RejectsEvidence(u, happenings);
      StartIsSound(u);
      RunKeepsSound(u, Started(u), [], happenings);
    }
  }

  // --------------------------------------------------------------- the worker

  class VisionWorker {
    const setup: Setup
    var active: map<Kind, Candidate>
    var cooldowns: map<Kind, int>
    var previous: Option<int>
    var samplingMs: nat
    var isAvailable: bool

    constructor (setup: Setup)
      requires ValidSetup(setup)
      ensures this.setup == setup && State() == Started(setup)
    {
      this.setup := setup;
      active, cooldowns, previous, isAvailable := map[], map[], None, true;
      samplingMs := InitialSampling(setup.policy.profile);
    }

    function State(): Camera
      reads this
    {
      Camera(active, cooldowns, previous, samplingMs, isAvailable)
    }

    method Unavailable()
      modifies this
      ensures State() == Lost(old(State()))
    {
      active, previous, isAvailable := map[], None, false;
    }

    /** Close what is still open at `now`, or keep it all when an event is rejected. */
    method FlushAll(now: int) returns (r: Result<seq<Event>, Error>)
      modifies this`active
      ensures (State(), r) == FlushAt(setup.policy, old(State()), now)
    {
      hide CloseInterval, Gather;
      var found: map<Kind, Option<Event>> := map[];
      for i := 0 to 3
        invariant active == old(active)
        invariant forall kind :: Rank(kind) < i ==>
            kind in found && ClosedAt(setup.policy, old(State()), now, kind) == Ok(found[kind])
      {
        RankAt(i);
        var kind := KINDS[i];
        if kind in active {
          var event := CloseInterval(setup.policy, kind, active[kind], now);
          if event.Err? {
            assert ClosedAt(setup.policy, old(State()), now, kind).Err?;
            RejectedIsInvalid(setup.policy, kind, active[kind], now);
            return Err(event.error);
          }
          found := found[kind := event.value];
        } else {
          found := found[kind := None];
        }
      }
      assert found == map kind: Kind | true :: EventOf(ClosedAt(setup.policy, old(State()), now, kind));
      r := Ok(Gather(found));
      active := map[];
    }

    method HandleKind(kind: Kind, flag: Option<bool>, now: int) returns (r: Result<Option<Event>, Error>)
      modifies this`active, this`cooldowns
      ensures var h := Handle(setup.policy, kind, Get(old(active), kind), Get(old(cooldowns), kind), flag, now);
              Handled(Get(active, kind), Get(cooldowns, kind), r) == h
      ensures forall other :: other != kind ==>
                Get(active, other) == Get(old(active), other) && Get(cooldowns, other) == Get(old(cooldowns), other)
    {
      r := Ok(None);
      if flag == Some(true) && now >= CooldownUntil(Get(cooldowns, kind)) {
        var c := if kind in active then active[kind] else Candidate(now, 0);
        active := active[kind := c.(count := c.count + 1)];
      } else if flag == Some(false) && kind in active {
        var c := active[kind];
        active := active - {kind};
        r := CloseInterval(setup.policy, kind, c, now);
        if r.Ok? && r.value.Some? { cooldowns := cooldowns[kind := now + setup.policy.cooldownMs]; }
      }
    }

    /** All conditions in turn. A rejected event stops the pass, which keeps the
        cooldowns set before it. */
    method HandleAll(flags: map<Kind, Option<bool>>, now: int) returns (r: Result<seq<Event>, Error>)
      requires forall kind :: kind in flags
      modifies this`active, this`cooldowns
      ensures r == Pass(setup.policy, old(State()), flags, now).1
      ensures cooldowns == Pass(setup.policy, old(State()), flags, now).0.cooldowns
      ensures r.Ok? ==> active == Pass(setup.policy, old(State()), flags, now).0.active
    {
      hide Handle, Gather, Get, FirstRejected;
      var p := setup.policy;
      ghost var start := old(State());
      FirstRejectedIs(p, start, flags, now);
      PassShape(p, start, flags, now);
      PassGets(p, start, flags, now);
      HandleEvents(p, start.active, start.cooldowns, flags, now);
      var found: map<Kind, Option<Event>> := map[];
      for i := 0 to 3
        invariant forall kind :: i <= Rank(kind) ==>
                    Get(active, kind) == Get(start.active, kind) && Get(cooldowns, kind) == Get(start.cooldowns, kind)
        invariant forall kind :: Rank(kind) < i ==>
                    kind in found
                        && Handled(Get(active, kind), Get(cooldowns, kind), Ok(found[kind]))
                            == HandledAs(p, start, flags, now, kind)
      {
        RankAt(i);
        var event := HandleKind(KINDS[i], flags[KINDS[i]], now);
        if event.Err? {
          StoppedAt(p, start, flags, now, i);
          HandleKeepsCooldown(p, KINDS[i], Get(start.active, KINDS[i]), Get(start.cooldowns, KINDS[i]),
                              flags[KINDS[i]], now);
          SameMap(cooldowns, Pass(p, start, flags, now).0.cooldowns);
          return Err(event.error);
        }
        found := found[KINDS[i] := event.value];
      }
      AllAccepted(p, start, flags, now);
      SameMap(cooldowns, Pass(p, start, flags, now).0.cooldowns);
      SameMap(active, Pass(p, start, flags, now).0.active);
      assert found == map kind: Kind | true :: EventOf(HandledAs(p, start, flags, now, kind).event);
      r := Ok(Gather(found));
    }

    /** One frame: the new state and the result are those of the specification. */
    method ObserveFrame(isWellFormed: bool, now: int, seen: Option<Seen>, latency: nat)
      returns (r: Result<seq<Event>, Error>)
      requires ValidSetup(setup)
      modifies this
      ensures (State(), r) == Observe(setup, old(State()), Frame(isWellFormed, now, seen, latency))
    {
      hide Pass, Flag;
      if !isWellFormed {
        Unavailable();
        r := Err(InvalidFrame);
      } else if !InOrder(previous, now) {
        Unavailable();
        r := Err(TimestampsMustIncrease);
      } else if TooEarly(State(), now) {
        r := Ok([]);
      } else if seen.None? {
        Unavailable();
        r := Err(DetectionFailed);
      } else {
        if previous.Some? && now - previous.value > setup.policy.maximumGapMs { active := map[]; }
        ghost var carried := State();
        PassShape(setup.policy, carried, FlagsOf(setup, seen.value), now);
        previous := Some(now);
        PassIgnoresPrevious(setup.policy, carried, FlagsOf(setup, seen.value), now);
        r := HandleAll(FlagsOf(setup, seen.value), now);
        if r.Err? {
          Unavailable();
        } else {
          isAvailable := true;
        }
      }
      samplingMs := NextSampling(samplingMs, latency);
    }
  }

  /** Drive a worker through a run: its state and every outcome are the specified ones. */
  method RunLecture(w: VisionWorker, happenings: seq<Happening>) returns (outcomes: seq<Outcome>)
    requires ValidSetup(w.setup)
    modifies w
    ensures w.State() == After(w.setup, old(w.State()), happenings)
    ensures outcomes == Outcomes(w.setup, old(w.State()), happenings)
  {
    hide Observe, FlushAt;
    outcomes := [];
    ghost var start := w.State();
    for i := 0 to |happenings|
      invariant w.State() == After(w.setup, start, happenings[..i])
      invariant outcomes == Outcomes(w.setup, start, happenings[..i])
    {
      assert happenings[..i + 1][..i] == happenings[..i];
      match happenings[i] {
        case Frame(isWellFormed, now, seen, latency) =>
          var r := w.ObserveFrame(isWellFormed, now, seen, latency);
          outcomes := outcomes + [Observed(r)];
        case CameraLost =>
          w.Unavailable();
          outcomes := outcomes + [Cleared];
        case Flush(now) =>
          var r := w.FlushAll(now);
          outcomes := outcomes + [Flushed(r)];
      }
    }
    assert happenings[..|happenings|] == happenings;
  }

  lemma RejectedIsInvalid(p: Policy, kind: Kind, c: Candidate, end: int)
    ensures CloseInterval(p, kind, c, end).Err? ==> CloseInterval(p, kind, c, end).error == InvalidEvent
  {
  }

  lemma HandleKeepsCooldown(p: Policy, kind: Kind, candidate: Option<Candidate>, cooldown: Option<int>,
                            flag: Option<bool>, now: int)
    ensures var h := Handle(p, kind, candidate, cooldown, flag, now); h.event.Err? ==> h.cooldown == cooldown
  {
  }

  lemma StoppedAt(p: Policy, c: Camera, flags: map<Kind, Option<bool>>, now: int, i: nat)
    requires (forall kind :: kind in flags) && i < 3 && HandledAs(p, c, flags, now, KINDS[i]).event.Err?
    requires forall kind :: Rank(kind) < i ==> HandledAs(p, c, flags, now, kind).event.Ok?
    ensures FirstRejected(p, c, flags, now) == i
  {
    hide HandledAs;
    RankAt(i);
  }

  lemma AllAccepted(p: Policy, c: Camera, flags: map<Kind, Option<bool>>, now: int)
    requires (forall kind :: kind in flags) && forall kind :: HandledAs(p, c, flags, now, kind).event.Ok?
    ensures FirstRejected(p, c, flags, now) == 3
  {
    hide HandledAs;
  }

  /** A pass does not look at the time of the previous sample. */
  lemma PassIgnoresPrevious(p: Policy, c: Camera, flags: map<Kind, Option<bool>>, now: int)
    requires forall kind :: kind in flags
    ensures var d := c.(previous := Some(now));
            Pass(p, d, flags, now).1 == Pass(p, c, flags, now).1
            && Pass(p, d, flags, now).0 == Pass(p, c, flags, now).0
  {
    hide Handle, Gather;
    var d := c.(previous := Some(now));
    forall kind ensures HandledAs(p, d, flags, now, kind) == HandledAs(p, c, flags, now, kind) {}
    SameMap(CooldownsAfter(p, d, flags, now), CooldownsAfter(p, c, flags, now));
    assert (map kind: Kind | true :: EventOf(HandledAs(p, d, flags, now, kind).event))
        == (map kind: Kind | true :: EventOf(HandledAs(p, c, flags, now, kind).event));
    PassGets(p, c, flags, now);
    PassGets(p, d, flags, now);
    SameMap(Pass(p, d, flags, now).0.active, Pass(p, c, flags, now).0.active);
  }

  // -------------------------------------------------- the events of one pass

  function One(event: Option<Event>): seq<Event> { if event.Some? then [event.value] else [] }

  function Gather(found: map<Kind, Option<Event>>): seq<Event>
    requires forall kind :: kind in found
  {
    One(found[PresenterOutOfFrame]) + One(found[BoardOrScreenOccluded]) + One(found[SlideTextLowLegibility])
  }

  function Last(events: seq<Event>, kind: Kind): Option<Event> {
    if events == [] then None
    else if events[|events| - 1].kind == kind then Some(events[|events| - 1])
    else Last(events[..|events| - 1], kind)
  }

  lemma LastOf(events: seq<Event>, event: Option<Event>, kind: Kind)
    ensures Last(events + One(event), kind)
            == if event.Some? && event.value.kind == kind then event else Last(events, kind)
  {
    if event.Some? { assert (events + [event.value])[..|events|] == events; } else { assert events + [] == events; }
  }

  lemma GatherOf(found: map<Kind, Option<Event>>)
    requires forall kind :: kind in found && (found[kind].Some? ==> found[kind].value.kind == kind)
    ensures forall kind :: Last(Gather(found), kind) == found[kind]
    ensures forall e :: e in Gather(found) <==> found[e.kind] == Some(e)
    ensures forall i, j :: 0 <= i < j < |Gather(found)| ==> Gather(found)[i].kind != Gather(found)[j].kind
  {
    hide Last, One;
    var a, b, c := found[PresenterOutOfFrame], found[BoardOrScreenOccluded], found[SlideTextLowLegibility];
    forall kind ensures Last(Gather(found), kind) == found[kind] { LastGathered(a, b, c, kind); }
    GatheredMembers(a, b, c);
    forall e ensures e in Gather(found) <==> found[e.kind] == Some(e) {
      assert e in Gather(found) <==> Some(e) == a || Some(e) == b || Some(e) == c;
    }
  }

  lemma LastGathered(a: Option<Event>, b: Option<Event>, c: Option<Event>, kind: Kind)
    requires a.Some? ==> a.value.kind == PresenterOutOfFrame
    requires b.Some? ==> b.value.kind == BoardOrScreenOccluded
    requires c.Some? ==> c.value.kind == SlideTextLowLegibility
    ensures Last(One(a) + One(b) + One(c), kind)
            == match kind case PresenterOutOfFrame => a case BoardOrScreenOccluded => b case SlideTextLowLegibility => c
  {
    hide Last, One;
    assert [] + One(a) == One(a);
    LastOfNothing(kind);
    LastOf([], a, kind);
    LastOf(One(a), b, kind);
    LastOf(One(a) + One(b), c, kind);
  }

  lemma LastOfNothing(kind: Kind)
    ensures Last([], kind) == None
  {
  }

  lemma GatheredMembers(a: Option<Event>, b: Option<Event>, c: Option<Event>)
    requires a.Some? ==> a.value.kind == PresenterOutOfFrame
    requires b.Some? ==> b.value.kind == BoardOrScreenOccluded
    requires c.Some? ==> c.value.kind == SlideTextLowLegibility
    ensures var all := One(a) + One(b) + One(c);
            && (forall e :: e in all <==> Some(e) == a || Some(e) == b || Some(e) == c)
            && forall i, j :: 0 <= i < j < |all| ==> all[i].kind != all[j].kind
  {
  }
}
