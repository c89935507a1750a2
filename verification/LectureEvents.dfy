/** Exactly which events the lecture worker gives, in terms of the samples of a run: a
    condition runs from the sample that opens it through samples without a gap, and is
    reported by the first one that does not match, or by a flush. */
module LectureEvents {
  import opened Common
  import opened LectureVision

  // ------------------------------------------------------------ samples of a run

  /** The worker when happening `k` of a run comes. */
  function At(u: Setup, run: seq<Happening>, k: nat): Camera
    requires ValidSetup(u) && k <= |run|
  {
    After(u, Started(u), run[..k])
  }

  /** What happening `k` of a run came to. */
  function OutcomeAt(u: Setup, run: seq<Happening>, k: nat): Outcome
    requires ValidSetup(u) && k < |run|
  {
    Outcomes(u, Started(u), run)[k]
  }

  /** A readable frame inside the clock and after the last sample. */
  predicate IsReadable(u: Setup, run: seq<Happening>, k: nat)
    requires ValidSetup(u) && k < |run|
  {
    && run[k].Frame? && run[k].isWellFormed && 0 <= run[k].time <= 28_800_000
    && (At(u, run, k).previous.Some? ==> At(u, run, k).previous.value < run[k].time)
  }

  /** A readable frame that comes sooner after the last sample than the sampling interval. */
  predicate IsSkipped(u: Setup, run: seq<Happening>, k: nat)
    requires ValidSetup(u) && k < |run|
  {
    var c := At(u, run, k);
    IsReadable(u, run, k) && c.previous.Some? && run[k].time - c.previous.value < c.samplingMs
  }

  /** A readable frame that is not skipped and whose detections are known. */
  predicate IsSample(u: Setup, run: seq<Happening>, k: nat)
    requires ValidSetup(u) && k < |run|
  {
    IsReadable(u, run, k) && !IsSkipped(u, run, k) && run[k].seen.Some?
  }

  /** No sample gap before this frame. */
  predicate IsContinuous(u: Setup, run: seq<Happening>, k: nat)
    requires ValidSetup(u) && k < |run|
  {
    var c := At(u, run, k);
    run[k].Frame? && c.previous.Some? && run[k].time - c.previous.value <= u.policy.maximumGapMs
  }

  function FlagAt(u: Setup, run: seq<Happening>, k: nat, kind: Kind): Option<bool>
    requires ValidSetup(u) && k < |run| && run[k].Frame? && run[k].seen.Some?
  {
    Flag(u.policy, u.presenter, u.board, run[k].seen.value, kind)
  }

  predicate IsAccepted(o: Outcome) { o.Observed? && o.result.Ok? }

  /** A matching sample after the cooldown. */
  predicate Opens(u: Setup, run: seq<Happening>, kind: Kind, k: nat)
    requires ValidSetup(u) && k < |run|
  {
    && IsSample(u, run, k) && IsAccepted(OutcomeAt(u, run, k)) && FlagAt(u, run, k, kind) == Some(true)
    && CooldownUntil(Get(At(u, run, k).cooldowns, kind)) <= run[k].time
  }

  /** What leaves a running condition running: a skipped frame, a rejected flush, and a
      sample without a gap that matches or says nothing about the condition. */
  predicate Carries(u: Setup, run: seq<Happening>, kind: Kind, k: nat)
    requires ValidSetup(u) && k < |run|
  {
    || IsSkipped(u, run, k)
    || (run[k].Flush? && OutcomeAt(u, run, k) == Flushed(Err(InvalidEvent)))
    || (IsSample(u, run, k) && IsAccepted(OutcomeAt(u, run, k)) && IsContinuous(u, run, k)
        && FlagAt(u, run, k, kind) != Some(false))
  }

  /** Before happening `n` the condition has been running since sample `a`. */
  ghost predicate IsRunning(u: Setup, run: seq<Happening>, kind: Kind, a: nat, n: nat)
    requires ValidSetup(u) && n <= |run|
    ensures IsRunning(u, run, kind, a, n) ==> a < n && run[a].Frame?
    decreases n
  {
    && a < n && Opens(u, run, kind, a) && (forall k :: a < k < n ==> Carries(u, run, kind, k))
    && (IsContinuous(u, run, a) ==> forall b: nat | b < a :: !IsRunning(u, run, kind, b, a))
  }

  /** How many samples from `a` up to `n` match. */
  function Matches(u: Setup, run: seq<Happening>, kind: Kind, a: nat, n: nat): nat
    requires ValidSetup(u) && a <= n <= |run|
  {
    if a == n then 0
    else Matches(u, run, kind, a, n - 1)
         + if IsSample(u, run, n - 1) && FlagAt(u, run, n - 1, kind) == Some(true) then 1 else 0
  }

  // --------------------------------------------------------- one step of a condition

  lemma OutcomeIsStep(u: Setup, run: seq<Happening>, k: nat)
    requires ValidSetup(u) && k < |run|
    ensures OutcomeAt(u, run, k) == Step(u, At(u, run, k), run[k]).1
    ensures At(u, run, k + 1) == Step(u, At(u, run, k), run[k]).0
  {
    hide Step;
    assert run[..k + 1][..k] == run[..k];
    OutcomesPrefix(u, run, k + 1);
    assert Outcomes(u, Started(u), run[..k + 1])[k] == Step(u, At(u, run, k), run[k]).1;
  }

  lemma {:induction false} OutcomesPrefix(u: Setup, run: seq<Happening>, n: nat)
    requires ValidSetup(u) && n <= |run|
    ensures Outcomes(u, Started(u), run)[..n] == Outcomes(u, Started(u), run[..n])
    decreases |run|
  {
    hide Step;
    if n == |run| {
      assert run[..n] == run;
    } else {
      var before := run[..|run| - 1];
      OutcomesPrefix(u, before, n);
      assert before[..n] == run[..n];
    }
  }

  lemma StartedSound(u: Setup, run: seq<Happening>, k: nat)
    requires ValidSetup(u) && k <= |run|
    ensures CameraSound(u.policy, At(u, run, k))
  {
    hide CameraSound, After, Outcomes, History;
    StartIsSound(u);
    RunKeepsSound(u, Started(u), [], run[..k]);
  }

  /** What the condition was before the sample, once a sample gap has dropped it. */
  function Held(u: Setup, run: seq<Happening>, kind: Kind, k: nat): Option<Candidate>
    requires ValidSetup(u) && k < |run|
  {
    if IsContinuous(u, run, k) then Get(At(u, run, k).active, kind) else None
  }

  lemma HeldIsCarried(u: Setup, run: seq<Happening>, kind: Kind, k: nat)
    requires ValidSetup(u) && k < |run| && run[k].Frame?
    ensures Held(u, run, kind, k) == Get(Carried(u.policy, At(u, run, k), run[k].time).active, kind)
  {
    hide CandidateSound, After;
    var c := At(u, run, k);
    StartedSound(u, run, k);
    NothingBefore(u.policy, c.active, c.cooldowns, c.previous);
  }

  function HandledAt(u: Setup, run: seq<Happening>, kind: Kind, k: nat): Handled
    requires ValidSetup(u) && k < |run| && IsSample(u, run, k)
  {
    Handle(u.policy, kind, Held(u, run, kind, k), Get(At(u, run, k).cooldowns, kind), FlagAt(u, run, k, kind),
           run[k].time)
  }

  lemma SampleIsPass(u: Setup, run: seq<Happening>, k: nat)
    requires ValidSetup(u) && k < |run| && IsSample(u, run, k)
    ensures var pass := Pass(u.policy, Carried(u.policy, At(u, run, k), run[k].time), FlagsOf(u, run[k].seen.value),
                             run[k].time);
            && OutcomeAt(u, run, k) == Observed(pass.1)
            && At(u, run, k + 1).active == pass.0.active && At(u, run, k + 1).cooldowns == pass.0.cooldowns
    ensures forall kind ::
        HandledAs(u.policy, Carried(u.policy, At(u, run, k), run[k].time), FlagsOf(u, run[k].seen.value), run[k].time,
                  kind) == HandledAt(u, run, kind, k)
  {
    hide Pass, Handle, Flag, At, OutcomeAt, Carried;
    OutcomeIsStep(u, run, k);
    forall kind
      ensures Held(u, run, kind, k) == Get(Carried(u.policy, At(u, run, k), run[k].time).active, kind)
      ensures Get(Carried(u.policy, At(u, run, k), run[k].time).cooldowns, kind) == Get(At(u, run, k).cooldowns, kind)
    {
      HeldIsCarried(u, run, kind, k);
      CarriedKeepsCooldowns(u.policy, At(u, run, k), run[k].time);
    }
  }

  lemma CarriedKeepsCooldowns(p: Policy, c: Camera, now: int)
    ensures Carried(p, c, now).cooldowns == c.cooldowns
  {
  }

  /** A sample steps every condition, unless one of their events is rejected. */
  lemma SampleStep(u: Setup, run: seq<Happening>, k: nat)
    requires ValidSetup(u) && k < |run| && IsSample(u, run, k)
    ensures IsAccepted(OutcomeAt(u, run, k)) <==> forall kind :: HandledAt(u, run, kind, k).event.Ok?
    ensures if IsAccepted(OutcomeAt(u, run, k))
            then
              var events := OutcomeAt(u, run, k).result.value;
              && (forall kind :: HandledAt(u, run, kind, k)
                                 == Handled(Get(At(u, run, k + 1).active, kind), Get(At(u, run, k + 1).cooldowns, kind),
                                            Ok(Last(events, kind))))
              && (forall e :: e in events ==> Last(events, e.kind) == Some(e))
              && (forall i, j :: 0 <= i < j < |events| ==> events[i].kind != events[j].kind)
            else OutcomeAt(u, run, k) == Observed(Err(InvalidEvent)) && At(u, run, k + 1).active == map[]
  {
    hide Pass, HandledAt, At, OutcomeAt, Carried, HandledAs, FlagsOf, Last, IsSkipped, Held, FirstRejected;
    var p, c, flags, now := u.policy, Carried(u.policy, At(u, run, k), run[k].time), FlagsOf(u, run[k].seen.value),
        run[k].time;
    SampleIsPass(u, run, k);
    PassShape(p, c, flags, now);
    PassGets(p, c, flags, now);
    FirstRejectedIs(p, c, flags, now);
    if IsAccepted(OutcomeAt(u, run, k)) {
      PassEvents(p, c, flags, now);
      forall kind ensures CooldownAfter(p, c, flags, now, kind) == HandledAs(p, c, flags, now, kind).cooldown {}
    } else {
      assert HandledAs(p, c, flags, now, KINDS[FirstRejected(p, c, flags, now)]).event.Err?;
    }
  }

  /** Anything but a sample keeps every condition, or drops them all. */
  lemma OtherStep(u: Setup, run: seq<Happening>, kind: Kind, k: nat)
    requires ValidSetup(u) && k < |run| && !IsSample(u, run, k)
    ensures Get(At(u, run, k + 1).active, kind) ==
            if IsSkipped(u, run, k) || (run[k].Flush? && OutcomeAt(u, run, k) == Flushed(Err(InvalidEvent)))
            then Get(At(u, run, k).active, kind)
            else None
    ensures At(u, run, k + 1).cooldowns == At(u, run, k).cooldowns
  {
    hide Pass, CloseInterval, Flag, At, OutcomeAt, Gather, ClosedAt;
    OutcomeIsStep(u, run, k);
    NothingHeld();
  }

  lemma FlagCases(flag: Option<bool>)
    ensures flag == None || flag == Some(true) || flag == Some(false)
  {
    if flag.Some? {
      var isSet := flag.value;
      if isSet { assert flag == Some(true); } else { assert flag == Some(false); }
    }
  }

  /** A condition after an accepted sample: a matching one continues it, or opens it after
      the cooldown, and one that does not match ends it. */
  lemma CandidateStep(u: Setup, run: seq<Happening>, kind: Kind, k: nat)
    requires ValidSetup(u) && k < |run| && IsSample(u, run, k)
    ensures var held, flag, now := Held(u, run, kind, k), FlagAt(u, run, k, kind), run[k].time;
            Get(At(u, run, k + 1).active, kind) ==
            if !IsAccepted(OutcomeAt(u, run, k)) || flag == Some(false) then None
            else if flag.None? then held
            else if held.Some? then Some(Candidate(held.value.begin, held.value.count + 1))
            else if CooldownUntil(Get(At(u, run, k).cooldowns, kind)) <= now then Some(Candidate(now, 1))
            else None
  {
    hide At, OutcomeAt, FlagAt, Last, CloseInterval, Spans;
    var c := At(u, run, k);
    SampleStep(u, run, k);
    StartedSound(u, run, k);
    assert CandidateSound(u.policy, kind, Get(c.active, kind), Get(c.cooldowns, kind), c.previous);
    NothingHeld();
    var held, flag, now := Held(u, run, kind, k), FlagAt(u, run, k, kind), run[k].time;
    assert HandledAt(u, run, kind, k) == Handle(u.policy, kind, held, Get(c.cooldowns, kind), flag, now);
    assert held.Some? ==> CooldownUntil(Get(c.cooldowns, kind)) <= held.value.begin < now;
    FlagCases(flag);
  }

  /** The worker holds the condition exactly while it runs, from its first sample and with
      the number of its matching ones. */
  ghost predicate HoldsRunning(u: Setup, run: seq<Happening>, kind: Kind, n: nat)
    requires ValidSetup(u) && n <= |run|
  {
    && (forall a: nat :: IsRunning(u, run, kind, a, n) ==>
          Get(At(u, run, n).active, kind) == Some(Candidate(run[a].time, Matches(u, run, kind, a, n))))
    && (Get(At(u, run, n).active, kind).Some? ==> exists a: nat :: IsRunning(u, run, kind, a, n))
  }

  lemma ConditionStep(u: Setup, run: seq<Happening>, kind: Kind, k: nat)
    requires ValidSetup(u) && k < |run|
    ensures var before, after := Get(At(u, run, k).active, kind), Get(At(u, run, k + 1).active, kind);
            var held := Held(u, run, kind, k);
            && (Opens(u, run, kind, k) && held.None? ==>
                  run[k].Frame? && after == Some(Candidate(run[k].time, Matches(u, run, kind, k, k + 1))))
            && (before.Some? && Carries(u, run, kind, k) ==>
                  after == Some(before.value.(count := before.value.count + Matches(u, run, kind, k, k + 1))))
            && (after.Some? && !(Opens(u, run, kind, k) && held.None?) ==> before.Some? && Carries(u, run, kind, k))
  {
    hide At, OutcomeAt, FlagAt, IsSkipped;
    assert Matches(u, run, kind, k, k + 1) ==
           if IsSample(u, run, k) && FlagAt(u, run, k, kind) == Some(true) then 1 else 0;
    if IsSample(u, run, k) {
      CandidateStep(u, run, kind, k);
      FlagCases(FlagAt(u, run, k, kind));
    } else {
      OtherStep(u, run, kind, k);
    }
  }

  lemma {:induction false} RunningExactly(u: Setup, run: seq<Happening>, kind: Kind, n: nat)
    requires ValidSetup(u) && n <= |run|
    ensures HoldsRunning(u, run, kind, n)
  {
    hide At, Opens, Carries;
    if n == 0 {
      NothingAtStart(u, run, kind);
    } else {
      var k := n - 1;
      RunningExactly(u, run, kind, k);
      ConditionStep(u, run, kind, k);
      forall a: nat | IsRunning(u, run, kind, a, n)
        ensures Get(At(u, run, n).active, kind) == Some(Candidate(run[a].time, Matches(u, run, kind, a, n)))
      {
        assert Matches(u, run, kind, a, n) == Matches(u, run, kind, a, k) + Matches(u, run, kind, k, n);
        if a < k { assert IsRunning(u, run, kind, a, k) && Carries(u, run, kind, k); }
      }
      if Get(At(u, run, n).active, kind).Some? {
        if a: nat :| IsRunning(u, run, kind, a, k) && Carries(u, run, kind, k) {
          assert IsRunning(u, run, kind, a, n);
        } else {
          assert IsRunning(u, run, kind, k, n);
        }
      }
    }
  }

  lemma NothingAtStart(u: Setup, run: seq<Happening>, kind: Kind)
    requires ValidSetup(u)
    ensures Get(At(u, run, 0).active, kind) == None && At(u, run, 0).samplingMs == InitialSampling(u.policy.profile)
  {
    assert run[..0] == [];
  }

  // ------------------------------------------------------------- what is reported

  /** Sample `n` ends the condition that has been running since sample `a`. */
  ghost predicate Ends(u: Setup, run: seq<Happening>, kind: Kind, a: nat, n: nat)
    requires ValidSetup(u) && n < |run|
  {
    && IsRunning(u, run, kind, a, n) && IsSample(u, run, n) && IsContinuous(u, run, n)
    && FlagAt(u, run, n, kind) == Some(false)
  }

  /** It lasted long enough to be reported when it ends at `now`. */
  predicate IsLong(u: Setup, run: seq<Happening>, a: nat, now: int)
    requires a < |run| && run[a].Frame?
  {
    now - run[a].time >= u.policy.minimumDurationMs
  }

  /** The condition from sample `a` to `now`: all of its matching samples are positive ones,
      and the one that ends it is counted too. */
  function EventFor(u: Setup, run: seq<Happening>, kind: Kind, a: nat, n: nat, now: int): Event
    requires ValidSetup(u) && a <= n <= |run| && a < |run| && run[a].Frame?
  {
    var count := Matches(u, run, kind, a, n);
    Event(kind, run[a].time, now, count + 1, count)
  }

  lemma SampleCloses(u: Setup, run: seq<Happening>, kind: Kind, n: nat)
    requires ValidSetup(u) && n < |run| && IsSample(u, run, n)
    ensures forall a: nat :: Ends(u, run, kind, a, n) ==>
        HandledAt(u, run, kind, n).event
            == CloseInterval(u.policy, kind, Candidate(run[a].time, Matches(u, run, kind, a, n)), run[n].time)
    ensures HandledAt(u, run, kind, n).event != Ok(None) ==> exists a: nat :: Ends(u, run, kind, a, n)
  {
    hide At, FlagAt, IsSkipped, IsRunning, Matches, CloseInterval;
    RunningExactly(u, run, kind, n);
    FlagCases(FlagAt(u, run, n, kind));
    if HandledAt(u, run, kind, n).event != Ok(None) {
      var a: nat :| IsRunning(u, run, kind, a, n);
      assert Ends(u, run, kind, a, n);
    }
  }

  lemma {:induction false} LastIsMember(events: seq<Event>, kind: Kind)
    ensures Last(events, kind).Some? ==> Last(events, kind).value in events && Last(events, kind).value.kind == kind
  {
    if events != [] { LastIsMember(events[..|events| - 1], kind); }
  }

  /** A sample reports exactly the conditions that it ends and that lasted long enough,
      from their first sample to this one, with the number of their samples. */
  lemma ObservedExactly(u: Setup, run: seq<Happening>, n: nat, e: Event)
    requires ValidSetup(u) && n < |run|
    ensures e in EventsOf(OutcomeAt(u, run, n)) <==>
        IsAccepted(OutcomeAt(u, run, n)) && exists a: nat ::
            Ends(u, run, e.kind, a, n) && IsLong(u, run, a, run[n].time)
                && e == EventFor(u, run, e.kind, a, n, run[n].time)
  {
    hide At, OutcomeAt, FlagAt, IsSkipped, IsRunning, Matches, Last, HandledAt;
    var events := EventsOf(OutcomeAt(u, run, n));
    if IsSample(u, run, n) {
      SampleStep(u, run, n);
      SampleCloses(u, run, e.kind, n);
      LastIsMember(events, e.kind);
      if IsAccepted(OutcomeAt(u, run, n)) {
        assert e in events <==> HandledAt(u, run, e.kind, n).event == Ok(Some(e));
      }
    } else {
      NoSampleNoEvents(u, run, n);
    }
  }

  lemma NoSampleNoEvents(u: Setup, run: seq<Happening>, n: nat)
    requires ValidSetup(u) && n < |run| && !IsSample(u, run, n)
    ensures EventsOf(OutcomeAt(u, run, n)) == [] && !IsRejection(OutcomeAt(u, run, n))
  {
    hide Pass, At, OutcomeAt, FlushAt;
    OutcomeIsStep(u, run, n);
  }

  /** At most one event of each kind comes of a happening. */
  lemma ObservedOnce(u: Setup, run: seq<Happening>, n: nat)
    requires ValidSetup(u) && n < |run|
    ensures var events := EventsOf(OutcomeAt(u, run, n));
            forall i, j :: 0 <= i < j < |events| ==> events[i].kind != events[j].kind
  {
    hide At, OutcomeAt, FlagAt, IsSkipped, Last, HandledAt;
    if IsSample(u, run, n) { SampleStep(u, run, n); } else { NoSampleNoEvents(u, run, n); }
  }

  /** Sample `n` ends a condition that lasted long enough, with more samples than an event may count. */
  ghost predicate Overflows(u: Setup, run: seq<Happening>, kind: Kind, a: nat, n: nat)
    requires ValidSetup(u) && n < |run|
  {
    && Ends(u, run, kind, a, n) && IsLong(u, run, a, run[n].time)
    && Matches(u, run, kind, a, n) + 1 > 100_000
  }

  /** A sample is rejected exactly when a condition that it ends lasted long enough and
      counts more samples than an event may. */
  lemma RejectedExactly(u: Setup, run: seq<Happening>, n: nat)
    requires ValidSetup(u) && n < |run|
    ensures IsRejection(OutcomeAt(u, run, n)) <==> exists kind, a: nat :: Overflows(u, run, kind, a, n)
  {
    hide At, OutcomeAt, FlagAt, IsSkipped, IsRunning, Matches, Last, HandledAt;
    if IsSample(u, run, n) {
      SampleStep(u, run, n);
      forall kind
        ensures HandledAt(u, run, kind, n).event.Err? <==> exists a: nat :: Overflows(u, run, kind, a, n)
      {
        SampleCloses(u, run, kind, n);
        if HandledAt(u, run, kind, n).event.Err? {
          var a: nat :| Ends(u, run, kind, a, n);
          assert Overflows(u, run, kind, a, n);
        }
      }
      if kind, a: nat :| Overflows(u, run, kind, a, n) {
        assert HandledAt(u, run, kind, n).event.Err?;
      }
    } else {
      NoSampleNoEvents(u, run, n);
    }
  }

  // ------------------------------------------------------------- what a flush closes

  lemma FlushCloses(u: Setup, run: seq<Happening>, kind: Kind, n: nat, now: int)
    requires ValidSetup(u) && n <= |run|
    ensures forall a: nat :: IsRunning(u, run, kind, a, n) ==>
        ClosedAt(u.policy, At(u, run, n), now, kind)
            == CloseInterval(u.policy, kind, Candidate(run[a].time, Matches(u, run, kind, a, n)), now)
    ensures ClosedAt(u.policy, At(u, run, n), now, kind) != Ok(None) ==> exists a: nat :: IsRunning(u, run, kind, a, n)
  {
    hide At, FlagAt, IsSkipped, IsRunning, Matches, CloseInterval;
    RunningExactly(u, run, kind, n);
  }

  /** The flush closed what was running too late, or with more samples than an event may. */
  ghost predicate Overruns(u: Setup, run: seq<Happening>, kind: Kind, a: nat, n: nat, now: int)
    requires ValidSetup(u) && n <= |run|
  {
    && IsRunning(u, run, kind, a, n) && IsLong(u, run, a, now)
    && (now > 28_800_000 || Matches(u, run, kind, a, n) + 1 > 100_000)
  }

  /** A flush is rejected exactly when something long enough is still running and it comes
      after the clock or counts too many samples; otherwise it reports exactly the long
      enough ones, each once. */
  lemma FlushedExactly(u: Setup, run: seq<Happening>, n: nat, e: Event)
    requires ValidSetup(u) && n < |run| && run[n].Flush?
    ensures var o := OutcomeAt(u, run, n);
            && o.Flushed?
            && (o.flushed.Err? <==> exists kind, a: nat :: Overruns(u, run, kind, a, n, run[n].time))
            && (o.flushed.Ok? ==>
                  var events := o.flushed.value;
                  && (e in events <==>
                        exists a: nat ::
                            IsRunning(u, run, e.kind, a, n) && IsLong(u, run, a, run[n].time)
                                && e == EventFor(u, run, e.kind, a, n, run[n].time))
                  && forall i, j :: 0 <= i < j < |events| ==> events[i].kind != events[j].kind)
  {
    hide At, OutcomeAt, IsRunning, Matches, Gather;
    var p, c, now := u.policy, At(u, run, n), run[n].time;
    OutcomeIsStep(u, run, n);
    forall kind
      ensures ClosedAt(p, c, now, kind).Err? <==> exists a: nat :: Overruns(u, run, kind, a, n, now)
    {
      FlushCloses(u, run, kind, n, now);
      if ClosedAt(p, c, now, kind).Err? {
        var a: nat :| IsRunning(u, run, kind, a, n);
        assert Overruns(u, run, kind, a, n, now);
      }
    }
    if kind, a: nat :| Overruns(u, run, kind, a, n, now) {
      assert ClosedAt(p, c, now, kind).Err?;
    }
    if OutcomeAt(u, run, n).flushed.Ok? {
      FlushCloses(u, run, e.kind, n, now);
      forall kind ensures ClosedAt(p, c, now, kind).Ok? { assert !ClosedAt(p, c, now, kind).Err?; }
      GatherOf(map kind: Kind | true :: EventOf(ClosedAt(p, c, now, kind)));
    }
  }

  // ------------------------------------------------------------- plain stretches

  /** Matching samples from `a` up to `n` without a gap, begun afresh after the cooldown. */
  ghost predicate IsStretch(u: Setup, run: seq<Happening>, kind: Kind, a: nat, n: nat)
    requires ValidSetup(u) && a < n < |run|
  {
    && IsSample(u, run, a) && IsSample(u, run, n) && (forall k :: a <= k < n ==> Opens(u, run, kind, k))
    && (forall k :: a < k <= n ==> IsContinuous(u, run, k))
    && (a > 0 && IsContinuous(u, run, a) ==> IsSample(u, run, a - 1) && FlagAt(u, run, a - 1, kind) == Some(false))
  }

  lemma {:induction false} StretchMatches(u: Setup, run: seq<Happening>, kind: Kind, a: nat, n: nat)
    requires ValidSetup(u) && a <= n <= |run| && forall k :: a <= k < n ==> Opens(u, run, kind, k)
    ensures Matches(u, run, kind, a, n) == n - a
  {
    hide At, OutcomeAt, FlagAt, IsSkipped;
    if a < n {
      StretchMatches(u, run, kind, a, n - 1);
      assert Opens(u, run, kind, n - 1);
    }
  }

  lemma StretchRuns(u: Setup, run: seq<Happening>, kind: Kind, a: nat, n: nat)
    requires ValidSetup(u) && a < n < |run| && IsStretch(u, run, kind, a, n)
    ensures IsRunning(u, run, kind, a, n) && Matches(u, run, kind, a, n) == n - a
  {
    hide At, OutcomeAt, FlagAt, IsSkipped;
    StretchMatches(u, run, kind, a, n);
    forall k | a < k < n ensures Carries(u, run, kind, k) { assert Opens(u, run, kind, k); }
    if IsContinuous(u, run, a) {
      forall b: nat | b < a
        ensures !IsRunning(u, run, kind, b, a)
      {
        if b < a - 1 { assert !Carries(u, run, kind, a - 1); } else { assert !Opens(u, run, kind, b); }
      }
    }
  }

  /** A stretch ended by a sample that does not match is reported there, exactly once and
      with exactly its samples, if and only if it lasted long enough; one with too many
      samples is rejected. */
  lemma StretchIsReported(u: Setup, run: seq<Happening>, kind: Kind, a: nat, n: nat)
    requires ValidSetup(u) && a < n < |run| && IsStretch(u, run, kind, a, n)
    requires FlagAt(u, run, n, kind) == Some(false)
    ensures var o, isLong := OutcomeAt(u, run, n), run[n].time - run[a].time >= u.policy.minimumDurationMs;
            && (isLong && n - a + 1 > 100_000 ==> IsRejection(o))
            && (IsAccepted(o) ==>
                  forall e ::
                    e in EventsOf(o) && e.kind == kind <==>
                    isLong && e == Event(kind, run[a].time, run[n].time, n - a + 1, n - a))
  {
    hide At, OutcomeAt, FlagAt, IsSkipped, Matches;
    StretchRuns(u, run, kind, a, n);
    RunningExactly(u, run, kind, n);
    RejectedExactly(u, run, n);
    assert Ends(u, run, kind, a, n);
    if IsLong(u, run, a, run[n].time) && n - a + 1 > 100_000 { assert Overflows(u, run, kind, a, n); }
    forall e: Event | e.kind == kind && IsAccepted(OutcomeAt(u, run, n))
      ensures e in EventsOf(OutcomeAt(u, run, n)) <==>
          IsLong(u, run, a, run[n].time) && e == Event(kind, run[a].time, run[n].time, n - a + 1, n - a)
    {
      ObservedExactly(u, run, n, e);
    }
  }

  // ------------------------------------------------------------- cooldown and rate

  /** The cooldown moves exactly when an event is observed, to a cooldown after its end; a
      rejected sample may also leave it there for a condition whose event it loses. */
  lemma CooldownExactly(u: Setup, run: seq<Happening>, kind: Kind, n: nat)
    requires ValidSetup(u) && n < |run|
    ensures var before, after := Get(At(u, run, n).cooldowns, kind), Get(At(u, run, n + 1).cooldowns, kind);
            if !run[n].Frame? then after == before
            else if IsRejection(OutcomeAt(u, run, n)) then
              after == before || after == Some(run[n].time + u.policy.cooldownMs)
            else if exists e :: e in EventsOf(OutcomeAt(u, run, n)) && e.kind == kind then
              after == Some(run[n].time + u.policy.cooldownMs)
            else after == before
  {
    hide At, OutcomeAt, FlagAt, IsSkipped, Last, Held;
    if IsSample(u, run, n) {
      SampleStep(u, run, n);
      if IsAccepted(OutcomeAt(u, run, n)) {
        LastIsMember(EventsOf(OutcomeAt(u, run, n)), kind);
        assert HandledAt(u, run, kind, n).cooldown == Get(At(u, run, n + 1).cooldowns, kind);
      } else {
        RejectedCooldown(u, run, kind, n);
      }
    } else {
      OtherStep(u, run, kind, n);
      NoSampleNoEvents(u, run, n);
    }
  }

  lemma RejectedCooldown(u: Setup, run: seq<Happening>, kind: Kind, n: nat)
    requires ValidSetup(u) && n < |run| && IsSample(u, run, n)
    ensures var before, after := Get(At(u, run, n).cooldowns, kind), Get(At(u, run, n + 1).cooldowns, kind);
            after == before || after == Some(run[n].time + u.policy.cooldownMs)
  {
    hide At, OutcomeAt, FlagAt, IsSkipped, Held, FlagsOf, FirstRejected, Gather, CloseInterval;
    var p, c, flags, now := u.policy, Carried(u.policy, At(u, run, n), run[n].time), FlagsOf(u, run[n].seen.value),
        run[n].time;
    SampleIsPass(u, run, n);
    PassGets(p, c, flags, now);
    CarriedKeepsCooldowns(p, At(u, run, n), now);
    assert HandledAs(p, c, flags, now, kind) == HandledAt(u, run, kind, n);
  }

  /** Sampling never gets faster than the slowest frame so far took, up to the longest interval. */
  lemma {:induction false} SamplingCoversLatency(u: Setup, run: seq<Happening>, k: nat, n: nat)
    requires ValidSetup(u) && k < n <= |run| && run[k].Frame?
    ensures At(u, run, n).samplingMs >= Min(run[k].latency, 2000)
  {
    hide At, OutcomeAt, Pass, FlushAt, CameraSound, Flag, FlagsOf;
    var c := At(u, run, n - 1);
    OutcomeIsStep(u, run, n - 1);
    SamplingAfter(u, c, run[n - 1]);
    if k < n - 1 {
      SamplingCoversLatency(u, run, k, n - 1);
      StartedSound(u, run, n - 1);
    }
  }

  /** Sampling slows down only for a slow frame: to twice what it took. */
  lemma {:induction false} SamplingIsNeeded(u: Setup, run: seq<Happening>, n: nat)
    requires ValidSetup(u) && n <= |run|
    ensures var sampling := At(u, run, n).samplingMs;
            sampling == InitialSampling(u.policy.profile)
            || exists k :: 0 <= k < n && run[k].Frame? && sampling == Min(2000, 2 * run[k].latency)
  {
    hide At, OutcomeAt, Pass, FlushAt, Flag, FlagsOf;
    if n == 0 {
      NothingAtStart(u, run, PresenterOutOfFrame);
    } else {
      OutcomeIsStep(u, run, n - 1);
      SamplingAfter(u, At(u, run, n - 1), run[n - 1]);
      SamplingIsNeeded(u, run, n - 1);
    }
  }

  lemma SamplingAfter(u: Setup, c: Camera, h: Happening)
    requires ValidSetup(u)
    ensures Step(u, c, h).0.samplingMs == if h.Frame? then NextSampling(c.samplingMs, h.latency) else c.samplingMs
  {
    hide Pass, CloseInterval, FlagsOf, ClosedAt, Gather;
  }

  // ------------------------------------------------------------- what a sample shows

  /** The two regions have a point in common, edges aside. */
  ghost predicate Overlap(a: Region, b: Region) {
    exists x: real, y: real :: IsInside(a, x, y) && IsInside(b, x, y)
  }

  predicate IsInside(r: Region, x: real, y: real) { r.x1 < x < r.x2 && r.y1 < y < r.y2 }

  lemma OverlapFractionPositive(a: Region, b: Region)
    requires Nonempty(b)
    ensures OverlapFraction(a, b) > 0.0 <==> Overlap(a, b)
  {
    hide Area;
    var width, height := MaxReal(0.0, MinReal(a.x2, b.x2) - MaxReal(a.x1, b.x1)),
        MaxReal(0.0, MinReal(a.y2, b.y2) - MaxReal(a.y1, b.y1));
    AreaPositive(width, height);
    if width > 0.0 && height > 0.0 {
      var x, y := (MinReal(a.x2, b.x2) + MaxReal(a.x1, b.x1)) / 2.0, (MinReal(a.y2, b.y2) + MaxReal(a.y1, b.y1)) / 2.0;
      assert IsInside(a, x, y) && IsInside(b, x, y);
    }
  }

  lemma AreaPositive(width: real, height: real)
    requires width >= 0.0 && height >= 0.0
    ensures Area(width, height) > 0.0 <==> width > 0.0 && height > 0.0
  {
  }

  lemma {:induction false} ConfidentExactly(p: Policy, detections: seq<Detection>, d: Detection)
    ensures d in Confident(p, detections) <==> d in detections && d.confidence >= p.minimumConfidence
  {
    if detections != [] {
      ConfidentExactly(p, detections[1..], d);
      assert detections == [detections[0]] + detections[1..];
    }
  }

  /** The presenter is out of frame exactly when nobody detected with enough confidence
      shares a point with the presenter's region. */
  lemma PresenterAwayExactly(u: Setup, run: seq<Happening>, k: nat)
    requires ValidSetup(u) && k < |run| && run[k].Frame? && run[k].seen.Some?
    ensures FlagAt(u, run, k, PresenterOutOfFrame) == Some(
                forall d :: d in run[k].seen.value.detections && d.confidence >= u.policy.minimumConfidence ==>
                  !Overlap(d.region, u.presenter))
  {
    hide OverlapFraction, Confident, Overlap;
    var detections := run[k].seen.value.detections;
    var people := Confident(u.policy, detections);
    forall d: Detection
      ensures d in people <==> d in detections && d.confidence >= u.policy.minimumConfidence
      ensures OverlapFraction(d.region, u.presenter) > 0.0 <==> Overlap(d.region, u.presenter)
    {
      ConfidentExactly(u.policy, detections, d);
      OverlapFractionPositive(d.region, u.presenter);
    }
    if d :| d in people && Overlap(d.region, u.presenter) {
      var i :| 0 <= i < |people| && people[i] == d;
      assert OverlapFraction(people[i].region, u.presenter) > 0.0;
    }
  }
}
