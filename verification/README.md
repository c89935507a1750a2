# Lecture recovery: a model of the backend's stateful pieces

The backend of a lecture-recovery application keeps several kinds of state over an integer-millisecond lecture
clock: detectors turn sampled camera observations into intervals, transcripts are ingested and corrected while
personal recovery cards are cached over them, an anonymous report is derived from coverage and signals that students
may withdraw or correct, and documents, streams and event queues are shared by concurrent handlers. This project
models those pieces and proves what holds over whole runs of them.

Code that updates fields is a class with those fields; every method is tied to a specification function or to a
declarative condition, and the properties are proved about the specification. Protocols with suspension points are
state machines over their atomic steps.

| file | what it models |
|---|---|
| `Common.dfy` | options, results, map lookups |
| `SignalIntervals.dfy` | one detector label: the online automaton refines an offline definition of the intervals |
| `SignalAccounts.dfy` | where each positive sample is counted: every candidate the automaton closes, drops or holds |
| `SignalReadings.dfy` | which intervals a label emits, in terms of its samples alone |
| `StudentSignals.dfy` | the student webcam worker and its capture loop |
| `HeadTurn.dfy` | the head-angle baseline as a median, and which flags the frames of a run raise |
| `LectureVision.dfy` | the lecture camera worker: cooldowns, adaptive sampling, and exactly when the evidence cap is exceeded |
| `LectureEvents.dfy` | exactly which events that worker gives, in terms of the samples of a run |
| `Intervals.dfy` | union measure, canonical merging, the context interval of a recovery request |
| `Transcript.dfy` | chunk ingestion in place, timeline revision, window reads |
| `Recovery.dfy` | recovery jobs, the content-keyed card cache, retries, consent revocation |
| `RecoveryWindows.dfy` | what a recovery request reads: its context window in terms of the transcript |
| `RecoveryRuns.dfy` | whole runs of that service over transcripts that are ingested and corrected: who is answered, with what, and when from the cache |
| `Metrics.dfy` | the report as a specification, and its two-run properties |
| `Release.dfy` | what a report releases, in terms of who was watching and who missed how much |
| `ProfessorMetrics.dfy` | the services that store signals, coverage, deliveries, consent and corrections, the report they release, and runs of them |
| `MetricsRuns.dfy` | whom the reports of a run are released to and whose records they count |
| `Recommendations.dfy` | excerpts, aliases and the grounding of suggestions |
| `ReviewState.dfy` | stored suggestion runs and their reviews |
| `ReviewRuns.dfy` | whole runs of that service over records that change in between |
| `SessionDocuments.dfy` | the compare-and-swap repository and its retry loop under interleaving |
| `FolderLinks.dfy` | folder links as the mutation run through that loop |
| `ZoomStream.dfy` | the stream slot of one session, with one suspending handler or several, and stepping tasks |
| `Publisher.dfy` | bounded drop-oldest fan-out to subscriber queues |

Times are `int`, scores, yaws and ratios are `real`, fresh identifiers are fresh naturals, a digest is the digested
value itself, and providers, text normalisers and analysers are arbitrary functions or inputs.

## Where the code differs from its documentation

- `backend/app/recovery/cache.py:46` and `backend/app/transcript/repository.py:65-67` say that a correction
  invalidates cached cards. The base key holds only the maximum revision: it survives exactly the corrections that do
  not exceed it (`BaseKeySurvivesCorrection`, `BaseKeyMissesCorrection`). The deployed service keys on the window's
  contents, and there every correction of a chunk that the window shows moves the key; it survives exactly the
  corrections outside the window that move neither the revision nor the clamped end
  (`ContentsKeySurvivesCorrection`).
- `backend/app/professor/excerpts.py:71-73` says chunks that would exceed the budget are omitted. The scan also ends at
  the first blank chunk. An excerpt stops with budget to spare if and only if some selected chunk is blank and the text
  before it is shorter than the limit (`StopsEarlyExactly`), and a chunk with text is dropped with budget to spare if
  and only if such a blank chunk comes before it (`DropsTextExactly`; `BlankHidesLaterText` is an example).
- `backend/app/local_ml/vision.py:204-216` builds an event whose evidence is capped at 100 000 samples. An absence of
  that many samples makes the worker raise and lose the event (`LongAbsence`). Some run of a fresh worker does so
  exactly when the policy uses the performance profile and tolerates sample gaps of at least 200 ms
  (`CapCanBeExceeded`).
- `backend/app/timeline/repository.py:65-67` makes revisions restart at 0, so a compare-and-swap can succeed on a
  snapshot taken before the deletion (`DeleteLosesUpdate`). In every interleaving a loaded client overwrites a commit
  it never saw if and only if the session was deleted since the load and has had as many commits since, not 0, as its
  snapshot had (`StaleSwapExactly`). Without such a commit no update is lost (`StaleMeansOverwriting`,
  `FreshCommitsAreNotLost`), in particular in sessions that are not deleted (`NoLostUpdate`).

## Model

| member | source | states |
|---|---|---|
| SignalIntervals.OnlineResumes | backend/app/local_ml/student_signals.py:468-506 | from any reachable candidate state, the automaton's remaining output is the offline reading of the rest of the samples continued from that candidate |
| SignalIntervals.OnlineIsOffline | backend/app/local_ml/student_signals.py:450-575 | on every strictly increasing run, the signals emitted online are exactly those of the offline definition: split at sample gaps, maximal positive runs, bridging, minimum duration, mean confidence |
| SignalIntervals.OnlineStreams | backend/app/local_ml/student_signals.py:468-575 | the output of a flushed run is what it streams without a flush followed by the flush of the candidate it leaves open |
| SignalIntervals.OfflineSeparated | backend/app/local_ml/student_signals.py:450-506 | emitted intervals are in order, long enough, disjoint, and at least the smaller of merge gap and sample gap apart |
| SignalAccounts.OnlineRunsAreCandidates | backend/app/local_ml/student_signals.py:468-506 | the candidates the automaton closes, drops at a sample gap and holds at the end are, in order, exactly the offline candidates |
| SignalAccounts.EveryPositiveCountedOnce | backend/app/local_ml/student_signals.py:468-495 | at every moment of a run the candidates are the finished ones and the active one; each begins at, counts and totals its own samples, and their samples laid end to end are the positive samples in order, each once |
| SignalAccounts.PositionsArePositive | backend/app/local_ml/student_signals.py:468-495 | the positions laid end to end are those of the positive samples, strictly increasing |
| SignalAccounts.CandidatesCount | backend/app/local_ml/student_signals.py:468-495 | the candidates count every positive sample and total every contribution |
| SignalReadings.StretchesAre | backend/app/local_ml/student_signals.py:468-506 | the stretches hold exactly the positions of the positive samples, in order; samples of one stretch are joined, without a sample gap and with pauses shorter than the merge gap, and neighbouring stretches are not |
| SignalReadings.OfflineExactly | backend/app/local_ml/student_signals.py:450-575 | on every increasing run the intervals emitted for a label are exactly the stretches that have an end, or are open at the flush, and last long enough, from the first sample to that end, with the mean contribution kept between 0 and 1 as confidence |
| StudentSignals.SamplesIncrease | backend/app/local_ml/student_signals.py:524-539 | the samples a label sees of a clean run strictly increase in time |
| StudentSignals.AnalysedExactly | backend/app/local_ml/student_signals.py:528-532 | of a clean run exactly the reads at least the sampling interval after every earlier analysed frame are analysed, in order |
| StudentSignals.StudentSignalWorker.Unavailable | backend/app/local_ml/student_signals.py:391-398 | camera loss forgets candidates, baseline, turn and last time |
| StudentSignals.StudentSignalWorker.UpdateBaseline | backend/app/local_ml/student_signals.py:406-417 | the baseline history and turn start after one sample, including the long-turn reset |
| StudentSignals.StudentSignalWorker.AdvanceLabel | backend/app/local_ml/student_signals.py:468-495 | the in-place candidate update is one step of the automaton for that label and touches no other |
| StudentSignals.StudentSignalWorker.FinishEndedCandidates | backend/app/local_ml/student_signals.py:497-506 | at a sample gap every label emits only its already stopped candidate and none survives |
| StudentSignals.StudentSignalWorker.FlushAll | backend/app/local_ml/student_signals.py:562-575 | every open candidate is closed per label, or a signal past the lecture clock rejects the flush and keeps them |
| StudentSignals.StudentSignalWorker.AdvanceAll | backend/app/local_ml/student_signals.py:549-552 | one pass steps each label's automaton once, independently |
| StudentSignals.StudentSignalWorker.ObserveFrame | backend/app/local_ml/student_signals.py:508-560 | exactly which fault rejects a frame, when one is skipped or analysed, and the full new state and output of each case; the flags are described by `HeadTurn.SamplesExactly`, the baseline they use by `HeadTurn.MedianIsMedian` |
| StudentSignals.StudentSignalWorker.ObserveRead | backend/app/local_ml/student_worker.py:69-79 | what one read emits followed by what is still to be streamed is what was to be streamed before it, for every label and whatever comes next; a faulty read is answered by its fault |
| StudentSignals.StudentSignalWorker.RunCapture | backend/app/local_ml/student_worker.py:41-84 | the outcome is that of the first faulty read; a run without a fault emits, per label, exactly the offline intervals of its analysed frames (`AnalysedExactly`), flushed at the last frame time, which are the long enough stretches (`SignalReadings.OfflineExactly`) of the samples that the frames show (`HeadTurn.SamplesExactly`); a faulty run emits, per label, exactly what the reads before the fault stream without a flush, and clears the worker |
| StudentSignals.FaultEmitsPrefix | backend/app/local_ml/student_worker.py:62-75 | what a label emitted before a fault is a prefix of the offline intervals of the frames analysed before it, at most the open one missing, and ended by the last of those frames |
| StudentSignals.CaptureIsSeparated | backend/app/local_ml/student_worker.py:66-84 | what a clean capture run emits for a label lies inside the run, in order, long enough, disjoint and separated |
| HeadTurn.SamplesFollowFace | backend/app/local_ml/student_signals.py:540-552 | the flags a run emits intervals from are those judged against the remembered face after the frames before |
| HeadTurn.BaselineIsRecentUnturned | backend/app/local_ml/student_signals.py:406-417 | over any run the baseline holds exactly the most recent yaws, since the last reset, of frames not judged turned |
| HeadTurn.SortedPermutes | backend/app/local_ml/student_signals.py:400-404 | sorting orders the yaws and keeps each as often as it occurs |
| HeadTurn.MedianIsMedian | backend/app/local_ml/student_signals.py:400-404 | the baseline, and no other value, is the median of the yaws: the value ranked in the middle, or the mean of the two values ranked in the middle, ranks being counted by how many lie below and above |
| HeadTurn.MedianHalves | backend/app/local_ml/student_signals.py:400-404 | at most half of the yaws lie below the median and at most half above it |
| HeadTurn.VisibleFaceAwayExactly | backend/app/local_ml/student_signals.py:419-430 | a visible face is flagged away exactly when there are enough recent unturned yaws and it is further from their median than allowed, to either side |
| HeadTurn.SamplesExactly | backend/app/local_ml/student_signals.py:419-448 | time, flag and contribution of the sample each label gets for each frame, in terms of the frames before it |
| HeadTurn.TurnSinceExactly | backend/app/local_ml/student_signals.py:411-415 | the turn start is remembered exactly while frames are flagged without a reset, and is the time of the first of them |
| HeadTurn.ResetsExactly | backend/app/local_ml/student_signals.py:411-417 | a turn is taken as a new seating position exactly at a flagged frame more than the reset time after the turn's first one |
| HeadTurn.ResetUnflagsNext | backend/app/local_ml/student_signals.py:400-417 | after a reset the next visible face is never judged turned |
| HeadTurn.LongTurnIsRebaselined | backend/app/local_ml/student_signals.py:406-417 | in any stretch of visible faces all flagged away, every sample but the last is within the reset time of the first |
| HeadTurn.RemembersMostRecentFace | backend/app/local_ml/student_signals.py:542-545 | the remembered turn is set exactly when the most recent face since the person last left was turned |
| HeadTurn.FaceAbsentExactly | backend/app/local_ml/student_signals.py:419-448 | a missing face is flagged absent exactly when it did not vanish in the middle of a turn, and flagged away exactly when it did |
| Intervals.MeasureOfPoints | backend/app/professor/metrics.py:44-53 | the union measure depends on the point set only |
| Intervals.MeasureAdds | backend/app/professor/metrics.py:44-53 | the union measure is additive over adjacent ranges |
| Intervals.MeasureExtremes | backend/app/professor/metrics.py:44-53 | the measure is full exactly when every millisecond is covered and zero exactly when none is |
| Intervals.CoveredDuration | backend/app/professor/metrics.py:44-53 | the sorted sweep counts exactly the milliseconds of the range lying in the union |
| Intervals.MergeOverlapping | backend/app/recovery/intervals.py:14-39 | the merging loop computes the recursive fold of the sorted list |
| Intervals.MergedSamePoints | backend/app/recovery/intervals.py:14-39 | merging keeps the point set of any input |
| Intervals.MergedCanonical | backend/app/recovery/intervals.py:14-39 | merging non-empty intervals gives a sorted, strictly separated list |
| Intervals.CanonicalUnique | backend/app/recovery/intervals.py:14-39 | a sorted, strictly separated list is determined by its point set |
| Intervals.MergeIsCanonicalForm | backend/app/recovery/intervals.py:14-39 | two lists merge to the same list exactly when they have the same points; merging is idempotent |
| Intervals.MergedLengthIsCoveredDuration | backend/app/recovery/intervals.py:14-39 | the merged list's total length is the union measure over any enclosing range |
| Intervals.ContextIntervalIsHull | backend/app/recovery/intervals.py:56-83 | exactly one interval remains and it is the hull of the request and the events touching it |
| LectureVision.HandleIsSound | backend/app/local_ml/vision.py:306-315 | one sample keeps a candidate's span bounds, and an event it closes starts after its cooldown, sets the next one, and spans its sample count |
| LectureVision.CapFits | backend/app/contracts/learning.py:66-67 | sampling at least every 334 ms, no lecture is long enough to exceed the evidence cap |
| LectureVision.FlushKeepsCooldown | backend/app/local_ml/vision.py:218-236 | an event closed by a flush starts after its kind's cooldown |
| LectureVision.VisionWorker.Unavailable | backend/app/local_ml/vision.py:238-242 | camera loss drops candidates and time but not cooldowns or the sampling rate |
| LectureVision.VisionWorker.FlushAll | backend/app/local_ml/vision.py:218-236 | the flush loop closes every open condition and clears them, or is rejected and keeps them |
| LectureVision.VisionWorker.HandleKind | backend/app/local_ml/vision.py:306-315 | the in-place update of one condition and what it leaves alone; over runs, when it opens, goes on and is reported is `LectureEvents.RunningExactly` and `LectureEvents.ObservedExactly` |
| LectureVision.VisionWorker.HandleAll | backend/app/local_ml/vision.py:305-317 | every condition is stepped once; a rejected event stops the pass with only earlier cooldowns set |
| LectureVision.VisionWorker.ObserveFrame | backend/app/local_ml/vision.py:244-327 | the new state and the result of a frame: rejected, skipped, failed, or judged after a gap drops the candidates, with the sampling rate adapted; the events in the result are exactly those of `LectureEvents.ObservedExactly` |
| LectureVision.RunLecture | backend/app/local_ml/vision.py:182-327 | driving the worker through any camera losses, frames and flushes leaves the state and gives the outcomes that the run lemmas here and in `LectureEvents` are about |
| LectureVision.StepKeepsSound | backend/app/local_ml/vision.py:218-327 | one happening keeps candidates sound and observed events paced, never speeds sampling up, and rejects evidence only when the policy can exceed the cap |
| LectureVision.RunKeepsSound | backend/app/local_ml/vision.py:182-327 | the same over any run from any sound state |
| LectureVision.RunIsPaced | backend/app/local_ml/vision.py:306-315 | over every run of a fresh worker, observed events of a kind start at least a cooldown after the one before ends, and their durations fit their sample counts |
| LectureVision.FlushIsPaced | backend/app/local_ml/vision.py:218-236 | flushed events keep the cooldown of every event observed before them |
| LectureVision.LongAbsence | backend/app/local_ml/vision.py:204-216 | the run of 100 000 accepted samples without a presenter and one with the presenter back: the last is rejected and its event lost |
| LectureVision.CapCanBeExceeded | backend/app/local_ml/vision.py:204-216 | some run of a fresh worker has a frame rejected for its evidence if and only if the profile is performance and the policy tolerates gaps of at least 200 ms |
| LectureEvents.RunningExactly | backend/app/local_ml/vision.py:244-327 | at every moment of every run the worker holds a condition exactly while it runs: from a matching sample after the cooldown, through samples without a gap that match or say nothing, through skipped frames and rejected flushes, with the number of its matching samples |
| LectureEvents.ObservedExactly | backend/app/local_ml/vision.py:188-216 | the events a frame of any run gives are exactly the conditions that it ends and that lasted at least the minimum duration, from their first sample to this one, with n matching samples of n + 1 |
| LectureEvents.ObservedOnce | backend/app/local_ml/vision.py:304-317 | a frame gives at most one event of each kind |
| LectureEvents.RejectedExactly | backend/app/local_ml/vision.py:204-216 | a frame is rejected for its evidence exactly when a condition that it ends lasted long enough and counts more than 100 000 samples |
| LectureEvents.FlushedExactly | backend/app/local_ml/vision.py:218-236 | a flush gives exactly the conditions still running that lasted long enough, once each, or is rejected exactly when one of them ends after the clock or counts too many samples |
| LectureEvents.StretchIsReported | backend/app/local_ml/vision.py:304-317 | a gap-free stretch of n matching samples begun afresh after the cooldown and ended by one that does not match is reported exactly once, with n of n + 1 samples, if and only if it lasted long enough; one with too many is rejected |
| LectureEvents.CooldownExactly | backend/app/local_ml/vision.py:310-315 | a cooldown moves exactly when an event of the kind is observed, to a cooldown after its end; a rejected sample may also leave it there |
| LectureEvents.SamplingCoversLatency | backend/app/local_ml/vision.py:322-327 | sampling never gets faster than the slowest frame so far took, up to 2000 ms |
| LectureEvents.SamplingIsNeeded | backend/app/local_ml/vision.py:322-327 | the sampling interval is the initial one or twice what some frame took, up to 2000 ms |
| LectureEvents.PresenterAwayExactly | backend/app/local_ml/vision.py:276-285 | the presenter is out of frame exactly when no detection of enough confidence shares a point with the presenter's region |
| Transcript.AcceptEvolves | backend/app/transcript/service.py:153-171 | accepting a chunk keeps ids unique, loses no id, changes a chunk only under a higher revision and never lowers the timeline revision |
| Transcript.TranscriptStore.AcceptInto | backend/app/transcript/service.py:153-171 | removing the prior chunk and appending in place is replacement of that id |
| Transcript.TranscriptStore.IngestBatch | backend/app/transcript/service.py:72-197 | on every exit ids stay unique, none disappears, revisions only rise; a rejection names the first faulty chunk and keeps exactly the chunks before it; on success the receipt and the size account for every chunk |
| Transcript.StopsAt | backend/app/transcript/service.py:108-171 | a batch stops at the first chunk that is faulty against what is stored by then, and exactly the chunks before it are accepted |
| Transcript.FaultExactly | backend/app/transcript/service.py:122-162 | a chunk is refused exactly when it is for another session, too long, not the first of its id in the batch, or not newer than what was stored under its id before the batch |
| Transcript.IngestExactly | backend/app/transcript/service.py:94-197 | an ingestion takes exactly the chunks before the first that is refused, after the stored ones that they do not replace, and answers what is wrong with that one, or the ids taken in order, those stored before, and the greatest revision |
| Transcript.ReadWindowIsExact | backend/app/transcript/repository.py:62-90 | a window read is exactly the final overlapping chunks in time order, ties in stored order |
| Transcript.ReadWindowUnique | backend/app/transcript/repository.py:78-83 | a window read keeps ids unique and returns stored chunks only |
| Recovery.Generate | backend/app/recovery/validated.py:39-60 | a provider's card is accepted exactly when it is for the window's session, cites something, and every citation names a chunk of the window with its exact times |
| Recovery.WindowIsReadable | backend/app/recovery/service.py:123-162 | the context window of a request belongs to its session and has unique, named chunks; which chunks those are is `RecoveryWindows.WindowExactly` |
| RecoveryWindows.ReadIsRead | backend/app/transcript/repository.py:78-83 | a window read is exactly the final chunks overlapping it, by start, then end, then stored order |
| RecoveryWindows.SpanIsSpan | backend/app/recovery/service.py:96-121 | a request reads around the smallest interval holding it and its own source events that touch it |
| RecoveryWindows.WindowExactly | backend/app/recovery/service.py:123-162 | the window of a request is the one with exactly the final chunks within the padding of that interval, in time order, clamped to 0, the clock and the last stored end, with the greatest revision; it has none exactly when those are more than 100 chunks or 24 000 characters |
| RecoveryWindows.UncachedIsDelivered | backend/app/recovery/service.py:276-335 | without a cache a request comes to missing context when it has no window or an empty one, and else to the provider's answer on its window, a card being malformed exactly when it does not cite the window |
| Recovery.StoringKeepsSound | backend/app/recovery/service.py:337-348 | storing a generated card keeps every cache entry owned by its key's requester and equal to the generator's answer on its key's window |
| Recovery.PrivateRecoveryService.StoreCard | backend/app/recovery/service.py:337-354 | a miss adds one fresh card, one cache entry and one ledger miss |
| Recovery.PrivateRecoveryService.FinishJob | backend/app/recovery/service.py:300-314 | a hit or a failure updates the job and the ledger only |
| Recovery.PrivateRecoveryService.ExecuteJob | backend/app/recovery/service.py:254-362 | hit or miss, the job delivers what the generator makes of the current window (`RecoveryWindows.WindowExactly`), owned by the requester, with the ledger, cards and cache accounted for |
| Recovery.PrivateRecoveryService.Enqueue | backend/app/recovery/service.py:233-243 | a new job has a fresh id, an owner, and its retry key recorded before it executes |
| Recovery.PrivateRecoveryService.StartJob | backend/app/recovery/service.py:254-275 | starting a queued job changes its status and nothing else |
| Recovery.PrivateRecoveryService.CreateJob | backend/app/recovery/validated.py:72-120 | refusals in the source's order change nothing (`RecoveryRuns.RefusedExactly`); a retry key is answered with its first job; otherwise one job is enqueued and settled on the request's window of the current transcript (`RecoveryWindows.WindowExactly`), and the books are exactly those of that answer |
| Recovery.AnswerIsSound | backend/app/recovery/service.py:182-362 | any answer keeps the books sound: entries owned by their key's requester and equal to the generator's answer on their window, retry keys owned, misses equal to stored cards |
| Recovery.AnswerFulfils | backend/app/recovery/service.py:254-362 | hit or miss, the new job is the requester's own and delivers what regenerating on the current transcript would give |
| Recovery.AnswerGrows | backend/app/recovery/service.py:182-362 | answering a request loses or changes no earlier job, owner, card or retry key |
| Recovery.OnlyOwnEntries | backend/app/recovery/validated.py:142-150 | a request adds cache entries for its own requester and session only; when none of theirs is cached, their new job is no hit |
| Recovery.PrivateRecoveryService.OwnedAreKeyed | backend/app/recovery/consent_routes.py:44-50 | the cached cards a member owns in a session are exactly the ones keyed to that member and session |
| Recovery.PrivateRecoveryService.PurgeCards | backend/app/recovery/consent_routes.py:44-54 | the deletion loop removes exactly the entries keyed to the member and session |
| Recovery.PrivateRecoveryService.UpdateConsent | backend/app/recovery/consent_routes.py:30-55 | granting adds one permission within capacity; revoking removes it and exactly that member's cached cards of the session; a refusal changes nothing |
| Recovery.ConsentIsSound | backend/app/recovery/consent_routes.py:30-55 | a consent change keeps the books sound |
| RecoveryRuns.RunRecovery | backend/app/recovery/service.py:182-362 | driving the service and the transcript store through any ingestions, requests and consent changes gives one outcome per action, each following from the state it met, and leaves the state the run lemmas below are about |
| RecoveryRuns.RunKeepsSound | backend/app/recovery/service.py:182-362 | soundness after every prefix of every run |
| RecoveryRuns.JobsAgreeWithRegenerating | backend/app/recovery/service.py:254-362 | at the end of any run every job it created belongs to its requester and delivers what the generator makes of the request's window of the transcript stored when it was asked for, cached or not: the final chunks within the padding of the request and its touching source events, in time order, or missing context when there are none or too many |
| RecoveryRuns.RefusedExactly | backend/app/recovery/validated.py:72-120 | in any run a request is refused, for the first of these reasons, exactly when the requester is no member or no student, the interval is past the clock or longer than ten minutes, it names an event that is not their own or is denied, or the provider needs a permission that was not granted or has been withdrawn since |
| RecoveryRuns.ConsentFollows | backend/app/recovery/consent_routes.py:30-55 | a permission is held exactly when it was granted, or was there from the start, and was not withdrawn since |
| RecoveryRuns.SameWindowIsHit | backend/app/recovery/service.py:300-320 | in any run a second job of a member on the same window is answered with the first one's card from the cache, whatever happens in between, unless the member revokes a permission in the session |
| RecoveryRuns.EveryJobWasAsked | backend/app/recovery/service.py:233-252 | every job a run adds was created by one of its requests |
| RecoveryRuns.OneJobPerKey | backend/app/recovery/validated.py:72-120 | any two successful requests of a run with the same member, session and non-empty retry key are answered with the same job |
| RecoveryRuns.MissesAreCards | backend/app/recovery/service.py:337-354 | over any run the ledger's misses equal the stored cards |
| RecoveryRuns.FirstJobAfterRevocation | backend/app/recovery/consent_routes.py:30-55 | after a revocation, through any requests of others, retries, ingestions and consent changes, the member's first new job in the session is not a hit |
| Recovery.CorrectionMovesRevision | backend/app/transcript/repository.py:84-85 | an accepted chunk moves the timeline revision exactly when its revision exceeds every stored one |
| Recovery.BaseKeySurvivesCorrection | backend/app/recovery/cache.py:30-66 | the base key survives a correction exactly when its revision does not exceed the stored ones and the transcript ends before and after clamp the window at the same place |
| Recovery.BaseKeyMissesCorrection | backend/app/recovery/cache.py:30-66 | for any correction of a chunk in the window below another chunk's revision the base key stays and the contents key changes |
| Recovery.ContentsKeySurvivesCorrection | backend/app/recovery/cache.py:30-66 | the contents key survives a correction exactly when the chunk is in the window neither before nor after and neither the revision nor the clamped end moves |
| Metrics.BucketsTile | backend/app/professor/metrics.py:151-166 | the buckets are consecutive, non-empty, of the policy's width except the last, from 0 to the report's end |
| Metrics.TilesPartition | backend/app/professor/metrics.py:164-166 | every millisecond of the report lies in exactly one bucket |
| Metrics.ObservedGroup | backend/app/professor/metrics.py:170-185 | a participant is observed in a bucket exactly when every millisecond is covered as available and none as unavailable |
| Metrics.AffectedGroup | backend/app/professor/metrics.py:195-218 | an observed participant is affected exactly when the union of their counting signals reaches the policy's duration in the bucket |
| Metrics.FindingsExact | backend/app/professor/metrics.py:228-248 | before the cap, a delivery event is a finding exactly when every millisecond of it lies in an available bucket |
| Metrics.EraseMembers | backend/app/professor/metrics_routes.py:73-77 | erasing removes exactly one participant's records of one session |
| Metrics.WithdrawalErasesInfluence | backend/app/professor/metrics.py:141-271 | the report of a session equals the report without the record, coverage and signals of any participant who is not opted in |
| Metrics.SuppressionIndependence | backend/app/professor/metrics.py:163-271 | below the minimum group the whole report is the same whatever the coverage, signals, deliveries and participants |
| Metrics.ReleasedNoWorse | backend/app/professor/metrics.py:186-227 | fewer affected participants change only the numerator and the hotspot, and only downwards |
| Metrics.CorrectionDirection | backend/app/signals/service.py:254-305 | denying a signal weakens the list of signals and confirming one strengthens it |
| Metrics.CorrectionMonotone | backend/app/professor/metrics.py:195-271 | weaker signals leave statuses, coverage, denominators and findings as they are, never raise a numerator or make a hotspot, and never lower the continuity numerator |
| Release.ObservedAreWatching | backend/app/professor/metrics.py:170-185 | the observed are those opted in who reported every millisecond of the session's range as available and none as unavailable |
| Release.AffectedAreMissing | backend/app/professor/metrics.py:195-218 | the affected are those watching for whom the milliseconds under some signal that counts, confirmed or confident enough and more than looking down, of an approved kind without a phone, reach the policy's duration or the whole range |
| Release.BucketsAreReleased | backend/app/professor/metrics.py:165-227 | of every bucket of a report: the coverage ratio is released exactly when enough are opted in and enough of them watched, the missed ratio exactly when besides coverage reaches the minimum, each with exactly those counts and the latter over at least the minimum group; status, hotspot and the ids of the first hundred overlapping final chunks likewise |
| Release.PoorlyWatchedIndependence | backend/app/professor/metrics.py:186-194 | a bucket that too few watched, or too small a part of the group, is the same whatever the signals are |
| Release.ReportEndExactly | backend/app/professor/metrics.py:146-151 | the report reaches exactly as far as some final chunk, up to eight hours |
| Release.ReportExactly | backend/app/professor/metrics.py:249-271 | the report is available exactly when some bucket is, suppressed exactly when none is and too few opted in, and its continuity counts the available buckets that are no hotspot |
| Release.FindingsReleased | backend/app/professor/metrics.py:229-248 | at most a hundred findings, each a delivery event of the session with every millisecond in an available bucket, and all of those when there are fewer |
| ProfessorMetrics.BuildBucket | backend/app/professor/metrics.py:165-227 | the bucket built step by step is the specified one, whose counts and release `Release.BucketsAreReleased` describes |
| ProfessorMetrics.ReleaseFindings | backend/app/professor/metrics.py:229-248 | the measure test releases exactly the specified findings, in stored order |
| ProfessorMetrics.BuildReport | backend/app/professor/metrics.py:141-271 | the loops compute the specified report, described by `Release.BucketsAreReleased`, `Release.ReportExactly` and `Release.FindingsReleased` |
| ProfessorMetrics.ProfessorMetricsService.Report | backend/app/professor/metrics.py:115-271 | exactly who is denied and why (`MetricsRuns.ReadExactly`); every other reader gets the specified report of the stored records, described by the lemmas of `Release` |
| ProfessorMetrics.ProfessorMetricsService.RegisterParticipant | backend/app/signals/service.py:206-252 | joining opts in a new participant and never changes an existing choice |
| ProfessorMetrics.ProfessorMetricsService.IngestCoverage | backend/app/professor/metrics.py:78-113 | the pending loop stores exactly the specified batch or nothing |
| ProfessorMetrics.DisagreesExactly | backend/app/professor/metrics.py:96-113 | a batch is a conflict exactly when some record differs from a stored one or an earlier one of the batch under the same id |
| ProfessorMetrics.CoverageIngestedMeans | backend/app/professor/metrics.py:78-113 | exactly when ingestion conflicts or overflows; otherwise one record per new id is added for the submitter, and accepted and duplicates account for the batch |
| ProfessorMetrics.ProfessorMetricsService.IngestSignals | backend/app/signals/service.py:114-204 | a batch is stored whole, or refused for the first of the source's reasons with nothing stored |
| ProfessorMetrics.ProfessorMetricsService.IngestDeliveries | backend/app/delivery/service.py:21-51 | delivery batches are atomic in the same way, by the course professor of an active session only |
| ProfessorMetrics.ProfessorMetricsService.End | backend/app/sessions/routes.py:141-156 | only the owner ends a session; ending an ended one changes nothing (`backend/app/sessions/service.py:170-199`) |
| ProfessorMetrics.ProfessorMetricsService.DeleteSession | backend/app/learning/state.py:33-42 | exactly the session's coverage and delivery events are erased |
| ProfessorMetrics.ProfessorMetricsService.UpdateAggregationConsent | backend/app/professor/metrics_routes.py:58-78 | withdrawing erases exactly the participant's coverage of the session; opting in restores nothing |
| ProfessorMetrics.ProfessorMetricsService.ConfirmEvent | backend/app/signals/service.py:254-311 | the submitter corrects exactly the first signal with the id, with every refusal leaving the signals as they were |
| ProfessorMetrics.RunMetrics | backend/app/professor/metrics.py:55-271 | driving the services through any run of their operations gives the specified replies and leaves the records the run lemmas are about |
| ProfessorMetrics.RunKeepsSound | backend/app/professor/metrics.py:78-113 | over any run coverage has one record per key within capacity, and only opted-in participants have any |
| ProfessorMetrics.StepKeepsUnique | backend/app/transcript/service.py:153-171 | every operation keeps the ids of each session's stored chunks unique |
| ProfessorMetrics.ReportAfterWithdrawal | backend/app/professor/metrics_routes.py:58-78 | from a withdrawal until the participant opts in again, over any joining, transcription, signals, coverage, deliveries, consents, corrections, deletions and endings, none of their coverage is stored, and the report is denied for the stated reason or is the one without them |
| ProfessorMetrics.WithdrawalThenReport | backend/app/professor/metrics_routes.py:58-78 | a withdrawal in an active session is followed by a released report without the participant once the session ends, whatever happens between |
| ProfessorMetrics.ReportAroundCorrection | backend/app/signals/service.py:254-305 | a denial makes the next report nowhere worse and a confirmation nowhere better; a refused correction changes nothing, and both reports are released or denied alike |
| ProfessorMetrics.RetryIngestion | backend/app/professor/metrics.py:96-113 | ingesting an accepted batch again succeeds, stores nothing and counts every record as a duplicate |
| MetricsRuns.ReadExactly | backend/app/professor/metrics.py:115-145 | in any run a report is released exactly to a professor who owns the session or its course, once its owner ended it and under a policy that is approved unless it is a demo, and counts exactly the participants whose last choice was to take part |
| MetricsRuns.ParticipationExactly | backend/app/professor/metrics_routes.py:58-78 | a user takes part as their last choice says: joining for the first time, or a choice as a student member who has joined |
| MetricsRuns.EndedExactly | backend/app/sessions/routes.py:141-156 | a session has ended exactly when its owner ended it |
| MetricsRuns.EndClosesEvidence | backend/app/professor/metrics.py:78-95 | once a session has ended nothing is added to its coverage, delivery events and signals, which are at most erased, confirmed or denied |
| MetricsRuns.SignalsTakenExactly | backend/app/signals/service.py:114-204 | a batch of signals is taken whole, as the submitter's own, exactly when a member who is no course professor submits it to an open session of its lecture, within the limit and with only new signals of the session |
| Recommendations.AliasInjective | backend/app/professor/excerpts.py:88-90 | the printed aliases of two chunks are equal only for the same index |
| Recommendations.BuildHotspotExcerpt | backend/app/professor/excerpts.py:59-92 | the excerpt is the longest run of selected chunks within the limit: all but the last whole, the last cut at the limit, ended early only by a blank chunk or an exhausted limit |
| Recommendations.BudgetedUnique | backend/app/professor/excerpts.py:80-92 | the limit determines the excerpt |
| Recommendations.KeptOfPrior | backend/app/professor/excerpts.py:80-92 | the kept text of the first chunks is at most theirs, and exactly theirs unless the last is cut at the limit |
| Recommendations.StopsEarlyExactly | backend/app/professor/excerpts.py:71-84 | an excerpt stops with budget to spare if and only if some selected chunk is blank and the text before it is shorter than the limit |
| Recommendations.DropsTextExactly | backend/app/professor/excerpts.py:71-84 | a chunk with text is dropped with budget to spare if and only if such a blank chunk comes before it |
| Recommendations.BlankHidesLaterText | backend/app/professor/excerpts.py:71-84 | of a chunk, a blank one and a third that would fit the limit, only the first is kept |
| Recommendations.ReadExcerpts | backend/app/professor/excerpts.py:95-107 | one excerpt per released hotspot, in report order |
| Recommendations.ValidateDraft | backend/app/professor/recommendations.py:154-219 | a draft is rejected exactly when it mentions an unreleased interval; otherwise exactly the suggestions are returned, in order, whose wording is not forbidden and whose claims about content, if any, have evidence grounded in what was supplied for their interval, each with its grounded evidence only |
| Recommendations.KeptExactly | backend/app/professor/recommendations.py:174-219 | exactly the suggestions that say nothing forbidden and whose claims are grounded are kept, in draft order, each unchanged but for its grounded evidence |
| Recommendations.GroundedExactly | backend/app/professor/recommendations.py:195-201 | exactly the facts are kept, in order, whose alias a supplied chunk goes by and whose normalised quote is not empty and occurs in that chunk's text, renamed to its id; none exactly when no fact is so grounded |
| Recommendations.WordingIsSaid | backend/app/professor/recommendations.py:189-194 | the wording searched is the observation, action and topic, those that are there, with a space between |
| Recommendations.NothingForbidden | backend/app/professor/recommendations.py:189-194 | no suggestion that is kept says anything forbidden |
| Recommendations.ReleasedExactly | backend/app/professor/excerpts.py:95-107 | excerpts are built for exactly the first five available hotspot buckets, in report order |
| Recommendations.AliasResolvesUniquely | backend/app/professor/excerpts.py:37-39 | in a built excerpt an alias resolves to the chunk it was given to |
| Recommendations.BucketsNameSources | backend/app/professor/metrics.py:222-225 | the chunk ids a report's bucket carries name final chunks overlapping it |
| Recommendations.EndToEndGrounding | backend/app/professor/recommendations.py:174-219 | whatever the draft, each kept evidence item quotes the text of an excerpt chunk supplied for the suggestion's own released hotspot, which is a bounded prefix of the final overlapping chunk that the item names |
| Recommendations.NoExcerptsNoClaims | backend/app/professor/recommendations.py:195-210 | without excerpts no kept suggestion claims anything about content |
| ReviewState.LocalDraftAllowed | backend/app/professor/recommendations.py:94-142 | the local suggestions are always about released intervals |
| ReviewState.DeletingKeeps | backend/app/learning/state.py:33-42 | erasing a session keeps every review inside a stored run and both stores within capacity |
| ReviewState.RecommendationService.ResolveScope | backend/app/professor/recommendations.py:252-270 | transcript text is used in live mode only with the professor's own consent, and only when some excerpt has text; the note says why not |
| ReviewState.SeesOneView | backend/app/professor/recommendations.py:252-270 | scope, excerpts and note are determined by the reader, the consents, the report and the transcript |
| ReviewState.ScopeExactly | backend/app/professor/recommendations.py:252-270 | a generation looks at the transcript exactly when transcript analysis is on, the professor has allowed the live provider if it is one, and some excerpt has text; the note says which was missing |
| ReviewState.ExcerptsUnique | backend/app/professor/excerpts.py:95-107 | the excerpts are determined by the hotspots and the transcript |
| ReviewState.NewRunGrounded | backend/app/professor/recommendations.py:305-320 | a new run's evidence quotes the excerpts of the transcript it is made from, and an intervals-only run claims nothing about content |
| ReviewState.LocalDraftExactly | backend/app/professor/recommendations.py:94-142 | the local draft is one timing-only suggestion for each of the first five released hotspots |
| ReviewState.AttemptExactly | backend/app/professor/recommendations.py:305-320 | making a run fails exactly when the provider does or when its draft mentions an unreleased interval; else the run is exactly what is kept of the provider's draft, or of the local one when a live provider may not read the transcript |
| ReviewState.NewRunWellMade | backend/app/professor/recommendations.py:305-320 | a new run says nothing forbidden, is exactly what is kept of a draft for the report and its excerpts, and quotes only those |
| ReviewState.RecommendationService.StoreRun | backend/app/professor/recommendations.py:321-326 | storing a run replaces the key's run and drops exactly that run's reviews |
| ReviewState.StoringKeeps | backend/app/professor/recommendations.py:321-326 | storing keeps every review inside a stored run and both stores within capacity |
| ReviewState.RecommendationService.MakeRun | backend/app/professor/recommendations.py:305-320 | making a run fails exactly when the provider fails on the excerpts supplied or its draft mentions an unreleased interval; otherwise it is the validated draft with its mode, scope and note (`AttemptExactly`) |
| ReviewState.LocalNeverFails | backend/app/professor/recommendations.py:94-142 | a run drafted locally never fails |
| ReviewState.RecommendationService.Generate | backend/app/professor/recommendations.py:272-326 | every outcome on the one view of the current report (`ScopeExactly`): denied, insufficient, the stored run with its reviews, no capacity, a failed draft, or a new run (`AttemptExactly`); the state left is that of the outcome and a failure changes nothing |
| ReviewState.RecommendationService.Review | backend/app/professor/recommendations.py:328-354 | exactly when feedback is stored, always inside the stored run of the report as it is now |
| ReviewState.RecommendationService.UpdateConsent | backend/app/recovery/consent_routes.py:30-55 | a member's permission for a provider is granted within capacity or revoked, and nothing else changes |
| ReviewState.RecommendationService.DeleteSession | backend/app/learning/state.py:33-42 | exactly the session's runs, reviews, consents, coverage and delivery events are erased |
| ReviewRuns.RunReviews | backend/app/professor/recommendations.py:272-354 | driving the service and the records it reads through any operations, consents, generations, reviews and deletions gives one reply per action, each following from the world it met, and leaves the world the run lemmas are about |
| ReviewRuns.ServedIsKept | backend/app/professor/recommendations.py:272-354 | whatever the reports and drafts, every step of a run stores a new answer within capacity for the first time or as a transcript run over an intervals-only one, and a verdict within capacity on a suggestion of a stored run |
| ReviewRuns.KeptIsSound | backend/app/professor/recommendations.py:272-354 | so over any run every review points inside a stored run and both stores stay within capacity |
| ReviewRuns.StoredTwiceAtMost | backend/app/professor/recommendations.py:286-326 | counted from the replies of any run, at most two runs of one report are stored between deletions, the second a transcript run over an intervals-only one; what is stored is what was answered last |
| ReviewRuns.EveryRunIsGrounded | backend/app/professor/recommendations.py:305-326 | from an empty service, whatever happens to the records in between while chunk ids stay unique, every run stored or answered was made by a generation: it is exactly what is kept of a draft for the report and the excerpts of the transcript at the time, says nothing forbidden, and those excerpts hold all of its evidence |
| ReviewRuns.TranscriptReadExactly | backend/app/professor/recommendations.py:252-270 | in any run a newly made suggestion run is made from lecture text exactly when transcript analysis is on, the professor has by then allowed the live provider if it is one, and not taken it back, and the released hotspots have text |
| ReviewRuns.ConsentFollows | backend/app/recovery/consent_routes.py:30-55 | the live provider may read exactly when the professor allowed it and neither took that back nor deleted the session since |
| ReviewRuns.ReviewsAreOfStoredRuns | backend/app/professor/recommendations.py:321-354 | every stored review is a verdict given on the very run that is stored now, with nothing stored over it or deleted since |
| SessionDocuments.MemorySessionRepository.Load | backend/app/timeline/repository.py:52-55 | the stored document, or an empty one at revision 0 |
| SessionDocuments.MemorySessionRepository.Replace | backend/app/timeline/repository.py:57-63 | the document is replaced exactly when the stored revision is the expected one |
| SessionDocuments.MemorySessionRepository.Delete | backend/app/timeline/repository.py:65-67 | the document is removed and no other is |
| SessionDocuments.MemorySessionRepository.MutateSession | backend/app/timeline/repository.py:106-133 | under arbitrary foreign commits between load and replace: what is committed, when it gives up, and that each failed attempt had a foreign commit to the session |
| SessionDocuments.SwapIsFresh | backend/app/timeline/repository.py:57-63 | a swap succeeds exactly when nobody committed since the load, and then replaces exactly the snapshot, unless a stored snapshot's session was deleted since |
| SessionDocuments.RunKeepsInvariant | backend/app/timeline/repository.py:45-133 | over every interleaving of any clients, documents are faithful to their history and clients are sound |
| SessionDocuments.StaleSwapExactly | backend/app/timeline/repository.py:57-67 | in every interleaving, a loaded client's revision matches after the session was touched if and only if it was deleted since the load and has had as many commits since as the snapshot; it overwrites an unseen commit if and only if that number is not 0 |
| SessionDocuments.StaleMeansOverwriting | backend/app/timeline/repository.py:57-67 | a commit came from a stored document deleted since the load if and only if it overwrote a commit its client never saw |
| SessionDocuments.FreshCommitsAreNotLost | backend/app/timeline/repository.py:45-67 | in every interleaving, deletions included, the revision counts the commits since the last deletion; without stale commits the document is the fold of the commits and each was computed from the document it replaced |
| SessionDocuments.NoLostUpdate | backend/app/timeline/repository.py:45-67 | in particular for a session that is never deleted, whose revision is the number of all its commits |
| SessionDocuments.ConflictIsCharged | backend/app/timeline/repository.py:124-133 | in every interleaving a conflict error means at least five commits by others or deletions of the session during the call, and five commits by others if it was not deleted |
| SessionDocuments.UncontendedCall | backend/app/timeline/repository.py:106-133 | from any reachable world a call nobody interferes with commits its change on the document as it is, or does nothing when the change writes nothing |
| FolderLinks.SelectionIsFound | backend/app/dropbox/service.py:50-59 | after a link the actor's folder is the selection and nobody else's changes |
| FolderLinks.LinkExactly | backend/app/dropbox/service.py:50-62 | a selection is refused exactly when a thousand other actors have linked a folder; otherwise the others' links stay and the selection is last |
| FolderLinks.LinksFollowCommits | backend/app/dropbox/service.py:45-63 | in every interleaving, deletions included, a document has one folder per actor and at most 1000; unless a commit overwrote one it never saw, each actor's folder is their last committed selection since the last deletion |
| FolderLinks.DeleteLosesUpdate | backend/app/timeline/repository.py:65-67 | a run with a deletion in which two commits succeed and one selection is lost |
| ZoomStream.RunKeeps | backend/app/integrations/zoom/service.py:396-517 | every step of handlers and tasks keeps the slot invariant |
| ZoomStream.OneStreamPerSession | backend/app/integrations/zoom/service.py:396-517 | whenever no handler is suspended at most one stream task is unfinished, it is the one in the slot, and before shutdown the status is live exactly when the slot is occupied |
| ZoomStream.SuspendedSlotIsEmpty | backend/app/integrations/zoom/service.py:508-517 | while a handler is suspended the slot is empty and only its held stream may be unfinished |
| ZoomStream.SlotFollowsHistory | backend/app/integrations/zoom/service.py:396-517 | over every interleaving of any number of handlers and tasks, a stream holds the slot exactly when it was created last, no handler has taken the slot since, and its own task has not ended |
| ZoomStream.SupersededNeverClears | backend/app/integrations/zoom/service.py:484-506 | through any steps in which no stream is created and none taken, the slot keeps its stream however many other tasks end |
| ZoomStream.OccupantIsUnfinished | backend/app/integrations/zoom/service.py:436-517 | even with handlers overlapping, an occupied slot holds a stream whose task is unfinished and not told to end |
| ZoomStream.SupersededCoexists | backend/app/integrations/zoom/service.py:436-506 | a run in which a superseded unfinished task coexists with an occupied slot and ends without clearing it |
| ZoomStream.NewStreamIsAlone | backend/app/integrations/zoom/service.py:436-482 | when a stream is created no other task is unfinished |
| ZoomStream.StartedExactly | backend/app/integrations/zoom/service.py:396-435 | in every serial run a stream announced for an empty slot is created at once, one already in the slot is ignored, and any other makes the handler first stop what the slot holds |
| ZoomStream.ResumesExactly | backend/app/integrations/zoom/service.py:508-517 | a suspended handler goes on exactly when the stream was asked to stop and its task has ended, which it cancels if need be, and then creates the new stream or marks the session stopped |
| ZoomStream.EndedExactly | backend/app/integrations/zoom/service.py:484-506 | the status is failed after a task ends exactly on an error, or when it returned and had failed already, and stopped otherwise |
| ZoomStream.StopRaisesOrphans | backend/app/integrations/zoom/service.py:508-517 | if stopping a stream raised, the invariant would survive exactly when the held task is already finished |
| ZoomStream.StopRaisesWitness | backend/app/integrations/zoom/service.py:508-517 | a run in which it would not |
| Publisher.WebSocketEventPublisher.Subscribe | backend/app/ws/publisher.py:78-94 | a fresh empty queue joins one session and no other queue changes |
| Publisher.WebSocketEventPublisher.Unsubscribe | backend/app/ws/publisher.py:96-108 | exactly this queue leaves the session, the others keep their order, and a queue subscribed elsewhere is left alone |
| Publisher.WebSocketEventPublisher.BuildEnvelope | backend/app/ws/publisher.py:110-129 | sequence numbers of a session are handed out without gaps |
| Publisher.WebSocketEventPublisher.DeliverTo | backend/app/ws/publisher.py:139-155 | each queue is offered the envelope once; an eligible full queue loses its oldest |
| Publisher.WebSocketEventPublisher.PublishEnvelope | backend/app/ws/publisher.py:131-155 | every subscriber of the session and no other queue is offered the envelope, for the resolved audience |
| Publisher.WebSocketEventPublisher.Drain | backend/app/ws/routes.py:44-50 | the connection takes the oldest envelope |
| Publisher.EligibleRises | backend/app/ws/publisher.py:131-155 | filtering by eligibility keeps publication order |
| Publisher.EnqueuedIsRecent | backend/app/ws/publisher.py:145-155 | dropping the oldest when full keeps the queue the most recent part of what was offered |
| Publisher.PrivateIsOwn | backend/app/ws/publisher.py:139-144 | a private envelope in an eligible sequence was published for that subscriber |
| Publisher.EligibleExactly | backend/app/ws/publisher.py:131-155 | a subscriber is eligible for exactly the envelopes that are not recovery or signal events or were published for its own actor, in publication order |
| Publisher.AudienceExactly | backend/app/ws/publisher.py:131-144 | a private envelope reaches the actor it names, or the one at work when it names none |
| Publisher.RunFollows | backend/app/ws/publisher.py:78-155 | over every run each queue follows its history: who joined as it, what it was offered since, and how many it holds |
| Publisher.SubscriberSees | backend/app/ws/publisher.py:78-155 | over every run a subscribed queue is exactly the most recent envelopes it was eligible for since joining, exactly as many as it was offered up to the depth and has not handed out, so one is dropped only when full; its private ones were published for its own actor |
| Publisher.EmitEnvelope | backend/app/ws/publisher.py:110-155 | building and publishing in one expression: the envelope carries the session's next number and every subscriber is offered it |
| Publisher.QueuesRise | backend/app/ws/publisher.py:78-155 | in every run that publishes in build order, every subscribed queue holds strictly increasing sequence numbers of its own session |
| Publisher.RunPublisher | backend/app/ws/publisher.py:78-155 | driving the publisher through any run of joins, leaves, builds, publications, emissions and drains gives the specified replies and state |

## Left out

- StudentSignals.StudentSignalWorker.RunCapture: the order among different labels of the signals returned by one finish or flush is label order here and candidate-creation order in the source; order within a label is exact.
- LectureVision.VisionWorker.FlushAll: the order among different conditions, for the same reason; the `confidence` and detector version constants of an event.
- Recovery.PrivateRecoveryService.CreateJob: calls are serial, as the execution lock makes them; the session record a provider reads beside the window is identified with the session id, because its title never changes; the `|`-joined retry key is a triple; the base service's refusal of course professors, which a student account cannot reach, is omitted; notifications and the token counts and labels of ledger entries are not modelled.
- ReviewState.RecommendationService.Generate: the report, the excerpts and the stored run of one call see the same transcript and records.
- ZoomStream.OneStreamPerSession: the slot and its tasks are values of a state machine, not objects updated in place; this invariant is about lifecycle handlers that run one at a time and a `stop()` that does not raise, while who holds the slot is proved for overlapping handlers too (`SlotFollowsHistory`); the interplay of several sessions, webhook signatures, settings and status texts are not modelled.
- Publisher.QueuesRise: publishing from several threads at once.
- ProfessorMetrics.RunMetrics: the notifications, timestamps and recovery eligibility that ingestion also returns; who is a member, a student or the owner is part of each operation.
- Floating point: confidences, yaws, overlaps and ratios are exact reals, so rounding at a threshold is not captured.
- Text: whitespace collapsing, evidence normalisation and the forbidden-inference search are arbitrary functions; the Unicode and regular-expression libraries behind them are not part of this model.
- Cameras, frame erasure, model inference and latency clocks: a frame is a well-formedness bit, an observation or a failure, and a latency.
- The Mongo repository, Dropbox, OpenAI, Muse and WebSocket transports, and request parsing: inputs are taken as already validated.
- Account, course, lecture and enrolment records, join codes, demo orchestration, cost illustration and the desktop client: they would only add easy members.
