/** Whole runs of the suggestion service over records that are registered, ingested,
    withdrawn and corrected in between: how often a run is stored, what its evidence
    quotes, and which run a review is about. */
module ReviewRuns {
  import opened Common
  import Transcript
  import Metrics
  import PM = ProfessorMetrics
  import opened ReviewState

  /** What happens to the service and to the records it reads. */
  datatype Action =
    | Measure(operation: PM.Operation)
    | ChangeConsent(professor: string, isMember: bool, session: string, provider: string, allowed: bool)
    | Generate(isProfessor: bool, membership: Option<PM.Role>, actor: string, session: string)
    | Review(isProfessor: bool, membership: Option<PM.Role>, review: ReviewKey, verdict: Verdict)
    | Delete(session: string)

  datatype Reply =
    | Measured(reply: PM.Reply)
    | Changed(result: Result<(), Error>)
    | Answered(answer: Result<Outcome, Error>)
    | Noted(verdict: Result<Verdict, Error>)
    | Deleted

  datatype World = World(records: PM.Records, shelf: Shelf)

  // ------------------------------------------------------------ what a run is

  /** The key a generation is about, if its report is released and available. */
  ghost function KeyAt(u: Setup, w: World, action: Action): Option<RunKey> {
    match action
    case Generate(isProfessor, membership, actor, session) =>
      KeyOf(u, w.records, isProfessor, membership, actor, session)
    case _ => None
  }

  /** What the service answers. */
  ghost predicate Answers(u: Setup, w: World, action: Action, o: Reply) {
    match action
    case Measure(_) => o.Measured?
    case ChangeConsent(professor, isMember, session, provider, allowed) =>
      o == Changed(ConsentChanged(u, w.shelf, professor, isMember, session, provider, allowed).1)
    case Generate(isProfessor, membership, actor, session) =>
      o.Answered? && GenerateAnswer(u, w.shelf, w.records, isProfessor, membership, actor, session, o.answer)
    case Review(isProfessor, membership, review, verdict) =>
      o == Noted(ReviewAnswer(u, w.shelf, w.records, isProfessor, membership, review, verdict))
    case Delete(_) => o == Deleted
  }

  /** What the service keeps. */
  function Keeps(u: Setup, s: Shelf, action: Action, key: Option<RunKey>, o: Reply): Shelf {
    match action
    case Measure(_) => s
    case ChangeConsent(professor, isMember, session, provider, allowed) =>
      ConsentChanged(u, s, professor, isMember, session, provider, allowed).0
    case Generate(_, _, _, _) => if o.Answered? then Kept(s, key, o.answer) else s
    case Review(_, _, review, _) => if o.Noted? then Judged(s, review, o.verdict) else s
    case Delete(session) => Erased(s, session)
  }

  /** What the action does to the records, and what an operation on them replies. */
  ghost predicate Measures(u: Setup, limits: Transcript.Limits, r: PM.Records, action: Action, o: Reply,
                           after: PM.Records) {
    match action
    case Measure(op) =>
      && o.Measured? && PM.Replies(u.metrics, limits, r, op, o.reply)
      && after == PM.Next(u.metrics, limits, r, op)
    case Delete(session) => after == PM.Forgotten(r, session)
    case _ => after == r
  }

  /** What a run is made of: the worlds before, between and after its actions, and the
      key that each action generates for, if it does. */
  datatype Trace = Trace(setup: Setup, limits: Transcript.Limits, worlds: seq<World>, actions: seq<Action>,
                         keys: seq<Option<RunKey>>, replies: seq<Reply>)

  predicate IsShaped(t: Trace) {
    |t.replies| == |t.keys| == |t.actions| && |t.worlds| == |t.actions| + 1
  }

  /** The service answers from the world it meets and keeps what follows. */
  ghost predicate ServedAt(t: Trace, i: nat) {
    && IsShaped(t) && i < |t.actions|
    && t.keys[i] == KeyAt(t.setup, t.worlds[i], t.actions[i])
    && Answers(t.setup, t.worlds[i], t.actions[i], t.replies[i])
    && t.worlds[i + 1].shelf == Keeps(t.setup, t.worlds[i].shelf, t.actions[i], t.keys[i], t.replies[i])
  }

  ghost predicate MeasuredAt(t: Trace, i: nat) {
    && IsShaped(t) && i < |t.actions|
    && Measures(t.setup, t.limits, t.worlds[i].records, t.actions[i], t.replies[i], t.worlds[i + 1].records)
  }

  /** The service's part of a run: between its actions the records may be anything. */
  ghost predicate IsServed(t: Trace) {
    IsShaped(t) && forall i :: 0 <= i < |t.actions| ==> ServedAt(t, i)
  }

  /** A run: the records, too, are what the actions make of them. */
  ghost predicate IsRun(t: Trace) {
    IsServed(t) && forall i :: 0 <= i < |t.actions| ==> MeasuredAt(t, i)
  }

  /** Delivery intervals are validated to be non-empty. */
  predicate IsProper(action: Action) { action.Measure? ==> PM.IsProper(action.operation) }

  // ---------------------------------------------------- what the shelf goes through

  /** A new answer is stored within capacity for the first time, or a transcript run over
      an intervals-only one. */
  predicate IsUpgrade(u: Setup, s: Shelf, key: Option<RunKey>, o: Reply) {
    key.Some? && o.Answered? && o.answer.Ok? && o.answer.value.Generated?
    && Get(s.runs, key.value) != Some(o.answer.value.run) ==>
      if key.value in s.runs
      then s.runs[key.value].scope.IntervalsOnly? && o.answer.value.run.scope.LectureTranscript?
      else |s.runs| < u.maximumRecords
  }

  /** A verdict is accepted within capacity, for a suggestion of a stored run. */
  predicate IsPlaced(u: Setup, s: Shelf, action: Action, o: Reply) {
    action.Review? && o.Noted? && o.verdict.Ok? ==>
      action.review.run in s.runs && action.review.index < |s.runs[action.review.run].items|
      && |s.reviews| < u.maximumRecords
  }

  /** What a step does to the shelf, whatever the report and the draft. */
  predicate KeptAt(t: Trace, i: nat) {
    && IsShaped(t) && i < |t.actions|
    && t.worlds[i + 1].shelf == Keeps(t.setup, t.worlds[i].shelf, t.actions[i], t.keys[i], t.replies[i])
    && (t.keys[i].Some? ==> t.actions[i].Generate?) && IsUpgrade(t.setup, t.worlds[i].shelf, t.keys[i], t.replies[i])
    && IsPlaced(t.setup, t.worlds[i].shelf, t.actions[i], t.replies[i])
  }

  predicate IsKept(t: Trace) { IsShaped(t) && forall i :: 0 <= i < |t.actions| ==> KeptAt(t, i) }

  lemma ServedIsKept(t: Trace)
    requires IsServed(t)
    ensures IsKept(t)
  {
    hide Sees, IsGenerated, PM.ReportFor, Attempt, Keeps;
    forall i | 0 <= i < |t.actions| ensures KeptAt(t, i) {
      var w, action, o := t.worlds[i], t.actions[i], t.replies[i];
      assert ServedAt(t, i);
      if action.Generate? && t.keys[i].Some? && o.answer.Ok? {
        var key := t.keys[i].value;
        var view :| Sees(t.setup, w.shelf, action.actor, action.session, key.revision,
                         PM.DataOf(w.records, action.session).chunks, view)
            && IsGenerated(t.setup, w.shelf, key, view, o.answer);
        GeneratingStores(t.setup, w.shelf, key, view, o.answer);
      }
    }
  }

  lemma StepKeepsSound(t: Trace, i: nat)
    requires KeptAt(t, i) && Sound(t.setup, t.worlds[i].shelf)
    ensures Sound(t.setup, t.worlds[i + 1].shelf)
  {
    hide ReviewsBut, Elsewhere, ReviewsElsewhere;
    var s, action, o := t.worlds[i].shelf, t.actions[i], t.replies[i];
    if action.Generate? && o.Answered? && o.answer.Ok? && o.answer.value.Generated? && t.keys[i].Some? {
      DroppingReviews(s.reviews, s.runs, t.keys[i].value, o.answer.value.run);
    }
    if action.Delete? { DeletingKeeps(t.setup, s, action.session); }
  }

  /** Over whole runs reviews point inside stored runs and both stores stay within capacity. */
  lemma {:induction false} KeptIsSound(t: Trace, n: nat)
    requires IsKept(t) && Sound(t.setup, t.worlds[0].shelf) && n <= |t.actions|
    ensures Sound(t.setup, t.worlds[n].shelf)
  {
    hide KeptAt, Sound;
    if n > 0 {
      KeptIsSound(t, n - 1);
      StepKeepsSound(t, n - 1);
    }
  }

  // -------------------------------------------------- how often a run is stored

  /** The run that a generation for this key answered, if action `i` is one. */
  function AnswerFor(t: Trace, key: RunKey, i: nat): Option<Run> {
    if i < |t.keys| == |t.replies| && t.keys[i] == Some(key) && t.replies[i].Answered?
       && t.replies[i].answer.Ok? && t.replies[i].answer.value.Generated?
    then Some(t.replies[i].answer.value.run)
    else None
  }

  predicate DeletesKey(action: Action, key: RunKey) { action.Delete? && action.session == key.session }

  /** The run answered last for this key since its session was last deleted. */
  function Shown(t: Trace, key: RunKey, n: nat): Option<Run> {
    if n == 0 || n > |t.actions| || DeletesKey(t.actions[n - 1], key) then None
    else if AnswerFor(t, key, n - 1).Some? then AnswerFor(t, key, n - 1)
    else Shown(t, key, n - 1)
  }

  /** How many different runs in a row were answered for this key since then. */
  function Stores(t: Trace, key: RunKey, n: nat): nat {
    if n == 0 || n > |t.actions| || DeletesKey(t.actions[n - 1], key) then 0
    else
      var run := AnswerFor(t, key, n - 1);
      Stores(t, key, n - 1) + if run.Some? && run != Shown(t, key, n - 1) then 1 else 0
  }

  /** One action on what is stored under a key: it is what was answered last. */
  lemma StepShows(t: Trace, key: RunKey, n: nat)
    requires IsKept(t) && 0 < n <= |t.actions|
    ensures Get(t.worlds[n].shelf.runs, key)
            == (if DeletesKey(t.actions[n - 1], key) then None
                else if AnswerFor(t, key, n - 1).Some? then AnswerFor(t, key, n - 1)
                else Get(t.worlds[n - 1].shelf.runs, key))
  {
    hide ReviewsBut;
    assert KeptAt(t, n - 1);
  }

  lemma {:induction false} KeptTwiceAtMost(t: Trace, key: RunKey, n: nat)
    requires IsKept(t) && key !in t.worlds[0].shelf.runs && n <= |t.actions|
    ensures Get(t.worlds[n].shelf.runs, key) == Shown(t, key, n)
    ensures Stores(t, key, n) <= (if Shown(t, key, n).None? then 0
                                  else if Shown(t, key, n).value.scope.IntervalsOnly? then 1 else 2)
  {
    hide Keeps;
    if n > 0 {
      KeptTwiceAtMost(t, key, n - 1);
      StepShows(t, key, n);
      assert KeptAt(t, n - 1);
    }
  }

  /** At most two runs of one report are stored between deletions, the second one only
      because the transcript may now be analyzed; what is stored is what was answered
      last. */
  lemma StoredTwiceAtMost(t: Trace, key: RunKey, n: nat)
    requires IsServed(t) && key !in t.worlds[0].shelf.runs && n <= |t.actions|
    ensures Get(t.worlds[n].shelf.runs, key) == Shown(t, key, n)
    ensures Stores(t, key, n) <= (if Shown(t, key, n).None? then 0
                                  else if Shown(t, key, n).value.scope.IntervalsOnly? then 1 else 2)
  {
    hide ServedAt, KeptAt;
    ServedIsKept(t);
    KeptTwiceAtMost(t, key, n);
  }

  // ------------------------------------------------------------------- grounding

  /** The run was made from the report and transcript of an earlier generation of the key. */
  ghost predicate IsGrounded(t: Trace, key: RunKey, run: Run, n: nat) {
    && IsShaped(t) && n <= |t.actions|
    && exists j :: 0 <= j < n && AnswerFor(t, key, j) == Some(run)
                   && IsWellMade(t.setup, key.revision,
                                 PM.DataOf(t.worlds[j].records, key.session).chunks, run)
  }

  /** A generation answers the stored run or one grounded in the transcript as it is. */
  lemma AnswerGrounded(u: Setup, s: Shelf, records: PM.Records, isProfessor: bool, membership: Option<PM.Role>,
                       actor: string, session: string, r: Result<Outcome, Error>)
    requires PM.AllUnique(records.chunks)
    requires GenerateAnswer(u, s, records, isProfessor, membership, actor, session, r)
    requires KeyOf(u, records, isProfessor, membership, actor, session).Some? && r.Ok?
    ensures r.value.Generated?
    ensures var key := KeyOf(u, records, isProfessor, membership, actor, session).value;
            Get(s.runs, key) == Some(r.value.run)
            || IsWellMade(u, key.revision, PM.DataOf(records, session).chunks, r.value.run)
  {
    hide Sees, IsGenerated, IsWellMade, Attempt, PM.AllUnique, Metrics.ReportOf, Transcript.UniqueIds;
    var key := KeyOf(u, records, isProfessor, membership, actor, session).value;
    var d := PM.DataOf(records, session);
    var view :| Sees(u, s, actor, session, key.revision, d.chunks, view) && IsGenerated(u, s, key, view, r);
    GeneratingStores(u, s, key, view, r);
    if Get(s.runs, key) != Some(r.value.run) {
      UniqueAt(records.chunks, session);
      NewRunWellMade(u, s, d, actor, key.revision, view);
    }
  }

  lemma AnswerIsGrounded(t: Trace, key: RunKey, i: nat)
    requires IsServed(t) && i < |t.actions|
    ensures AnswerFor(t, key, i).Some? && PM.AllUnique(t.worlds[i].records.chunks) ==>
              var run := AnswerFor(t, key, i).value;
              Get(t.worlds[i].shelf.runs, key) == Some(run)
              || IsWellMade(t.setup, key.revision, PM.DataOf(t.worlds[i].records, key.session).chunks, run)
  {
    hide GenerateAnswer, PM.Sound, Sound, IsWellMade, PM.AllUnique, PM.ReportFor, PM.DataOf;
    var w, action, o := t.worlds[i], t.actions[i], t.replies[i];
    assert ServedAt(t, i);
    if AnswerFor(t, key, i).Some? && PM.AllUnique(w.records.chunks) {
      AnswerGrounded(t.setup, w.shelf, w.records, action.isProfessor, action.membership, action.actor, action.session,
                     o.answer);
    }
  }

  lemma UniqueAt(chunks: map<string, seq<Transcript.Chunk>>, session: string)
    requires PM.AllUnique(chunks)
    ensures Transcript.UniqueIds(Transcript.ChunksOf(chunks, session))
  {
  }

  /** In every run of a service that starts without runs, every run that is stored or
      answered was made by a generation: it is exactly what is kept of a draft for the
      report and the transcript at the time, says nothing forbidden, and that transcript
      grounds all of its evidence, whatever happens to the records in between, as long as
      chunk ids stay unique, which every operation on them sees to. */
  lemma {:induction false} EveryRunIsGrounded(t: Trace, key: RunKey, n: nat)
    requires IsServed(t) && t.worlds[0].shelf.runs == map[] && n <= |t.actions|
    requires forall i :: 0 <= i < |t.worlds| ==> PM.AllUnique(t.worlds[i].records.chunks)
    ensures Shown(t, key, n).Some? ==> IsGrounded(t, key, Shown(t, key, n).value, n)
    ensures n < |t.actions| && AnswerFor(t, key, n).Some? ==> IsGrounded(t, key, AnswerFor(t, key, n).value, n + 1)
  {
    hide ServedAt, MeasuredAt, PM.AllUnique, IsWellMade, AnswerFor;
    if n > 0 {
      EveryRunIsGrounded(t, key, n - 1);
      if Shown(t, key, n).Some? && AnswerFor(t, key, n - 1).None? {
        GroundedLater(t, key, Shown(t, key, n).value, n - 1);
      }
    }
    if n < |t.actions| && AnswerFor(t, key, n).Some? {
      var run := AnswerFor(t, key, n).value;
      StoredTwiceAtMost(t, key, n);
      AnswerIsGrounded(t, key, n);
      if Shown(t, key, n) == Some(run) { GroundedLater(t, key, run, n); }
    }
  }

  lemma GroundedLater(t: Trace, key: RunKey, run: Run, n: nat)
    requires IsShaped(t) && n < |t.actions| && IsGrounded(t, key, run, n)
    ensures IsGrounded(t, key, run, n + 1)
  {
    hide IsWellMade, AnswerFor;
  }

  // ---------------------------------------------- when the transcript is looked at

  /** The professor allowed the live provider in the session, within capacity. */
  predicate Allows(action: Action, o: Reply, professor: string, session: string) {
    && action.ChangeConsent? && action.professor == professor && action.session == session
    && action.provider == "openai" && action.isMember && action.allowed && o == Changed(Ok(()))
  }

  /** The professor took it back, or the session was deleted. */
  predicate Disallows(action: Action, professor: string, session: string) {
    || (action.Delete? && action.session == session)
    || (action.ChangeConsent? && action.professor == professor && action.session == session
        && action.provider == "openai" && action.isMember && !action.allowed)
  }

  /** Allowed before action `n` and not taken back since. */
  predicate HasAllowed(t: Trace, professor: string, session: string, n: nat) {
    && IsShaped(t) && n <= |t.actions|
    && exists g :: 0 <= g < n && Allows(t.actions[g], t.replies[g], professor, session)
                   && forall k :: g < k < n ==> !Disallows(t.actions[k], professor, session)
  }

  lemma StepAllows(t: Trace, professor: string, session: string, n: nat)
    requires IsKept(t) && n < |t.actions| && Answers(t.setup, t.worlds[n], t.actions[n], t.replies[n])
    ensures (session, professor, "openai") in t.worlds[n + 1].shelf.consent <==>
        Allows(t.actions[n], t.replies[n], professor, session)
        || ((session, professor, "openai") in t.worlds[n].shelf.consent
            && !Disallows(t.actions[n], professor, session))
  {
    hide GenerateAnswer, ReviewAnswer, ReviewsBut, Elsewhere, ReviewsElsewhere;
    assert KeptAt(t, n);
  }

  /** The live provider may read exactly while the professor has allowed it. */
  lemma {:induction false} ConsentFollows(t: Trace, professor: string, session: string, n: nat)
    requires IsServed(t) && t.worlds[0].shelf.consent == {} && n <= |t.actions|
    ensures (session, professor, "openai") in t.worlds[n].shelf.consent <==> HasAllowed(t, professor, session, n)
  {
    hide ServedAt, KeptAt, Allows, Disallows, Answers;
    if n > 0 {
      ConsentFollows(t, professor, session, n - 1);
      ServedIsKept(t);
      ServedAnswers(t, n - 1);
      StepAllows(t, professor, session, n - 1);
    }
  }

  lemma ServedAnswers(t: Trace, i: nat)
    requires ServedAt(t, i)
    ensures Answers(t.setup, t.worlds[i], t.actions[i], t.replies[i])
  {
  }

  /** A run that is newly made looks at the transcript exactly when transcript analysis is
      on, the professor has allowed the live provider by then if it is one, and the
      released hotspots have text; no other run is made from lecture text. */
  lemma TranscriptReadExactly(t: Trace, key: RunKey, i: nat)
    requires IsServed(t) && t.worlds[0].shelf.consent == {} && i < |t.actions| && AnswerFor(t, key, i).Some?
    requires Get(t.worlds[i].shelf.runs, key) != AnswerFor(t, key, i)
    ensures var u, run := t.setup, AnswerFor(t, key, i).value;
            var isAllowed := u.mode.Mock? || HasAllowed(t, key.professor, key.session, i);
            var hasText := HasReadableText(u, key.revision, PM.DataOf(t.worlds[i].records, key.session).chunks);
            && (run.scope.LectureTranscript? <==> u.readsTranscript && isAllowed && hasText)
            && run.note == if !u.readsTranscript || run.scope.LectureTranscript? then None
                           else if !isAllowed then Some(ConsentRequired) else Some(NoTranscript)
  {
    hide Sees, IsGenerated, Attempt, HasReadableText, PM.ReportFor, HasAllowed, Keeps;
    var w, action, o := t.worlds[i], t.actions[i], t.replies[i];
    assert ServedAt(t, i);
    var chunks := PM.DataOf(w.records, action.session).chunks;
    var view :| Sees(t.setup, w.shelf, action.actor, action.session, key.revision, chunks, view)
        && IsGenerated(t.setup, w.shelf, key, view, o.answer);
    GeneratingStores(t.setup, w.shelf, key, view, o.answer);
    AttemptNotes(t.setup, key.revision, view);
    ScopeExactly(t.setup, w.shelf, action.actor, action.session, key.revision, chunks, view);
    ConsentFollows(t, action.actor, action.session, i);
  }

  lemma AttemptNotes(u: Setup, report: Metrics.Report, view: View)
    ensures var r := Attempt(u, report, view); r.Ok? ==> r.value.scope == view.scope && r.value.note == view.note
  {
    AttemptExactly(u, report, view);
  }

  // --------------------------------------------------------------------- reviews

  /** The verdict was given on the run that is stored now, and nothing was stored over
      it or deleted since. */
  ghost predicate IsReviewed(t: Trace, k: ReviewKey, verdict: Verdict, n: nat) {
    && IsShaped(t) && n <= |t.actions|
    && exists i :: 0 <= i < n && GivenAt(t, k, verdict, i)
                   && forall j :: i <= j <= n ==>
                       Get(t.worlds[j].shelf.runs, k.run) == Get(t.worlds[n].shelf.runs, k.run)
  }

  predicate GivenAt(t: Trace, k: ReviewKey, verdict: Verdict, i: nat) {
    && i < |t.actions| == |t.replies|
    && t.actions[i].Review? && t.actions[i].review == k && t.replies[i] == Noted(Ok(verdict))
  }

  /** A review that is kept by an action was there before it or is given by it, and its
      run is the one stored before. */
  lemma StepReviews(t: Trace, k: ReviewKey, n: nat)
    requires IsKept(t) && 0 < n <= |t.actions|
    ensures var before, after := t.worlds[n - 1].shelf, t.worlds[n].shelf;
            k in after.reviews ==>
              && Get(before.runs, k.run) == Get(after.runs, k.run)
              && (GivenAt(t, k, after.reviews[k], n - 1) || Get(before.reviews, k) == Some(after.reviews[k]))
  {
    assert KeptAt(t, n - 1);
  }

  lemma {:induction false} KeptReviews(t: Trace, k: ReviewKey, n: nat)
    requires IsKept(t) && t.worlds[0].shelf.reviews == map[] && n <= |t.actions|
    ensures k in t.worlds[n].shelf.reviews ==> IsReviewed(t, k, t.worlds[n].shelf.reviews[k], n)
  {
    hide KeptAt;
    if n > 0 && k in t.worlds[n].shelf.reviews {
      StepReviews(t, k, n);
      var verdict := t.worlds[n].shelf.reviews[k];
      if GivenAt(t, k, verdict, n - 1) {
        assert IsReviewed(t, k, verdict, n);
      } else {
        KeptReviews(t, k, n - 1);
        var i :| 0 <= i < n - 1 && GivenAt(t, k, verdict, i)
            && forall j :: i <= j <= n - 1 ==>
                Get(t.worlds[j].shelf.runs, k.run) == Get(t.worlds[n - 1].shelf.runs, k.run);
        assert GivenAt(t, k, verdict, i);
      }
    }
  }

  /** Every stored review is a verdict that was given, on the very run that is stored
      now: regenerating or deleting a run leaves none of its reviews behind. */
  lemma ReviewsAreOfStoredRuns(t: Trace, k: ReviewKey, n: nat)
    requires IsServed(t) && t.worlds[0].shelf.reviews == map[] && n <= |t.actions|
    ensures k in t.worlds[n].shelf.reviews ==> IsReviewed(t, k, t.worlds[n].shelf.reviews[k], n)
  {
    hide ServedAt, KeptAt;
    ServedIsKept(t);
    KeptReviews(t, k, n);
  }

  // ------------------------------------------------------------ driving a service

  /** Drive a service and the records it reads through a run: every reply follows from
      the world it met, and every world is the specified one. */
  method RunReviews(service: RecommendationService, actions: seq<Action>)
    returns (replies: seq<Reply>, ghost worlds: seq<World>, ghost keys: seq<Option<RunKey>>)
    requires service.Valid() && PM.AllUnique(service.metrics.transcripts.chunks)
    requires forall i :: 0 <= i < |actions| ==> IsProper(actions[i])
    modifies service, service.metrics, service.metrics.transcripts
    ensures service.Valid()
    ensures IsRun(Trace(service.setup, service.metrics.transcripts.limits, worlds, actions, keys, replies))
    ensures worlds[0] == old(World(service.metrics.State(), service.State()))
    ensures worlds[|actions|] == World(service.metrics.State(), service.State())
    ensures forall i :: 0 <= i < |worlds| ==> PM.AllUnique(worlds[i].records.chunks)
  {
    hide PM.Sound, Sound, PM.AllUnique, ServedAt, MeasuredAt, IsProper;
    ghost var u, limits := service.setup, service.metrics.transcripts.limits;
    replies, worlds, keys := [], [World(service.metrics.State(), service.State())], [];
    for i := 0 to |actions|
      invariant service.Valid() && PM.AllUnique(service.metrics.transcripts.chunks)
      invariant IsRun(Trace(u, limits, worlds, actions[..i], keys, replies)) && |actions[..i]| == i
      invariant worlds[0] == old(World(service.metrics.State(), service.State()))
      invariant worlds[i] == World(service.metrics.State(), service.State())
      invariant forall k :: 0 <= k < |worlds| ==> PM.AllUnique(worlds[k].records.chunks)
    {
      ghost var key: Option<RunKey>;
      var reply: Reply;
      reply, key := Perform(service, actions[i]);
      ghost var now := World(service.metrics.State(), service.State());
      RunExtends(Trace(u, limits, worlds, actions[..i], keys, replies), actions[i], reply, now);
      assert actions[..i + 1] == actions[..i] + [actions[i]];
      replies, worlds, keys := replies + [reply], worlds + [now], keys + [key];
    }
    assert actions[..|actions|] == actions;
  }

  /** One action on the service. */
  method Perform(service: RecommendationService, action: Action) returns (reply: Reply, ghost key: Option<RunKey>)
    requires service.Valid() && PM.AllUnique(service.metrics.transcripts.chunks) && IsProper(action)
    modifies service, service.metrics, service.metrics.transcripts
    ensures service.Valid() && PM.AllUnique(service.metrics.transcripts.chunks)
    ensures key == KeyAt(service.setup, old(World(service.metrics.State(), service.State())), action)
    ensures Answers(service.setup, old(World(service.metrics.State(), service.State())), action, reply)
    ensures service.State() == Keeps(service.setup, old(service.State()), action, key, reply)
    ensures Measures(service.setup, service.metrics.transcripts.limits, old(service.metrics.State()), action, reply,
                     service.metrics.State())
  {
    hide PM.Sound, Sound, PM.AllUnique, PM.Next, PM.Replies, PM.Forgotten, GenerateAnswer, KeyOf, Kept, ReviewAnswer,
        Judged, ConsentChanged, Erased;
    key := KeyAt(service.setup, World(service.metrics.State(), service.State()), action);
    match action {
      case Measure(op) =>
        var r := PerformMeasure(service, op);
        reply := Measured(r);
      case ChangeConsent(professor, isMember, session, provider, allowed) =>
        var r := service.UpdateConsent(professor, isMember, session, provider, allowed);
        reply := Changed(r);
      case Generate(isProfessor, membership, actor, session) =>
        var r := service.Generate(isProfessor, membership, actor, session);
        reply := Answered(r);
      case Review(isProfessor, membership, review, verdict) =>
        var r := service.Review(isProfessor, membership, review, verdict);
        reply := Noted(r);
      case Delete(session) =>
        service.DeleteSession(session);
        reply := Deleted;
    }
  }

  /** One operation on the records the service reads. */
  method PerformMeasure(service: RecommendationService, op: PM.Operation) returns (reply: PM.Reply)
    requires service.Valid() && PM.AllUnique(service.metrics.transcripts.chunks) && PM.IsProper(op)
    modifies service.metrics, service.metrics.transcripts
    ensures service.Valid() && PM.AllUnique(service.metrics.transcripts.chunks)
    ensures service.State() == old(service.State())
    ensures PM.Replies(service.setup.metrics, service.metrics.transcripts.limits, old(service.metrics.State()), op,
                       reply)
    ensures service.metrics.State()
            == PM.Next(service.setup.metrics, service.metrics.transcripts.limits, old(service.metrics.State()), op)
  {
    hide PM.Sound, Sound, PM.AllUnique, PM.Next, PM.Replies;
    PM.StepKeepsSound(service.setup.metrics, service.metrics.transcripts.limits, service.metrics.State(), op);
    PM.StepKeepsUnique(service.setup.metrics, service.metrics.transcripts.limits, service.metrics.State(), op);
    match op {
      case Transcribe(ingestion) => reply := PM.PerformTranscription(service.metrics, ingestion);
      case _ => reply := PM.Perform(service.metrics, op);
    }
  }

  /** A run goes on with one more step that follows from where it is. */
  lemma RunExtends(t: Trace, action: Action, o: Reply, w: World)
    requires IsRun(t)
    ensures var here := t.worlds[|t.actions|];
            var key := KeyAt(t.setup, here, action);
            Answers(t.setup, here, action, o) && w.shelf == Keeps(t.setup, here.shelf, action, key, o)
            && Measures(t.setup, t.limits, here.records, action, o, w.records) ==>
              IsRun(t.(worlds := t.worlds + [w], actions := t.actions + [action], keys := t.keys + [key],
                       replies := t.replies + [o]))
  {
    hide Answers, Keeps, Measures, KeyAt;
    var n, here := |t.actions|, t.worlds[|t.actions|];
    var key := KeyAt(t.setup, here, action);
    var longer := t.(worlds := t.worlds + [w], actions := t.actions + [action], keys := t.keys + [key],
                     replies := t.replies + [o]);
    if Answers(t.setup, here, action, o) && w.shelf == Keeps(t.setup, here.shelf, action, key, o)
       && Measures(t.setup, t.limits, here.records, action, o, w.records) {
      forall i | 0 <= i < |longer.actions| ensures ServedAt(longer, i) && MeasuredAt(longer, i) {
        assert i < n ==> ServedAt(t, i) && MeasuredAt(t, i);
      }
    }
  }
}
