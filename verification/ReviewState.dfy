/** Stored recommendation runs and the reviews of their suggestions: a run is keyed by
    the exact report it was generated from, and reviews point inside stored runs. */
module ReviewState {
  import opened Common
  import Transcript
  import Metrics
  import PM = ProfessorMetrics
  import opened Recommendations

  datatype Scope = IntervalsOnly | LectureTranscript

  datatype Note = ConsentRequired | NoTranscript

  datatype Mode = Mock | Live

  datatype Run = Run(mode: Mode, scope: Scope, note: Option<Note>, items: seq<Recommendation>)

  /** Session, professor and the report itself: its digest is an injective name for it. */
  datatype RunKey = RunKey(session: string, professor: string, revision: Metrics.Report)

  datatype ReviewKey = ReviewKey(run: RunKey, index: nat)

  datatype Verdict = Reviewed | Dismissed | Resolved

  datatype Error = Report(error: PM.Error) | Provider | MalformedDraft | CapacityReached | Stale | NotFound

  /** A stored run, or why there is none, with the reviews of its suggestions. */
  datatype Outcome = InsufficientEvidence | Generated(run: Run, reviews: map<nat, Verdict>)

  /** A provider: its draft for a report and excerpts, or a typed failure. */
  type Provider = (Metrics.Report, seq<Excerpt>) -> Option<seq<Recommendation>>

  const LIVE_PROVIDER := "openai"
  const OBSERVATION := "Some students may have missed context during this interval."
  const ACTION := "Offer an optional recap and invite clarification."

  /** The local suggestions made without excerpts: one per hotspot, timing only. */
  function LocalItems(hotspots: seq<Metrics.Bucket>): seq<Recommendation> {
    if hotspots == [] then []
    else
      [Recommendation(hotspots[0].start, hotspots[0].end, OBSERVATION, ACTION, None, None, [])]
      + LocalItems(hotspots[1..])
  }

  function LocalDraft(report: Metrics.Report): seq<Recommendation> {
    Metrics.First(LocalItems(Hotspots(report.buckets)), 5)
  }

  lemma {:induction false} LocalItemsAllowed(hotspots: seq<Metrics.Bucket>, buckets: seq<Metrics.Bucket>)
    requires forall b :: b in hotspots ==> IsAllowed(buckets, b.start, b.end)
    ensures forall i :: 0 <= i < |LocalItems(hotspots)| ==>
        IsAllowed(buckets, LocalItems(hotspots)[i].start, LocalItems(hotspots)[i].end)
  {
    hide IsAllowed;
    if hotspots != [] { LocalItemsAllowed(hotspots[1..], buckets); }
  }

  /** The local suggestions are always about released intervals. */
  lemma LocalDraftAllowed(report: Metrics.Report)
    ensures forall i :: 0 <= i < |LocalDraft(report)| ==>
        IsAllowed(report.buckets, LocalDraft(report)[i].start, LocalDraft(report)[i].end)
  {
    HotspotsMembers(report.buckets);
    LocalItemsAllowed(Hotspots(report.buckets), report.buckets);
  }

  // ---------------------------------------------------------------- what is kept

  /** How a service is configured. */
  datatype Setup = Setup(metrics: PM.Setup, texts: Texts, provider: Provider, mode: Mode, readsTranscript: bool,
                         maximumRecords: nat)

  /** Consents, runs and reviews: a consent names a session, a professor and a provider. */
  datatype Shelf = Shelf(consent: set<(string, string, string)>, runs: map<RunKey, Run>,
                         reviews: map<ReviewKey, Verdict>)

  const NOTHING_KEPT := Shelf({}, map[], map[])

  ghost predicate ReviewsInside(reviews: map<ReviewKey, Verdict>, runs: map<RunKey, Run>) {
    forall k :: k in reviews ==> k.run in runs && k.index < |runs[k.run].items|
  }

  ghost predicate Sound(u: Setup, s: Shelf) {
    |s.runs| <= u.maximumRecords && |s.reviews| <= u.maximumRecords && ReviewsInside(s.reviews, s.runs)
  }

  /** What is stored for other runs, and for other sessions. */
  function ReviewsBut(reviews: map<ReviewKey, Verdict>, key: RunKey): map<ReviewKey, Verdict> {
    map k | k in reviews && k.run != key :: reviews[k]
  }

  function ReviewsElsewhere(reviews: map<ReviewKey, Verdict>, session: string): map<ReviewKey, Verdict> {
    map k | k in reviews && k.run.session != session :: reviews[k]
  }

  function Elsewhere<V>(m: map<RunKey, V>, session: string): map<RunKey, V> {
    map k | k in m && k.session != session :: m[k]
  }

  /** Erasing a session keeps reviews inside stored runs and within capacity. */
  lemma DeletingKeeps(u: Setup, s: Shelf, session: string)
    requires Sound(u, s)
    ensures Sound(u, Erased(s, session))
  {
    Metrics.SubsetSize(Elsewhere(s.runs, session).Keys, s.runs.Keys);
    Metrics.SubsetSize(ReviewsElsewhere(s.reviews, session).Keys, s.reviews.Keys);
  }

  lemma DroppingReviews(reviews: map<ReviewKey, Verdict>, runs: map<RunKey, Run>, key: RunKey, run: Run)
    requires ReviewsInside(reviews, runs)
    ensures ReviewsInside(ReviewsBut(reviews, key), runs[key := run]) && |ReviewsBut(reviews, key)| <= |reviews|
  {
    Metrics.SubsetSize(ReviewsBut(reviews, key).Keys, reviews.Keys);
  }

  /** The excerpts of a report are determined by its hotspots and the transcript. */
  lemma ExcerptsUnique(texts: Texts, buckets: seq<Metrics.Bucket>, chunks: seq<Transcript.Chunk>, a: seq<Excerpt>,
                       b: seq<Excerpt>)
    requires AreExcerpts(texts, buckets, chunks, a) && AreExcerpts(texts, buckets, chunks, b)
    ensures a == b
  {
    hide ReleasedHotspots, IsBudgeted, Transcript.SortChunks, Wanted;
    forall i | 0 <= i < |a| ensures a[i] == b[i] {
      var bucket := ReleasedHotspots(buckets)[i];
      assert IsExcerptFor(texts, bucket, chunks, a[i]) && IsExcerptFor(texts, bucket, chunks, b[i]);
      BudgetedUnique(texts.collapse, Transcript.SortChunks(Wanted(chunks, bucket.chunkIds)), EXCERPT_CHARACTER_LIMIT,
                     a[i].chunks, b[i].chunks);
    }
  }

  predicate HasText(excerpts: seq<Excerpt>) { exists i :: 0 <= i < |excerpts| && excerpts[i].chunks != [] }

  /** What a generation may look at: a scope, the excerpts that go with it, and a note. */
  datatype View = View(scope: Scope, excerpts: seq<Excerpt>, note: Option<Note>)

  predicate MayReadTranscript(u: Setup, s: Shelf, professor: string, session: string) {
    u.readsTranscript && (u.mode.Live? ==> (session, professor, LIVE_PROVIDER) in s.consent)
  }

  /** What the professor's generation sees: excerpts only in mock mode or with their
      own consent, and only when one of them has text; else intervals, and why. */
  ghost predicate Sees(u: Setup, s: Shelf, professor: string, session: string, report: Metrics.Report,
                       chunks: seq<Transcript.Chunk>, view: View) {
    if !u.readsTranscript then view == View(IntervalsOnly, [], None)
    else if !MayReadTranscript(u, s, professor, session) then view == View(IntervalsOnly, [], Some(ConsentRequired))
    else if view.scope.LectureTranscript? then
      AreExcerpts(u.texts, report.buckets, chunks, view.excerpts) && HasText(view.excerpts) && view.note == None
    else
      && view == View(IntervalsOnly, [], Some(NoTranscript))
      && exists excerpts :: AreExcerpts(u.texts, report.buckets, chunks, excerpts) && !HasText(excerpts)
  }

  /** It sees exactly one thing. */
  lemma SeesOneView(u: Setup, s: Shelf, professor: string, session: string, report: Metrics.Report,
                    chunks: seq<Transcript.Chunk>, a: View, b: View)
    requires Sees(u, s, professor, session, report, chunks, a) && Sees(u, s, professor, session, report, chunks, b)
    ensures a == b
  {
    hide AreExcerpts;
    if MayReadTranscript(u, s, professor, session) && (a.scope.LectureTranscript? || b.scope.LectureTranscript?) {
      var x := if a.scope.LectureTranscript? then a.excerpts else b.excerpts;
      assert AreExcerpts(u.texts, report.buckets, chunks, x);
      forall y | AreExcerpts(u.texts, report.buckets, chunks, y)
        ensures x == y
      {
        ExcerptsUnique(u.texts, report.buckets, chunks, x, y);
      }
    }
  }

  /** Some excerpt of the released hotspots has text. */
  ghost predicate HasReadableText(u: Setup, report: Metrics.Report, chunks: seq<Transcript.Chunk>) {
    exists excerpts :: AreExcerpts(u.texts, report.buckets, chunks, excerpts) && HasText(excerpts)
  }

  /** A generation looks at the transcript exactly when transcript analysis is on, the
      professor has allowed the live provider if it is one, and there is text to read;
      and it notes which of the last two was missing. */
  lemma ScopeExactly(u: Setup, s: Shelf, professor: string, session: string, report: Metrics.Report,
                     chunks: seq<Transcript.Chunk>, view: View)
    requires Sees(u, s, professor, session, report, chunks, view)
    ensures var isAllowed := u.mode.Mock? || (session, professor, "openai") in s.consent;
            && (view.scope.LectureTranscript? <==>
                  u.readsTranscript && isAllowed && HasReadableText(u, report, chunks))
            && view.note == if !u.readsTranscript || view.scope.LectureTranscript? then None
                            else if !isAllowed then Some(ConsentRequired) else Some(NoTranscript)
  {
    hide AreExcerpts, HasText;
    if view.scope.IntervalsOnly? && MayReadTranscript(u, s, professor, session) {
      var excerpts :| AreExcerpts(u.texts, report.buckets, chunks, excerpts) && !HasText(excerpts);
      forall other | AreExcerpts(u.texts, report.buckets, chunks, other) ensures !HasText(other) {
        ExcerptsUnique(u.texts, report.buckets, chunks, excerpts, other);
      }
    }
  }

  // -------------------------------------------------------------------- new runs

  /** Without transcript analysis a live provider is never called: the draft is local. */
  predicate IsLocal(u: Setup, view: View) { view.scope.IntervalsOnly? && u.mode.Live? }

  function DraftFor(u: Setup, report: Metrics.Report, view: View): Option<seq<Recommendation>> {
    if IsLocal(u, view) then Some(LocalDraft(report)) else u.provider(report, view.excerpts)
  }

  /** The run that this view of a report makes, or why it makes none. */
  function Attempt(u: Setup, report: Metrics.Report, view: View): Result<Run, Error> {
    var draft := DraftFor(u, report, view);
    if draft.None? then Err(Provider)
    else if exists i ::
        0 <= i < |draft.value| && !IsAllowed(report.buckets, draft.value[i].start, draft.value[i].end) then
            Err(MalformedDraft)
    else Ok(Run(if IsLocal(u, view) then Mock else u.mode, view.scope, view.note,
                KeptItems(u.texts, draft.value, view.excerpts)))
  }

  lemma AttemptScope(u: Setup, report: Metrics.Report, view: View)
    ensures Attempt(u, report, view).Ok? ==> Attempt(u, report, view).value.scope == view.scope
  {
    hide KeptItems, IsAllowed, LocalDraft;
  }

  /** A local draft never fails. */
  lemma LocalNeverFails(u: Setup, report: Metrics.Report, view: View)
    requires IsLocal(u, view)
    ensures Attempt(u, report, view).Ok?
  {
    LocalDraftAllowed(report);
  }

  /** One timing-only suggestion for each of the first five released hotspots. */
  ghost predicate IsLocalDraft(report: Metrics.Report, draft: seq<Recommendation>) {
    exists at ::
      && AreHotspots(report.buckets, at) && |draft| == Min(|at|, 5)
      && forall k :: 0 <= k < |draft| ==>
           at[k] < |report.buckets|
           && draft[k] == Recommendation(report.buckets[at[k]].start, report.buckets[at[k]].end,
                "Some students may have missed context during this interval.",
                "Offer an optional recap and invite clarification.", None, None, [])
  }

  lemma {:induction false} LocalItemsAre(hotspots: seq<Metrics.Bucket>)
    ensures |LocalItems(hotspots)| == |hotspots|
    ensures forall k :: 0 <= k < |hotspots| ==>
        LocalItems(hotspots)[k]
        == Recommendation(hotspots[k].start, hotspots[k].end, OBSERVATION, ACTION, None, None, [])
  {
    if hotspots != [] { LocalItemsAre(hotspots[1..]); }
  }

  lemma LocalDraftExactly(report: Metrics.Report)
    ensures IsLocalDraft(report, LocalDraft(report))
  {
    hide AreHotspots;
    var at := HotspotsAt(report.buckets);
    LocalItemsAre(Hotspots(report.buckets));
  }

  /** What a run is made of: the provider's draft for the report and the excerpts, or the
      local one, and of it exactly the suggestions to be kept. */
  ghost predicate IsMadeOf(u: Setup, report: Metrics.Report, excerpts: seq<Excerpt>, draft: seq<Recommendation>,
                           run: Run) {
    && (if run.scope.IntervalsOnly? && u.mode.Live? then IsLocalDraft(report, draft) && run.mode.Mock?
        else u.provider(report, excerpts) == Some(draft) && run.mode == u.mode)
    && (forall item :: item in draft ==> IsAllowed(report.buckets, item.start, item.end))
    && AreKept(u.texts, excerpts, draft, run.items)
  }

  /** Making a run fails exactly when the provider does or when its draft mentions an
      interval that was not released; else the run is made of the draft. */
  lemma AttemptExactly(u: Setup, report: Metrics.Report, view: View)
    ensures var r := Attempt(u, report, view);
            var isLocal := view.scope.IntervalsOnly? && u.mode.Live?;
            var answer := u.provider(report, view.excerpts);
            match r
            case Err(Provider) => !isLocal && answer.None?
            case Err(MalformedDraft) =>
              && !isLocal && answer.Some?
              && exists item :: item in answer.value && !IsAllowed(report.buckets, item.start, item.end)
            case Err(_) => false
            case Ok(run) =>
              && run.scope == view.scope && run.note == view.note
              && exists draft :: IsMadeOf(u, report, view.excerpts, draft, run)
  {
    hide KeptItems, AreKept, IsAllowed, LocalDraft, IsLocalDraft;
    LocalDraftExactly(report);
    if IsLocal(u, view) { LocalNeverFails(u, report, view); }
    var draft := DraftFor(u, report, view);
    if draft.Some? {
      KeptExactly(u.texts, draft.value, view.excerpts);
      if Attempt(u, report, view).Ok? {
        forall item | item in draft.value ensures IsAllowed(report.buckets, item.start, item.end) {
          var i :| 0 <= i < |draft.value| && draft.value[i] == item;
        }
        assert IsMadeOf(u, report, view.excerpts, draft.value, Attempt(u, report, view).value);
      }
    }
  }

  /** The run says nothing forbidden, and it is exactly what is kept of a draft for the
      report and, with transcript scope, for its excerpts of the transcript. */
  ghost predicate RunValidated(u: Setup, report: Metrics.Report, chunks: seq<Transcript.Chunk>, run: Run) {
    && (forall item :: item in run.items ==> !u.texts.isForbidden(Said(item)))
    && exists excerpts, draft ::
         && (if run.scope.IntervalsOnly? then excerpts == []
             else AreExcerpts(u.texts, report.buckets, chunks, excerpts))
         && IsMadeOf(u, report, excerpts, draft, run)
  }

  lemma NewRunValidated(u: Setup, s: Shelf, d: Metrics.Data, professor: string, report: Metrics.Report, view: View)
    requires Sees(u, s, professor, d.session, report, d.chunks, view) && Attempt(u, report, view).Ok?
    ensures RunValidated(u, report, d.chunks, Attempt(u, report, view).value)
  {
    hide Attempt, AreExcerpts, IsAllowed, IsLocalDraft, AreKept;
    AttemptExactly(u, report, view);
    var run := Attempt(u, report, view).value;
    var draft :| IsMadeOf(u, report, view.excerpts, draft, run);
    NothingForbidden(u.texts, view.excerpts, draft, run.items);
  }

  /** Every surviving evidence item quotes the excerpts of the transcript the run was
      made from, and a run made from intervals alone claims nothing about content. */
  ghost predicate RunGrounded(texts: Texts, report: Metrics.Report, chunks: seq<Transcript.Chunk>, run: Run) {
    if run.scope.IntervalsOnly? then forall item :: item in run.items ==> !HasContentClaim(item)
    else exists excerpts ::
      AreExcerpts(texts, report.buckets, chunks, excerpts) && ItemsGrounded(texts, excerpts, chunks, run.items)
  }

  ghost predicate ItemsGrounded(texts: Texts, excerpts: seq<Excerpt>, chunks: seq<Transcript.Chunk>,
                                items: seq<Recommendation>) {
    forall item, fact :: item in items && fact in item.evidence ==> IsEvidence(texts, excerpts, chunks, item, fact)
  }

  /** A new run is grounded, whatever the provider drafted. */
  lemma NewRunGrounded(u: Setup, s: Shelf, d: Metrics.Data, professor: string, report: Metrics.Report, view: View)
    requires u.metrics.policy.Some? && Transcript.UniqueIds(d.chunks)
    requires report == Metrics.ReportOf(u.metrics.policy.value, d)
    requires Sees(u, s, professor, d.session, report, d.chunks, view) && Attempt(u, report, view).Ok?
    ensures RunGrounded(u.texts, report, d.chunks, Attempt(u, report, view).value)
  {
    hide KeptItems, AreExcerpts, IsEvidence, Transcript.UniqueIds, Metrics.ReportOf, IsAllowed, LocalDraft,
        HasContentClaim;
    var run, draft := Attempt(u, report, view).value, DraftFor(u, report, view).value;
    if run.scope.IntervalsOnly? {
      forall item | item in run.items ensures !HasContentClaim(item) { NoExcerptsNoClaims(u.texts, draft, item); }
    } else {
      forall item, fact | item in run.items && fact in item.evidence
        ensures IsEvidence(u.texts, view.excerpts, d.chunks, item, fact)
      {
        EndToEndGrounding(u.texts, u.metrics.policy.value, d, view.excerpts, draft, item, fact);
      }
      assert ItemsGrounded(u.texts, view.excerpts, d.chunks, run.items);
    }
  }

  /** A run is well made when it is validated and its evidence is grounded. */
  ghost predicate IsWellMade(u: Setup, report: Metrics.Report, chunks: seq<Transcript.Chunk>, run: Run) {
    RunValidated(u, report, chunks, run) && RunGrounded(u.texts, report, chunks, run)
  }

  lemma NewRunWellMade(u: Setup, s: Shelf, d: Metrics.Data, professor: string, report: Metrics.Report, view: View)
    requires u.metrics.policy.Some? && Transcript.UniqueIds(d.chunks)
    requires report == Metrics.ReportOf(u.metrics.policy.value, d)
    requires Sees(u, s, professor, d.session, report, d.chunks, view) && Attempt(u, report, view).Ok?
    ensures IsWellMade(u, report, d.chunks, Attempt(u, report, view).value)
  {
    hide Attempt, Sees, Metrics.ReportOf, Transcript.UniqueIds, RunValidated, RunGrounded;
    NewRunGrounded(u, s, d, professor, report, view);
    NewRunValidated(u, s, d, professor, report, view);
  }

  // ------------------------------------------------------------------ operations

  /** What generating from an available report answers, given what it sees: the stored
      run with its reviews, unless the transcript may now be analyzed and was not. */
  ghost predicate IsGenerated(u: Setup, s: Shelf, key: RunKey, view: View, r: Result<Outcome, Error>) {
    if key in s.runs && (s.runs[key].scope == view.scope || view.scope.IntervalsOnly?) then
      r == Ok(Generated(s.runs[key], ReviewsOf(s.reviews, key)))
    else if key !in s.runs && |s.runs| >= u.maximumRecords then r == Err(CapacityReached)
    else
      match Attempt(u, key.revision, view)
      case Err(e) => r == Err(e)
      case Ok(run) => r == Ok(Generated(run, map[]))
  }

  function ReviewsOf(reviews: map<ReviewKey, Verdict>, key: RunKey): map<nat, Verdict> {
    map k | k in reviews && k.run == key :: k.index := reviews[k]
  }

  ghost predicate GenerateAnswer(u: Setup, s: Shelf, records: PM.Records, isProfessor: bool,
                                 membership: Option<PM.Role>, actor: string, session: string,
                                 r: Result<Outcome, Error>)
  {
    var read := PM.ReportFor(u.metrics, records, isProfessor, membership, session);
    if read.Err? then r == Err(Report(read.error))
    else if !read.value.status.Available? then r == Ok(InsufficientEvidence)
    else
      exists view :: Sees(u, s, actor, session, read.value, PM.DataOf(records, session).chunks, view)
                     && IsGenerated(u, s, RunKey(session, actor, read.value), view, r)
  }

  /** The key a generation is about, when the report is released and available. */
  ghost function KeyOf(u: Setup, records: PM.Records, isProfessor: bool, membership: Option<PM.Role>, actor: string,
                       session: string): Option<RunKey>
  {
    var read := PM.ReportFor(u.metrics, records, isProfessor, membership, session);
    if read.Ok? && read.value.status.Available? then Some(RunKey(session, actor, read.value)) else None
  }

  /** A run that is answered and was not stored is stored, and the reviews of the run it
      replaces are dropped. */
  function Kept(s: Shelf, key: Option<RunKey>, r: Result<Outcome, Error>): Shelf {
    if key.Some? && r.Ok? && r.value.Generated? && Get(s.runs, key.value) != Some(r.value.run) then
      s.(runs := s.runs[key.value := r.value.run], reviews := ReviewsBut(s.reviews, key.value))
    else s
  }

  /** Feedback is accepted only for a suggestion of the stored run of the report as it
      is now. */
  ghost function ReviewAnswer(u: Setup, s: Shelf, records: PM.Records, isProfessor: bool, membership: Option<PM.Role>,
                              review: ReviewKey, verdict: Verdict): Result<Verdict, Error>
  {
    var read := PM.ReportFor(u.metrics, records, isProfessor, membership, review.run.session);
    if read.Err? then Err(Report(read.error))
    else if read.value != review.run.revision then Err(Stale)
    else if review.run !in s.runs || review.index >= |s.runs[review.run].items| then Err(NotFound)
    else if |s.reviews| >= u.maximumRecords then Err(CapacityReached)
    else Ok(verdict)
  }

  function Judged(s: Shelf, review: ReviewKey, r: Result<Verdict, Error>): Shelf {
    if r.Ok? then s.(reviews := s.reviews[review := r.value]) else s
  }

  /** A professor's permission for one provider, granted within capacity or revoked. */
  function ConsentChanged(u: Setup, s: Shelf, professor: string, isMember: bool, session: string, provider: string,
                          allowed: bool): (Shelf, Result<(), Error>) {
    if !isMember then (s, Err(Report(PM.NotAMember)))
    else if allowed && |s.consent| >= u.maximumRecords then (s, Err(CapacityReached))
    else
      (s.(consent := if allowed then s.consent + {(session, professor, provider)}
                     else s.consent - {(session, professor, provider)}), Ok(()))
  }

  function Erased(s: Shelf, session: string): Shelf {
    Shelf((set k | k in s.consent && k.0 != session), Elsewhere(s.runs, session), ReviewsElsewhere(s.reviews, session))
  }

  /** A run is stored for the first time, or a transcript run over an intervals-only one. */
  lemma GeneratingStores(u: Setup, s: Shelf, key: RunKey, view: View, r: Result<Outcome, Error>)
    requires IsGenerated(u, s, key, view, r) && r.Ok?
    ensures r.value.Generated?
    ensures Get(s.runs, key) == Some(r.value.run)
            || (Attempt(u, key.revision, view) == Ok(r.value.run) && r.value.run.scope == view.scope
                && (key in s.runs ==> s.runs[key].scope.IntervalsOnly? && view.scope.LectureTranscript?)
                && (key !in s.runs ==> |s.runs| < u.maximumRecords))
  {
    hide KeptItems, IsAllowed, LocalDraft;
  }

  /** Storing a run keeps reviews inside stored runs and within capacity. */
  lemma StoringKeeps(u: Setup, s: Shelf, key: RunKey, view: View, r: Result<Outcome, Error>)
    requires Sound(u, s) && IsGenerated(u, s, key, view, r)
    ensures Sound(u, Kept(s, Some(key), r))
  {
    hide Attempt;
    if r.Ok? {
      GeneratingStores(u, s, key, view, r);
      DroppingReviews(s.reviews, s.runs, key, r.value.run);
    }
  }

  class RecommendationService {
    const setup: Setup
    const metrics: PM.ProfessorMetricsService
    var consent: set<(string, string, string)>
    var runs: map<RunKey, Run>
    var reviews: map<ReviewKey, Verdict>

    function State(): Shelf
      reads this
    {
      Shelf(consent, runs, reviews)
    }

    ghost predicate Valid()
      reads this, metrics, metrics.transcripts
    {
      setup.metrics == metrics.setup && Sound(setup, State()) && metrics.Valid()
    }

    constructor (setup: Setup, metrics: PM.ProfessorMetricsService)
      requires setup.metrics == metrics.setup && metrics.Valid()
      ensures Valid() && State() == NOTHING_KEPT && this.setup == setup && this.metrics == metrics
    {
      this.setup, this.metrics := setup, metrics;
      consent, runs, reviews := {}, map[], map[];
    }

    method UpdateConsent(professor: string, isMember: bool, session: string, provider: string, allowed: bool)
      returns (r: Result<(), Error>)
      requires Valid()
      modifies this`consent
      ensures Valid()
      ensures (State(), r) == ConsentChanged(setup, old(State()), professor, isMember, session, provider, allowed)
    {
      hide PM.Sound, ReviewsInside;
      if !isMember { return Err(Report(PM.NotAMember)); }
      if allowed {
        if |consent| >= setup.maximumRecords { return Err(CapacityReached); }
        consent := consent + {(session, professor, provider)};
      } else {
        consent := consent - {(session, professor, provider)};
      }
      r := Ok(());
    }

    method ResolveScope(professor: string, session: string, report: Metrics.Report, chunks: seq<Transcript.Chunk>)
      returns (view: View)
      ensures Sees(setup, State(), professor, session, report, chunks, view)
    {
      hide AreExcerpts;
      if !setup.readsTranscript { return View(IntervalsOnly, [], None); }
      if setup.mode.Live? && (session, professor, LIVE_PROVIDER) !in consent {
        return View(IntervalsOnly, [], Some(ConsentRequired));
      }
      var excerpts := ReadExcerpts(setup.texts, report.buckets, chunks);
      if !HasText(excerpts) { return View(IntervalsOnly, [], Some(NoTranscript)); }
      return View(LectureTranscript, excerpts, None);
    }

    /** Draft and validate the suggestions of a new run. */
    method MakeRun(report: Metrics.Report, view: View) returns (r: Result<Run, Error>)
      ensures r == Attempt(setup, report, view)
    {
      hide KeptItems, LocalDraft, IsAllowed;
      var draft: seq<Recommendation>, provided := [], setup.mode;
      if IsLocal(setup, view) {
        draft, provided := LocalDraft(report), Mock;
      } else {
        var answer := setup.provider(report, view.excerpts);
        if answer.None? { return Err(Provider); }
        draft := answer.value;
      }
      var items := ValidateDraft(setup.texts, draft, report.buckets, view.excerpts);
      if items.Err? { return Err(MalformedDraft); }
      r := Ok(Run(provided, view.scope, view.note, items.value));
    }

    method StoreRun(key: RunKey, run: Run)
      modifies this`runs, this`reviews
      ensures State() == old(State()).(runs := old(runs)[key := run], reviews := ReviewsBut(old(reviews), key))
    {
      reviews := ReviewsBut(reviews, key);
      runs := runs[key := run];
    }

    /** Generate from the current report, reusing a run of the same report unless the
        transcript may now be analyzed and was not before. */
    method Generate(isProfessor: bool, membership: Option<PM.Role>, actor: string, session: string)
      returns (r: Result<Outcome, Error>)
      requires Valid()
      modifies this`runs, this`reviews
      ensures Valid()
      ensures GenerateAnswer(setup, old(State()), metrics.State(), isProfessor, membership, actor, session, r)
      ensures State()
              == Kept(old(State()), KeyOf(setup, metrics.State(), isProfessor, membership, actor, session), r)
    {
      hide Sound, PM.Sound, Metrics.ReportOf, PM.Denial, ReviewsOf, Attempt, Sees;
      var read := metrics.Report(isProfessor, membership, session);
      if read.Err? { return Err(Report(read.error)); }
      var report := read.value;
      if !report.status.Available? { return Ok(InsufficientEvidence); }
      var chunks := PM.DataOf(metrics.State(), session).chunks;
      var view := ResolveScope(actor, session, report, chunks);
      var key := RunKey(session, actor, report);
      if key in runs && (runs[key].scope == view.scope || view.scope.IntervalsOnly?) {
        r := Ok(Generated(runs[key], ReviewsOf(reviews, key)));
      } else if key !in runs && |runs| >= setup.maximumRecords {
        r := Err(CapacityReached);
      } else {
        var made := MakeRun(report, view);
        if made.Err? {
          r := Err(made.error);
        } else {
          r := Ok(Generated(made.value, map[]));
          AttemptScope(setup, report, view);
          StoreRun(key, made.value);
        }
      }
      assert IsGenerated(setup, old(State()), key, view, r);
      StoringKeeps(setup, old(State()), key, view, r);
    }

    /** Store feedback for one suggestion. */
    method Review(isProfessor: bool, membership: Option<PM.Role>, review: ReviewKey, verdict: Verdict)
      returns (r: Result<Verdict, Error>)
      requires Valid()
      modifies this`reviews
      ensures Valid() && State() == Judged(old(State()), review, r)
      ensures r == ReviewAnswer(setup, old(State()), metrics.State(), isProfessor, membership, review, verdict)
    {
      hide PM.Sound, Metrics.ReportOf, PM.Denial;
      var read := metrics.Report(isProfessor, membership, review.run.session);
      if read.Err? { return Err(Report(read.error)); }
      if read.value != review.run.revision { return Err(Stale); }
      if review.run !in runs || review.index >= |runs[review.run].items| { return Err(NotFound); }
      if |reviews| >= setup.maximumRecords { return Err(CapacityReached); }
      reviews := reviews[review := verdict];
      r := Ok(verdict);
    }

    /** Erase the session's runs, coverage, delivery events, consents and reviews, and
        nothing else. */
    method DeleteSession(session: string)
      requires Valid()
      modifies this, metrics
      ensures Valid() && State() == Erased(old(State()), session)
      ensures metrics.State() == PM.Forgotten(old(metrics.State()), session)
    {
      hide Sound, PM.Sound, Elsewhere, ReviewsElsewhere, PM.Forgotten;
      PM.ForgettingKeepsSound(metrics.setup, metrics.State(), session);
      metrics.DeleteSession(session);
      DeletingKeeps(setup, State(), session);
      consent := set k | k in consent && k.0 != session;
      runs := Elsewhere(runs, session);
      reviews := ReviewsElsewhere(reviews, session);
    }
  }
}
