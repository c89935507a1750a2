/** Whole runs of a recovery service over transcripts that are ingested and corrected,
    with consent granted and revoked: cache transparency, one job per retry key, and
    what a revocation leaves. */
module RecoveryRuns {
  import opened Common
  import opened Transcript
  import opened Recovery
  import opened RecoveryWindows

  // ------------------------------------------------------ whole runs of a service

  /** What happens to a service and the transcripts it reads. */
  datatype Action =
    | Ingest(ingestion: Ingestion)
    | Ask(call: Call)
    | ChangeConsent(permission: Permission, isMember: bool, allowed: bool)

  datatype Outcome =
    | Ingested(receipt: Result<Receipt, Transcript.Error>)
    | Answered(answer: Answer)
    | Changed(result: Result<(), Recovery.Error>)

  /** The books and the stored transcripts. */
  datatype World = World(books: Books, chunks: map<string, seq<Chunk>>)

  /** A request as it is executed: against the transcript stored at the time. */
  function Seen(w: World, call: Call): Call { call.(chunks := ChunksOf(w.chunks, call.session)) }

  ghost predicate Follows(u: Setup, limits: Limits, w: World, action: Action, o: Outcome) {
    match action
    case Ingest(i) => o.Ingested? && IngestAnswer(limits, w.chunks, i, o.receipt)
    case Ask(call) => o.Answered? && IsAnswer(u, w.books, Seen(w, call), o.answer)
    case ChangeConsent(p, isMember, allowed) => o == Changed(ConsentChanged(w.books, p, isMember, allowed).1)
  }

  ghost function Next(u: Setup, limits: Limits, w: World, action: Action, o: Outcome): World {
    match action
    case Ingest(i) => w.(chunks := IngestedInto(limits, w.chunks, i))
    case Ask(call) => if o.Answered? then w.(books := Booked(u, w.books, Seen(w, call), o.answer)) else w
    case ChangeConsent(p, isMember, allowed) => w.(books := ConsentChanged(w.books, p, isMember, allowed).0)
  }

  /** The world after the first `n` actions of a run with these outcomes. */
  ghost function WorldAt(u: Setup, limits: Limits, start: World, actions: seq<Action>, outcomes: seq<Outcome>,
                         n: nat): World
    requires n <= |actions| == |outcomes|
  {
    if n == 0 then start
    else Next(u, limits, WorldAt(u, limits, start, actions, outcomes, n - 1), actions[n - 1], outcomes[n - 1])
  }

  /** The outcome follows from its action and the world it met. */
  ghost predicate FollowsAt(u: Setup, limits: Limits, start: World, actions: seq<Action>, outcomes: seq<Outcome>,
                            i: nat) {
    && i < |actions| == |outcomes|
    && Follows(u, limits, WorldAt(u, limits, start, actions, outcomes, i), actions[i], outcomes[i])
  }

  ghost predicate IsRun(u: Setup, limits: Limits, start: World, actions: seq<Action>, outcomes: seq<Outcome>) {
    && |outcomes| == |actions|
    && forall i :: 0 <= i < |actions| ==> FollowsAt(u, limits, start, actions, outcomes, i)
  }

  ghost predicate WorldSound(u: Setup, w: World) {
    Sound(u, w.books) && forall session :: Readable(ChunksOf(w.chunks, session))
  }

  /** Chunks are named: what an ingestion request is validated for. */
  predicate IsNamed(action: Action) {
    action.Ingest? ==> forall c :: c in action.ingestion.batch ==> c.id != ""
  }

  /** Ingestion keeps the stored chunks readable. */
  lemma IngestionKeepsReadable(limits: Limits, chunks: map<string, seq<Chunk>>, i: Ingestion, session: string)
    requires (forall s :: Readable(ChunksOf(chunks, s))) && forall c :: c in i.batch ==> c.id != ""
    ensures Readable(ChunksOf(IngestedInto(limits, chunks, i), session))
  {
    hide Fault, Applied, UniqueIds, AcceptedCount;
    if RefusedBefore(limits, i).None? && session == i.session {
      var before := ChunksOf(chunks, session);
      assert Readable(before);
      AppliedIsReadable(limits, session, before, i.batch, AcceptedCount(limits, session, before, i.batch));
    } else {
      assert Readable(ChunksOf(chunks, session));
    }
  }

  lemma {:induction false} AppliedIsReadable(limits: Limits, session: string, before: seq<Chunk>, batch: seq<Chunk>,
                                             n: nat)
    requires n <= AcceptedCount(limits, session, before, batch)
    requires Readable(before) && forall c :: c in batch ==> c.id != ""
    ensures Reached(limits, session, before, batch, n, Applied(before, batch[..n]))
    ensures Readable(Applied(before, batch[..n]))
  {
    hide Fault, Evolves, UniqueIds, Revision, AcceptedCount, Accept, Counted;
    if n == 0 {
      ReachedNone(limits, session, before, batch);
    } else {
      AppliedIsReadable(limits, session, before, batch, n - 1);
      AcceptedHasNoFault(limits, session, before, batch, n - 1);
      ReachedNext(limits, session, before, batch, n - 1, Applied(before, batch[..n - 1]));
      assert batch[..n][..n - 1] == batch[..n - 1];
      var list := Applied(before, batch[..n]);
      forall c | c in list ensures c.id != "" { assert HasId(list, c.id); }
    }
  }

  /** Soundness over whole runs. */
  lemma {:induction false} RunKeepsSound(u: Setup, limits: Limits, start: World, actions: seq<Action>,
                                         outcomes: seq<Outcome>, n: nat)
    requires IsRun(u, limits, start, actions, outcomes) && WorldSound(u, start) && n <= |actions|
    requires forall i :: 0 <= i < |actions| ==> IsNamed(actions[i])
    ensures WorldSound(u, WorldAt(u, limits, start, actions, outcomes, n))
  {
    hide Sound, Readable, IsAnswer, Booked, ConsentChanged, IngestedInto, IngestAnswer;
    if n > 0 {
      RunKeepsSound(u, limits, start, actions, outcomes, n - 1);
      var w := WorldAt(u, limits, start, actions, outcomes, n - 1);
      assert FollowsAt(u, limits, start, actions, outcomes, n - 1) && IsNamed(actions[n - 1]);
      match actions[n - 1]
      case Ingest(i) =>
        forall session ensures Readable(ChunksOf(IngestedInto(limits, w.chunks, i), session)) {
          IngestionKeepsReadable(limits, w.chunks, i, session);
        }
      case Ask(call) => AnswerIsSound(u, w.books, Seen(w, call), outcomes[n - 1].answer);
      case ChangeConsent(p, isMember, allowed) => ConsentIsSound(u, w.books, p, isMember, allowed);
    }
  }

  lemma StepGrows(u: Setup, limits: Limits, w: World, action: Action, o: Outcome)
    requires Follows(u, limits, w, action, o)
    ensures Grows(w.books, Next(u, limits, w, action, o).books)
  {
    hide IsAnswer, Booked, IngestedInto, IngestAnswer;
    if action.Ask? { AnswerGrows(u, w.books, Seen(w, action.call), o.answer); }
  }

  lemma GrowsOn(a: Books, b: Books, c: Books)
    requires Grows(a, b) && Grows(b, c)
    ensures Grows(a, c)
  {
  }

  lemma GrowsNothing(b: Books)
    ensures Grows(b, b)
  {
  }

  lemma {:induction false} RunGrows(u: Setup, limits: Limits, start: World, actions: seq<Action>,
                                    outcomes: seq<Outcome>, m: nat, n: nat)
    requires IsRun(u, limits, start, actions, outcomes) && m <= n <= |actions|
    ensures Grows(WorldAt(u, limits, start, actions, outcomes, m).books,
                  WorldAt(u, limits, start, actions, outcomes, n).books)
    decreases n
  {
    hide Follows, Next, Grows;
    if m < n {
      RunGrows(u, limits, start, actions, outcomes, m, n - 1);
      var w := WorldAt(u, limits, start, actions, outcomes, n - 1);
      assert FollowsAt(u, limits, start, actions, outcomes, n - 1);
      StepGrows(u, limits, w, actions[n - 1], outcomes[n - 1]);
      GrowsOn(WorldAt(u, limits, start, actions, outcomes, m).books, w.books,
              Next(u, limits, w, actions[n - 1], outcomes[n - 1]).books);
    } else {
      GrowsNothing(WorldAt(u, limits, start, actions, outcomes, m).books);
    }
  }

  /** Cache transparency over whole runs. Whatever is ingested, corrected, asked and
      consented to before and after: every job created by the run is, at its end, the
      requester's own and has delivered what the generator makes of the request's window
      of the transcript stored when it was asked for, cached or not. */
  lemma JobsAgreeWithRegenerating(u: Setup, limits: Limits, start: World, actions: seq<Action>,
                                  outcomes: seq<Outcome>, i: nat)
    requires IsRun(u, limits, start, actions, outcomes) && WorldSound(u, start)
    requires forall k :: 0 <= k < |actions| ==> IsNamed(actions[k])
    requires i < |actions| && actions[i].Ask? && outcomes[i].Answered? && outcomes[i].answer.Created?
    ensures DeliversWindow(u, WorldAt(u, limits, start, actions, outcomes, |actions|).books,
                           Seen(WorldAt(u, limits, start, actions, outcomes, i), actions[i].call),
                           outcomes[i].answer.job)
  {
    hide Sound, UniqueIds, IsAnswer, Booked, Fulfils, DeliversWindow, Grows, IngestedInto, IngestAnswer;
    var w, after := WorldAt(u, limits, start, actions, outcomes, i),
        WorldAt(u, limits, start, actions, outcomes, i + 1);
    RunKeepsSound(u, limits, start, actions, outcomes, i);
    assert FollowsAt(u, limits, start, actions, outcomes, i);
    AnswerFulfils(u, w.books, Seen(w, actions[i].call), outcomes[i].answer);
    RunGrows(u, limits, start, actions, outcomes, i + 1, |actions|);
    FulfilledStays(u, after.books, WorldAt(u, limits, start, actions, outcomes, |actions|).books,
                   Seen(w, actions[i].call), outcomes[i].answer.job);
    assert Readable(ChunksOf(w.chunks, actions[i].call.session));
    FulfilsDelivers(u, WorldAt(u, limits, start, actions, outcomes, |actions|).books, Seen(w, actions[i].call),
                    outcomes[i].answer.job);
  }

  /** Over whole runs the ledger's misses equal the stored cards. */
  lemma MissesAreCards(u: Setup, limits: Limits, start: World, actions: seq<Action>, outcomes: seq<Outcome>)
    requires IsRun(u, limits, start, actions, outcomes) && WorldSound(u, start)
    requires forall k :: 0 <= k < |actions| ==> IsNamed(actions[k])
    ensures var books := WorldAt(u, limits, start, actions, outcomes, |actions|).books;
            Misses(books.ledger) == |books.cards|
  {
    hide CacheSound, JobsSound, RetriesOwned, Readable, IsRun, WorldAt;
    RunKeepsSound(u, limits, start, actions, outcomes, |actions|);
  }

  /** The job a successful request was answered with. */
  function JobOf(a: Answer): Option<nat> { if a.Refused? then None else Some(a.job) }

  lemma AnswerRecordsKey(u: Setup, b: Books, call: Call, a: Answer)
    requires IsAnswer(u, b, call, a) && !a.Refused? && call.idempotencyKey != ""
    ensures Get(Booked(u, b, call, a).idempotency, RetryOf(call)) == JobOf(a)
  {
    hide Refusal, Ends, Settled;
    if a.Created? {
      EnqueuedHas(b, call, a.job);
      SettledJobs(u, Enqueued(b, call, a.job), call, a.job, a.status);
    }
  }

  lemma AnswerReplaysKey(u: Setup, b: Books, call: Call, a: Answer)
    requires IsAnswer(u, b, call, a) && !a.Refused? && call.idempotencyKey != "" && RetryOf(call) in b.idempotency
    ensures JobOf(a) == Some(b.idempotency[RetryOf(call)])
  {
    hide Ends;
  }

  /** One retry key, one job: any two successful requests of a run with the same member,
      session and non-empty key are answered with the same job, whatever they ask. */
  lemma OneJobPerKey(u: Setup, limits: Limits, start: World, actions: seq<Action>, outcomes: seq<Outcome>, i: nat,
                     j: nat)
    requires IsRun(u, limits, start, actions, outcomes) && i < j < |actions|
    requires actions[i].Ask? && actions[j].Ask? && RetryOf(actions[i].call) == RetryOf(actions[j].call)
    requires outcomes[i].Answered? && outcomes[j].Answered? && actions[i].call.idempotencyKey != ""
    requires !outcomes[i].answer.Refused? && !outcomes[j].answer.Refused?
    ensures JobOf(outcomes[i].answer) == JobOf(outcomes[j].answer)
  {
    hide IsAnswer, Booked, IngestedInto, IngestAnswer;
    var first, second := WorldAt(u, limits, start, actions, outcomes, i),
        WorldAt(u, limits, start, actions, outcomes, j);
    assert FollowsAt(u, limits, start, actions, outcomes, i) && FollowsAt(u, limits, start, actions, outcomes, j);
    AnswerRecordsKey(u, first.books, Seen(first, actions[i].call), outcomes[i].answer);
    RunGrows(u, limits, start, actions, outcomes, i + 1, j);
    AnswerReplaysKey(u, second.books, Seen(second, actions[j].call), outcomes[j].answer);
  }

  /** This action revokes the member's permission for a provider in the session. */
  predicate Revokes(action: Action, actor: string, session: string) {
    && action.ChangeConsent? && action.isMember && !action.allowed
    && action.permission.actor == actor && action.permission.session == session
  }

  /** This action made a new job of the member in the session. */
  predicate Creates(action: Action, o: Outcome, actor: string, session: string) {
    action.Ask? && action.call.actor == actor && action.call.session == session && o.Answered? && o.answer.Created?
  }

  /** A revocation purges; nothing but a new job of the member there fills the cache again. */
  lemma StepPurges(u: Setup, limits: Limits, w: World, action: Action, o: Outcome, actor: string, session: string)
    requires Follows(u, limits, w, action, o)
    ensures Revokes(action, actor, session) ==> Purged(Next(u, limits, w, action, o).books.cache, actor, session)
    ensures Purged(w.books.cache, actor, session) && !Creates(action, o, actor, session) ==>
              Purged(Next(u, limits, w, action, o).books.cache, actor, session)
  {
    hide IsAnswer, Booked, IngestedInto, IngestAnswer;
    if action.Ask? && Purged(w.books.cache, actor, session) {
      OnlyOwnEntries(u, w.books, Seen(w, action.call), o.answer, actor, session);
    }
  }

  lemma {:induction false} StaysPurged(u: Setup, limits: Limits, start: World, actions: seq<Action>,
                                       outcomes: seq<Outcome>,
                                       r: nat, n: nat, actor: string, session: string)
    requires IsRun(u, limits, start, actions, outcomes) && r < n <= |actions| && Revokes(actions[r], actor, session)
    requires forall k :: r < k < n ==> !Creates(actions[k], outcomes[k], actor, session)
    ensures Purged(WorldAt(u, limits, start, actions, outcomes, n).books.cache, actor, session)
    decreases n
  {
    hide Follows, Next, Purged, Revokes, Creates;
    var w := WorldAt(u, limits, start, actions, outcomes, n - 1);
    assert FollowsAt(u, limits, start, actions, outcomes, n - 1);
    StepPurges(u, limits, w, actions[n - 1], outcomes[n - 1], actor, session);
    if n > r + 1 { StaysPurged(u, limits, start, actions, outcomes, r, n - 1, actor, session); }
  }

  /** After a revocation, through any requests of others, retries and consent changes,
      the member's first new job in the session is never a cache hit. */
  lemma FirstJobAfterRevocation(u: Setup, limits: Limits, start: World, actions: seq<Action>, outcomes: seq<Outcome>,
                                r: nat, n: nat, actor: string, session: string)
    requires IsRun(u, limits, start, actions, outcomes) && r < n < |actions|
    ensures Revokes(actions[r], actor, session) && Creates(actions[n], outcomes[n], actor, session)
            && (forall k :: r < k < n ==> !Creates(actions[k], outcomes[k], actor, session)) ==>
              !(outcomes[n].answer.status.Completed? && outcomes[n].answer.status.cache.Hit?)
  {
    hide IsAnswer, Booked, IngestedInto, IngestAnswer;
    if Revokes(actions[r], actor, session) && Creates(actions[n], outcomes[n], actor, session)
       && forall k :: r < k < n ==> !Creates(actions[k], outcomes[k], actor, session) {
      StaysPurged(u, limits, start, actions, outcomes, r, n, actor, session);
      var w := WorldAt(u, limits, start, actions, outcomes, n);
      assert FollowsAt(u, limits, start, actions, outcomes, n);
      OnlyOwnEntries(u, w.books, Seen(w, actions[n].call), outcomes[n].answer, actor, session);
    }
  }

  lemma StepJobs(u: Setup, limits: Limits, w: World, action: Action, o: Outcome, job: nat)
    requires Follows(u, limits, w, action, o) && job in Next(u, limits, w, action, o).books.jobs
    ensures job in w.books.jobs || (action.Ask? && o.Answered? && o.answer.Created? && o.answer.job == job)
  {
    hide IsAnswer, IngestedInto, IngestAnswer, Settled, Enqueued;
    if action.Ask? && o.answer.Created? {
      EnqueuedJobs(w.books, Seen(w, action.call), o.answer.job);
      SettledJobs(u, Enqueued(w.books, Seen(w, action.call), o.answer.job), Seen(w, action.call), o.answer.job,
                  o.answer.status);
    }
  }

  /** Every job that appears during a run was created by one of its requests. */
  lemma {:induction false} EveryJobWasAsked(u: Setup, limits: Limits, start: World, actions: seq<Action>,
                                            outcomes: seq<Outcome>, n: nat, job: nat)
    requires IsRun(u, limits, start, actions, outcomes) && n <= |actions|
    requires job in WorldAt(u, limits, start, actions, outcomes, n).books.jobs && job !in start.books.jobs
    ensures exists i ::
        0 <= i < n && actions[i].Ask? && outcomes[i].Answered? && outcomes[i].answer.Created?
            && outcomes[i].answer.job == job
  {
    hide Follows, Next;
    var w := WorldAt(u, limits, start, actions, outcomes, n - 1);
    assert FollowsAt(u, limits, start, actions, outcomes, n - 1);
    StepJobs(u, limits, w, actions[n - 1], outcomes[n - 1], job);
    if job in w.books.jobs { EveryJobWasAsked(u, limits, start, actions, outcomes, n - 1, job); }
  }

  // ------------------------------------------------------- who is answered, and when

  predicate Withdraws(action: Action, p: Permission) {
    action.ChangeConsent? && action.permission == p && action.isMember && !action.allowed
  }

  predicate Grants(action: Action, o: Outcome, p: Permission) {
    action.ChangeConsent? && action.permission == p && action.isMember && action.allowed && o == Changed(Ok(()))
  }

  /** Granted before action `n`, or from the start, and not withdrawn since. */
  ghost predicate IsGranted(start: World, actions: seq<Action>, outcomes: seq<Outcome>, p: Permission, n: nat)
    requires n <= |actions| == |outcomes|
  {
    || (p in start.books.consent && forall k :: 0 <= k < n ==> !Withdraws(actions[k], p))
    || exists g ::
         0 <= g < n && Grants(actions[g], outcomes[g], p) && forall k :: g < k < n ==> !Withdraws(actions[k], p)
  }

  lemma StepConsent(u: Setup, limits: Limits, w: World, action: Action, o: Outcome, p: Permission)
    requires Follows(u, limits, w, action, o)
    ensures p in Next(u, limits, w, action, o).books.consent <==>
        Grants(action, o, p) || (p in w.books.consent && !Withdraws(action, p))
  {
    hide IsAnswer, IngestedInto, IngestAnswer, Settled, Enqueued;
    if action.Ask? && o.answer.Created? {
      var call, id := Seen(w, action.call), o.answer.job;
      EnqueuedHas(w.books, call, id);
      SettledJobs(u, Enqueued(w.books, call, id), call, id, o.answer.status);
      EnqueuedConsent(w.books, call, id);
    }
  }

  lemma EnqueuedConsent(b: Books, call: Call, id: nat)
    ensures Enqueued(b, call, id).consent == b.consent
  {
  }

  /** A permission is held exactly while it is granted. */
  lemma {:induction false} ConsentFollows(u: Setup, limits: Limits, start: World, actions: seq<Action>,
                                          outcomes: seq<Outcome>, p: Permission, n: nat)
    requires IsRun(u, limits, start, actions, outcomes) && n <= |actions|
    ensures p in WorldAt(u, limits, start, actions, outcomes, n).books.consent <==>
        IsGranted(start, actions, outcomes, p, n)
  {
    hide Follows, Next, Grants, Withdraws;
    if n > 0 {
      var w := WorldAt(u, limits, start, actions, outcomes, n - 1);
      ConsentFollows(u, limits, start, actions, outcomes, p, n - 1);
      assert FollowsAt(u, limits, start, actions, outcomes, n - 1);
      StepConsent(u, limits, w, actions[n - 1], outcomes[n - 1], p);
    }
  }

  /** Every source event the request names is the requester's own and not denied. */
  predicate NamesOwnEvents(call: Call) {
    forall id :: id in call.request.sourceEvents ==>
      exists e :: e in call.events && e.id == id && e.owner == call.actor && e.confirmed != Some(false)
  }

  /** A request is refused exactly when the requester is no member or no student, the
      interval is past the clock or too long, it names somebody else's or a denied event,
      or the provider needs a permission that is not granted at the time. */
  lemma RefusedExactly(u: Setup, limits: Limits, start: World, actions: seq<Action>, outcomes: seq<Outcome>, i: nat)
    requires IsRun(u, limits, start, actions, outcomes) && i < |actions| && actions[i].Ask?
    ensures var call := actions[i].call;
            var asked := call.request.interval;
            var isPermitted := u.provider == "mock"
                || IsGranted(start, actions, outcomes, Permission(call.session, call.actor, u.provider), i);
            && outcomes[i].Answered?
            && match outcomes[i].answer
               case Refused(NotAMember) => !call.isMember
               case Refused(Forbidden) => call.isMember && !call.isStudent
               case Refused(ValidationFailed) =>
                 && call.isMember && call.isStudent
                 && (asked.end > 28_800_000 || asked.end - asked.start > 600_000 || !NamesOwnEvents(call))
               case Refused(ConsentRequired) =>
                 && call.isMember && call.isStudent && asked.end <= 28_800_000 && asked.end - asked.start <= 600_000
                 && NamesOwnEvents(call) && !isPermitted
               case Refused(CapacityReached) => false
               case _ =>
                 && call.isMember && call.isStudent && asked.end <= 28_800_000 && asked.end - asked.start <= 600_000
                 && NamesOwnEvents(call) && isPermitted
  {
    hide IsGranted, Ends, IngestAnswer, Replay, WorldAt;
    var call := actions[i].call;
    assert FollowsAt(u, limits, start, actions, outcomes, i);
    ConsentFollows(u, limits, start, actions, outcomes, Permission(call.session, call.actor, u.provider), i);
  }

  // ------------------------------------------------------------------- cache hits

  lemma AnswerCaches(u: Setup, b: Books, call: Call, a: Answer)
    requires IsAnswer(u, b, call, a) && a.Created? && a.status.Completed?
    ensures KeyFor(u, call).Some? && Get(Booked(u, b, call, a).cache, KeyFor(u, call).value) == Some(a.status.card)
  {
    hide Uncached, WindowOf, Refusal, Replay;
  }

  /** A cached card stays until its owner revokes a permission in the session. */
  lemma StepKeepsEntry(u: Setup, limits: Limits, w: World, action: Action, o: Outcome, key: Key)
    requires Follows(u, limits, w, action, o) && key in w.books.cache
    requires !Revokes(action, key.actor, key.window.session)
    ensures Get(Next(u, limits, w, action, o).books.cache, key) == Some(w.books.cache[key])
  {
    hide Uncached, KeyFor, Refusal, Replay, IngestedInto, IngestAnswer;
  }

  lemma {:induction false} EntryStays(u: Setup, limits: Limits, start: World, actions: seq<Action>,
                                      outcomes: seq<Outcome>, m: nat, n: nat, key: Key)
    requires IsRun(u, limits, start, actions, outcomes) && m <= n <= |actions|
    requires key in WorldAt(u, limits, start, actions, outcomes, m).books.cache
    requires forall k :: m <= k < n ==> !Revokes(actions[k], key.actor, key.window.session)
    ensures Get(WorldAt(u, limits, start, actions, outcomes, n).books.cache, key)
            == Some(WorldAt(u, limits, start, actions, outcomes, m).books.cache[key])
    decreases n
  {
    hide Follows, Next, Revokes;
    if m < n {
      EntryStays(u, limits, start, actions, outcomes, m, n - 1, key);
      assert FollowsAt(u, limits, start, actions, outcomes, n - 1);
      StepKeepsEntry(u, limits, WorldAt(u, limits, start, actions, outcomes, n - 1), actions[n - 1], outcomes[n - 1],
                     key);
    }
  }

  lemma EntryHits(u: Setup, b: Books, call: Call, a: Answer, key: Key)
    requires Sound(u, b) && IsAnswer(u, b, call, a) && a.Created? && KeyFor(u, call) == Some(key) && key in b.cache
    ensures a.status == Completed(b.cache[key], Hit)
  {
    hide Validated, Misses, WindowOf, RetriesOwned, JobsSound, Refusal, Replay;
    assert EntrySound(u.generator, b.cards, b.cache, key);
  }

  /** Asking again about the same window is answered with the same card from the cache:
      however the two requests name it and whatever happens in between, unless the member
      revokes a permission in the session. */
  lemma SameWindowIsHit(u: Setup, limits: Limits, start: World, actions: seq<Action>, outcomes: seq<Outcome>, i: nat,
                        j: nat, actor: string, w: Window)
    requires IsRun(u, limits, start, actions, outcomes) && WorldSound(u, start)
    requires (forall k :: 0 <= k < |actions| ==> IsNamed(actions[k])) && i < j < |actions|
    requires Creates(actions[i], outcomes[i], actor, w.session) && outcomes[i].answer.status.Completed?
    requires Creates(actions[j], outcomes[j], actor, w.session)
    requires IsWindow(Seen(WorldAt(u, limits, start, actions, outcomes, i), actions[i].call), u.padding, w)
    requires IsWindow(Seen(WorldAt(u, limits, start, actions, outcomes, j), actions[j].call), u.padding, w)
    requires forall k :: i < k < j ==> !Revokes(actions[k], actor, w.session)
    ensures outcomes[j].answer.status == Completed(outcomes[i].answer.status.card, Hit)
  {
    hide Sound, UniqueIds, IsAnswer, Booked, IngestedInto, IngestAnswer, IsWindow, HasNoWindow, WindowOf, Revokes;
    var first, second := WorldAt(u, limits, start, actions, outcomes, i),
        WorldAt(u, limits, start, actions, outcomes, j);
    RunKeepsSound(u, limits, start, actions, outcomes, i);
    RunKeepsSound(u, limits, start, actions, outcomes, j);
    assert FollowsAt(u, limits, start, actions, outcomes, i) && FollowsAt(u, limits, start, actions, outcomes, j);
    assert Readable(ChunksOf(first.chunks, w.session)) && Readable(ChunksOf(second.chunks, w.session));
    var before, after := Seen(first, actions[i].call), Seen(second, actions[j].call);
    WindowExactly(before, u.padding);
    WindowExactly(after, u.padding);
    var key := KeyOf(u, actor, w);
    AnswerCaches(u, first.books, before, outcomes[i].answer);
    EntryStays(u, limits, start, actions, outcomes, i + 1, j, key);
    EntryHits(u, second.books, after, outcomes[j].answer, key);
  }

  ghost predicate AllReadable(store: TranscriptStore)
    reads store
  {
    forall session :: Readable(store.Of(session))
  }

  /** Drive a service and a transcript store through a run: one outcome per action, each
      the specified one, and the books and transcripts the run leaves. */
  method RunRecovery(service: PrivateRecoveryService, store: TranscriptStore, actions: seq<Action>)
    returns (outcomes: seq<Outcome>)
    requires service.Valid() && AllReadable(store)
    requires forall i :: 0 <= i < |actions| ==> IsNamed(actions[i])
    modifies service, store
    ensures service.Valid() && AllReadable(store)
    ensures IsRun(service.setup, store.limits, old(World(service.State(), store.chunks)), actions, outcomes)
    ensures World(service.State(), store.chunks)
            == WorldAt(service.setup, store.limits, old(World(service.State(), store.chunks)), actions, outcomes,
                       |actions|)
  {
    hide Sound, Readable, IsAnswer, Booked, ConsentChanged, IngestedInto, IngestAnswer, WorldAt, IsRun, Evolves,
        UniqueIds;
    ghost var start := World(service.State(), store.chunks);
    outcomes := [];
    RunStarts(service.setup, store.limits, start);
    assert actions[..0] == [];
    for i := 0 to |actions|
      invariant service.Valid() && AllReadable(store) && |outcomes| == i
      invariant IsRun(service.setup, store.limits, start, actions[..i], outcomes)
      invariant World(service.State(), store.chunks)
          == WorldAt(service.setup, store.limits, start, actions[..i], outcomes, i)
    {
      ghost var w := World(service.State(), store.chunks);
      assert IsNamed(actions[i]);
      var o: Outcome;
      match actions[i] {
        case Ingest(ingestion) =>
          IngestionReadable(store, ingestion);
          var r := store.IngestBatch(ingestion.isCourseProfessor, ingestion.isLecture, ingestion.session,
                                     ingestion.batch);
          o := Ingested(r);
        case Ask(call) =>
          assert Readable(store.Of(call.session));
          var a := service.CreateJob(call.(chunks := store.Of(call.session)));
          o := Answered(a);
        case ChangeConsent(p, isMember, allowed) =>
          var r := service.UpdateConsent(p.actor, isMember, p.session, p.provider, allowed);
          o := Changed(r);
      }
      RunExtends(service.setup, store.limits, start, actions, outcomes, i, o);
      outcomes := outcomes + [o];
    }
    assert actions[..|actions|] == actions;
  }

  lemma RunStarts(u: Setup, limits: Limits, start: World)
    ensures IsRun(u, limits, start, [], []) && WorldAt(u, limits, start, [], [], 0) == start
  {
  }

  lemma IngestionReadable(store: TranscriptStore, i: Ingestion)
    requires AllReadable(store) && forall c :: c in i.batch ==> c.id != ""
    ensures UniqueIds(store.Of(i.session))
    ensures forall session :: Readable(ChunksOf(IngestedInto(store.limits, store.chunks, i), session))
  {
    hide IngestedInto, UniqueIds;
    assert Readable(store.Of(i.session));
    forall session ensures Readable(ChunksOf(store.chunks, session)) { assert Readable(store.Of(session)); }
    forall session ensures Readable(ChunksOf(IngestedInto(store.limits, store.chunks, i), session)) {
      IngestionKeepsReadable(store.limits, store.chunks, i, session);
    }
  }

  lemma {:induction false} WorldPrefix(u: Setup, limits: Limits, start: World, actions: seq<Action>,
                                       outcomes: seq<Outcome>, i: nat, o: Outcome, n: nat)
    requires n <= i == |outcomes| < |actions|
    ensures WorldAt(u, limits, start, actions[..i + 1], outcomes + [o], n)
        == WorldAt(u, limits, start, actions[..i], outcomes, n)
  {
    hide Next;
    if n > 0 { WorldPrefix(u, limits, start, actions, outcomes, i, o, n - 1); }
  }

  /** One more outcome that follows extends a run. */
  lemma RunExtends(u: Setup, limits: Limits, start: World, actions: seq<Action>, outcomes: seq<Outcome>, i: nat,
                   o: Outcome)
    requires i == |outcomes| < |actions| && IsRun(u, limits, start, actions[..i], outcomes)
    requires Follows(u, limits, WorldAt(u, limits, start, actions[..i], outcomes, i), actions[i], o)
    ensures IsRun(u, limits, start, actions[..i + 1], outcomes + [o])
    ensures WorldAt(u, limits, start, actions[..i + 1], outcomes + [o], i + 1)
            == Next(u, limits, WorldAt(u, limits, start, actions[..i], outcomes, i), actions[i], o)
  {
    hide Follows, Next;
    var more, all := outcomes + [o], actions[..i + 1];
    WorldPrefix(u, limits, start, actions, outcomes, i, o, i);
    forall k | 0 <= k < |all| ensures FollowsAt(u, limits, start, all, more, k) {
      WorldPrefix(u, limits, start, actions, outcomes, i, o, k);
      if k < i { assert FollowsAt(u, limits, start, actions[..i], outcomes, k); }
    }
  }
}
