/** Personal recovery jobs over a mutable transcript: bounded context windows, a
    content-keyed card cache, idempotent retries and consent revocation. */
module Recovery {
  import opened Common
  import opened Intervals
  import opened Transcript

  const MAX_LECTURE_MS := 28_800_000
  const MAX_RECOVERY_INTERVAL_MS := 600_000
  const MAX_CONTEXT_CHARACTERS := 24_000
  const MAX_CONTEXT_CHUNKS := 100
  const MAX_CONSENTS := 10_000
  const MOCK := "mock"

  datatype Window = Window(session: string, requested: Interval, effective: Interval, revision: nat, chunks: seq<Chunk>)

  datatype Reference = Reference(chunkId: Option<string>, start: int, end: int)

  /** The generated part of a card; ids, times and source events are set on storage. */
  datatype Card = Card(session: string, content: string, references: seq<Reference>)

  datatype Reason = MissingTranscriptContext | ProviderRefused | ProviderTimeout | ProviderMalformedOutput

  /** A provider: what it makes of one session's window, or why it fails. */
  type Generator = (string, Window) -> Result<Card, Reason>

  datatype Event = Event(id: string, owner: string, start: int, end: int, confirmed: Option<bool>)

  // ---------------------------------------------------------- context windows

  function TextSize(chunks: seq<Chunk>): nat {
    if chunks == [] then 0 else |chunks[0].text| + TextSize(chunks[1..])
  }

  /** The end of the known transcript, provisional chunks included. */
  function Horizon(chunks: seq<Chunk>, default: int): int {
    if chunks == [] then default
    else if |chunks| == 1 then chunks[0].end
    else Max(chunks[0].end, Horizon(chunks[1..], default))
  }

  /** The padded window around an interval, clamped to the clock and the known
      transcript; nothing when it selects too much text. */
  function ContextWindow(session: string, chunks: seq<Chunk>, interval: Interval, padding: nat): Option<Window> {
    var start, end := Max(0, interval.start - padding), interval.end + padding;
    var found := ReadWindow(chunks, start, end);
    if |found| > MAX_CONTEXT_CHUNKS || TextSize(found) > MAX_CONTEXT_CHARACTERS then None
    else Some(Window(session, interval, Interval(start, Min(Min(end, Horizon(chunks, interval.end)), MAX_LECTURE_MS)),
                     Revision(chunks), found))
  }

  function SourceIntervals(events: seq<Event>, wanted: set<string>): seq<Interval> {
    if events == [] then []
    else
      (if events[0].id in wanted then [Interval(events[0].start, events[0].end)] else [])
      + SourceIntervals(events[1..], wanted)
  }

  // ------------------------------------------------------- validated generator

  /** Every reference names a chunk of the window, with its exact times. */
  predicate Grounded(card: Card, w: Window) {
    && card.session == w.session && card.references != []
    && forall i :: 0 <= i < |card.references| ==> IsSource(card.references[i], w)
  }

  predicate IsSource(r: Reference, w: Window) {
    r.chunkId.Some? && exists c :: c in w.chunks && c.id == r.chunkId.value && c.start == r.start && c.end == r.end
  }

  /** Accept a provider card only when it is grounded in its window. */
  function Validated(g: Generator, w: Window): Result<Card, Reason> {
    match g(w.session, w)
    case Err(reason) => Err(reason)
    case Ok(card) => if Grounded(card, w) then Ok(card) else Err(ProviderMalformedOutput)
  }

  method Generate(g: Generator, w: Window) returns (r: Result<Card, Reason>)
    requires Readable(w.chunks)
    ensures r == Validated(g, w)
  {
    var draft := g(w.session, w);
    if draft.Err? { return draft; }
    var card := draft.value;
    var sources := ById(w.chunks);
    ByIdFinds(w.chunks);
    var valid := card.session == w.session && card.references != [];
    for i := 0 to |card.references|
      invariant valid <==> card.session == w.session && card.references != [] && forall k :: 0 <= k < i ==>
          IsSource(card.references[k], w)
    {
      var reference := card.references[i];
      var id := if reference.chunkId.Some? then reference.chunkId.value else "";
      valid := valid && id in sources;
      if id in sources {
        var chunk := sources[id];
        valid := valid && reference.start == chunk.start && reference.end == chunk.end;
        assert chunk in w.chunks && chunk.id == id;
        forall c | c in w.chunks && c.id == id ensures c == chunk { SameId(w.chunks, c, chunk); }
      }
    }
    r := if valid then Ok(card) else Err(ProviderMalformedOutput);
  }

  // ------------------------------------------------------------------ records

  /** The cache key: the requester and the whole window, contents included. */
  datatype Key = Key(actor: string, provider: string, model: string, promptVersion: string, schemaVersion: string,
                     window: Window)

  datatype CacheStatus = Hit | Miss

  datatype JobStatus = Queued | Running | Completed(card: nat, cache: CacheStatus) | Failed(reason: Reason)

  datatype Job = Job(session: string, requested: Interval, status: JobStatus)

  datatype StoredCard = StoredCard(card: Card, owner: string, sourceEvents: seq<string>)

  datatype Usage = Usage(job: nat, cache: CacheStatus)

  /** A retry key, scoped by user and session. */
  datatype RetryKey = RetryKey(actor: string, session: string, name: string)

  /** One member's permission for one provider in one session. */
  datatype Permission = Permission(session: string, actor: string, provider: string)

  datatype Request = Request(interval: Interval, sourceEvents: seq<string>)

  datatype Error = NotAMember | Forbidden | ValidationFailed | ConsentRequired | CapacityReached

  /** One job request, with the transcript and the events it is executed against. */
  datatype Call = Call(actor: string, isMember: bool, isStudent: bool, session: string, request: Request,
                       idempotencyKey: string, chunks: seq<Chunk>, events: seq<Event>)

  /** How a service is configured. */
  datatype Setup = Setup(provider: string, model: string, promptVersion: string, schemaVersion: string,
                         generator: Generator, padding: nat)

  /** Everything a service has on record. */
  datatype Books = Books(jobs: map<nat, Job>, jobOwners: map<nat, string>, cards: map<nat, StoredCard>,
                         cache: map<Key, nat>,
                         idempotency: map<RetryKey, nat>, consent: set<Permission>, ledger: seq<Usage>)

  const NO_BOOKS := Books(map[], map[], map[], map[], map[], {}, [])

  function Misses(ledger: seq<Usage>): nat {
    if ledger == [] then 0 else Misses(ledger[..|ledger| - 1]) + (if ledger[|ledger| - 1].cache.Miss? then 1 else 0)
  }

  lemma MissesAppend(ledger: seq<Usage>, u: Usage)
    ensures Misses(ledger + [u]) == Misses(ledger) + (if u.cache.Miss? then 1 else 0)
  {
    assert (ledger + [u])[..|ledger|] == ledger;
  }

  predicate Readable(chunks: seq<Chunk>) {
    UniqueIds(chunks) && forall c :: c in chunks ==> c.id != ""
  }

  /** What a job comes to without a cache: the generator's answer on the current window. */
  function Uncached(g: Generator, w: Option<Window>): Result<Card, Reason> {
    if w.None? || w.value.chunks == [] then Err(MissingTranscriptContext) else Validated(g, w.value)
  }

  /** The window a request reads from the current transcript and events. */
  function WindowOf(call: Call, padding: nat): Option<Window> {
    ContextWindow(call.session, call.chunks,
      ContextInterval(call.request.interval,
                      SourceIntervals(call.events, set id | id in call.request.sourceEvents)), padding)
  }

  function KeyOf(u: Setup, actor: string, w: Window): Key {
    Key(actor, u.provider, u.model, u.promptVersion, u.schemaVersion, w)
  }

  function RetryOf(call: Call): RetryKey { RetryKey(call.actor, call.session, call.idempotencyKey) }

  /** The key a call caches its card under, when it has a window. */
  function KeyFor(u: Setup, call: Call): Option<Key> {
    var w := WindowOf(call, u.padding);
    if w.Some? then Some(KeyOf(u, call.actor, w.value)) else None
  }

  // ------------------------------------------------------------ specification

  predicate OwnsSources(call: Call) {
    forall id :: id in call.request.sourceEvents ==>
      exists e :: e in call.events && e.id == id && e.owner == call.actor && e.confirmed != Some(false)
  }

  /** Why a request is refused, in the order of the checks. */
  function Refusal(provider: string, consent: set<Permission>, call: Call): Option<Error> {
    if !call.isMember then Some(NotAMember)
    else if !call.isStudent then Some(Error.Forbidden)
    else if call.request.interval.end > MAX_LECTURE_MS
            || call.request.interval.end - call.request.interval.start > MAX_RECOVERY_INTERVAL_MS then
                Some(ValidationFailed)
    else if !OwnsSources(call) then Some(ValidationFailed)
    else if provider != MOCK && Permission(call.session, call.actor, provider) !in consent then Some(ConsentRequired)
    else None
  }

  /** The job an earlier request under the same retry key created. */
  function Replay(idempotency: map<RetryKey, nat>, call: Call): Option<nat> {
    if call.idempotencyKey == "" then None else Get(idempotency, RetryOf(call))
  }

  datatype Answer = Refused(error: Error) | Replayed(job: nat) | Created(job: nat, status: JobStatus)

  /** How a new job may end: with a cached card, with a fresh one that the generator
      makes of the window, or with the reason there is none. */
  ghost predicate Ends(u: Setup, b: Books, call: Call, status: JobStatus) {
    var key, made := KeyFor(u, call), Uncached(u.generator, WindowOf(call, u.padding));
    match status
    case Completed(card, Hit) => key.Some? && Get(b.cache, key.value) == Some(card)
    case Completed(card, Miss) => key.Some? && key.value !in b.cache && card !in b.cards && made.Ok?
    case Failed(reason) => made == Err(reason)
    case _ => false
  }

  /** The answer to a request: its refusal, the job of an earlier request with the same
      retry key, or a new job. */
  ghost predicate IsAnswer(u: Setup, b: Books, call: Call, a: Answer) {
    var refusal, replay := Refusal(u.provider, b.consent, call), Replay(b.idempotency, call);
    if refusal.Some? then a == Refused(refusal.value)
    else if replay.Some? then a == Replayed(replay.value)
    else a.Created? && a.job !in b.jobs && Ends(u, b, call, a.status)
  }

  /** A queued job's effect once it ended: a card, a cache entry and a miss for a
      generated card, a hit for a cached one, nothing for a failure. */
  function Settled(u: Setup, b: Books, call: Call, id: nat, status: JobStatus): Books
    requires id in b.jobs
  {
    var done := b.(jobs := b.jobs[id := b.jobs[id].(status := status)]);
    var key, made := KeyFor(u, call), Uncached(u.generator, WindowOf(call, u.padding));
    match status
    case Completed(card, Miss) =>
      if key.Some? && made.Ok? then
        done.(cards := b.cards[card := StoredCard(made.value, call.actor, call.request.sourceEvents)],
              cache := b.cache[key.value := card], ledger := b.ledger + [Usage(id, Miss)])
      else done
    case Completed(card, Hit) => done.(ledger := b.ledger + [Usage(id, Hit)])
    case _ => done
  }

  /** A new job, its owner, and its retry key. */
  function Enqueued(b: Books, call: Call, id: nat): Books {
    b.(jobs := b.jobs[id := Job(call.session, call.request.interval, Queued)],
       jobOwners := b.jobOwners[id := call.actor],
       idempotency := if call.idempotencyKey == "" then b.idempotency else b.idempotency[RetryOf(call) := id])
  }

  /** The books after a request was answered. */
  function Booked(u: Setup, b: Books, call: Call, a: Answer): Books {
    match a
    case Created(id, status) => Settled(u, Enqueued(b, call, id), call, id, status)
    case _ => b
  }

  /** A consent change: its result and the books after it. */
  function ConsentChanged(b: Books, p: Permission, isMember: bool, allowed: bool): (Books, Result<(), Error>) {
    if !isMember then (b, Err(NotAMember))
    else if allowed && |b.consent| >= MAX_CONSENTS then (b, Err(CapacityReached))
    else if allowed then (b.(consent := b.consent + {p}), Ok(()))
    else
      (b.(consent := b.consent - {p},
          cache := map k | k in b.cache && !(k.actor == p.actor && k.window.session == p.session) ::
              b.cache[k]), Ok(()))
  }

  // ---------------------------------------------------------------- soundness

  /** A cached card belongs to the key's requester and session, and is what the
      generator returns on the key's window. */
  predicate EntrySound(g: Generator, cards: map<nat, StoredCard>, cache: map<Key, nat>, k: Key) {
    && k in cache && cache[k] in cards && k.window.chunks != []
    && cards[cache[k]].owner == k.actor && cards[cache[k]].card.session == k.window.session
    && Validated(g, k.window) == Ok(cards[cache[k]].card)
  }

  ghost predicate CacheSound(g: Generator, cards: map<nat, StoredCard>, cache: map<Key, nat>) {
    forall k :: k in cache ==> EntrySound(g, cards, cache, k)
  }

  /** A recorded retry key leads to a job of the user it is scoped to. */
  ghost predicate RetriesOwned(idempotency: map<RetryKey, nat>, jobs: map<nat, Job>, owners: map<nat, string>) {
    forall k :: k in idempotency ==> idempotency[k] in jobs && Get(owners, idempotency[k]) == Some(k.actor)
  }

  ghost predicate JobsSound(jobs: map<nat, Job>, cards: map<nat, StoredCard>) {
    forall id :: id in jobs && jobs[id].status.Completed? ==> jobs[id].status.card in cards
  }

  ghost predicate Sound(u: Setup, b: Books) {
    && CacheSound(u.generator, b.cards, b.cache) && JobsSound(b.jobs, b.cards)
    && RetriesOwned(b.idempotency, b.jobs, b.jobOwners) && Misses(b.ledger) == |b.cards|
  }

  lemma StoringKeepsSound(g: Generator, cards: map<nat, StoredCard>, cache: map<Key, nat>, key: Key, stored: nat,
                          record: StoredCard)
    requires CacheSound(g, cards, cache) && stored !in cards && key.window.chunks != []
    requires record.owner == key.actor && record.card.session == key.window.session
    requires Validated(g, key.window) == Ok(record.card)
    ensures CacheSound(g, cards[stored := record], cache[key := stored])
  {
    hide Validated;
    var grown, more := cache[key := stored], cards[stored := record];
    forall k | k in grown ensures EntrySound(g, more, grown, k) {
      if k != key { assert EntrySound(g, cards, cache, k); }
    }
  }

  lemma DroppingKeepsSound(g: Generator, cards: map<nat, StoredCard>, cache: map<Key, nat>, kept: map<Key, nat>)
    requires CacheSound(g, cards, cache) && forall k :: k in kept ==> k in cache && kept[k] == cache[k]
    ensures CacheSound(g, cards, kept)
  {
    hide Validated;
    forall k | k in kept ensures EntrySound(g, cards, kept, k) { assert EntrySound(g, cards, cache, k); }
  }

  lemma EnqueuedIsSound(u: Setup, b: Books, call: Call, id: nat)
    requires Sound(u, b) && id !in b.jobs
    ensures Sound(u, Enqueued(b, call, id))
  {
    hide CacheSound, Misses;
  }

  lemma ValidatedIsGrounded(g: Generator, w: Window)
    ensures Validated(g, w).Ok? ==> Grounded(Validated(g, w).value, w) && Validated(g, w).value.session == w.session
  {
  }

  /** What storing a fresh card adds. */
  lemma MissIsSound(u: Setup, b: Books, call: Call, id: nat, card: nat)
    requires Sound(u, b) && id in b.jobs && Ends(u, b, call, Completed(card, Miss))
    ensures Sound(u, Settled(u, b, call, id, Completed(card, Miss)))
  {
    hide Validated, Misses, CacheSound, WindowOf, RetriesOwned;
    var key, made := KeyFor(u, call).value, Uncached(u.generator, WindowOf(call, u.padding)).value;
    ValidatedIsGrounded(u.generator, key.window);
    StoringKeepsSound(u.generator, b.cards, b.cache, key, card,
                      StoredCard(made, call.actor, call.request.sourceEvents));
    MissesAppend(b.ledger, Usage(id, Miss));
    StatusKeepsRetries(b.idempotency, b.jobs, b.jobOwners, id, Completed(card, Miss));
  }

  lemma StatusKeepsRetries(idempotency: map<RetryKey, nat>, jobs: map<nat, Job>, owners: map<nat, string>, id: nat,
                           status: JobStatus)
    requires RetriesOwned(idempotency, jobs, owners) && id in jobs
    ensures RetriesOwned(idempotency, jobs[id := jobs[id].(status := status)], owners)
  {
  }

  /** A hit or a failure. */
  lemma EndIsSound(u: Setup, b: Books, call: Call, id: nat, status: JobStatus)
    requires Sound(u, b) && id in b.jobs && Ends(u, b, call, status) && !(status.Completed? && status.cache.Miss?)
    ensures Sound(u, Settled(u, b, call, id, status))
  {
    hide Validated, Misses, WindowOf, RetriesOwned, Uncached;
    if status.Completed? {
      assert EntrySound(u.generator, b.cards, b.cache, KeyFor(u, call).value);
      MissesAppend(b.ledger, Usage(id, Hit));
    }
    StatusKeepsRetries(b.idempotency, b.jobs, b.jobOwners, id, status);
  }

  lemma EnqueuingKeepsEnds(u: Setup, b: Books, call: Call, id: nat, status: JobStatus)
    ensures Ends(u, Enqueued(b, call, id), call, status) == Ends(u, b, call, status)
  {
  }

  /** Answering a request keeps the books sound. */
  lemma AnswerIsSound(u: Setup, b: Books, call: Call, a: Answer)
    requires Sound(u, b) && IsAnswer(u, b, call, a)
    ensures Sound(u, Booked(u, b, call, a))
  {
    hide Sound, Ends, Refusal, Settled, Enqueued;
    if a.Created? {
      EnqueuedIsSound(u, b, call, a.job);
      EnqueuingKeepsEnds(u, b, call, a.job, a.status);
      EnqueuedHas(b, call, a.job);
      if a.status.Completed? && a.status.cache.Miss? {
        MissIsSound(u, Enqueued(b, call, a.job), call, a.job, a.status.card);
      } else {
        EndIsSound(u, Enqueued(b, call, a.job), call, a.job, a.status);
      }
    }
  }

  lemma EnqueuedHas(b: Books, call: Call, id: nat)
    ensures id in Enqueued(b, call, id).jobs
  {
  }

  /** Changing consent keeps the books sound. */
  lemma ConsentIsSound(u: Setup, b: Books, p: Permission, isMember: bool, allowed: bool)
    requires Sound(u, b)
    ensures Sound(u, ConsentChanged(b, p, isMember, allowed).0)
  {
    hide CacheSound, Misses, RetriesOwned, JobsSound;
    var after := ConsentChanged(b, p, isMember, allowed).0;
    DroppingKeepsSound(u.generator, b.cards, b.cache, after.cache);
  }

  // ------------------------------------------------------------- one answer

  /** The card a job delivered, or why it delivered none. */
  function Delivered(b: Books, job: nat): Option<Result<Card, Reason>> {
    if job !in b.jobs then None
    else
      match b.jobs[job].status
      case Completed(card, _) => if card in b.cards then Some(Ok(b.cards[card].card)) else None
      case Failed(reason) => Some(Err(reason))
      case _ => None
  }

  /** The requester's job delivered what the generator makes of the call's window, on a
      card of the requester's own. */
  ghost predicate Fulfils(u: Setup, b: Books, call: Call, job: nat) {
    && job in b.jobs && Get(b.jobOwners, job) == Some(call.actor)
    && b.jobs[job].session == call.session && b.jobs[job].requested == call.request.interval
    && Delivered(b, job) == Some(Uncached(u.generator, WindowOf(call, u.padding)))
    && (b.jobs[job].status.Completed? ==> b.cards[b.jobs[job].status.card].owner == call.actor)
  }

  /** Cache transparency of one request: hit or miss, the new job agrees with
      regenerating on the transcript as it is. */
  lemma AnswerFulfils(u: Setup, b: Books, call: Call, a: Answer)
    requires Sound(u, b) && IsAnswer(u, b, call, a) && a.Created?
    ensures Fulfils(u, Booked(u, b, call, a), call, a.job)
  {
    hide Validated, Misses, WindowOf, RetriesOwned, JobsSound, Refusal;
    if a.status.Completed? && a.status.cache.Hit? {
      assert EntrySound(u.generator, b.cards, b.cache, KeyFor(u, call).value);
    }
  }

  /** What is on record stays: jobs, their owners, cards and retry keys. */
  ghost predicate Grows(before: Books, after: Books) {
    && (forall id :: id in before.jobs ==>
        Get(after.jobs, id) == Some(before.jobs[id]) && Get(after.jobOwners, id) == Get(before.jobOwners, id))
    && (forall id :: id in before.cards ==> Get(after.cards, id) == Some(before.cards[id]))
    && (forall k :: k in before.idempotency ==> Get(after.idempotency, k) == Some(before.idempotency[k]))
  }

  lemma AnswerKeepsJobs(u: Setup, b: Books, call: Call, a: Answer)
    requires IsAnswer(u, b, call, a)
    ensures var after := Booked(u, b, call, a);
            forall id :: id in b.jobs ==>
                Get(after.jobs, id) == Some(b.jobs[id]) && Get(after.jobOwners, id) == Get(b.jobOwners, id)
  {
    hide Refusal, Ends, Settled, Enqueued;
    if a.Created? {
      EnqueuedJobs(b, call, a.job);
      SettledJobs(u, Enqueued(b, call, a.job), call, a.job, a.status);
    }
  }

  lemma EnqueuedJobs(b: Books, call: Call, id: nat)
    ensures var after := Enqueued(b, call, id);
            && after.jobs == b.jobs[id := Job(call.session, call.request.interval, Queued)]
            && after.jobOwners == b.jobOwners[id := call.actor]
  {
  }

  lemma SettledJobs(u: Setup, b: Books, call: Call, id: nat, status: JobStatus)
    requires id in b.jobs
    ensures var after := Settled(u, b, call, id, status);
            && after.jobs == b.jobs[id := b.jobs[id].(status := status)] && after.jobOwners == b.jobOwners
            && after.idempotency == b.idempotency && after.consent == b.consent
  {
    hide Uncached, KeyFor, WindowOf;
  }

  lemma AnswerKeepsCards(u: Setup, b: Books, call: Call, a: Answer)
    requires IsAnswer(u, b, call, a)
    ensures forall id :: id in b.cards ==> Get(Booked(u, b, call, a).cards, id) == Some(b.cards[id])
  {
    hide Uncached, KeyFor, Refusal;
  }

  lemma AnswerKeepsKeys(u: Setup, b: Books, call: Call, a: Answer)
    requires IsAnswer(u, b, call, a)
    ensures forall k :: k in b.idempotency ==> Get(Booked(u, b, call, a).idempotency, k) == Some(b.idempotency[k])
  {
    hide Refusal, Ends, Settled;
    if a.Created? {
      EnqueuedHas(b, call, a.job);
      SettledJobs(u, Enqueued(b, call, a.job), call, a.job, a.status);
    }
  }

  lemma AnswerGrows(u: Setup, b: Books, call: Call, a: Answer)
    requires IsAnswer(u, b, call, a)
    ensures Grows(b, Booked(u, b, call, a))
  {
    hide IsAnswer, Booked, Get;
    AnswerKeepsJobs(u, b, call, a);
    AnswerKeepsCards(u, b, call, a);
    AnswerKeepsKeys(u, b, call, a);
  }

  lemma FulfilledStays(u: Setup, before: Books, after: Books, call: Call, job: nat)
    requires Grows(before, after) && Fulfils(u, before, call, job)
    ensures Fulfils(u, after, call, job)
  {
    hide WindowOf, Uncached;
  }

  /** No cached card is keyed to this member and session. */
  ghost predicate Purged(cache: map<Key, nat>, actor: string, session: string) {
    forall k :: k in cache ==> k.actor != actor || k.window.session != session
  }

  lemma WindowIsReadable(call: Call, padding: nat)
    requires Readable(call.chunks)
    ensures WindowOf(call, padding).Some? ==> Readable(WindowOf(call, padding).value.chunks)
  {
    hide ReadWindow, ContextInterval, SourceIntervals, UniqueIds, TextSize, Horizon;
    var interval :=
      ContextInterval(call.request.interval, SourceIntervals(call.events, set id | id in call.request.sourceEvents));
    ReadWindowUnique(call.chunks, Max(0, interval.start - padding), interval.end + padding);
  }

  lemma WindowBelongs(call: Call, padding: nat)
    ensures WindowOf(call, padding).Some? ==> WindowOf(call, padding).value.session == call.session
  {
  }

  /** A request adds cache entries for its own requester and session only, and only
      finds such entries. */
  lemma OnlyOwnEntries(u: Setup, b: Books, call: Call, a: Answer, actor: string, session: string)
    requires IsAnswer(u, b, call, a) && Purged(b.cache, actor, session)
    ensures call.actor != actor || call.session != session || !a.Created? ==>
        Purged(Booked(u, b, call, a).cache, actor, session)
    ensures call.actor == actor && call.session == session && a.Created? ==>
        !(a.status.Completed? && a.status.cache.Hit?)
  {
    hide Validated, Misses, WindowOf, Refusal;
    WindowBelongs(call, u.padding);
  }

  // ---------------------------------------------------------------- the service

  class PrivateRecoveryService {
    const setup: Setup
    var jobs: map<nat, Job>
    var jobOwners: map<nat, string>
    var cards: map<nat, StoredCard>
    var cache: map<Key, nat>
    var idempotency: map<RetryKey, nat>
    var consent: set<Permission>
    var ledger: seq<Usage>
    var nextId: nat

    function State(): Books
      reads this
    {
      Books(jobs, jobOwners, cards, cache, idempotency, consent, ledger)
    }

    ghost predicate Valid()
      reads this
    {
      Sound(setup, State()) && forall id :: id in jobs || id in cards ==> id < nextId
    }

    constructor (setup: Setup)
      ensures Valid() && this.setup == setup && State() == NO_BOOKS
    {
      this.setup := setup;
      jobs, jobOwners, cards, cache, idempotency, consent, ledger, nextId :=
        map[], map[], map[], map[], map[], {}, [], 0;
    }

    /** Store a generated card and remember it for this window. */
    method StoreCard(id: nat, call: Call, w: Window, card: Card)
      requires Valid() && id in jobs && WindowOf(call, setup.padding) == Some(w)
      requires KeyOf(setup, call.actor, w) !in cache
      requires w.chunks != [] && Validated(setup.generator, w) == Ok(card)
      modifies this`jobs, this`cards, this`cache, this`ledger, this`nextId
      ensures Valid() && old(nextId) !in old(cards) && nextId == old(nextId) + 1
      ensures State() == Settled(setup, old(State()), call, id, Completed(old(nextId), Miss))
      ensures Ends(setup, old(State()), call, Completed(old(nextId), Miss))
    {
      hide Validated, WindowOf, Sound;
      MissIsSound(setup, State(), call, id, nextId);
      var stored := nextId;
      nextId := nextId + 1;
      cards := cards[stored := StoredCard(card, call.actor, call.request.sourceEvents)];
      cache := cache[KeyOf(setup, call.actor, w) := stored];
      jobs := jobs[id := jobs[id].(status := Completed(stored, Miss))];
      ledger := ledger + [Usage(id, Miss)];
    }

    /** End a job with a cached card or without a card. */
    method FinishJob(id: nat, call: Call, status: JobStatus)
      requires Valid() && id in jobs && Ends(setup, State(), call, status) && !(status.Completed? && status.cache.Miss?)
      modifies this`jobs, this`ledger
      ensures Valid() && State() == Settled(setup, old(State()), call, id, status)
    {
      hide Sound, Ends, Uncached;
      EndIsSound(setup, State(), call, id, status);
      jobs := jobs[id := jobs[id].(status := status)];
      if status.Completed? { ledger := ledger + [Usage(id, Hit)]; }
    }

    method StartJob(id: nat)
      requires Valid() && id in jobs && jobs[id].status.Queued?
      modifies this`jobs
      ensures Valid() && State() == old(State()).(jobs := old(jobs)[id := old(jobs)[id].(status := Running)])
    {
      hide CacheSound, Misses;
      jobs := jobs[id := jobs[id].(status := Running)];
    }

    /** Execute one queued job against the current transcript. */
    method ExecuteJob(id: nat, call: Call) returns (status: JobStatus)
      requires Valid() && Readable(call.chunks) && id in jobs && jobs[id].status.Queued?
      modifies this`jobs, this`cards, this`cache, this`ledger, this`nextId
      ensures Valid() && Ends(setup, old(State()), call, status)
      ensures State() == Settled(setup, old(State()), call, id, status)
    {
      hide Validated, WindowOf, Sound, Valid, Readable;
      StartJob(id);
      CacheIsSound(KeyFor(setup, call));
      var w := WindowOf(call, setup.padding);
      if w.None? || w.value.chunks == [] {
        status := Failed(MissingTranscriptContext);
        FinishJob(id, call, status);
        return;
      }
      WindowIsReadable(call, setup.padding);
      var key := KeyOf(setup, call.actor, w.value);
      if key in cache && cache[key] in cards {
        status := Completed(cache[key], Hit);
        FinishJob(id, call, status);
        return;
      }
      var r := Generate(setup.generator, w.value);
      if r.Err? {
        status := Failed(r.error);
        FinishJob(id, call, status);
        return;
      }
      status := Completed(nextId, Miss);
      StoreCard(id, call, w.value, r.value);
    }

    lemma CacheIsSound(key: Option<Key>)
      requires Valid()
      ensures key.Some? && key.value in cache ==> EntrySound(setup.generator, cards, cache, key.value)
      ensures nextId !in cards && nextId !in jobs
    {
    }

    /** Enqueue a job; its retry key is recorded before it executes. */
    method Enqueue(call: Call) returns (id: nat)
      requires Valid()
      modifies this`jobs, this`jobOwners, this`idempotency, this`nextId
      ensures Valid() && id !in old(jobs) && State() == Enqueued(old(State()), call, id)
    {
      hide Sound;
      id := nextId;
      EnqueuedIsSound(setup, State(), call, id);
      nextId := nextId + 1;
      jobs := jobs[id := Job(call.session, call.request.interval, Queued)];
      if call.idempotencyKey != "" { idempotency := idempotency[RetryOf(call) := id]; }
      jobOwners := jobOwners[id := call.actor];
    }

    /** A refused request changes nothing; a retry under the same key is answered with
        the first job; otherwise a new job is created and executed. */
    method CreateJob(call: Call) returns (a: Answer)
      requires Valid() && Readable(call.chunks)
      modifies this`jobs, this`jobOwners, this`cards, this`cache, this`idempotency, this`ledger, this`nextId
      ensures Valid() && IsAnswer(setup, old(State()), call, a) && State() == Booked(setup, old(State()), call, a)
    {
      hide Sound, Readable, OwnsSources, Ends, Settled, Enqueued;
      if !call.isMember { return Refused(NotAMember); }
      if !call.isStudent { return Refused(Error.Forbidden); }
      if call.request.interval.end > MAX_LECTURE_MS
         || call.request.interval.end - call.request.interval.start > MAX_RECOVERY_INTERVAL_MS {
           return Refused(ValidationFailed);
         }
      if !OwnsSources(call) { return Refused(ValidationFailed); }
      if setup.provider != MOCK && Permission(call.session, call.actor, setup.provider) !in consent {
        return Refused(ConsentRequired);
      }
      if call.idempotencyKey != "" && RetryOf(call) in idempotency {
        var existing := idempotency[RetryOf(call)];
        RetriesLead(RetryOf(call));
        if existing in jobs {
          jobOwners := jobOwners[existing := call.actor];
          return Replayed(existing);
        }
      }
      ghost var before := State();
      var id := Enqueue(call);
      EnqueuedHas(before, call, id);
      JobIsQueued(before, call, id);
      var status := ExecuteJob(id, call);
      EnqueuingKeepsEnds(setup, before, call, id, status);
      a := Created(id, status);
    }

    lemma RetriesLead(k: RetryKey)
      requires Valid() && k in idempotency
      ensures idempotency[k] in jobs && Get(jobOwners, idempotency[k]) == Some(k.actor)
      ensures jobOwners[idempotency[k] := k.actor] == jobOwners
    {
    }

    /** The cached cards owned by this member in this session are exactly those
        keyed to them. */
    lemma OwnedAreKeyed(actor: string, session: string, k: Key)
      requires CacheSound(setup.generator, cards, cache) && k in cache
      ensures cache[k] in cards
      ensures cards[cache[k]].owner == actor && cards[cache[k]].card.session == session <==>
          k.actor == actor && k.window.session == session
    {
      hide Validated;
      assert EntrySound(setup.generator, cards, cache, k);
    }

    /** Delete, one by one, the cache entries of the cards this member owns in this session. */
    method PurgeCards(actor: string, session: string)
      requires CacheSound(setup.generator, cards, cache)
      modifies this`cache
      ensures cache == map k | k in old(cache) && !(k.actor == actor && k.window.session == session) :: old(cache)[k]
    {
      hide CacheSound;
      var owned := set id | id in cards && cards[id].owner == actor && cards[id].card.session == session;
      var stale := set k | k in cache && cache[k] in owned;
      forall k | k in cache ensures k in stale <==> k.actor == actor && k.window.session == session {
        OwnedAreKeyed(actor, session, k);
      }
      var left := stale;
      while left != {}
        invariant left <= stale && cache == old(cache) - (stale - left)
      {
        var key :| key in left;
        left := left - {key};
        cache := cache - {key};
        assert stale - left == (stale - (left + {key})) + {key};
      }
      assert stale - left == stale;
    }

    /** Granting adds one permission unless the store is full. Revoking removes it and
        every cached card of this member and session, and no other. */
    method UpdateConsent(actor: string, isMember: bool, session: string, grantee: string, allowed: bool)
      returns (r: Result<(), Error>)
      requires Valid()
      modifies this`consent, this`cache
      ensures Valid()
      ensures (State(), r) == ConsentChanged(old(State()), Permission(session, actor, grantee), isMember, allowed)
    {
      hide Sound;
      ConsentIsSound(setup, State(), Permission(session, actor, grantee), isMember, allowed);
      if !isMember { return Err(NotAMember); }
      if allowed {
        if |consent| >= MAX_CONSENTS { return Err(CapacityReached); }
        consent := consent + {Permission(session, actor, grantee)};
      } else {
        SoundCache(setup, State());
        consent := consent - {Permission(session, actor, grantee)};
        PurgeCards(actor, session);
      }
      r := Ok(());
    }
  }

  lemma SoundCache(u: Setup, b: Books)
    requires Sound(u, b)
    ensures CacheSound(u.generator, b.cards, b.cache)
  {
  }

  lemma JobIsQueued(b: Books, call: Call, id: nat)
    ensures Enqueued(b, call, id).jobs[id].status == Queued
  {
  }

  // ------------------------------------------------------------- the base key

  /** The unvalidated service's key: bounds and revision, not contents. */
  datatype BaseKey = BaseKey(actor: string, session: string, effective: Interval, revision: nat,
                             model: string, promptVersion: string, schemaVersion: string)

  function BaseKeyOf(k: Key): BaseKey {
    BaseKey(k.actor, k.window.session, k.window.effective, k.window.revision, k.model, k.promptVersion, k.schemaVersion)
  }

  /** An accepted chunk moves the timeline revision exactly when its own revision
      exceeds every stored one. */
  lemma CorrectionMovesRevision(chunks: seq<Chunk>, c: Chunk)
    requires UniqueIds(chunks) && forall prior :: prior in chunks && prior.id == c.id ==> c.revision > prior.revision
    ensures Revision(Accept(chunks, c)) != Revision(chunks) <==> c.revision > Revision(chunks)
  {
    AcceptEvolves(chunks, c);
    OthersMembers(chunks, c.id);
    var after := Accept(chunks, c);
    assert c in after;
    var top :| top in after && top.revision == Revision(after);
    assert top == c || top in Others(chunks, c.id);
  }

  /** Where a padded window ends, given the end of the known transcript. */
  function Clamped(interval: Interval, padding: nat, horizon: int): int {
    Min(Min(interval.end + padding, horizon), MAX_LECTURE_MS)
  }

  /** The base key survives an accepted chunk exactly when the chunk's revision does not
      exceed the stored ones and the horizons before and after clamp the window at the
      same place: the base cache's documented claim that corrections invalidate keys
      holds only above the maximum. */
  lemma BaseKeySurvivesCorrection(key: Key, after: Key, chunks: seq<Chunk>, c: Chunk, interval: Interval, padding: nat)
    requires UniqueIds(chunks) && forall prior :: prior in chunks && prior.id == c.id ==> c.revision > prior.revision
    requires ContextWindow(key.window.session, chunks, interval, padding) == Some(key.window)
    requires ContextWindow(key.window.session, Accept(chunks, c), interval, padding) == Some(after.window)
    requires after == key.(window := after.window)
    ensures BaseKeyOf(key) == BaseKeyOf(after) <==>
              c.revision <= Revision(chunks)
              && Clamped(interval, padding, Horizon(chunks, interval.end))
                  == Clamped(interval, padding, Horizon(Accept(chunks, c), interval.end))
    ensures key == after ==> key.window.chunks == after.window.chunks
  {
    CorrectionMovesRevision(chunks, c);
  }

  /** Such corrections exist: a chunk inside the window is corrected while another
      chunk holds the maximum revision. The base key stays, the contents key moves. */
  lemma BaseKeyMissesCorrection(draft: Chunk, final: Chunk, later: Chunk, key: Key, after: Key)
    requires draft.id == final.id != later.id && draft.revision < final.revision <= later.revision
    requires 0 <= draft.start == final.start < draft.end == final.end <= later.start < later.end && draft.isFinal
    requires final.isFinal
    requires ContextWindow(key.window.session, [draft, later], Interval(draft.start, draft.end), 0) == Some(key.window)
    requires ContextWindow(key.window.session, Accept([draft, later], final), Interval(draft.start, draft.end), 0)
        == Some(after.window)
    requires after == key.(window := after.window) && draft.text != final.text
    ensures BaseKeyOf(key) == BaseKeyOf(after) && key.window.chunks == [draft] && after.window.chunks == [final]
    ensures key != after
  {
    hide Overlapping, SortChunks, Revision, Others, TextSize, Horizon;
    AcceptsCorrection(draft, final, later);
    TwoChunks(draft, later, draft.start, draft.end);
    TwoChunks(later, final, draft.start, draft.end);
    assert [draft] + [] == [draft] && [] + [final] == [final];
  }

  /** Whether a chunk of this id is in a window. */
  predicate Shows(w: Window, id: string) { exists k :: 0 <= k < |w.chunks| && w.chunks[k].id == id }

  /** The contents key survives an accepted chunk exactly when the chunk is in the window
      neither before nor after, its revision does not exceed the stored ones, and the
      horizons clamp the window at the same place: every correction of a chunk that the
      window shows moves the key. */
  lemma ContentsKeySurvivesCorrection(key: Key, after: Key, chunks: seq<Chunk>, c: Chunk, interval: Interval,
                                      padding: nat)
    requires UniqueIds(chunks) && forall prior :: prior in chunks && prior.id == c.id ==> c.revision > prior.revision
    requires ContextWindow(key.window.session, chunks, interval, padding) == Some(key.window)
    requires ContextWindow(key.window.session, Accept(chunks, c), interval, padding) == Some(after.window)
    requires after == key.(window := after.window)
    ensures key == after <==>
              && !Shows(key.window, c.id) && !Shows(after.window, c.id) && c.revision <= Revision(chunks)
              && Clamped(interval, padding, Horizon(chunks, interval.end))
                 == Clamped(interval, padding, Horizon(Accept(chunks, c), interval.end))
  {
    hide Revision, Horizon, ReadWindow, Accept, UniqueIds, TextSize, Shows;
    var start, end := Max(0, interval.start - padding), interval.end + padding;
    CorrectionMovesRevision(chunks, c);
    AcceptedChunks(chunks, c);
    ShowsSelected(chunks, key.window, c.id, start, end);
    ShowsSelected(Accept(chunks, c), after.window, c.id, start, end);
    if key == after && Shows(key.window, c.id) {
      SameChunks(chunks, c, key.window.chunks, start, end);
    } else if !Shows(key.window, c.id) && !Shows(after.window, c.id) {
      SelectedOutside(chunks, c, start, end);
    }
  }

  /** A window that shows the corrected chunk is not the window after the correction. */
  lemma SameChunks(chunks: seq<Chunk>, c: Chunk, shown: seq<Chunk>, start: int, end: int)
    requires forall x :: x in Accept(chunks, c) ==> x == c || (x in chunks && x.id != c.id)
    requires shown == ReadWindow(chunks, start, end) == ReadWindow(Accept(chunks, c), start, end)
    requires forall prior :: prior in chunks && prior.id == c.id ==> c.revision > prior.revision
    ensures forall x :: x in chunks && Selected(x, start, end) ==> x.id != c.id
  {
    hide Accept, ReadWindow;
    ReadWindowIsExact(chunks, start, end);
    ReadWindowIsExact(Accept(chunks, c), start, end);
    forall x | x in chunks && Selected(x, start, end) ensures x.id != c.id { assert x in shown; }
  }

  lemma AcceptedChunks(chunks: seq<Chunk>, c: Chunk)
    requires forall prior :: prior in chunks && prior.id == c.id ==> c.revision > prior.revision
    ensures c in Accept(chunks, c)
    ensures forall x :: x in Accept(chunks, c) ==> x == c || (x in chunks && x.id != c.id)
  {
    OthersMembers(chunks, c.id);
  }

  /** A chunk that is not selected before or after changes no window. */
  lemma SelectedOutside(chunks: seq<Chunk>, c: Chunk, start: int, end: int)
    requires !Selected(c, start, end) && forall x :: x in chunks && Selected(x, start, end) ==> x.id != c.id
    ensures ReadWindow(Accept(chunks, c), start, end) == ReadWindow(chunks, start, end)
  {
    hide SortChunks, Overlapping, Others;
    OverlappingAppend(Others(chunks, c.id), c, start, end);
    OverlappingOthers(chunks, c.id, start, end);
    assert Overlapping(chunks, start, end) + [] == Overlapping(chunks, start, end);
  }

  /** A window shows a chunk of an id exactly when one is selected. */
  lemma ShowsSelected(chunks: seq<Chunk>, w: Window, id: string, start: int, end: int)
    requires w.chunks == ReadWindow(chunks, start, end)
    ensures Shows(w, id) <==> exists x :: x in chunks && Selected(x, start, end) && x.id == id
  {
    hide SortChunks, Overlapping, ReadWindow;
    ReadWindowIsExact(chunks, start, end);
    if Shows(w, id) {
      var k :| 0 <= k < |w.chunks| && w.chunks[k].id == id;
      assert w.chunks[k] in w.chunks;
    }
    forall x | x in chunks && Selected(x, start, end) && x.id == id ensures Shows(w, id) { assert x in w.chunks; }
  }

  lemma {:induction false} OverlappingAppend(chunks: seq<Chunk>, c: Chunk, start: int, end: int)
    ensures Overlapping(chunks + [c], start, end)
            == Overlapping(chunks, start, end) + if Selected(c, start, end) then [c] else []
  {
    if chunks == [] {
      assert [] + [c] == [c] && [c][1..] == [];
    } else {
      assert (chunks + [c])[1..] == chunks[1..] + [c];
      OverlappingAppend(chunks[1..], c, start, end);
      var head := if Selected(chunks[0], start, end) then [chunks[0]] else [];
      var tail := if Selected(c, start, end) then [c] else [];
      var rest := Overlapping(chunks[1..], start, end);
      assert head + (rest + tail) == head + rest + tail;
    }
  }

  lemma {:induction false} OverlappingOthers(chunks: seq<Chunk>, id: string, start: int, end: int)
    requires forall x :: x in chunks && Selected(x, start, end) ==> x.id != id
    ensures Overlapping(Others(chunks, id), start, end) == Overlapping(chunks, start, end)
  {
    if chunks != [] {
      assert chunks[0] in chunks && forall x :: x in chunks[1..] ==> x in chunks;
      OverlappingOthers(chunks[1..], id, start, end);
      var others, rest := Others(chunks[1..], id), Overlapping(chunks[1..], start, end);
      assert [] + others == others && [] + rest == rest && ([chunks[0]] + others)[1..] == others;
    }
  }

  lemma AcceptsCorrection(draft: Chunk, final: Chunk, later: Chunk)
    requires draft.id == final.id != later.id
    ensures Accept([draft, later], final) == [later, final]
  {
    assert [draft, later][1..] == [later] && [later][1..] == [] && Others([later], draft.id) == [later];
  }

  predicate Selected(c: Chunk, start: int, end: int) { c.isFinal && c.start < end && start < c.end }

  lemma TwoChunks(a: Chunk, b: Chunk, start: int, end: int)
    ensures Overlapping([a, b], start, end) == (if Selected(a, start, end) then [a] else [])
        + (if Selected(b, start, end) then [b] else [])
    ensures Revision([a, b]) == Max(a.revision, b.revision) && Horizon([a, b], end) == Max(a.end, b.end)
    ensures SortChunks([a]) == [a] && SortChunks([b]) == [b]
  {
    assert [a, b][1..] == [b] && [b][1..] == [] && [a][1..] == [];
    assert Overlapping([b], start, end) == (if Selected(b, start, end) then [b] else []) + [];
  }
}
