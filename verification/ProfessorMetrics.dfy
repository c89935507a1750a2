/** The professor-metrics service: coverage ingestion, participation and consent,
    signal corrections, and the report computed from the stored records. */
module ProfessorMetrics {
  import opened Common
  import opened Intervals
  import Transcript
  import opened Metrics

  datatype Role = Owner | CourseProfessor | Participant

  datatype Error =
    | NotAMember | Forbidden | StillActive | IngestionEnded | Conflict | CapacityReached | NotFound
    | LectureMismatch | BatchTooLarge | WrongSession | DuplicateSignal

  datatype Receipt = Receipt(accepted: nat, duplicates: nat)

  /** The coverage of one session's participants: what the report copies under the lock. */
  function Relevant(coverage: seq<Entry>, session: string, participants: set<string>): seq<Entry> {
    if coverage == [] then []
    else (if coverage[0].session == session && coverage[0].owner in participants then [coverage[0]] else [])
         + Relevant(coverage[1..], session, participants)
  }

  lemma {:induction false} RelevantObservations(coverage: seq<Entry>, session: string, participants: set<string>,
                                                owner: string, isAvailable: bool)
    requires owner in participants
    ensures Observations(Relevant(coverage, session, participants), session, owner, isAvailable)
        == Observations(coverage, session, owner, isAvailable)
  {
    if coverage != [] {
      RelevantObservations(coverage[1..], session, participants, owner, isAvailable);
      var rest := Relevant(coverage[1..], session, participants);
      assert [] + rest == rest && ([coverage[0]] + rest)[1..] == rest;
    }
  }

  /** One bucket, built the way the report builds it. */
  method BuildBucket(policy: Policy, d: Data, start: int) returns (bucket: Bucket)
    requires start < ReportEnd(d.chunks)
    ensures bucket == BucketOf(policy, d, start)
  {
    hide IsObserved, IsAffected, ReportEnd, ChunkIds, Finals, OptedIn, Reaches;
    var participants := OptedIn(d.participants);
    var end := Min(ReportEnd(d.chunks), start + policy.bucketMs);
    bucket := Bucket(start, end, Suppressed, None, None, false, []);
    if |participants| < policy.minimumGroupSize { return; }
    var kept := Relevant(d.coverage, d.session, participants);
    var observed := ObservedGroup(kept, d.session, participants, start, end);
    forall p | p in participants
      ensures IsObserved(kept, d.session, p, start, end) == IsObserved(d.coverage, d.session, p, start, end)
    {
      RelevantObserved(d.coverage, d.session, participants, p, start, end);
    }
    assert observed == Observed(d, start, end);
    if |observed| < policy.minimumGroupSize {
      bucket := bucket.(status := InsufficientEvidence);
      return;
    }
    bucket := bucket.(coverage := Some(Ratio(|observed|, |participants|)));
    if !Reaches(bucket.coverage.value, policy.minimumCoverage) {
      bucket := bucket.(status := InsufficientEvidence);
      return;
    }
    var affected := AffectedGroup(policy, d.events, observed, start, end);
    bucket := bucket.(status := Available, missed := Some(Ratio(|affected|, |observed|)));
    bucket := bucket.(isHotspot := Reaches(bucket.missed.value, policy.hotspotRatio));
    if bucket.isHotspot {
      bucket := bucket.(chunkIds := First(ChunkIds(Finals(d.chunks), start, end), MAX_BUCKET_CHUNKS));
    }
  }

  lemma RelevantObserved(coverage: seq<Entry>, session: string, participants: set<string>, p: string, start: int,
                         end: int)
    requires p in participants
    ensures IsObserved(Relevant(coverage, session, participants), session, p, start, end)
        == IsObserved(coverage, session, p, start, end)
  {
    RelevantObservations(coverage, session, participants, p, true);
    RelevantObservations(coverage, session, participants, p, false);
  }

  /** Delivery events are released when the available buckets cover all of them. */
  method ReleaseFindings(session: string, deliveries: seq<Delivery>, available: seq<Bucket>)
    returns (findings: seq<Finding>)
    requires forall i :: 0 <= i < |deliveries| ==> deliveries[i].start <= deliveries[i].end
    ensures findings == Findings(session, deliveries, available)
  {
    hide Spans, Measure, IsReleasable, Findings;
    findings := [];
    for k := 0 to |deliveries|
      invariant findings + Findings(session, deliveries[k..], available) == Findings(session, deliveries, available)
    {
      var e := deliveries[k];
      FindingsStep(session, deliveries[k..], available);
      assert deliveries[k..][1..] == deliveries[k + 1..];
      if e.session == session {
        var covered := CoveredDuration(Spans(available), e.start, e.end);
        ReleasableByMeasure(e, available);
        if covered == e.end - e.start { findings := findings + [Finding(e.start, e.end, e.kind, e.confidence)]; }
      }
    }
    FindingsStep(session, deliveries[|deliveries|..], available);
    assert findings + [] == findings;
  }

  lemma FindingsStep(session: string, deliveries: seq<Delivery>, available: seq<Bucket>)
    ensures deliveries == [] ==> Findings(session, deliveries, available) == []
    ensures deliveries != [] ==>
              var e := deliveries[0];
              Findings(session, deliveries, available) ==
              (if e.session == session
               && IsReleasable(e, available) then [Finding(e.start, e.end, e.kind, e.confidence)] else [])
              + Findings(session, deliveries[1..], available)
  {
    hide IsReleasable;
  }

  lemma ReleasableByMeasure(e: Delivery, available: seq<Bucket>)
    requires e.start <= e.end
    ensures IsReleasable(e, available) <==> Measure(Spans(available), e.start, e.end) == e.end - e.start
  {
    MeasureExtremes(Spans(available), e.start, e.end);
  }

  method BuildReport(policy: Policy, d: Data) returns (r: Report)
    requires forall i :: 0 <= i < |d.deliveries| ==> d.deliveries[i].start <= d.deliveries[i].end
    ensures r == ReportOf(policy, d)
  {
    hide BucketOf, ReportEnd, Findings, AvailableOf, OptedIn, Calm;
    var buckets, start := [], 0;
    while start < ReportEnd(d.chunks)
      invariant buckets + BucketsFrom(policy, d, start) == BucketsFrom(policy, d, 0)
      decreases ReportEnd(d.chunks) - start
    {
      var bucket := BuildBucket(policy, d, start);
      buckets := buckets + [bucket];
      start := start + policy.bucketMs;
    }
    assert buckets + [] == buckets;
    var available := AvailableOf(buckets);
    var findings := ReleaseFindings(d.session, d.deliveries, available);
    r := Report(
      if available != [] then Available else if |OptedIn(d.participants)| < policy.minimumGroupSize then Suppressed
      else InsufficientEvidence,
      buckets,
      if available != [] then Some(Ratio(Calm(available), |available|)) else None,
      First(findings, MAX_FINDINGS));
  }

  // ------------------------------------------------------------------ ingestion

  /** Record `j` disagrees with what is stored under its id, or with an earlier one. */
  ghost predicate ConflictsAt(coverage: seq<Entry>, session: string, owner: string, batch: seq<Coverage>, j: nat)
    requires j < |batch|
  {
    || (Lookup(coverage, session, owner, batch[j].id).Some?
        && Lookup(coverage, session, owner, batch[j].id).value != batch[j])
    || exists k :: 0 <= k < j && batch[k].id == batch[j].id && batch[k] != batch[j]
  }

  function FreshIds(coverage: seq<Entry>, session: string, owner: string, batch: seq<Coverage>): set<string> {
    set c | c in batch && Lookup(coverage, session, owner, c.id).None? :: c.id
  }

  /** The first `n` records of a batch agree with what is stored or pending. */
  ghost predicate Agreed(coverage: seq<Entry>, session: string, owner: string, batch: seq<Coverage>, n: nat,
                         pending: seq<Entry>) {
    && n <= |batch|
    && forall j :: 0 <= j < n ==>
         Lookup(coverage + pending, session, owner, batch[j].id) == Some(batch[j])
             && !ConflictsAt(coverage, session, owner, batch, j)
  }

  /** The pending records come from the batch, one for each new id. */
  ghost predicate Sourced(coverage: seq<Entry>, session: string, owner: string, prefix: seq<Coverage>,
                          pending: seq<Entry>) {
    && (forall e :: e in pending ==> e.session == session && e.owner == owner && e.record in prefix)
    && |pending| == |FreshIds(coverage, session, owner, prefix)|
  }

  /** The pending records after the first `n` of a batch. */
  ghost predicate Pending(coverage: seq<Entry>, session: string, owner: string, batch: seq<Coverage>, n: nat,
                          pending: seq<Entry>) {
    UniqueKeys(coverage + pending) && Agreed(coverage, session, owner, batch, n, pending)
        && Sourced(coverage, session, owner, batch[..n], pending)
  }

  lemma PendingConflict(coverage: seq<Entry>, session: string, owner: string, batch: seq<Coverage>, n: nat,
                        pending: seq<Entry>)
    requires Pending(coverage, session, owner, batch, n, pending) && n < |batch|
    ensures var previous := Lookup(coverage + pending, session, owner, batch[n].id);
            ConflictsAt(coverage, session, owner, batch, n) <==> previous.Some? && previous.value != batch[n]
  {
    var id := batch[n].id;
    LookupAppend(coverage, pending, session, owner, id);
    LookupFinds(pending, session, owner, id);
    var previous := Lookup(coverage + pending, session, owner, id);
    if previous.Some? && Lookup(coverage, session, owner, id).None? {
      var e :| e in pending && SameKey(e, session, owner, id) && e.record == previous.value;
      var k :| 0 <= k < n && batch[k] == e.record;
    }
  }

  lemma UniqueAppend(all: seq<Entry>, e: Entry)
    requires UniqueKeys(all) && Lookup(all, e.session, e.owner, e.record.id).None?
    ensures UniqueKeys(all + [e])
  {
    LookupFinds(all, e.session, e.owner, e.record.id);
    forall i | 0 <= i < |all| ensures !SameKey(all[i], e.session, e.owner, e.record.id) { assert all[i] in all; }
  }

  lemma AgreedNext(coverage: seq<Entry>, session: string, owner: string, batch: seq<Coverage>, n: nat,
                   pending: seq<Entry>, more: seq<Entry>)
    requires Agreed(coverage, session, owner, batch, n, pending) && n < |batch|
    requires !ConflictsAt(coverage, session, owner, batch, n)
    requires Lookup(coverage + (pending + more), session, owner, batch[n].id) == Some(batch[n])
    ensures Agreed(coverage, session, owner, batch, n + 1, pending + more)
  {
    hide ConflictsAt, Lookup;
    assert (coverage + pending) + more == coverage + (pending + more);
    forall j | 0 <= j < n ensures Lookup(coverage + (pending + more), session, owner, batch[j].id) == Some(batch[j]) {
      LookupAppend(coverage + pending, more, session, owner, batch[j].id);
    }
  }

  /** A record seen before adds nothing. */
  lemma SourcedAgain(coverage: seq<Entry>, session: string, owner: string, prefix: seq<Coverage>, record: Coverage,
                     pending: seq<Entry>)
    requires Sourced(coverage, session, owner, prefix, pending)
    requires Lookup(coverage + pending, session, owner, record.id).Some?
    ensures Sourced(coverage, session, owner, prefix + [record], pending)
  {
    hide Lookup;
    LookupAppend(coverage, pending, session, owner, record.id);
    if Lookup(coverage, session, owner, record.id).None? {
      LookupFinds(pending, session, owner, record.id);
      var e :| e in pending && SameKey(e, session, owner, record.id);
      assert e.record in prefix && e.record.id == record.id;
    }
    assert FreshIds(coverage, session, owner, prefix + [record]) == FreshIds(coverage, session, owner, prefix);
  }

  /** A record under a new id adds exactly itself. */
  lemma SourcedNew(coverage: seq<Entry>, session: string, owner: string, prefix: seq<Coverage>, record: Coverage,
                   pending: seq<Entry>)
    requires Sourced(coverage, session, owner, prefix, pending)
    requires Lookup(coverage, session, owner, record.id).None? && forall c :: c in prefix ==> c.id != record.id
    ensures Sourced(coverage, session, owner, prefix + [record], pending + [Entry(session, owner, record)])
  {
    hide Lookup;
    assert FreshIds(coverage, session, owner, prefix + [record]) == FreshIds(coverage, session, owner, prefix)
        + {record.id};
  }

  lemma PendingNext(coverage: seq<Entry>, session: string, owner: string, batch: seq<Coverage>, n: nat,
                    pending: seq<Entry>)
    requires Pending(coverage, session, owner, batch, n, pending) && n < |batch|
    requires !ConflictsAt(coverage, session, owner, batch, n)
    ensures Pending(coverage, session, owner, batch, n + 1,
                    if Lookup(coverage + pending, session, owner, batch[n].id).Some? then pending
                    else pending + [Entry(session, owner, batch[n])])
  {
    hide ConflictsAt, UniqueKeys, Lookup, Sourced;
    var record := batch[n];
    PendingConflict(coverage, session, owner, batch, n, pending);
    assert batch[..n + 1] == batch[..n] + [record];
    LookupAppend(coverage, pending, session, owner, record.id);
    if Lookup(coverage + pending, session, owner, record.id).Some? {
      assert pending + [] == pending;
      AgreedNext(coverage, session, owner, batch, n, pending, []);
      SourcedAgain(coverage, session, owner, batch[..n], record, pending);
    } else {
      var e := Entry(session, owner, record);
      assert (coverage + pending) + [e] == coverage + (pending + [e]);
      UniqueAppend(coverage + pending, e);
      LookupAppend(coverage + pending, [e], session, owner, record.id);
      LookupSingle(e);
      AgreedNext(coverage, session, owner, batch, n, pending, [e]);
      forall c | c in batch[..n]
        ensures c.id != record.id
      {
        assert Lookup(coverage + pending, session, owner, c.id) == Some(c);
      }
      SourcedNew(coverage, session, owner, batch[..n], record, pending);
    }
  }

  lemma LookupSingle(e: Entry)
    ensures Lookup([e], e.session, e.owner, e.record.id) == Some(e.record)
  {
  }

  /** The records a batch adds: the first one of each id that is not stored yet. */
  function NewEntries(coverage: seq<Entry>, session: string, owner: string, batch: seq<Coverage>): (added: seq<Entry>)
    ensures |added| <= |batch|
  {
    if batch == [] then []
    else
      var before, last := NewEntries(coverage, session, owner, batch[..|batch| - 1]), batch[|batch| - 1];
      if Lookup(coverage + before, session, owner, last.id).Some? then before
      else before + [Entry(session, owner, last)]
  }

  /** Some record of the batch disagrees with what is stored or pending under its id. */
  function Disagrees(coverage: seq<Entry>, session: string, owner: string, batch: seq<Coverage>): bool {
    if batch == [] then false
    else
      var before, last := batch[..|batch| - 1], batch[|batch| - 1];
      var previous := Lookup(coverage + NewEntries(coverage, session, owner, before), session, owner, last.id);
      Disagrees(coverage, session, owner, before) || (previous.Some? && previous.value != last)
  }

  /** The batch disagrees exactly when some record conflicts with a stored one or with an
      earlier one of the batch; otherwise its new records are pending. */
  lemma {:induction false} DisagreesExactly(coverage: seq<Entry>, session: string, owner: string,
                                            batch: seq<Coverage>, n: nat)
    requires UniqueKeys(coverage) && n <= |batch|
    ensures Disagrees(coverage, session, owner, batch[..n]) <==>
        exists j :: 0 <= j < n && ConflictsAt(coverage, session, owner, batch, j)
    ensures !Disagrees(coverage, session, owner, batch[..n]) ==>
              Pending(coverage, session, owner, batch, n, NewEntries(coverage, session, owner, batch[..n]))
  {
    hide ConflictsAt, UniqueKeys, Lookup, Pending;
    if n == 0 {
      PendingNone(coverage, session, owner, batch);
    } else {
      DisagreesExactly(coverage, session, owner, batch, n - 1);
      assert batch[..n][..n - 1] == batch[..n - 1];
      var before := NewEntries(coverage, session, owner, batch[..n - 1]);
      if !Disagrees(coverage, session, owner, batch[..n - 1]) {
        PendingConflict(coverage, session, owner, batch, n - 1, before);
        if !ConflictsAt(coverage, session, owner, batch, n - 1) {
          PendingNext(coverage, session, owner, batch, n - 1, before);
        }
      }
    }
  }

  lemma PendingNone(coverage: seq<Entry>, session: string, owner: string, batch: seq<Coverage>)
    requires UniqueKeys(coverage)
    ensures Pending(coverage, session, owner, batch, 0, [])
  {
    assert coverage + [] == coverage;
  }

  /** What an accepted batch did to the store: every record of it can be found, what
      was there stays, and what was added is this owner's new records, one per id. */
  ghost predicate Ingested(before: seq<Entry>, after: seq<Entry>, session: string, owner: string,
                           batch: seq<Coverage>, receipt: Receipt) {
    && before <= after && receipt.accepted == |after| - |before| == |FreshIds(before, session, owner, batch)|
    && receipt.accepted + receipt.duplicates == |batch|
    && (forall j :: 0 <= j < |batch| ==> Lookup(after, session, owner, batch[j].id) == Some(batch[j]))
    && (forall i :: |before| <= i < |after| ==>
        after[i].session == session && after[i].owner == owner && after[i].record in batch)
  }

  lemma PendingIngested(before: seq<Entry>, session: string, owner: string, batch: seq<Coverage>, pending: seq<Entry>,
                        duplicates: nat)
    requires Pending(before, session, owner, batch, |batch|, pending) && |pending| + duplicates == |batch|
    ensures Ingested(before, before + pending, session, owner, batch, Receipt(|pending|, duplicates))
    ensures UniqueKeys(before + pending)
  {
    hide Lookup, ConflictsAt, UniqueKeys, FreshIds;
    assert batch[..|batch|] == batch;
    forall i | |before| <= i < |before + pending|
      ensures (before + pending)[i].session == session && (before + pending)[i].owner == owner
      ensures (before + pending)[i].record in batch
    {
      assert (before + pending)[i] in pending;
    }
  }

  /** The first stored signal with an id. */
  function FirstIndex(events: seq<Signal>, id: string): (r: Option<nat>)
    ensures r.Some? ==> r.value < |events|
  {
    if events == [] then None
    else if events[0].id == id then Some(0)
    else match FirstIndex(events[1..], id) case Some(k) => Some(k + 1) case None => None
  }

  // -------------------------------------------------------------- the records

  /** How a service is configured. */
  datatype Setup = Setup(policy: Option<Policy>, isDemoOrTest: bool, maximumRecords: nat, maxBatchEvents: nat)

  /** What the services have on record, per session where it matters. */
  datatype Records = Records(participants: map<string, map<string, bool>>, events: map<string, seq<Signal>>,
                             chunks: map<string, seq<Transcript.Chunk>>, ended: set<string>,
                             coverage: seq<Entry>, deliveries: seq<Delivery>)

  function Registered(r: Records, session: string): map<string, bool> {
    if session in r.participants then r.participants[session] else map[]
  }

  function EventsOf(r: Records, session: string): seq<Signal> { if session in r.events then r.events[session] else [] }

  predicate IsOptedIn(r: Records, session: string, user: string) { Get(Registered(r, session), user) == Some(true) }

  /** The records one session's report reads. */
  function DataOf(r: Records, session: string): Data {
    Data(session, Registered(r, session), r.coverage, EventsOf(r, session), r.deliveries,
         Transcript.ChunksOf(r.chunks, session))
  }

  /** Stored coverage is keyed uniquely and belongs to opted-in participants only. */
  ghost predicate Sound(u: Setup, r: Records) {
    && UniqueKeys(r.coverage) && |r.coverage| <= u.maximumRecords
    && (forall i :: 0 <= i < |r.deliveries| ==> r.deliveries[i].start < r.deliveries[i].end)
    && (forall e :: e in r.coverage ==> IsOptedIn(r, e.session, e.owner))
  }

  // ------------------------------------------------- the operations on the records

  function Denial(u: Setup, r: Records, isProfessor: bool, membership: Option<Role>, session: string): Option<Error> {
    if membership.None? then Some(NotAMember)
    else if !isProfessor || membership.value.Participant? then Some(Forbidden)
    else if session !in r.ended then Some(StillActive)
    else if u.policy.None? || (!u.policy.value.isApproved && !u.isDemoOrTest) then Some(Forbidden)
    else None
  }

  ghost function ReportFor(u: Setup, r: Records, isProfessor: bool, membership: Option<Role>,
                           session: string): Result<Report, Error>
  {
    var denial := Denial(u, r, isProfessor, membership, session);
    if denial.Some? then Err(denial.value) else Ok(ReportOf(u.policy.value, DataOf(r, session)))
  }

  /** Joining opts a new participant in; joining again changes nothing. */
  function Joined(r: Records, session: string, user: string): Records {
    if user in Registered(r, session) then r
    else r.(participants := r.participants[session := Registered(r, session)[user := true]])
  }

  function Ended(r: Records, isOwner: bool, session: string): (Records, Result<(), Error>) {
    if !isOwner then (r, Err(Forbidden)) else (r.(ended := r.ended + {session}), Ok(()))
  }

  /** A consent choice: withdrawing erases the participant's coverage of the session. */
  function Chosen(r: Records, actor: string, isMember: bool, isStudent: bool, session: string,
                  allowed: bool): (Records, Result<(), Error>) {
    if !isMember then (r, Err(NotAMember))
    else if actor !in Registered(r, session) || !isStudent then (r, Err(Forbidden))
    else
      (r.(participants := r.participants[session := Registered(r, session)[actor := allowed]],
          coverage := if allowed then r.coverage else Erase(r.coverage, session, actor)), Ok(()))
  }

  function CoverageIngested(u: Setup, r: Records, actor: string, isStudent: bool, isMemberOptedIn: bool,
                            session: string, batch: seq<Coverage>)
    : (Records, Result<Receipt, Error>)
  {
    var added := NewEntries(r.coverage, session, actor, batch);
    if !isStudent || !isMemberOptedIn || !IsOptedIn(r, session, actor) then (r, Err(Forbidden))
    else if session in r.ended then (r, Err(IngestionEnded))
    else if Disagrees(r.coverage, session, actor, batch) then (r, Err(Conflict))
    else if |r.coverage| + |added| > u.maximumRecords then (r, Err(CapacityReached))
    else (r.(coverage := r.coverage + added), Ok(Receipt(|added|, |batch| - |added|)))
  }

  /** Why a signal of a batch is rejected, given the stored ones and those before it. */
  function SignalFault(stored: seq<Signal>, session: string, batch: seq<Signal>, n: nat): Option<Error>
    requires n < |batch|
  {
    if batch[n].session != session then Some(WrongSession)
    else if FirstIndex(stored, batch[n].id).Some? || FirstIndex(batch[..n], batch[n].id).Some? then
        Some(DuplicateSignal)
    else None
  }

  /** The fault of the first faulty signal from position `n` on. */
  function FaultFrom(stored: seq<Signal>, session: string, batch: seq<Signal>, n: nat): Option<Error>
    requires n <= |batch|
    decreases |batch| - n
  {
    if n == |batch| then None
    else if SignalFault(stored, session, batch, n).Some? then SignalFault(stored, session, batch, n)
    else FaultFrom(stored, session, batch, n + 1)
  }

  function Submitted(batch: seq<Signal>, actor: string): seq<Signal> {
    if batch == [] then [] else [batch[0].(owner := actor)] + Submitted(batch[1..], actor)
  }

  function SignalsIngested(u: Setup, r: Records, actor: string, membership: Option<Role>, isLecture: bool,
                           session: string, batch: seq<Signal>)
    : (Records, Result<(), Error>)
  {
    var stored := EventsOf(r, session);
    if membership.None? then (r, Err(NotAMember))
    else if membership.value.CourseProfessor? then (r, Err(Forbidden))
    else if session in r.ended then (r, Err(IngestionEnded))
    else if !isLecture then (r, Err(LectureMismatch))
    else if |batch| > u.maxBatchEvents then (r, Err(BatchTooLarge))
    else if FaultFrom(stored, session, batch, 0).Some? then (r, Err(FaultFrom(stored, session, batch, 0).value))
    else (r.(events := r.events[session := stored + Submitted(batch, actor)]), Ok(()))
  }

  function Delivered(deliveries: seq<Delivery>, session: string, id: string): Option<Delivery> {
    if deliveries == [] then None
    else if deliveries[0].session == session && deliveries[0].id == id then Some(deliveries[0])
    else Delivered(deliveries[1..], session, id)
  }

  /** The delivery events a batch adds, each under this session. */
  function NewDeliveries(deliveries: seq<Delivery>, session: string, batch: seq<Delivery>): (added: seq<Delivery>)
    ensures |added| <= |batch|
  {
    if batch == [] then []
    else
      var before, last := NewDeliveries(deliveries, session, batch[..|batch| - 1]),
          batch[|batch| - 1].(session := session);
      if Delivered(deliveries + before, session, last.id).Some? then before else before + [last]
  }

  function DeliveriesDisagree(deliveries: seq<Delivery>, session: string, batch: seq<Delivery>): bool {
    if batch == [] then false
    else
      var before, last := batch[..|batch| - 1], batch[|batch| - 1].(session := session);
      var previous := Delivered(deliveries + NewDeliveries(deliveries, session, before), session, last.id);
      DeliveriesDisagree(deliveries, session, before) || (previous.Some? && previous.value != last)
  }

  function DeliveriesIngested(u: Setup, r: Records, isMember: bool, isCourseProfessor: bool, session: string,
                              batch: seq<Delivery>)
    : (Records, Result<Receipt, Error>)
  {
    var added := NewDeliveries(r.deliveries, session, batch);
    if !isMember then (r, Err(NotAMember))
    else if !isCourseProfessor then (r, Err(Forbidden))
    else if session in r.ended then (r, Err(IngestionEnded))
    else if DeliveriesDisagree(r.deliveries, session, batch) then (r, Err(Conflict))
    else if |r.deliveries| + |added| > u.maximumRecords then (r, Err(CapacityReached))
    else (r.(deliveries := r.deliveries + added), Ok(Receipt(|added|, |batch| - |added|)))
  }

  /** A correction by the submitter of the first stored signal with the id. */
  function Confirmed(r: Records, actor: string, membership: Option<Role>, session: string, id: string, confirmed: bool)
    : (Records, Result<Signal, Error>)
  {
    var list := EventsOf(r, session);
    var k := FirstIndex(list, id);
    if membership.None? then (r, Err(NotAMember))
    else if membership.value.CourseProfessor? then (r, Err(Forbidden))
    else if k.None? then (r, Err(NotFound))
    else if list[k.value].owner != actor then (r, Err(Forbidden))
    else
      var corrected := Corrected(list, k.value, confirmed);
      (r.(events := r.events[session := corrected]), Ok(corrected[k.value]))
  }

  function CoverageElsewhere(coverage: seq<Entry>, session: string): seq<Entry> {
    if coverage == [] then []
    else (if coverage[0].session == session then [] else [coverage[0]]) + CoverageElsewhere(coverage[1..], session)
  }

  function DeliveriesElsewhere(deliveries: seq<Delivery>, session: string): seq<Delivery> {
    if deliveries == [] then []
    else
      (if deliveries[0].session == session then [] else [deliveries[0]]) + DeliveriesElsewhere(deliveries[1..], session)
  }

  /** Deleting a session erases its coverage and its delivery events. */
  function Forgotten(r: Records, session: string): Records {
    r.(coverage := CoverageElsewhere(r.coverage, session), deliveries := DeliveriesElsewhere(r.deliveries, session))
  }

  // ------------------------------------------------------ what the operations mean

  /** Coverage ingestion in declarative terms: when it conflicts, and what it stores. */
  lemma CoverageIngestedMeans(u: Setup, r: Records, actor: string, session: string, batch: seq<Coverage>)
    requires Sound(u, r) && IsOptedIn(r, session, actor) && session !in r.ended
    ensures var (after, reply) := CoverageIngested(u, r, actor, true, true, session, batch);
            && (reply == Err(Conflict) <==>
                exists j :: 0 <= j < |batch| && ConflictsAt(r.coverage, session, actor, batch, j))
            && (reply == Err(CapacityReached) <==>
                  (forall j :: 0 <= j < |batch| ==> !ConflictsAt(r.coverage, session, actor, batch, j))
                  && |r.coverage| + |FreshIds(r.coverage, session, actor, batch)| > u.maximumRecords)
            && (reply.Err? ==> after == r && (reply.error.Conflict? || reply.error.CapacityReached?))
            && (reply.Ok? ==>
                Ingested(r.coverage, after.coverage, session, actor, batch, reply.value) && UniqueKeys(after.coverage))
  {
    hide ConflictsAt, UniqueKeys, Lookup, FreshIds, NewEntries, Agreed, Disagrees;
    DisagreesExactly(r.coverage, session, actor, batch, |batch|);
    assert batch[..|batch|] == batch;
    var added := NewEntries(r.coverage, session, actor, batch);
    if !Disagrees(r.coverage, session, actor, batch) {
      NoConflicts(r.coverage, session, actor, batch, added);
      PendingIngested(r.coverage, session, actor, batch, added, |batch| - |added|);
    }
  }

  lemma NoConflicts(coverage: seq<Entry>, session: string, owner: string, batch: seq<Coverage>, added: seq<Entry>)
    requires Pending(coverage, session, owner, batch, |batch|, added)
    ensures forall j :: 0 <= j < |batch| ==> !ConflictsAt(coverage, session, owner, batch, j)
    ensures |added| == |FreshIds(coverage, session, owner, batch)|
    ensures forall e :: e in added ==> e.session == session && e.owner == owner
  {
    hide ConflictsAt, UniqueKeys, Lookup, FreshIds;
    assert batch[..|batch|] == batch;
  }

  /** Ingesting a batch again stores nothing and counts every record as a duplicate. */
  lemma RetryIngestion(u: Setup, r: Records, actor: string, session: string, batch: seq<Coverage>)
    requires Sound(u, r) && CoverageIngested(u, r, actor, true, true, session, batch).1.Ok?
    ensures var after := CoverageIngested(u, r, actor, true, true, session, batch).0;
            CoverageIngested(u, after, actor, true, true, session, batch) == (after, Ok(Receipt(0, |batch|)))
  {
    hide UniqueKeys, Lookup, Sound;
    var after := CoverageIngested(u, r, actor, true, true, session, batch).0;
    CoverageIngestedMeans(u, r, actor, session, batch);
    NothingNew(after.coverage, session, actor, batch, |batch|);
    assert batch[..|batch|] == batch && after.coverage + [] == after.coverage;
  }

  lemma {:induction false} NothingNew(stored: seq<Entry>, session: string, owner: string, batch: seq<Coverage>, n: nat)
    requires n <= |batch| && forall j :: 0 <= j < |batch| ==>
        Lookup(stored, session, owner, batch[j].id) == Some(batch[j])
    ensures NewEntries(stored, session, owner, batch[..n]) == [] && !Disagrees(stored, session, owner, batch[..n])
  {
    hide Lookup;
    if n > 0 {
      NothingNew(stored, session, owner, batch, n - 1);
      assert batch[..n][..n - 1] == batch[..n - 1] && stored + [] == stored;
    }
  }

  lemma {:induction false} FirstIndexInside(events: seq<Signal>, id: string)
    ensures FirstIndex(events, id).Some? ==>
        FirstIndex(events, id).value < |events| && events[FirstIndex(events, id).value].id == id
    ensures FirstIndex(events, id).None? ==> forall e :: e in events ==> e.id != id
  {
    if events != [] {
      FirstIndexInside(events[1..], id);
      assert events == [events[0]] + events[1..];
    }
  }

  /** The reports before and after a correction of the session's signals: a denial makes
      the later one nowhere worse, a confirmation nowhere better, and a refused
      correction leaves it as it was. */
  lemma ReportAroundCorrection(u: Setup, r: Records, actor: string, membership: Option<Role>, session: string,
                               id: string, confirmed: bool,
                               isProfessor: bool, reader: Option<Role>)
    requires u.policy.Some?
    ensures var (after, reply) := Confirmed(r, actor, membership, session, id, confirmed);
            var x, y := ReportFor(u, r, isProfessor, reader, session),
                ReportFor(u, after, isProfessor, reader, session);
            && (x.Err? || y.Err? ==> x == y)
            && (reply.Err? ==> after == r)
            && (reply.Ok? && x.Ok? && y.Ok? ==>
                if confirmed then ReportNoWorse(x.value, y.value) else ReportNoWorse(y.value, x.value))
  {
    hide ReportOf, ReportNoWorse, Weaker, FirstIndex, Corrected;
    var (after, reply) := Confirmed(r, actor, membership, session, id, confirmed);
    if reply.Ok? {
      var list := EventsOf(r, session);
      FirstIndexInside(list, id);
      CorrectionDirection(list, FirstIndex(list, id).value);
      var d, e := DataOf(r, session), DataOf(after, session);
      assert d == e.(events := d.events) && e == d.(events := e.events);
      CorrectionMonotone(u.policy.value, if confirmed then d else e, if confirmed then e else d);
    }
  }

  // -------------------------------------------------------------- whole runs

  datatype Operation =
    | Register(session: string, user: string)
    | EndSession(isOwner: bool, session: string)
    | Transcribe(ingestion: Transcript.Ingestion)
    | SubmitSignals(actor: string, membership: Option<Role>, isLecture: bool, session: string, signals: seq<Signal>)
    | Cover(actor: string, isStudent: bool, isMemberOptedIn: bool, session: string, coverage: seq<Coverage>)
    | Deliver(isMember: bool, isCourseProfessor: bool, session: string, deliveries: seq<Delivery>)
    | SetConsent(actor: string, isMember: bool, isStudent: bool, session: string, allowed: bool)
    | Confirm(actor: string, membership: Option<Role>, session: string, id: string, confirmed: bool)
    | Forget(session: string)
    | Read(isProfessor: bool, membership: Option<Role>, session: string)

  datatype Reply =
    | Done(result: Result<(), Error>)
    | Received(receipt: Result<Receipt, Error>)
    | Transcribed(transcript: Result<Transcript.Receipt, Transcript.Error>)
    | Amended(signal: Result<Signal, Error>)
    | Released(report: Result<Report, Error>)

  /** Delivery intervals are validated to be non-empty. */
  predicate IsProper(op: Operation) {
    op.Deliver? ==> forall i :: 0 <= i < |op.deliveries| ==> op.deliveries[i].start < op.deliveries[i].end
  }

  ghost function Next(u: Setup, limits: Transcript.Limits, r: Records, op: Operation): Records {
    match op
    case Register(session, user) => Joined(r, session, user)
    case EndSession(isOwner, session) => Ended(r, isOwner, session).0
    case Transcribe(i) => r.(chunks := Transcript.IngestedInto(limits, r.chunks, i))
    case SubmitSignals(a, m, isLecture, session, batch) => SignalsIngested(u, r, a, m, isLecture, session, batch).0
    case Cover(a, isStudent, isMemberOptedIn, session, batch) =>
      CoverageIngested(u, r, a, isStudent, isMemberOptedIn, session, batch).0
    case Deliver(isMember, isCourseProfessor, session, batch) =>
      DeliveriesIngested(u, r, isMember, isCourseProfessor, session, batch).0
    case SetConsent(a, isMember, isStudent, session, allowed) => Chosen(r, a, isMember, isStudent, session, allowed).0
    case Confirm(a, m, session, id, confirmed) => Confirmed(r, a, m, session, id, confirmed).0
    case Forget(session) => Forgotten(r, session)
    case Read(_, _, _) => r
  }

  ghost predicate Replies(u: Setup, limits: Transcript.Limits, r: Records, op: Operation, reply: Reply) {
    match op
    case Register(_, _) => reply == Done(Ok(()))
    case EndSession(isOwner, session) => reply == Done(Ended(r, isOwner, session).1)
    case Transcribe(i) => reply.Transcribed? && Transcript.IngestAnswer(limits, r.chunks, i, reply.transcript)
    case SubmitSignals(a, m, isLecture, session, batch) =>
      reply == Done(SignalsIngested(u, r, a, m, isLecture, session, batch).1)
    case Cover(a, isStudent, isMemberOptedIn, session, batch) =>
      reply == Received(CoverageIngested(u, r, a, isStudent, isMemberOptedIn, session, batch).1)
    case Deliver(isMember, isCourseProfessor, session, batch) =>
      reply == Received(DeliveriesIngested(u, r, isMember, isCourseProfessor, session, batch).1)
    case SetConsent(a, isMember, isStudent, session, allowed) =>
      reply == Done(Chosen(r, a, isMember, isStudent, session, allowed).1)
    case Confirm(a, m, session, id, confirmed) => reply == Amended(Confirmed(r, a, m, session, id, confirmed).1)
    case Forget(_) => reply == Done(Ok(()))
    case Read(isProfessor, membership, session) => reply == Released(ReportFor(u, r, isProfessor, membership, session))
  }

  /** The records after a run of operations. */
  ghost function After(u: Setup, limits: Transcript.Limits, start: Records, ops: seq<Operation>): Records {
    if ops == [] then start else Next(u, limits, After(u, limits, start, ops[..|ops| - 1]), ops[|ops| - 1])
  }

  /** Every reply is the one its operation has on the records it meets. */
  ghost predicate AreReplies(u: Setup, limits: Transcript.Limits, start: Records, ops: seq<Operation>,
                             replies: seq<Reply>)
  {
    && |replies| == |ops|
    && forall i :: 0 <= i < |ops| ==> Replies(u, limits, After(u, limits, start, ops[..i]), ops[i], replies[i])
  }

  lemma {:induction false} ElsewhereMembers(coverage: seq<Entry>, session: string)
    ensures forall e :: e in CoverageElsewhere(coverage, session) <==> e in coverage && e.session != session
    ensures |CoverageElsewhere(coverage, session)| <= |coverage|
  {
    if coverage != [] {
      assert coverage == [coverage[0]] + coverage[1..];
      ElsewhereMembers(coverage[1..], session);
    }
  }

  lemma {:induction false} ElsewhereKeepsUnique(coverage: seq<Entry>, session: string)
    requires UniqueKeys(coverage)
    ensures UniqueKeys(CoverageElsewhere(coverage, session))
  {
    hide SameKey;
    if coverage != [] {
      var rest := coverage[1..];
      ElsewhereMembers(rest, session);
      assert UniqueKeys(rest);
      ElsewhereKeepsUnique(rest, session);
      var kept := CoverageElsewhere(rest, session);
      forall j | 0 <= j < |kept| ensures !SameKey(coverage[0], kept[j].session, kept[j].owner, kept[j].record.id) {
        assert kept[j] in rest;
        var k :| 0 <= k < |rest| && rest[k] == kept[j];
        assert coverage[k + 1] == kept[j];
      }
    }
  }

  lemma {:induction false} DeliveriesStayProper(deliveries: seq<Delivery>, session: string)
    requires forall d :: d in deliveries ==> d.start < d.end
    ensures forall d :: d in DeliveriesElsewhere(deliveries, session) ==> d.start < d.end
  {
    if deliveries != [] { DeliveriesStayProper(deliveries[1..], session); }
  }

  lemma {:induction false} NewDeliveriesProper(deliveries: seq<Delivery>, session: string, batch: seq<Delivery>)
    requires forall i :: 0 <= i < |batch| ==> batch[i].start < batch[i].end
    ensures forall d :: d in NewDeliveries(deliveries, session, batch) ==> d.start < d.end
  {
    if batch != [] { NewDeliveriesProper(deliveries, session, batch[..|batch| - 1]); }
  }

  lemma CoverageKeepsSound(u: Setup, r: Records, actor: string, isStudent: bool, isMemberOptedIn: bool,
                           session: string, batch: seq<Coverage>)
    requires Sound(u, r)
    ensures Sound(u, CoverageIngested(u, r, actor, isStudent, isMemberOptedIn, session, batch).0)
  {
    hide UniqueKeys, Ingested, Disagrees, NewEntries;
    var (after, reply) := CoverageIngested(u, r, actor, isStudent, isMemberOptedIn, session, batch);
    if reply.Ok? {
      CoverageIngestedMeans(u, r, actor, session, batch);
      IngestedOwners(r.coverage, after.coverage, session, actor, batch, reply.value);
    }
  }

  lemma IngestedOwners(before: seq<Entry>, after: seq<Entry>, session: string, owner: string, batch: seq<Coverage>,
                       receipt: Receipt)
    requires Ingested(before, after, session, owner, batch, receipt)
    ensures forall e :: e in after ==> e in before || (e.session == session && e.owner == owner)
  {
    hide FreshIds, Lookup;
  }

  lemma ChoiceKeepsSound(u: Setup, r: Records, actor: string, isMember: bool, isStudent: bool, session: string,
                         allowed: bool)
    requires Sound(u, r)
    ensures Sound(u, Chosen(r, actor, isMember, isStudent, session, allowed).0)
  {
    hide UniqueKeys, Erase;
    EraseMembers(r.coverage, session, actor);
    EraseKeepsUnique(r.coverage, session, actor);
    var after := Chosen(r, actor, isMember, isStudent, session, allowed).0;
    forall e | e in after.coverage
      ensures IsOptedIn(after, e.session, e.owner)
    {
      assert IsOptedIn(r, e.session, e.owner);
    }
  }

  lemma ForgettingKeepsSound(u: Setup, r: Records, session: string)
    requires Sound(u, r)
    ensures Sound(u, Forgotten(r, session))
  {
    hide UniqueKeys, CoverageElsewhere, DeliveriesElsewhere;
    ElsewhereMembers(r.coverage, session);
    ElsewhereKeepsUnique(r.coverage, session);
    DeliveriesStayProper(r.deliveries, session);
    var after := Forgotten(r, session);
    forall i | 0 <= i < |after.deliveries|
      ensures after.deliveries[i].start < after.deliveries[i].end
    {
      assert after.deliveries[i] in after.deliveries;
    }
    forall e | e in after.coverage
      ensures IsOptedIn(after, e.session, e.owner)
    {
      assert IsOptedIn(r, e.session, e.owner);
    }
  }

  lemma JoiningKeepsSound(u: Setup, r: Records, session: string, user: string)
    requires Sound(u, r)
    ensures Sound(u, Joined(r, session, user))
  {
    hide UniqueKeys;
    var after := Joined(r, session, user);
    forall e | e in after.coverage
      ensures IsOptedIn(after, e.session, e.owner)
    {
      assert IsOptedIn(r, e.session, e.owner);
    }
  }

  lemma DeliveriesKeepSound(u: Setup, r: Records, isMember: bool, isCourseProfessor: bool, session: string,
                            batch: seq<Delivery>)
    requires Sound(u, r) && forall i :: 0 <= i < |batch| ==> batch[i].start < batch[i].end
    ensures Sound(u, DeliveriesIngested(u, r, isMember, isCourseProfessor, session, batch).0)
  {
    hide UniqueKeys, NewDeliveries, DeliveriesDisagree;
    NewDeliveriesProper(r.deliveries, session, batch);
    var after := DeliveriesIngested(u, r, isMember, isCourseProfessor, session, batch).0;
    forall i | 0 <= i < |after.deliveries| ensures after.deliveries[i].start < after.deliveries[i].end {
      if i >= |r.deliveries| { assert after.deliveries[i] in NewDeliveries(r.deliveries, session, batch); }
    }
    forall e | e in after.coverage
      ensures IsOptedIn(after, e.session, e.owner)
    {
      assert IsOptedIn(r, e.session, e.owner);
    }
  }

  /** Soundness and consent only depend on coverage, participants and deliveries. */
  lemma SoundElsewhere(u: Setup, r: Records, events: map<string, seq<Signal>>,
                       chunks: map<string, seq<Transcript.Chunk>>, ended: set<string>)
    requires Sound(u, r)
    ensures Sound(u, r.(events := events, chunks := chunks, ended := ended))
  {
    hide UniqueKeys;
    var after := r.(events := events, chunks := chunks, ended := ended);
    forall e | e in after.coverage
      ensures IsOptedIn(after, e.session, e.owner)
    {
      assert IsOptedIn(r, e.session, e.owner);
    }
  }

  lemma StepKeepsSound(u: Setup, limits: Transcript.Limits, r: Records, op: Operation)
    requires Sound(u, r) && IsProper(op)
    ensures Sound(u, Next(u, limits, r, op))
  {
    hide Sound, FaultFrom, CoverageIngested, Chosen, Forgotten, Joined, DeliveriesIngested, FirstIndex,
        Transcript.IngestedInto;
    SoundElsewhere(u, r, Next(u, limits, r, op).events, Next(u, limits, r, op).chunks, Next(u, limits, r, op).ended);
    match op
    case Register(session, user) => JoiningKeepsSound(u, r, session, user);
    case Cover(a, isStudent, isMemberOptedIn, session, batch) =>
      CoverageKeepsSound(u, r, a, isStudent, isMemberOptedIn, session, batch);
    case Deliver(isMember, isCourseProfessor, session, batch) =>
      DeliveriesKeepSound(u, r, isMember, isCourseProfessor, session, batch);
    case SetConsent(a, isMember, isStudent, session, allowed) =>
      ChoiceKeepsSound(u, r, a, isMember, isStudent, session, allowed);
    case Forget(session) => ForgettingKeepsSound(u, r, session);
    case _ =>
  }

  ghost predicate AllUnique(chunks: map<string, seq<Transcript.Chunk>>) {
    forall session :: Transcript.UniqueIds(Transcript.ChunksOf(chunks, session))
  }

  /** Every operation keeps the ids of the stored chunks unique. */
  lemma StepKeepsUnique(u: Setup, limits: Transcript.Limits, r: Records, op: Operation)
    requires AllUnique(r.chunks)
    ensures AllUnique(Next(u, limits, r, op).chunks)
  {
    hide Transcript.UniqueIds, Transcript.IngestedInto;
    if op.Transcribe? {
      forall session
        ensures Transcript.UniqueIds(Transcript.ChunksOf(Next(u, limits, r, op).chunks, session))
      {
        Transcript.IngestionKeepsUnique(limits, r.chunks, op.ingestion, session);
      }
    }
  }

  lemma {:induction false} RunKeepsSound(u: Setup, limits: Transcript.Limits, start: Records, ops: seq<Operation>)
    requires Sound(u, start) && forall i :: 0 <= i < |ops| ==> IsProper(ops[i])
    ensures Sound(u, After(u, limits, start, ops))
  {
    hide Sound, Next;
    if ops != [] {
      RunKeepsSound(u, limits, start, ops[..|ops| - 1]);
      StepKeepsSound(u, limits, After(u, limits, start, ops[..|ops| - 1]), ops[|ops| - 1]);
    }
  }

  /** The operation opts this participant in again. */
  predicate OptsIn(op: Operation, actor: string, session: string) {
    op.SetConsent? && op.actor == actor && op.session == session && op.allowed
  }

  predicate IsOut(r: Records, actor: string, session: string) { Get(Registered(r, session), actor) == Some(false) }

  /** Nothing but their own choice opts a participant in again. */
  lemma StepKeepsOut(u: Setup, limits: Transcript.Limits, r: Records, op: Operation, actor: string, session: string)
    requires IsOut(r, actor, session) && !OptsIn(op, actor, session)
    ensures IsOut(Next(u, limits, r, op), actor, session)
  {
    hide FaultFrom, NewEntries, NewDeliveries, Disagrees, DeliveriesDisagree, Erase, FirstIndex, CoverageElsewhere,
        DeliveriesElsewhere,
         Submitted, Transcript.IngestedInto;
  }

  lemma {:induction false} StaysOut(u: Setup, limits: Transcript.Limits, start: Records, ops: seq<Operation>,
                                    actor: string, session: string)
    requires IsOut(start, actor, session) && forall i :: 0 <= i < |ops| ==> !OptsIn(ops[i], actor, session)
    ensures IsOut(After(u, limits, start, ops), actor, session)
  {
    hide IsOut, Next;
    if ops != [] {
      StaysOut(u, limits, start, ops[..|ops| - 1], actor, session);
      StepKeepsOut(u, limits, After(u, limits, start, ops[..|ops| - 1]), ops[|ops| - 1], actor, session);
    }
  }

  /** From a participant's withdrawal until they opt in again themselves, whatever is
      registered, transcribed, submitted, ingested, consented to, corrected, deleted or
      ended: none of their coverage of the session is stored, and the report is the one
      of the session with everything of theirs removed. */
  lemma ReportAfterWithdrawal(u: Setup, limits: Transcript.Limits, start: Records, actor: string, session: string,
                              later: seq<Operation>,
                              isProfessor: bool, reader: Option<Role>)
    requires Sound(u, start) && Chosen(start, actor, true, true, session, false).1.Ok?
    requires forall i :: 0 <= i < |later| ==> IsProper(later[i]) && !OptsIn(later[i], actor, session)
    ensures var r := After(u, limits, Chosen(start, actor, true, true, session, false).0, later);
            && (forall e :: e in r.coverage ==> e.session != session || e.owner != actor)
            && var report := ReportFor(u, r, isProfessor, reader, session);
               if Denial(u, r, isProfessor, reader, session).Some? then
                   report == Err(Denial(u, r, isProfessor, reader, session).value)
               else report == Ok(ReportOf(u.policy.value, Without(DataOf(r, session), actor)))
  {
    hide UniqueKeys, ReportOf, After, Without, Erase;
    var withdrawn := Chosen(start, actor, true, true, session, false).0;
    ChoiceKeepsSound(u, start, actor, true, true, session, false);
    RunKeepsSound(u, limits, withdrawn, later);
    StaysOut(u, limits, withdrawn, later, actor, session);
    var r := After(u, limits, withdrawn, later);
    assert !IsOptedIn(r, session, actor);
    if Denial(u, r, isProfessor, reader, session).None? {
      WithdrawalErasesInfluence(u.policy.value, DataOf(r, session), actor);
    }
  }

  /** The theorem is about reports that are released: a session may be active at the
      withdrawal, end later, and be reported on. */
  lemma WithdrawalThenReport(u: Setup, limits: Transcript.Limits, start: Records, actor: string, session: string,
                             later: seq<Operation>)
    requires Sound(u, start) && Chosen(start, actor, true, true, session, false).1.Ok?
    requires u.policy.Some? && u.policy.value.isApproved && forall i :: 0 <= i < |later| ==>
        IsProper(later[i]) && !OptsIn(later[i], actor, session)
    ensures var r :=
      After(u, limits, Chosen(start, actor, true, true, session, false).0, later + [EndSession(true, session)]);
            ReportFor(u, r, true, Some(CourseProfessor), session)
                == Ok(ReportOf(u.policy.value, Without(DataOf(r, session), actor)))
  {
    hide Sound, ReportOf, Without, Erase;
    var all := later + [EndSession(true, session)];
    forall i | 0 <= i < |all| ensures IsProper(all[i]) && !OptsIn(all[i], actor, session) {
      if i < |later| { assert all[i] == later[i]; }
    }
    ReportAfterWithdrawal(u, limits, start, actor, session, all, true, Some(CourseProfessor));
    assert all[..|all| - 1] == later;
  }

  // ---------------------------------------------------------------- the service

  class ProfessorMetricsService {
    const setup: Setup
    const transcripts: Transcript.TranscriptStore
    /** Per session, each registered participant and whether they opted in. */
    var participants: map<string, map<string, bool>>
    var events: map<string, seq<Signal>>
    var ended: set<string>
    var coverage: seq<Entry>
    var deliveries: seq<Delivery>

    function State(): Records
      reads this, transcripts
    {
      Records(participants, events, transcripts.chunks, ended, coverage, deliveries)
    }

    ghost predicate Valid()
      reads this, transcripts
    {
      Sound(setup, State())
    }

    constructor (setup: Setup, transcripts: Transcript.TranscriptStore)
      ensures Valid() && this.setup == setup && this.transcripts == transcripts
      ensures State() == Records(map[], map[], transcripts.chunks, {}, [], [])
    {
      this.setup, this.transcripts := setup, transcripts;
      participants, events, ended, coverage, deliveries := map[], map[], {}, [], [];
    }

    /** An authorized reader of an ended session gets exactly the specified report. */
    method Report(isProfessor: bool, membership: Option<Role>, session: string) returns (r: Result<Report, Error>)
      requires Valid()
      ensures r == ReportFor(setup, State(), isProfessor, membership, session)
    {
      hide UniqueKeys;
      if membership.None? { return Err(NotAMember); }
      if !isProfessor || membership.value.Participant? { return Err(Forbidden); }
      if session !in ended { return Err(StillActive); }
      if setup.policy.None? || (!setup.policy.value.isApproved && !setup.isDemoOrTest) { return Err(Forbidden); }
      var report := BuildReport(setup.policy.value, DataOf(State(), session));
      r := Ok(report);
    }

    method RegisterParticipant(session: string, user: string)
      modifies this`participants
      ensures State() == Joined(old(State()), session, user)
    {
      var registered := Registered(State(), session);
      if user !in registered { participants := participants[session := registered[user := true]]; }
    }

    method End(isOwner: bool, session: string) returns (r: Result<(), Error>)
      modifies this`ended
      ensures (State(), r) == Ended(old(State()), isOwner, session)
    {
      if !isOwner { return Err(Forbidden); }
      if session !in ended { ended := ended + {session}; }
      assert ended == old(ended) + {session};
      r := Ok(());
    }

    /** Atomic: a conflict or an overflow stores nothing; exact retries are duplicates. */
    method IngestCoverage(actor: string, isStudent: bool, isMemberOptedIn: bool, session: string, batch: seq<Coverage>)
      returns (r: Result<Receipt, Error>)
      modifies this`coverage
      ensures (State(), r) == CoverageIngested(setup, old(State()), actor, isStudent, isMemberOptedIn, session, batch)
    {
      hide Lookup;
      if !isStudent || !isMemberOptedIn || !IsOptedIn(State(), session, actor) { return Err(Forbidden); }
      if session in ended { return Err(IngestionEnded); }
      var pending: seq<Entry>, duplicates: nat := [], 0;
      for n := 0 to |batch|
        invariant coverage == old(coverage) && |pending| + duplicates == n
        invariant pending == NewEntries(coverage, session, actor, batch[..n])
        invariant !Disagrees(coverage, session, actor, batch[..n])
      {
        assert batch[..n + 1][..n] == batch[..n];
        var record := batch[n];
        var previous := Lookup(coverage + pending, session, actor, record.id);
        if previous.Some? && previous.value != record {
          DisagreementStays(coverage, session, actor, batch, n + 1, |batch|);
          assert batch[..|batch|] == batch;
          return Err(Conflict);
        }
        if previous.Some? { duplicates := duplicates + 1; } else {
          pending := pending + [Entry(session, actor, record)];
        }
      }
      assert batch[..|batch|] == batch;
      if |coverage| + |pending| > setup.maximumRecords { return Err(CapacityReached); }
      coverage := coverage + pending;
      r := Ok(Receipt(|pending|, duplicates));
    }

    /** The whole batch is checked before any of it is stored. */
    method IngestSignals(actor: string, membership: Option<Role>, isLecture: bool, session: string, batch: seq<Signal>)
      returns (r: Result<(), Error>)
      modifies this`events
      ensures (State(), r) == SignalsIngested(setup, old(State()), actor, membership, isLecture, session, batch)
    {
      hide FirstIndex;
      if membership.None? { return Err(NotAMember); }
      if membership.value.CourseProfessor? { return Err(Forbidden); }
      if session in ended { return Err(IngestionEnded); }
      if !isLecture { return Err(LectureMismatch); }
      if |batch| > setup.maxBatchEvents { return Err(BatchTooLarge); }
      var stored := EventsOf(State(), session);
      for n := 0 to |batch|
        invariant events == old(events) && FaultFrom(stored, session, batch, 0) == FaultFrom(stored, session, batch, n)
      {
        if batch[n].session != session { return Err(WrongSession); }
        if FirstIndex(stored, batch[n].id).Some? || FirstIndex(batch[..n], batch[n].id).Some? {
          return Err(DuplicateSignal);
        }
      }
      events := events[session := stored + Submitted(batch, actor)];
      r := Ok(());
    }

    /** Atomic, like coverage. */
    method IngestDeliveries(isMember: bool, isCourseProfessor: bool, session: string, batch: seq<Delivery>)
      returns (r: Result<Receipt, Error>)
      modifies this`deliveries
      ensures (State(), r) == DeliveriesIngested(setup, old(State()), isMember, isCourseProfessor, session, batch)
    {
      hide Delivered;
      if !isMember { return Err(NotAMember); }
      if !isCourseProfessor { return Err(Forbidden); }
      if session in ended { return Err(IngestionEnded); }
      var pending: seq<Delivery>, duplicates: nat := [], 0;
      for n := 0 to |batch|
        invariant deliveries == old(deliveries) && |pending| + duplicates == n
        invariant pending == NewDeliveries(deliveries, session, batch[..n])
        invariant !DeliveriesDisagree(deliveries, session, batch[..n])
      {
        assert batch[..n + 1][..n] == batch[..n];
        var event := batch[n].(session := session);
        var previous := Delivered(deliveries + pending, session, event.id);
        if previous.Some? && previous.value != event {
          DeliveryDisagreementStays(deliveries, session, batch, n + 1, |batch|);
          assert batch[..|batch|] == batch;
          return Err(Conflict);
        }
        if previous.Some? { duplicates := duplicates + 1; } else { pending := pending + [event]; }
      }
      assert batch[..|batch|] == batch;
      if |deliveries| + |pending| > setup.maximumRecords { return Err(CapacityReached); }
      deliveries := deliveries + pending;
      r := Ok(Receipt(|pending|, duplicates));
    }

    /** Withdrawing erases the participant's coverage of the session; opting in again
        restores nothing. */
    method UpdateAggregationConsent(actor: string, isMember: bool, isStudent: bool, session: string, allowed: bool)
      returns (r: Result<(), Error>)
      modifies this`participants, this`coverage
      ensures (State(), r) == Chosen(old(State()), actor, isMember, isStudent, session, allowed)
    {
      var registered := Registered(State(), session);
      if !isMember { return Err(NotAMember); }
      if actor !in registered || !isStudent { return Err(Forbidden); }
      participants := participants[session := registered[actor := allowed]];
      if !allowed { coverage := Erase(coverage, session, actor); }
      r := Ok(());
    }

    /** The submitter corrects the first stored signal with the id; nothing else changes. */
    method ConfirmEvent(actor: string, membership: Option<Role>, session: string, id: string, confirmed: bool)
      returns (r: Result<Signal, Error>)
      modifies this`events
      ensures (State(), r) == Confirmed(old(State()), actor, membership, session, id, confirmed)
    {
      if membership.None? { return Err(NotAMember); }
      if membership.value.CourseProfessor? { return Err(Forbidden); }
      var records := EventsOf(State(), session);
      var k := 0;
      while k < |records|
        invariant k <= |records| && events == old(events)
        invariant FirstIndex(records, id)
            == (match FirstIndex(records[k..], id) case Some(j) => Some(j + k) case None => None)
      {
        assert records[k..][1..] == records[k + 1..];
        if records[k].id == id {
          if records[k].owner != actor { return Err(Forbidden); }
          events := events[session := Metrics.Corrected(records, k, confirmed)];
          return Ok(records[k].(confirmed := Some(confirmed)));
        }
        k := k + 1;
      }
      r := Err(NotFound);
    }

    /** Erase the session's coverage and delivery events. */
    method DeleteSession(session: string)
      modifies this`coverage, this`deliveries
      ensures State() == Forgotten(old(State()), session)
    {
      coverage := CoverageElsewhere(coverage, session);
      deliveries := DeliveriesElsewhere(deliveries, session);
    }
  }

  lemma {:induction false} DisagreementStays(coverage: seq<Entry>, session: string, owner: string,
                                             batch: seq<Coverage>, n: nat, m: nat)
    requires n <= m <= |batch| && Disagrees(coverage, session, owner, batch[..n])
    ensures Disagrees(coverage, session, owner, batch[..m])
  {
    if n < m {
      DisagreementStays(coverage, session, owner, batch, n, m - 1);
      assert batch[..m][..m - 1] == batch[..m - 1];
    }
  }

  lemma {:induction false} DeliveryDisagreementStays(deliveries: seq<Delivery>, session: string, batch: seq<Delivery>,
                                                     n: nat, m: nat)
    requires n <= m <= |batch| && DeliveriesDisagree(deliveries, session, batch[..n])
    ensures DeliveriesDisagree(deliveries, session, batch[..m])
  {
    if n < m {
      DeliveryDisagreementStays(deliveries, session, batch, n, m - 1);
      assert batch[..m][..m - 1] == batch[..m - 1];
    }
  }

  /** Drive a service through a run: every reply and the records left are the specified ones. */
  method RunMetrics(service: ProfessorMetricsService, ops: seq<Operation>) returns (replies: seq<Reply>)
    requires service.Valid()
    requires (forall i :: 0 <= i < |ops| ==> IsProper(ops[i])) && AllUnique(service.transcripts.chunks)
    modifies service, service.transcripts
    ensures service.Valid() && AreReplies(service.setup, service.transcripts.limits, old(service.State()), ops, replies)
    ensures service.State() == After(service.setup, service.transcripts.limits, old(service.State()), ops)
  {
    hide Sound, After, Next, Replies, Transcript.UniqueIds;
    ghost var u, limits, start := service.setup, service.transcripts.limits, service.State();
    replies := [];
    AfterNothing(u, limits, start);
    assert ops[..0] == [];
    for i := 0 to |ops|
      invariant service.Valid() && AllUnique(service.transcripts.chunks) && |replies| == i
      invariant service.State() == After(u, limits, start, ops[..i])
      invariant forall k :: 0 <= k < i ==> Replies(u, limits, After(u, limits, start, ops[..k]), ops[k], replies[k])
    {
      StepKeepsSound(u, limits, service.State(), ops[i]);
      AfterNext(u, limits, start, ops, i);
      var reply: Reply;
      match ops[i] {
        case Transcribe(ingestion) => reply := PerformTranscription(service, ingestion);
        case op => reply := Perform(service, op);
      }
      replies := replies + [reply];
    }
    assert ops[..|ops|] == ops;
  }

  lemma AfterNothing(u: Setup, limits: Transcript.Limits, start: Records)
    ensures After(u, limits, start, []) == start
  {
  }

  lemma AfterNext(u: Setup, limits: Transcript.Limits, start: Records, ops: seq<Operation>, i: nat)
    requires i < |ops|
    ensures After(u, limits, start, ops[..i + 1]) == Next(u, limits, After(u, limits, start, ops[..i]), ops[i])
  {
    assert ops[..i + 1][..i] == ops[..i];
  }

  /** One ingestion into the transcripts the service reads. */
  method PerformTranscription(service: ProfessorMetricsService, i: Transcript.Ingestion) returns (reply: Reply)
    requires AllUnique(service.transcripts.chunks)
    modifies service.transcripts
    ensures service.State() == Next(service.setup, service.transcripts.limits, old(service.State()), Transcribe(i))
    ensures Replies(service.setup, service.transcripts.limits, old(service.State()), Transcribe(i), reply)
    ensures AllUnique(service.transcripts.chunks)
  {
    hide Transcript.IngestedInto, Transcript.IngestAnswer, Transcript.UniqueIds, Transcript.Evolves, Transcript.HasId,
        Transcript.Revision;
    ghost var before := service.transcripts.chunks;
    assert Transcript.UniqueIds(Transcript.ChunksOf(before, i.session));
    var r := service.transcripts.IngestBatch(i.isCourseProfessor, i.isLecture, i.session, i.batch);
    forall other | other != i.session
      ensures Transcript.ChunksOf(service.transcripts.chunks, other) == Transcript.ChunksOf(before, other)
    {
      assert service.transcripts.Of(other) == old(service.transcripts.Of(other));
    }
    UniqueStays(before, service.transcripts.chunks, i.session);
    reply := Transcribed(r);
  }

  /** One operation on the service. */
  method Perform(service: ProfessorMetricsService, op: Operation) returns (reply: Reply)
    requires service.Valid() && !op.Transcribe?
    modifies service
    ensures service.State() == Next(service.setup, service.transcripts.limits, old(service.State()), op)
    ensures Replies(service.setup, service.transcripts.limits, old(service.State()), op, reply)
  {
    hide Sound, Joined, Ended, SignalsIngested, CoverageIngested, DeliveriesIngested, Chosen, Confirmed, Forgotten,
        ReportFor,
         Transcript.IngestedInto, Transcript.IngestAnswer;
    match op {
      case Register(session, user) =>
        service.RegisterParticipant(session, user);
        reply := Done(Ok(()));
      case EndSession(isOwner, session) =>
        var r := service.End(isOwner, session);
        reply := Done(r);
      case SubmitSignals(a, m, isLecture, session, batch) =>
        var r := service.IngestSignals(a, m, isLecture, session, batch);
        reply := Done(r);
      case Cover(a, isStudent, isMemberOptedIn, session, batch) =>
        var r := service.IngestCoverage(a, isStudent, isMemberOptedIn, session, batch);
        reply := Received(r);
      case Deliver(isMember, isCourseProfessor, session, batch) =>
        var r := service.IngestDeliveries(isMember, isCourseProfessor, session, batch);
        reply := Received(r);
      case SetConsent(a, isMember, isStudent, session, allowed) =>
        var r := service.UpdateAggregationConsent(a, isMember, isStudent, session, allowed);
        reply := Done(r);
      case Confirm(a, m, session, id, confirmed) =>
        var r := service.ConfirmEvent(a, m, session, id, confirmed);
        reply := Amended(r);
      case Forget(session) =>
        service.DeleteSession(session);
        reply := Done(Ok(()));
      case Read(isProfessor, membership, session) =>
        var r := service.Report(isProfessor, membership, session);
        reply := Released(r);
    }
  }

  /** One session's list changes and keeps its ids unique. */
  lemma UniqueStays(before: map<string, seq<Transcript.Chunk>>, after: map<string, seq<Transcript.Chunk>>,
                    session: string)
    requires AllUnique(before) && Transcript.UniqueIds(Transcript.ChunksOf(after, session))
    requires forall other :: other != session ==>
        Transcript.ChunksOf(after, other) == Transcript.ChunksOf(before, other)
    ensures AllUnique(after)
  {
    hide Transcript.UniqueIds;
    forall other ensures Transcript.UniqueIds(Transcript.ChunksOf(after, other)) {
      if other != session { assert Transcript.UniqueIds(Transcript.ChunksOf(before, other)); }
    }
  }
}
