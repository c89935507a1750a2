/** The anonymous professor report: bucketed coverage and missed-content ratios with
    suppression, and what consent withdrawal and corrections do to it. */
module Metrics {
  import opened Common
  import opened Intervals
  import opened Transcript

  const MAX_REPORT_MS := 28_800_000
  const MAX_BUCKET_CHUNKS := 100
  const MAX_FINDINGS := 100

  datatype Settings = Settings(minimumGroupSize: nat, bucketMs: nat, minimumCoverage: real, hotspotRatio: real,
                               minimumSignalMs: nat, minimumConfidence: real, isApproved: bool)

  /** The ranges a policy is validated against. */
  predicate PolicyOk(p: Settings) {
    3 <= p.minimumGroupSize && 10_000 <= p.bucketMs && 1 <= p.minimumSignalMs
  }

  type Policy = p: Settings | PolicyOk(p) witness Settings(3, 10_000, 0.0, 0.0, 1, 0.0, false)

  datatype Coverage = Coverage(id: string, start: int, end: int, isAvailable: bool)

  /** One stored coverage record and the key it is stored under. */
  datatype Entry = Entry(session: string, owner: string, record: Coverage)

  datatype Signal = Signal(session: string, id: string, owner: string, kind: string, start: int, end: int,
                           signals: seq<string>, confidence: real, confirmed: Option<bool>)

  datatype Delivery = Delivery(session: string, id: string, kind: string, start: int, end: int, confidence: real)

  datatype Ratio = Ratio(numerator: nat, denominator: nat)

  datatype Status = Available | Suppressed | InsufficientEvidence

  datatype Bucket = Bucket(start: int, end: int, status: Status, coverage: Option<Ratio>, missed: Option<Ratio>,
                           isHotspot: bool, chunkIds: seq<string>)

  datatype Finding = Finding(start: int, end: int, kind: string, confidence: real)

  datatype Report = Report(status: Status, buckets: seq<Bucket>, continuity: Option<Ratio>, findings: seq<Finding>)

  /** What one session's report is derived from. */
  datatype Data = Data(session: string, participants: map<string, bool>, coverage: seq<Entry>,
                       events: seq<Signal>, deliveries: seq<Delivery>, chunks: seq<Chunk>)

  // ------------------------------------------------------------ specification

  function OptedIn(participants: map<string, bool>): set<string> {
    set p | p in participants && participants[p]
  }

  function Finals(chunks: seq<Chunk>): seq<Chunk> {
    if chunks == [] then [] else (if chunks[0].isFinal then [chunks[0]] else []) + Finals(chunks[1..])
  }

  function LastEnd(chunks: seq<Chunk>): int {
    if chunks == [] then 0 else if |chunks| == 1 then chunks[0].end else Max(chunks[0].end, LastEnd(chunks[1..]))
  }

  function ReportEnd(chunks: seq<Chunk>): int { Min(MAX_REPORT_MS, LastEnd(Finals(chunks))) }

  /** The intervals one participant reported as available, or as unavailable. */
  function Observations(coverage: seq<Entry>, session: string, owner: string, isAvailable: bool): seq<Interval> {
    if coverage == [] then []
    else
      var e := coverage[0];
      (if e.session == session && e.owner == owner && e.record.isAvailable == isAvailable
       then [Interval(e.record.start, e.record.end)]
       else [])
      + Observations(coverage[1..], session, owner, isAvailable)
  }

  /** Every millisecond is covered as available, and none as unavailable. */
  ghost predicate IsObserved(coverage: seq<Entry>, session: string, owner: string, start: int, end: int) {
    forall t :: start <= t < end ==>
      Covered(Observations(coverage, session, owner, true), t)
          && !Covered(Observations(coverage, session, owner, false), t)
  }

  ghost function Observed(d: Data, start: int, end: int): set<string> {
    set p | p in OptedIn(d.participants) && IsObserved(d.coverage, d.session, p, start, end)
  }

  function ApprovedSignals(): set<string> {
    {"face_absent", "head_away", "looking_down", "window_unfocused", "student_left_frame", "user_marked_confused",
     "possible_missed_window"}
  }

  /** The signal counts as possibly missed context under the policy. */
  predicate Counts(policy: Policy, e: Signal) {
    && e.confirmed != Some(false) && e.kind in ApprovedSignals() && "phone_visible" !in e.signals
    && (e.kind == "looking_down" ==> e.confirmed == Some(true))
    && (e.confidence >= policy.minimumConfidence || e.confirmed == Some(true))
  }

  function Missed(policy: Policy, events: seq<Signal>, owner: string): seq<Interval> {
    if events == [] then []
    else
      (if events[0].owner == owner && Counts(policy, events[0]) then [Interval(events[0].start, events[0].end)] else [])
         + Missed(policy, events[1..], owner)
  }

  ghost predicate IsAffected(policy: Policy, events: seq<Signal>, owner: string, start: int, end: int) {
    Measure(Missed(policy, events, owner), start, end) >= Min(policy.minimumSignalMs, end - start)
  }

  ghost function Affected(policy: Policy, events: seq<Signal>, observed: set<string>, start: int,
                          end: int): set<string> {
    set p | p in observed && IsAffected(policy, events, p, start, end)
  }

  function ChunkIds(chunks: seq<Chunk>, start: int, end: int): seq<string> {
    if chunks == [] then []
    else
      (if chunks[0].start < end && start < chunks[0].end then [chunks[0].id] else [])
      + ChunkIds(chunks[1..], start, end)
  }

  function First<T>(s: seq<T>, n: nat): seq<T> { if |s| <= n then s else s[..n] }

  /** The ratio of two counts reaches a limit. */
  predicate Reaches(r: Ratio, limit: real)
    requires r.denominator > 0
  {
    r.numerator as real / r.denominator as real >= limit
  }

  /** What a bucket releases, from the sizes of the group, of those observed and of
      those affected: nothing for a small group, no more than the coverage ratio for
      a poorly observed one. */
  function Released(policy: Policy, start: int, end: int, group: nat, observed: nat, affected: nat,
                    chunks: seq<Chunk>): Bucket
  {
    if group < policy.minimumGroupSize then Bucket(start, end, Suppressed, None, None, false, [])
    else if observed < policy.minimumGroupSize then Bucket(start, end, InsufficientEvidence, None, None, false, [])
    else if !Reaches(Ratio(observed, group), policy.minimumCoverage) then
      Bucket(start, end, InsufficientEvidence, Some(Ratio(observed, group)), None, false, [])
    else
      var hot := Reaches(Ratio(affected, observed), policy.hotspotRatio);
      Bucket(start, end, Available, Some(Ratio(observed, group)), Some(Ratio(affected, observed)), hot,
             if hot then First(ChunkIds(Finals(chunks), start, end), MAX_BUCKET_CHUNKS) else [])
  }

  ghost function BucketOf(policy: Policy, d: Data, start: int): Bucket {
    var end := Min(ReportEnd(d.chunks), start + policy.bucketMs);
    var observed := Observed(d, start, end);
    Released(policy, start, end, |OptedIn(d.participants)|, |observed|,
             |Affected(policy, d.events, observed, start, end)|, d.chunks)
  }

  ghost function BucketsFrom(policy: Policy, d: Data, start: int): seq<Bucket>
    decreases ReportEnd(d.chunks) - start
  {
    if start >= ReportEnd(d.chunks) then []
    else [BucketOf(policy, d, start)] + BucketsFrom(policy, d, start + policy.bucketMs)
  }

  function AvailableOf(buckets: seq<Bucket>): seq<Bucket> {
    if buckets == [] then []
    else (if buckets[0].status.Available? then [buckets[0]] else []) + AvailableOf(buckets[1..])
  }

  function Spans(buckets: seq<Bucket>): seq<Interval> {
    if buckets == [] then [] else [Interval(buckets[0].start, buckets[0].end)] + Spans(buckets[1..])
  }

  function Calm(buckets: seq<Bucket>): (n: nat)
    ensures n <= |buckets|
  {
    if buckets == [] then 0 else (if buckets[0].isHotspot then 0 else 1) + Calm(buckets[1..])
  }

  /** Every millisecond of the delivery event lies in an available bucket. */
  ghost predicate IsReleasable(e: Delivery, available: seq<Bucket>) {
    forall t :: e.start <= t < e.end ==> Covered(Spans(available), t)
  }

  ghost function Findings(session: string, deliveries: seq<Delivery>, available: seq<Bucket>): seq<Finding> {
    if deliveries == [] then []
    else
      var e := deliveries[0];
      (if e.session == session && IsReleasable(e, available)
       then [Finding(e.start, e.end, e.kind, e.confidence)]
       else [])
      + Findings(session, deliveries[1..], available)
  }

  ghost function ReportOf(policy: Policy, d: Data): Report {
    var buckets := BucketsFrom(policy, d, 0);
    var available := AvailableOf(buckets);
    Report(
      if available != [] then Available
      else if |OptedIn(d.participants)| < policy.minimumGroupSize then Suppressed
      else InsufficientEvidence,
      buckets,
      if available != [] then Some(Ratio(Calm(available), |available|)) else None,
      First(Findings(d.session, d.deliveries, available), MAX_FINDINGS))
  }

  // ---------------------------------------------------------------- partition

  /** Consecutive non-empty spans from `start` to `end`, all but the last as wide as
      the policy asks. */
  predicate Tiles(b: seq<Bucket>, start: int, end: int, width: nat) {
    && (b == [] <==> start >= end)
    && (b != [] ==> b[0].start == start && b[|b| - 1].end == end)
    && (forall i :: 0 <= i < |b| ==> b[i].start < b[i].end <= Min(end, b[i].start + width))
    && (forall i :: 0 <= i < |b| - 1 ==> b[i].end == b[i + 1].start == b[i].start + width)
  }

  lemma TilesCons(head: Bucket, rest: seq<Bucket>, end: int, width: nat)
    requires width > 0 && head.start < end && head.end == Min(end, head.start + width)
    requires Tiles(rest, head.start + width, end, width)
    ensures Tiles([head] + rest, head.start, end, width)
  {
  }

  lemma TilesNone(start: int, end: int, width: nat)
    requires start >= end
    ensures Tiles([], start, end, width)
  {
  }

  /** The buckets tile the reported range. */
  lemma {:induction false} BucketsTile(policy: Policy, d: Data, start: int)
    ensures Tiles(BucketsFrom(policy, d, start), start, ReportEnd(d.chunks), policy.bucketMs)
    decreases ReportEnd(d.chunks) - start
  {
    hide BucketOf, Tiles;
    if start < ReportEnd(d.chunks) {
      BucketsTile(policy, d, start + policy.bucketMs);
      BucketBounds(policy, d, start);
      TilesCons(BucketOf(policy, d, start), BucketsFrom(policy, d, start + policy.bucketMs), ReportEnd(d.chunks),
                policy.bucketMs);
    } else {
      TilesNone(start, ReportEnd(d.chunks), policy.bucketMs);
    }
  }

  lemma BucketBounds(policy: Policy, d: Data, start: int)
    ensures BucketOf(policy, d, start).start == start
    ensures BucketOf(policy, d, start).end == Min(ReportEnd(d.chunks), start + policy.bucketMs)
  {
    hide Observed, Affected, Reaches, ChunkIds, Finals;
  }

  predicate InBucket(b: Bucket, t: int) { b.start <= t < b.end }

  /** Tiles partition the range: a millisecond lies in one of them, and in no other. */
  lemma {:induction false} TilesPartition(b: seq<Bucket>, start: int, end: int, width: nat, t: int)
    requires Tiles(b, start, end, width)
    ensures start <= t < end <==> exists i :: 0 <= i < |b| && InBucket(b[i], t)
    ensures forall i, j :: 0 <= i < |b| && 0 <= j < |b| && InBucket(b[i], t) && InBucket(b[j], t) ==> i == j
  {
    if b != [] {
      var rest := b[1..];
      TilesTail(b, start, end, width);
      TilesPartition(rest, b[0].end, end, width, t);
      forall i | 1 <= i < |b| ensures InBucket(b[i], t) <==> InBucket(rest[i - 1], t) {}
      if exists i :: 0 <= i < |rest| && InBucket(rest[i], t) {
        var i :| 0 <= i < |rest| && InBucket(rest[i], t);
        assert InBucket(b[i + 1], t);
      }
      assert InBucket(b[0], t) <==> start <= t < b[0].end;
    }
  }

  lemma TilesTail(b: seq<Bucket>, start: int, end: int, width: nat)
    requires Tiles(b, start, end, width) && b != []
    ensures Tiles(b[1..], b[0].end, end, width)
  {
    var rest := b[1..];
    forall i | 0 <= i < |rest| - 1
      ensures rest[i].end == rest[i + 1].start == rest[i].start + width
    {
      assert b[i + 1].end == b[i + 2].start;
    }
    if rest != [] { assert b[0].end == b[1].start < b[1].end; }
  }

  // -------------------------------------------------------------- computation

  /** The union measure decides observation: fully available, nothing unavailable. */
  method ObservedGroup(coverage: seq<Entry>, session: string, participants: set<string>, start: int, end: int)
    returns (observed: set<string>)
    requires start <= end
    ensures observed == set p | p in participants && IsObserved(coverage, session, p, start, end)
  {
    hide Covered, Observations, Measure;
    observed := {};
    var left := participants;
    while left != {}
      invariant left <= participants
      invariant observed == set p | p in participants - left && IsObserved(coverage, session, p, start, end)
    {
      var p :| p in left;
      left := left - {p};
      var available, unavailable := Observations(coverage, session, p, true), Observations(coverage, session, p, false);
      var availableMs := CoveredDuration(available, start, end);
      var unavailableMs := CoveredDuration(unavailable, start, end);
      MeasureExtremes(available, start, end);
      MeasureExtremes(unavailable, start, end);
      if unavailableMs == 0 && availableMs == end - start { observed := observed + {p}; }
      assert participants - left == (participants - (left + {p})) + {p};
    }
    assert participants - left == participants;
  }

  method AffectedGroup(policy: Policy, events: seq<Signal>, observed: set<string>, start: int, end: int)
    returns (affected: set<string>)
    ensures affected == Affected(policy, events, observed, start, end)
  {
    hide Measure, Missed, Counts;
    affected := {};
    var left := observed;
    while left != {}
      invariant left <= observed
      invariant affected == set p | p in observed - left && IsAffected(policy, events, p, start, end)
    {
      var owner :| owner in left;
      left := left - {owner};
      var intervals := [];
      for k := 0 to |events|
        invariant intervals + Missed(policy, events[k..], owner) == Missed(policy, events, owner)
      {
        MissedStep(policy, events[k..], owner);
        assert events[k..][1..] == events[k + 1..];
        var event := events[k];
        if event.owner != owner || event.confirmed == Some(false) { continue; }
        if event.kind !in ApprovedSignals() || "phone_visible" in event.signals { continue; }
        if event.kind == "looking_down" && event.confirmed != Some(true) { continue; }
        if event.confidence < policy.minimumConfidence && event.confirmed != Some(true) { continue; }
        intervals := intervals + [Interval(event.start, event.end)];
      }
      MissedEnd(policy, events[|events|..], owner);
      assert intervals + [] == intervals;
      var missedMs := CoveredDuration(intervals, start, end);
      if missedMs >= Min(policy.minimumSignalMs, end - start) { affected := affected + {owner}; }
      assert observed - left == (observed - (left + {owner})) + {owner};
    }
    assert observed - left == observed;
  }

  /** One step of the scan: the source's four skips are the negation of `Counts`. */
  lemma MissedStep(policy: Policy, events: seq<Signal>, owner: string)
    requires events != []
    ensures var e := events[0];
            Missed(policy, events, owner) ==
            (if e.owner != owner || e.confirmed == Some(false) then []
             else if e.kind !in ApprovedSignals() || "phone_visible" in e.signals then []
             else if e.kind == "looking_down" && e.confirmed != Some(true) then []
             else if e.confidence < policy.minimumConfidence && e.confirmed != Some(true) then []
             else [Interval(e.start, e.end)]) + Missed(policy, events[1..], owner)
  {
  }

  lemma MissedEnd(policy: Policy, events: seq<Signal>, owner: string)
    requires events == []
    ensures Missed(policy, events, owner) == []
  {
  }

  /** A millisecond is in the spans of some buckets exactly when it is in one of them. */
  lemma {:induction false} SpansCover(buckets: seq<Bucket>, t: int)
    ensures Covered(Spans(buckets), t) <==> exists b :: b in buckets && InBucket(b, t)
  {
    if buckets != [] {
      SpansCover(buckets[1..], t);
      assert buckets == [buckets[0]] + buckets[1..];
      SplitCovered(Interval(buckets[0].start, buckets[0].end), Spans(buckets[1..]), t);
      assert InBucket(buckets[0], t) <==> Has(Interval(buckets[0].start, buckets[0].end), t);
    }
  }

  lemma {:induction false} AvailableMembers(buckets: seq<Bucket>)
    ensures forall b :: b in AvailableOf(buckets) <==> b in buckets && b.status.Available?
  {
    if buckets != [] {
      AvailableMembers(buckets[1..]);
      assert buckets == [buckets[0]] + buckets[1..];
    }
  }

  /** Before the cap, a delivery event of the session becomes a finding exactly when
      every millisecond of it lies in an available bucket of the report. */
  lemma {:induction false} FindingsExact(session: string, deliveries: seq<Delivery>, buckets: seq<Bucket>, f: Finding)
    ensures f in Findings(session, deliveries, AvailableOf(buckets)) <==>
            exists e ::
                e in deliveries && e.session == session && f == Finding(e.start, e.end, e.kind, e.confidence)
                    && InAvailable(e, buckets)
  {
    if deliveries != [] {
      FindingsExact(session, deliveries[1..], buckets, f);
      assert deliveries == [deliveries[0]] + deliveries[1..];
      ReleasableExact(deliveries[0], buckets);
    }
  }

  ghost predicate InAvailable(e: Delivery, buckets: seq<Bucket>) {
    forall t :: e.start <= t < e.end ==> AvailableAt(buckets, t)
  }

  ghost predicate AvailableAt(buckets: seq<Bucket>, t: int) {
    exists b :: b in buckets && b.status.Available? && InBucket(b, t)
  }

  lemma ReleasableExact(e: Delivery, buckets: seq<Bucket>)
    ensures IsReleasable(e, AvailableOf(buckets)) <==> InAvailable(e, buckets)
  {
    AvailableMembers(buckets);
    forall t ensures Covered(Spans(AvailableOf(buckets)), t) <==> AvailableAt(buckets, t) {
      SpansCover(AvailableOf(buckets), t);
    }
  }

  // ------------------------------------------------------------- stored state

  predicate SameKey(e: Entry, session: string, owner: string, id: string) {
    e.session == session && e.owner == owner && e.record.id == id
  }

  /** `coverage.get(key)` on the insertion-ordered store. */
  function Lookup(coverage: seq<Entry>, session: string, owner: string, id: string): Option<Coverage> {
    if coverage == [] then None
    else if SameKey(coverage[0], session, owner, id) then Some(coverage[0].record)
    else Lookup(coverage[1..], session, owner, id)
  }

  lemma {:induction false} LookupFinds(coverage: seq<Entry>, session: string, owner: string, id: string)
    ensures var r := Lookup(coverage, session, owner, id);
            && (r.Some? <==> exists e :: e in coverage && SameKey(e, session, owner, id))
            && (r.Some? ==> exists e :: e in coverage && SameKey(e, session, owner, id) && e.record == r.value)
  {
    if coverage != [] {
      LookupFinds(coverage[1..], session, owner, id);
      assert coverage == [coverage[0]] + coverage[1..];
    }
  }

  predicate UniqueKeys(coverage: seq<Entry>) {
    forall i, j :: 0 <= i < j < |coverage| ==>
        !SameKey(coverage[i], coverage[j].session, coverage[j].owner, coverage[j].record.id)
  }

  lemma {:induction false} LookupAppend(a: seq<Entry>, b: seq<Entry>, session: string, owner: string, id: string)
    ensures Lookup(a + b, session, owner, id)
            == if Lookup(a, session, owner, id).Some? then Lookup(a, session, owner, id)
               else Lookup(b, session, owner, id)
  {
    if a == [] {
      assert a + b == b;
    } else {
      assert (a + b)[1..] == a[1..] + b;
      LookupAppend(a[1..], b, session, owner, id);
    }
  }

  /** The coverage left after erasing one participant's records of one session. */
  function Erase(coverage: seq<Entry>, session: string, owner: string): seq<Entry> {
    if coverage == [] then []
    else
      (if coverage[0].session == session && coverage[0].owner == owner then [] else [coverage[0]])
      + Erase(coverage[1..], session, owner)
  }

  lemma {:induction false} EraseMembers(coverage: seq<Entry>, session: string, owner: string)
    ensures forall e :: e in Erase(coverage, session, owner) <==>
        e in coverage && !(e.session == session && e.owner == owner)
    ensures |Erase(coverage, session, owner)| <= |coverage|
  {
    if coverage != [] {
      assert coverage == [coverage[0]] + coverage[1..];
      EraseMembers(coverage[1..], session, owner);
    }
  }

  lemma {:induction false} EraseKeepsUnique(coverage: seq<Entry>, session: string, owner: string)
    requires UniqueKeys(coverage)
    ensures UniqueKeys(Erase(coverage, session, owner))
  {
    hide SameKey;
    if coverage != [] {
      var rest := coverage[1..];
      EraseMembers(rest, session, owner);
      assert UniqueKeys(rest);
      EraseKeepsUnique(rest, session, owner);
      var kept := Erase(rest, session, owner);
      forall j | 0 <= j < |kept| ensures !SameKey(coverage[0], kept[j].session, kept[j].owner, kept[j].record.id) {
        assert kept[j] in rest;
        var k :| 0 <= k < |rest| && rest[k] == kept[j];
        assert coverage[k + 1] == kept[j];
      }
    }
  }

  // ------------------------------------------------------ withdrawal (two runs)

  function WithoutEvents(events: seq<Signal>, owner: string): seq<Signal> {
    if events == [] then []
    else (if events[0].owner == owner then [] else [events[0]]) + WithoutEvents(events[1..], owner)
  }

  /** The same session with this participant's record, coverage and signals gone. */
  function Without(d: Data, owner: string): Data {
    d.(participants := d.participants - {owner}, coverage := Erase(d.coverage, d.session, owner),
       events := WithoutEvents(d.events, owner))
  }

  lemma {:induction false} OthersObservations(coverage: seq<Entry>, session: string, gone: string, owner: string,
                                              isAvailable: bool)
    requires owner != gone
    ensures Observations(Erase(coverage, session, gone), session, owner, isAvailable)
        == Observations(coverage, session, owner, isAvailable)
  {
    if coverage != [] {
      OthersObservations(coverage[1..], session, gone, owner, isAvailable);
      var rest := Erase(coverage[1..], session, gone);
      assert [] + rest == rest && ([coverage[0]] + rest)[1..] == rest;
    }
  }

  lemma {:induction false} OthersMissed(policy: Policy, events: seq<Signal>, gone: string, owner: string)
    requires owner != gone
    ensures Missed(policy, WithoutEvents(events, gone), owner) == Missed(policy, events, owner)
  {
    if events != [] {
      OthersMissed(policy, events[1..], gone, owner);
      var rest := WithoutEvents(events[1..], gone);
      assert [] + rest == rest && ([events[0]] + rest)[1..] == rest;
    }
  }

  /** Two sessions whose buckets agree release the same report. */
  lemma {:induction false} SameBuckets(policy: Policy, a: Data, b: Data, start: int)
    requires a.chunks == b.chunks
    requires forall s :: BucketOf(policy, a, s) == BucketOf(policy, b, s)
    ensures BucketsFrom(policy, a, start) == BucketsFrom(policy, b, start)
    decreases ReportEnd(a.chunks) - start
  {
    hide BucketOf, ReportEnd;
    if start < ReportEnd(a.chunks) {
      SameBuckets(policy, a, b, start + policy.bucketMs);
      assert BucketOf(policy, a, start) == BucketOf(policy, b, start);
    }
  }

  /** A participant who is not opted in has no influence: the report is the one of
      the session with everything of theirs removed. */
  lemma WithdrawalErasesInfluence(policy: Policy, d: Data, owner: string)
    requires owner !in OptedIn(d.participants)
    ensures ReportOf(policy, d) == ReportOf(policy, Without(d, owner))
  {
    hide Released, IsObserved, IsAffected, Findings, ReportEnd;
    var w := Without(d, owner);
    assert OptedIn(w.participants) == OptedIn(d.participants);
    forall s ensures BucketOf(policy, d, s) == BucketOf(policy, w, s) {
      var end := Min(ReportEnd(d.chunks), s + policy.bucketMs);
      forall p | p in OptedIn(d.participants)
        ensures IsObserved(d.coverage, d.session, p, s, end) == IsObserved(w.coverage, d.session, p, s, end)
      {
        SameObservation(d.coverage, d.session, owner, p, s, end);
      }
      assert Observed(d, s, end) == Observed(w, s, end);
      forall p | p in Observed(d, s, end)
        ensures IsAffected(policy, d.events, p, s, end) == IsAffected(policy, w.events, p, s, end)
      {
        SameAffection(policy, d.events, owner, p, s, end);
      }
      assert Affected(policy, d.events, Observed(d, s, end), s, end)
          == Affected(policy, w.events, Observed(w, s, end), s, end);
    }
    SameBuckets(policy, d, w, 0);
  }

  lemma SameObservation(coverage: seq<Entry>, session: string, gone: string, owner: string, start: int, end: int)
    requires owner != gone
    ensures IsObserved(coverage, session, owner, start, end)
        == IsObserved(Erase(coverage, session, gone), session, owner, start, end)
  {
    OthersObservations(coverage, session, gone, owner, true);
    OthersObservations(coverage, session, gone, owner, false);
  }

  lemma SameAffection(policy: Policy, events: seq<Signal>, gone: string, owner: string, start: int, end: int)
    requires owner != gone
    ensures IsAffected(policy, events, owner, start, end)
        == IsAffected(policy, WithoutEvents(events, gone), owner, start, end)
  {
    OthersMissed(policy, events, gone, owner);
  }

  // ----------------------------------------------------- suppression (two runs)

  lemma {:induction false} NoneAvailable(buckets: seq<Bucket>)
    requires forall i :: 0 <= i < |buckets| ==> !buckets[i].status.Available?
    ensures AvailableOf(buckets) == []
  {
    if buckets != [] { NoneAvailable(buckets[1..]); }
  }

  lemma {:induction false} NothingReleased(session: string, deliveries: seq<Delivery>)
    requires forall i :: 0 <= i < |deliveries| ==> deliveries[i].start < deliveries[i].end
    ensures Findings(session, deliveries, []) == []
  {
    if deliveries != [] {
      NothingReleased(session, deliveries[1..]);
      assert !Covered(Spans([]), deliveries[0].start);
      assert deliveries[0].start <= deliveries[0].start < deliveries[0].end;
    }
  }

  lemma {:induction false} SmallGroupBuckets(policy: Policy, d: Data, start: int)
    requires |OptedIn(d.participants)| < policy.minimumGroupSize
    ensures forall i :: 0 <= i < |BucketsFrom(policy, d, start)| ==> BucketsFrom(policy, d, start)[i].status.Suppressed?
    decreases ReportEnd(d.chunks) - start
  {
    hide Observed, Affected, ReportEnd, OptedIn;
    if start < ReportEnd(d.chunks) { SmallGroupBuckets(policy, d, start + policy.bucketMs); }
  }

  /** With too few opted-in participants the whole report is the same whatever the
      coverage, the signals, the delivery events and the participants are. */
  lemma SuppressionIndependence(policy: Policy, a: Data, b: Data)
    requires a.chunks == b.chunks
    requires |OptedIn(a.participants)| < policy.minimumGroupSize && |OptedIn(b.participants)| < policy.minimumGroupSize
    requires forall i :: 0 <= i < |a.deliveries| ==> a.deliveries[i].start < a.deliveries[i].end
    requires forall i :: 0 <= i < |b.deliveries| ==> b.deliveries[i].start < b.deliveries[i].end
    ensures ReportOf(policy, a) == ReportOf(policy, b) && ReportOf(policy, a).status == Suppressed
    ensures ReportOf(policy, a).findings == []
  {
    hide Observed, Affected, OptedIn, IsReleasable;
    forall s ensures BucketOf(policy, a, s) == BucketOf(policy, b, s) {}
    SameBuckets(policy, a, b, 0);
    SmallGroupBuckets(policy, a, 0);
    NoneAvailable(BucketsFrom(policy, a, 0));
    NothingReleased(a.session, a.deliveries);
    NothingReleased(b.session, b.deliveries);
  }

  // ------------------------------------------------------ corrections (two runs)

  /** A denied signal counts least, a confirmed one most. */
  function Rank(confirmed: Option<bool>): int {
    match confirmed
    case Some(false) => 0
    case None => 1
    case Some(true) => 2
  }

  /** The same signals, each denied at least as much as in `b`. */
  predicate Weaker(a: seq<Signal>, b: seq<Signal>) {
    |a| == |b| && forall i :: 0 <= i < |a| ==>
        a[i] == b[i].(confirmed := a[i].confirmed) && Rank(a[i].confirmed) <= Rank(b[i].confirmed)
  }

  lemma {:induction false} WeakerMissesLess(policy: Policy, a: seq<Signal>, b: seq<Signal>, owner: string, t: int)
    requires Weaker(a, b)
    ensures Covered(Missed(policy, a, owner), t) ==> Covered(Missed(policy, b, owner), t)
  {
    hide Covered, Counts;
    if a != [] {
      WeakerMissesLess(policy, a[1..], b[1..], owner, t);
      WeakerCounts(policy, a[0], b[0]);
      assert [] + Missed(policy, a[1..], owner) == Missed(policy, a[1..], owner);
      assert [] + Missed(policy, b[1..], owner) == Missed(policy, b[1..], owner);
      var i := [Interval(a[0].start, a[0].end)];
      CoveredAppend(i, Missed(policy, a[1..], owner), t);
      CoveredAppend(i, Missed(policy, b[1..], owner), t);
    }
  }

  lemma WeakerCounts(policy: Policy, a: Signal, b: Signal)
    requires a == b.(confirmed := a.confirmed) && Rank(a.confirmed) <= Rank(b.confirmed)
    ensures Counts(policy, a) ==> Counts(policy, b)
  {
  }

  lemma {:induction false} SubsetSize<T>(a: set<T>, b: set<T>)
    requires a <= b
    ensures |a| <= |b|
    decreases a
  {
    if a != {} {
      var x :| x in a;
      SubsetSize(a - {x}, b - {x});
    }
  }

  lemma WeakerAffectsFewer(policy: Policy, a: seq<Signal>, b: seq<Signal>, observed: set<string>, start: int, end: int)
    requires Weaker(a, b)
    ensures |Affected(policy, a, observed, start, end)| <= |Affected(policy, b, observed, start, end)|
  {
    hide Missed, Weaker, Counts;
    forall p | p in Affected(policy, a, observed, start, end) ensures p in Affected(policy, b, observed, start, end) {
      forall t
        ensures Covered(Missed(policy, a, p), t) ==> Covered(Missed(policy, b, p), t)
      {
        WeakerMissesLess(policy, a, b, p, t);
      }
      MeasureMonotone(Missed(policy, a, p), Missed(policy, b, p), start, end);
    }
    SubsetSize(Affected(policy, a, observed, start, end), Affected(policy, b, observed, start, end));
  }

  /** Same bucket, status and denominators; no more missed; a hotspot stays one in `y`. */
  predicate NoWorse(x: Bucket, y: Bucket) {
    && x.start == y.start && x.end == y.end && x.status == y.status && x.coverage == y.coverage
    && (x.isHotspot ==> y.isHotspot)
    && (if x.missed.Some? && y.missed.Some?
        then x.missed.value.denominator == y.missed.value.denominator
            && x.missed.value.numerator <= y.missed.value.numerator
        else x.missed == y.missed)
  }

  lemma ReachesMonotone(m: nat, n: nat, d: nat, limit: real)
    requires d > 0 && m <= n && Reaches(Ratio(m, d), limit)
    ensures Reaches(Ratio(n, d), limit)
  {
    assert n as real / d as real == m as real / d as real + (n - m) as real / d as real;
  }

  lemma ReleasedNoWorse(policy: Policy, start: int, end: int, group: nat, observed: nat, fewer: nat, more: nat,
                        chunks: seq<Chunk>)
    requires fewer <= more
    ensures NoWorse(Released(policy, start, end, group, observed, fewer, chunks),
                    Released(policy, start, end, group, observed, more, chunks))
  {
    hide Reaches, ChunkIds, Finals;
    if observed > 0 && Reaches(Ratio(fewer, observed), policy.hotspotRatio) {
      ReachesMonotone(fewer, more, observed, policy.hotspotRatio);
    }
  }

  ghost predicate AllNoWorse(x: seq<Bucket>, y: seq<Bucket>) {
    |x| == |y| && forall i :: 0 <= i < |x| ==> NoWorse(x[i], y[i])
  }

  lemma {:induction false} BucketsNoWorse(policy: Policy, d: Data, e: Data, start: int)
    requires d == e.(events := d.events) && Weaker(d.events, e.events)
    ensures AllNoWorse(BucketsFrom(policy, d, start), BucketsFrom(policy, e, start))
    decreases ReportEnd(d.chunks) - start
  {
    hide Released, Affected, IsObserved, NoWorse, ReportEnd, Weaker;
    if start < ReportEnd(d.chunks) {
      BucketsNoWorse(policy, d, e, start + policy.bucketMs);
      var end := Min(ReportEnd(d.chunks), start + policy.bucketMs);
      var observed := Observed(d, start, end);
      WeakerAffectsFewer(policy, d.events, e.events, observed, start, end);
      ReleasedNoWorse(policy, start, end, |OptedIn(d.participants)|, |observed|,
                      |Affected(policy, d.events, observed, start, end)|,
                      |Affected(policy, e.events, observed, start, end)|, d.chunks);
    }
  }

  lemma {:induction false} AvailableNoWorse(x: seq<Bucket>, y: seq<Bucket>)
    requires AllNoWorse(x, y)
    ensures |AvailableOf(x)| == |AvailableOf(y)| && Spans(AvailableOf(x)) == Spans(AvailableOf(y))
    ensures Calm(AvailableOf(x)) >= Calm(AvailableOf(y))
  {
    if x != [] {
      AvailableNoWorse(x[1..], y[1..]);
      var a, b := AvailableOf(x[1..]), AvailableOf(y[1..]);
      assert NoWorse(x[0], y[0]);
      assert [] + a == a && [] + b == b && ([x[0]] + a)[1..] == a && ([y[0]] + b)[1..] == b;
    }
  }

  lemma {:induction false} SameFindings(session: string, deliveries: seq<Delivery>, a: seq<Bucket>, b: seq<Bucket>)
    requires Spans(a) == Spans(b)
    ensures Findings(session, deliveries, a) == Findings(session, deliveries, b)
  {
    if deliveries != [] {
      SameFindings(session, deliveries[1..], a, b);
      assert IsReleasable(deliveries[0], a) == IsReleasable(deliveries[0], b);
    }
  }

  /** Everything of `y` but the missed numerators, the hotspots and the continuity
      numerator is as in `x`, and those are no better. */
  ghost predicate ReportNoWorse(x: Report, y: Report) {
    && AllNoWorse(x.buckets, y.buckets) && x.status == y.status && x.findings == y.findings
    && (x.continuity.Some? <==> y.continuity.Some?)
    && (x.continuity.Some? ==> x.continuity.value.denominator == y.continuity.value.denominator
                               && x.continuity.value.numerator >= y.continuity.value.numerator)
  }

  /** Denying signals never makes a report look worse and leaves everything but the
      missed numerators, the hotspots and the continuity numerator as they were;
      confirming signals is the same statement read from right to left. */
  lemma CorrectionMonotone(policy: Policy, d: Data, e: Data)
    requires d == e.(events := d.events) && Weaker(d.events, e.events)
    ensures ReportNoWorse(ReportOf(policy, d), ReportOf(policy, e))
  {
    hide BucketsFrom, AllNoWorse, OptedIn, Findings, Spans, Weaker;
    BucketsNoWorse(policy, d, e, 0);
    AvailableNoWorse(BucketsFrom(policy, d, 0), BucketsFrom(policy, e, 0));
    SameFindings(d.session, d.deliveries, AvailableOf(BucketsFrom(policy, d, 0)),
                 AvailableOf(BucketsFrom(policy, e, 0)));
  }

  /** Correcting one signal. */
  function Corrected(events: seq<Signal>, k: nat, confirmed: bool): seq<Signal>
    requires k < |events|
  {
    events[k := events[k].(confirmed := Some(confirmed))]
  }

  lemma CorrectionDirection(events: seq<Signal>, k: nat)
    requires k < |events|
    ensures Weaker(Corrected(events, k, false), events) && Weaker(events, Corrected(events, k, true))
  {
  }
}
