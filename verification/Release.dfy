/** What a report releases, in terms of the records it is derived from: who was watching,
    who missed how much, and which counts that lets out. */
module Release {
  import opened Common
  import opened Intervals
  import opened Metrics
  import opened Transcript

  // ------------------------------------------------------- watching and missing

  /** The participant reported this millisecond of the session as available, or unavailable. */
  ghost predicate Reports(d: Data, owner: string, isAvailable: bool, t: int) {
    exists e :: e in d.coverage && e.session == d.session && e.owner == owner
                && e.record.isAvailable == isAvailable && e.record.start <= t < e.record.end
  }

  /** Opted in, and every millisecond reported as available and none as unavailable. */
  ghost predicate IsWatching(d: Data, owner: string, start: int, end: int) {
    && owner in d.participants && d.participants[owner]
    && forall t :: start <= t < end ==> Reports(d, owner, true, t) && !Reports(d, owner, false, t)
  }

  /** A confirmed signal of an approved kind without a phone, or an undecided one that is
      confident enough and more than looking down. */
  predicate IsEvidence(policy: Policy, e: Metrics.Signal) {
    && e.kind in {"face_absent", "head_away", "looking_down", "window_unfocused", "student_left_frame",
                  "user_marked_confused", "possible_missed_window"}
    && "phone_visible" !in e.signals
    && match e.confirmed
       case Some(isConfirmed) => isConfirmed
       case None => e.kind != "looking_down" && e.confidence >= policy.minimumConfidence
  }

  ghost predicate MissesAt(policy: Policy, d: Data, owner: string, t: int) {
    exists e :: e in d.events && e.owner == owner && IsEvidence(policy, e) && e.start <= t < e.end
  }

  ghost function MissedTimes(policy: Policy, d: Data, owner: string, start: int, end: int): set<int> {
    set t | start <= t < end && MissesAt(policy, d, owner, t)
  }

  ghost function Watching(d: Data, start: int, end: int): set<string> {
    set p | p in d.participants && IsWatching(d, p, start, end)
  }

  /** Those watching who missed the policy's duration, or all of a shorter range. */
  ghost function Missing(policy: Policy, d: Data, start: int, end: int): set<string> {
    set p | p in Watching(d, start, end)
            && |MissedTimes(policy, d, p, start, end)| >= Min(policy.minimumSignalMs, end - start)
  }

  lemma {:induction false} ObservationsCover(coverage: seq<Entry>, session: string, owner: string, isAvailable: bool,
                                             t: int)
    ensures Covered(Observations(coverage, session, owner, isAvailable), t) <==>
        exists e :: e in coverage && e.session == session && e.owner == owner
                    && e.record.isAvailable == isAvailable && e.record.start <= t < e.record.end
  {
    if coverage != [] {
      var e, rest := coverage[0], Observations(coverage[1..], session, owner, isAvailable);
      ObservationsCover(coverage[1..], session, owner, isAvailable, t);
      assert coverage == [e] + coverage[1..] && [] + rest == rest;
      SplitCovered(Interval(e.record.start, e.record.end), rest, t);
    }
  }

  lemma {:induction false} MissedCover(policy: Policy, events: seq<Metrics.Signal>, owner: string, t: int)
    ensures Covered(Missed(policy, events, owner), t) <==>
        exists e :: e in events && e.owner == owner && IsEvidence(policy, e) && e.start <= t < e.end
  {
    hide IsEvidence, Counts;
    if events != [] {
      var e, rest := events[0], Missed(policy, events[1..], owner);
      MissedCover(policy, events[1..], owner, t);
      CountsIsEvidence(policy, e);
      assert events == [e] + events[1..] && [] + rest == rest;
      SplitCovered(Interval(e.start, e.end), rest, t);
    }
  }

  lemma CountsIsEvidence(policy: Policy, e: Metrics.Signal)
    ensures Counts(policy, e) <==> IsEvidence(policy, e)
  {
    if e.confirmed.Some? {
      var isConfirmed := e.confirmed.value;
      if isConfirmed { assert e.confirmed == Some(true); } else { assert e.confirmed == Some(false); }
    }
  }

  /** The measure of a union is the number of milliseconds in it. */
  lemma {:induction false} MeasureIsCount(intervals: seq<Interval>, lo: int, hi: int)
    ensures Measure(intervals, lo, hi) == |set t | lo <= t < hi && Covered(intervals, t)|
    decreases hi - lo
  {
    var all := set t | lo <= t < hi && Covered(intervals, t);
    if lo >= hi {
      assert all == {};
    } else {
      MeasureIsCount(intervals, lo, hi - 1);
      var before := set t | lo <= t < hi - 1 && Covered(intervals, t);
      assert all == before + if Covered(intervals, hi - 1) then {hi - 1} else {};
    }
  }

  lemma ObservedAreWatching(d: Data, start: int, end: int)
    ensures Observed(d, start, end) == Watching(d, start, end)
  {
    hide Observations, Covered;
    forall p, isAvailable, t
      ensures Covered(Observations(d.coverage, d.session, p, isAvailable), t) <==> Reports(d, p, isAvailable, t)
    {
      ObservationsCover(d.coverage, d.session, p, isAvailable, t);
    }
  }

  lemma AffectedAreMissing(policy: Policy, d: Data, start: int, end: int)
    ensures Affected(policy, d.events, Observed(d, start, end), start, end) == Missing(policy, d, start, end)
  {
    hide Watching, Observed, Missed, Covered, Measure, MissesAt;
    ObservedAreWatching(d, start, end);
    forall p ensures Measure(Missed(policy, d.events, p), start, end) == |MissedTimes(policy, d, p, start, end)| {
      forall t ensures Covered(Missed(policy, d.events, p), t) <==> MissesAt(policy, d, p, t) {
        MissedCoverAt(policy, d, p, t);
      }
      MeasureIsCount(Missed(policy, d.events, p), start, end);
      assert MissedTimes(policy, d, p, start, end)
          == set t | start <= t < end && Covered(Missed(policy, d.events, p), t);
    }
  }

  lemma MissedCoverAt(policy: Policy, d: Data, owner: string, t: int)
    ensures Covered(Missed(policy, d.events, owner), t) <==> MissesAt(policy, d, owner, t)
  {
    MissedCover(policy, d.events, owner, t);
  }

  // ----------------------------------------------------------- one released bucket

  predicate IsOverlapping(c: Chunk, start: int, end: int) { c.isFinal && c.start < end && start < c.end }

  /** The positions of the final chunks overlapping a range, in stored order. */
  ghost predicate AreOverlapping(chunks: seq<Chunk>, start: int, end: int, at: seq<nat>) {
    Rise(at) && forall i: nat :: i in at <==> i < |chunks| && IsOverlapping(chunks[i], start, end)
  }

  /** The chunk ids a hotspot carries: those of the first overlapping final chunks. */
  ghost predicate NamesFirst(chunks: seq<Chunk>, start: int, end: int, ids: seq<string>) {
    exists at ::
      AreOverlapping(chunks, start, end, at) && AreIdsAt(chunks, First(at, 100), ids)
  }

  /** These are the ids of the chunks at these positions. */
  predicate AreIdsAt(chunks: seq<Chunk>, at: seq<nat>, ids: seq<string>) {
    |ids| == |at| && forall k :: 0 <= k < |at| ==> at[k] < |chunks| && ids[k] == chunks[at[k]].id
  }

  lemma ChunkIdsCons(c: Chunk, rest: seq<Chunk>, start: int, end: int)
    ensures ChunkIds(Finals([c] + rest), start, end)
        == (if IsOverlapping(c, start, end) then [c.id] else []) + ChunkIds(Finals(rest), start, end)
  {
    var finals := Finals(rest);
    assert ([c] + rest)[1..] == rest && [] + finals == finals && ([c] + finals)[1..] == finals;
  }

  lemma IdsCons(c: Chunk, rest: seq<Chunk>, isChosen: bool, at: seq<nat>, ids: seq<string>)
    requires AreIdsAt(rest, at, ids)
    ensures AreIdsAt([c] + rest, (if isChosen then [0] else []) + Later(at), (if isChosen then [c.id] else []) + ids)
  {
    var all, more := [c] + rest, Later(at);
    forall k | 0 <= k < |at|
      ensures more[k] < |all| && ids[k] == all[more[k]].id
    {
      assert all[at[k] + 1] == rest[at[k]];
    }
  }

  lemma {:induction false} ChunkIdsAt(chunks: seq<Chunk>, start: int, end: int) returns (at: seq<nat>)
    ensures AreOverlapping(chunks, start, end, at) && AreIdsAt(chunks, at, ChunkIds(Finals(chunks), start, end))
  {
    hide ChunkIds, Finals, IsOverlapping;
    if chunks == [] {
      at := [];
      NoChunkIds(start, end);
    } else {
      var c, rest := chunks[0], chunks[1..];
      assert chunks == [c] + rest;
      var tail := ChunkIdsAt(rest, start, end);
      at := (if IsOverlapping(c, start, end) then [0] else []) + Later(tail);
      RiseCons(tail, IsOverlapping(c, start, end));
      ChunkIdsCons(c, rest, start, end);
      IdsCons(c, rest, IsOverlapping(c, start, end), tail, ChunkIds(Finals(rest), start, end));
    }
  }

  lemma NoChunkIds(start: int, end: int)
    ensures ChunkIds(Finals([]), start, end) == []
  {
  }

  /** Everything a bucket says, in terms of how many are opted in, watched it and missed it. */
  ghost predicate IsReleasedFrom(policy: Policy, d: Data, b: Bucket) {
    var group, watching, missing := |OptedIn(d.participants)|, |Watching(d, b.start, b.end)|,
        |Missing(policy, d, b.start, b.end)|;
    var isGroup := group >= policy.minimumGroupSize;
    var isWatched := isGroup && watching >= policy.minimumGroupSize;
    var isCovered := isWatched && watching as real >= policy.minimumCoverage * group as real;
    var isHot := isCovered && missing as real >= policy.hotspotRatio * watching as real;
    && b.coverage == (if isWatched then Some(Ratio(watching, group)) else None)
    && b.missed == (if isCovered then Some(Ratio(missing, watching)) else None)
    && b.status == (if !isGroup then Suppressed else if isCovered then Available else InsufficientEvidence)
    && b.isHotspot == isHot
    && if isHot then NamesFirst(d.chunks, b.start, b.end, b.chunkIds) else b.chunkIds == []
  }

  lemma ReachesExactly(r: Ratio, limit: real)
    requires r.denominator > 0
    ensures Reaches(r, limit) <==> r.numerator as real >= limit * r.denominator as real
  {
    var n, d := r.numerator as real, r.denominator as real;
    assert n == (n / d) * d;
    Scaled(n / d, limit, d);
  }

  lemma Scaled(x: real, y: real, d: real)
    requires d > 0.0
    ensures x >= y <==> x * d >= y * d
  {
    assert x * d - y * d == (x - y) * d;
  }

  lemma BucketIsReleased(policy: Policy, d: Data, start: int)
    ensures IsReleasedFrom(policy, d, BucketOf(policy, d, start))
  {
    hide Watching, Missing, Observed, Affected, OptedIn, Reaches, ReportEnd, ChunkIds, Finals, AreOverlapping;
    var b := BucketOf(policy, d, start);
    var group, watching, missing := |OptedIn(d.participants)|, |Watching(d, b.start, b.end)|,
        |Missing(policy, d, b.start, b.end)|;
    ObservedAreWatching(d, b.start, b.end);
    AffectedAreMissing(policy, d, b.start, b.end);
    if group > 0 { ReachesExactly(Ratio(watching, group), policy.minimumCoverage); }
    if watching > 0 { ReachesExactly(Ratio(missing, watching), policy.hotspotRatio); }
    var at := ChunkIdsAt(d.chunks, b.start, b.end);
    if b.isHotspot { assert NamesFirst(d.chunks, b.start, b.end, b.chunkIds); }
  }

  lemma {:induction false} BucketAt(policy: Policy, d: Data, start: int, i: nat)
    requires i < |BucketsFrom(policy, d, start)|
    ensures BucketsFrom(policy, d, start)[i] == BucketOf(policy, d, start + i * policy.bucketMs)
    decreases i
  {
    hide BucketOf, ReportEnd;
    if i > 0 {
      BucketAt(policy, d, start + policy.bucketMs, i - 1);
      assert start + policy.bucketMs + (i - 1) * policy.bucketMs == start + i * policy.bucketMs;
    }
  }

  /** Every bucket of a report: the coverage ratio is released exactly when enough opted in
      and enough of them watched all of it, the missed ratio exactly when besides the
      coverage reaches the minimum, each with exactly those counts. */
  lemma BucketsAreReleased(policy: Policy, d: Data, i: nat)
    requires i < |ReportOf(policy, d).buckets|
    ensures var b := ReportOf(policy, d).buckets[i];
            && IsReleasedFrom(policy, d, b) && b.start == i * policy.bucketMs
            && (b.missed.Some? ==> b.missed.value.denominator >= policy.minimumGroupSize)
  {
    hide BucketOf, IsReleasedFrom, Findings, AvailableOf, Calm;
    BucketAt(policy, d, 0, i);
    BucketIsReleased(policy, d, i * policy.bucketMs);
    BucketBounds(policy, d, i * policy.bucketMs);
    assert 0 + i * policy.bucketMs == i * policy.bucketMs;
    MissedDenominator(policy, d, BucketOf(policy, d, i * policy.bucketMs));
  }

  lemma MissedDenominator(policy: Policy, d: Data, b: Bucket)
    requires IsReleasedFrom(policy, d, b)
    ensures b.missed.Some? ==> b.missed.value.denominator >= policy.minimumGroupSize
  {
  }

  /** A bucket that too few watched, or too small a part of the group, is the same whatever
      the signals are. */
  lemma PoorlyWatchedIndependence(policy: Policy, d: Data, e: Data, i: nat)
    requires e == d.(events := e.events) && i < |ReportOf(policy, d).buckets|
    requires var b := ReportOf(policy, d).buckets[i];
             var watching := |Watching(d, b.start, b.end)|;
             || watching < policy.minimumGroupSize
             || (watching as real) < policy.minimumCoverage * |OptedIn(d.participants)| as real
    ensures i < |ReportOf(policy, e).buckets| && ReportOf(policy, e).buckets[i] == ReportOf(policy, d).buckets[i]
  {
    hide ReportOf, Watching, OptedIn, Missing, NamesFirst;
    BucketsAreReleased(policy, d, i);
    assert !ReportOf(policy, d).buckets[i].status.Available?;
    UnavailableIndependence(policy, d, e, i);
  }

  lemma UnavailableIndependence(policy: Policy, d: Data, e: Data, i: nat)
    requires e == d.(events := e.events) && i < |ReportOf(policy, d).buckets|
    requires !ReportOf(policy, d).buckets[i].status.Available?
    ensures i < |ReportOf(policy, e).buckets| && ReportOf(policy, e).buckets[i] == ReportOf(policy, d).buckets[i]
  {
    hide OptedIn, IsObserved, IsAffected, Reaches, ReportEnd, ChunkIds, Finals, Findings, AvailableOf, Calm;
    BucketAt(policy, d, 0, i);
    SameTiles(policy, d, e, 0);
    BucketAt(policy, e, 0, i);
    var start := 0 + i * policy.bucketMs;
    var end := Min(ReportEnd(d.chunks), start + policy.bucketMs);
    assert Observed(d, start, end) == Observed(e, start, end);
  }

  lemma {:induction false} SameTiles(policy: Policy, d: Data, e: Data, start: int)
    requires d.chunks == e.chunks
    ensures |BucketsFrom(policy, d, start)| == |BucketsFrom(policy, e, start)|
    decreases ReportEnd(d.chunks) - start
  {
    hide BucketOf, ReportEnd;
    if start < ReportEnd(d.chunks) { SameTiles(policy, d, e, start + policy.bucketMs); }
  }

  // --------------------------------------------------------------- the whole report

  /** A report ends with the last final chunk, within the longest reported range. */
  lemma ReportEndExactly(chunks: seq<Chunk>, t: nat)
    ensures t < ReportEnd(chunks) <==> t < 28_800_000 && exists c :: c in chunks && c.isFinal && t < c.end
  {
    FinalsExactly(chunks);
    LastEndExactly(Finals(chunks));
  }

  lemma {:induction false} FinalsExactly(chunks: seq<Chunk>)
    ensures forall c :: c in Finals(chunks) <==> c in chunks && c.isFinal
  {
    if chunks != [] {
      FinalsExactly(chunks[1..]);
      assert chunks == [chunks[0]] + chunks[1..];
    }
  }

  lemma {:induction false} LastEndExactly(chunks: seq<Chunk>)
    ensures forall c :: c in chunks ==> c.end <= LastEnd(chunks)
    ensures if chunks == [] then LastEnd(chunks) == 0 else exists c :: c in chunks && c.end == LastEnd(chunks)
  {
    if chunks != [] {
      assert chunks == [chunks[0]] + chunks[1..];
      if |chunks| > 1 { LastEndExactly(chunks[1..]); } else { assert chunks[0].end == LastEnd(chunks); }
    }
  }

  function AvailableIn(buckets: seq<Bucket>): set<Bucket> { set b | b in buckets && b.status.Available? }

  function CalmIn(buckets: seq<Bucket>): set<Bucket> { set b | b in AvailableIn(buckets) && !b.isHotspot }

  predicate Distinct(buckets: seq<Bucket>) {
    forall i, j :: 0 <= i < j < |buckets| ==> buckets[i].start < buckets[j].start
  }

  lemma FirstIsNew(b: Bucket, rest: seq<Bucket>)
    requires Distinct([b] + rest)
    ensures b !in rest
  {
    forall k | 0 <= k < |rest| ensures rest[k] != b { assert ([b] + rest)[k + 1].start > ([b] + rest)[0].start; }
  }

  lemma SetsGrow(b: Bucket, rest: seq<Bucket>)
    ensures AvailableIn([b] + rest) == AvailableIn(rest) + if b.status.Available? then {b} else {}
    ensures CalmIn([b] + rest) == CalmIn(rest) + if b.status.Available? && !b.isHotspot then {b} else {}
  {
  }

  /** One more bucket, before later ones, adds itself to the sets and to the counts. */
  lemma SetsCons(b: Bucket, rest: seq<Bucket>)
    requires Distinct([b] + rest)
    ensures var isCalm := b.status.Available? && !b.isHotspot;
            && |AvailableIn([b] + rest)| == |AvailableIn(rest)| + (if b.status.Available? then 1 else 0)
            && |CalmIn([b] + rest)| == |CalmIn(rest)| + (if isCalm then 1 else 0)
  {
    FirstIsNew(b, rest);
    assert b !in AvailableIn(rest) && b !in CalmIn(rest);
    hide AvailableIn, CalmIn;
    SetsGrow(b, rest);
  }

  lemma CountsCons(b: Bucket, rest: seq<Bucket>)
    ensures var isCalm := b.status.Available? && !b.isHotspot;
            && |AvailableOf([b] + rest)| == |AvailableOf(rest)| + (if b.status.Available? then 1 else 0)
            && Calm(AvailableOf([b] + rest)) == Calm(AvailableOf(rest)) + (if isCalm then 1 else 0)
  {
    var kept := AvailableOf(rest);
    assert ([b] + rest)[1..] == rest && [] + kept == kept && ([b] + kept)[1..] == kept;
  }

  lemma {:induction false} CountAvailable(buckets: seq<Bucket>)
    requires Distinct(buckets)
    ensures |AvailableOf(buckets)| == |AvailableIn(buckets)| && Calm(AvailableOf(buckets)) == |CalmIn(buckets)|
  {
    if buckets != [] {
      assert buckets == [buckets[0]] + buckets[1..];
      CountAvailable(buckets[1..]);
      SetsCons(buckets[0], buckets[1..]);
      CountsCons(buckets[0], buckets[1..]);
    }
  }

  /** The report is available exactly when some bucket is, and suppressed exactly when none
      is and too few opted in; the continuity ratio counts the available buckets and those
      of them that are no hotspot. */
  lemma ReportExactly(policy: Policy, d: Data)
    ensures var r := ReportOf(policy, d);
            var available := |AvailableIn(r.buckets)|;
            && r.status == (if available > 0 then Available
                            else if |OptedIn(d.participants)| < policy.minimumGroupSize then Suppressed
                            else InsufficientEvidence)
            && r.continuity == if available > 0 then Some(Ratio(|CalmIn(r.buckets)|, available)) else None
  {
    hide BucketsFrom, OptedIn, Findings, AvailableOf, Calm, AvailableIn, CalmIn;
    var buckets := BucketsFrom(policy, d, 0);
    BucketsAreDistinct(policy, d, 0);
    CountAvailable(buckets);
  }

  lemma {:induction false} BucketsAreDistinct(policy: Policy, d: Data, start: int)
    ensures Distinct(BucketsFrom(policy, d, start))
    ensures forall b :: b in BucketsFrom(policy, d, start) ==> b.start >= start
    decreases ReportEnd(d.chunks) - start
  {
    hide BucketOf, ReportEnd;
    if start < ReportEnd(d.chunks) {
      BucketsAreDistinct(policy, d, start + policy.bucketMs);
      BucketBounds(policy, d, start);
      var rest := BucketsFrom(policy, d, start + policy.bucketMs);
      forall j | 0 <= j < |rest| ensures rest[j].start >= start + policy.bucketMs { assert rest[j] in rest; }
    }
  }

  /** The finding tells of a delivery event of the session every millisecond of which lies
      in an available bucket. */
  ghost predicate IsFinding(d: Data, buckets: seq<Bucket>, f: Finding) {
    exists e :: e in d.deliveries && e.session == d.session && f == Finding(e.start, e.end, e.kind, e.confidence)
                && forall t :: e.start <= t < e.end ==> AvailableAt(buckets, t)
  }

  lemma FindingIs(d: Data, buckets: seq<Bucket>, f: Finding)
    ensures f in Findings(d.session, d.deliveries, AvailableOf(buckets)) <==> IsFinding(d, buckets, f)
  {
    hide AvailableAt;
    FindingsExact(d.session, d.deliveries, buckets, f);
  }

  /** The first hundred delivery events of the session that lie in available buckets are
      released, and no other; all of them when there are fewer. */
  lemma FindingsReleased(policy: Policy, d: Data)
    ensures var r := ReportOf(policy, d);
            && |r.findings| <= 100
            && (forall f :: f in r.findings ==> IsFinding(d, r.buckets, f))
            && (|r.findings| < 100 ==> forall f :: IsFinding(d, r.buckets, f) ==> f in r.findings)
  {
    hide BucketsFrom, OptedIn, Findings, Calm, IsFinding;
    var r := ReportOf(policy, d);
    var all := Findings(d.session, d.deliveries, AvailableOf(r.buckets));
    forall f ensures f in all <==> IsFinding(d, r.buckets, f) { FindingIs(d, r.buckets, f); }
  }
}
