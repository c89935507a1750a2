/** What a recovery request reads: its context window in terms of the transcript, the
    request and the source events it names. */
module RecoveryWindows {
  import opened Common
  import opened Intervals
  import opened Transcript
  import opened Recovery

  // ------------------------------------------------------------ chunks in time order

  ghost predicate StoredBefore(stored: seq<Chunk>, x: Chunk, y: Chunk) {
    exists i, j :: 0 <= i < j < |stored| && stored[i] == x && stored[j] == y
  }

  /** By start, then by end, then in stored order. */
  ghost predicate Precedes(stored: seq<Chunk>, x: Chunk, y: Chunk) {
    || x.start < y.start
    || (x.start == y.start && x.end < y.end)
    || (x.start == y.start && x.end == y.end && StoredBefore(stored, x, y))
  }

  ghost predicate InTimeOrder(stored: seq<Chunk>, s: seq<Chunk>) {
    forall i, j :: 0 <= i < j < |s| ==> Precedes(stored, s[i], s[j])
  }

  /** Exactly the stored final chunks that overlap the range, in time order. */
  ghost predicate AreRead(stored: seq<Chunk>, from: int, to: int, found: seq<Chunk>) {
    && InTimeOrder(stored, found)
    && forall c :: c in found <==> c in stored && c.isFinal && c.start < to && from < c.end
  }

  lemma StoredCons(first: Chunk, rest: seq<Chunk>, x: Chunk, y: Chunk)
    ensures StoredBefore([first] + rest, x, y) <==> (x == first && y in rest) || StoredBefore(rest, x, y)
  {
    var all := [first] + rest;
    if i, j :| 0 <= i < j < |all| && all[i] == x && all[j] == y {
      assert rest[j - 1] == y && (i > 0 ==> rest[i - 1] == x);
    }
    if i, j :| 0 <= i < j < |rest| && rest[i] == x && rest[j] == y { assert all[i + 1] == x && all[j + 1] == y; }
    if j :| 0 <= j < |rest| && rest[j] == y { assert all[0] == first && all[j + 1] == y; }
  }

  lemma PrecedesLater(first: Chunk, stored: seq<Chunk>, x: Chunk, y: Chunk)
    requires Precedes(stored, x, y)
    ensures Precedes([first] + stored, x, y)
  {
    StoredCons(first, stored, x, y);
  }

  lemma PrecedesFirst(first: Chunk, stored: seq<Chunk>, y: Chunk)
    requires y in stored && !KeyLess(y, first)
    ensures Precedes([first] + stored, first, y)
  {
    StoredCons(first, stored, first, y);
  }

  lemma {:induction false} InsertInTimeOrder(x: Chunk, stored: seq<Chunk>, s: seq<Chunk>)
    requires InTimeOrder(stored, s) && InOrder(s) && forall c :: c in s ==> c in stored
    ensures InTimeOrder([x] + stored, InsertChunk(x, s)) && forall c :: c in InsertChunk(x, s) <==> c == x || c in s
  {
    hide Precedes;
    var all, r := [x] + stored, InsertChunk(x, s);
    forall i, j | 0 <= i < j < |s| ensures Precedes(all, s[i], s[j]) { PrecedesLater(x, stored, s[i], s[j]); }
    if s == [] || !KeyLess(s[0], x) {
      forall j | 0 <= j < |s| ensures Precedes(all, x, s[j]) {
        assert j == 0 || !KeyLess(s[j], s[0]);
        PrecedesFirst(x, stored, s[j]);
      }
    } else {
      assert s == [s[0]] + s[1..];
      InsertInTimeOrder(x, stored, s[1..]);
      var rest := InsertChunk(x, s[1..]);
      forall j | 0 <= j < |rest| ensures Precedes(all, s[0], rest[j]) {
        assert rest[j] in rest;
        if rest[j] == x { KeyLessPrecedes(all, s[0], x); } else { assert rest[j] in s[1..]; }
      }
    }
  }

  lemma KeyLessPrecedes(stored: seq<Chunk>, x: Chunk, y: Chunk)
    requires KeyLess(x, y)
    ensures Precedes(stored, x, y)
  {
  }

  lemma {:induction false} SortInTimeOrder(s: seq<Chunk>)
    ensures InTimeOrder(s, SortChunks(s)) && forall c :: c in SortChunks(s) <==> c in s
  {
    if s != [] {
      SortInTimeOrder(s[1..]);
      SortChunksSorted(s[1..]);
      InsertInTimeOrder(s[0], s[1..], SortChunks(s[1..]));
      assert s == [s[0]] + s[1..];
    }
  }

  lemma {:induction false} OverlappingStored(stored: seq<Chunk>, from: int, to: int, x: Chunk, y: Chunk)
    requires StoredBefore(Overlapping(stored, from, to), x, y)
    ensures StoredBefore(stored, x, y)
  {
    hide StoredBefore;
    if stored == [] {
      NothingStored(x, y);
    } else {
      var first, rest := stored[0], Overlapping(stored[1..], from, to);
      assert stored == [first] + stored[1..] && [] + rest == rest;
      OverlappingMembers(stored[1..], from, to);
      StoredCons(first, stored[1..], x, y);
      StoredCons(first, rest, x, y);
      if StoredBefore(rest, x, y) { OverlappingStored(stored[1..], from, to, x, y); }
    }
  }

  lemma NothingStored(x: Chunk, y: Chunk)
    ensures !StoredBefore([], x, y)
  {
  }

  /** A window read is exactly the final chunks overlapping it, in time order. */
  lemma ReadIsRead(stored: seq<Chunk>, from: int, to: int)
    ensures AreRead(stored, from, to, ReadWindow(stored, from, to))
  {
    hide StoredBefore;
    var found := ReadWindow(stored, from, to);
    SortInTimeOrder(Overlapping(stored, from, to));
    OverlappingMembers(stored, from, to);
    forall i, j | 0 <= i < j < |found| ensures Precedes(stored, found[i], found[j]) {
      if StoredBefore(Overlapping(stored, from, to), found[i], found[j]) {
        OverlappingStored(stored, from, to, found[i], found[j]);
      }
    }
  }

  lemma OneOrder(stored: seq<Chunk>, x: Chunk, y: Chunk)
    requires UniqueIds(stored) && Precedes(stored, x, y)
    ensures !Precedes(stored, y, x)
  {
  }

  lemma {:induction false} OrderIsUnique(stored: seq<Chunk>, a: seq<Chunk>, b: seq<Chunk>)
    requires UniqueIds(stored) && InTimeOrder(stored, a) && InTimeOrder(stored, b)
    requires forall c :: c in a <==> c in b
    ensures a == b
  {
    hide Precedes, UniqueIds;
    assert (a != [] ==> a[0] in b) && (b != [] ==> b[0] in a);
    if a != [] && b != [] {
      if a[0] != b[0] {
        var i :| 0 < i < |a| && a[i] == b[0];
        var j :| 0 < j < |b| && b[j] == a[0];
        OneOrder(stored, a[0], b[0]);
        assert false;
      }
      TailMembers(stored, a);
      TailMembers(stored, b);
      OrderIsUnique(stored, a[1..], b[1..]);
    }
  }

  lemma TailMembers(stored: seq<Chunk>, s: seq<Chunk>)
    requires UniqueIds(stored) && InTimeOrder(stored, s) && s != []
    ensures forall c :: c in s[1..] <==> c in s && c != s[0]
  {
    hide Precedes, UniqueIds;
    assert s == [s[0]] + s[1..];
    if s[0] in s[1..] {
      var k :| 0 < k < |s| && s[k] == s[0];
      OneOrder(stored, s[0], s[0]);
    }
  }

  // ------------------------------------------------------------- the whole window

  /** One of the named source events, touching the requested interval. */
  predicate IsTouching(call: Call, e: Event) {
    && e in call.events && e.id in call.request.sourceEvents
    && e.start <= call.request.interval.end && call.request.interval.start <= e.end
  }

  /** The smallest interval around the request and its touching source events. */
  ghost predicate IsSpan(call: Call, span: Interval) {
    var r := call.request.interval;
    && span.start <= r.start && r.end <= span.end
    && (forall e :: IsTouching(call, e) ==> span.start <= e.start && e.end <= span.end)
    && (span.start == r.start || exists e :: IsTouching(call, e) && e.start == span.start)
    && (span.end == r.end || exists e :: IsTouching(call, e) && e.end == span.end)
  }

  /** The texts laid end to end. */
  function TextOf(chunks: seq<Chunk>): string {
    if chunks == [] then "" else TextOf(chunks[..|chunks| - 1]) + chunks[|chunks| - 1].text
  }

  predicate IsTooLong(found: seq<Chunk>) { |found| > 100 || |TextOf(found)| > 24_000 }

  /** The greatest end of a stored chunk, or `otherwise` when none is stored. */
  ghost predicate IsLastEnd(stored: seq<Chunk>, otherwise: int, last: int) {
    if stored == [] then last == otherwise
    else (forall c :: c in stored ==> c.end <= last) && exists c :: c in stored && c.end == last
  }

  /** The greatest stored revision, or 0. */
  ghost predicate IsLastRevision(stored: seq<Chunk>, revision: nat) {
    if stored == [] then revision == 0
    else (forall c :: c in stored ==> c.revision <= revision) && exists c :: c in stored && c.revision == revision
  }

  /** The window of a span: everything final within the padding of it, unless that is too
      much, clamped to the clock and to what is known of the lecture. */
  ghost predicate IsWindowOf(call: Call, padding: nat, span: Interval, w: Window) {
    && w.session == call.session && w.requested == span && w.effective.start == Max(0, span.start - padding)
    && AreRead(call.chunks, w.effective.start, span.end + padding, w.chunks) && !IsTooLong(w.chunks)
    && (exists last :: IsLastEnd(call.chunks, span.end, last)
                       && w.effective.end == Min(Min(span.end + padding, last), 28_800_000))
    && IsLastRevision(call.chunks, w.revision)
  }

  ghost predicate IsWindow(call: Call, padding: nat, w: Window) {
    exists span :: IsSpan(call, span) && IsWindowOf(call, padding, span, w)
  }

  /** The chunks within the padding of the span are too many or too long. */
  ghost predicate HasNoWindow(call: Call, padding: nat) {
    exists span, found ::
      IsSpan(call, span) && AreRead(call.chunks, Max(0, span.start - padding), span.end + padding, found)
          && IsTooLong(found)
  }

  lemma {:induction false} TextSizeIsLength(chunks: seq<Chunk>)
    ensures TextSize(chunks) == |TextOf(chunks)|
    decreases |chunks|
  {
    if chunks != [] {
      var before, last := chunks[..|chunks| - 1], chunks[|chunks| - 1];
      TextSizeIsLength(before);
      assert chunks == before + [last];
      TextSizeAppend(before, last);
    }
  }

  lemma {:induction false} TextSizeAppend(chunks: seq<Chunk>, c: Chunk)
    ensures TextSize(chunks + [c]) == TextSize(chunks) + |c.text|
  {
    if chunks != [] {
      assert (chunks + [c])[1..] == chunks[1..] + [c];
      TextSizeAppend(chunks[1..], c);
    }
  }

  lemma {:induction false} HorizonIsLastEnd(stored: seq<Chunk>, otherwise: int)
    ensures IsLastEnd(stored, otherwise, Horizon(stored, otherwise))
  {
    if |stored| > 1 {
      HorizonIsLastEnd(stored[1..], otherwise);
      assert stored == [stored[0]] + stored[1..];
    }
  }

  lemma {:induction false} SourceMembers(events: seq<Event>, wanted: set<string>, i: Interval)
    ensures i in SourceIntervals(events, wanted) <==>
        exists e :: e in events && e.id in wanted && i == Interval(e.start, e.end)
  {
    if events != [] {
      SourceMembers(events[1..], wanted, i);
      assert events == [events[0]] + events[1..];
    }
  }

  /** The interval a request reads around is the span of the request. */
  function SpanOf(call: Call): Interval {
    ContextInterval(call.request.interval, SourceIntervals(call.events, set id | id in call.request.sourceEvents))
  }

  lemma SpanIsSpan(call: Call)
    ensures IsSpan(call, SpanOf(call))
  {
    hide ContextInterval, Merged;
    var r, wanted := call.request.interval, set id | id in call.request.sourceEvents;
    var sources := SourceIntervals(call.events, wanted);
    var h, all := SpanOf(call), [r] + Connected(r, sources);
    ContextIntervalIsHull(r, sources);
    forall i ensures i in all <==> i == r || exists e :: IsTouching(call, e) && i == Interval(e.start, e.end) {
      ConnectedIsFilter(r, sources, i);
      SourceMembers(call.events, wanted, i);
    }
    forall e | IsTouching(call, e) ensures h.start <= e.start && e.end <= h.end {
      assert Interval(e.start, e.end) in all;
    }
    assert r in all;
  }

  lemma SpanIsUnique(call: Call, a: Interval, b: Interval)
    requires IsSpan(call, a) && IsSpan(call, b)
    ensures a == b
  {
  }

  /** The window a request reads is its window; it has none exactly when the chunks in
      reach are too many or too long. */
  lemma WindowExactly(call: Call, padding: nat)
    requires UniqueIds(call.chunks)
    ensures WindowOf(call, padding).None? <==> HasNoWindow(call, padding)
    ensures forall w :: WindowOf(call, padding) == Some(w) <==> IsWindow(call, padding, w)
  {
    hide ContextInterval, SourceIntervals, ReadWindow, TextSize, Horizon, Revision, IsSpan, AreRead, UniqueIds, TextOf,
        IsLastEnd;
    var span := SpanOf(call);
    var from, to := Max(0, span.start - padding), span.end + padding;
    var found := ReadWindow(call.chunks, from, to);
    SpanIsSpan(call);
    ReadIsRead(call.chunks, from, to);
    TextSizeIsLength(found);
    HorizonIsLastEnd(call.chunks, span.end);
    if WindowOf(call, padding).Some? {
      assert IsWindowOf(call, padding, span, WindowOf(call, padding).value);
    } else {
      assert IsSpan(call, span) && AreRead(call.chunks, from, to, found) && IsTooLong(found);
    }
    forall w | IsWindow(call, padding, w) ensures WindowOf(call, padding) == Some(w) {
      var other :| IsSpan(call, other) && IsWindowOf(call, padding, other, w);
      SpanIsUnique(call, span, other);
      ReadIsUnique(call.chunks, from, to, found, w.chunks);
      LastIsUnique(call.chunks, span.end, w.revision);
    }
    if HasNoWindow(call, padding) {
      var other, read :| IsSpan(call, other)
          && AreRead(call.chunks, Max(0, other.start - padding), other.end + padding, read) && IsTooLong(read);
      SpanIsUnique(call, span, other);
      ReadIsUnique(call.chunks, from, to, found, read);
    }
  }

  lemma ReadIsUnique(stored: seq<Chunk>, from: int, to: int, a: seq<Chunk>, b: seq<Chunk>)
    requires UniqueIds(stored) && AreRead(stored, from, to, a) && AreRead(stored, from, to, b)
    ensures a == b
  {
    hide Precedes, UniqueIds;
    OrderIsUnique(stored, a, b);
  }

  /** The greatest end and the greatest revision of the stored chunks are determined. */
  lemma LastIsUnique(stored: seq<Chunk>, otherwise: int, revision: nat)
    ensures forall last :: IsLastEnd(stored, otherwise, last) ==> last == Horizon(stored, otherwise)
    ensures IsLastRevision(stored, revision) ==> revision == Revision(stored)
  {
    HorizonIsLastEnd(stored, otherwise);
  }

  // ----------------------------------------------------------- what a job delivers

  /** The card is for the window's session and cites something, and every citation names
      a chunk of the window with its exact times. */
  predicate CitesWindow(card: Card, w: Window) {
    && card.session == w.session && card.references != []
    && forall r :: r in card.references ==> exists c :: c in w.chunks && r == Reference(Some(c.id), c.start, c.end)
  }

  /** The provider's answer on a window, a card that does not cite it being malformed. */
  predicate IsMade(g: Generator, w: Window, result: Result<Card, Reason>) {
    match g(w.session, w)
    case Err(reason) => result == Err(reason)
    case Ok(card) => result == if CitesWindow(card, w) then Ok(card) else Err(ProviderMalformedOutput)
  }

  /** What a request comes to: missing context when it has no window or an empty one, and
      otherwise what the provider makes of its window. */
  ghost predicate IsDelivered(u: Setup, call: Call, result: Result<Card, Reason>) {
    || (HasNoWindow(call, u.padding) && result == Err(MissingTranscriptContext))
    || exists w ::
         && IsWindow(call, u.padding, w)
         && if w.chunks == [] then result == Err(MissingTranscriptContext) else IsMade(u.generator, w, result)
  }

  /** The requester's own job ended with what its request comes to. */
  ghost predicate DeliversWindow(u: Setup, b: Books, call: Call, job: nat) {
    && job in b.jobs && Get(b.jobOwners, job) == Some(call.actor)
    && b.jobs[job].session == call.session && b.jobs[job].requested == call.request.interval
    && match b.jobs[job].status
       case Completed(card, _) =>
         && card in b.cards && b.cards[card].owner == call.actor && IsDelivered(u, call, Ok(b.cards[card].card))
       case Failed(reason) => IsDelivered(u, call, Err(reason))
       case _ => false
  }

  lemma GroundedCites(card: Card, w: Window)
    ensures Grounded(card, w) <==> CitesWindow(card, w)
  {
    if Grounded(card, w) {
      forall r | r in card.references ensures exists c :: c in w.chunks && r == Reference(Some(c.id), c.start, c.end) {
        var i :| 0 <= i < |card.references| && card.references[i] == r;
        assert IsSource(card.references[i], w);
      }
    }
    if CitesWindow(card, w) {
      forall i | 0 <= i < |card.references| ensures IsSource(card.references[i], w) {
        assert card.references[i] in card.references;
      }
    }
  }

  lemma UncachedIsDelivered(u: Setup, call: Call)
    requires UniqueIds(call.chunks)
    ensures forall result ::
        IsDelivered(u, call, result) <==> result == Uncached(u.generator, WindowOf(call, u.padding))
  {
    hide WindowOf, IsWindow, HasNoWindow, Grounded, CitesWindow, UniqueIds;
    WindowExactly(call, u.padding);
    forall w, card: Card ensures Grounded(card, w) <==> CitesWindow(card, w) { GroundedCites(card, w); }
    if WindowOf(call, u.padding).Some? { assert IsWindow(call, u.padding, WindowOf(call, u.padding).value); }
  }

  lemma FulfilsDelivers(u: Setup, b: Books, call: Call, job: nat)
    requires UniqueIds(call.chunks) && Fulfils(u, b, call, job)
    ensures DeliversWindow(u, b, call, job)
  {
    hide WindowOf, IsDelivered, Uncached, UniqueIds;
    UncachedIsDelivered(u, call);
  }
}
