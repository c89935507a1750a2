/** Bounded drop-oldest fan-out of session events to subscriber queues. */
module Publisher {
  import opened Common

  datatype Envelope = Envelope(session: string, kind: string, sequence: nat)

  const PRIVATE_PREFIXES: seq<string> := ["recovery_", "signal.", "signal_"]

  predicate StartsWith(s: string, prefix: string) { prefix <= s }

  predicate IsPrivate(e: Envelope) {
    exists k :: 0 <= k < |PRIVATE_PREFIXES| && StartsWith(e.kind, PRIVATE_PREFIXES[k])
  }

  /** `audience_user_id or ACTIVE_ACTOR.get()`: an empty name falls through. */
  function Audience(named: Option<string>, active: Option<string>): Option<string> {
    if named.Some? && named.value != "" then named else active
  }

  /** A private envelope is for the subscriber of its audience only. */
  predicate Eligible(e: Envelope, audience: Option<string>, subscriber: Option<string>) {
    IsPrivate(e) ==> audience.Some? && subscriber == audience
  }

  /** The most recent `n` envelopes. */
  function Recent(s: seq<Envelope>, n: nat): seq<Envelope> {
    if |s| > n then s[|s| - n..] else s
  }

  predicate Rising(s: seq<Envelope>) {
    forall i, j :: 0 <= i < j < |s| ==> s[i].sequence < s[j].sequence
  }

  /** One publication: an envelope and whom it is for. */
  datatype Delivery = Delivery(envelope: Envelope, audience: Option<string>)

  /** The envelopes a subscriber is eligible for, of everything published to its session. */
  function EligibleOf(published: seq<Delivery>, subscriber: Option<string>): seq<Envelope> {
    if published == [] then []
    else
      var last := published[|published| - 1];
      EligibleOf(published[..|published| - 1], subscriber)
      + if Eligible(last.envelope, last.audience, subscriber) then [last.envelope] else []
  }

  function Envelopes(published: seq<Delivery>): seq<Envelope> {
    if published == [] then [] else Envelopes(published[..|published| - 1]) + [published[|published| - 1].envelope]
  }

  /** Delivering to the queue what was eligible keeps envelope order. */
  lemma {:induction false} EligibleRises(published: seq<Delivery>, subscriber: Option<string>)
    requires Rising(Envelopes(published))
    ensures Rising(EligibleOf(published, subscriber))
    ensures forall e :: e in EligibleOf(published, subscriber) ==> e in Envelopes(published)
  {
    if published != [] {
      var n := |published| - 1;
      var before, all := Envelopes(published[..n]), Envelopes(published);
      assert all == before + [published[n].envelope];
      forall i, j | 0 <= i < j < |before|
        ensures before[i].sequence < before[j].sequence
      {
        assert all[i] == before[i] && all[j] == before[j];
      }
      EligibleRises(published[..n], subscriber);
      forall e | e in EligibleOf(published[..n], subscriber) ensures e.sequence < published[n].envelope.sequence {
        var k :| 0 <= k < |before| && before[k] == e;
        assert all[k].sequence < all[|before|].sequence;
      }
    }
  }

  /** One more eligible envelope: a full queue loses its oldest. */
  function Enqueued(queue: seq<Envelope>, e: Envelope, depth: nat): seq<Envelope> {
    if |queue| < depth || queue == [] then queue + [e] else queue[1..] + [e]
  }

  lemma EnqueuedIsRecent(all: seq<Envelope>, queue: seq<Envelope>, e: Envelope, depth: nat)
    requires queue == Recent(all, |queue|) && |queue| <= depth && depth > 0
    ensures var next := Enqueued(queue, e, depth); next == Recent(all + [e], |next|) && |next| <= depth
  {
  }

  lemma {:induction false} PrivateIsOwn(published: seq<Delivery>, subscriber: Option<string>, e: Envelope)
    requires e in EligibleOf(published, subscriber) && IsPrivate(e)
    ensures exists k ::
        0 <= k < |published| && published[k].envelope == e && published[k].audience.Some?
            && subscriber == published[k].audience
  {
    var n := |published| - 1;
    if e in EligibleOf(published[..n], subscriber) {
      PrivateIsOwn(published[..n], subscriber, e);
      var k :| 0 <= k < n && published[..n][k].envelope == e && published[..n][k].audience.Some?
          && subscriber == published[..n][k].audience;
      assert published[k] == published[..n][k];
    } else {
      assert published[n].envelope == e;
    }
  }

  /** Anything that is not private is for everybody; a recovery or signal event only for
      the actor it was published for. */
  predicate IsFor(d: Delivery, subscriber: Option<string>) {
    var kind := d.envelope.kind;
    if "recovery_" <= kind || "signal." <= kind || "signal_" <= kind then d.audience.Some? && subscriber == d.audience
    else true
  }

  lemma EligibleIsFor(d: Delivery, subscriber: Option<string>)
    ensures Eligible(d.envelope, d.audience, subscriber) <==> IsFor(d, subscriber)
  {
    var kind := d.envelope.kind;
    assert PRIVATE_PREFIXES[0] == "recovery_" && PRIVATE_PREFIXES[1] == "signal." && PRIVATE_PREFIXES[2] == "signal_";
    if "recovery_" <= kind { assert StartsWith(kind, PRIVATE_PREFIXES[0]); }
    if "signal." <= kind { assert StartsWith(kind, PRIVATE_PREFIXES[1]); }
    if "signal_" <= kind { assert StartsWith(kind, PRIVATE_PREFIXES[2]); }
    if IsPrivate(d.envelope) {
      var k :| 0 <= k < |PRIVATE_PREFIXES| && StartsWith(kind, PRIVATE_PREFIXES[k]);
      assert k == 0 || k == 1 || k == 2;
    }
  }

  /** A private envelope reaches the actor it names, or the one at work when it names none. */
  lemma AudienceExactly(e: Envelope, named: Option<string>, active: Option<string>, subscriber: Option<string>)
    requires "recovery_" <= e.kind || "signal." <= e.kind || "signal_" <= e.kind
    ensures var reader := if named.Some? && named.value != "" then named else active;
            Eligible(e, Audience(named, active), subscriber) <==> reader.Some? && subscriber == reader
  {
    EligibleIsFor(Delivery(e, Audience(named, active)), subscriber);
  }

  /** What a subscriber is eligible for is exactly what is for them, in publication order. */
  lemma {:induction false} EligibleExactly(published: seq<Delivery>, subscriber: Option<string>) returns (at: seq<nat>)
    ensures Rise(at) && forall i: nat :: i in at <==> i < |published| && IsFor(published[i], subscriber)
    ensures var seen := EligibleOf(published, subscriber);
            |seen| == |at| && forall k :: 0 <= k < |at| ==> at[k] < |published| && seen[k] == published[at[k]].envelope
  {
    hide Eligible, IsFor;
    if published == [] {
      at := [];
    } else {
      var n := |published| - 1;
      var before := EligibleExactly(published[..n], subscriber);
      EligibleIsFor(published[n], subscriber);
      at := before + if IsFor(published[n], subscriber) then [n] else [];
      forall k | 0 <= k < |before| ensures before[k] < n { assert before[k] in before; }
    }
  }

  predicate Distinct(s: seq<nat>) { forall i, j :: 0 <= i < j < |s| ==> s[i] != s[j] }

  /** `list.remove(q)`. */
  function Remove(s: seq<nat>, q: nat): seq<nat> {
    if s == [] then [] else if s[0] == q then s[1..] else [s[0]] + Remove(s[1..], q)
  }

  lemma {:induction false} RemoveGone(s: seq<nat>, q: nat)
    requires Distinct(s)
    ensures Distinct(Remove(s, q)) && forall x :: x in Remove(s, q) <==> x in s && x != q
  {
    if s != [] {
      var rest := s[1..];
      assert s == [s[0]] + rest;
      forall x | x in rest ensures x != s[0] {
        var k :| 0 <= k < |rest| && rest[k] == x;
        assert s[0] != s[k + 1];
      }
      RemoveGone(rest, q);
      forall j | 0 <= j < |Remove(rest, q)| ensures Remove(rest, q)[j] != s[0] { assert Remove(rest, q)[j] in rest; }
    }
  }

  lemma DistinctAppend(s: seq<nat>, q: nat)
    requires Distinct(s) && q !in s
    ensures Distinct(s + [q])
  {
  }

  lemma DistinctAt(s: seq<nat>, k: nat)
    requires Distinct(s) && k < |s|
    ensures s[k] !in s[..k] && forall x :: x in s[..k + 1] <==> x in s[..k] || x == s[k]
  {
    assert s[..k + 1] == s[..k] + [s[k]];
  }

  lemma EligibleGrows(published: seq<Delivery>, d: Delivery, subscriber: Option<string>)
    ensures EligibleOf(published + [d], subscriber)
            == EligibleOf(published, subscriber)
               + if Eligible(d.envelope, d.audience, subscriber) then [d.envelope] else []
  {
    assert (published + [d])[..|published|] == published;
  }

  /** A subscribed queue holds exactly the most recent of the envelopes it has been
      eligible for since subscribing, and never more than the depth. */
  ghost predicate QueueSound(depth: nat, queue: Option<seq<Envelope>>, audience: Option<Option<string>>,
                             published: Option<seq<Delivery>>) {
    && queue.Some? && audience.Some? && published.Some? && |queue.value| <= depth
    && queue.value == Recent(EligibleOf(published.value, audience.value), |queue.value|)
  }

  lemma QueueStarts(depth: nat, audience: Option<string>)
    ensures QueueSound(depth, Some([]), Some(audience), Some([]))
  {
  }

  lemma QueueDrains(depth: nat, queue: seq<Envelope>, audience: Option<Option<string>>,
                    published: Option<seq<Delivery>>)
    requires QueueSound(depth, Some(queue), audience, published) && queue != []
    ensures QueueSound(depth, Some(queue[1..]), audience, published)
  {
  }

  /** What `publish` does to one subscribed queue. */
  function Delivered(depth: nat, queue: seq<Envelope>, audience: Option<string>, d: Delivery): seq<Envelope> {
    if Eligible(d.envelope, d.audience, audience) then Enqueued(queue, d.envelope, depth) else queue
  }

  lemma QueueDelivers(depth: nat, queue: seq<Envelope>, audience: Option<string>, published: seq<Delivery>, d: Delivery)
    requires QueueSound(depth, Some(queue), Some(audience), Some(published)) && depth > 0
    ensures QueueSound(depth, Some(Delivered(depth, queue, audience, d)), Some(audience), Some(published + [d]))
  {
    EligibleGrows(published, d, audience);
    EnqueuedIsRecent(EligibleOf(published, audience), queue, d.envelope, depth);
    assert EligibleOf(published, audience) + [] == EligibleOf(published, audience);
  }

  /** A queue only loses an envelope when it is full. */
  lemma DeliveredLength(depth: nat, queue: seq<Envelope>, audience: Option<string>, published: seq<Delivery>,
                        d: Delivery)
    requires QueueSound(depth, Some(queue), Some(audience), Some(published)) && depth > 0
    ensures |Delivered(depth, queue, audience, d)|
            == if Eligible(d.envelope, d.audience, audience) then Min(depth, |queue| + 1) else |queue|
  {
  }

  // ---------------------------------------------------------- the hub as a value

  /** Queues are numbered in the order they subscribe. */
  datatype Hub = Hub(subscribers: map<string, seq<nat>>, queues: map<nat, seq<Envelope>>,
                     audiences: map<nat, Option<string>>,
                     numbers: map<string, nat>, next: nat)

  const NO_SUBSCRIBERS := Hub(map[], map[], map[], map[], 0)

  function Subscribed(h: Hub, session: string): seq<nat> {
    if session in h.subscribers then h.subscribers[session] else []
  }

  function AudienceOf(h: Hub, q: nat): Option<string> { if q in h.audiences then h.audiences[q] else None }

  function NextNumber(h: Hub, session: string): nat { if session in h.numbers then h.numbers[session] else 0 }

  function Joined(h: Hub, session: string, actor: Option<string>): Hub {
    h.(subscribers := h.subscribers[session := Subscribed(h, session) + [h.next]], queues := h.queues[h.next := []],
       audiences := h.audiences[h.next := actor], next := h.next + 1)
  }

  function Left(h: Hub, session: string, q: nat): Hub {
    if q !in Subscribed(h, session) then h
    else h.(subscribers := h.subscribers[session := Remove(Subscribed(h, session), q)], audiences := h.audiences - {q})
  }

  function Built(h: Hub, session: string, kind: string): (Hub, Envelope) {
    (h.(numbers := h.numbers[session := NextNumber(h, session) + 1]), Envelope(session, kind, NextNumber(h, session)))
  }

  /** Every subscriber of the session is offered the envelope; no other queue is. */
  function Published(depth: nat, h: Hub, d: Delivery): Hub {
    h.(queues := map q | q in h.queues ::
         if q in Subscribed(h, d.envelope.session) then Delivered(depth, h.queues[q], AudienceOf(h, q), d)
         else h.queues[q])
  }

  /** The connection takes the oldest envelope, if there is one. */
  function Taken(h: Hub, q: nat): (Hub, Option<Envelope>) {
    if q in h.queues && h.queues[q] != [] then (h.(queues := h.queues[q := h.queues[q][1..]]), Some(h.queues[q][0]))
    else (h, None)
  }

  /** `Emit` builds an envelope and publishes it, as the services do in one expression. */
  datatype Operation =
    | Join(session: string, actor: Option<string>)
    | Leave(session: string, queue: nat)
    | Build(session: string, kind: string)
    | Publish(delivery: Delivery)
    | Emit(session: string, kind: string, audience: Option<string>)
    | Take(queue: nat)

  datatype Reply = Subscription(queue: nat) | Done | Message(envelope: Option<Envelope>)

  function Perform(depth: nat, h: Hub, op: Operation): (Hub, Reply) {
    match op
    case Join(session, actor) => (Joined(h, session, actor), Subscription(h.next))
    case Leave(session, q) => (Left(h, session, q), Done)
    case Build(session, kind) => var (after, e) := Built(h, session, kind); (after, Message(Some(e)))
    case Publish(d) => (Published(depth, h, d), Done)
    case Emit(session, kind, audience) =>
      var (after, e) := Built(h, session, kind);
      (Published(depth, after, Delivery(e, audience)), Message(Some(e)))
    case Take(q) => var (after, e) := Taken(h, q); (after, Message(e))
  }

  /** The hub after a run of operations on a fresh one. */
  function After(depth: nat, ops: seq<Operation>): Hub {
    if ops == [] then NO_SUBSCRIBERS else Perform(depth, After(depth, ops[..|ops| - 1]), ops[|ops| - 1]).0
  }

  function Replies(depth: nat, ops: seq<Operation>): (replies: seq<Reply>)
    ensures |replies| == |ops|
  {
    if ops == [] then []
    else Replies(depth, ops[..|ops| - 1]) + [Perform(depth, After(depth, ops[..|ops| - 1]), ops[|ops| - 1]).1]
  }

  // ------------------------------------------------ what the operations alone say

  /** How many envelopes of a session the operations build: the next one's number. */
  function BuiltSoFar(ops: seq<Operation>, session: string): nat {
    if ops == [] then 0
    else
      var op := ops[|ops| - 1];
      BuiltSoFar(ops[..|ops| - 1], session) + if (op.Build? || op.Emit?) && op.session == session then 1 else 0
  }

  function Joins(ops: seq<Operation>): nat {
    if ops == [] then 0 else Joins(ops[..|ops| - 1]) + if ops[|ops| - 1].Join? then 1 else 0
  }

  datatype Subscriber = Subscriber(session: string, actor: Option<string>)

  /** Who subscribed as queue `q`. */
  function JoinedAs(ops: seq<Operation>, q: nat): Option<Subscriber> {
    if ops == [] then None
    else
      var before, op := ops[..|ops| - 1], ops[|ops| - 1];
      if op.Join? && Joins(before) == q then Some(Subscriber(op.session, op.actor)) else JoinedAs(before, q)
  }

  /** The publication an operation makes, given the operations before it. */
  function Publication(before: seq<Operation>, op: Operation): Option<Delivery> {
    match op
    case Publish(d) => Some(d)
    case Emit(session, kind, audience) => Some(Delivery(Envelope(session, kind, BuiltSoFar(before, session)), audience))
    case _ => None
  }

  /** Everything published to a queue's session since the queue subscribed. */
  function Offered(ops: seq<Operation>, q: nat): seq<Delivery> {
    if ops == [] then []
    else
      var before := ops[..|ops| - 1];
      var d, who := Publication(before, ops[|ops| - 1]), JoinedAs(before, q);
      Offered(before, q) + if d.Some? && who.Some? && d.value.envelope.session == who.value.session then [d.value]
          else []
  }

  /** How many envelopes queue `q` holds: one more for each it is eligible for, up to
      the depth, and one fewer each time its connection takes one. */
  function Held(depth: nat, ops: seq<Operation>, q: nat): nat {
    if ops == [] then 0
    else
      var before, op := ops[..|ops| - 1], ops[|ops| - 1];
      HeldNext(depth, Held(depth, before, q), Publication(before, op), JoinedAs(before, q), op, q)
  }

  function HeldNext(depth: nat, n: nat, d: Option<Delivery>, who: Option<Subscriber>, op: Operation, q: nat): nat {
    if d.Some? && who.Some? && d.value.envelope.session == who.value.session
       && Eligible(d.value.envelope, d.value.audience, who.value.actor)
    then Min(depth, n + 1)
    else if op.Take? && op.queue == q && n > 0 then n - 1
    else n
  }

  // ------------------------------------------------------------------ soundness

  /** A subscribed queue is known and subscribed to one session, once. */
  predicate HubSound(h: Hub) {
    forall session :: session in h.subscribers ==> ListSound(h.next, h.queues, h.audiences, h.subscribers[session])
  }

  predicate ListSound(next: nat, queues: map<nat, seq<Envelope>>, audiences: map<nat, Option<string>>, list: seq<nat>) {
    Distinct(list) && forall q :: q in list ==> q < next && q in queues && q in audiences
  }

  /** The hub follows its history: queue `q` of a session belongs to whoever subscribed
      as it, and holds the most recent of what it was eligible for since, as many as it
      was offered up to the depth and has not handed out. */
  ghost predicate QueueFollows(depth: nat, h: Hub, ops: seq<Operation>, session: string, q: nat) {
    && q < h.next && Get(h.audiences, q).Some? && JoinedAs(ops, q) == Some(Subscriber(session, AudienceOf(h, q)))
    && QueueSound(depth, Get(h.queues, q), Get(h.audiences, q), Some(Offered(ops, q)))
    && Length(Get(h.queues, q)) == Held(depth, ops, q)
  }

  function Length(queue: Option<seq<Envelope>>): nat { if queue.Some? then |queue.value| else 0 }

  ghost predicate HubFollows(depth: nat, h: Hub, ops: seq<Operation>) {
    && h.next == Joins(ops) && (forall session :: NextNumber(h, session) == BuiltSoFar(ops, session))
    && (forall session :: Distinct(Subscribed(h, session)))
    && (forall session, q :: q in Subscribed(h, session) ==> QueueFollows(depth, h, ops, session, q))
  }

  lemma {:induction false} NotJoinedYet(ops: seq<Operation>, q: nat)
    requires q >= Joins(ops)
    ensures JoinedAs(ops, q) == None && Offered(ops, q) == [] && forall depth :: Held(depth, ops, q) == 0
  {
    if ops != [] { NotJoinedYet(ops[..|ops| - 1], q); }
  }

  /** What one operation adds to the history of a queue. */
  lemma HistoryNext(ops: seq<Operation>, op: Operation, q: nat)
    ensures JoinedAs(ops + [op], q)
            == if op.Join? && Joins(ops) == q then Some(Subscriber(op.session, op.actor))
               else JoinedAs(ops, q)
    ensures Joins(ops + [op]) == Joins(ops) + if op.Join? then 1 else 0
    ensures forall session ::
        BuiltSoFar(ops + [op], session)
        == BuiltSoFar(ops, session) + if (op.Build? || op.Emit?) && op.session == session then 1 else 0
    ensures Offered(ops + [op], q) == Offered(ops, q)
              + var d, who := Publication(ops, op), JoinedAs(ops, q);
                if d.Some? && who.Some? && d.value.envelope.session == who.value.session then [d.value] else []
    ensures forall depth ::
        Held(depth, ops + [op], q)
        == HeldNext(depth, Held(depth, ops, q), Publication(ops, op), JoinedAs(ops, q), op, q)
  {
    assert (ops + [op])[..|ops|] == ops;
  }

  lemma JoinFollows(depth: nat, h: Hub, ops: seq<Operation>, op: Operation, session: string, q: nat)
    requires HubFollows(depth, h, ops) && op.Join? && q in Subscribed(Joined(h, op.session, op.actor), session)
    ensures QueueFollows(depth, Joined(h, op.session, op.actor), ops + [op], session, q)
  {
    hide QueueSound, JoinedAs, Joins, Offered, Held, BuiltSoFar, Distinct;
    HistoryNext(ops, op, q);
    assert Offered(ops, q) + [] == Offered(ops, q);
    if q == h.next {
      NotJoinedYet(ops, q);
      QueueStarts(depth, op.actor);
      assert session != op.session ==> QueueFollows(depth, h, ops, session, q);
    } else {
      assert QueueFollows(depth, h, ops, session, q);
    }
  }

  lemma LeaveFollows(depth: nat, h: Hub, ops: seq<Operation>, op: Operation, session: string, q: nat)
    requires HubFollows(depth, h, ops) && op.Leave? && q in Subscribed(Left(h, op.session, op.queue), session)
    ensures QueueFollows(depth, Left(h, op.session, op.queue), ops + [op], session, q)
  {
    hide QueueSound, JoinedAs, Joins, Offered, Held, BuiltSoFar, Remove;
    HistoryNext(ops, op, q);
    assert Offered(ops, q) + [] == Offered(ops, q);
    RemoveGone(Subscribed(h, op.session), op.queue);
    assert QueueFollows(depth, h, ops, session, q);
    if op.queue in Subscribed(h, op.session) { assert QueueFollows(depth, h, ops, op.session, op.queue); }
  }

  lemma TakeFollows(depth: nat, h: Hub, ops: seq<Operation>, op: Operation, session: string, q: nat)
    requires HubFollows(depth, h, ops) && op.Take? && q in Subscribed(h, session)
    ensures QueueFollows(depth, Taken(h, op.queue).0, ops + [op], session, q)
  {
    hide QueueSound, JoinedAs, Joins, Offered, Held, BuiltSoFar, Distinct;
    HistoryNext(ops, op, q);
    assert Offered(ops, q) + [] == Offered(ops, q);
    assert QueueFollows(depth, h, ops, session, q);
    if q == op.queue && q in h.queues && h.queues[q] != [] {
      QueueDrains(depth, h.queues[q], Get(h.audiences, q), Some(Offered(ops, q)));
    }
  }

  /** One publication, after the numbers may have moved. */
  lemma PublishFollows(depth: nat, h: Hub, numbers: map<string, nat>, ops: seq<Operation>, op: Operation, d: Delivery,
                       session: string, q: nat)
    requires depth > 0 && HubFollows(depth, h, ops) && Publication(ops, op) == Some(d) && q in Subscribed(h, session)
    ensures QueueFollows(depth, Published(depth, h.(numbers := numbers), d), ops + [op], session, q)
  {
    hide QueueSound, JoinedAs, Joins, Offered, Held, BuiltSoFar, Distinct, Delivered;
    HistoryNext(ops, op, q);
    assert Offered(ops, q) + [] == Offered(ops, q);
    assert QueueFollows(depth, h, ops, session, q);
    SoundIsKnown(depth, Get(h.queues, q), Get(h.audiences, q), Some(Offered(ops, q)));
    if q in Subscribed(h, d.envelope.session) {
      assert QueueFollows(depth, h, ops, d.envelope.session, q);
      QueueDelivers(depth, h.queues[q], AudienceOf(h, q), Offered(ops, q), d);
      DeliveredLength(depth, h.queues[q], AudienceOf(h, q), Offered(ops, q), d);
    }
  }

  lemma BuildFollows(depth: nat, h: Hub, ops: seq<Operation>, op: Operation, session: string, q: nat)
    requires HubFollows(depth, h, ops) && op.Build? && q in Subscribed(h, session)
    ensures QueueFollows(depth, Built(h, op.session, op.kind).0, ops + [op], session, q)
  {
    hide QueueSound, JoinedAs, Joins, Offered, Held, BuiltSoFar, Distinct;
    HistoryNext(ops, op, q);
    assert Offered(ops, q) + [] == Offered(ops, q);
    assert QueueFollows(depth, h, ops, session, q);
  }

  lemma SoundIsKnown(depth: nat, queue: Option<seq<Envelope>>, audience: Option<Option<string>>,
                     published: Option<seq<Delivery>>)
    requires QueueSound(depth, queue, audience, published)
    ensures queue.Some? && audience.Some? && published.Some?
  {
  }

  /** The numbers, the queue count and the subscriber lists. */
  lemma ShapeFollows(depth: nat, h: Hub, ops: seq<Operation>, op: Operation)
    requires HubFollows(depth, h, ops)
    ensures var after := Perform(depth, h, op).0;
            && after.next == Joins(ops + [op])
            && (forall session :: NextNumber(after, session) == BuiltSoFar(ops + [op], session))
            && (forall session :: Distinct(Subscribed(after, session)))
            && (forall session, q :: q in Subscribed(after, session) ==>
                q in Subscribed(h, session) || (op.Join? && op.session == session))
  {
    hide QueueSound, JoinedAs, Joins, Offered, Held, BuiltSoFar, Distinct, Remove, Delivered;
    HistoryNext(ops, op, 0);
    var after := Perform(depth, h, op).0;
    forall session ensures Distinct(Subscribed(after, session)) {
      assert Distinct(Subscribed(h, session));
      if op.Join? {
        forall x | x in Subscribed(h, session) ensures x < h.next { assert QueueFollows(depth, h, ops, session, x); }
        DistinctAppend(Subscribed(h, session), h.next);
      }
      if op.Leave? { RemoveGone(Subscribed(h, session), op.queue); }
    }
    if op.Leave? { RemoveGone(Subscribed(h, op.session), op.queue); }
  }

  lemma StepFollows(depth: nat, h: Hub, ops: seq<Operation>, op: Operation)
    requires depth > 0 && HubFollows(depth, h, ops)
    ensures HubFollows(depth, Perform(depth, h, op).0, ops + [op])
  {
    hide QueueFollows, Distinct, Joined, Left, Taken, JoinedAs, Joins, Offered, BuiltSoFar, Published;
    var after := Perform(depth, h, op).0;
    ShapeFollows(depth, h, ops, op);
    forall session, q | q in Subscribed(after, session) ensures QueueFollows(depth, after, ops + [op], session, q) {
      match op
      case Join(_, _) => JoinFollows(depth, h, ops, op, session, q);
      case Leave(_, _) => LeaveFollows(depth, h, ops, op, session, q);
      case Build(_, _) => BuildFollows(depth, h, ops, op, session, q);
      case Publish(d) => PublishFollows(depth, h, h.numbers, ops, op, d, session, q);
      case Emit(s, kind, audience) =>
        PublishFollows(depth, h, Built(h, s, kind).0.numbers, ops, op, Delivery(Built(h, s, kind).1, audience),
                       session, q);
      case Take(_) => TakeFollows(depth, h, ops, op, session, q);
    }
  }

  lemma {:induction false} RunFollows(depth: nat, ops: seq<Operation>)
    requires depth > 0
    ensures HubFollows(depth, After(depth, ops), ops)
  {
    hide HubFollows, Perform;
    if ops == [] {
      NothingFollows(depth);
    } else {
      RunFollows(depth, ops[..|ops| - 1]);
      StepFollows(depth, After(depth, ops[..|ops| - 1]), ops[..|ops| - 1], ops[|ops| - 1]);
      assert ops == ops[..|ops| - 1] + [ops[|ops| - 1]];
    }
  }

  lemma NothingFollows(depth: nat)
    ensures HubFollows(depth, NO_SUBSCRIBERS, [])
  {
  }

  lemma FollowsIsSound(depth: nat, h: Hub, ops: seq<Operation>)
    requires HubFollows(depth, h, ops)
    ensures HubSound(h)
  {
    hide Distinct, JoinedAs, Joins, Offered, BuiltSoFar;
    forall session | session in h.subscribers ensures ListSound(h.next, h.queues, h.audiences, h.subscribers[session]) {
      assert Distinct(Subscribed(h, session));
      forall q | q in Subscribed(h, session) ensures q < h.next && q in h.queues && q in h.audiences {
        assert QueueFollows(depth, h, ops, session, q);
        SoundIsKnown(depth, Get(h.queues, q), Get(h.audiences, q), Some(Offered(ops, q)));
      }
    }
  }

  // ------------------------------------------------------------------ whole runs

  /** In every serial run: a subscribed queue belongs to whoever subscribed as it, holds
      exactly the most recent of the envelopes it was eligible for since, as many as the
      operations say, so that nothing is dropped unless the queue is full, and no
      private envelope that was published for anybody else. */
  lemma SubscriberSees(depth: nat, ops: seq<Operation>, session: string, q: nat)
    requires depth > 0 && q in Subscribed(After(depth, ops), session)
    ensures var h := After(depth, ops);
            && q in h.queues && |h.queues[q]| == Held(depth, ops, q) <= depth
            && JoinedAs(ops, q) == Some(Subscriber(session, AudienceOf(h, q)))
            && h.queues[q] == Recent(EligibleOf(Offered(ops, q), AudienceOf(h, q)), |h.queues[q]|)
            && forall e :: e in h.queues[q] && IsPrivate(e) ==>
                 exists k :: 0 <= k < |Offered(ops, q)| && Offered(ops, q)[k].envelope == e
                             && Offered(ops, q)[k].audience.Some? && AudienceOf(h, q) == Offered(ops, q)[k].audience
  {
    hide After, Offered, Held, JoinedAs, IsPrivate, EligibleOf, BuiltSoFar, Joins, Distinct;
    RunFollows(depth, ops);
    var h, offered := After(depth, ops), Offered(ops, q);
    assert QueueFollows(depth, h, ops, session, q);
    forall e | e in h.queues[q] && IsPrivate(e)
      ensures exists k ::
          0 <= k < |offered| && offered[k].envelope == e && offered[k].audience.Some?
              && AudienceOf(h, q) == offered[k].audience
    {
      assert e in EligibleOf(offered, AudienceOf(h, q));
      PrivateIsOwn(offered, AudienceOf(h, q), e);
    }
  }

  /** Envelopes are published in build order: each as soon as it is built. */
  predicate InBuildOrder(ops: seq<Operation>) { forall i :: 0 <= i < |ops| ==> !ops[i].Publish? }

  lemma EnvelopesAppend(published: seq<Delivery>, d: Delivery)
    ensures Envelopes(published + [d]) == Envelopes(published) + [d.envelope]
  {
    assert (published + [d])[..|published|] == published;
  }

  /** What a queue was offered is numbered in order, below its session's next number. */
  ghost predicate Numbered(ops: seq<Operation>, q: nat) {
    var offered := Envelopes(Offered(ops, q));
    && Rising(offered)
    && forall e :: e in offered ==>
        JoinedAs(ops, q).Some? && e.session == JoinedAs(ops, q).value.session && e.sequence < BuiltSoFar(ops, e.session)
  }

  lemma OfferedNext(ops: seq<Operation>, op: Operation, q: nat)
    requires !op.Publish? && Numbered(ops, q)
    ensures Numbered(ops + [op], q)
  {
    hide Offered, JoinedAs, BuiltSoFar, Joins, Envelopes, Rising;
    HistoryNext(ops, op, q);
    JoinedStays(ops, op, q);
    if JoinedAs(ops, q).None? { NotOffered(ops, q); }
    var offered, d, who := Envelopes(Offered(ops, q)), Publication(ops, op), JoinedAs(ops, q);
    assert Offered(ops, q) + [] == Offered(ops, q);
    NoEnvelopes();
    if d.Some? && who.Some? && d.value.envelope.session == who.value.session {
      EnvelopesAppend(Offered(ops, q), d.value);
      RisingAppend(offered, d.value.envelope);
    }
  }

  lemma NoEnvelopes()
    ensures Envelopes([]) == [] && Rising([])
  {
  }

  lemma {:induction false} OffersAreNumbered(ops: seq<Operation>, q: nat)
    requires InBuildOrder(ops)
    ensures Numbered(ops, q)
  {
    hide Numbered;
    if ops == [] {
      NothingOffered(q);
    } else {
      OffersAreNumbered(ops[..|ops| - 1], q);
      OfferedNext(ops[..|ops| - 1], ops[|ops| - 1], q);
      assert ops == ops[..|ops| - 1] + [ops[|ops| - 1]];
    }
  }

  lemma NothingOffered(q: nat)
    ensures Numbered([], q)
  {
  }

  lemma RisingAppend(s: seq<Envelope>, e: Envelope)
    requires Rising(s) && forall x :: x in s ==> x.sequence < e.sequence
    ensures Rising(s + [e])
  {
    forall i, j | 0 <= i < j < |s + [e]| ensures (s + [e])[i].sequence < (s + [e])[j].sequence {
      if j == |s| { assert s[i] in s; }
    }
  }

  lemma {:induction false} NotOffered(ops: seq<Operation>, q: nat)
    requires JoinedAs(ops, q).None?
    ensures Offered(ops, q) == []
  {
    if ops != [] { NotOffered(ops[..|ops| - 1], q); }
  }

  lemma {:induction false} JoinedMeans(ops: seq<Operation>, q: nat)
    ensures JoinedAs(ops, q).Some? <==> q < Joins(ops)
  {
    if ops != [] { JoinedMeans(ops[..|ops| - 1], q); }
  }

  lemma JoinedStays(ops: seq<Operation>, op: Operation, q: nat)
    ensures JoinedAs(ops, q).Some? ==> JoinedAs(ops + [op], q) == JoinedAs(ops, q)
  {
    JoinedMeans(ops, q);
    HistoryNext(ops, op, q);
  }

  /** When envelopes are published in build order, every subscriber's queue holds
      strictly increasing sequence numbers of its own session. */
  lemma QueuesRise(depth: nat, ops: seq<Operation>, session: string, q: nat)
    requires depth > 0 && InBuildOrder(ops) && q in Subscribed(After(depth, ops), session)
    ensures q in After(depth, ops).queues && Rising(After(depth, ops).queues[q])
    ensures forall e :: e in After(depth, ops).queues[q] ==>
        e.session == session && e.sequence < BuiltSoFar(ops, session)
  {
    hide After, Offered, JoinedAs, IsPrivate, EligibleOf, BuiltSoFar, Envelopes;
    SubscriberSees(depth, ops, session, q);
    OffersAreNumbered(ops, q);
    var h := After(depth, ops);
    var all := EligibleOf(Offered(ops, q), AudienceOf(h, q));
    EligibleRises(Offered(ops, q), AudienceOf(h, q));
    var skip := |all| - |h.queues[q]|;
    forall i, j | 0 <= i < j < |h.queues[q]| ensures h.queues[q][i].sequence < h.queues[q][j].sequence {
      assert all[skip + i].sequence < all[skip + j].sequence;
    }
    forall e | e in h.queues[q]
      ensures e.session == session && e.sequence < BuiltSoFar(ops, session)
    {
      assert e in all;
    }
  }

  // ------------------------------------------------------------------ the publisher

  class WebSocketEventPublisher {
    const depth: nat
    var subscribers: map<string, seq<nat>>
    var queues: map<nat, seq<Envelope>>
    var audiences: map<nat, Option<string>>
    var sequenceNumbers: map<string, nat>
    var nextQueue: nat

    function State(): Hub
      reads this
    {
      Hub(subscribers, queues, audiences, sequenceNumbers, nextQueue)
    }

    constructor (depth: nat)
      ensures this.depth == depth && State() == NO_SUBSCRIBERS
    {
      this.depth := depth;
      subscribers, queues, audiences, sequenceNumbers, nextQueue := map[], map[], map[], map[], 0;
    }

    method Subscribe(session: string, actor: Option<string>) returns (q: nat)
      modifies this
      ensures State() == Joined(old(State()), session, actor) && q == old(nextQueue)
    {
      q := nextQueue;
      nextQueue := nextQueue + 1;
      queues := queues[q := []];
      subscribers := subscribers[session := Subscribed(State(), session) + [q]];
      audiences := audiences[q := actor];
    }

    method Unsubscribe(session: string, q: nat)
      modifies this`subscribers, this`audiences
      ensures State() == Left(old(State()), session, q)
    {
      var list := Subscribed(State(), session);
      if q in list {
        subscribers := subscribers[session := Remove(list, q)];
        audiences := audiences - {q};
      }
    }

    /** Sequence numbers of a session are handed out in increasing order. */
    method BuildEnvelope(session: string, kind: string) returns (e: Envelope)
      modifies this`sequenceNumbers
      ensures (State(), e) == Built(old(State()), session, kind)
    {
      var sequence := NextNumber(State(), session);
      sequenceNumbers := sequenceNumbers[session := sequence + 1];
      e := Envelope(session, kind, sequence);
    }

    /** Offer one envelope to each of these queues in turn; a full one drops its oldest. */
    method DeliverTo(targets: seq<nat>, d: Delivery)
      requires depth > 0 && Distinct(targets) && forall q :: q in targets ==> q in queues
      modifies this`queues
      ensures queues.Keys == old(queues).Keys
      ensures forall q :: q in queues && q !in targets ==> queues[q] == old(queues)[q]
      ensures forall q :: q in targets ==> queues[q] == Delivered(depth, old(queues)[q], AudienceOf(State(), q), d)
    {
      hide Eligible, Distinct;
      var k := 0;
      while k < |targets|
        invariant k <= |targets| && queues.Keys == old(queues).Keys
        invariant forall q :: q in queues && q !in targets[..k] ==> queues[q] == old(queues)[q]
        invariant forall q :: q in targets[..k] ==>
            queues[q] == Delivered(depth, old(queues)[q], AudienceOf(State(), q), d)
      {
        var q := targets[k];
        DistinctAt(targets, k);
        assert q in queues;
        if Eligible(d.envelope, d.audience, AudienceOf(State(), q)) {
          var queue := queues[q];
          if |queue| >= depth { queue := queue[1..]; }
          queues := queues[q := queue + [d.envelope]];
        }
        k := k + 1;
      }
      assert targets[..k] == targets;
    }

    /** Deliver to every eligible subscriber of the session and to no other queue. */
    method PublishEnvelope(e: Envelope, named: Option<string>, active: Option<string>)
      requires depth > 0 && HubSound(State())
      modifies this`queues
      ensures State() == Published(depth, old(State()), Delivery(e, Audience(named, active)))
    {
      hide Delivered, Audience;
      DeliverTo(Subscribed(State(), e.session), Delivery(e, Audience(named, active)));
    }

    /** The connection takes the oldest envelope. */
    method Drain(q: nat) returns (e: Option<Envelope>)
      modifies this`queues
      ensures (State(), e) == Taken(old(State()), q)
    {
      if q !in queues || queues[q] == [] { return None; }
      e := Some(queues[q][0]);
      queues := queues[q := queues[q][1..]];
    }
  }

  /** Build an envelope and publish it, as the services do in one expression. */
  method EmitEnvelope(p: WebSocketEventPublisher, session: string, kind: string, named: Option<string>,
                      active: Option<string>)
    returns (e: Envelope)
    requires p.depth > 0 && HubSound(p.State())
    modifies p`sequenceNumbers, p`queues
    ensures (p.State(), Message(Some(e)))
        == Perform(p.depth, old(p.State()), Emit(session, kind, Audience(named, active)))
  {
    hide Distinct, Delivered, Published;
    e := p.BuildEnvelope(session, kind);
    p.PublishEnvelope(e, named, active);
  }

  /** Drive a fresh publisher through a run: every reply and the state left are the
      specified ones. */
  method RunPublisher(p: WebSocketEventPublisher, ops: seq<Operation>) returns (replies: seq<Reply>)
    requires p.depth > 0 && p.State() == NO_SUBSCRIBERS
    modifies p
    ensures p.State() == After(p.depth, ops) && replies == Replies(p.depth, ops)
  {
    hide HubSound, HubFollows, Joined, Left, Published;
    replies := [];
    assert ops[..0] == [];
    for i := 0 to |ops|
      invariant p.State() == After(p.depth, ops[..i]) && replies == Replies(p.depth, ops[..i])
    {
      assert ops[..i + 1][..i] == ops[..i];
      RunFollows(p.depth, ops[..i]);
      FollowsIsSound(p.depth, p.State(), ops[..i]);
      match ops[i] {
        case Join(session, actor) =>
          var q := p.Subscribe(session, actor);
          replies := replies + [Subscription(q)];
        case Leave(session, q) =>
          p.Unsubscribe(session, q);
          replies := replies + [Done];
        case Build(session, kind) =>
          var e := p.BuildEnvelope(session, kind);
          replies := replies + [Message(Some(e))];
        case Publish(d) =>
          p.PublishEnvelope(d.envelope, None, d.audience);
          replies := replies + [Done];
        case Emit(session, kind, audience) =>
          var e := EmitEnvelope(p, session, kind, None, audience);
          replies := replies + [Message(Some(e))];
        case Take(q) =>
          var e := p.Drain(q);
          replies := replies + [Message(e)];
      }
    }
    assert ops[..|ops|] == ops;
  }
}
