/** Whom a run's reports are released to, and whose records they count: read off the
    operations of the run alone. */
module MetricsRuns {
  import opened Common
  import Transcript
  import opened Metrics
  import opened ProfessorMetrics

  predicate Ends(op: Operation, session: string) { op.EndSession? && op.isOwner && op.session == session }

  lemma StepEnds(u: Setup, limits: Transcript.Limits, r: Records, op: Operation, session: string)
    ensures session in Next(u, limits, r, op).ended <==> session in r.ended || Ends(op, session)
  {
    hide FaultFrom, NewEntries, NewDeliveries, Disagrees, DeliveriesDisagree, Erase, FirstIndex, CoverageElsewhere,
        DeliveriesElsewhere, Submitted, Transcript.IngestedInto;
  }

  /** A session has ended exactly when its owner ended it. */
  lemma {:induction false} EndedExactly(u: Setup, limits: Transcript.Limits, start: Records, ops: seq<Operation>,
                                        session: string)
    ensures session in After(u, limits, start, ops).ended <==>
        session in start.ended || exists k :: 0 <= k < |ops| && Ends(ops[k], session)
  {
    hide Next, Ends;
    if ops != [] {
      var n := |ops| - 1;
      EndedExactly(u, limits, start, ops[..n], session);
      StepEnds(u, limits, After(u, limits, start, ops[..n]), ops[n], session);
    }
  }

  predicate Registers(op: Operation, session: string, user: string) {
    op.Register? && op.session == session && op.user == user
  }

  predicate IsRegistered(ops: seq<Operation>, session: string, user: string, k: nat) {
    exists j :: 0 <= j < k && j < |ops| && Registers(ops[j], session, user)
  }

  /** What operation `k` makes of the user's participation: joining for the first time opts
      them in, and a student member who has joined may choose. */
  function ChoiceAt(ops: seq<Operation>, session: string, user: string, k: nat): Option<bool>
    requires k < |ops|
  {
    match ops[k]
    case Register(s, joined) =>
      if s == session && joined == user && !IsRegistered(ops, session, user, k) then Some(true) else None
    case SetConsent(actor, isMember, isStudent, s, allowed) =>
      if s == session && actor == user && isMember && isStudent && IsRegistered(ops, session, user, k)
      then Some(allowed) else None
    case _ => None
  }

  /** The user's last choice, if they made one, was this. */
  predicate LastChoiceIs(ops: seq<Operation>, session: string, user: string, choice: bool) {
    exists k :: 0 <= k < |ops| && ChoiceAt(ops, session, user, k) == Some(choice)
                && forall j :: k < j < |ops| ==> ChoiceAt(ops, session, user, j) == None
  }

  /** What one operation does to one user's participation. */
  lemma StepChoice(u: Setup, limits: Transcript.Limits, r: Records, op: Operation, session: string, user: string)
    ensures Get(Registered(Next(u, limits, r, op), session), user) ==
            if Registers(op, session, user) then
              if user in Registered(r, session) then Get(Registered(r, session), user) else Some(true)
            else if op.SetConsent? && op.session == session && op.actor == user && op.isMember && op.isStudent
                    && user in Registered(r, session) then Some(op.allowed)
            else Get(Registered(r, session), user)
  {
    hide FaultFrom, NewEntries, NewDeliveries, Disagrees, DeliveriesDisagree, Erase, FirstIndex, CoverageElsewhere,
        DeliveriesElsewhere, Submitted, Transcript.IngestedInto;
  }

  lemma ChoicePrefix(ops: seq<Operation>, session: string, user: string, n: nat, k: nat)
    requires k < n <= |ops|
    ensures ChoiceAt(ops[..n], session, user, k) == ChoiceAt(ops, session, user, k)
    ensures IsRegistered(ops[..n], session, user, k) <==> IsRegistered(ops, session, user, k)
  {
    if j :| 0 <= j < k && j < |ops| && Registers(ops[j], session, user) {
      assert Registers(ops[..n][j], session, user);
    }
    assert ops[..n][k] == ops[k];
  }

  lemma LastChoiceNext(ops: seq<Operation>, session: string, user: string, choice: bool)
    requires ops != []
    ensures var n := |ops| - 1;
            var now := ChoiceAt(ops, session, user, n);
            LastChoiceIs(ops, session, user, choice) <==>
            if now.Some? then now.value == choice else LastChoiceIs(ops[..n], session, user, choice)
  {
    hide ChoiceAt;
    var n := |ops| - 1;
    forall k | 0 <= k < n ensures ChoiceAt(ops[..n], session, user, k) == ChoiceAt(ops, session, user, k) {
      ChoicePrefix(ops, session, user, n, k);
    }
    var now := ChoiceAt(ops, session, user, n);
    if now.Some? && now.value == choice { assert now == Some(choice); }
    if now.None? && LastChoiceIs(ops[..n], session, user, choice) {
      var k :| 0 <= k < n && ChoiceAt(ops[..n], session, user, k) == Some(choice)
          && forall j :: k < j < n ==> ChoiceAt(ops[..n], session, user, j) == None;
      assert ChoiceAt(ops, session, user, k) == Some(choice);
      forall j | k < j < |ops| ensures ChoiceAt(ops, session, user, j) == None {
        if j < n { assert ChoiceAt(ops[..n], session, user, j) == None; }
      }
    }
  }

  /** A user participates as their last choice says, from the first time they join. */
  lemma {:induction false} ParticipationExactly(u: Setup, limits: Transcript.Limits, start: Records,
                                                ops: seq<Operation>, session: string, user: string)
    requires start.participants == map[]
    ensures var now := Get(Registered(After(u, limits, start, ops), session), user);
            && (now.Some? <==> IsRegistered(ops, session, user, |ops|))
            && forall choice :: now == Some(choice) <==> LastChoiceIs(ops, session, user, choice)
  {
    hide Next, Registered, LastChoiceIs;
    if ops == [] {
      NobodyRegistered(start, session, user);
    } else {
      var n := |ops| - 1;
      ParticipationExactly(u, limits, start, ops[..n], session, user);
      StepChoice(u, limits, After(u, limits, start, ops[..n]), ops[n], session, user);
      RegisteredNext(ops, session, user);
      forall choice {
        LastChoiceNext(ops, session, user, choice);
      }
    }
  }

  lemma NobodyRegistered(start: Records, session: string, user: string)
    requires start.participants == map[]
    ensures Get(Registered(start, session), user) == None
    ensures forall choice :: !LastChoiceIs([], session, user, choice)
  {
  }

  lemma RegisteredNext(ops: seq<Operation>, session: string, user: string)
    requires ops != []
    ensures var n := |ops| - 1;
            && (IsRegistered(ops, session, user, n) <==> IsRegistered(ops[..n], session, user, n))
            && (IsRegistered(ops, session, user, n + 1) <==>
                  IsRegistered(ops, session, user, n) || Registers(ops[n], session, user))
  {
    var n := |ops| - 1;
    if j :| 0 <= j < n && Registers(ops[j], session, user) { assert Registers(ops[..n][j], session, user); }
  }

  /** A report is released exactly to a professor who owns the session or its course, once
      the owner ended it and under a policy that is approved, a demo aside; and it counts
      exactly the participants whose last choice was to take part. */
  lemma ReadExactly(u: Setup, limits: Transcript.Limits, start: Records, ops: seq<Operation>, reply: Reply,
                    isProfessor: bool, membership: Option<Role>, session: string)
    requires start.participants == map[] && start.ended == {}
    requires Replies(u, limits, After(u, limits, start, ops), Read(isProfessor, membership, session), reply)
    ensures reply.Released?
    ensures reply.report.Ok? <==>
        && isProfessor && (membership == Some(Owner) || membership == Some(CourseProfessor))
        && (exists k :: 0 <= k < |ops| && Ends(ops[k], session))
        && u.policy.Some? && (u.policy.value.isApproved || u.isDemoOrTest)
    ensures reply.report.Ok? ==>
              var d := DataOf(After(u, limits, start, ops), session);
              && reply.report.value == ReportOf(u.policy.value, d) && d.session == session
              && forall user :: user in OptedIn(d.participants) <==> LastChoiceIs(ops, session, user, true)
  {
    hide After, ReportOf, LastChoiceIs;
    EndedExactly(u, limits, start, ops, session);
    forall user
      ensures user in OptedIn(Registered(After(u, limits, start, ops), session)) <==>
          LastChoiceIs(ops, session, user, true)
    {
      ParticipationExactly(u, limits, start, ops, session, user);
      CountedWhen(Registered(After(u, limits, start, ops), session), user);
    }
  }

  lemma CountedWhen(participants: map<string, bool>, user: string)
    ensures user in OptedIn(participants) <==> Get(participants, user) == Some(true)
  {
    if user in participants {
      var isIn := participants[user];
      if isIn { assert Get(participants, user) == Some(true); }
    }
  }

  // ------------------------------------------------------ what is submitted

  predicate HasSignal(signals: seq<Signal>, id: string) { exists k :: 0 <= k < |signals| && signals[k].id == id }

  /** Signal `n` of a batch is for the session and new to it and to the batch. */
  predicate IsSubmittable(stored: seq<Signal>, session: string, batch: seq<Signal>, n: nat)
    requires n < |batch|
  {
    && batch[n].session == session && !HasSignal(stored, batch[n].id)
    && forall k :: 0 <= k < n ==> batch[k].id != batch[n].id
  }

  lemma FirstIndexFinds(signals: seq<Signal>, id: string)
    ensures FirstIndex(signals, id).Some? <==> HasSignal(signals, id)
  {
    FirstIndexInside(signals, id);
    if k :| 0 <= k < |signals| && signals[k].id == id { assert signals[k] in signals; }
  }

  lemma SignalFaultExactly(stored: seq<Signal>, session: string, batch: seq<Signal>, n: nat)
    requires n < |batch|
    ensures var fault := SignalFault(stored, session, batch, n);
            && (fault.None? <==> IsSubmittable(stored, session, batch, n))
            && (fault.Some? ==> fault.value == if batch[n].session != session then WrongSession else DuplicateSignal)
  {
    FirstIndexFinds(stored, batch[n].id);
    FirstIndexFinds(batch[..n], batch[n].id);
    if k :| 0 <= k < n && batch[k].id == batch[n].id { assert batch[..n][k].id == batch[n].id; }
  }

  lemma {:induction false} FaultFromExactly(stored: seq<Signal>, session: string, batch: seq<Signal>, n: nat)
    requires n <= |batch|
    ensures var fault := FaultFrom(stored, session, batch, n);
            if fault.None? then forall k :: n <= k < |batch| ==> IsSubmittable(stored, session, batch, k)
            else exists k ::
              n <= k < |batch| && !IsSubmittable(stored, session, batch, k)
                  && (forall j :: n <= j < k ==> IsSubmittable(stored, session, batch, j))
                  && fault.value == if batch[k].session != session then WrongSession else DuplicateSignal
    decreases |batch| - n
  {
    hide SignalFault, IsSubmittable;
    if n < |batch| {
      SignalFaultExactly(stored, session, batch, n);
      FaultFromExactly(stored, session, batch, n + 1);
    }
  }

  lemma {:induction false} SubmittedAre(batch: seq<Signal>, actor: string)
    ensures |Submitted(batch, actor)| == |batch|
    ensures forall k :: 0 <= k < |batch| ==> Submitted(batch, actor)[k] == batch[k].(owner := actor)
  {
    if batch != [] { SubmittedAre(batch[1..], actor); }
  }

  /** A batch of signals is taken whole, as the submitter's own, exactly when a member who is
      no course professor submits it to an open session of its lecture, within the limit
      and with only new signals of the session; otherwise nothing is. */
  lemma SignalsTakenExactly(u: Setup, r: Records, actor: string, membership: Option<Role>, isLecture: bool,
                            session: string, batch: seq<Signal>)
    ensures var (after, reply) := SignalsIngested(u, r, actor, membership, isLecture, session, batch);
            var stored, now := EventsOf(r, session), EventsOf(after, session);
            && (reply.Ok? <==>
                  && (membership == Some(Owner) || membership == Some(Participant)) && session !in r.ended && isLecture
                  && |batch| <= u.maxBatchEvents
                  && forall n :: 0 <= n < |batch| ==> IsSubmittable(stored, session, batch, n))
            && (forall other :: other != session ==> EventsOf(after, other) == EventsOf(r, other))
            && if reply.Err? then after == r
               else |now| == |stored| + |batch| && now[..|stored|] == stored
                    && forall k :: 0 <= k < |batch| ==> now[|stored| + k] == batch[k].(owner := actor)
  {
    hide FaultFrom, Submitted, IsSubmittable;
    FaultFromExactly(EventsOf(r, session), session, batch, 0);
    SubmittedAre(batch, actor);
  }

  // ---------------------------------------------------------- after the end

  /** The evidence of the session is what it was: nothing was added to its coverage and its
      delivery events, and its signals were at most confirmed or denied. */
  ghost predicate AddsNothing(before: Records, after: Records, session: string) {
    && (forall e :: e in after.coverage && e.session == session ==> e in before.coverage)
    && (forall d :: d in after.deliveries && d.session == session ==> d in before.deliveries)
    && |EventsOf(after, session)| == |EventsOf(before, session)|
    && forall k :: 0 <= k < |EventsOf(after, session)| ==>
         EventsOf(after, session)[k]
         == EventsOf(before, session)[k].(confirmed := EventsOf(after, session)[k].confirmed)
  }

  lemma {:induction false} NewEntriesAreOwn(coverage: seq<Entry>, session: string, owner: string, batch: seq<Coverage>)
    ensures forall e :: e in NewEntries(coverage, session, owner, batch) ==> e.session == session
  {
    if batch != [] { NewEntriesAreOwn(coverage, session, owner, batch[..|batch| - 1]); }
  }

  lemma {:induction false} NewDeliveriesAreOwn(deliveries: seq<Delivery>, session: string, batch: seq<Delivery>)
    ensures forall d :: d in NewDeliveries(deliveries, session, batch) ==> d.session == session
  {
    if batch != [] { NewDeliveriesAreOwn(deliveries, session, batch[..|batch| - 1]); }
  }

  lemma {:induction false} DeliveriesShrink(deliveries: seq<Delivery>, session: string)
    ensures forall d :: d in DeliveriesElsewhere(deliveries, session) ==> d in deliveries
  {
    if deliveries != [] { DeliveriesShrink(deliveries[1..], session); }
  }

  lemma StepAddsNothing(u: Setup, limits: Transcript.Limits, r: Records, op: Operation, session: string)
    requires session in r.ended
    ensures AddsNothing(r, Next(u, limits, r, op), session) && session in Next(u, limits, r, op).ended
  {
    hide FaultFrom, NewEntries, NewDeliveries, Disagrees, DeliveriesDisagree, Erase, FirstIndex, CoverageElsewhere,
        DeliveriesElsewhere, Submitted, Transcript.IngestedInto;
    match op
    case Cover(a, _, _, s, batch) => NewEntriesAreOwn(r.coverage, s, a, batch);
    case Deliver(_, _, s, batch) => NewDeliveriesAreOwn(r.deliveries, s, batch);
    case SetConsent(a, _, _, s, _) => EraseMembers(r.coverage, s, a);
    case Forget(s) =>
      ElsewhereMembers(r.coverage, s);
      DeliveriesShrink(r.deliveries, s);
    case _ =>
  }

  lemma AddsNothingOn(a: Records, b: Records, c: Records, session: string)
    requires AddsNothing(a, b, session) && AddsNothing(b, c, session)
    ensures AddsNothing(a, c, session)
  {
    hide EventsOf;
  }

  /** Once a session has ended its evidence is closed: whatever is submitted, ingested,
      chosen, corrected or deleted afterwards adds nothing to it. */
  lemma {:induction false} EndClosesEvidence(u: Setup, limits: Transcript.Limits, start: Records,
                                             later: seq<Operation>, session: string)
    requires session in start.ended
    ensures AddsNothing(start, After(u, limits, start, later), session)
    ensures session in After(u, limits, start, later).ended
  {
    hide Next, AddsNothing;
    if later == [] {
      SameAddsNothing(start, session);
    } else {
      var n := |later| - 1;
      EndClosesEvidence(u, limits, start, later[..n], session);
      StepAddsNothing(u, limits, After(u, limits, start, later[..n]), later[n], session);
      AddsNothingOn(start, After(u, limits, start, later[..n]), After(u, limits, start, later), session);
    }
  }

  lemma SameAddsNothing(r: Records, session: string)
    ensures AddsNothing(r, r, session)
  {
  }
}
