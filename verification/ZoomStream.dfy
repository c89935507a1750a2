/** The realtime-transcript slot of one session: lifecycle handlers that suspend
    while the tasks of current and superseded streams keep stepping. */
module ZoomStream {
  import opened Common

  datatype Status = AwaitingStream | Connecting | Streaming | Stopped | Failed

  /** An unfinished stream task. */
  datatype Task = Task(started: bool, cancelRequested: bool)

  /** What a handler does once the old stream is gone. */
  datatype Then = StartNew(rtmsStreamId: string) | MarkStopped | Nothing

  datatype Phase = AwaitingStop | AwaitingTask

  datatype Handler = Idle | Suspended(held: Option<nat>, phase: Phase, next: Then)

  /** A stream and its task are created together and share a number. */
  datatype Slot = Slot(
    status: Status, rtmsStreamId: Option<string>, stream: Option<nat>, task: Option<nat>,
    tasks: map<nat, Task>, created: nat, handler: Handler, isShutDown: bool)

  const START := Slot(AwaitingStream, None, None, None, map[], 0, Idle, false)

  datatype Outcome = Returned | ProviderError | Cancelled | Unexpected

  /** One atomic step: the code between two suspension points. */
  datatype Step =
    | RtmsStarted(id: string)
    | RtmsStopped(id: string)
    | StopSession
    | Shutdown
    | LinkSession
    | StopReturns
    | TaskAwaited
    | TaskStarts(n: nat)
    | ObserveStreaming(n: nat)
    | TaskEnds(n: nat, outcome: Outcome)
    | CancelledUnstarted(n: nat)

  // --------------------------------------------------------------- handlers

  function Continue(s: Slot, next: Then): Slot {
    match next
    case StartNew(id) =>
      s.(status := Connecting, rtmsStreamId := Some(id), stream := Some(s.created), task := Some(s.created),
         tasks := s.tasks[s.created := Task(false, false)], created := s.created + 1, handler := Idle)
    case MarkStopped => s.(status := Stopped, handler := Idle)
    case Nothing => s.(handler := Idle)
  }

  /** Cancel the held task and wait for it, unless it is already done. */
  function CancelHeld(s: Slot, held: Option<nat>, next: Then): Slot {
    if held.Some? && held.value in s.tasks then
      s.(tasks := s.tasks[held.value := s.tasks[held.value].(cancelRequested := true)],
         handler := Suspended(held, AwaitingTask, next))
    else Continue(s, next)
  }

  /** `_stop_stream`: empty the slot, ask the stream to stop, then cancel its task. */
  function StopStream(s: Slot, next: Then): Slot {
    var emptied := s.(stream := None, task := None);
    if s.stream.Some? then emptied.(handler := Suspended(s.task, AwaitingStop, next))
    else CancelHeld(emptied, s.task, next)
  }

  // ------------------------------------------------------------------ tasks

  function EndStatus(status: Status, outcome: Outcome): Status {
    match outcome
    case Returned => if status.Failed? then Failed else Stopped
    case ProviderError => Failed
    case Cancelled => Stopped
    case Unexpected => Failed
  }

  /** A task ends: it records how, and clears the slot only if the slot is its own. */
  function EndTask(s: Slot, n: nat, outcome: Outcome): Slot {
    var ended := s.(status := EndStatus(s.status, outcome), tasks := s.tasks - {n});
    if s.stream == Some(n) then ended.(stream := None, task := None) else ended
  }

  function Next(s: Slot, step: Step): Slot {
    match step
    case RtmsStarted(id) =>
      if !s.handler.Idle? || (s.stream.Some? && s.rtmsStreamId == Some(id)) then s else StopStream(s, StartNew(id))
    case RtmsStopped(id) =>
      if !s.handler.Idle? || s.rtmsStreamId != Some(id) then s else StopStream(s, MarkStopped)
    case StopSession =>
      if !s.handler.Idle? || (s.stream.None? && s.task.None?) then s else StopStream(s, MarkStopped)
    case Shutdown => if !s.handler.Idle? then s else StopStream(s.(isShutDown := true), Nothing)
    case LinkSession => if s.stream.None? then s.(status := AwaitingStream) else s
    case StopReturns =>
      if s.handler.Suspended? && s.handler.phase.AwaitingStop? then CancelHeld(s, s.handler.held, s.handler.next) else s
    case TaskAwaited =>
      if s.handler.Suspended? && s.handler.phase.AwaitingTask?
          && (s.handler.held.Some? ==> s.handler.held.value !in s.tasks)
      then Continue(s, s.handler.next) else s
    case TaskStarts(n) =>
      if n in s.tasks && !s.tasks[n].cancelRequested then s.(tasks := s.tasks[n := s.tasks[n].(started := true)]) else s
    case ObserveStreaming(n) => if n in s.tasks && s.tasks[n].started then s.(status := Streaming) else s
    case TaskEnds(n, outcome) =>
      if n in s.tasks && s.tasks[n].started && (outcome.Cancelled? ==> s.tasks[n].cancelRequested) then
          EndTask(s, n, outcome) else s
    case CancelledUnstarted(n) =>
      if n in s.tasks && !s.tasks[n].started && s.tasks[n].cancelRequested then s.(tasks := s.tasks - {n}) else s
  }

  function Run(s: Slot, steps: seq<Step>): Slot
    decreases |steps|
  {
    if steps == [] then s else Run(Next(s, steps[0]), steps[1..])
  }

  // -------------------------------------------------------------- invariant

  predicate Live(status: Status) { status.Connecting? || status.Streaming? }

  /** With no handler suspended: at most one unfinished task, the one in the slot,
      and a live status exactly when the slot is occupied. While a handler is
      suspended: the slot is empty and only the held task may be unfinished. */
  ghost predicate Invariant(s: Slot) {
    && s.stream == s.task
    && (forall n :: n in s.tasks ==> n < s.created)
    && match s.handler
       case Idle =>
         && s.tasks.Keys == (if s.task.Some? then {s.task.value} else {})
         && (s.task.Some? ==> !s.tasks[s.task.value].cancelRequested)
         && (!s.isShutDown ==> (Live(s.status) <==> s.stream.Some?))
       case Suspended(held, phase, next) =>
         && s.stream.None? && held.Some?
         && s.tasks.Keys <= {held.value}
         && (phase.AwaitingStop? && held.value in s.tasks ==> !s.tasks[held.value].cancelRequested)
         && (phase.AwaitingStop? && held.value !in s.tasks && !s.isShutDown ==> !Live(s.status))
         && (next.Nothing? ==> s.isShutDown)
  }

  lemma ContinueKeeps(s: Slot, next: Then)
    requires s.stream.None? && s.task.None? && s.tasks == map[]
    requires next.Nothing? ==> s.isShutDown || !Live(s.status)
    ensures Invariant(Continue(s, next))
  {
  }

  lemma HandlerKeeps(s: Slot, next: Then)
    requires Invariant(s) && s.handler.Idle? && (next.Nothing? ==> s.isShutDown)
    ensures Invariant(StopStream(s, next))
  {
    if s.stream.None? { ContinueKeeps(s, next); }
  }

  lemma StepKeeps(s: Slot, step: Step)
    requires Invariant(s)
    ensures Invariant(Next(s, step))
  {
    match step
    case RtmsStarted(id) => if s.handler.Idle? { HandlerKeeps(s, StartNew(id)); }
    case RtmsStopped(id) => if s.handler.Idle? { HandlerKeeps(s, MarkStopped); }
    case StopSession => if s.handler.Idle? { HandlerKeeps(s, MarkStopped); }
    case Shutdown => if s.handler.Idle? { HandlerKeeps(s.(isShutDown := true), Nothing); }
    case LinkSession =>
    case StopReturns => if s.handler.Suspended? && s.handler.phase.AwaitingStop? { StopReturnKeeps(s); }
    case TaskAwaited =>
      if s.handler.Suspended? && s.handler.held.value !in s.tasks {
        assert s.tasks == map[];
        ContinueKeeps(s, s.handler.next);
      }
    case _ => TaskStepKeeps(s, step);
  }

  lemma StopReturnKeeps(s: Slot)
    requires Invariant(s) && s.handler.Suspended? && s.handler.phase.AwaitingStop?
    ensures Invariant(CancelHeld(s, s.handler.held, s.handler.next))
  {
    if s.handler.held.value in s.tasks {
      assert s.tasks.Keys == {s.handler.held.value};
    } else {
      assert s.tasks == map[];
      ContinueKeeps(s, s.handler.next);
    }
  }

  /** Tasks step at any time, whether or not a handler is suspended. */
  lemma TaskStepKeeps(s: Slot, step: Step)
    requires Invariant(s) && (step.TaskStarts? || step.ObserveStreaming? || step.TaskEnds? || step.CancelledUnstarted?)
    ensures Invariant(Next(s, step))
  {
    var n := step.n;
    if n in s.tasks {
      assert s.tasks.Keys == {n};
      assert (s.tasks - {n}).Keys == {};
    }
  }

  lemma {:induction false} RunKeeps(s: Slot, steps: seq<Step>)
    requires Invariant(s)
    ensures Invariant(Run(s, steps))
    decreases |steps|
  {
    if steps != [] {
      StepKeeps(s, steps[0]);
      RunKeeps(Next(s, steps[0]), steps[1..]);
    }
  }

  lemma {:induction false} ShutDownOnlyByShutdown(s: Slot, steps: seq<Step>)
    requires !s.isShutDown && Shutdown !in steps
    ensures !Run(s, steps).isShutDown
    decreases |steps|
  {
    if steps != [] {
      assert steps[0] in steps && steps == [steps[0]] + steps[1..];
      ShutDownOnlyByShutdown(Next(s, steps[0]), steps[1..]);
    }
  }

  // ------------------------------------------------------------ main results

  /** Over every interleaving, whenever no handler is suspended there is at most
      one unfinished stream task and it is the one in the slot; before shutdown the
      status is connecting or streaming exactly when the slot is occupied. */
  lemma OneStreamPerSession(steps: seq<Step>)
    ensures var s := Run(START, steps);
            s.handler.Idle? ==>
              && s.stream == s.task
              && (forall n :: n in s.tasks <==> s.task == Some(n))
              && (Shutdown !in steps ==> (Live(s.status) <==> s.stream.Some?))
  {
    RunKeeps(START, steps);
    if Shutdown !in steps { ShutDownOnlyByShutdown(START, steps); }
  }

  /** While a handler is suspended no new stream exists and the slot stays empty. */
  lemma SuspendedSlotIsEmpty(steps: seq<Step>)
    ensures var s := Run(START, steps);
            s.handler.Suspended? ==>
                s.stream.None? && s.task.None? && (forall n :: n in s.tasks ==> s.handler.held == Some(n))
  {
    RunKeeps(START, steps);
  }

  /** A superseded stream is always told to end before a new one is created: the
      new task's number is fresh, and no task is unfinished when it appears. */
  lemma NewStreamIsAlone(steps: seq<Step>, step: Step)
    ensures var before, after := Run(START, steps), Next(Run(START, steps), step);
            after.created != before.created ==>
              && after.created == before.created + 1 && after.task == Some(before.created)
              && after.tasks == map[before.created := Task(false, false)] && after.status == Connecting
  {
    RunKeeps(START, steps);
    StepKeeps(Run(START, steps), step);
    var s := Run(START, steps);
    var after := Next(s, step);
    if after.created != s.created {
      assert after.tasks.Keys == {s.created};
      assert after.tasks[s.created] == Task(false, false);
    }
  }

  // ------------------------------------------------- when a stream is created

  /** What a handler leaves behind once the old stream is gone. */
  predicate IsFinished(before: Slot, next: Then, after: Slot) {
    && after.handler.Idle?
    && match next
       case StartNew(id) =>
         && after.stream == after.task == Some(before.created) && after.created == before.created + 1
         && after.status == Connecting && after.rtmsStreamId == Some(id)
         && after.tasks == before.tasks[before.created := Task(false, false)]
       case MarkStopped =>
         after.stream.None? && after.task.None? && after.status == Stopped && after.tasks == before.tasks
       case Nothing =>
         after.stream.None? && after.task.None? && after.status == before.status && after.tasks == before.tasks
  }

  /** In every serial run: a stream announced for an empty slot is created at once, one
      that is already in the slot is ignored, and any other first makes the handler stop
      what the slot holds. */
  lemma StartedExactly(steps: seq<Step>, id: string)
    ensures var s := Run(START, steps);
            var after := Next(s, RtmsStarted(id));
            s.handler.Idle? ==>
              if s.stream.None? then IsFinished(s, StartNew(id), after)
              else if s.rtmsStreamId == Some(id) then after == s
              else after.handler == Suspended(s.stream, AwaitingStop, StartNew(id)) && after.stream.None?
                   && after.task.None? && after.tasks == s.tasks
  {
    RunKeeps(START, steps);
  }

  /** A suspended handler goes on exactly when the stream was asked to stop and its task
      has ended, which it cancels unless it ended by itself, and then does what it came for. */
  lemma ResumesExactly(steps: seq<Step>, step: Step)
    requires step == StopReturns || step == TaskAwaited
    ensures var s := Run(START, steps);
            var after := Next(s, step);
            s.handler.Suspended? ==>
              var hasEnded := s.tasks == map[];
              if step.StopReturns? != s.handler.phase.AwaitingStop? then after == s
              else if hasEnded then IsFinished(s, s.handler.next, after)
              else if step.StopReturns? then
                && after.handler == s.handler.(phase := AwaitingTask) && after.stream.None?
                && (forall n :: n in after.tasks <==> n in s.tasks)
                && forall n :: n in after.tasks ==> after.tasks[n].cancelRequested
              else after == s
  {
    RunKeeps(START, steps);
    var s := Run(START, steps);
    if s.handler.Suspended? {
      assert s.handler.held.value !in s.tasks <==> s.tasks == map[];
    }
  }

  /** How a task ends decides the status: failed on an error, stopped when it was
      cancelled, and stopped too when it returned unless the session had failed. */
  lemma EndedExactly(s: Slot, n: nat, outcome: Outcome)
    requires n in s.tasks && s.tasks[n].started && (outcome.Cancelled? ==> s.tasks[n].cancelRequested)
    ensures var after := Next(s, TaskEnds(n, outcome));
            && n !in after.tasks && (forall m :: m != n ==> (m in after.tasks <==> m in s.tasks))
            && (after.status == Failed <==>
                  outcome == ProviderError || outcome == Unexpected || (outcome == Returned && s.status == Failed))
            && (after.status == Failed || after.status == Stopped)
  {
  }

  /** `stop()` raising out of a handler: nothing after the await runs. */
  function StopRaises(s: Slot): Slot {
    if s.handler.Suspended? && s.handler.phase.AwaitingStop? then s.(handler := Idle) else s
  }

  /** The assumption that `stop()` does not raise is needed exactly when the held
      task is still unfinished: it would then outlive its empty slot. */
  lemma StopRaisesOrphans(steps: seq<Step>)
    requires var s := Run(START, steps); s.handler.Suspended? && s.handler.phase.AwaitingStop?
    ensures var s := Run(START, steps);
            s.handler.held.Some? && (Invariant(StopRaises(s)) <==> s.handler.held.value !in s.tasks)
  {
    RunKeeps(START, steps);
    var s := Run(START, steps);
    if s.handler.held.value !in s.tasks { assert s.tasks.Keys == {}; }
  }

  /** Such a run exists. */
  lemma StopRaisesWitness()
    ensures var s := Run(START, [RtmsStarted("a"), TaskStarts(0), RtmsStarted("b")]);
            && s.handler.Suspended? && s.handler.phase.AwaitingStop? && s.handler.held == Some(0) && 0 in s.tasks
            && StopRaises(s).stream.None? && 0 in StopRaises(s).tasks
  {
    var steps := [RtmsStarted("a"), TaskStarts(0), RtmsStarted("b")];
    assert steps[1..] == [TaskStarts(0), RtmsStarted("b")] && steps[1..][1..] == [RtmsStarted("b")]
        && steps[1..][1..][1..] == [];
    var s1 := Next(START, steps[0]);
    var s2 := Next(s1, steps[1]);
    var s3 := Next(s2, steps[2]);
    assert Run(START, steps) == Run(s1, steps[1..]) == Run(s2, steps[1..][1..]) == Run(s3, []);
  }

  // ------------------------------------------------- handlers of one session at once

  /** The slot and any number of handlers of its session, each at its own suspension point. */
  datatype Shared = Shared(slot: Slot, handlers: map<nat, Handler>)

  /** A step, and the handler that takes it; a task's step does not depend on a handler. */
  datatype Move = Move(handler: nat, step: Step)

  const SHARED_START := Shared(START, map[])

  function HandlerOf(c: Shared, h: nat): Handler { if h in c.handlers then c.handlers[h] else Idle }

  /** The slot as one handler sees it. */
  function SeenBy(c: Shared, h: nat): Slot { c.slot.(handler := HandlerOf(c, h)) }

  function NextShared(c: Shared, m: Move): Shared {
    var s := Next(SeenBy(c, m.handler), m.step);
    Shared(s.(handler := Idle), c.handlers[m.handler := s.handler])
  }

  function RunShared(moves: seq<Move>): Shared {
    if moves == [] then SHARED_START else NextShared(RunShared(moves[..|moves| - 1]), moves[|moves| - 1])
  }

  /** What matters to who holds the slot: a handler takes what is in it, a stream is
      created, a stream's task ends. */
  datatype SlotEvent = Taken | Created(n: nat) | Ended(n: nat)

  /** The step makes a handler stop whatever stream there is. */
  predicate Takes(s: Slot, step: Step) {
    && s.handler.Idle?
    && match step
       case RtmsStarted(id) => !(s.stream.Some? && s.rtmsStreamId == Some(id))
       case RtmsStopped(id) => s.rtmsStreamId == Some(id)
       case StopSession => s.stream.Some? || s.task.Some?
       case Shutdown => true
       case _ => false
  }

  function EventsOf(s: Slot, step: Step): seq<SlotEvent> {
    (if Takes(s, step) then [Taken] else [])
    + (if Next(s, step).created > s.created then [Created(s.created)] else [])
    + (if step.TaskEnds? && step.n in s.tasks && step.n !in Next(s, step).tasks then [Ended(step.n)] else [])
  }

  function History(moves: seq<Move>): seq<SlotEvent> {
    if moves == [] then []
    else
      var before, m := moves[..|moves| - 1], moves[|moves| - 1];
      History(before) + EventsOf(SeenBy(RunShared(before), m.handler), m.step)
  }

  /** The stream was created last, has not been taken since, and its own task has not ended. */
  predicate Holds(log: seq<SlotEvent>, n: nat) {
    exists k :: 0 <= k < |log| && log[k] == Created(n) && forall j :: k < j < |log| ==>
        log[j].Ended? && log[j] != Ended(n)
  }

  lemma HoldsNext(log: seq<SlotEvent>, e: SlotEvent, n: nat)
    ensures Holds(log + [e], n) <==> if e.Ended? then Holds(log, n) && e.n != n else e == Created(n)
  {
    var longer := log + [e];
    if Holds(longer, n) {
      var k :| 0 <= k < |longer| && longer[k] == Created(n) && forall j :: k < j < |longer| ==>
          longer[j].Ended? && longer[j] != Ended(n);
      assert k < |log| ==> longer[|log|].Ended? && longer[|log|] != Ended(n);
      if k < |log| {
        forall j | k < j < |log| ensures log[j].Ended? && log[j] != Ended(n) { assert longer[j] == log[j]; }
        assert log[k] == Created(n);
      }
    }
    if e.Ended? && Holds(log, n) && e.n != n {
      var k :| 0 <= k < |log| && log[k] == Created(n) && forall j :: k < j < |log| ==>
          log[j].Ended? && log[j] != Ended(n);
      assert longer[k] == Created(n);
    }
    if e == Created(n) { assert longer[|log|] == Created(n); }
  }

  /** The holder after some more events, given the holder before them. */
  function HolderAfter(holder: Option<nat>, events: seq<SlotEvent>): Option<nat> {
    if events == [] then holder else HolderNext(HolderAfter(holder, events[..|events| - 1]), events[|events| - 1])
  }

  function HolderNext(holder: Option<nat>, e: SlotEvent): Option<nat> {
    match e
    case Taken => None
    case Created(n) => Some(n)
    case Ended(n) => if holder == Some(n) then None else holder
  }

  lemma HolderOfFew(holder: Option<nat>, a: SlotEvent, b: SlotEvent)
    ensures HolderAfter(holder, []) == holder && HolderAfter(holder, [a]) == HolderNext(holder, a)
    ensures HolderAfter(holder, [a, b]) == HolderNext(HolderNext(holder, a), b)
  {
    assert [a][..0] == [] && [a, b][..1] == [a];
  }

  lemma {:induction false} HoldsAppend(log: seq<SlotEvent>, events: seq<SlotEvent>, holder: Option<nat>)
    requires forall n: nat :: holder == Some(n) <==> Holds(log, n)
    ensures forall n: nat :: HolderAfter(holder, events) == Some(n) <==> Holds(log + events, n)
  {
    if events == [] {
      assert log + events == log;
    } else {
      var before, e := events[..|events| - 1], events[|events| - 1];
      HoldsAppend(log, before, holder);
      assert log + events == (log + before) + [e];
      forall n: nat
        ensures HolderAfter(holder, events) == Some(n) <==> Holds(log + events, n)
      {
        HoldsNext(log + before, e, n);
      }
    }
  }

  lemma HandlerCreates(s: Slot, step: Step)
    requires Takes(s, step) && s.stream == s.task
    ensures var after := Next(s, step);
            after.stream == after.task && after.stream == if after.created > s.created then Some(s.created) else None
    ensures !step.TaskEnds?
  {
  }

  lemma OthersCreate(s: Slot, step: Step)
    requires !Takes(s, step) && s.stream == s.task
    ensures var after := Next(s, step);
            && after.stream == after.task
            && (step.TaskEnds? ==> after.created == s.created)
            && (step.TaskEnds? ==>
                  after.stream == if step.n in s.tasks && step.n !in after.tasks && s.stream == Some(step.n) then
                      None else s.stream)
            && (!step.TaskEnds? ==> after.stream == if after.created > s.created then Some(s.created) else s.stream)
  {
  }

  lemma {:induction false} SlotIsOne(moves: seq<Move>)
    ensures RunShared(moves).slot.stream == RunShared(moves).slot.task
  {
    hide Next, Takes;
    if moves != [] {
      var before, m := moves[..|moves| - 1], moves[|moves| - 1];
      var s := SeenBy(RunShared(before), m.handler);
      SlotIsOne(before);
      if Takes(s, m.step) { HandlerCreates(s, m.step); } else { OthersCreate(s, m.step); }
    }
  }

  /** Who holds the slot, over every interleaving of any number of handlers and tasks:
      exactly the stream that was created last, if no handler has taken it since and its
      own task has not ended. How and when superseded tasks end never matters. */
  lemma {:induction false} SlotFollowsHistory(moves: seq<Move>)
    ensures forall n: nat :: RunShared(moves).slot.stream == Some(n) <==> Holds(History(moves), n)
  {
    hide Next, Holds, Takes, HolderAfter;
    if moves == [] {
      NothingHeld();
    } else {
      var before, m := moves[..|moves| - 1], moves[|moves| - 1];
      var s := SeenBy(RunShared(before), m.handler);
      SlotFollowsHistory(before);
      SlotIsOne(before);
      HoldsAppend(History(before), EventsOf(s, m.step), s.stream);
      var none: seq<SlotEvent>, created := [], Created(s.created);
      var ended := Ended(if m.step.TaskEnds? then m.step.n else 0);
      HolderOfFew(s.stream, Taken, created);
      HolderOfFew(s.stream, created, ended);
      HolderOfFew(s.stream, ended, Taken);
      if Takes(s, m.step) {
        HandlerCreates(s, m.step);
        assert [Taken] + none + none == [Taken] && [Taken] + [created] + none == [Taken, created];
      } else {
        OthersCreate(s, m.step);
        assert none + [created] + none == [created] && none + none + none == none && none + none + [ended] == [ended];
      }
    }
  }

  lemma NothingHeld()
    ensures forall n: nat :: !Holds([], n)
  {
  }

  /** What the moves of a later stretch of a run mean for the slot. */
  function HistorySince(before: seq<Move>, between: seq<Move>): seq<SlotEvent> {
    if between == [] then []
    else
      var m, rest := between[|between| - 1], between[..|between| - 1];
      HistorySince(before, rest) + EventsOf(SeenBy(RunShared(before + rest), m.handler), m.step)
  }

  lemma {:induction false} HistoryAppends(before: seq<Move>, between: seq<Move>)
    ensures History(before + between) == History(before) + HistorySince(before, between)
  {
    hide EventsOf, RunShared;
    if between == [] {
      assert before + between == before && History(before) + [] == History(before);
    } else {
      var rest, m, all := between[..|between| - 1], between[|between| - 1], before + between;
      HistoryAppends(before, rest);
      assert all[..|all| - 1] == before + rest && all[|all| - 1] == m;
      var events := EventsOf(SeenBy(RunShared(before + rest), m.handler), m.step);
      assert History(all) == History(before + rest) + events;
      assert HistorySince(before, between) == HistorySince(before, rest) + events;
    }
  }

  /** A superseded task never clears a newer slot: whatever handlers and tasks do, the
      slot keeps its stream as long as it is not taken, no newer stream is created, and
      its own task does not end. */
  lemma SupersededNeverClears(before: seq<Move>, between: seq<Move>, n: nat)
    requires RunShared(before).slot.stream == Some(n)
    requires forall e :: e in HistorySince(before, between) ==> e.Ended? && e.n != n
    ensures RunShared(before + between).slot.stream == Some(n)
  {
    hide EventsOf, RunShared, History, HistorySince;
    SlotFollowsHistory(before);
    SlotFollowsHistory(before + between);
    HistoryAppends(before, between);
    var log, more := History(before), HistorySince(before, between);
    var k :| 0 <= k < |log| && log[k] == Created(n) && forall j :: k < j < |log| ==>
        log[j].Ended? && log[j] != Ended(n);
    assert (log + more)[k] == Created(n);
    forall j | k < j < |log + more| ensures (log + more)[j].Ended? && (log + more)[j] != Ended(n) {
      if j >= |log| { assert (log + more)[j] == more[j - |log|] && more[j - |log|] in more; }
    }
  }

  ghost predicate SharedInvariant(c: Shared) {
    && c.slot.stream == c.slot.task && (forall n :: n in c.slot.tasks ==> n < c.slot.created)
    && (c.slot.stream.Some? ==>
          var n := c.slot.stream.value; n < c.slot.created && n in c.slot.tasks && !c.slot.tasks[n].cancelRequested)
    && (forall h :: h in c.handlers ==> HeldAside(c.slot, c.handlers[h]))
  }

  /** What a suspended handler holds is an older stream than any the slot will get. */
  predicate HeldAside(s: Slot, h: Handler) {
    h.Suspended? && h.held.Some? ==> h.held.value < s.created && s.stream != h.held
  }

  lemma SharedStepKeeps(c: Shared, m: Move)
    requires SharedInvariant(c)
    ensures SharedInvariant(NextShared(c, m))
  {
    var s := SeenBy(c, m.handler);
    var after := Next(s, m.step);
    assert HeldAside(c.slot, HandlerOf(c, m.handler));
    OccupantStays(s, m.step);
    forall h | h in c.handlers && h != m.handler
      ensures HeldAside(after, c.handlers[h])
    {
      assert HeldAside(c.slot, c.handlers[h]);
    }
  }

  lemma OccupantStays(s: Slot, step: Step)
    requires s.stream == s.task && (forall n :: n in s.tasks ==> n < s.created) && HeldAside(s, s.handler)
    requires s.stream.Some? ==>
        s.stream.value < s.created && s.stream.value in s.tasks && !s.tasks[s.stream.value].cancelRequested
    ensures var t := Next(s, step);
            && t.stream == t.task && (forall n :: n in t.tasks ==> n < t.created) && s.created <= t.created
            && HeldAside(t, t.handler)
            && (t.stream.Some? ==>
                t.stream.value < t.created && t.stream.value in t.tasks && !t.tasks[t.stream.value].cancelRequested)
            && (t.stream == s.stream || t.stream == None || t.stream == Some(s.created))
  {
  }

  /** Even with several handlers at once, an occupied slot holds a stream whose task is
      unfinished and has not been told to end. */
  lemma {:induction false} OccupantIsUnfinished(moves: seq<Move>)
    ensures SharedInvariant(RunShared(moves))
    ensures var s := RunShared(moves).slot;
            s.stream.Some? ==> s.stream.value in s.tasks && !s.tasks[s.stream.value].cancelRequested
  {
    hide NextShared;
    if moves != [] {
      OccupantIsUnfinished(moves[..|moves| - 1]);
      SharedStepKeeps(RunShared(moves[..|moves| - 1]), moves[|moves| - 1]);
    }
  }

  /** Two handlers interleave: the first, still waiting for stream 0 to end, overwrites
      the slot the second has filled meanwhile. */
  const OVERLAP: seq<Move> :=
    [Move(0, RtmsStarted("a")), Move(0, TaskStarts(0)), Move(0, RtmsStarted("b")), Move(1, RtmsStarted("c")),
     Move(1, TaskStarts(1)),
     Move(0, StopReturns), Move(0, TaskEnds(0, Cancelled)), Move(0, TaskAwaited)]

  /** Stream 1 is in the slot and started, while the first handler waits for stream 0. */
  function Halfway(): Shared {
    Shared(Slot(Connecting, Some("c"), Some(1), Some(1), map[0 := Task(true, false), 1 := Task(true, false)], 2, Idle,
                false),
           map[0 := Suspended(Some(0), AwaitingStop, StartNew("b")), 1 := Idle])
  }

  /** Before the second handler comes in. */
  function Early(): Shared {
    Shared(Slot(Connecting, Some("a"), None, None, map[0 := Task(true, false)], 1, Idle, false),
           map[0 := Suspended(Some(0), AwaitingStop, StartNew("b"))])
  }

  lemma OverlapOpens()
    ensures RunShared(OVERLAP[..3]) == Early()
  {
    assert OVERLAP[..0] == [] && OVERLAP[..1][..0] == [] && OVERLAP[..2][..1] == OVERLAP[..1]
        && OVERLAP[..3][..2] == OVERLAP[..2];
    assert RunShared(OVERLAP[..0]) == SHARED_START;
    assert RunShared(OVERLAP[..1])
           == Shared(Slot(Connecting, Some("a"), Some(0), Some(0), map[0 := Task(false, false)], 1, Idle, false),
                     map[0 := Idle]);
    assert RunShared(OVERLAP[..2])
           == Shared(Slot(Connecting, Some("a"), Some(0), Some(0), map[0 := Task(true, false)], 1, Idle, false),
                     map[0 := Idle]);
  }

  lemma OverlapBegins()
    ensures RunShared(OVERLAP[..5]) == Halfway()
  {
    OverlapOpens();
    assert OVERLAP[..4][..3] == OVERLAP[..3] && OVERLAP[..5][..4] == OVERLAP[..4];
    assert RunShared(OVERLAP[..4])
           == Shared(Slot(Connecting, Some("c"), Some(1), Some(1),
                          map[0 := Task(true, false), 1 := Task(false, false)], 2, Idle, false),
                     map[0 := Suspended(Some(0), AwaitingStop, StartNew("b")), 1 := Idle]);
  }

  lemma OverlapEnds(c: Shared)
    requires c == Halfway()
    ensures var d :=
      NextShared(NextShared(NextShared(c, Move(0, StopReturns)), Move(0, TaskEnds(0, Cancelled))),
                 Move(0, TaskAwaited));
            && d.slot.stream == Some(2) && 1 in d.slot.tasks && d.slot.tasks[1].started
            && NextShared(d, Move(0, TaskEnds(1, Returned))).slot.stream == Some(2)
  {
    var c1 := NextShared(c, Move(0, StopReturns));
    assert c1.handlers[0] == Suspended(Some(0), AwaitingTask, StartNew("b")) && c1.slot.tasks[0] == Task(true, true);
    var c2 := NextShared(c1, Move(0, TaskEnds(0, Cancelled)));
    assert c2.slot.stream == Some(1) && c2.slot.tasks == map[1 := Task(true, false)]
        && c2.handlers[0] == c1.handlers[0];
    var c3 := NextShared(c2, Move(0, TaskAwaited));
    assert c3.slot.stream == Some(2) && c3.slot.tasks == map[1 := Task(true, false), 2 := Task(false, false)];
  }

  /** Superseded unfinished tasks do coexist with an occupied slot when handlers overlap,
      unlike in serial runs; when such a task ends, the slot keeps its newer stream. */
  lemma SupersededCoexists()
    ensures var c := RunShared(OVERLAP); c.slot.stream == Some(2) && 1 in c.slot.tasks && c.slot.tasks[1].started
    ensures RunShared(OVERLAP + [Move(0, TaskEnds(1, Returned))]).slot.stream == Some(2)
  {
    hide NextShared;
    OverlapBegins();
    OverlapEnds(RunShared(OVERLAP[..5]));
    assert OVERLAP[..6][..5] == OVERLAP[..5] && OVERLAP[..7][..6] == OVERLAP[..6] && OVERLAP[..8] == OVERLAP
        && OVERLAP[..8][..7] == OVERLAP[..7];
    assert (OVERLAP + [Move(0, TaskEnds(1, Returned))])[..8] == OVERLAP;
    assert RunShared(OVERLAP[..6]) == NextShared(RunShared(OVERLAP[..5]), Move(0, StopReturns));
    assert RunShared(OVERLAP[..7]) == NextShared(RunShared(OVERLAP[..6]), Move(0, TaskEnds(0, Cancelled)));
  }
}
