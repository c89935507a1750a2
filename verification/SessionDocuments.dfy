/** Optimistic concurrency on session documents: a compare-and-swap repository,
    and the bounded retry loop run by any number of interleaved clients. */
module SessionDocuments {
  import opened Common

  const MAX_WRITE_ATTEMPTS := 5

  datatype Document<D> = Document(revision: nat, content: D)

  /** What a pure change does to the content it is given. */
  datatype Change<D> = Unchanged | Write(content: D) | Refused

  function Stored<D>(sessions: map<string, Document<D>>, session: string, empty: D): Document<D> {
    if session in sessions then sessions[session] else Document(0, empty)
  }

  /** Commit when the stored revision is still the expected one. */
  function ReplaceIn<D>(sessions: map<string, Document<D>>, session: string, empty: D, document: Document<D>,
                        expected: nat)
    : (map<string, Document<D>>, bool)
  {
    if Stored(sessions, session, empty).revision != expected then (sessions, false)
    else (sessions[session := document], true)
  }

  datatype Mutation = Committed | NoChange | Rejected | WriteConflict

  /** A commit by somebody else: the content it leaves in a session. */
  datatype ForeignWrite<D> = ForeignWrite(session: string, content: D)

  predicate WritesTo<D>(writes: seq<ForeignWrite<D>>, session: string) {
    exists k :: 0 <= k < |writes| && writes[k].session == session
  }

  function Interfere<D>(sessions: map<string, Document<D>>, empty: D,
                        writes: seq<ForeignWrite<D>>): map<string, Document<D>>
    decreases |writes|
  {
    if writes == [] then sessions
    else
      var w := writes[0];
      Interfere(sessions[w.session := Document(Stored(sessions, w.session, empty).revision + 1, w.content)], empty,
                writes[1..])
  }

  function Interfered<D>(sessions: map<string, Document<D>>, empty: D,
                         foreign: seq<seq<ForeignWrite<D>>>): map<string, Document<D>> {
    if foreign == [] then sessions
    else Interfere(Interfered(sessions, empty, foreign[..|foreign| - 1]), empty, foreign[|foreign| - 1])
  }

  /** Every foreign commit raises the revision; a session nobody wrote is untouched. */
  lemma {:induction false} InterfereCounts<D>(sessions: map<string, Document<D>>, empty: D,
                                              writes: seq<ForeignWrite<D>>, session: string)
    ensures var before, after :=
      Stored(sessions, session, empty), Stored(Interfere(sessions, empty, writes), session, empty);
            && before.revision <= after.revision
            && (before.revision == after.revision <==> !WritesTo(writes, session))
            && (!WritesTo(writes, session) ==> after == before)
    decreases |writes|
  {
    if writes != [] {
      var w := writes[0];
      InterfereCounts(sessions[w.session := Document(Stored(sessions, w.session, empty).revision + 1, w.content)],
                      empty, writes[1..], session);
      if WritesTo(writes[1..], session) {
        var k :| 0 <= k < |writes[1..]| && writes[1..][k].session == session;
        assert writes[k + 1].session == session;
      } else if WritesTo(writes, session) {
        var k :| 0 <= k < |writes| && writes[k].session == session;
        assert k > 0 ==> writes[1..][k - 1].session == session;
      }
    }
  }

  class MemorySessionRepository<D> {
    const empty: D
    var sessions: map<string, Document<D>>

    constructor (empty: D)
      ensures this.empty == empty && sessions == map[]
    {
      this.empty := empty;
      sessions := map[];
    }

    method Load(session: string) returns (document: Document<D>)
      ensures document == Stored(sessions, session, empty)
    {
      document := if session in sessions then sessions[session] else Document(0, empty);
    }

    method Replace(session: string, document: Document<D>, expected: nat) returns (committed: bool)
      modifies this`sessions
      ensures (sessions, committed) == ReplaceIn(old(sessions), session, empty, document, expected)
    {
      var current := if session in sessions then sessions[session].revision else 0;
      if current != expected { return false; }
      sessions := sessions[session := document];
      committed := true;
    }

    method Delete(session: string)
      modifies this`sessions
      ensures sessions == old(sessions) - {session}
    {
      sessions := sessions - {session};
    }

    /** The bounded retry loop. `foreign[k]` is what other clients commit between
        the load and the replace of attempt `k`. */
    method MutateSession<M>(session: string, mutation: M, apply: (M, D) -> Change<D>,
                            foreign: seq<seq<ForeignWrite<D>>>)
      returns (r: Mutation, attempts: nat)
      requires |foreign| == MAX_WRITE_ATTEMPTS
      modifies this`sessions
      ensures 0 < attempts <= MAX_WRITE_ATTEMPTS
      ensures r.Committed? ==>
                var base := Interfered(old(sessions), empty, foreign[..attempts]);
                var replaced := Stored(base, session, empty);
                && apply(mutation, replaced.content).Write?
                && sessions
                    == base[session := Document(replaced.revision + 1, apply(mutation, replaced.content).content)]
      ensures r.WriteConflict? ==>
          attempts == MAX_WRITE_ATTEMPTS && sessions == Interfered(old(sessions), empty, foreign)
      ensures r.NoChange? || r.Rejected? ==>
                && sessions == Interfered(old(sessions), empty, foreign[..attempts - 1])
                && (r.NoChange? <==> apply(mutation, Stored(sessions, session, empty).content) == Unchanged)
      ensures forall k :: 0 <= k < attempts - 1 ==> WritesTo(foreign[k], session)
      ensures r.WriteConflict? <==> attempts == MAX_WRITE_ATTEMPTS && WritesTo(foreign[attempts - 1], session)
                                    && apply(mutation,
                                             Stored(Interfered(old(sessions), empty, foreign[..attempts - 1]),
                                                    session, empty).content).Write?
    {
      hide Interfere, WritesTo;
      attempts := 0;
      while attempts < MAX_WRITE_ATTEMPTS
        invariant attempts <= MAX_WRITE_ATTEMPTS && sessions == Interfered(old(sessions), empty, foreign[..attempts])
        invariant forall k :: 0 <= k < attempts ==> WritesTo(foreign[k], session)
        invariant attempts > 0 ==>
                    apply(mutation,
                          Stored(Interfered(old(sessions), empty, foreign[..attempts - 1]), session,
                                 empty).content).Write?
      {
        var state := Load(session);
        var change := apply(mutation, state.content);
        assert foreign[..attempts + 1][..attempts] == foreign[..attempts];
        if change.Unchanged? { return NoChange, attempts + 1; }
        if change.Refused? { return Rejected, attempts + 1; }
        InterfereCounts(sessions, empty, foreign[attempts], session);
        sessions := Interfere(sessions, empty, foreign[attempts]);
        attempts := attempts + 1;
        var committed := Replace(session, Document(state.revision + 1, change.content), state.revision);
        if committed { return Committed, attempts; }
      }
      assert foreign[..attempts] == foreign;
      r := WriteConflict;
    }
  }

  // ------------------------------------------------- interleaved clients

  /** The history of what happened to the repository. `loadedAt` says how long the
      history was when the committing client loaded its snapshot, and `expected` the
      revision of that snapshot. */
  datatype Entry<M, D> =
    | Commit(client: nat, session: string, mutation: M, loadedAt: nat, expected: nat, before: D, after: D)
    | Deleted(session: string)

  datatype Client<M, D> =
    | Idle
    | Preparing(session: string, mutation: M, failed: nat, startedAt: nat)
    | Loaded(session: string, mutation: M, failed: nat, startedAt: nat, loadedAt: nat, snapshot: Document<D>)
    | Done(committed: bool)
    | Conflict(session: string, startedAt: nat, endedAt: nat)

  datatype World<M, D> = World(sessions: map<string, Document<D>>, clients: map<nat, Client<M, D>>,
                               log: seq<Entry<M, D>>)

  /** One atomic step: the code between two suspension points of one client. */
  datatype Step<M> =
    | Begin(client: nat, session: string, mutation: M)
    | Load(client: nat)
    | Replace(client: nat)
    | Delete(session: string)

  function ClientOf<M, D>(w: World<M, D>, c: nat): Client<M, D> { if c in w.clients then w.clients[c] else Idle }

  function Next<M, D>(apply: (M, D) -> Change<D>, empty: D, w: World<M, D>, step: Step<M>): World<M, D> {
    match step
    case Begin(c, session, mutation) =>
      if ClientOf(w, c).Preparing? || ClientOf(w, c).Loaded? then w
      else w.(clients := w.clients[c := Preparing(session, mutation, 0, |w.log|)])
    case Load(c) =>
      if !ClientOf(w, c).Preparing? then w
      else
        var p := ClientOf(w, c);
        var snapshot := Stored(w.sessions, p.session, empty);
        w.(clients := w.clients[c :=
          if apply(p.mutation, snapshot.content).Write? then
              Loaded(p.session, p.mutation, p.failed, p.startedAt, |w.log|, snapshot)
          else Done(false)])
    case Replace(c) =>
      if !ClientOf(w, c).Loaded? || !apply(ClientOf(w, c).mutation, ClientOf(w, c).snapshot.content).Write? then w
      else
        var l := ClientOf(w, c);
        var after := apply(l.mutation, l.snapshot.content).content;
        var (sessions, committed) :=
          ReplaceIn(w.sessions, l.session, empty, Document(l.snapshot.revision + 1, after), l.snapshot.revision);
        if committed then
          World(sessions, w.clients[c := Done(true)], w.log
                + [Commit(c, l.session, l.mutation, l.loadedAt, l.snapshot.revision, l.snapshot.content, after)])
        else if l.failed + 1 < MAX_WRITE_ATTEMPTS then
          w.(clients := w.clients[c := Preparing(l.session, l.mutation, l.failed + 1, l.startedAt)])
        else
          w.(clients := w.clients[c := Conflict(l.session, l.startedAt, |w.log|)])
    case Delete(session) => World(w.sessions - {session}, w.clients, w.log + [Deleted(session)])
  }

  function Run<M, D>(apply: (M, D) -> Change<D>, empty: D, steps: seq<Step<M>>): World<M, D> {
    if steps == [] then World(map[], map[], [])
    else Next(apply, empty, Run(apply, empty, steps[..|steps| - 1]), steps[|steps| - 1])
  }

  // ------------------------------------------------------- reading the history

  predicate CommitTo<M, D>(e: Entry<M, D>, session: string) { e.Commit? && e.session == session }

  predicate DeletionOf<M, D>(e: Entry<M, D>, session: string) { e.Deleted? && e.session == session }

  /** How many commits the session has had since it was last deleted. */
  function Commits<M, D>(log: seq<Entry<M, D>>, session: string): nat {
    if log == [] then 0
    else
      var e, before := log[|log| - 1], Commits(log[..|log| - 1], session);
      if CommitTo(e, session) then before + 1 else if DeletionOf(e, session) then 0 else before
  }

  /** The fold of the committed mutations, in commit order, over the empty document. */
  function Replay<M, D>(apply: (M, D) -> Change<D>, empty: D, log: seq<Entry<M, D>>, session: string): D {
    if log == [] then empty
    else
      var e, before := log[|log| - 1], Replay(apply, empty, log[..|log| - 1], session);
      if CommitTo(e, session) then
        var result := apply(e.mutation, before);
        if result.Write? then result.content else before
      else if DeletionOf(e, session) then empty
      else before
  }

  predicate DeletedBetween<M, D>(log: seq<Entry<M, D>>, session: string, since: nat, upto: nat) {
    exists k :: since <= k < upto && k < |log| && DeletionOf(log[k], session)
  }

  predicate TouchedBetween<M, D>(log: seq<Entry<M, D>>, session: string, since: nat, upto: nat) {
    exists k :: since <= k < upto && k < |log| && log[k].session == session
  }

  /** The commit came from a stored document that was deleted since it was loaded. */
  predicate IsStale<M, D>(log: seq<Entry<M, D>>, session: string, k: nat)
    requires k < |log| && CommitTo(log[k], session)
  {
    log[k].expected > 0 && DeletedBetween(log, session, log[k].loadedAt, k)
  }

  /** No commit to this session came from a document deleted since the load. */
  predicate NoStaleCommit<M, D>(log: seq<Entry<M, D>>, session: string) {
    forall k :: 0 <= k < |log| && CommitTo(log[k], session) ==> !IsStale(log, session, k)
  }

  function CommitsBetween<M, D>(log: seq<Entry<M, D>>, session: string, since: nat, upto: nat): nat
    requires upto <= |log|
    decreases upto
  {
    if upto <= since then 0
    else CommitsBetween(log, session, since, upto - 1) + (if CommitTo(log[upto - 1], session) then 1 else 0)
  }

  lemma {:induction false} CommitsGrow<M, D>(log: seq<Entry<M, D>>, session: string, since: nat, upto: nat)
    requires since <= upto <= |log| && !DeletedBetween(log, session, since, upto)
    ensures Commits(log[..upto], session) == Commits(log[..since], session) + CommitsBetween(log, session, since, upto)
    decreases upto
  {
    if upto > since {
      CommitsGrow(log, session, since, upto - 1);
      assert log[..upto][..upto - 1] == log[..upto - 1];
      assert !DeletionOf(log[upto - 1], session);
    }
  }

  lemma {:induction false} NoCommitsUntouched<M, D>(log: seq<Entry<M, D>>, session: string, since: nat, upto: nat)
    requires since <= upto <= |log| && !DeletedBetween(log, session, since, upto)
    ensures CommitsBetween(log, session, since, upto) == 0 <==> !TouchedBetween(log, session, since, upto)
    decreases upto
  {
    if upto > since {
      NoCommitsUntouched(log, session, since, upto - 1);
      assert !DeletionOf(log[upto - 1], session);
    }
  }

  lemma {:induction false} CommitsBetweenPrefix<M, D>(log: seq<Entry<M, D>>, more: seq<Entry<M, D>>, session: string,
                                                      since: nat, upto: nat)
    requires upto <= |log|
    ensures CommitsBetween(log + more, session, since, upto) == CommitsBetween(log, session, since, upto)
    decreases upto
  {
    if upto > since { CommitsBetweenPrefix(log, more, session, since, upto - 1); }
  }

  /** How many commits and deletions the session saw in a stretch of history. */
  function TouchesBetween<M, D>(log: seq<Entry<M, D>>, session: string, since: nat, upto: nat): nat
    requires upto <= |log|
    decreases upto
  {
    if upto <= since then 0
    else TouchesBetween(log, session, since, upto - 1) + (if log[upto - 1].session == session then 1 else 0)
  }

  lemma {:induction false} TouchesBetweenAdds<M, D>(log: seq<Entry<M, D>>, session: string, since: nat, mid: nat,
                                                    upto: nat)
    requires since <= mid <= upto <= |log|
    ensures TouchesBetween(log, session, since, upto) == TouchesBetween(log, session, since, mid)
        + TouchesBetween(log, session, mid, upto)
    decreases upto
  {
    if upto > mid { TouchesBetweenAdds(log, session, since, mid, upto - 1); }
  }

  lemma {:induction false} TouchesBetweenPrefix<M, D>(log: seq<Entry<M, D>>, more: seq<Entry<M, D>>, session: string,
                                                      since: nat, upto: nat)
    requires upto <= |log|
    ensures TouchesBetween(log + more, session, since, upto) == TouchesBetween(log, session, since, upto)
    decreases upto
  {
    if upto > since { TouchesBetweenPrefix(log, more, session, since, upto - 1); }
  }

  /** A touched stretch has a touch, and without deletions every touch is a commit. */
  lemma {:induction false} TouchesMean<M, D>(log: seq<Entry<M, D>>, session: string, since: nat, upto: nat)
    requires since <= upto <= |log|
    ensures TouchesBetween(log, session, since, upto) > 0 <==> TouchedBetween(log, session, since, upto)
    ensures !DeletedBetween(log, session, since, upto) ==>
        TouchesBetween(log, session, since, upto) == CommitsBetween(log, session, since, upto)
    decreases upto
  {
    if upto > since {
      TouchesMean(log, session, since, upto - 1);
      assert !DeletedBetween(log, session, since, upto) ==> !DeletionOf(log[upto - 1], session);
    }
  }

  // ------------------------------------------------------------ the invariant

  /** The stored document is the history replayed, and every commit was computed
      from exactly the document it replaced. */
  ghost predicate SessionFaithful<M(!new), D(!new)>(apply: (M, D) -> Change<D>, empty: D, w: World<M, D>,
                                                    session: string) {
    && Stored(w.sessions, session, empty).revision == Commits(w.log, session)
    && (Commits(w.log, session) == 0 ==> Stored(w.sessions, session, empty).content == empty)
    && (NoStaleCommit(w.log, session) ==>
        Stored(w.sessions, session, empty).content == Replay(apply, empty, w.log, session))
    && (NoStaleCommit(w.log, session) ==>
          forall k :: 0 <= k < |w.log| && CommitTo(w.log[k], session) ==>
            && w.log[k].before == Replay(apply, empty, w.log[..k], session)
            && apply(w.log[k].mutation, w.log[k].before) == Write(w.log[k].after))
  }

  /** A working client has not committed since it started; each failed attempt is
      matched by a commit of somebody else or a deletion; an untouched snapshot is current. */
  ghost predicate ClientSound<M(!new), D(!new)>(apply: (M, D) -> Change<D>, empty: D, w: World<M, D>, c: nat) {
    var log := w.log;
    match ClientOf(w, c)
    case Preparing(session, _, failed, startedAt) =>
      && startedAt <= |log| && failed < MAX_WRITE_ATTEMPTS && Abstains(log, c, startedAt, |log|)
      && TouchesBetween(log, session, startedAt, |log|) >= failed
    case Loaded(session, mutation, failed, startedAt, loadedAt, snapshot) =>
      && startedAt <= loadedAt <= |log| && failed < MAX_WRITE_ATTEMPTS && Abstains(log, c, startedAt, |log|)
      && TouchesBetween(log, session, startedAt, loadedAt) >= failed
      && snapshot.revision == Commits(log[..loadedAt], session)
      && (snapshot.revision == 0 ==> snapshot.content == empty)
      && (!TouchedBetween(log, session, loadedAt, |log|) ==> Stored(w.sessions, session, empty) == snapshot)
      && apply(mutation, snapshot.content).Write?
    case Conflict(session, startedAt, endedAt) =>
      && startedAt <= endedAt <= |log| && Abstains(log, c, startedAt, endedAt)
      && TouchesBetween(log, session, startedAt, endedAt) >= MAX_WRITE_ATTEMPTS
    case _ => true
  }

  /** None of the commits in this stretch of history is the client's own. */
  predicate Abstains<M, D>(log: seq<Entry<M, D>>, c: nat, since: nat, upto: nat) {
    forall k :: since <= k < upto && k < |log| && log[k].Commit? ==> log[k].client != c
  }

  ghost predicate Invariant<M(!new), D(!new)>(apply: (M, D) -> Change<D>, empty: D, w: World<M, D>) {
    && (forall session :: SessionFaithful(apply, empty, w, session))
    && (forall c :: ClientSound(apply, empty, w, c))
  }

  // ---------------------------------------------------------------- the proof

  /** Extending the history leaves every earlier stretch of it as it was. */
  lemma StretchKept<M, D>(log: seq<Entry<M, D>>, e: Entry<M, D>, session: string, c: nat,
                          since: nat, upto: nat)
    requires upto <= |log|
    ensures DeletedBetween(log + [e], session, since, upto) <==> DeletedBetween(log, session, since, upto)
    ensures TouchedBetween(log + [e], session, since, upto) <==> TouchedBetween(log, session, since, upto)
    ensures CommitsBetween(log + [e], session, since, upto) == CommitsBetween(log, session, since, upto)
    ensures TouchesBetween(log + [e], session, since, upto) == TouchesBetween(log, session, since, upto)
    ensures Abstains(log + [e], c, since, upto) <==> Abstains(log, c, since, upto)
    ensures (log + [e])[..upto] == log[..upto]
  {
    CommitsBetweenPrefix(log, [e], session, since, upto);
    TouchesBetweenPrefix(log, [e], session, since, upto);
    var longer := log + [e];
    if DeletedBetween(log, session, since, upto) {
      var k :| since <= k < upto && k < |log| && DeletionOf(log[k], session);
      assert DeletionOf(longer[k], session);
    }
    if TouchedBetween(log, session, since, upto) {
      var k :| since <= k < upto && k < |log| && log[k].session == session;
      assert longer[k].session == session;
    }
    if Abstains(longer, c, since, upto) {
      forall k | since <= k < upto && k < |log| && log[k].Commit?
        ensures log[k].client != c
      {
        assert longer[k] == log[k];
      }
    }
  }

  /** What one more entry adds at the end of the history. */
  lemma StretchExtended<M, D>(log: seq<Entry<M, D>>, e: Entry<M, D>, session: string, c: nat, since: nat)
    requires since <= |log|
    ensures var n := |log|;
            && (DeletedBetween(log + [e], session, since, n + 1) <==>
                DeletedBetween(log, session, since, n) || DeletionOf(e, session))
            && (TouchedBetween(log + [e], session, since, n + 1) <==>
                TouchedBetween(log, session, since, n) || e.session == session)
            && CommitsBetween(log + [e], session, since, n + 1) == CommitsBetween(log, session, since, n)
                + (if CommitTo(e, session) then 1 else 0)
            && TouchesBetween(log + [e], session, since, n + 1) == TouchesBetween(log, session, since, n)
                + (if e.session == session then 1 else 0)
            && (Abstains(log + [e], c, since, n + 1) <==> Abstains(log, c, since, n) && (e.Commit? ==> e.client != c))
  {
    var n, longer := |log|, log + [e];
    StretchKept(log, e, session, c, since, n);
    assert longer[n] == e;
    if DeletedBetween(log, session, since, n) {
      var k :| since <= k < n && k < |longer| && DeletionOf(longer[k], session);
    }
    if TouchedBetween(log, session, since, n) {
      var k :| since <= k < n && k < |longer| && longer[k].session == session;
    }
    if Abstains(log, c, since, n) && (e.Commit? ==> e.client != c) {
      forall k | since <= k < n + 1 && k < |longer| && longer[k].Commit? ensures longer[k].client != c {
        if k < n { assert longer[k] == log[k]; }
      }
    }
    if Abstains(longer, c, since, n + 1) && e.Commit? { assert longer[n].client != c; }
  }

  lemma FoldExtended<M, D>(apply: (M, D) -> Change<D>, empty: D, log: seq<Entry<M, D>>, e: Entry<M, D>, session: string)
    ensures var longer := log + [e];
            && Commits(longer, session) ==
               (if CommitTo(e, session) then Commits(log, session)
                + 1 else if DeletionOf(e, session) then 0 else Commits(log, session))
            && (NoStaleCommit(longer, session) <==>
                  NoStaleCommit(log, session)
                      && (CommitTo(e, session) && e.expected > 0 ==>
                          !DeletedBetween(log, session, e.loadedAt, |log|)))
            && (!CommitTo(e, session) && !DeletionOf(e, session) ==>
                Replay(apply, empty, longer, session) == Replay(apply, empty, log, session))
            && (DeletionOf(e, session) ==> Replay(apply, empty, longer, session) == empty)
            && (CommitTo(e, session) && apply(e.mutation, Replay(apply, empty, log, session)).Write? ==>
                  Replay(apply, empty, longer, session)
                      == apply(e.mutation, Replay(apply, empty, log, session)).content)
  {
    var longer := log + [e];
    assert longer[..|longer| - 1] == log;
    assert longer[|log|] == e;
    forall k | 0 <= k < |log| && CommitTo(log[k], session)
      ensures DeletedBetween(longer, session, log[k].loadedAt, k) <==> DeletedBetween(log, session, log[k].loadedAt, k)
    {
      StretchKept(log, e, session, 0, log[k].loadedAt, k);
    }
    if CommitTo(e, session) { StretchKept(log, e, session, 0, e.loadedAt, |log|); }
    if NoStaleCommit(longer, session) {
      forall k | 0 <= k < |log| && CommitTo(log[k], session) ensures !IsStale(log, session, k) {
        assert CommitTo(longer[k], session) && !IsStale(longer, session, k);
      }
      if CommitTo(e, session) { assert CommitTo(longer[|log|], session) && !IsStale(longer, session, |log|); }
    }
  }

  /** A successful compare-and-swap replaced exactly the document it was computed
      from, unless that was a stored one and the session was deleted since the load. */
  lemma SwapIsFresh<M(!new), D(!new)>(apply: (M, D) -> Change<D>, empty: D, w: World<M, D>, c: nat)
    requires Invariant(apply, empty, w) && ClientOf(w, c).Loaded?
    ensures var l := ClientOf(w, c);
            var current := Stored(w.sessions, l.session, empty);
            && (!DeletedBetween(w.log, l.session, l.loadedAt, |w.log|) ==>
                (current.revision == l.snapshot.revision <==>
                 CommitsBetween(w.log, l.session, l.loadedAt, |w.log|) == 0))
            && (!DeletedBetween(w.log, l.session, l.loadedAt, |w.log|) || l.snapshot.revision == 0 ==>
                (current.revision == l.snapshot.revision <==> current == l.snapshot))
  {
    var l := ClientOf(w, c);
    assert SessionFaithful(apply, empty, w, l.session) && ClientSound(apply, empty, w, c);
    if !DeletedBetween(w.log, l.session, l.loadedAt, |w.log|) {
      CommitsGrow(w.log, l.session, l.loadedAt, |w.log|);
      NoCommitsUntouched(w.log, l.session, l.loadedAt, |w.log|);
      assert w.log[..|w.log|] == w.log;
    }
  }

  lemma CommitStaysFaithful<M(!new), D(!new)>(apply: (M, D) -> Change<D>, empty: D, w: World<M, D>,
      c: nat, session: string)
    requires Invariant(apply, empty, w)
    ensures SessionFaithful(apply, empty, Next(apply, empty, w, Replace(c)), session)
  {
    hide ClientSound, DeletedBetween, TouchedBetween, CommitsBetween, TouchesBetween, Commits, Replay, Abstains;
    var w' := Next(apply, empty, w, Replace(c));
    assert SessionFaithful(apply, empty, w, session);
    if w'.log != w.log {
      var l := ClientOf(w, c);
      var e := w'.log[|w.log|];
      assert w'.log == w.log + [e];
      SwapIsFresh(apply, empty, w, c);
      FoldExtended(apply, empty, w.log, e, session);
      assert w'.log[..|w.log|] == w.log;
      forall k | 0 <= k < |w.log| ensures w'.log[..k] == w.log[..k] && w'.log[k] == w.log[k] {}
    }
  }

  lemma DeleteStaysFaithful<M(!new), D(!new)>(apply: (M, D) -> Change<D>, empty: D, w: World<M, D>,
      gone: string, session: string)
    requires Invariant(apply, empty, w)
    ensures SessionFaithful(apply, empty, Next(apply, empty, w, Delete(gone)), session)
  {
    hide ClientSound, DeletedBetween, TouchedBetween, CommitsBetween, TouchesBetween, Commits, Replay, Abstains;
    var w' := Next(apply, empty, w, Delete(gone));
    assert SessionFaithful(apply, empty, w, session);
    FoldExtended(apply, empty, w.log, Deleted(gone), session);
    forall k | 0 <= k < |w.log| ensures w'.log[..k] == w.log[..k] && w'.log[k] == w.log[k] {}
  }

  /** An appended entry keeps what is known of every client it does not belong to. */
  lemma ClientKept<M(!new), D(!new)>(apply: (M, D) -> Change<D>, empty: D, w: World<M, D>,
                                     w': World<M, D>, e: Entry<M, D>, c: nat)
    requires ClientSound(apply, empty, w, c) && w'.log == w.log + [e] && ClientOf(w', c) == ClientOf(w, c)
    requires e.Commit? ==> e.client != c
    requires forall session :: session != e.session ==>
        Stored(w'.sessions, session, empty) == Stored(w.sessions, session, empty)
    ensures ClientSound(apply, empty, w', c)
  {
    match ClientOf(w, c)
    case Preparing(session, _, failed, startedAt) =>
      StretchExtended(w.log, e, session, c, startedAt);
    case Loaded(session, mutation, failed, startedAt, loadedAt, snapshot) =>
      StretchExtended(w.log, e, session, c, startedAt);
      StretchExtended(w.log, e, session, c, loadedAt);
      StretchKept(w.log, e, session, c, startedAt, loadedAt);
    case Conflict(session, startedAt, endedAt) =>
      StretchKept(w.log, e, session, c, startedAt, endedAt);
    case _ =>
  }

  /** A failed attempt is paid for by a foreign commit or a deletion since the load. */
  lemma FailureIsCharged<M(!new), D(!new)>(apply: (M, D) -> Change<D>, empty: D, w: World<M, D>, c: nat)
    requires Invariant(apply, empty, w) && ClientOf(w, c).Loaded?
    requires Stored(w.sessions, ClientOf(w, c).session, empty).revision != ClientOf(w, c).snapshot.revision
    ensures ClientSound(apply, empty, Next(apply, empty, w, Replace(c)), c)
  {
    assert ClientSound(apply, empty, w, c);
    var l, n := ClientOf(w, c), |w.log|;
    TouchesMean(w.log, l.session, l.loadedAt, n);
    TouchesBetweenAdds(w.log, l.session, l.startedAt, l.loadedAt, n);
  }

  lemma LoadIsSound<M(!new), D(!new)>(apply: (M, D) -> Change<D>, empty: D, w: World<M, D>, c: nat)
    requires Invariant(apply, empty, w)
    ensures ClientSound(apply, empty, Next(apply, empty, w, Load(c)), c)
  {
    assert ClientSound(apply, empty, w, c);
    if ClientOf(w, c).Preparing? {
      assert SessionFaithful(apply, empty, w, ClientOf(w, c).session);
      assert w.log[..|w.log|] == w.log;
    }
  }

  lemma ClientsStaySound<M(!new), D(!new)>(apply: (M, D) -> Change<D>, empty: D, w: World<M, D>,
      step: Step<M>, c: nat)
    requires Invariant(apply, empty, w)
    ensures ClientSound(apply, empty, Next(apply, empty, w, step), c)
  {
    hide SessionFaithful, DeletedBetween, TouchedBetween, CommitsBetween, TouchesBetween, Commits, Replay;
    var w' := Next(apply, empty, w, step);
    assert ClientSound(apply, empty, w, c);
    match step
    case Begin(actor, _, _) =>
    case Load(actor) => if c == actor { LoadIsSound(apply, empty, w, c); }
    case Replace(actor) =>
      if w'.log != w.log {
        if c != actor { ClientKept(apply, empty, w, w', w'.log[|w.log|], c); }
      } else if c == actor && w' != w {
        FailureIsCharged(apply, empty, w, c);
      }
    case Delete(session) => ClientKept(apply, empty, w, w', Deleted(session), c);
  }

  lemma StepKeepsInvariant<M(!new), D(!new)>(apply: (M, D) -> Change<D>, empty: D, w: World<M, D>,
      step: Step<M>)
    requires Invariant(apply, empty, w)
    ensures Invariant(apply, empty, Next(apply, empty, w, step))
  {
    var w' := Next(apply, empty, w, step);
    forall session ensures SessionFaithful(apply, empty, w', session) {
      assert SessionFaithful(apply, empty, w, session);
      if step.Replace? { CommitStaysFaithful(apply, empty, w, step.client, session); }
      if step.Delete? { DeleteStaysFaithful(apply, empty, w, step.session, session); }
    }
    forall c ensures ClientSound(apply, empty, w', c) { ClientsStaySound(apply, empty, w, step, c); }
  }

  lemma {:induction false} RunKeepsInvariant<M(!new), D(!new)>(apply: (M, D) -> Change<D>, empty: D,
      steps: seq<Step<M>>)
    ensures Invariant(apply, empty, Run(apply, empty, steps))
  {
    if steps != [] {
      RunKeepsInvariant(apply, empty, steps[..|steps| - 1]);
      StepKeepsInvariant(apply, empty, Run(apply, empty, steps[..|steps| - 1]), steps[|steps| - 1]);
    }
  }

  // --------------------------------------------------------------- main results

  predicate Deletes<M>(steps: seq<Step<M>>, session: string) {
    exists k :: 0 <= k < |steps| && steps[k] == Step.Delete(session)
  }

  lemma {:induction false} NothingDeleted<M(!new), D(!new)>(apply: (M, D) -> Change<D>, empty: D, steps: seq<Step<M>>,
                                                            session: string)
    requires !Deletes(steps, session)
    ensures forall k :: 0 <= k < |Run(apply, empty, steps).log| ==>
        !DeletionOf(Run(apply, empty, steps).log[k], session)
  {
    if steps != [] {
      var before, last := steps[..|steps| - 1], steps[|steps| - 1];
      forall k | 0 <= k < |before| ensures before[k] != Step.Delete(session) { assert before[k] == steps[k]; }
      NothingDeleted(apply, empty, before, session);
      assert last != Step.Delete(session);
    }
  }

  /** No lost update, deletions included. In every interleaving the revision counts
      the commits since the last deletion; and as long as no document that a commit
      came from was deleted before the commit, the document is the fold of those
      commits and each of them was computed from exactly the document it replaced. */
  lemma {:induction false} FreshCommitsAreNotLost<M(!new), D(!new)>(apply: (M, D) -> Change<D>, empty: D,
      steps: seq<Step<M>>, session: string)
    ensures var w := Run(apply, empty, steps);
            && Stored(w.sessions, session, empty).revision == Commits(w.log, session)
            && (NoStaleCommit(w.log, session) ==>
                  && Stored(w.sessions, session, empty).content == Replay(apply, empty, w.log, session)
                  && forall k :: 0 <= k < |w.log| && CommitTo(w.log[k], session) ==>
                      IsFaithful(apply, empty, w.log, session, k))
  {
    hide Commits, Replay, NoStaleCommit, Run;
    var w := Run(apply, empty, steps);
    RunKeepsInvariant(apply, empty, steps);
    assert SessionFaithful(apply, empty, w, session);
    if NoStaleCommit(w.log, session) {
      forall k | 0 <= k < |w.log| && CommitTo(w.log[k], session) ensures IsFaithful(apply, empty, w.log, session, k) {
        ReplayCommit(apply, empty, w.log, session, k);
      }
    }
  }

  /** Commit `k` was computed from the document it replaced, and is what it left. */
  predicate IsFaithful<M, D(==)>(apply: (M, D) -> Change<D>, empty: D, log: seq<Entry<M, D>>, session: string, k: nat)
    requires k < |log| && CommitTo(log[k], session)
  {
    && log[k].before == Replay(apply, empty, log[..k], session)
    && apply(log[k].mutation, log[k].before) == Write(log[k].after)
    && log[k].after == Replay(apply, empty, log[..k + 1], session)
  }

  lemma ReplayCommit<M, D>(apply: (M, D) -> Change<D>, empty: D, log: seq<Entry<M, D>>, session: string, k: nat)
    requires k < |log| && CommitTo(log[k], session)
    requires log[k].before == Replay(apply, empty, log[..k], session)
    requires apply(log[k].mutation, log[k].before) == Write(log[k].after)
    ensures log[k].after == Replay(apply, empty, log[..k + 1], session)
  {
    assert log[..k + 1][..k] == log[..k];
  }

  /** In particular, in every interleaving that does not delete the session, its
      document is the fold of the commits in commit order and its revision is their
      number. */
  lemma NoLostUpdate<M(!new), D(!new)>(apply: (M, D) -> Change<D>, empty: D, steps: seq<Step<M>>,
                                       session: string)
    requires !Deletes(steps, session)
    ensures var w := Run(apply, empty, steps);
            && Stored(w.sessions, session, empty)
               == Document(CommitsBetween(w.log, session, 0, |w.log|), Replay(apply, empty, w.log, session))
            && forall k :: 0 <= k < |w.log| && CommitTo(w.log[k], session) ==>
                IsFaithful(apply, empty, w.log, session, k)
  {
    hide Replay, Run;
    var w := Run(apply, empty, steps);
    FreshCommitsAreNotLost(apply, empty, steps, session);
    NothingDeleted(apply, empty, steps, session);
    CommitsGrow(w.log, session, 0, |w.log|);
    assert w.log[..|w.log|] == w.log && w.log[..0] == [];
  }

  /** Somebody committed since `since` what is still in the document. */
  predicate HasNewer<M, D>(log: seq<Entry<M, D>>, session: string, since: nat) {
    exists k :: since <= k < |log| && CommitTo(log[k], session) && !DeletedBetween(log, session, k, |log|)
  }

  /** There are commits since the last deletion exactly when one of them is the first. */
  lemma {:induction false} CommitsMean<M, D>(log: seq<Entry<M, D>>, session: string)
    ensures Commits(log, session) > 0 <==> HasNewer(log, session, 0)
  {
    if log != [] {
      var n := |log| - 1;
      var before, e := log[..n], log[n];
      CommitsMean(before, session);
      assert log == before + [e];
      forall k: nat | k <= n
        ensures DeletedBetween(log, session, k, |log|) <==>
            DeletedBetween(before, session, k, n) || DeletionOf(e, session)
      {
        StretchExtended(before, e, session, 0, k);
      }
      if HasNewer(before, session, 0) && !DeletionOf(e, session) {
        var k :| 0 <= k < n && CommitTo(before[k], session) && !DeletedBetween(before, session, k, n);
        assert CommitTo(log[k], session) && !DeletedBetween(log, session, k, |log|);
      }
      if CommitTo(e, session) { assert CommitTo(log[n], session) && !DeletedBetween(log, session, n, |log|); }
      if HasNewer(log, session, 0) && !CommitTo(e, session) {
        var k :| 0 <= k < |log| && CommitTo(log[k], session) && !DeletedBetween(log, session, k, |log|);
        assert k < n && CommitTo(before[k], session) && !DeletedBetween(before, session, k, n);
      }
    }
  }

  /** Exactly when a compare-and-swap succeeds although its snapshot is not current:
      in every interleaving, a loaded client's revision matches again after the session
      was touched if and only if the session was deleted since the load and has had as
      many commits since as the snapshot had; and it overwrites a commit it never saw
      if and only if, besides, that number is not 0. */
  lemma StaleSwapExactly<M(!new), D(!new)>(apply: (M, D) -> Change<D>, empty: D, steps: seq<Step<M>>, c: nat)
    requires ClientOf(Run(apply, empty, steps), c).Loaded?
    ensures var w := Run(apply, empty, steps);
            var l := ClientOf(w, c);
            var matches := Stored(w.sessions, l.session, empty).revision == l.snapshot.revision;
            var outrun := DeletedBetween(w.log, l.session, l.loadedAt, |w.log|)
                          && Commits(w.log, l.session) == l.snapshot.revision;
            && (matches && TouchedBetween(w.log, l.session, l.loadedAt, |w.log|) <==> outrun)
            && (matches && HasNewer(w.log, l.session, l.loadedAt) <==> outrun && l.snapshot.revision > 0)
  {
    hide Commits, Run;
    var w := Run(apply, empty, steps);
    var l := ClientOf(w, c);
    RunKeepsInvariant(apply, empty, steps);
    assert SessionFaithful(apply, empty, w, l.session) && ClientSound(apply, empty, w, c);
    SwapIsFresh(apply, empty, w, c);
    NewerMeans(w.log, l.session, l.loadedAt);
  }

  /** After a deletion, what is newer than the load is what is newer than the deletion. */
  lemma NewerMeans<M, D>(log: seq<Entry<M, D>>, session: string, since: nat)
    requires since <= |log|
    ensures DeletedBetween(log, session, since, |log|) ==>
        (HasNewer(log, session, since) <==> Commits(log, session) > 0) && TouchedBetween(log, session, since, |log|)
    ensures !DeletedBetween(log, session, since, |log|) ==>
        (HasNewer(log, session, since) <==> CommitsBetween(log, session, since, |log|) > 0)
        && (TouchedBetween(log, session, since, |log|) <==> CommitsBetween(log, session, since, |log|) > 0)
  {
    CommitsMean(log, session);
    if DeletedBetween(log, session, since, |log|) {
      var d :| since <= d < |log| && DeletionOf(log[d], session);
      forall k | 0 <= k < |log| && CommitTo(log[k], session) && !DeletedBetween(log, session, k, |log|)
        ensures k > d
      {
      }
    } else {
      NoCommitsUntouched(log, session, since, |log|);
      if TouchedBetween(log, session, since, |log|) {
        var k :| since <= k < |log| && log[k].session == session;
        assert CommitTo(log[k], session) && !DeletedBetween(log, session, k, |log|);
      }
    }
  }

  /** Stale commits are exactly the harmful ones: in every interleaving, a commit came
      from a document deleted since the load if and only if it overwrote a commit that
      its client never saw. */
  lemma {:induction false} StaleMeansOverwriting<M(!new), D(!new)>(apply: (M, D) -> Change<D>, empty: D,
      steps: seq<Step<M>>, session: string, k: nat)
    requires k < |Run(apply, empty, steps).log| && CommitTo(Run(apply, empty, steps).log[k], session)
    ensures var log := Run(apply, empty, steps).log;
            log[k].loadedAt <= k && (IsStale(log, session, k) <==> HasNewer(log[..k], session, log[k].loadedAt))
  {
    hide Commits;
    var before, step := steps[..|steps| - 1], steps[|steps| - 1];
    var w, log := Run(apply, empty, before), Run(apply, empty, steps).log;
    if log != w.log { assert log == w.log + [log[|w.log|]]; }
    if k < |w.log| {
      StaleMeansOverwriting(apply, empty, before, session, k);
      if log != w.log { StretchKept(w.log, log[|w.log|], session, 0, w.log[k].loadedAt, k); }
    } else {
      StaleSwapExactly(apply, empty, before, step.client);
      RunKeepsInvariant(apply, empty, before);
      assert ClientSound(apply, empty, w, step.client);
      assert log[..k] == w.log;
      StretchKept(w.log, log[k], session, 0, log[k].loadedAt, k);
    }
  }

  /** A conflict error means at least five commits by others or deletions of the session
      during the call, and at least five commits by others if it was not deleted. */
  lemma ConflictIsCharged<M(!new), D(!new)>(apply: (M, D) -> Change<D>, empty: D, steps: seq<Step<M>>, c: nat)
    requires ClientOf(Run(apply, empty, steps), c).Conflict?
    ensures var w := Run(apply, empty, steps);
            var who := ClientOf(w, c);
            && who.startedAt <= who.endedAt <= |w.log|
            && TouchesBetween(w.log, who.session, who.startedAt, who.endedAt) >= 5
            && (!DeletedBetween(w.log, who.session, who.startedAt, who.endedAt) ==>
                CommitsBetween(w.log, who.session, who.startedAt, who.endedAt) >= 5)
            && Abstains(w.log, c, who.startedAt, who.endedAt)
  {
    hide Run;
    var w := Run(apply, empty, steps);
    RunKeepsInvariant(apply, empty, steps);
    assert ClientSound(apply, empty, w, c);
    TouchesMean(w.log, ClientOf(w, c).session, ClientOf(w, c).startedAt, ClientOf(w, c).endedAt);
  }

  /** A call that nobody interferes with goes through: the change is committed on the
      document as it is, or, when it writes nothing, nothing happens to the document. */
  lemma UncontendedCall<M(!new), D(!new)>(apply: (M, D) -> Change<D>, empty: D, steps: seq<Step<M>>, c: nat,
                                          session: string, mutation: M)
    requires ClientOf(Run(apply, empty, steps), c).Idle? || ClientOf(Run(apply, empty, steps), c).Done?
             || ClientOf(Run(apply, empty, steps), c).Conflict?
    ensures var before := Run(apply, empty, steps);
            var after := Run(apply, empty, steps + [Begin(c, session, mutation), Load(c), Replace(c)]);
            var was := Stored(before.sessions, session, empty);
            match apply(mutation, was.content)
            case Write(content) =>
              && ClientOf(after, c) == Done(true)
              && after.sessions == before.sessions[session := Document(was.revision + 1, content)]
              && |after.log| == |before.log| + 1 && after.log[..|before.log|] == before.log
              && var e := after.log[|before.log|];
                 CommitTo(e, session) && e.client == c && e.mutation == mutation && e.after == content
            case _ => ClientOf(after, c) == Done(false) && after.sessions == before.sessions && after.log == before.log
  {
    var begin, load, replace := Begin(c, session, mutation), Step<M>.Load(c), Step<M>.Replace(c);
    hide Next, Run, Stored;
    RunNext(apply, empty, steps, begin);
    RunNext(apply, empty, steps + [begin], load);
    RunNext(apply, empty, steps + [begin] + [load], replace);
    assert steps + [begin] + [load] + [replace] == steps + [begin, load, replace];
    UncontendedSteps(apply, empty, Run(apply, empty, steps), c, session, mutation);
  }

  lemma RunNext<M, D>(apply: (M, D) -> Change<D>, empty: D, steps: seq<Step<M>>, step: Step<M>)
    ensures Run(apply, empty, steps + [step]) == Next(apply, empty, Run(apply, empty, steps), step)
  {
    hide Next;
    assert (steps + [step])[..|steps|] == steps;
  }

  lemma UncontendedSteps<M, D>(apply: (M, D) -> Change<D>, empty: D, w: World<M, D>, c: nat, session: string,
                               mutation: M)
    requires ClientOf(w, c).Idle? || ClientOf(w, c).Done? || ClientOf(w, c).Conflict?
    ensures var loaded := Next(apply, empty, Next(apply, empty, w, Begin(c, session, mutation)), Load(c));
            var after := Next(apply, empty, loaded, Replace(c));
            var was := Stored(w.sessions, session, empty);
            match apply(mutation, was.content)
            case Write(content) =>
              && ClientOf(after, c) == Done(true)
              && after.sessions == w.sessions[session := Document(was.revision + 1, content)]
              && after.log == w.log + [Commit(c, session, mutation, |w.log|, was.revision, was.content, content)]
            case _ => ClientOf(after, c) == Done(false) && after.sessions == w.sessions && after.log == w.log
  {
  }
}
