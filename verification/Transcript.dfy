/** Transcript ingestion into the live chunk list of a session, and window reads. */
module Transcript {
  import opened Common
  import opened Intervals

  datatype Chunk = Chunk(id: string, session: string, start: int, end: int, text: string, isFinal: bool, revision: nat)

  predicate UniqueIds(chunks: seq<Chunk>) {
    forall i, j :: 0 <= i < j < |chunks| ==> chunks[i].id != chunks[j].id
  }

  /** The timeline revision: the highest revision of any stored chunk. */
  function Revision(chunks: seq<Chunk>): (r: nat)
    ensures forall c :: c in chunks ==> c.revision <= r
    ensures chunks != [] ==> exists c :: c in chunks && c.revision == r
    ensures chunks == [] ==> r == 0
  {
    if chunks == [] then 0
    else
      var rest := Revision(chunks[1..]);
      assert chunks == [chunks[0]] + chunks[1..];
      if chunks[0].revision > rest || |chunks| == 1 then chunks[0].revision else rest
  }

  // --------------------------------------------------------------- ingestion

  /** `list.remove(x)`: drop the first element equal to `x`. */
  function RemoveFirst(chunks: seq<Chunk>, x: Chunk): seq<Chunk> {
    if chunks == [] then [] else if chunks[0] == x then chunks[1..] else [chunks[0]] + RemoveFirst(chunks[1..], x)
  }

  /** The reference effect of accepting one chunk: it replaces the stored chunk of
      that id, if any, and moves to the end of the list. */
  function Accept(chunks: seq<Chunk>, c: Chunk): seq<Chunk> {
    Others(chunks, c.id) + [c]
  }

  function Others(chunks: seq<Chunk>, id: string): seq<Chunk> {
    if chunks == [] then [] else (if chunks[0].id != id then [chunks[0]] else []) + Others(chunks[1..], id)
  }

  function Applied(chunks: seq<Chunk>, batch: seq<Chunk>): seq<Chunk> {
    if batch == [] then chunks else Accept(Applied(chunks, batch[..|batch| - 1]), batch[|batch| - 1])
  }

  predicate HasId(chunks: seq<Chunk>, id: string) { exists c :: c in chunks && c.id == id }

  /** No id disappears; a stored chunk changes only under a higher revision. */
  predicate Evolves(before: seq<Chunk>, after: seq<Chunk>) {
    forall c :: c in before ==> c in after || exists d :: d in after && d.id == c.id && d.revision > c.revision
  }

  lemma {:induction false} OthersMembers(chunks: seq<Chunk>, id: string)
    ensures forall c :: c in Others(chunks, id) <==> c in chunks && c.id != id
  {
    if chunks != [] {
      OthersMembers(chunks[1..], id);
      assert chunks == [chunks[0]] + chunks[1..];
    }
  }

  /** Unique ids: the head's id does not occur in the rest. */
  lemma UniqueHead(chunks: seq<Chunk>)
    requires UniqueIds(chunks) && chunks != []
    ensures UniqueIds(chunks[1..]) && forall c :: c in chunks[1..] ==> c.id != chunks[0].id
  {
    forall c | c in chunks[1..] ensures c.id != chunks[0].id {
      var k :| 0 <= k < |chunks[1..]| && chunks[1..][k] == c;
      assert chunks[0].id != chunks[k + 1].id;
    }
  }

  lemma {:induction false} OthersUnique(chunks: seq<Chunk>, id: string)
    requires UniqueIds(chunks)
    ensures UniqueIds(Others(chunks, id))
    ensures |Others(chunks, id)| == |chunks| - (if HasId(chunks, id) then 1 else 0)
  {
    if chunks != [] {
      var rest := chunks[1..];
      UniqueHead(chunks);
      OthersUnique(rest, id);
      OthersMembers(rest, id);
      assert chunks == [chunks[0]] + rest;
      if chunks[0].id != id {
        assert HasId(chunks, id) <==> HasId(rest, id);
      } else {
        assert chunks[0] in chunks && !HasId(rest, id);
      }
    }
  }

  lemma {:induction false} OthersAbsent(chunks: seq<Chunk>, id: string)
    requires !HasId(chunks, id)
    ensures Others(chunks, id) == chunks
  {
    if chunks != [] {
      assert chunks == [chunks[0]] + chunks[1..] && chunks[0] in chunks;
      OthersAbsent(chunks[1..], id);
    }
  }

  lemma {:induction false} RemoveIsOthers(chunks: seq<Chunk>, x: Chunk)
    requires UniqueIds(chunks) && x in chunks
    ensures RemoveFirst(chunks, x) == Others(chunks, x.id)
  {
    UniqueHead(chunks);
    assert chunks == [chunks[0]] + chunks[1..];
    if chunks[0] == x { OthersAbsent(chunks[1..], x.id); } else { RemoveIsOthers(chunks[1..], x); }
  }

  lemma AcceptEvolves(chunks: seq<Chunk>, c: Chunk)
    requires UniqueIds(chunks)
    requires forall prior :: prior in chunks && prior.id == c.id ==> c.revision > prior.revision
    ensures UniqueIds(Accept(chunks, c)) && Evolves(chunks, Accept(chunks, c))
    ensures Revision(chunks) <= Revision(Accept(chunks, c))
    ensures |Accept(chunks, c)| == |chunks| + 1 - (if HasId(chunks, c.id) then 1 else 0)
  {
    OthersMembers(chunks, c.id);
    OthersUnique(chunks, c.id);
    var after := Accept(chunks, c);
    forall j | 0 <= j < |after| - 1 ensures after[j].id != c.id { assert after[j] in Others(chunks, c.id); }
    assert after[|after| - 1] == c;
    forall x | x in chunks ensures x in after || exists d :: d in after && d.id == x.id && d.revision > x.revision {
      if x.id != c.id { assert x in Others(chunks, c.id); } else { assert c in after; }
    }
    if chunks != [] {
      var top :| top in chunks && top.revision == Revision(chunks);
      assert top in after || exists d :: d in after && d.id == top.id && d.revision > top.revision;
    }
  }

  lemma EvolvesTransitive(a: seq<Chunk>, b: seq<Chunk>, c: seq<Chunk>)
    requires Evolves(a, b) && Evolves(b, c)
    ensures Evolves(a, c)
  {
    forall x | x in a ensures x in c || exists d :: d in c && d.id == x.id && d.revision > x.revision {
      if x !in b {
        var y :| y in b && y.id == x.id && y.revision > x.revision;
        assert y in c || exists d :: d in c && d.id == y.id && d.revision > y.revision;
      }
    }
  }

  /** The ids present after accepting a chunk. */
  lemma AcceptIds(chunks: seq<Chunk>, c: Chunk)
    ensures forall id :: HasId(Accept(chunks, c), id) <==> HasId(chunks, id) || id == c.id
  {
    OthersMembers(chunks, c.id);
    forall id ensures HasId(Accept(chunks, c), id) <==> HasId(chunks, id) || id == c.id {
      if HasId(chunks, id) && id != c.id {
        var x :| x in chunks && x.id == id;
        assert x in Others(chunks, c.id);
      }
      assert c in Accept(chunks, c);
    }
  }

  datatype Error = Forbidden | LectureMismatch | BatchTooLarge | SessionMismatch | TextTooLong | DuplicateInBatch
    | StaleRevision

  lemma SameId(chunks: seq<Chunk>, a: Chunk, b: Chunk)
    requires UniqueIds(chunks) && a in chunks && b in chunks && a.id == b.id
    ensures a == b
  {
  }

  datatype Receipt = Receipt(accepted: seq<string>, superseded: seq<string>, revision: nat)

  datatype Limits = Limits(maxBatchChunks: nat, maxTextChars: nat)

  function Ids(chunks: seq<Chunk>): seq<string> {
    if chunks == [] then [] else [chunks[0].id] + Ids(chunks[1..])
  }

  /** Why chunk `n` of a batch is rejected, given the list the chunks before it left. */
  ghost function Fault(limits: Limits, session: string, stored: seq<Chunk>, batch: seq<Chunk>, n: nat): Option<Error>
    requires n < |batch|
  {
    var c := batch[n];
    if c.session != session then Some(SessionMismatch)
    else if |c.text| > limits.maxTextChars then Some(TextTooLong)
    else if HasId(batch[..n], c.id) then Some(DuplicateInBatch)
    else if exists prior :: prior in stored && prior.id == c.id && c.revision <= prior.revision then Some(StaleRevision)
    else None
  }

  /** The first `n` chunks of the batch have been accepted into `list`. */
  ghost predicate Reached(limits: Limits, session: string, before: seq<Chunk>, batch: seq<Chunk>, n: nat,
                          list: seq<Chunk>) {
    && n <= |batch| && list == Applied(before, batch[..n])
    && UniqueIds(list) && Evolves(before, list) && Revision(before) <= Revision(list)
    && (forall k :: 0 <= k < n ==> Fault(limits, session, Applied(before, batch[..k]), batch, k).None?)
    && (forall id :: HasId(list, id) <==> HasId(before, id) || HasId(batch[..n], id))
  }

  ghost predicate Indexed(list: seq<Chunk>, byId: map<string, Chunk>) {
    && (forall id :: id in byId <==> HasId(list, id))
    && (forall id :: id in byId ==> byId[id] in list && byId[id].id == id)
  }

  /** `{chunk.chunk_id: chunk for chunk in chunks}`. */
  function ById(chunks: seq<Chunk>): map<string, Chunk> {
    if chunks == [] then map[] else ById(chunks[..|chunks| - 1])[chunks[|chunks| - 1].id := chunks[|chunks| - 1]]
  }

  lemma {:induction false} ByIdFinds(chunks: seq<Chunk>)
    ensures Indexed(chunks, ById(chunks))
  {
    if chunks != [] {
      ByIdFinds(chunks[..|chunks| - 1]);
      assert chunks == chunks[..|chunks| - 1] + [chunks[|chunks| - 1]];
    }
  }

  /** What the receipt says so far. */
  ghost predicate Counted(before: seq<Chunk>, list: seq<Chunk>, prefix: seq<Chunk>, accepted: seq<string>,
                          superseded: seq<string>) {
    && accepted == Ids(prefix) && |list| == |before| + |prefix| - |superseded|
    && (forall id :: id in superseded <==> HasId(before, id) && HasId(prefix, id))
  }

  lemma HasIdAppend(chunks: seq<Chunk>, c: Chunk)
    ensures forall id :: HasId(chunks + [c], id) <==> HasId(chunks, id) || id == c.id
  {
    forall id ensures HasId(chunks + [c], id) <==> HasId(chunks, id) || id == c.id {
      assert c in chunks + [c];
    }
  }

  lemma FaultFree(limits: Limits, session: string, before: seq<Chunk>, batch: seq<Chunk>, n: nat, list: seq<Chunk>,
                  byId: map<string, Chunk>)
    requires Reached(limits, session, before, batch, n, list) && Indexed(list, byId) && n < |batch|
    ensures var c := batch[n];
            Fault(limits, session, list, batch, n) ==
            if c.session != session then Some(SessionMismatch)
            else if |c.text| > limits.maxTextChars then Some(TextTooLong)
            else if HasId(batch[..n], c.id) then Some(DuplicateInBatch)
            else if c.id in byId && c.revision <= byId[c.id].revision then Some(StaleRevision)
            else None
  {
    var c := batch[n];
    if exists prior :: prior in list && prior.id == c.id && c.revision <= prior.revision {
      var prior :| prior in list && prior.id == c.id && c.revision <= prior.revision;
      SameId(list, prior, byId[c.id]);
    }
  }

  lemma NotStale(limits: Limits, session: string, list: seq<Chunk>, batch: seq<Chunk>, n: nat)
    requires n < |batch| && Fault(limits, session, list, batch, n).None?
    ensures forall prior :: prior in list && prior.id == batch[n].id ==> batch[n].revision > prior.revision
  {
  }

  lemma ReachedNone(limits: Limits, session: string, before: seq<Chunk>, batch: seq<Chunk>)
    requires UniqueIds(before)
    ensures Reached(limits, session, before, batch, 0, before) && Counted(before, before, batch[..0], [], [])
  {
  }

  lemma ReachedNext(limits: Limits, session: string, before: seq<Chunk>, batch: seq<Chunk>, n: nat, list: seq<Chunk>)
    requires Reached(limits, session, before, batch, n, list) && n < |batch|
    requires Fault(limits, session, list, batch, n).None?
    ensures Reached(limits, session, before, batch, n + 1, Accept(list, batch[n]))
  {
    hide Evolves, UniqueIds, Fault, Accept, Revision;
    var c := batch[n];
    assert batch[..n + 1][..n] == batch[..n] && batch[..n + 1] == batch[..n] + [c];
    NotStale(limits, session, list, batch, n);
    AcceptEvolves(list, c);
    EvolvesTransitive(before, list, Accept(list, c));
    AcceptIds(list, c);
    HasIdAppend(batch[..n], c);
  }

  lemma CountedNext(before: seq<Chunk>, list: seq<Chunk>, prefix: seq<Chunk>, accepted: seq<string>,
                    superseded: seq<string>, c: Chunk)
    requires UniqueIds(list) && Counted(before, list, prefix, accepted, superseded) && !HasId(prefix, c.id)
    requires forall id :: HasId(list, id) <==> HasId(before, id) || HasId(prefix, id)
    ensures Counted(before, Accept(list, c), prefix + [c], accepted + [c.id],
                    if HasId(list, c.id) then superseded + [c.id] else superseded)
  {
    OthersUnique(list, c.id);
    HasIdAppend(prefix, c);
    IdsAppend(prefix, c);
  }

  lemma {:induction false} IdsAppend(chunks: seq<Chunk>, c: Chunk)
    ensures Ids(chunks + [c]) == Ids(chunks) + [c.id]
  {
    if chunks != [] { assert (chunks + [c])[1..] == chunks[1..] + [c]; IdsAppend(chunks[1..], c); }
  }

  lemma IndexedNext(list: seq<Chunk>, byId: map<string, Chunk>, c: Chunk)
    requires Indexed(list, byId)
    ensures Indexed(Accept(list, c), byId[c.id := c])
  {
    AcceptIds(list, c);
    OthersMembers(list, c.id);
    assert c in Accept(list, c);
    forall id | id in byId && id != c.id ensures byId[id] in Accept(list, c) { assert byId[id] in Others(list, c.id); }
  }

  /** How many chunks of a batch are accepted: those before the first faulty one. */
  ghost function AcceptedFrom(limits: Limits, session: string, before: seq<Chunk>, batch: seq<Chunk>,
                              n: nat): (accepted: nat)
    requires n <= |batch|
    ensures n <= accepted <= |batch|
    decreases |batch| - n
  {
    if n == |batch| || Fault(limits, session, Applied(before, batch[..n]), batch, n).Some? then n
    else AcceptedFrom(limits, session, before, batch, n + 1)
  }

  ghost function AcceptedCount(limits: Limits, session: string, before: seq<Chunk>, batch: seq<Chunk>): (accepted: nat)
    ensures accepted <= |batch|
  {
    AcceptedFrom(limits, session, before, batch, 0)
  }

  lemma {:induction false} AcceptedIs(limits: Limits, session: string, before: seq<Chunk>, batch: seq<Chunk>,
                                      since: nat, n: nat)
    requires since <= n <= |batch|
    requires forall k :: 0 <= k < n ==> Fault(limits, session, Applied(before, batch[..k]), batch, k).None?
    requires n == |batch| || Fault(limits, session, Applied(before, batch[..n]), batch, n).Some?
    ensures AcceptedFrom(limits, session, before, batch, since) == n
    decreases n - since
  {
    hide Fault, Applied;
    if since < n { AcceptedIs(limits, session, before, batch, since + 1, n); }
  }

  lemma {:induction false} NoFaultBelow(limits: Limits, session: string, before: seq<Chunk>, batch: seq<Chunk>,
                                        since: nat, k: nat)
    requires since <= |batch| && since <= k < AcceptedFrom(limits, session, before, batch, since)
    ensures Fault(limits, session, Applied(before, batch[..k]), batch, k).None?
    decreases k - since
  {
    hide Fault, Applied;
    if since < k { NoFaultBelow(limits, session, before, batch, since + 1, k); }
  }

  lemma AcceptedHasNoFault(limits: Limits, session: string, before: seq<Chunk>, batch: seq<Chunk>, k: nat)
    requires k < AcceptedCount(limits, session, before, batch)
    ensures Fault(limits, session, Applied(before, batch[..k]), batch, k).None?
  {
    hide Fault, Applied;
    NoFaultBelow(limits, session, before, batch, 0, k);
  }

  /** What one ingestion request is about. */
  datatype Ingestion = Ingestion(isCourseProfessor: bool, isLecture: bool, session: string, batch: seq<Chunk>)

  function ChunksOf(chunks: map<string, seq<Chunk>>, session: string): seq<Chunk> {
    if session in chunks then chunks[session] else []
  }

  /** The checks made before any chunk is looked at. */
  function RefusedBefore(limits: Limits, i: Ingestion): Option<Error> {
    if i.isCourseProfessor then Some(Forbidden)
    else if !i.isLecture then Some(LectureMismatch)
    else if |i.batch| > limits.maxBatchChunks then Some(BatchTooLarge)
    else None
  }

  /** The stored chunks after an ingestion: a rejected batch keeps what came before its fault. */
  ghost function IngestedInto(limits: Limits, chunks: map<string, seq<Chunk>>, i: Ingestion): map<string, seq<Chunk>> {
    if RefusedBefore(limits, i).Some? then chunks
    else
      var before := ChunksOf(chunks, i.session);
      chunks[i.session := Applied(before, i.batch[..AcceptedCount(limits, i.session, before, i.batch)])]
  }

  /** Whatever is ingested, the ids of a session's stored chunks stay unique. */
  lemma IngestionKeepsUnique(limits: Limits, chunks: map<string, seq<Chunk>>, i: Ingestion, session: string)
    requires forall s :: UniqueIds(ChunksOf(chunks, s))
    ensures UniqueIds(ChunksOf(IngestedInto(limits, chunks, i), session))
  {
    hide UniqueIds, Applied, AcceptedCount;
    var before := ChunksOf(chunks, i.session);
    AppliedUnique(before, i.batch[..AcceptedCount(limits, i.session, before, i.batch)]);
    assert session != i.session ==> UniqueIds(ChunksOf(chunks, session));
  }

  lemma {:induction false} AppliedUnique(chunks: seq<Chunk>, batch: seq<Chunk>)
    requires UniqueIds(chunks)
    ensures UniqueIds(Applied(chunks, batch))
  {
    if batch != [] {
      var before, c := Applied(chunks, batch[..|batch| - 1]), batch[|batch| - 1];
      AppliedUnique(chunks, batch[..|batch| - 1]);
      OthersUnique(before, c.id);
      OthersMembers(before, c.id);
    }
  }

  /** The answer to an ingestion: its refusal, the fault of its first faulty chunk, or a
      receipt that accounts for every chunk. */
  ghost predicate IngestAnswer(limits: Limits, chunks: map<string, seq<Chunk>>, i: Ingestion,
                               r: Result<Receipt, Error>) {
    var before, after := ChunksOf(chunks, i.session), ChunksOf(IngestedInto(limits, chunks, i), i.session);
    var n := AcceptedCount(limits, i.session, before, i.batch);
    if RefusedBefore(limits, i).Some? then r == Err(RefusedBefore(limits, i).value)
    else if n < |i.batch| then
      && r.Err? && Fault(limits, i.session, after, i.batch, n) == Some(r.error)
    else
      && r.Ok? && Counted(before, after, i.batch, r.value.accepted, r.value.superseded)
      && r.value.revision == Revision(after)
  }

  class TranscriptStore {
    var chunks: map<string, seq<Chunk>>
    const limits: Limits

    constructor (limits: Limits)
      ensures this.limits == limits && chunks == map[]
    {
      this.limits := limits;
      chunks := map[];
    }

    function Of(session: string): seq<Chunk>
      reads this
    {
      ChunksOf(chunks, session)
    }

    /** Remove the prior chunk of this id, if any, and append the new one. */
    method AcceptInto(session: string, c: Chunk, byId: map<string, Chunk>) returns (superseded: seq<string>)
      requires session in chunks && UniqueIds(chunks[session]) && Indexed(chunks[session], byId)
      modifies this`chunks
      ensures chunks == old(chunks)[session := Accept(old(chunks)[session], c)]
      ensures superseded == if HasId(old(chunks)[session], c.id) then [c.id] else []
    {
      superseded := [];
      if c.id in byId {
        RemoveIsOthers(chunks[session], byId[c.id]);
        chunks := chunks[session := RemoveFirst(chunks[session], byId[c.id])];
        superseded := [c.id];
      } else {
        OthersAbsent(chunks[session], c.id);
      }
      chunks := chunks[session := chunks[session] + [c]];
    }

    /** A rejected batch keeps the chunks accepted before the fault: the list is
        updated in place. On every exit ids stay unique, none disappears, and a
        chunk changes only under a higher revision. */
    method IngestBatch(isCourseProfessor: bool, isLecture: bool, session: string, batch: seq<Chunk>)
      returns (r: Result<Receipt, Error>)
      requires UniqueIds(Of(session))
      modifies this`chunks
      ensures chunks == IngestedInto(limits, old(chunks), Ingestion(isCourseProfessor, isLecture, session, batch))
      ensures IngestAnswer(limits, old(chunks), Ingestion(isCourseProfessor, isLecture, session, batch), r)
      ensures forall other :: other != session ==> Of(other) == old(Of(other))
      ensures UniqueIds(Of(session)) && Evolves(old(Of(session)), Of(session))
      ensures Revision(Of(session)) >= Revision(old(Of(session)))
      ensures forall id :: HasId(Of(session), id) ==> HasId(old(Of(session)), id) || HasId(batch, id)
    {
      hide Evolves, UniqueIds, Fault, Accept, Applied, Revision, Indexed, HasId, Counted, AcceptedCount;
      ghost var before := Of(session);
      ReachedNone(limits, session, before, batch);
      if isCourseProfessor { return Err(Forbidden); }
      if !isLecture { return Err(LectureMismatch); }
      if |batch| > limits.maxBatchChunks { return Err(BatchTooLarge); }
      if session !in chunks { chunks := chunks[session := []]; }
      var byId := ById(chunks[session]);
      ByIdFinds(chunks[session]);
      var accepted: seq<string>, superseded: seq<string>, withinBatch: set<string>, n := [], [], {}, 0;
      while n < |batch|
        invariant n <= |batch| && session in chunks && chunks == old(chunks)[session := chunks[session]]
        invariant Reached(limits, session, before, batch, n, chunks[session])
        invariant Indexed(chunks[session], byId)
        invariant Counted(before, chunks[session], batch[..n], accepted, superseded)
        invariant forall id :: id in withinBatch <==> HasId(batch[..n], id)
      {
        var c := batch[n];
        FaultFree(limits, session, before, batch, n, chunks[session], byId);
        PrefixIds(batch, n);
        if Fault(limits, session, chunks[session], batch, n).Some? {
          StopsAt(limits, session, before, batch, n, chunks[session]);
        }
        if c.session != session { return Err(SessionMismatch); }
        if |c.text| > limits.maxTextChars { return Err(TextTooLong); }
        if c.id in withinBatch { return Err(DuplicateInBatch); }
        if c.id in byId && c.revision <= byId[c.id].revision { return Err(StaleRevision); }
        ReachedNext(limits, session, before, batch, n, chunks[session]);
        CountedNext(before, chunks[session], batch[..n], accepted, superseded, c);
        IndexedNext(chunks[session], byId, c);
        HasIdAppend(batch[..n], c);
        assert batch[..n + 1] == batch[..n] + [c];
        var replaced := AcceptInto(session, c, byId);
        assert superseded + [] == superseded;
        superseded := superseded + replaced;
        withinBatch := withinBatch + {c.id};
        byId := byId[c.id := c];
        accepted := accepted + [c.id];
        n := n + 1;
      }
      assert batch[..n] == batch;
      StopsAt(limits, session, before, batch, n, chunks[session]);
      r := Ok(Receipt(accepted, superseded, Revision(chunks[session])));
    }
  }

  lemma PrefixIds(batch: seq<Chunk>, n: nat)
    requires n <= |batch|
    ensures forall id :: HasId(batch[..n], id) ==> HasId(batch, id)
  {
  }

  /** Where the loop stops is where the specification stops. */
  lemma StopsAt(limits: Limits, session: string, before: seq<Chunk>, batch: seq<Chunk>, n: nat, list: seq<Chunk>)
    requires Reached(limits, session, before, batch, n, list)
    requires n == |batch| || Fault(limits, session, list, batch, n).Some?
    ensures AcceptedCount(limits, session, before, batch) == n && list == Applied(before, batch[..n])
  {
    hide Fault, Evolves, UniqueIds, Applied, Revision, HasId;
    AcceptedIs(limits, session, before, batch, 0, n);
  }

  // -------------------------------------------------- exactly what is ingested

  /** Chunk `k` of a batch can be taken: it is for the session, not too long, the first of
      its id in the batch, and newer than what was stored under its id. */
  predicate IsTakeable(limits: Limits, session: string, before: seq<Chunk>, batch: seq<Chunk>, k: nat)
    requires k < |batch|
  {
    && batch[k].session == session && |batch[k].text| <= limits.maxTextChars
    && (forall j :: 0 <= j < k ==> batch[j].id != batch[k].id)
    && (forall prior :: prior in before && prior.id == batch[k].id ==> batch[k].revision > prior.revision)
  }

  /** What is wrong with a chunk that cannot be taken. */
  predicate IsFaulty(limits: Limits, session: string, before: seq<Chunk>, batch: seq<Chunk>, k: nat, e: Error)
    requires k < |batch|
  {
    var isFirst := forall j :: 0 <= j < k ==> batch[j].id != batch[k].id;
    match e
    case SessionMismatch => batch[k].session != session
    case TextTooLong => batch[k].session == session && |batch[k].text| > limits.maxTextChars
    case DuplicateInBatch => batch[k].session == session && |batch[k].text| <= limits.maxTextChars && !isFirst
    case StaleRevision =>
      && batch[k].session == session && |batch[k].text| <= limits.maxTextChars && isFirst
      && exists prior :: prior in before && prior.id == batch[k].id && batch[k].revision <= prior.revision
    case _ => false
  }

  /** The first `n` chunks of the batch were taken, after what they did not replace. */
  ghost predicate AreTaken(before: seq<Chunk>, batch: seq<Chunk>, n: nat, after: seq<Chunk>) {
    n <= |batch| && exists kept ::
      after == kept + batch[..n] && forall c :: c in kept <==> c in before && !HasId(batch[..n], c.id)
  }

  lemma TakeNext(before: seq<Chunk>, batch: seq<Chunk>, n: nat, after: seq<Chunk>)
    requires n < |batch| && AreTaken(before, batch, n, after) && !HasId(batch[..n], batch[n].id)
    ensures AreTaken(before, batch, n + 1, Accept(after, batch[n]))
  {
    hide HasId, Others;
    var c := batch[n];
    var kept :| after == kept + batch[..n] && forall x :: x in kept <==> x in before && !HasId(batch[..n], x.id);
    OthersAppend(kept, batch[..n], c.id);
    OthersAbsent(batch[..n], c.id);
    OthersMembers(kept, c.id);
    assert batch[..n + 1] == batch[..n] + [c];
    HasIdAppend(batch[..n], c);
    assert Accept(after, c) == Others(kept, c.id) + batch[..n + 1];
  }

  lemma {:induction false} OthersAppend(a: seq<Chunk>, b: seq<Chunk>, id: string)
    ensures Others(a + b, id) == Others(a, id) + Others(b, id)
  {
    if a == [] {
      assert a + b == b;
    } else {
      assert (a + b)[1..] == a[1..] + b;
      OthersAppend(a[1..], b, id);
    }
  }

  lemma TakeNothing(before: seq<Chunk>, batch: seq<Chunk>)
    ensures AreTaken(before, batch, 0, before)
  {
    assert before == before + batch[..0];
  }

  /** A chunk's fault, once the ones before it are taken, is a fault against what was
      stored before the batch. */
  lemma FaultExactly(limits: Limits, session: string, before: seq<Chunk>, batch: seq<Chunk>, n: nat, after: seq<Chunk>)
    requires n < |batch| && AreTaken(before, batch, n, after)
    ensures Fault(limits, session, after, batch, n).None? <==> IsTakeable(limits, session, before, batch, n)
    ensures Fault(limits, session, after, batch, n).Some? ==>
              IsFaulty(limits, session, before, batch, n, Fault(limits, session, after, batch, n).value)
  {
    var c := batch[n];
    assert HasId(batch[..n], c.id) <==> exists j :: 0 <= j < n && batch[j].id == c.id by {
      if j :| 0 <= j < n && batch[j].id == c.id { assert batch[..n][j] == batch[j]; }
    }
    if !HasId(batch[..n], c.id) {
      forall prior: Chunk | prior.id == c.id
        ensures prior in after <==> prior in before
      {
        assert prior !in batch[..n];
      }
    }
  }

  lemma {:induction false} TakenExactly(limits: Limits, session: string, before: seq<Chunk>, batch: seq<Chunk>, n: nat)
    requires n <= AcceptedCount(limits, session, before, batch)
    ensures AreTaken(before, batch, n, Applied(before, batch[..n]))
    ensures forall k :: 0 <= k < n ==> IsTakeable(limits, session, before, batch, k)
  {
    hide Fault, AcceptedCount, Accept, IsTakeable;
    if n == 0 {
      TakeNothing(before, batch);
    } else {
      TakenExactly(limits, session, before, batch, n - 1);
      AcceptedHasNoFault(limits, session, before, batch, n - 1);
      FaultExactly(limits, session, before, batch, n - 1, Applied(before, batch[..n - 1]));
      FirstOfItsId(limits, session, before, batch, n - 1);
      assert batch[..n][..n - 1] == batch[..n - 1];
      TakeNext(before, batch, n - 1, Applied(before, batch[..n - 1]));
    }
  }

  lemma FirstOfItsId(limits: Limits, session: string, before: seq<Chunk>, batch: seq<Chunk>, k: nat)
    requires k < |batch| && IsTakeable(limits, session, before, batch, k)
    ensures !HasId(batch[..k], batch[k].id)
  {
  }

  lemma {:induction false} StopsAtFault(limits: Limits, session: string, before: seq<Chunk>, batch: seq<Chunk>,
                                        since: nat)
    requires since <= |batch|
    ensures var n := AcceptedFrom(limits, session, before, batch, since);
            n < |batch| ==> Fault(limits, session, Applied(before, batch[..n]), batch, n).Some?
    decreases |batch| - since
  {
    hide Fault, Applied;
    if since < |batch| && Fault(limits, session, Applied(before, batch[..since]), batch, since).None? {
      StopsAtFault(limits, session, before, batch, since + 1);
    }
  }

  /** An ingestion by anyone but the course professor, into its own lecture and within the
      batch limit, takes the chunks before the first that cannot be taken, and only those;
      it answers what is wrong with that one, or that all of them were taken: their ids in
      order, the ids among them that were stored before, and the greatest revision. */
  lemma IngestExactly(limits: Limits, chunks: map<string, seq<Chunk>>, i: Ingestion, r: Result<Receipt, Error>)
    requires IngestAnswer(limits, chunks, i, r)
    ensures var before, after := ChunksOf(chunks, i.session), ChunksOf(IngestedInto(limits, chunks, i), i.session);
            if i.isCourseProfessor then r == Err(Forbidden) && after == before
            else if !i.isLecture then r == Err(LectureMismatch) && after == before
            else if |i.batch| > limits.maxBatchChunks then r == Err(BatchTooLarge) && after == before
            else
              exists n: nat ::
                && n <= |i.batch| && (forall k :: 0 <= k < n ==> IsTakeable(limits, i.session, before, i.batch, k))
                && AreTaken(before, i.batch, n, after)
                && if n < |i.batch| then r.Err? && IsFaulty(limits, i.session, before, i.batch, n, r.error)
                   else r.Ok? && IsReceipt(before, i.batch, after, r.value)
  {
    hide Fault, Applied, IsTakeable, IsFaulty, AreTaken, AcceptedFrom, Revision;
    if RefusedBefore(limits, i).None? {
      var before := ChunksOf(chunks, i.session);
      var n := AcceptedCount(limits, i.session, before, i.batch);
      TakenExactly(limits, i.session, before, i.batch, n);
      StopsAtFault(limits, i.session, before, i.batch, 0);
      if n < |i.batch| {
        FaultExactly(limits, i.session, before, i.batch, n, Applied(before, i.batch[..n]));
      } else {
        IdsAre(i.batch);
      }
    }
  }

  /** What a receipt for a whole batch says. */
  ghost predicate IsReceipt(before: seq<Chunk>, batch: seq<Chunk>, after: seq<Chunk>, receipt: Receipt) {
    && |receipt.accepted| == |batch| && (forall k :: 0 <= k < |batch| ==> receipt.accepted[k] == batch[k].id)
    && (forall id :: id in receipt.superseded <==> HasId(before, id) && HasId(batch, id))
    && (forall c :: c in after ==> c.revision <= receipt.revision)
    && (if after == [] then receipt.revision == 0 else exists c :: c in after && c.revision == receipt.revision)
  }

  lemma {:induction false} IdsAre(chunks: seq<Chunk>)
    ensures |Ids(chunks)| == |chunks| && forall k :: 0 <= k < |chunks| ==> Ids(chunks)[k] == chunks[k].id
  {
    if chunks != [] { IdsAre(chunks[1..]); }
  }

  // ------------------------------------------------------------ window reads

  predicate KeyLess(a: Chunk, b: Chunk) { a.start < b.start || (a.start == b.start && a.end < b.end) }

  /** Final chunks that overlap the half-open window, in stored order. */
  function Overlapping(chunks: seq<Chunk>, start: int, end: int): seq<Chunk> {
    if chunks == [] then []
    else
      (if chunks[0].isFinal && chunks[0].start < end && start < chunks[0].end then [chunks[0]] else [])
      + Overlapping(chunks[1..], start, end)
  }

  function InsertChunk(x: Chunk, s: seq<Chunk>): seq<Chunk> {
    if s == [] || !KeyLess(s[0], x) then [x] + s else [s[0]] + InsertChunk(x, s[1..])
  }

  function SortChunks(s: seq<Chunk>): seq<Chunk> {
    if s == [] then [] else InsertChunk(s[0], SortChunks(s[1..]))
  }

  function ReadWindow(chunks: seq<Chunk>, start: int, end: int): seq<Chunk> {
    SortChunks(Overlapping(chunks, start, end))
  }

  predicate InOrder(s: seq<Chunk>) { forall i, j :: 0 <= i < j < |s| ==> !KeyLess(s[j], s[i]) }

  function WithKey(s: seq<Chunk>, start: int, end: int): seq<Chunk> {
    if s == [] then []
    else (if s[0].start == start && s[0].end == end then [s[0]] else []) + WithKey(s[1..], start, end)
  }

  lemma {:induction false} InsertChunkSorted(x: Chunk, s: seq<Chunk>)
    requires InOrder(s)
    ensures InOrder(InsertChunk(x, s)) && multiset(InsertChunk(x, s)) == multiset(s) + multiset{x}
  {
    if s == [] || !KeyLess(s[0], x) {
      forall j | 0 <= j < |s| ensures !KeyLess(s[j], x) { assert j == 0 || !KeyLess(s[j], s[0]); }
    } else {
      InsertChunkSorted(x, s[1..]);
      var r := InsertChunk(x, s[1..]);
      assert s == [s[0]] + s[1..];
      forall j | 0 <= j < |r| ensures !KeyLess(r[j], s[0]) {
        assert r[j] in multiset(r);
        assert r[j] in s[1..] || r[j] == x;
      }
    }
  }

  lemma {:induction false} InsertChunkStable(x: Chunk, s: seq<Chunk>, start: int, end: int)
    ensures WithKey(InsertChunk(x, s), start, end) == WithKey([x] + s, start, end)
  {
    assert ([x] + s)[1..] == s;
    if s != [] && KeyLess(s[0], x) {
      var r := InsertChunk(x, s[1..]);
      InsertChunkStable(x, s[1..], start, end);
      assert ([s[0]] + r)[1..] == r && ([x] + s[1..])[1..] == s[1..];
    }
  }

  lemma {:induction false} SortChunksSorted(s: seq<Chunk>)
    ensures InOrder(SortChunks(s)) && multiset(SortChunks(s)) == multiset(s)
    ensures forall start, end :: WithKey(SortChunks(s), start, end) == WithKey(s, start, end)
  {
    if s != [] {
      var rest := SortChunks(s[1..]);
      SortChunksSorted(s[1..]);
      InsertChunkSorted(s[0], rest);
      assert s == [s[0]] + s[1..];
      forall start, end ensures WithKey(SortChunks(s), start, end) == WithKey(s, start, end) {
        InsertChunkStable(s[0], rest, start, end);
        assert ([s[0]] + rest)[1..] == rest;
      }
    }
  }

  lemma {:induction false} OverlappingMembers(chunks: seq<Chunk>, start: int, end: int)
    ensures forall c :: c in Overlapping(chunks, start, end) <==>
        c in chunks && c.isFinal && c.start < end && start < c.end
  {
    if chunks != [] {
      OverlappingMembers(chunks[1..], start, end);
      assert chunks == [chunks[0]] + chunks[1..];
    }
  }

  /** A window read is exactly the final overlapping chunks, by start and end time,
      chunks with equal times keeping their stored order. */
  lemma ReadWindowIsExact(chunks: seq<Chunk>, start: int, end: int)
    ensures var window := ReadWindow(chunks, start, end);
            && InOrder(window) && multiset(window) == multiset(Overlapping(chunks, start, end))
            && (forall c :: c in window <==> c in chunks && c.isFinal && c.start < end && start < c.end)
            && forall s, e :: WithKey(window, s, e) == WithKey(Overlapping(chunks, start, end), s, e)
  {
    var found := Overlapping(chunks, start, end);
    SortChunksSorted(found);
    OverlappingMembers(chunks, start, end);
    forall c ensures c in SortChunks(found) <==> c in found {
      assert c in SortChunks(found) <==> c in multiset(SortChunks(found));
      assert c in found <==> c in multiset(found);
    }
  }

  lemma {:induction false} InsertChunkUnique(x: Chunk, s: seq<Chunk>)
    requires UniqueIds(s) && !HasId(s, x.id)
    ensures UniqueIds(InsertChunk(x, s)) && forall c :: c in InsertChunk(x, s) <==> c == x || c in s
  {
    if s != [] {
      assert s == [s[0]] + s[1..] && s[0] in s;
      UniqueHead(s);
      if KeyLess(s[0], x) {
        InsertChunkUnique(x, s[1..]);
        var r := InsertChunk(x, s[1..]);
        forall j | 0 <= j < |r| ensures r[j].id != s[0].id { assert r[j] in r; }
      } else {
        forall j | 0 <= j < |s| ensures s[j].id != x.id { assert s[j] in s; }
      }
    }
  }

  lemma {:induction false} SortChunksUnique(s: seq<Chunk>)
    requires UniqueIds(s)
    ensures UniqueIds(SortChunks(s)) && forall c :: c in SortChunks(s) <==> c in s
  {
    if s != [] {
      UniqueHead(s);
      assert s == [s[0]] + s[1..];
      SortChunksUnique(s[1..]);
      InsertChunkUnique(s[0], SortChunks(s[1..]));
    }
  }

  lemma {:induction false} OverlappingUnique(chunks: seq<Chunk>, start: int, end: int)
    requires UniqueIds(chunks)
    ensures UniqueIds(Overlapping(chunks, start, end))
  {
    if chunks != [] {
      UniqueHead(chunks);
      OverlappingUnique(chunks[1..], start, end);
      OverlappingMembers(chunks[1..], start, end);
      var rest := Overlapping(chunks[1..], start, end);
      forall j | 0 <= j < |rest| ensures rest[j].id != chunks[0].id { assert rest[j] in rest; }
    }
  }

  /** Window reads keep ids unique. */
  lemma ReadWindowUnique(chunks: seq<Chunk>, start: int, end: int)
    requires UniqueIds(chunks)
    ensures UniqueIds(ReadWindow(chunks, start, end)) && forall c :: c in ReadWindow(chunks, start, end) ==> c in chunks
  {
    OverlappingUnique(chunks, start, end);
    OverlappingMembers(chunks, start, end);
    SortChunksUnique(Overlapping(chunks, start, end));
  }
}
