/** Folder links as the mutation run through the session documents. */
module FolderLinks {
  import opened Common
  import opened SessionDocuments

  const MAX_LINKS := 1000

  datatype FolderLink = FolderLink(actor: string, path: string)

  /** The links of everybody else, in order. */
  function Without(links: seq<FolderLink>, actor: string): seq<FolderLink> {
    if links == [] then []
    else (if links[0].actor != actor then [links[0]] else []) + Without(links[1..], actor)
  }

  /** Replace this actor's selection; refuse when the others already fill the document. */
  function Link(selection: FolderLink, links: seq<FolderLink>): Change<seq<FolderLink>> {
    var others := Without(links, selection.actor);
    if |others| >= MAX_LINKS then Refused else Write(others + [selection])
  }

  predicate OnePerActor(links: seq<FolderLink>) {
    forall i, j :: 0 <= i < j < |links| ==> links[i].actor != links[j].actor
  }

  /** The folder a later request of this actor resolves to. */
  function FolderOf(links: seq<FolderLink>, actor: string): Option<string> {
    if links == [] then None
    else if links[0].actor == actor then Some(links[0].path)
    else FolderOf(links[1..], actor)
  }

  /** The actor's last committed selection since the session was last deleted. */
  function LastSelection<D>(log: seq<Entry<FolderLink, D>>, session: string, actor: string): Option<string> {
    if log == [] then None
    else
      var e := log[|log| - 1];
      if CommitTo(e, session) && e.mutation.actor == actor then Some(e.mutation.path)
      else if DeletionOf(e, session) then None
      else LastSelection(log[..|log| - 1], session, actor)
  }

  lemma {:induction false} WithoutMembers(links: seq<FolderLink>, actor: string)
    ensures forall l :: l in Without(links, actor) <==> l in links && l.actor != actor
    ensures |Without(links, actor)| <= |links|
  {
    if links != [] {
      assert links == [links[0]] + links[1..];
      WithoutMembers(links[1..], actor);
    }
  }

  lemma {:induction false} WithoutCounts(links: seq<FolderLink>, actor: string)
    requires OnePerActor(links)
    ensures |Without(links, actor)|
        == |links| - if exists l :: l in links && l.actor == actor then 1 else 0
  {
    if links != [] {
      var rest := links[1..];
      WithoutCounts(rest, actor);
      assert links == [links[0]] + rest;
      forall l | l in rest ensures l.actor != links[0].actor {
        var k :| 0 <= k < |rest| && rest[k] == l;
        assert links[0].actor != links[k + 1].actor;
      }
    }
  }

  /** A selection is refused exactly when a thousand other actors have linked a folder;
      otherwise the document keeps the others' links and ends with the selection. */
  lemma LinkExactly(selection: FolderLink, links: seq<FolderLink>)
    requires OnePerActor(links)
    ensures var others := |links| - if exists l :: l in links && l.actor == selection.actor then 1 else 0;
            match Link(selection, links)
            case Unchanged => false
            case Refused => others >= 1000
            case Write(content) =>
              && others < 1000 && |content| == others + 1 && content[others] == selection
              && forall l :: l in content[..others] <==> l in links && l.actor != selection.actor
  {
    WithoutCounts(links, selection.actor);
    WithoutMembers(links, selection.actor);
    var others := Without(links, selection.actor);
    assert (others + [selection])[..|others|] == others;
  }

  lemma {:induction false} WithoutIsOnePerActor(links: seq<FolderLink>, selection: FolderLink)
    requires OnePerActor(links)
    ensures OnePerActor(Without(links, selection.actor) + [selection])
  {
    if links != [] {
      var rest := links[1..];
      WithoutIsOnePerActor(rest, selection);
      WithoutMembers(rest, selection.actor);
      var kept := Without(rest, selection.actor) + [selection];
      if links[0].actor != selection.actor {
        assert Without(links, selection.actor) + [selection] == [links[0]] + kept;
        forall j | 0 <= j < |kept| ensures kept[j].actor != links[0].actor {
          if j < |kept| - 1 {
            assert kept[j] in rest;
            var k :| 0 <= k < |rest| && rest[k] == kept[j];
            assert links[0].actor != links[k + 1].actor;
          }
        }
      } else {
        assert Without(links, selection.actor) == Without(rest, selection.actor);
      }
    }
  }

  lemma {:induction false} SelectionIsFound(links: seq<FolderLink>, selection: FolderLink, other: string)
    ensures FolderOf(Without(links, selection.actor) + [selection], other)
            == if other == selection.actor then Some(selection.path) else FolderOf(links, other)
  {
    if links != [] {
      SelectionIsFound(links[1..], selection, other);
      if links[0].actor != selection.actor {
        var kept := Without(links, selection.actor) + [selection];
        assert kept[0] == links[0] && kept[1..] == Without(links[1..], selection.actor) + [selection];
      } else {
        assert Without(links, selection.actor) == Without(links[1..], selection.actor);
      }
    } else {
      assert Without(links, selection.actor) + [selection] == [selection];
    }
  }

  ghost predicate Linked(links: seq<FolderLink>, log: seq<Entry<FolderLink, seq<FolderLink>>>, session: string) {
    && OnePerActor(links) && |links| <= MAX_LINKS
    && forall actor :: FolderOf(links, actor) == LastSelection(log, session, actor)
  }

  lemma {:induction false} ReplayLinks(log: seq<Entry<FolderLink, seq<FolderLink>>>, session: string)
    requires forall k :: 0 <= k < |log| && CommitTo(log[k], session) ==>
        Link(log[k].mutation, Replay(Link, [], log[..k], session)).Write?
    ensures Linked(Replay(Link, [], log, session), log, session)
  {
    if log != [] {
      var n := |log| - 1;
      var before, e := log[..n], log[n];
      forall k | 0 <= k < n ensures before[..k] == log[..k] && before[k] == log[k] {}
      ReplayLinks(before, session);
      if CommitTo(e, session) {
        var links := Replay(Link, [], before, session);
        assert Link(e.mutation, links).Write?;
        forall actor ensures FolderOf(Replay(Link, [], log, session), actor) == LastSelection(log, session, actor) {
          SelectionIsFound(links, e.mutation, actor);
        }
        WithoutIsOnePerActor(links, e.mutation);
      }
    }
  }

  predicate IsTidy(links: seq<FolderLink>) { OnePerActor(links) && |links| <= MAX_LINKS }

  /** Every stored document and every snapshot a client works on is tidy. */
  ghost predicate AllTidy(w: World<FolderLink, seq<FolderLink>>) {
    && (forall session :: session in w.sessions ==> IsTidy(w.sessions[session].content))
    && (forall c :: c in w.clients && w.clients[c].Loaded? ==> IsTidy(w.clients[c].snapshot.content))
  }

  lemma LinkStaysTidy(selection: FolderLink, links: seq<FolderLink>)
    requires IsTidy(links)
    ensures Link(selection, links).Write? ==> IsTidy(Link(selection, links).content)
  {
    WithoutIsOnePerActor(links, selection);
  }

  lemma {:induction false} RunStaysTidy(steps: seq<Step<FolderLink>>)
    ensures AllTidy(Run(Link, [], steps))
  {
    hide IsTidy, Link;
    NoLinks();
    if steps != [] {
      RunStaysTidy(steps[..|steps| - 1]);
      var w, step := Run(Link, [], steps[..|steps| - 1]), steps[|steps| - 1];
      if step.Replace? && ClientOf(w, step.client).Loaded? {
        LinkStaysTidy(ClientOf(w, step.client).mutation, ClientOf(w, step.client).snapshot.content);
      }
    }
  }

  lemma NoLinks()
    ensures IsTidy([])
  {
  }

  /** Whatever the interleaving, deletions included, a document never holds two folders
      of one actor and never more than the capacity; and unless a commit overwrote one
      it never saw, each actor's folder is the one they chose in their last committed
      selection since the session was last deleted. */
  lemma LinksFollowCommits(steps: seq<Step<FolderLink>>, session: string)
    ensures var w := Run(Link, [], steps);
            var links := Stored(w.sessions, session, []).content;
            && OnePerActor(links) && |links| <= MAX_LINKS
            && (NoStaleCommit(w.log, session) ==>
                forall actor :: FolderOf(links, actor) == LastSelection(w.log, session, actor))
  {
    hide Run, LastSelection, FolderOf;
    var w := Run(Link, [], steps);
    RunStaysTidy(steps);
    NoLinks();
    FreshCommitsAreNotLost(Link, [], steps, session);
    if NoStaleCommit(w.log, session) {
      forall k | 0 <= k < |w.log| && CommitTo(w.log[k], session)
        ensures Link(w.log[k].mutation, Replay(Link, [], w.log[..k], session)).Write?
      {
        assert IsFaithful(Link, [], w.log, session, k);
      }
      ReplayLinks(w.log, session);
    }
  }

  const ANA := FolderLink("ana", "/a")
  const BO := FolderLink("bo", "/b")
  const CY := FolderLink("cy", "/c")

  type Links = seq<FolderLink>

  function Play(w: World<FolderLink, Links>, steps: seq<Step<FolderLink>>): World<FolderLink, Links>
    decreases |steps|
  {
    if steps == [] then w else Play(Next(Link, [], w, steps[0]), steps[1..])
  }

  lemma {:induction false} RunIsPlay(before: seq<Step<FolderLink>>, steps: seq<Step<FolderLink>>)
    ensures Run(Link, [], before + steps) == Play(Run(Link, [], before), steps)
    decreases |steps|
  {
    if steps == [] {
      assert before + steps == before;
    } else {
      assert (before + [steps[0]])[..|before|] == before;
      assert before + steps == before + [steps[0]] + steps[1..];
      RunIsPlay(before + [steps[0]], steps[1..]);
    }
  }

  /** One client's uncontended call: begin, load, replace. */
  lemma OneCommit(w: World<FolderLink, Links>, c: nat, chosen: FolderLink)
    requires "s" !in w.sessions && ClientOf(w, c).Idle?
    ensures Play(w, [Begin(c, "s", chosen), Load(c), Replace(c)])
            == World(w.sessions["s" := Document(1, [chosen])], w.clients[c := Done(true)],
                     w.log + [Commit(c, "s", chosen, |w.log|, 0, [], [chosen])])
  {
    var steps := [Begin(c, "s", chosen), Load(c), Replace(c)];
    assert steps[1..] == [Load(c), Replace(c)] && steps[1..][1..] == [Replace(c)] && steps[1..][1..][1..] == [];
    assert Without([], chosen.actor) + [chosen] == [chosen];
    var w1 := Next(Link, [], w, steps[0]);
    var w2 := Next(Link, [], w1, steps[1]);
    assert w2 == World(w.sessions, w.clients[c := Loaded("s", chosen, 0, |w.log|, |w.log|, Document(0, []))], w.log);
    var w3 := Next(Link, [], w2, steps[2]);
    assert w3.clients == w.clients[c := Done(true)];
    assert Play(w, steps) == Play(w1, steps[1..]) == Play(w2, steps[1..][1..]) == Play(w3, []);
  }

  /** Bo links a folder and Ana loads it; the session is deleted, Cy links a folder,
      and only then does Ana replace. */
  const AFTER_DELETE: seq<Step<FolderLink>> :=
    [Begin(1, "s", BO), Load(1), Replace(1)]
        + ([Begin(0, "s", ANA), Load(0), Step.Delete("s")] + ([Begin(2, "s", CY), Load(2), Replace(2)] + [Replace(0)]))

  lemma {:induction false} PlayAppends(w: World<FolderLink, Links>, a: seq<Step<FolderLink>>, b: seq<Step<FolderLink>>)
    ensures Play(w, a + b) == Play(Play(w, a), b)
    decreases |a|
  {
    if a == [] {
      assert a + b == b;
    } else {
      assert (a + b)[1..] == a[1..] + b;
      PlayAppends(Next(Link, [], w, a[0]), a[1..], b);
    }
  }

  lemma AnaLoadsThenDeletion(w: World<FolderLink, Links>)
    requires Stored(w.sessions, "s", []) == Document(1, [BO]) && ClientOf(w, 0).Idle?
    ensures Play(w, [Begin(0, "s", ANA), Load(0), Step.Delete("s")])
            == World(w.sessions - {"s"}, w.clients[0 := Loaded("s", ANA, 0, |w.log|, |w.log|, Document(1, [BO]))],
                     w.log + [Deleted("s")])
  {
    var steps := [Begin(0, "s", ANA), Load(0), Step.Delete("s")];
    assert steps[1..] == [Load(0), Step.Delete("s")] && steps[1..][1..] == [Step.Delete("s")]
        && steps[1..][1..][1..] == [];
    assert Without([BO], "ana") == [BO] by { assert [BO][1..] == []; }
    assert [BO] + [ANA] == [BO, ANA];
    assert Link(ANA, [BO]).Write?;
    var w1 := Next(Link, [], w, steps[0]);
    var w2 := Next(Link, [], w1, steps[1]);
    assert w2.clients == w.clients[0 := Loaded("s", ANA, 0, |w.log|, |w.log|, Document(1, [BO]))];
    var w3 := Next(Link, [], w2, steps[2]);
    assert Play(w, steps) == Play(w1, steps[1..]) == Play(w2, steps[1..][1..]) == Play(w3, []);
  }

  /** Ana's snapshot predates the deletion, yet its revision matches again. */
  lemma StaleReplace(w: World<FolderLink, Links>)
    requires ClientOf(w, 0) == Loaded("s", ANA, 0, 1, 1, Document(1, [BO]))
    requires Stored(w.sessions, "s", []) == Document(1, [CY])
    requires |w.log| == 3 && w.log[1] == Deleted("s") && w.log[2] == Commit(2, "s", CY, 2, 0, [], [CY])
    ensures var w' := Next(Link, [], w, Replace(0));
            && w'.clients == w.clients[0 := Done(true)]
            && LastSelection(w'.log, "s", "cy") == Some("/c")
            && FolderOf(Stored(w'.sessions, "s", []).content, "cy") == None
            && !NoStaleCommit(w'.log, "s")
  {
    assert Without([BO], "ana") == [BO] by { assert [BO][1..] == []; }
    assert [BO] + [ANA] == [BO, ANA];
    assert Link(ANA, [BO]) == Write([BO, ANA]);
    var w' := Next(Link, [], w, Replace(0));
    assert w'.log == w.log + [Commit(0, "s", ANA, 1, 1, [BO], [BO, ANA])];
    assert w'.log[..3] == w.log;
    assert DeletionOf(w'.log[1], "s") && DeletedBetween(w'.log, "s", 1, 3) && CommitTo(w'.log[3], "s");
    assert IsStale(w'.log, "s", 3);
    assert FolderOf([BO, ANA], "cy") == None by {
      assert [BO, ANA][1..] == [ANA] && [ANA][1..] == [];
      assert FolderOf([ANA], "cy") == None;
    }
    assert Stored(w'.sessions, "s", []).content == [BO, ANA];
  }

  /** The restriction to runs without `delete` is needed: revisions restart, so a
      snapshot taken before a deletion can replace a document committed after it.
      Ana and Cy both commit, yet Cy's selection is gone. */
  lemma DeleteLosesUpdate()
    ensures var w := Run(Link, [], AFTER_DELETE);
            && ClientOf(w, 0) == Done(true) && ClientOf(w, 2) == Done(true)
            && LastSelection(w.log, "s", "cy") == Some("/c")
            && FolderOf(Stored(w.sessions, "s", []).content, "cy") == None
            && !NoStaleCommit(w.log, "s")
  {
    var w0: World<FolderLink, Links> := World(map[], map[], []);
    var bo, ana, cy, last := [Begin(1, "s", BO), Load(1), Replace(1)], [Begin(0, "s", ANA), Load(0), Step.Delete("s")],
                             [Begin(2, "s", CY), Load(2), Replace(2)], [Step<FolderLink>.Replace(0)];
    assert [] + AFTER_DELETE == bo + (ana + (cy + last));
    RunIsPlay([], AFTER_DELETE);
    PlayAppends(w0, bo, ana + (cy + last));
    OneCommit(w0, 1, BO);
    var w1 := Play(w0, bo);
    PlayAppends(w1, ana, cy + last);
    AnaLoadsThenDeletion(w1);
    var w2 := Play(w1, ana);
    PlayAppends(w2, cy, last);
    OneCommit(w2, 2, CY);
    var w3 := Play(w2, cy);
    assert w3.log[1] == Deleted("s") && w3.log[2] == Commit(2, "s", CY, 2, 0, [], [CY]);
    StaleReplace(w3);
    var w := Next(Link, [], w3, Replace(0));
    assert Play(w3, last) == Play(w, []) == w by { assert last[1..] == []; }
  }
}
