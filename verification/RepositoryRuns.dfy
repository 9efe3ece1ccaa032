/** Runs of the repository: any operations, in any order, with any arguments. */
module RepositoryRuns {
  import opened Wrappers
  import opened Utf16
  import opened OrderedMaps
  import opened MapSwaps
  import opened RepositoryState
  import opened RepositoryIntegrity
  import opened RepositorySnapshots

  /** An operation that runs in one piece, with its arguments and the verdict of its field validators. */
  datatype Op =
    | AddProject(project: Project)
    | AddThread(thread: Thread, valid: bool)
    | SettleThread(id: Id, body: Body)
    | AddComment(comment: Comment, valid: bool)
    | React(reaction: Reaction, valid: bool)
    | Approve(approval: Approval)
    | AddReviewThread(reviewThread: ReviewThread, valid: bool)
    | ReanchorReviewThread(id: Id, revisionId: Id, body: Body, valid: bool)
    | ChangeReviewThread(id: Id, body: Body, valid: bool)
    | AddRequest(request: Request, valid: bool)
    | ChangeRequest(request: Request, valid: bool)
    | AddAnnotation(annotation: Annotation, valid: bool)
    | Import(snapshot: Snapshot, expectedLatest: Option<Id>, valid: bool)
    | Remove(projectId: Id)

  /** What can happen next: an operation in one piece, the first half of one that waits, or the second half of the
    * `i`th that is waiting. */
  datatype Action =
    | Do(op: Op)
    | Append(revision: Revision, expectedParent: Option<Id>)
    | CommitDesign(commit: Commit, valid: bool)
    | Resume(i: nat)

  /** The repository and the calls that wait. */
  datatype World = World(repo: Repo, waiting: seq<Pending>)

  const NEW_WORLD := World(EMPTY_REPO, [])

  ghost function Step(s: Repo, op: Op): (t: Repo)
    requires Intact(s)
    ensures Intact(t)
  {
    hide Intact, Latest, Replace, Delete;
    IntactMaps(s);
    match op
    case AddProject(project) => CreateProjectKeeps(s, project); CreateProject(s, project).0
    case AddThread(thread, valid) => ThreadsKeep(s, thread, [], NO_BODY, valid); CreateThread(s, thread, valid).0
    case SettleThread(id, body) =>
      ThreadsKeep(s, Thread([], [], [], NO_BODY), id, body, false); ResolveThread(s, id, body).0
    case AddComment(comment, valid) =>
      CommentsKeep(s, comment, Reaction([], [], [], NO_BODY), valid); CreateComment(s, comment, valid).0
    case React(reaction, valid) =>
      CommentsKeep(s, Comment([], [], None, NO_BODY), reaction, valid); AddReaction(s, reaction, valid).0
    case Approve(approval) => ApprovalsKeep(s, approval); PutApproval(s, approval).0
    case AddReviewThread(thread, valid) =>
      ReviewThreadsKeep(s, thread, [], [], NO_BODY, valid); CreateReviewThread(s, thread, valid).0
    case ReanchorReviewThread(id, revisionId, body, valid) =>
      ReviewThreadsKeep(s, ReviewThread([], [], [], NO_BODY), id, revisionId, body, valid);
      MoveReviewThread(s, id, revisionId, body, valid).0
    case ChangeReviewThread(id, body, valid) =>
      ReviewThreadsKeep(s, ReviewThread([], [], [], NO_BODY), id, [], body, valid);
      UpdateReviewThread(s, id, body, valid).0
    case AddRequest(request, valid) => RequestsKeep(s, request, valid); CreateRequest(s, request, valid).0
    case ChangeRequest(request, valid) => RequestsKeep(s, request, valid); UpdateRequest(s, request, valid).0
    case AddAnnotation(annotation, valid) =>
      AnnotationsKeep(s, annotation, valid); CreateAnnotation(s, annotation, valid).0
    case Import(snapshot, expectedLatest, valid) =>
      ReplaceKeeps(s, snapshot, expectedLatest, valid); Replace(s, snapshot, expectedLatest, valid).0
    case Remove(p) => DeleteKeeps(s, p); Delete(s, p)
  }

  ghost predicate Ready(w: World) { Intact(w.repo) && forall f <- w.waiting :: Started(f) }

  function Waits(waiting: seq<Pending>, f: Option<Pending>): seq<Pending>
  {
    if f.Some? then waiting + [f.value] else waiting
  }

  /** One action; the result of a `Resume` is what the second half makes of the repository it finds. */
  ghost function Act(w: World, action: Action): World
    requires Ready(w)
  {
    hide Intact;
    IntactMaps(w.repo);
    match action
    case Do(op) => World(Step(w.repo, op), w.waiting)
    case Append(r, expectedParent) => World(w.repo, Waits(w.waiting, StartAppend(w.repo, r, expectedParent)))
    case CommitDesign(c, valid) => World(w.repo, Waits(w.waiting, StartCommit(w.repo, c, valid)))
    case Resume(i) =>
      if i < |w.waiting| then World(Finish(w.repo, w.waiting[i]), w.waiting[..i] + w.waiting[i + 1..]) else w
  }

  /** What a second half stores goes to a project that is still stored, under an id that is still free. */
  predicate ClearAction(w: World, action: Action)
  {
    action.Resume? && action.i < |w.waiting| ==> Clear(w.repo, w.waiting[action.i])
  }

  /** Integrity holds, and no second half has lost or changed a stored revision. */
  ghost predicate SoundAction(w: World, action: Action)
    requires Ready(w)
  {
    Intact(Act(w, action).repo) && (action.Resume? ==> KeepsRevisions(w.repo, Act(w, action).repo))
  }

  lemma ActSound(w: World, action: Action)
    requires Ready(w)
    ensures SoundAction(w, action) <==> ClearAction(w, action)
    ensures forall f <- Act(w, action).waiting :: Started(f)
  {
    hide Intact, Clear, Finish, Latest, KeepsRevisions;
    IntactMaps(w.repo);
    if action.Resume? && action.i < |w.waiting| {
      assert w.waiting[action.i] in w.waiting;
      FinishKeepsExactly(w.repo, w.waiting[action.i]);
    } else {
      SameRevisions(w.repo);
    }
  }

  lemma SameRevisions(s: Repo)
    ensures KeepsRevisions(s, s)
  {}

  lemma ActReady(w: World, action: Action)
    requires Ready(w) && ClearAction(w, action)
    ensures Ready(Act(w, action))
  {
    hide Intact, Act, ClearAction, KeepsRevisions;
    ActSound(w, action);
  }

  /** Every second half is clear when its turn comes. */
  ghost predicate AllClear(w: World, actions: seq<Action>)
    requires Ready(w)
    decreases |actions|
  {
    actions == [] || (ClearAction(w, actions[0])
                      && (ActReady(w, actions[0]); AllClear(Act(w, actions[0]), actions[1..])))
  }

  /** Every action is sound. */
  ghost predicate AllSound(w: World, actions: seq<Action>)
    requires Ready(w)
    decreases |actions|
  {
    actions == [] ||
    (SoundAction(w, actions[0]) && (ActSound(w, actions[0]); AllSound(Act(w, actions[0]), actions[1..])))
  }

  /** Over every interleaving, integrity and stored revisions survive exactly when every second half finds the project
    * it stores a revision of, and the revision's id free. */
  lemma {:induction false} SoundExactly(w: World, actions: seq<Action>)
    requires Ready(w)
    ensures AllSound(w, actions) <==> AllClear(w, actions)
    decreases |actions|
  {
    hide Ready, SoundAction, ClearAction, Act;
    if actions != [] {
      ActSound(w, actions[0]);
      if ClearAction(w, actions[0]) {
        ActReady(w, actions[0]);
        SoundExactly(Act(w, actions[0]), actions[1..]);
      }
    }
  }

  /** Where a run ends. */
  ghost function Run(w: World, actions: seq<Action>): (v: World)
    requires Ready(w) && AllClear(w, actions)
    ensures Ready(v)
    decreases |actions|
  {
    if actions == [] then w
    else
      ActReady(w, actions[0]);
      Run(Act(w, actions[0]), actions[1..])
  }

  lemma EmptyReady()
    ensures Intact(EMPTY_REPO) && Ready(NEW_WORLD)
  {
    EmptyIntact();
    hide Intact;
  }

  /** A run of a new repository in which every second half is clear. */
  ghost predicate ClearRun(actions: seq<Action>)
  {
    EmptyReady();
    AllClear(NEW_WORLD, actions)
  }

  ghost function End(actions: seq<Action>): Repo
    requires ClearRun(actions)
  {
    EmptyReady();
    Run(NEW_WORLD, actions).repo
  }

  /** Whatever was done before, in whatever interleaving, a record found in the repository leads to stored records of
    * its own project. */
  lemma EveryLinkLeadsSomewhere(actions: seq<Action>)
    requires ClearRun(actions)
    ensures var s := End(actions);
            && (forall id <- s.revisions.data :: s.revisions.data[id].projectId in s.projects.data)
            && (forall id <- s.threads.data :: Owned(s, s.threads.data[id].revisionId, s.threads.data[id].projectId))
            && (forall id <- s.reviewThreads.data ::
                  Owned(s, s.reviewThreads.data[id].revisionId, s.reviewThreads.data[id].projectId))
            && (forall id <- s.annotations.data ::
                  Owned(s, s.annotations.data[id].revisionId, s.annotations.data[id].projectId))
            && (forall id <- s.requests.data :: RequestOk(s.revisions.data, s.requests.data[id]))
            && (forall id <- s.comments.data :: CommentOk(s.threads.data, s.comments.data, s.comments.data[id]))
            && (forall k <- s.reactions.data :: s.reactions.data[k].commentId in s.comments.data)
            && (forall k <- s.approvals.data :: s.approvals.data[k].revisionId in s.revisions.data)
  {
    EmptyReady();
    hide AllClear, Run, Intact;
    IntactLinks(End(actions));
  }

  const P: Id := [0x70]

  const Q: Id := [0x71]

  function ProjectNamed(p: Id): Project { Project(p, p, NO_BODY) }

  // ---------- Restoring into a new repository ----------

  lemma FewerThanSet<K(!new), V(!new)>(values: seq<V>, key: V -> K, gone: set<K>)
    ensures |Swap(Empty(), gone, values, key).data| <= |values|
  {
    var start := Keep(Empty<K, V>(), {} - gone);
    assert start == Empty();
    assert Good(start);
    SetAllShrinks(start, values, key);
    SetAllGood(start, values, key);
    SizeOfOrder(SetAll(start, values, key));
    assert Swap(Empty(), gone, values, key) == SetAll(start, values, key);
  }

  lemma SizeOfOrder<K(!new), V(!new)>(m: OMap<K, V>)
    requires Good(m)
    ensures |m.data| == |m.order|
  {
    SetSize(m.order);
    assert |m.data| == |m.data.Keys|;
  }

  lemma {:induction false} SetSize<K(!new)>(keys: seq<K>)
    requires NoRepeats(keys)
    ensures |(set k <- keys)| == |keys|
  {
    if keys != [] {
      var rest := set k <- keys[1..];
      assert NoRepeats(keys[1..]);
      SetSize(keys[1..]);
      assert keys == [keys[0]] + keys[1..];
      assert keys[0] !in keys[1..];
      hide NoRepeats;
      assert (set k <- keys) == rest + {keys[0]} && keys[0] !in rest;
    }
  }

  lemma {:induction false} AddsAll(m: OMap<Id, Change>, changes: seq<Change>)
    requires Good(m) && NoRepeats(KeysOf(changes, ChangeKey)) && Fresh(m, changes, ChangeKey)
    ensures AddChanges(m, changes) == Some(SetAll(m, changes, ChangeKey))
    decreases |changes|
  {
    if changes != [] {
      FreshTail(m, changes, ChangeKey);
      SetGood(m, changes[0].id, changes[0]);
      hide Good, NoRepeats;
      assert changes[0] in changes;
      AddsAll(Set(m, changes[0].id, changes[0]), changes[1..]);
    }
  }

  lemma EmptyFits(c: Content, p: Id)
    requires ValidContent(c, p)
    ensures NoCollision(EMPTY_REPO, p, c)
    ensures var t := SwapContent(EMPTY_REPO, p, c);
            && |t.revisions.data| <= MAX_ITEMS && |t.threads.data| <= MAX_ITEMS && |t.comments.data| <= MAX_ITEMS
            && |t.reactions.data| <= MAX_ITEMS && |t.approvals.data| <= MAX_ITEMS && |t.reviewThreads.data| <= MAX_ITEMS
            && |t.requests.data| <= MAX_ITEMS && |t.annotations.data| <= MAX_ITEMS
  {
    hide Swap, Unique, Names, RepositorySnapshots.Keys, OwnedBy;
    var s := EMPTY_REPO;
    FewerThanSet(c.revisions, RevisionKey, RevisionsOf(s, p));
    FewerThanSet(c.threads, ThreadKey, ThreadsOf(s, p));
    FewerThanSet(c.comments, CommentKey, CommentsOf(s, p));
    FewerThanSet(c.reactions, ReactionKey, ReactionsOf(s, p));
    FewerThanSet(c.approvals, ApprovalKey, ApprovalsOf(s, p));
    FewerThanSet(c.reviewThreads, ReviewThreadKey, ReviewThreadsOf(s, p));
    FewerThanSet(c.requests, RequestKey, RequestsOf(s, p));
    FewerThanSet(c.annotations, AnnotationKey, AnnotationsOf(s, p));
  }

  function ChangesIn(n: Snapshot): seq<Change> { if n.state.Some? then n.state.value.changes else [] }

  lemma ChangesFit(n: Snapshot)
    requires Unique(ChangesIn(n), ChangeKey) && |ChangesIn(n)| <= MAX_ITEMS
    ensures ChangesWith(EMPTY_REPO, n).Some? && |ChangesWith(EMPTY_REPO, n).value.data| <= MAX_ITEMS
  {
    var start := ChangesWithout(EMPTY_REPO, n.project.id);
    assert start == Empty() && Good(start);
    AddsAll(start, ChangesIn(n));
    FewerThanSet(ChangesIn(n), ChangeKey, {});
  }

  /** A snapshot whose copy is valid, with distinct change ids, always goes into a new repository; it comes out as it
    * was copied exactly when its reaction and approval keys are distinct, and as it was given exactly when, besides,
    * no record has a key `length`. */
  lemma RestoreIntoEmpty(n: Snapshot)
    requires var m := OwnSnapshot(n);
             ValidSnapshot(m, true) && Unique(ChangesIn(m), ChangeKey) && |ChangesIn(m)| <= MAX_ITEMS
    ensures Good(EMPTY_REPO.revisions)
    ensures var (t, outcome) := Replace(EMPTY_REPO, n, None, true);
            && outcome == Done
            && (Export(t, n.project.id) == Some(OwnSnapshot(n)) <==> DistinctKeys(n.content))
            && (Export(t, n.project.id) == Some(n) <==> DistinctKeys(n.content) && PlainSnapshot(n))
  {
    hide Intact, ReplaceOwned, Export, DistinctKeys, PlainSnapshot, OwnSnapshot;
    EmptyReady();
    RestoreOwned(OwnSnapshot(n));
    ReplaceLaw(EMPTY_REPO, n, None, true, n.project.id);
  }

  lemma RestoreOwned(n: Snapshot)
    requires ValidSnapshot(n, true) && Unique(ChangesIn(n), ChangeKey) && |ChangesIn(n)| <= MAX_ITEMS
    ensures Good(EMPTY_REPO.revisions) && ReplaceOwned(EMPTY_REPO, n, None, true).1 == Done
  {
    hide Intact, ValidContent, NoCollision, SwapContent, ChangesWith, Latest, ValidState, Good, Unique, StatesWith;
    EmptyReady();
    IntactMaps(EMPTY_REPO);
    EmptyFits(n.content, n.project.id);
    ChangesFit(n);
    OneProject(n);
    var next := Replacement(EMPTY_REPO, n, ChangesWith(EMPTY_REPO, n).value);
    assert WithinCapacity(next);
  }

  lemma OneProject(n: Snapshot)
    ensures |Set(EMPTY_REPO.projects, n.project.id, n.project).data| <= 1 && |StatesWith(EMPTY_REPO, n).data| <= 1
  {
    assert Without(EMPTY_REPO.states, {n.project.id}).data == map[];
  }
}
