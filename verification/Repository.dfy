/** The in-memory repository as a mutable object: every method changes the maps exactly as its step says, and keeps
  * referential integrity. */
module Repository {
  import opened Wrappers
  import opened Utf16
  import opened OrderedMaps
  import opened MapSwaps
  import opened RepositoryState
  import opened RepositoryIntegrity
  import opened RepositorySnapshots

  /** Some value would take the place of an entry outside `gone`. */
  method Collides<K(==), V>(values: seq<V>, stored: OMap<K, V>, gone: set<K>, key: V -> K) returns (hit: bool)
    ensures hit <==> !Free(stored, gone, values, key)
  {
    for i := 0 to |values|
      invariant Free(stored, gone, values[..i], key)
    {
      if key(values[i]) in stored.data && key(values[i]) !in gone {
        assert values[i] in values;
        return true;
      }
    }
    assert values[..|values|] == values;
    return false;
  }

  /** `for (const value of values) next.set(key(value), value)`. */
  method StoreAll<K(==), V>(start: OMap<K, V>, values: seq<V>, key: V -> K) returns (next: OMap<K, V>)
    ensures next == SetAll(start, values, key)
  {
    next := start;
    var i := 0;
    while i < |values|
      invariant 0 <= i <= |values|
      invariant SetAll(next, values[i..], key) == SetAll(start, values, key)
    {
      next := Set(next, key(values[i]), values[i]);
      assert values[i..][1..] == values[i + 1..];
      i := i + 1;
    }
  }

  /** Adds changes one by one, stopping at an id that is already there. */
  method AddEach(start: OMap<Id, Change>, changes: seq<Change>) returns (next: Option<OMap<Id, Change>>)
    ensures next == AddChanges(start, changes)
  {
    var m, i := start, 0;
    while i < |changes|
      invariant 0 <= i <= |changes|
      invariant AddChanges(m, changes[i..]) == AddChanges(start, changes)
    {
      if changes[i].id in m.data { return None; }
      m := Set(m, changes[i].id, changes[i]);
      assert changes[i..][1..] == changes[i + 1..];
      i := i + 1;
    }
    return Some(m);
  }

  class InMemoryRepository {
    var projects: OMap<Id, Project>
    var revisions: OMap<Id, Revision>
    var threads: OMap<Id, Thread>
    var comments: OMap<Id, Comment>
    var reactions: OMap<(Id, Text), Reaction>
    var approvals: OMap<(Id, Id), Approval>
    var reviewThreads: OMap<Id, ReviewThread>
    var requests: OMap<Id, Request>
    var annotations: OMap<Id, Annotation>
    var states: OMap<Id, DesignState>
    var changes: OMap<Id, Change>
    var idempotency: map<(Text, Text), CommitResult>

    function View(): Repo
      reads this
    {
      Repo(projects, revisions, threads, comments, reactions, approvals, reviewThreads, requests, annotations, states,
           changes,
           idempotency)
    }

    ghost predicate Valid()
      reads this
    {
      Intact(View())
    }

    constructor ()
      ensures Valid()
      ensures View() == Repo(Empty(), Empty(), Empty(), Empty(), Empty(), Empty(), Empty(), Empty(), Empty(), Empty(),
                             Empty(), map[])
    {
      EmptyIntact();
      hide Intact;
      projects, revisions, threads, comments := Empty(), Empty(), Empty(), Empty();
      reactions, approvals, reviewThreads, requests := Empty(), Empty(), Empty(), Empty();
      annotations, states, changes, idempotency := Empty(), Empty(), Empty(), map[];
    }

    /** The project's revision that sorts first. */
    method LatestRevision(projectId: Id) returns (latest: Option<Revision>)
      requires Good(revisions)
      ensures latest == Latest(View(), projectId)
    {
      hide Good, Later, At;
      InOrder(revisions);
      ghost var all := At(revisions, revisions.order);
      latest := None;
      assert all[..0] == [];
      for i := 0 to |revisions.order|
        invariant latest == Best(all[..i], projectId)
      {
        BestStep(all, i, projectId);
        var r := revisions.data[revisions.order[i]];
        if r.projectId == projectId && (latest.None? || Later(r, latest.value)) { latest := Some(r); }
      }
      assert all[..|all|] == all;
    }

    method CreateProject(p: Project) returns (outcome: Outcome)
      requires Valid()
      modifies this
      ensures Valid() && (View(), outcome) == RepositoryState.CreateProject(old(View()), p)
    {
      hide Intact, Set;
      CreateProjectKeeps(View(), p);
      outcome := if p.id in projects.data then Threw(Duplicate) else if !Room(projects, p.id) then Threw(Conflict)
                                                                     else Done;
      if outcome.Done? { projects := Set(projects, p.id, p); }
    }

    /** `appendRevision` up to its `await`. */
    method StartAppendRevision(r: Revision, expectedParent: Option<Id>) returns (waiting: Option<Pending>)
      requires Good(revisions)
      ensures waiting == StartAppend(View(), r, expectedParent)
    {
      hide Latest, Good;
      if r.projectId !in projects.data || r.id in revisions.data { return None; }
      var latest := LatestRevision(r.projectId);
      return Some(Appending(r, expectedParent, latest));
    }

    /** And after it: the repository may have changed. */
    method FinishAppendRevision(r: Revision, expectedParent: Option<Id>, latest: Option<Revision>)
      returns (outcome: Outcome)
      modifies this
      ensures (View(), outcome) == FinishAppend(old(View()), r, expectedParent, latest)
      ensures old(Valid()) && Clear(old(View()), Appending(r, expectedParent, latest)) ==> Valid()
    {
      hide Intact, Set, Room, Clear, Finish;
      if Valid() && Clear(View(), Appending(r, expectedParent, latest)) {
        ClearKeeps(View(), Appending(r, expectedParent, latest));
      }
      FinishIs(View(), Appending(r, expectedParent, latest));
      outcome :=
        if IdOf(latest) != expectedParent then Threw(Conflict)
        else if r.sequence != NextSequence(latest) then Threw(Conflict)
        else if !Room(revisions, r.id) then Threw(Conflict)
        else Done;
      if outcome.Done? { revisions := Set(revisions, r.id, r); }
    }

    method CreateThread(t: Thread, fieldsValid: bool) returns (outcome: Outcome)
      requires Valid()
      modifies this
      ensures Valid() && (View(), outcome) == RepositoryState.CreateThread(old(View()), t, fieldsValid)
    {
      hide Intact, Set, Room;
      ThreadsKeep(View(), t, t.id, NO_BODY, fieldsValid);
      outcome :=
        if t.id in threads.data then Threw(Duplicate)
        else if !Owned(View(), t.revisionId, t.projectId) then Threw(NotFound)
        else if !fieldsValid then Threw(Invalid)
        else if !Room(threads, t.id) then Threw(Conflict)
        else Done;
      if outcome.Done? { threads := Set(threads, t.id, t); }
    }

    method CreateComment(c: Comment, fieldsValid: bool) returns (outcome: Outcome)
      requires Valid()
      modifies this
      ensures Valid() && (View(), outcome) == RepositoryState.CreateComment(old(View()), c, fieldsValid)
    {
      hide Intact, Set, Room;
      CommentsKeep(View(), c, Reaction(c.id, [], [], NO_BODY), fieldsValid);
      outcome :=
        if c.id in comments.data then Threw(Duplicate)
        else if c.threadId !in threads.data then Threw(NotFound)
        else if c.parent.Some? && c.parent.value !in comments.data then Threw(NotFound)
        else if c.parent.Some? && comments.data[c.parent.value].threadId != c.threadId then Threw(Invalid)
        else if !fieldsValid then Threw(Invalid)
        else if !Room(comments, c.id) then Threw(Conflict)
        else Done;
      if outcome.Done? { comments := Set(comments, c.id, c); }
    }

    method AddReaction(r: Reaction, fieldsValid: bool) returns (outcome: Outcome)
      requires Valid()
      modifies this
      ensures Valid() && (View(), outcome) == RepositoryState.AddReaction(old(View()), r, fieldsValid)
    {
      hide Intact, Set, Room, ReactionKey;
      CommentsKeep(View(), Comment(r.commentId, [], None, NO_BODY), r, fieldsValid);
      outcome :=
        if r.commentId !in comments.data then Threw(NotFound)
        else if !fieldsValid then Threw(Invalid)
        else if !Room(reactions, ReactionKey(r)) then Threw(Conflict)
        else Done;
      if outcome.Done? { reactions := Set(reactions, ReactionKey(r), r); }
    }

    method PutApproval(a: Approval) returns (outcome: Outcome)
      requires Valid()
      modifies this
      ensures Valid() && (View(), outcome) == RepositoryState.PutApproval(old(View()), a)
    {
      hide Intact, Set, Room, ApprovalKey;
      ApprovalsKeep(View(), a);
      outcome :=
        if a.revisionId !in revisions.data then Threw(NotFound)
        else if !Room(approvals, ApprovalKey(a)) then Threw(Conflict)
        else Done;
      if outcome.Done? { approvals := Set(approvals, ApprovalKey(a), a); }
    }

    method MoveReviewThread(id: Id, revisionId: Id, body: Body, fieldsValid: bool) returns (outcome: Outcome)
      requires Valid()
      modifies this
      ensures Valid() && (View(), outcome)
              == RepositoryState.MoveReviewThread(old(View()), id, revisionId, body, fieldsValid)
    {
      hide Intact, Set;
      ReviewThreadsKeep(View(), ReviewThread(id, [], [], NO_BODY), id, revisionId, body, fieldsValid);
      outcome :=
        if id !in reviewThreads.data then Threw(NotFound)
        else if !Owned(View(), revisionId, reviewThreads.data[id].projectId) then Threw(NotFound)
        else if !fieldsValid then Threw(Invalid)
        else Done;
      if outcome.Done? {
        reviewThreads := Set(reviewThreads, id, reviewThreads.data[id].(revisionId := revisionId, body := body));
      }
    }

    method UpdateRequest(q: Request, fieldsValid: bool) returns (outcome: Outcome)
      requires Valid()
      modifies this
      ensures Valid() && (View(), outcome) == RepositoryState.UpdateRequest(old(View()), q, fieldsValid)
    {
      hide Intact, Set, Resolves, ResultsResolve;
      RequestsKeep(View(), q, fieldsValid);
      outcome :=
        if q.id !in requests.data then Threw(NotFound)
        else if requests.data[q.id].projectId != q.projectId then Threw(Invalid)
        else if !Owned(View(), q.base.id, q.projectId) then Threw(NotFound)
        else if !Resolves(revisions.data, q.base, q.projectId) || !fieldsValid then Threw(Invalid)
        else if !ResultsResolve(revisions.data, q) then Threw(Invalid)
        else Done;
      if outcome.Done? { requests := Set(requests, q.id, q); }
    }

    /** `commitDesignRevision` up to its `await`. */
    method StartCommitDesignRevision(c: Commit, fieldsValid: bool) returns (waiting: Option<Pending>)
      requires Good(revisions)
      ensures waiting == StartCommit(View(), c, fieldsValid)
    {
      hide Latest, Good;
      var p := c.head.projectId;
      if c.head.key.Some? && c.head.key.value in idempotency { return None; }
      if p !in projects.data { return None; }
      if RevisionOf(c).Some? && RevisionOf(c).value.projectId != p { return None; }
      if !c.AppendOnly? {
        var marked := ReadinessRevision(View(), c);
        if marked.None? || marked.value.projectId != p { return None; }
        if marked.value.fingerprint != c.readiness.revision.fingerprint { return None; }
      }
      var before := LatestRevision(p);
      return Some(Committing(c, fieldsValid, before));
    }

    /** The checks after the `await` that come before the first write. */
    method CheckCommit(c: Commit, before: Option<Revision>, fieldsValid: bool) returns (refused: Option<Error>)
      ensures refused == CommitRefused(View(), c, before, fieldsValid)
    {
      var p := c.head.projectId;
      var hadBaseline := StateOf(View(), p).baseline.Some? && c.AppendOnly?;
      if c.AppendOnly? {
        if hadBaseline != c.change.Some? { return Some(Invalid); }
        if c.change.Some? {
          if c.change.value.projectId != p || !fieldsValid { return Some(Invalid); }
          if c.change.value.id in changes.data { return Some(Duplicate); }
        }
      }
      if RevisionOf(c).Some? {
        var r := RevisionOf(c).value;
        if r.id in revisions.data { return Some(Duplicate); }
        if IdOf(before) != c.expectedParent { return Some(Conflict); }
        if r.sequence != NextSequence(before) { return Some(Conflict); }
        if !Room(revisions, r.id) { return Some(Conflict); }
      }
      refused := None;
    }

    /** The writes of a commit: the revision first, then the readiness mark or the recorded change. */
    method WriteCommit(c: Commit, before: Option<Revision>) returns (refused: Option<Error>)
      modifies this
      ensures idempotency == old(idempotency)
      ensures refused == LateRefused(old(View()), c)
      ensures refused.Some? ==> View() == WithRevision(old(View()), c)
      ensures refused.None?
              ==> View() == Recorded(old(View()), c, before).(revisions := WithRevision(old(View()), c).revisions)
    {
      hide BaselineTaken, Set, MarkedState;
      var p, state := c.head.projectId, StateOf(View(), c.head.projectId);
      refused := LateRefused(View(), c);
      if RevisionOf(c).Some? { revisions := Set(revisions, RevisionOf(c).value.id, RevisionOf(c).value); }
      if refused.Some? {
      } else if !c.AppendOnly? {
        var marked := if RevisionOf(c).Some? then RevisionOf(c).value else revisions.data[c.readiness.revision.id];
        states := Set(states, p, MarkedState(c.head, c.readiness, marked));
      } else if c.change.Some? && before.Some? {
        var change := RecordedChange(c, before.value);
        changes := Set(changes, change.id, change);
        states := Set(states, p,
                      state.(currency := Stale, approvalsStale := true, changes := state.changes + [change]));
      }
    }

    /** `commitDesignRevision` after its `await`: the repository may have changed. */
    method FinishCommitDesignRevision(c: Commit, before: Option<Revision>, fieldsValid: bool)
      returns (outcome: CommitOutcome)
      modifies this
      ensures (View(), outcome) == FinishCommit(old(View()), c, before, fieldsValid)
      ensures old(Valid()) && Started(Committing(c, fieldsValid, before))
              && Clear(old(View()), Committing(c, fieldsValid, before))
              ==> Valid()
    {
      hide Intact, CommitRefused, LateRefused, Recorded, WithRevision, Clear, Started, Finish;
      ghost var f := Committing(c, fieldsValid, before);
      if Valid() && Started(f) && Clear(View(), f) { ClearKeeps(View(), f); }
      FinishIs(View(), f);
      var refused := CheckCommit(c, before, fieldsValid);
      if refused.Some? { return Refused(refused.value); }
      var result, remembers := ResultOf(View(), c), Remembers(View(), c);
      refused := WriteCommit(c, before);
      if refused.Some? { return Refused(refused.value); }
      outcome := if remembers then Committed(result) else Refused(Conflict);
      if c.head.key.Some? && remembers { idempotency := idempotency[c.head.key.value := result]; }
    }

    method ExportProject(p: Id, fits: Snapshot -> bool) returns (r: Exported)
      ensures r == ExportCopy(View(), p, fits)
    {
      hide Listed, OwnedBy;
      if p !in projects.data { return Copied(None); }
      var s := View();
      var content := Content(
        Listed(revisions, RevisionsOf(s, p)), Listed(threads, ThreadsOf(s, p)), Listed(comments, CommentsOf(s, p)),
        Listed(reactions, ReactionsOf(s, p)), Listed(approvals, ApprovalsOf(s, p)),
        Listed(reviewThreads, ReviewThreadsOf(s, p)), Listed(requests, RequestsOf(s, p)),
          Listed(annotations, AnnotationsOf(s, p)));
      var snapshot := Snapshot(projects.data[p], content, Stored(states, p));
      r := if fits(snapshot) then Copied(Some(snapshot)) else TooLarge;
    }

    /** Rejects a content that would take over another project's record. */
    method CheckCollisions(p: Id, c: Content) returns (hit: bool)
      ensures hit <==> !NoCollision(View(), p, c)
    {
      hide Free, OwnedBy;
      var s := View();
      hit := Collides(c.revisions, revisions, RevisionsOf(s, p), RevisionKey);
      if hit { return; }
      hit := Collides(c.threads, threads, ThreadsOf(s, p), ThreadKey);
      if hit { return; }
      hit := Collides(c.comments, comments, CommentsOf(s, p), CommentKey);
      if hit { return; }
      hit := Collides(c.reviewThreads, reviewThreads, ReviewThreadsOf(s, p), ReviewThreadKey);
      if hit { return; }
      hit := Collides(c.requests, requests, RequestsOf(s, p), RequestKey);
      if hit { return; }
      hit := Collides(c.annotations, annotations, AnnotationsOf(s, p), AnnotationKey);
      if hit { return; }
      hit := Collides(c.reactions, reactions, ReactionsOf(s, p), ReactionKey);
      if hit { return; }
      hit := Collides(c.approvals, approvals, ApprovalsOf(s, p), ApprovalKey);
    }

    /** Builds the eight new record maps beside the stored ones. */
    method BuildContent(p: Id, c: Content) returns (next: Repo)
      ensures next == SwapContent(View(), p, c)
    {
      hide OwnedBy, Keep, SetAll;
      var s := View();
      var nextRevisions := StoreAll(Keep(revisions, revisions.data.Keys - RevisionsOf(s, p)), c.revisions, RevisionKey);
      var nextThreads := StoreAll(Keep(threads, threads.data.Keys - ThreadsOf(s, p)), c.threads, ThreadKey);
      var nextComments := StoreAll(Keep(comments, comments.data.Keys - CommentsOf(s, p)), c.comments, CommentKey);
      var nextReactions := StoreAll(Keep(reactions, reactions.data.Keys - ReactionsOf(s, p)), c.reactions, ReactionKey);
      var nextApprovals := StoreAll(Keep(approvals, approvals.data.Keys - ApprovalsOf(s, p)), c.approvals, ApprovalKey);
      var nextReviewThreads := StoreAll(Keep(reviewThreads, reviewThreads.data.Keys - ReviewThreadsOf(s, p)),
                                        c.reviewThreads, ReviewThreadKey);
      var nextRequests := StoreAll(Keep(requests, requests.data.Keys - RequestsOf(s, p)), c.requests, RequestKey);
      var nextAnnotations := StoreAll(Keep(annotations, annotations.data.Keys - AnnotationsOf(s, p)), c.annotations,
                                      AnnotationKey);
      next := Repo(projects, nextRevisions, nextThreads, nextComments, nextReactions, nextApprovals, nextReviewThreads,
                   nextRequests, nextAnnotations, states, changes, idempotency);
    }

    /** Builds every new map, or finds the change id of another project. */
    method BuildReplacement(n: Snapshot) returns (next: Option<Repo>)
      ensures next.Some? <==> ChangesWith(View(), n).Some?
      ensures next.Some? ==> next.value == Replacement(View(), n, ChangesWith(View(), n).value)
    {
      hide SwapContent, Keep, Set, AddChanges;
      var p := n.project.id;
      var content := BuildContent(p, n.content);
      var nextStates := Without(states, {p});
      if n.state.Some? { nextStates := Set(nextStates, p, n.state.value); }
      var nextChanges := AddEach(ChangesWithout(View(), p), if n.state.Some? then n.state.value.changes else []);
      if nextChanges.None? { return None; }
      next := Some(content.(projects := Set(projects, p, n.project), states := nextStates,
                            changes := nextChanges.value));
    }

    /** The new maps are all built before the first one is swapped in. */
    method ReplaceProject(snapshot: Snapshot, expectedLatest: Option<Id>, fieldsValid: bool) returns (outcome: Outcome)
      requires Valid()
      modifies this
      ensures old(Good(revisions)) && Valid()
              && (View(), outcome) == Replace(old(View()), snapshot, expectedLatest, fieldsValid)
    {
      hide Intact, Latest, ValidContent, NoCollision, WithinCapacity, Good, ChangesWith, Replacement, ValidSnapshot,
        OwnSnapshot;
      IntactMaps(View());
      ReplaceKeeps(View(), snapshot, expectedLatest, fieldsValid);
      var n := OwnSnapshot(snapshot);
      if !ValidSnapshot(n, fieldsValid) { return Threw(Invalid); }
      var latest := LatestRevision(n.project.id);
      var hit := CheckCollisions(n.project.id, n.content);
      var next := BuildReplacement(n);
      outcome :=
        if expectedLatest.Some? && (latest.None? || latest.value.id != expectedLatest.value) then Threw(Conflict)
        else if hit || next.None? || !WithinCapacity(next.value) then Threw(Conflict)
        else Done;
      if outcome.Done? { Assign(next.value); }
    }

    method Assign(next: Repo)
      modifies this
      ensures View() == next
    {
      projects, revisions, threads, comments := next.projects, next.revisions, next.threads, next.comments;
      reactions, approvals, reviewThreads, requests := next.reactions, next.approvals, next.reviewThreads,
        next.requests;
      annotations, states, changes, idempotency := next.annotations, next.states, next.changes, next.idempotency;
    }

    method DeleteProject(p: Id)
      requires Valid()
      modifies this
      ensures Valid() && View() == Delete(old(View()), p)
    {
      hide Intact, OwnedBy, Without, ChangesWithout, Delete, RevisionsOf, ThreadsOf, CommentsOf, ReactionsOf,
        ApprovalsOf, ReviewThreadsOf,
           RequestsOf, AnnotationsOf;
      DeleteKeeps(View(), p);
      Deleted(View(), p);
      if p in projects.data {
        var s := View();
        Assign(Repo(
          Without(projects, {p}), Without(revisions, RevisionsOf(s, p)), Without(threads, ThreadsOf(s, p)),
          Without(comments, CommentsOf(s, p)), Without(reactions, ReactionsOf(s, p)),
            Without(approvals, ApprovalsOf(s, p)),
          Without(reviewThreads, ReviewThreadsOf(s, p)), Without(requests, RequestsOf(s, p)),
          Without(annotations, AnnotationsOf(s, p)), Without(states, {p}), ChangesWithout(s, p), idempotency));
      }
    }
  }

  lemma BestStep(all: seq<Revision>, i: nat, projectId: Id)
    requires i < |all|
    ensures var best, r := Best(all[..i], projectId), all[i];
            Best(all[..i + 1], projectId) == if r.projectId != projectId
                                                || (best.Some? && !Later(r, best.value)) then best else Some(r)
  {
    assert all[..i + 1][..i] == all[..i] && all[..i + 1][i] == all[i];
  }

  lemma FinishIs(s: Repo, f: Pending)
    ensures f.Appending? ==> Finish(s, f) == FinishAppend(s, f.revision, f.expectedParent, f.latest).0
    ensures f.Committing? ==> Finish(s, f) == FinishCommit(s, f.commit, f.latest, f.fieldsValid).0
  {}

  /** Deletion, map by map. */
  lemma Deleted(s: Repo, p: Id)
    ensures p !in s.projects.data ==> Delete(s, p) == s
    ensures p in s.projects.data ==>
              Delete(s, p) == Repo(
                Without(s.projects, {p}), Without(s.revisions, RevisionsOf(s, p)), Without(s.threads, ThreadsOf(s, p)),
                Without(s.comments, CommentsOf(s, p)), Without(s.reactions, ReactionsOf(s, p)),
                  Without(s.approvals, ApprovalsOf(s, p)),
                Without(s.reviewThreads, ReviewThreadsOf(s, p)), Without(s.requests, RequestsOf(s, p)),
                Without(s.annotations, AnnotationsOf(s, p)), Without(s.states, {p}), ChangesWithout(s, p),
                  s.idempotency)
  {
    hide OwnedBy, Keep, StateOf;
  }
}
