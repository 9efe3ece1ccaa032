/** Referential integrity of the repository, kept by every operation on single records, and by the second half of an
  * operation that waits exactly when nothing in between took away what the first half found. */
module RepositoryIntegrity {
  import opened Wrappers
  import opened Utf16
  import opened OrderedMaps
  import opened RepositoryState

  function ProjectKey(p: Project): Id { p.id }

  function RevisionKey(r: Revision): Id { r.id }

  function ThreadKey(t: Thread): Id { t.id }

  function CommentKey(c: Comment): Id { c.id }

  function ReviewThreadKey(t: ReviewThread): Id { t.id }

  function RequestKey(q: Request): Id { q.id }

  function AnnotationKey(a: Annotation): Id { a.id }

  function StateKey(d: DesignState): Id { d.projectId }

  function ChangeKey(c: Change): Id { c.id }

  /** A well-formed map that files each record under its own key. */
  ghost predicate Filed<K, V>(m: OMap<K, V>, key: V -> K)
  {
    Good(m) && forall k <- m.data :: key(m.data[k]) == k
  }

  ghost predicate FiledWithin<K, V>(m: OMap<K, V>, key: V -> K) { Filed(m, key) && |m.data| <= MAX_ITEMS }

  predicate Of(revisions: map<Id, Revision>, id: Id, projectId: Id)
  {
    id in revisions && revisions[id].projectId == projectId
  }

  predicate RevisionsOk(projects: map<Id, Project>, revisions: map<Id, Revision>)
  {
    forall k <- revisions :: revisions[k].projectId in projects
  }

  predicate ThreadsOk(revisions: map<Id, Revision>, threads: map<Id, Thread>)
  {
    forall k <- threads :: Of(revisions, threads[k].revisionId, threads[k].projectId)
  }

  predicate CommentOk(threads: map<Id, Thread>, comments: map<Id, Comment>, c: Comment)
  {
    && c.threadId in threads
    && (c.parent.Some? ==> c.parent.value in comments && comments[c.parent.value].threadId == c.threadId)
  }

  predicate CommentsOk(threads: map<Id, Thread>, comments: map<Id, Comment>)
  {
    forall k <- comments :: CommentOk(threads, comments, comments[k])
  }

  predicate ReactionsOk(comments: map<Id, Comment>, reactions: map<(Id, Text), Reaction>)
  {
    forall k <- reactions :: reactions[k].commentId in comments
  }

  predicate ApprovalsOk(revisions: map<Id, Revision>, approvals: map<(Id, Id), Approval>)
  {
    forall k <- approvals :: approvals[k].revisionId in revisions
  }

  predicate ReviewThreadsOk(revisions: map<Id, Revision>, threads: map<Id, ReviewThread>)
  {
    forall k <- threads :: Of(revisions, threads[k].revisionId, threads[k].projectId)
  }

  predicate RequestOk(revisions: map<Id, Revision>, q: Request)
  {
    && Resolves(revisions, q.base, q.projectId)
    && (q.result.Some? ==> Resolves(revisions, q.result.value, q.projectId))
    && (q.undo.Some? ==> Resolves(revisions, q.undo.value, q.projectId))
  }

  predicate RequestsOk(revisions: map<Id, Revision>, requests: map<Id, Request>)
  {
    forall k <- requests :: RequestOk(revisions, requests[k])
  }

  predicate AnnotationsOk(revisions: map<Id, Revision>, annotations: map<Id, Annotation>)
  {
    forall k <- annotations :: Of(revisions, annotations[k].revisionId, annotations[k].projectId)
  }

  predicate StatesOk(projects: map<Id, Project>, states: map<Id, DesignState>) { states.Keys <= projects.Keys }

  /** Every record lies under its own key within capacity; revisions belong to stored projects; threads, review
    * threads, annotations and AI requests with their results point to stored revisions of their own project;
    * comments, reactions and approvals point to stored owners, and a parent comment lies in the same thread. */
  ghost predicate Intact(s: Repo)
  {
    && FiledWithin(s.projects, ProjectKey)
    && FiledWithin(s.revisions, RevisionKey) && RevisionsOk(s.projects.data, s.revisions.data)
    && FiledWithin(s.threads, ThreadKey) && ThreadsOk(s.revisions.data, s.threads.data)
    && FiledWithin(s.comments, CommentKey) && CommentsOk(s.threads.data, s.comments.data)
    && FiledWithin(s.reactions, ReactionKey) && ReactionsOk(s.comments.data, s.reactions.data)
    && FiledWithin(s.approvals, ApprovalKey) && ApprovalsOk(s.revisions.data, s.approvals.data)
    && FiledWithin(s.reviewThreads, ReviewThreadKey) && ReviewThreadsOk(s.revisions.data, s.reviewThreads.data)
    && FiledWithin(s.requests, RequestKey) && RequestsOk(s.revisions.data, s.requests.data)
    && FiledWithin(s.annotations, AnnotationKey) && AnnotationsOk(s.revisions.data, s.annotations.data)
    && Filed(s.states, StateKey) && StatesOk(s.projects.data, s.states.data)
    && Filed(s.changes, ChangeKey)
  }

  const EMPTY_REPO := Repo(Empty(), Empty(), Empty(), Empty(), Empty(), Empty(), Empty(), Empty(), Empty(), Empty(),
                           Empty(), map[])

  lemma EmptyFiled<K(!new), V(!new)>(key: V -> K)
    ensures FiledWithin(Empty<K, V>(), key) && Filed(Empty<K, V>(), key)
  {
    assert (set k <- Empty<K, V>().order) == Empty<K, V>().data.Keys;
  }

  lemma EmptyIntact()
    ensures Intact(EMPTY_REPO)
  {
    EmptyFiled(ProjectKey);
    EmptyFiled(RevisionKey);
    EmptyFiled(ThreadKey);
    EmptyFiled(CommentKey);
    EmptyFiled(ReactionKey);
    EmptyFiled(ApprovalKey);
    EmptyFiled(ReviewThreadKey);
    EmptyFiled(RequestKey);
    EmptyFiled(AnnotationKey);
    EmptyFiled(StateKey);
    EmptyFiled(ChangeKey);
    hide Filed, FiledWithin;
  }

  lemma SetFiled<K(!new), V(!new)>(m: OMap<K, V>, v: V, key: V -> K)
    requires Filed(m, key)
    ensures Filed(Set(m, key(v), v), key)
  {
    SetGood(m, key(v), v);
  }

  lemma SetFiledWithin<K(!new), V(!new)>(m: OMap<K, V>, v: V, key: V -> K)
    requires FiledWithin(m, key) && Room(m, key(v))
    ensures FiledWithin(Set(m, key(v), v), key)
  {
    SetFiled(m, v, key);
    if key(v) in m.data {
      assert m.data[key(v) := v].Keys == m.data.Keys;
    } else {
      assert m.data[key(v) := v].Keys == m.data.Keys + {key(v)};
    }
  }

  /** Whatever the stored revisions satisfy, they satisfy when more are stored. */
  lemma MoreRevisions(s: Repo, r: Revision)
    requires r.id !in s.revisions.data && r.projectId in s.projects.data
             && RevisionsOk(s.projects.data, s.revisions.data)
    ensures var next := s.revisions.data[r.id := r];
            && RevisionsOk(s.projects.data, next)
            && (ThreadsOk(s.revisions.data, s.threads.data) ==> ThreadsOk(next, s.threads.data))
            && (ApprovalsOk(s.revisions.data, s.approvals.data) ==> ApprovalsOk(next, s.approvals.data))
            && (ReviewThreadsOk(s.revisions.data, s.reviewThreads.data) ==> ReviewThreadsOk(next, s.reviewThreads.data))
            && (RequestsOk(s.revisions.data, s.requests.data) ==> RequestsOk(next, s.requests.data))
            && (AnnotationsOk(s.revisions.data, s.annotations.data) ==> AnnotationsOk(next, s.annotations.data))
  {
    var next := s.revisions.data[r.id := r];
    if RequestsOk(s.revisions.data, s.requests.data) {
      forall k <- s.requests.data ensures RequestOk(next, s.requests.data[k]) {
        assert RequestOk(s.revisions.data, s.requests.data[k]);
      }
    }
    if ThreadsOk(s.revisions.data, s.threads.data) {
      forall k <- s.threads.data ensures Of(next, s.threads.data[k].revisionId, s.threads.data[k].projectId) {
        assert Of(s.revisions.data, s.threads.data[k].revisionId, s.threads.data[k].projectId);
      }
    }
  }

  lemma CreateProjectKeeps(s: Repo, p: Project)
    requires Intact(s)
    ensures Intact(CreateProject(s, p).0)
  {
    hide FiledWithin, Filed, ThreadsOk, CommentsOk, ReactionsOk, ApprovalsOk, ReviewThreadsOk, RequestsOk,
      AnnotationsOk;
    if CreateProject(s, p).1.Done? { SetFiledWithin(s.projects, p, ProjectKey); }
  }

  lemma NewRevisionKeeps(s: Repo, r: Revision)
    requires Intact(s) && Room(s.revisions, r.id) && r.id !in s.revisions.data && r.projectId in s.projects.data
    ensures Intact(s.(revisions := Set(s.revisions, r.id, r)))
  {
    SetFiledWithin(s.revisions, r, RevisionKey);
    MoreRevisions(s, r);
    hide FiledWithin, Filed, Room, RevisionsOk, ThreadsOk, CommentsOk, ReactionsOk, ApprovalsOk, ReviewThreadsOk,
      RequestsOk, AnnotationsOk, StatesOk;
  }

  lemma IntactGood(s: Repo)
    requires Intact(s)
    ensures Good(s.revisions)
  {}

  lemma ThreadStored(s: Repo, t: Thread)
    requires Intact(s) && Room(s.threads, t.id) && Owned(s, t.revisionId, t.projectId)
    ensures Intact(s.(threads := Set(s.threads, t.id, t)))
  {
    hide Filed, FiledWithin, ReactionsOk, ApprovalsOk, ReviewThreadsOk, RequestsOk, AnnotationsOk, StatesOk,
      RevisionsOk;
    SetFiledWithin(s.threads, t, ThreadKey);
  }

  lemma ThreadFiled(s: Repo, id: Id)
    requires Intact(s) && id in s.threads.data
    ensures var t := s.threads.data[id]; t.id == id && Owned(s, t.revisionId, t.projectId)
  {}

  lemma ThreadsKeep(s: Repo, t: Thread, id: Id, body: Body, fieldsValid: bool)
    requires Intact(s)
    ensures Intact(CreateThread(s, t, fieldsValid).0) && Intact(ResolveThread(s, id, body).0)
  {
    hide Intact;
    if CreateThread(s, t, fieldsValid).1.Done? { ThreadStored(s, t); }
    if id in s.threads.data {
      ThreadFiled(s, id);
      ThreadStored(s, s.threads.data[id].(body := body));
    }
  }

  lemma CommentsKeep(s: Repo, c: Comment, r: Reaction, fieldsValid: bool)
    requires Intact(s)
    ensures Intact(CreateComment(s, c, fieldsValid).0) && Intact(AddReaction(s, r, fieldsValid).0)
  {
    hide Filed, FiledWithin, ThreadsOk, ApprovalsOk, ReviewThreadsOk, RequestsOk, AnnotationsOk, StatesOk, RevisionsOk,
      ReactionKey;
    if CreateComment(s, c, fieldsValid).1.Done? { SetFiledWithin(s.comments, c, CommentKey); }
    if AddReaction(s, r, fieldsValid).1.Done? { SetFiledWithin(s.reactions, r, ReactionKey); }
  }

  lemma ApprovalsKeep(s: Repo, a: Approval)
    requires Intact(s)
    ensures Intact(PutApproval(s, a).0)
  {
    hide Filed, FiledWithin, ThreadsOk, CommentsOk, ReactionsOk, ReviewThreadsOk, RequestsOk, AnnotationsOk, StatesOk,
      RevisionsOk, ApprovalKey;
    if PutApproval(s, a).1.Done? { SetFiledWithin(s.approvals, a, ApprovalKey); }
  }

  lemma ReviewThreadStored(s: Repo, t: ReviewThread)
    requires Intact(s) && Room(s.reviewThreads, t.id) && Owned(s, t.revisionId, t.projectId)
    ensures Intact(s.(reviewThreads := Set(s.reviewThreads, t.id, t)))
  {
    hide Filed, FiledWithin, ThreadsOk, CommentsOk, ReactionsOk, ApprovalsOk, RequestsOk, AnnotationsOk, StatesOk,
      RevisionsOk;
    SetFiledWithin(s.reviewThreads, t, ReviewThreadKey);
  }

  lemma ReviewThreadFiled(s: Repo, id: Id)
    requires Intact(s) && id in s.reviewThreads.data
    ensures var t := s.reviewThreads.data[id]; t.id == id && Owned(s, t.revisionId, t.projectId)
  {}

  lemma ReviewThreadsKeep(s: Repo, t: ReviewThread, id: Id, revisionId: Id, body: Body, fieldsValid: bool)
    requires Intact(s)
    ensures Intact(CreateReviewThread(s, t, fieldsValid).0)
    ensures Intact(MoveReviewThread(s, id, revisionId, body, fieldsValid).0)
    ensures Intact(UpdateReviewThread(s, id, body, fieldsValid).0)
  {
    hide Intact;
    if CreateReviewThread(s, t, fieldsValid).1.Done? { ReviewThreadStored(s, t); }
    if id in s.reviewThreads.data {
      ReviewThreadFiled(s, id);
      var stored := s.reviewThreads.data[id];
      if Owned(s, revisionId, stored.projectId) {
        ReviewThreadStored(s, stored.(revisionId := revisionId, body := body));
      }
      ReviewThreadStored(s, stored.(body := body));
    }
  }

  lemma RequestsKeep(s: Repo, q: Request, fieldsValid: bool)
    requires Intact(s)
    ensures Intact(CreateRequest(s, q, fieldsValid).0) && Intact(UpdateRequest(s, q, fieldsValid).0)
  {
    hide Filed, FiledWithin, ThreadsOk, CommentsOk, ReactionsOk, ApprovalsOk, ReviewThreadsOk, AnnotationsOk, StatesOk,
      RevisionsOk;
    if CreateRequest(s, q, fieldsValid).1.Done? || UpdateRequest(s, q, fieldsValid).1.Done? {
      SetFiledWithin(s.requests, q, RequestKey);
    }
  }

  lemma AnnotationsKeep(s: Repo, a: Annotation, fieldsValid: bool)
    requires Intact(s)
    ensures Intact(CreateAnnotation(s, a, fieldsValid).0)
  {
    hide Filed, FiledWithin, ThreadsOk, CommentsOk, ReactionsOk, ApprovalsOk, ReviewThreadsOk, RequestsOk, StatesOk,
      RevisionsOk;
    if CreateAnnotation(s, a, fieldsValid).1.Done? { SetFiledWithin(s.annotations, a, AnnotationKey); }
  }

  /** A readiness mark or a recorded change touches only the review states and the change index. */
  lemma RecordedKeeps(s: Repo, c: Commit, before: Option<Revision>)
    requires Intact(s) && LateRefused(s, c) == None && c.head.projectId in s.projects.data
    ensures var r := Recorded(s, c, before);
            && r == s.(states := r.states, changes := r.changes)
            && Filed(r.states, StateKey) && StatesOk(s.projects.data, r.states.data) && Filed(r.changes, ChangeKey)
  {
    hide BaselineTaken, FiledWithin, Filed;
    var r, p := Recorded(s, c, before), c.head.projectId;
    if r.states != s.states {
      assert r.states.data[p].projectId == p by { assert StateOf(s, p).projectId == p by { StateFiled(s, p); } }
      SetFiled(s.states, r.states.data[p], StateKey);
    }
    if r.changes != s.changes { SetFiled(s.changes, r.changes.data[c.change.value.id], ChangeKey); }
  }

  lemma StateFiled(s: Repo, p: Id)
    requires Filed(s.states, StateKey)
    ensures StateOf(s, p).projectId == p
  {}

  lemma SameRecords(s: Repo, t: Repo)
    requires Intact(s) && t == s.(idempotency := t.idempotency)
    ensures Intact(t)
  {}

  lemma MergedKeeps(s: Repo, w: Repo, r: Repo)
    requires Intact(w) && w == s.(revisions := w.revisions)
    requires r == s.(states := r.states, changes := r.changes)
    requires Filed(r.states, StateKey) && StatesOk(s.projects.data, r.states.data) && Filed(r.changes, ChangeKey)
    ensures Intact(r.(revisions := w.revisions))
  {
    hide Filed, FiledWithin, RevisionsOk, ThreadsOk, CommentsOk, ReactionsOk, ApprovalsOk, ReviewThreadsOk, RequestsOk,
      AnnotationsOk, StatesOk;
  }

  // ---------- The second halves ----------

  /** Every stored revision is still stored, unchanged. */
  predicate KeepsRevisions(s: Repo, t: Repo)
  {
    forall id <- s.revisions.data :: id in t.revisions.data && t.revisions.data[id] == s.revisions.data[id]
  }

  /** The revision that is about to be stored belongs to a project that is still stored, and takes no other
    * revision's place. */
  predicate Clear(s: Repo, f: Pending)
  {
    Written(s, f).Some? ==>
      var r := Written(s, f).value;
      r.projectId in s.projects.data && (r.id in s.revisions.data ==> s.revisions.data[r.id] == r)
  }

  /** A waiting commit stores a revision of its own project. */
  predicate Started(f: Pending)
  {
    f.Committing? && RevisionOf(f.commit).Some? ==> RevisionOf(f.commit).value.projectId == f.commit.head.projectId
  }

  lemma StoredRevisionKeeps(s: Repo, r: Revision)
    requires Intact(s) && Room(s.revisions, r.id) && r.projectId in s.projects.data
    requires r.id in s.revisions.data ==> s.revisions.data[r.id] == r
    ensures var t := s.(revisions := Set(s.revisions, r.id, r)); Intact(t) && KeepsRevisions(s, t)
  {
    hide Intact;
    if r.id in s.revisions.data {
      assert Set(s.revisions, r.id, r).data == s.revisions.data;
      assert s.(revisions := Set(s.revisions, r.id, r)) == s;
    } else {
      NewRevisionKeeps(s, r);
    }
  }

  /** A revision without a project, or one that displaces another, is the end of integrity or of immutability. */
  lemma StoredRevisionBreaks(s: Repo, t: Repo, r: Revision)
    requires Intact(s) && t.projects == s.projects && r.id in t.revisions.data && t.revisions.data[r.id] == r
    ensures r.projectId !in s.projects.data ==> !Intact(t)
    ensures r.id in s.revisions.data && s.revisions.data[r.id] != r ==> !KeepsRevisions(s, t)
  {
    hide Filed, FiledWithin, ThreadsOk, CommentsOk, ReactionsOk, ApprovalsOk, ReviewThreadsOk, RequestsOk,
      AnnotationsOk, StatesOk;
  }

  lemma WithRevisionKeeps(s: Repo, c: Commit)
    requires Intact(s) && (RevisionOf(c).Some? ==> RevisionOf(c).value.projectId in s.projects.data)
    requires RevisionOf(c).Some? ==> RevisionOf(c).value.id !in s.revisions.data
                                     && Room(s.revisions, RevisionOf(c).value.id)
    ensures Intact(WithRevision(s, c)) && KeepsRevisions(s, WithRevision(s, c))
  {
    hide Intact;
    if RevisionOf(c).Some? { StoredRevisionKeeps(s, RevisionOf(c).value); }
  }

  /** A mark that is not refused names a stored revision of its project. */
  lemma MarkedProject(s: Repo, c: Commit)
    requires Intact(s) && c.MarkReady? && LateRefused(s, c) == None
    ensures c.head.projectId in s.projects.data
  {
    hide Filed, FiledWithin, ThreadsOk, CommentsOk, ReactionsOk, ApprovalsOk, ReviewThreadsOk, RequestsOk,
      AnnotationsOk, StatesOk, BaselineTaken;
  }

  /** What a commit writes besides its revision keeps integrity. */
  lemma FinishedCommitKeeps(s: Repo, c: Commit, before: Option<Revision>, fieldsValid: bool)
    requires Intact(s) && Intact(WithRevision(s, c)) && CommitRefused(s, c, before, fieldsValid) == None
             && LateRefused(s, c) == None
    requires c.head.projectId in s.projects.data
    ensures Intact(FinishCommit(s, c, before, fieldsValid).0)
  {
    hide Intact, BaselineTaken, Recorded, CommitRefused, LateRefused, Remembers;
    RecordedKeeps(s, c, before);
    var r, w := Recorded(s, c, before), WithRevision(s, c);
    assert w == s.(revisions := w.revisions);
    MergedKeeps(s, w, r);
    var next := r.(revisions := w.revisions);
    if c.head.key.Some? { SameRecords(next, next.(idempotency := s.idempotency[c.head.key.value := ResultOf(s, c)])); }
  }

  /** What the second half stores, whatever else it does. */
  lemma FinishRevisions(s: Repo, f: Pending)
    ensures var w := Written(s, f);
            Finish(s, f).revisions == if w.Some? then Set(s.revisions, w.value.id, w.value) else s.revisions
    ensures Finish(s, f).projects == s.projects
    ensures Written(s, f).Some? ==> Room(s.revisions, Written(s, f).value.id)
    ensures f.Committing? && Written(s, f).Some? ==> Written(s, f).value.id !in s.revisions.data
  {
    hide Set, BaselineTaken, ReadinessRevision, MarkedState, ReferenceTo;
  }

  lemma ClearKeeps(s: Repo, f: Pending)
    requires Intact(s) && Started(f) && Clear(s, f)
    ensures Intact(Finish(s, f)) && KeepsRevisions(s, Finish(s, f))
  {
    hide Intact, CommitRefused, LateRefused, Recorded;
    FinishRevisions(s, f);
    match f
    case Appending(r, _, _) =>
      if Written(s, f).Some? { StoredRevisionKeeps(s, r); }
    case Committing(c, fieldsValid, before) =>
      if CommitRefused(s, c, before, fieldsValid) == None {
        WithRevisionKeeps(s, c);
        if LateRefused(s, c) == None {
          if c.MarkReady? { MarkedProject(s, c); }
          FinishedCommitKeeps(s, c, before, fieldsValid);
        }
      }
  }

  /** The second half of an append or a commit keeps integrity, and every stored revision, exactly when the project of
    * the revision it stores is still there and the id is free. */
  lemma FinishKeepsExactly(s: Repo, f: Pending)
    requires Intact(s) && Started(f)
    ensures Intact(Finish(s, f)) && KeepsRevisions(s, Finish(s, f)) <==> Clear(s, f)
  {
    hide Intact, Finish, Written;
    FinishRevisions(s, f);
    if Clear(s, f) {
      ClearKeeps(s, f);
    } else {
      var r := Written(s, f).value;
      assert Finish(s, f).revisions.data[r.id] == r;
      StoredRevisionBreaks(s, Finish(s, f), r);
    }
  }
}
