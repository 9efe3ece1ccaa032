/** Project snapshots: validation, export, all-or-nothing replacement and deletion. */
module RepositorySnapshots {
  import opened Wrappers
  import opened Utf16
  import opened OrderedMaps
  import opened MapSwaps
  import opened RepositoryState
  import opened RepositoryIntegrity
  import Documents
  import OwnedData

  datatype Content = Content(
    revisions: seq<Revision>, threads: seq<Thread>, comments: seq<Comment>, reactions: seq<Reaction>,
    approvals: seq<Approval>, reviewThreads: seq<ReviewThread>, requests: seq<Request>, annotations: seq<Annotation>)

  datatype Snapshot = Snapshot(project: Project, content: Content, state: Option<DesignState>)

  const NOTHING := Content([], [], [], [], [], [], [], [])

  // ---------- The boundary copy ----------

  function OwnBody(body: Body): Body { OwnedData.Strip(body) }

  predicate Plain(body: Body) { OwnedData.LengthFree(body) }

  function Each<T>(values: seq<T>, f: T -> T): seq<T> { seq(|values|, i requires 0 <= i < |values| => f(values[i])) }

  function OwnRevision(r: Revision): Revision { r.(body := OwnBody(r.body)) }

  function OwnThread(t: Thread): Thread { t.(body := OwnBody(t.body)) }

  function OwnComment(c: Comment): Comment { c.(body := OwnBody(c.body)) }

  function OwnReaction(r: Reaction): Reaction { r.(body := OwnBody(r.body)) }

  function OwnApproval(a: Approval): Approval { a.(body := OwnBody(a.body)) }

  function OwnReviewThread(t: ReviewThread): ReviewThread { t.(body := OwnBody(t.body)) }

  function OwnRequest(q: Request): Request { q.(body := OwnBody(q.body)) }

  function OwnAnnotation(a: Annotation): Annotation { a.(body := OwnBody(a.body)) }

  function OwnChange(c: Change): Change { c.(body := OwnBody(c.body)) }

  function OwnContents(c: Content): Content
  {
    Content(
      Each(c.revisions, OwnRevision), Each(c.threads, OwnThread), Each(c.comments, OwnComment),
        Each(c.reactions, OwnReaction),
      Each(c.approvals, OwnApproval), Each(c.reviewThreads, OwnReviewThread), Each(c.requests, OwnRequest),
      Each(c.annotations, OwnAnnotation))
  }

  /** The copy `replaceProject` makes first: the snapshot without the keys `length` in its records. Whether the copy
    * is within the budgets is part of the verdict of the validators. */
  function OwnSnapshot(n: Snapshot): Snapshot
  {
    Snapshot(
      n.project.(body := OwnBody(n.project.body)), OwnContents(n.content),
      if n.state.Some? then Some(n.state.value.(changes := Each(n.state.value.changes, OwnChange))) else None)
  }

  predicate PlainContents(c: Content)
  {
    && (forall r <- c.revisions :: Plain(r.body)) && (forall t <- c.threads :: Plain(t.body))
    && (forall x <- c.comments :: Plain(x.body)) && (forall r <- c.reactions :: Plain(r.body))
    && (forall a <- c.approvals :: Plain(a.body)) && (forall t <- c.reviewThreads :: Plain(t.body))
    && (forall q <- c.requests :: Plain(q.body)) && (forall a <- c.annotations :: Plain(a.body))
  }

  /** No record of the snapshot has a key `length`. */
  predicate PlainSnapshot(n: Snapshot)
  {
    && Plain(n.project.body) && PlainContents(n.content)
    && (n.state.Some? ==> forall c <- n.state.value.changes :: Plain(c.body))
  }

  lemma EachSame<T>(values: seq<T>, f: T -> T)
    ensures Each(values, f) == values <==> forall v <- values :: f(v) == v
  {
    if forall v <- values :: f(v) == v {
      assert Each(values, f) == values;
    } else {
      var v :| v in values && f(v) != v;
      var i :| 0 <= i < |values| && values[i] == v;
      assert Each(values, f)[i] != values[i];
    }
  }

  lemma {:induction false} EachKeys<K, T>(values: seq<T>, f: T -> T, key: T -> K)
    requires forall v <- values :: key(f(v)) == key(v)
    ensures KeysOf(Each(values, f), key) == KeysOf(values, key)
  {
    if values != [] {
      assert Each(values, f)[1..] == Each(values[1..], f);
      assert values[0] in values;
      EachKeys(values[1..], f, key);
    }
  }

  lemma OwnBodySame(body: Body)
    ensures OwnBody(body) == body <==> Plain(body)
  {
    OwnedData.StripKeeps(body);
  }

  lemma OwnContentsSame(c: Content)
    ensures OwnContents(c) == c <==> PlainContents(c)
  {
    hide OwnBody, Plain, Each;
    forall body: Body ensures OwnBody(body) == body <==> Plain(body) { OwnBodySame(body); }
    EachSame(c.revisions, OwnRevision);
    EachSame(c.threads, OwnThread);
    EachSame(c.comments, OwnComment);
    EachSame(c.reactions, OwnReaction);
    EachSame(c.approvals, OwnApproval);
    EachSame(c.reviewThreads, OwnReviewThread);
    EachSame(c.requests, OwnRequest);
    EachSame(c.annotations, OwnAnnotation);
  }

  /** A snapshot is copied unchanged exactly when no record has a key `length`. */
  lemma OwnSnapshotSame(n: Snapshot)
    ensures OwnSnapshot(n) == n <==> PlainSnapshot(n)
  {
    hide OwnBody, Plain, Each, OwnContents, PlainContents;
    forall body: Body ensures OwnBody(body) == body <==> Plain(body) { OwnBodySame(body); }
    OwnContentsSame(n.content);
    if n.state.Some? { EachSame(n.state.value.changes, OwnChange); }
  }

  // ---------- Owners ----------

  function RevisionOwner(r: Revision): Option<Id> { Some(r.projectId) }

  function ThreadOwner(t: Thread): Option<Id> { Some(t.projectId) }

  function ReviewThreadOwner(t: ReviewThread): Option<Id> { Some(t.projectId) }

  function RequestOwner(q: Request): Option<Id> { Some(q.projectId) }

  function AnnotationOwner(a: Annotation): Option<Id> { Some(a.projectId) }

  /** A comment belongs to the project of its thread, a reaction to that of its comment, an approval to that of its
    * revision. */
  function CommentOwner(threads: map<Id, Thread>): Comment -> Option<Id>
  {
    (c: Comment) => if c.threadId in threads then Some(threads[c.threadId].projectId) else None
  }

  function ReactionOwner(threads: map<Id, Thread>, comments: map<Id, Comment>): Reaction -> Option<Id>
  {
    (r: Reaction) => if r.commentId in comments then CommentOwner(threads)(comments[r.commentId]) else None
  }

  function ApprovalOwner(revisions: map<Id, Revision>): Approval -> Option<Id>
  {
    (a: Approval) => if a.revisionId in revisions then Some(revisions[a.revisionId].projectId) else None
  }

  function RevisionsOf(s: Repo, p: Id): set<Id> { OwnedBy(s.revisions.data, RevisionOwner, Some(p)) }

  function ThreadsOf(s: Repo, p: Id): set<Id> { OwnedBy(s.threads.data, ThreadOwner, Some(p)) }

  function CommentsOf(s: Repo, p: Id): set<Id> { OwnedBy(s.comments.data, CommentOwner(s.threads.data), Some(p)) }

  function ReactionsOf(s: Repo, p: Id): set<(Id, Text)>
  {
    OwnedBy(s.reactions.data, ReactionOwner(s.threads.data, s.comments.data), Some(p))
  }

  function ApprovalsOf(s: Repo, p: Id): set<(Id, Id)>
  {
    OwnedBy(s.approvals.data, ApprovalOwner(s.revisions.data), Some(p))
  }

  function ReviewThreadsOf(s: Repo, p: Id): set<Id> { OwnedBy(s.reviewThreads.data, ReviewThreadOwner, Some(p)) }

  function RequestsOf(s: Repo, p: Id): set<Id> { OwnedBy(s.requests.data, RequestOwner, Some(p)) }

  function AnnotationsOf(s: Repo, p: Id): set<Id> { OwnedBy(s.annotations.data, AnnotationOwner, Some(p)) }

  // ---------- Export ----------

  function ContentOf(s: Repo, p: Id): Content
  {
    Content(
      Listed(s.revisions, RevisionsOf(s, p)), Listed(s.threads, ThreadsOf(s, p)), Listed(s.comments, CommentsOf(s, p)),
      Listed(s.reactions, ReactionsOf(s, p)), Listed(s.approvals, ApprovalsOf(s, p)),
      Listed(s.reviewThreads, ReviewThreadsOf(s, p)), Listed(s.requests, RequestsOf(s, p)),
      Listed(s.annotations, AnnotationsOf(s, p)))
  }

  /** What `exportProject` collects. */
  function Export(s: Repo, p: Id): Option<Snapshot>
  {
    if p !in s.projects.data then None else Some(Snapshot(s.projects.data[p], ContentOf(s, p), Stored(s.states, p)))
  }

  datatype Exported = Copied(snapshot: Option<Snapshot>) | TooLarge

  /** `exportProject` returns a copy; `fits` is the verdict of the copy's budgets. */
  function ExportCopy(s: Repo, p: Id, fits: Snapshot -> bool): Exported
  {
    var n := Export(s, p);
    if n.Some? && !fits(n.value) then TooLarge else Copied(n)
  }

  // ---------- Validation ----------

  function Keys<K, V(==)>(values: seq<V>, key: V -> K): set<K> { set v <- values :: key(v) }

  predicate Unique<K(==), V>(values: seq<V>, key: V -> K) { NoRepeats(KeysOf(values, key)) }

  predicate ValidRevisions(revisions: seq<Revision>, p: Id)
  {
    && |revisions| <= MAX_ITEMS && Unique(revisions, RevisionKey)
    && forall r <- revisions :: r.projectId == p && (r.parent.Some? ==> r.parent.value in Keys(revisions, RevisionKey))
  }

  predicate ValidThreads(revisions: seq<Revision>, threads: seq<Thread>, p: Id)
  {
    && |threads| <= MAX_ITEMS && Unique(threads, ThreadKey)
    && forall t <- threads :: t.projectId == p && t.revisionId in Keys(revisions, RevisionKey)
  }

  predicate ValidComments(threads: seq<Thread>, comments: seq<Comment>)
  {
    && |comments| <= MAX_ITEMS && Unique(comments, CommentKey)
    && (forall c <- comments :: c.threadId in Keys(threads, ThreadKey))
    && forall i :: 0 <= i < |comments| && comments[i].parent.Some? ==>
                     exists j :: 0 <= j < i && comments[j].id == comments[i].parent.value
                       && comments[j].threadId == comments[i].threadId
  }

  function ReactionTriple(r: Reaction): (Id, Text, Text) { (r.commentId, r.userId, r.emoji) }

  predicate ValidReactions(comments: seq<Comment>, reactions: seq<Reaction>)
  {
    && |reactions| <= MAX_ITEMS && Unique(reactions, ReactionTriple)
    && forall r <- reactions :: r.commentId in Keys(comments, CommentKey)
  }

  predicate ValidApprovals(revisions: seq<Revision>, approvals: seq<Approval>)
  {
    |approvals| <= MAX_ITEMS && forall a <- approvals :: a.revisionId in Keys(revisions, RevisionKey)
  }

  predicate ValidReviewThreads(revisions: seq<Revision>, threads: seq<ReviewThread>, p: Id)
  {
    && |threads| <= MAX_ITEMS && Unique(threads, ReviewThreadKey)
    && forall t <- threads :: t.projectId == p && t.revisionId in Keys(revisions, RevisionKey)
  }

  /** Some revision of the list has this id and fingerprint. */
  predicate Names(revisions: seq<Revision>, r: Reference)
  {
    exists x <- revisions :: x.id == r.id && x.fingerprint == r.fingerprint
  }

  predicate ValidRequests(revisions: seq<Revision>, requests: seq<Request>, p: Id)
  {
    && |requests| <= MAX_ITEMS && Unique(requests, RequestKey)
    && (requests != [] ==> |revisions| <= MAX_REFERENCES)
    && forall q <- requests :: q.projectId == p && Names(revisions, q.base)
                               && (q.result.Some? ==> Names(revisions, q.result.value))
                               && (q.undo.Some? ==> Names(revisions, q.undo.value))
  }

  predicate ValidAnnotations(revisions: seq<Revision>, annotations: seq<Annotation>, p: Id)
  {
    && |annotations| <= MAX_ITEMS && Unique(annotations, AnnotationKey)
    && forall a <- annotations :: a.projectId == p && a.revisionId in Keys(revisions, RevisionKey)
  }

  /** `validateCollaborationSnapshot`, without the checks inside single fields. */
  predicate ValidContent(c: Content, p: Id)
  {
    && ValidRevisions(c.revisions, p) && ValidThreads(c.revisions, c.threads, p) && ValidComments(c.threads, c.comments)
    && ValidReactions(c.comments, c.reactions) && ValidApprovals(c.revisions, c.approvals)
    && ValidReviewThreads(c.revisions, c.reviewThreads, p) && ValidRequests(c.revisions, c.requests, p)
    && ValidAnnotations(c.revisions, c.annotations, p)
  }

  /** `validateDesignReviewState`: no baseline means an untouched draft; a baseline is current with no changes or
    * stale with some. */
  predicate ValidState(d: DesignState)
  {
    if d.baseline.None? then d == DraftState(d.projectId)
    else
      && d.baseline.value.projectId == d.projectId
      && d.readiness == (if d.baseline.value.intent == Review then ReadyForReview else ReadyForHandoff)
      && (if d.changes == [] then d.currency == Current && !d.approvalsStale
          else d.currency == Stale && d.approvalsStale)
      && forall c <- d.changes :: c.projectId == d.projectId
  }

  predicate ValidSnapshot(n: Snapshot, fieldsValid: bool)
  {
    && ValidContent(n.content, n.project.id) && fieldsValid
    && (n.state.Some? ==> ValidState(n.state.value) && n.state.value.projectId == n.project.id)
  }

  // ---------- Replacement and deletion ----------

  /** No record of the content takes the key of another project's record. */
  ghost predicate NoCollision(s: Repo, p: Id, c: Content)
  {
    && Free(s.revisions, RevisionsOf(s, p), c.revisions, RevisionKey)
    && Free(s.threads, ThreadsOf(s, p), c.threads, ThreadKey)
    && Free(s.comments, CommentsOf(s, p), c.comments, CommentKey)
    && Free(s.reactions, ReactionsOf(s, p), c.reactions, ReactionKey)
    && Free(s.approvals, ApprovalsOf(s, p), c.approvals, ApprovalKey)
    && Free(s.reviewThreads, ReviewThreadsOf(s, p), c.reviewThreads, ReviewThreadKey)
    && Free(s.requests, RequestsOf(s, p), c.requests, RequestKey)
    && Free(s.annotations, AnnotationsOf(s, p), c.annotations, AnnotationKey)
  }

  /** Every record of the project makes way for the content. */
  function SwapContent(s: Repo, p: Id, c: Content): Repo
  {
    s.(revisions := Swap(s.revisions, RevisionsOf(s, p), c.revisions, RevisionKey),
       threads := Swap(s.threads, ThreadsOf(s, p), c.threads, ThreadKey),
       comments := Swap(s.comments, CommentsOf(s, p), c.comments, CommentKey),
       reactions := Swap(s.reactions, ReactionsOf(s, p), c.reactions, ReactionKey),
       approvals := Swap(s.approvals, ApprovalsOf(s, p), c.approvals, ApprovalKey),
       reviewThreads := Swap(s.reviewThreads, ReviewThreadsOf(s, p), c.reviewThreads, ReviewThreadKey),
       requests := Swap(s.requests, RequestsOf(s, p), c.requests, RequestKey),
       annotations := Swap(s.annotations, AnnotationsOf(s, p), c.annotations, AnnotationKey))
  }

  function Without<K, V>(m: OMap<K, V>, gone: set<K>): OMap<K, V> { Keep(m, m.data.Keys - gone) }

  /** The change index without the project's own changes. */
  function ChangesWithout(s: Repo, p: Id): OMap<Id, Change>
  {
    Without(s.changes, Keys(StateOf(s, p).changes, ChangeKey))
  }

  /** `deleteProject`. */
  function Delete(s: Repo, p: Id): Repo
  {
    if p !in s.projects.data then s
    else SwapContent(s, p, NOTHING).(
         projects := Without(s.projects, {p}), states := Without(s.states, {p}), changes := ChangesWithout(s, p))
  }

  /** Adding changes one by one fails at the first id that is already there. */
  function AddChanges(m: OMap<Id, Change>, changes: seq<Change>): Option<OMap<Id, Change>>
    decreases |changes|
  {
    if changes == [] then Some(m)
    else if changes[0].id in m.data then None
    else AddChanges(Set(m, changes[0].id, changes[0]), changes[1..])
  }

  function StatesWith(s: Repo, n: Snapshot): OMap<Id, DesignState>
  {
    var rest := Without(s.states, {n.project.id});
    if n.state.Some? then Set(rest, n.project.id, n.state.value) else rest
  }

  function ChangesWith(s: Repo, n: Snapshot): Option<OMap<Id, Change>>
  {
    AddChanges(ChangesWithout(s, n.project.id), if n.state.Some? then n.state.value.changes else [])
  }

  predicate WithinCapacity(s: Repo)
  {
    && |s.projects.data| <= MAX_ITEMS && |s.revisions.data| <= MAX_ITEMS && |s.threads.data| <= MAX_ITEMS
    && |s.comments.data| <= MAX_ITEMS && |s.reactions.data| <= MAX_ITEMS && |s.approvals.data| <= MAX_ITEMS
    && |s.reviewThreads.data| <= MAX_ITEMS && |s.requests.data| <= MAX_ITEMS && |s.annotations.data| <= MAX_ITEMS
    && |s.states.data| <= MAX_ITEMS && |s.changes.data| <= MAX_ITEMS
  }

  function Replacement(s: Repo, n: Snapshot, changes: OMap<Id, Change>): Repo
  {
    SwapContent(s, n.project.id, n.content).(
    projects := Set(s.projects, n.project.id, n.project), states := StatesWith(s, n), changes := changes)
  }

  /** `replaceProject`, from its copy of the snapshot on. Every kind of validation failure is `Invalid` here. */
  ghost function ReplaceOwned(s: Repo, n: Snapshot, expectedLatest: Option<Id>, fieldsValid: bool): (Repo, Outcome)
    requires Good(s.revisions)
  {
    var latest, changes := Latest(s, n.project.id), ChangesWith(s, n);
    if !ValidSnapshot(n, fieldsValid) then (s, Threw(Invalid))
    else if expectedLatest.Some? && (latest.None? || latest.value.id != expectedLatest.value) then (s, Threw(Conflict))
    else if !NoCollision(s, n.project.id, n.content) then (s, Threw(Conflict))
    else if changes.None? then (s, Threw(Conflict))
    else if !WithinCapacity(Replacement(s, n, changes.value)) then (s, Threw(Conflict))
    else (Replacement(s, n, changes.value), Done)
  }

  /** `replaceProject`. */
  ghost function Replace(s: Repo, n: Snapshot, expectedLatest: Option<Id>, fieldsValid: bool): (Repo, Outcome)
    requires Good(s.revisions)
  {
    ReplaceOwned(s, OwnSnapshot(n), expectedLatest, fieldsValid)
  }

  // ---------- What a swap of contents keeps ----------

  /** The eight record maps of `t` are those of `s` with the project's records swapped for the content. */
  ghost predicate ContentSwapped(s: Repo, p: Id, c: Content, t: Repo)
  {
    && Swapped(s.revisions.data, RevisionsOf(s, p), c.revisions, RevisionKey, t.revisions.data)
    && Swapped(s.threads.data, ThreadsOf(s, p), c.threads, ThreadKey, t.threads.data)
    && Swapped(s.comments.data, CommentsOf(s, p), c.comments, CommentKey, t.comments.data)
    && Swapped(s.reactions.data, ReactionsOf(s, p), c.reactions, ReactionKey, t.reactions.data)
    && Swapped(s.approvals.data, ApprovalsOf(s, p), c.approvals, ApprovalKey, t.approvals.data)
    && Swapped(s.reviewThreads.data, ReviewThreadsOf(s, p), c.reviewThreads, ReviewThreadKey, t.reviewThreads.data)
    && Swapped(s.requests.data, RequestsOf(s, p), c.requests, RequestKey, t.requests.data)
    && Swapped(s.annotations.data, AnnotationsOf(s, p), c.annotations, AnnotationKey, t.annotations.data)
  }

  lemma SwapContentSwaps(s: Repo, p: Id, c: Content)
    requires Intact(s) && NoCollision(s, p, c)
    ensures ContentSwapped(s, p, c, SwapContent(s, p, c))
  {
    hide Swap, Good, Swapped, Free, OwnedBy;
    IntactMaps(s);
    SwapSwaps(s.revisions, RevisionsOf(s, p), c.revisions, RevisionKey);
    SwapSwaps(s.threads, ThreadsOf(s, p), c.threads, ThreadKey);
    SwapSwaps(s.comments, CommentsOf(s, p), c.comments, CommentKey);
    SwapSwaps(s.reactions, ReactionsOf(s, p), c.reactions, ReactionKey);
    SwapSwaps(s.approvals, ApprovalsOf(s, p), c.approvals, ApprovalKey);
    SwapSwaps(s.reviewThreads, ReviewThreadsOf(s, p), c.reviewThreads, ReviewThreadKey);
    SwapSwaps(s.requests, RequestsOf(s, p), c.requests, RequestKey);
    SwapSwaps(s.annotations, AnnotationsOf(s, p), c.annotations, AnnotationKey);
  }

  lemma IntactMaps(s: Repo)
    requires Intact(s)
    ensures Good(s.projects) && Good(s.revisions) && Good(s.threads) && Good(s.comments) && Good(s.reactions)
            && Good(s.approvals)
    ensures Good(s.reviewThreads) && Good(s.requests) && Good(s.annotations) && Good(s.states) && Good(s.changes)
  {
    hide Good, RevisionsOk, ThreadsOk, CommentsOk, ReactionsOk, ApprovalsOk, ReviewThreadsOk, RequestsOk, AnnotationsOk,
      StatesOk;
  }

  lemma SwapFiled<K(!new), V(!new)>(m: OMap<K, V>, gone: set<K>, values: seq<V>, key: V -> K)
    requires Filed(m, key) && Free(m, gone, values, key)
    ensures Filed(Swap(m, gone, values, key), key)
  {
    SwapSwaps(m, gone, values, key);
    hide Good, Swap;
  }

  /** The revisions of the content are stored as given, and those of other projects are untouched. */
  ghost predicate RevisionsSwapped(before: map<Id, Revision>, p: Id, revisions: seq<Revision>, after: map<Id, Revision>)
  {
    && (forall id <- Keys(revisions, RevisionKey) :: Of(after, id, p))
    && (forall r <- revisions :: r.id in after && after[r.id] == r)
    && (forall id <- before :: before[id].projectId != p ==> id in after && after[id] == before[id])
  }

  lemma SwappedRevisions(before: map<Id, Revision>, p: Id, revisions: seq<Revision>, after: map<Id, Revision>)
    requires Swapped(before, OwnedBy(before, RevisionOwner, Some(p)), revisions, RevisionKey, after)
    requires ValidRevisions(revisions, p)
    ensures RevisionsSwapped(before, p, revisions, after)
  {
    forall r <- revisions ensures r.id in after && after[r.id] == r {
      assert RevisionKey(r) in after && after[r.id] in revisions;
      UniqueValue(revisions, RevisionKey, r, after[r.id]);
    }
  }

  lemma UniqueValue<K(!new), V(!new)>(values: seq<V>, key: V -> K, a: V, b: V)
    requires Unique(values, key) && a in values && b in values && key(a) == key(b)
    ensures a == b
  {
    var i :| 0 <= i < |values| && values[i] == a;
    var j :| 0 <= j < |values| && values[j] == b;
    assert KeysOf(values, key)[i] == KeysOf(values, key)[j];
  }

  lemma ThreadsSwapOk(revisions: map<Id, Revision>, s: Repo, p: Id, c: Content, after: map<Id, Thread>)
    requires ThreadsOk(s.revisions.data, s.threads.data)
             && RevisionsSwapped(s.revisions.data, p, c.revisions, revisions)
    requires Swapped(s.threads.data, ThreadsOf(s, p), c.threads, ThreadKey, after)
             && ValidThreads(c.revisions, c.threads, p)
    ensures ThreadsOk(revisions, after)
  {
    forall k <- after ensures Of(revisions, after[k].revisionId, after[k].projectId) {
      if k in s.threads.data && k !in ThreadsOf(s, p) {
        assert Of(s.revisions.data, s.threads.data[k].revisionId, s.threads.data[k].projectId);
      }
    }
  }

  lemma ReviewThreadsSwapOk(revisions: map<Id, Revision>, s: Repo, p: Id, c: Content, after: map<Id, ReviewThread>)
    requires ReviewThreadsOk(s.revisions.data, s.reviewThreads.data)
             && RevisionsSwapped(s.revisions.data, p, c.revisions, revisions)
    requires Swapped(s.reviewThreads.data, ReviewThreadsOf(s, p), c.reviewThreads, ReviewThreadKey, after)
    requires ValidReviewThreads(c.revisions, c.reviewThreads, p)
    ensures ReviewThreadsOk(revisions, after)
  {
    forall k <- after ensures Of(revisions, after[k].revisionId, after[k].projectId) {
      if k in s.reviewThreads.data && k !in ReviewThreadsOf(s, p) {
        assert Of(s.revisions.data, s.reviewThreads.data[k].revisionId, s.reviewThreads.data[k].projectId);
      }
    }
  }

  lemma AnnotationsSwapOk(revisions: map<Id, Revision>, s: Repo, p: Id, c: Content, after: map<Id, Annotation>)
    requires AnnotationsOk(s.revisions.data, s.annotations.data)
             && RevisionsSwapped(s.revisions.data, p, c.revisions, revisions)
    requires Swapped(s.annotations.data, AnnotationsOf(s, p), c.annotations, AnnotationKey, after)
    requires ValidAnnotations(c.revisions, c.annotations, p)
    ensures AnnotationsOk(revisions, after)
  {
    forall k <- after ensures Of(revisions, after[k].revisionId, after[k].projectId) {
      if k in s.annotations.data && k !in AnnotationsOf(s, p) {
        assert Of(s.revisions.data, s.annotations.data[k].revisionId, s.annotations.data[k].projectId);
      }
    }
  }

  lemma RequestsSwapOk(revisions: map<Id, Revision>, s: Repo, p: Id, c: Content, after: map<Id, Request>)
    requires RequestsOk(s.revisions.data, s.requests.data)
             && RevisionsSwapped(s.revisions.data, p, c.revisions, revisions)
    requires Swapped(s.requests.data, RequestsOf(s, p), c.requests, RequestKey, after)
    requires ValidRevisions(c.revisions, p) && ValidRequests(c.revisions, c.requests, p)
    ensures RequestsOk(revisions, after)
  {
    forall k <- after ensures RequestOk(revisions, after[k]) {
      var q := after[k];
      if k in s.requests.data && k !in RequestsOf(s, p) {
        assert RequestOk(s.revisions.data, s.requests.data[k]);
      } else {
        assert q in c.requests;
        NamedResolves(revisions, s.revisions.data, p, c.revisions, q.base);
        if q.result.Some? { NamedResolves(revisions, s.revisions.data, p, c.revisions, q.result.value); }
        if q.undo.Some? { NamedResolves(revisions, s.revisions.data, p, c.revisions, q.undo.value); }
      }
    }
  }

  lemma NamedResolves(after: map<Id, Revision>, before: map<Id, Revision>, p: Id, revisions: seq<Revision>,
                      r: Reference)
    requires RevisionsSwapped(before, p, revisions, after) && ValidRevisions(revisions, p) && Names(revisions, r)
    ensures Resolves(after, r, p)
  {}

  lemma ApprovalsSwapOk(revisions: map<Id, Revision>, s: Repo, p: Id, c: Content, after: map<(Id, Id), Approval>)
    requires ApprovalsOk(s.revisions.data, s.approvals.data)
             && RevisionsSwapped(s.revisions.data, p, c.revisions, revisions)
    requires Swapped(s.approvals.data, ApprovalsOf(s, p), c.approvals, ApprovalKey, after)
             && ValidApprovals(c.revisions, c.approvals)
    ensures ApprovalsOk(revisions, after)
  {
    forall k <- after ensures after[k].revisionId in revisions {
      if after[k] in c.approvals { assert Of(revisions, after[k].revisionId, p); }
    }
  }

  /** Threads of other projects stay, those of the content are stored. */
  lemma SwappedThreads(s: Repo, p: Id, threads: seq<Thread>, after: map<Id, Thread>)
    requires Swapped(s.threads.data, ThreadsOf(s, p), threads, ThreadKey, after)
    requires forall t <- threads :: t.projectId == p
    ensures forall id <- Keys(threads, ThreadKey) :: id in after && after[id].projectId == p
    ensures forall id <- s.threads.data :: s.threads.data[id].projectId != p
              ==> id in after && after[id] == s.threads.data[id]
  {}

  lemma CommentsSwapOk(threads: map<Id, Thread>, s: Repo, p: Id, c: Content, after: map<Id, Comment>)
    requires CommentsOk(s.threads.data, s.comments.data)
    requires forall id <- Keys(c.threads, ThreadKey) :: id in threads
    requires forall id <- s.threads.data :: s.threads.data[id].projectId != p
               ==> id in threads && threads[id] == s.threads.data[id]
    requires Swapped(s.comments.data, CommentsOf(s, p), c.comments, CommentKey, after)
             && ValidComments(c.threads, c.comments)
    ensures CommentsOk(threads, after)
  {
    forall k <- after ensures CommentOk(threads, after, after[k]) {
      var x := after[k];
      if k in s.comments.data && k !in CommentsOf(s, p) {
        assert CommentOk(s.threads.data, s.comments.data, x);
        if x.parent.Some? { assert x.parent.value !in CommentsOf(s, p); }
      } else {
        var i :| 0 <= i < |c.comments| && c.comments[i] == x;
        if x.parent.Some? {
          var j :| 0 <= j < i && c.comments[j].id == x.parent.value && c.comments[j].threadId == x.threadId;
          assert CommentKey(c.comments[j]) in after;
          UniqueValue(c.comments, CommentKey, c.comments[j], after[x.parent.value]);
        }
      }
    }
  }

  lemma ReactionsSwapOk(comments: map<Id, Comment>, s: Repo, p: Id, c: Content, after: map<(Id, Text), Reaction>)
    requires ReactionsOk(s.comments.data, s.reactions.data) && CommentsOk(s.threads.data, s.comments.data)
    requires Swapped(s.comments.data, CommentsOf(s, p), c.comments, CommentKey, comments)
    requires Swapped(s.reactions.data, ReactionsOf(s, p), c.reactions, ReactionKey, after)
             && ValidReactions(c.comments, c.reactions)
    ensures ReactionsOk(comments, after)
  {
    hide ValidComments;
    forall k <- after ensures after[k].commentId in comments {
      if k in s.reactions.data && k !in ReactionsOf(s, p) { assert after[k].commentId !in CommentsOf(s, p); }
    }
  }

  /** Every link of the new content, and every link of the other projects, still leads to a stored record. */
  ghost predicate LinksOk(s: Repo)
  {
    && ThreadsOk(s.revisions.data, s.threads.data) && CommentsOk(s.threads.data, s.comments.data)
    && ReactionsOk(s.comments.data, s.reactions.data) && ApprovalsOk(s.revisions.data, s.approvals.data)
    && ReviewThreadsOk(s.revisions.data, s.reviewThreads.data) && RequestsOk(s.revisions.data, s.requests.data)
    && AnnotationsOk(s.revisions.data, s.annotations.data)
  }

  lemma IntactLinks(s: Repo)
    requires Intact(s)
    ensures LinksOk(s) && RevisionsOk(s.projects.data, s.revisions.data) && StatesOk(s.projects.data, s.states.data)
  {
    hide Filed, FiledWithin, RevisionsOk, ThreadsOk, CommentsOk, ReactionsOk, ApprovalsOk, ReviewThreadsOk, RequestsOk,
      AnnotationsOk, StatesOk;
  }

  lemma SwapLinks(s: Repo, p: Id, c: Content, t: Repo)
    requires LinksOk(s) && ContentSwapped(s, p, c, t) && ValidContent(c, p)
    ensures LinksOk(t)
  {
    hide OwnedBy, Swapped, ValidRevisions, ValidComments, ValidReactions, ValidApprovals, ValidReviewThreads,
      ValidRequests,
         ValidAnnotations, RevisionsSwapped, ThreadsOk, CommentsOk, ReactionsOk, ApprovalsOk, ReviewThreadsOk,
           RequestsOk, AnnotationsOk;
    SwappedRevisions(s.revisions.data, p, c.revisions, t.revisions.data);
    ThreadsSwapOk(t.revisions.data, s, p, c, t.threads.data);
    SwappedThreads(s, p, c.threads, t.threads.data);
    CommentsSwapOk(t.threads.data, s, p, c, t.comments.data);
    ReactionsSwapOk(t.comments.data, s, p, c, t.reactions.data);
    ApprovalsSwapOk(t.revisions.data, s, p, c, t.approvals.data);
    ReviewThreadsSwapOk(t.revisions.data, s, p, c, t.reviewThreads.data);
    RequestsSwapOk(t.revisions.data, s, p, c, t.requests.data);
    AnnotationsSwapOk(t.revisions.data, s, p, c, t.annotations.data);
  }

  /** Each of the eight maps is filed under its own keys. */
  ghost predicate ContentFiled(s: Repo)
  {
    && Filed(s.revisions, RevisionKey) && Filed(s.threads, ThreadKey) && Filed(s.comments, CommentKey)
    && Filed(s.reactions, ReactionKey) && Filed(s.approvals, ApprovalKey) && Filed(s.reviewThreads, ReviewThreadKey)
    && Filed(s.requests, RequestKey) && Filed(s.annotations, AnnotationKey)
  }

  lemma SwapContentFiled(s: Repo, p: Id, c: Content)
    requires ContentFiled(s) && NoCollision(s, p, c)
    ensures ContentFiled(SwapContent(s, p, c))
  {
    hide Swap, Filed, Free, OwnedBy;
    SwapFiled(s.revisions, RevisionsOf(s, p), c.revisions, RevisionKey);
    SwapFiled(s.threads, ThreadsOf(s, p), c.threads, ThreadKey);
    SwapFiled(s.comments, CommentsOf(s, p), c.comments, CommentKey);
    SwapFiled(s.reactions, ReactionsOf(s, p), c.reactions, ReactionKey);
    SwapFiled(s.approvals, ApprovalsOf(s, p), c.approvals, ApprovalKey);
    SwapFiled(s.reviewThreads, ReviewThreadsOf(s, p), c.reviewThreads, ReviewThreadKey);
    SwapFiled(s.requests, RequestsOf(s, p), c.requests, RequestKey);
    SwapFiled(s.annotations, AnnotationsOf(s, p), c.annotations, AnnotationKey);
  }

  lemma IntactParts(s: Repo)
    ensures Intact(s) <==>
            && ContentFiled(s) && LinksOk(s) && RevisionsOk(s.projects.data, s.revisions.data)
            && |s.revisions.data| <= MAX_ITEMS && |s.threads.data| <= MAX_ITEMS && |s.comments.data| <= MAX_ITEMS
            && |s.reactions.data| <= MAX_ITEMS && |s.approvals.data| <= MAX_ITEMS && |s.reviewThreads.data| <= MAX_ITEMS
            && |s.requests.data| <= MAX_ITEMS && |s.annotations.data| <= MAX_ITEMS
            && FiledWithin(s.projects, ProjectKey) && Filed(s.states, StateKey)
            && StatesOk(s.projects.data, s.states.data)
            && Filed(s.changes, ChangeKey)
  {
    hide Filed, RevisionsOk, ThreadsOk, CommentsOk, ReactionsOk, ApprovalsOk, ReviewThreadsOk, RequestsOk,
      AnnotationsOk, StatesOk;
  }

  lemma KeepFiled<K(!new), V(!new)>(m: OMap<K, V>, keep: set<K>, key: V -> K)
    requires Filed(m, key)
    ensures Filed(Keep(m, keep), key) && Keep(m, keep).data.Keys <= m.data.Keys
  {
    KeepGood(m, keep);
  }

  lemma {:induction false} AddChangesFiled(m: OMap<Id, Change>, changes: seq<Change>)
    requires Filed(m, ChangeKey)
    ensures AddChanges(m, changes).Some? ==> Filed(AddChanges(m, changes).value, ChangeKey)
    decreases |changes|
  {
    hide Filed;
    if changes != [] {
      SetFiled(m, changes[0], ChangeKey);
      AddChangesFiled(Set(m, changes[0].id, changes[0]), changes[1..]);
    }
  }

  /** The project, its review state and the change index after a replacement. */
  lemma RestFiled(s: Repo, n: Snapshot, changes: OMap<Id, Change>)
    requires FiledWithin(s.projects, ProjectKey) && Filed(s.states, StateKey)
             && StatesOk(s.projects.data, s.states.data)
    requires Filed(s.changes, ChangeKey) && ChangesWith(s, n) == Some(changes)
    requires n.state.Some? ==> n.state.value.projectId == n.project.id
    ensures Filed(Set(s.projects, n.project.id, n.project), ProjectKey)
    ensures Filed(StatesWith(s, n), StateKey) && Filed(changes, ChangeKey)
    ensures StatesOk(Set(s.projects, n.project.id, n.project).data, StatesWith(s, n).data)
  {
    SetFiled(s.projects, n.project, ProjectKey);
    var rest := Without(s.states, {n.project.id});
    KeepFiled(s.states, s.states.data.Keys - {n.project.id}, StateKey);
    if n.state.Some? { SetFiled(rest, n.state.value, StateKey); }
    KeepFiled(s.changes, s.changes.data.Keys - Keys(StateOf(s, n.project.id).changes, ChangeKey), ChangeKey);
    AddChangesFiled(ChangesWithout(s, n.project.id), if n.state.Some? then n.state.value.changes else []);
    hide Filed;
  }

  lemma RevisionsSwapOk(projects: map<Id, Project>, after: map<Id, Project>, s: Repo, p: Id, c: Content,
                        t: map<Id, Revision>)
    requires RevisionsOk(projects, s.revisions.data) && ValidRevisions(c.revisions, p)
    requires Swapped(s.revisions.data, RevisionsOf(s, p), c.revisions, RevisionKey, t)
    requires (forall q <- projects :: q != p ==> q in after) && (c.revisions != [] ==> p in after)
    ensures RevisionsOk(after, t)
  {}

  /** Replacement keeps referential integrity. */
  lemma ReplaceKeeps(s: Repo, n: Snapshot, expectedLatest: Option<Id>, fieldsValid: bool)
    requires Intact(s)
    ensures Good(s.revisions) && Intact(Replace(s, n, expectedLatest, fieldsValid).0)
  {
    hide Intact, ReplaceOwned, OwnSnapshot;
    ReplaceOwnedKeeps(s, OwnSnapshot(n), expectedLatest, fieldsValid);
  }

  lemma ReplaceOwnedKeeps(s: Repo, n: Snapshot, expectedLatest: Option<Id>, fieldsValid: bool)
    requires Intact(s)
    ensures Good(s.revisions) && Intact(ReplaceOwned(s, n, expectedLatest, fieldsValid).0)
  {
    hide Intact, Latest, ValidContent, NoCollision, ContentSwapped, ContentFiled, LinksOk, SwapContent, FiledWithin,
      Filed,
         StatesOk, StatesWith, ChangesWith, RevisionsOk;
    IntactMaps(s);
    if ReplaceOwned(s, n, expectedLatest, fieldsValid).1.Done? {
      IntactParts(s);
      var p, changes := n.project.id, ChangesWith(s, n).value;
      var t := SwapContent(s, p, n.content);
      SwapContentSwaps(s, p, n.content);
      SwapLinks(s, p, n.content, t);
      SwapContentFiled(s, p, n.content);
      RestFiled(s, n, changes);
      assert ValidRevisions(n.content.revisions, p)
        && Swapped(s.revisions.data, RevisionsOf(s, p), n.content.revisions, RevisionKey, t.revisions.data) by {
        ContentRevisions(s, p, n.content, t);
      }
      RevisionsSwapOk(s.projects.data, Set(s.projects, p, n.project).data, s, p, n.content, t.revisions.data);
      ReplacementParts(s, n, changes, t);
    }
  }

  lemma ContentRevisions(s: Repo, p: Id, c: Content, t: Repo)
    requires ContentSwapped(s, p, c, t) && ValidContent(c, p)
    ensures ValidRevisions(c.revisions, p)
            && Swapped(s.revisions.data, RevisionsOf(s, p), c.revisions, RevisionKey, t.revisions.data)
  {
    hide Swapped, OwnedBy, ValidRevisions;
  }

  lemma ReplacementParts(s: Repo, n: Snapshot, changes: OMap<Id, Change>, t: Repo)
    requires t == SwapContent(s, n.project.id, n.content) && ContentFiled(t) && LinksOk(t)
    requires Filed(Set(s.projects, n.project.id, n.project), ProjectKey) && Filed(StatesWith(s, n), StateKey)
             && Filed(changes, ChangeKey)
    requires RevisionsOk(Set(s.projects, n.project.id, n.project).data, t.revisions.data)
    requires StatesOk(Set(s.projects, n.project.id, n.project).data, StatesWith(s, n).data)
    requires WithinCapacity(Replacement(s, n, changes))
    ensures Intact(Replacement(s, n, changes))
  {
    hide Intact, Filed, SwapContent, StatesWith, StatesOk, RevisionsOk, ThreadsOk, CommentsOk, ReactionsOk, ApprovalsOk,
         ReviewThreadsOk, RequestsOk, AnnotationsOk;
    IntactParts(Replacement(s, n, changes));
  }

  // ---------- Deletion ----------

  lemma DropWithin<K(!new), V(!new)>(m: OMap<K, V>, gone: set<K>, key: V -> K)
    requires Filed(m, key)
    ensures |Swap(m, gone, [], key).data| <= |m.data|
  {
    KeepFiled(m, m.data.Keys - gone, key);
    SubsetSize(Keep(m, m.data.Keys - gone).data.Keys, m.data.Keys);
  }

  lemma SubsetSize<K(!new)>(a: set<K>, b: set<K>)
    requires a <= b
    ensures |a| <= |b|
  {
    assert b == a + (b - a);
  }

  lemma NothingCollides(s: Repo, p: Id)
    ensures NoCollision(s, p, NOTHING) && ValidContent(NOTHING, p)
  {
    hide OwnedBy;
  }

  /** Deletion keeps referential integrity: nothing of another project pointed into the deleted one. */
  lemma DeleteKeeps(s: Repo, p: Id)
    requires Intact(s)
    ensures Intact(Delete(s, p))
  {
    hide Intact, ContentSwapped, ContentFiled, LinksOk, SwapContent, ValidContent, NoCollision, FiledWithin, Filed,
      StatesOk, RevisionsOk;
    if p in s.projects.data {
      IntactParts(s);
      var t := SwapContent(s, p, NOTHING);
      NothingCollides(s, p);
      SwapContentSwaps(s, p, NOTHING);
      SwapLinks(s, p, NOTHING, t);
      SwapContentFiled(s, p, NOTHING);
      ContentRevisions(s, p, NOTHING, t);
      RevisionsSwapOk(s.projects.data, Without(s.projects, {p}).data, s, p, NOTHING, t.revisions.data);
      DeletedSizes(s, p);
      DeletedRest(s, p);
      IntactParts(Delete(s, p));
      DeletedLinks(s, p, t);
    }
  }

  lemma DeletedLinks(s: Repo, p: Id, t: Repo)
    requires p in s.projects.data && t == SwapContent(s, p, NOTHING) && ContentFiled(t) && LinksOk(t)
    ensures ContentFiled(Delete(s, p)) && LinksOk(Delete(s, p)) && Delete(s, p).revisions == t.revisions
  {
    hide Filed, SwapContent, ThreadsOk, CommentsOk, ReactionsOk, ApprovalsOk, ReviewThreadsOk, RequestsOk,
      AnnotationsOk;
  }

  lemma DeletedSizes(s: Repo, p: Id)
    requires ContentFiled(s)
    ensures var t := SwapContent(s, p, NOTHING);
            && |t.revisions.data| <= |s.revisions.data| && |t.threads.data| <= |s.threads.data|
            && |t.comments.data| <= |s.comments.data| && |t.reactions.data| <= |s.reactions.data|
            && |t.approvals.data| <= |s.approvals.data| && |t.reviewThreads.data| <= |s.reviewThreads.data|
            && |t.requests.data| <= |s.requests.data| && |t.annotations.data| <= |s.annotations.data|
  {
    hide Filed, Swap, OwnedBy;
    DropWithin(s.revisions, RevisionsOf(s, p), RevisionKey);
    DropWithin(s.threads, ThreadsOf(s, p), ThreadKey);
    DropWithin(s.comments, CommentsOf(s, p), CommentKey);
    DropWithin(s.reactions, ReactionsOf(s, p), ReactionKey);
    DropWithin(s.approvals, ApprovalsOf(s, p), ApprovalKey);
    DropWithin(s.reviewThreads, ReviewThreadsOf(s, p), ReviewThreadKey);
    DropWithin(s.requests, RequestsOf(s, p), RequestKey);
    DropWithin(s.annotations, AnnotationsOf(s, p), AnnotationKey);
  }

  lemma DeletedRest(s: Repo, p: Id)
    requires FiledWithin(s.projects, ProjectKey) && Filed(s.states, StateKey)
             && StatesOk(s.projects.data, s.states.data)
    requires Filed(s.changes, ChangeKey)
    ensures FiledWithin(Without(s.projects, {p}), ProjectKey) && Filed(Without(s.states, {p}), StateKey)
    ensures StatesOk(Without(s.projects, {p}).data, Without(s.states, {p}).data)
            && Filed(ChangesWithout(s, p), ChangeKey)
  {
    KeepFiled(s.projects, s.projects.data.Keys - {p}, ProjectKey);
    SubsetSize(Without(s.projects, {p}).data.Keys, s.projects.data.Keys);
    KeepFiled(s.states, s.states.data.Keys - {p}, StateKey);
    KeepFiled(s.changes, s.changes.data.Keys - Keys(StateOf(s, p).changes, ChangeKey), ChangeKey);
    hide Filed;
  }

  // ---------- Exports around a swap ----------

  /** The owners of comments, reactions and approvals follow the swap. */
  lemma OwnersFollow(s: Repo, p: Id, c: Content, t: Repo)
    requires LinksOk(s) && ContentSwapped(s, p, c, t) && ValidContent(c, p)
    ensures OwnersHold(s.comments.data, CommentOwner(s.threads.data), CommentOwner(t.threads.data), Some(p), c.comments)
    ensures OwnersHold(s.reactions.data, ReactionOwner(s.threads.data, s.comments.data),
                       ReactionOwner(t.threads.data, t.comments.data), Some(p), c.reactions)
    ensures OwnersHold(s.approvals.data, ApprovalOwner(s.revisions.data), ApprovalOwner(t.revisions.data), Some(p),
                       c.approvals)
  {
    hide Swapped, ValidRevisions, ValidComments, ValidReactions, ValidApprovals, ValidReviewThreads, ValidRequests,
      OwnersHold,
         ValidAnnotations, RevisionsSwapped, ThreadsOk, CommentsOk, ReactionsOk, ApprovalsOk, ReviewThreadsOk,
           RequestsOk, AnnotationsOk;
    SwappedThreads(s, p, c.threads, t.threads.data);
    CommentOwnersFollow(s, p, c, t.threads.data);
    ReactionOwnersFollow(s, p, c, t.threads.data, t.comments.data);
    SwappedRevisions(s.revisions.data, p, c.revisions, t.revisions.data);
    ApprovalOwnersFollow(s, p, c, t.revisions.data);
  }

  lemma CommentOwnersFollow(s: Repo, p: Id, c: Content, threads: map<Id, Thread>)
    requires CommentsOk(s.threads.data, s.comments.data) && ValidComments(c.threads, c.comments)
    requires forall id <- Keys(c.threads, ThreadKey) :: id in threads && threads[id].projectId == p
    requires forall id <- s.threads.data :: s.threads.data[id].projectId != p
               ==> id in threads && threads[id] == s.threads.data[id]
    ensures OwnersHold(s.comments.data, CommentOwner(s.threads.data), CommentOwner(threads), Some(p), c.comments)
  {
    forall k <- s.comments.data ensures s.comments.data[k].threadId in s.threads.data {
      assert CommentOk(s.threads.data, s.comments.data, s.comments.data[k]);
    }
  }

  lemma ReactionOwnersFollow(s: Repo, p: Id, c: Content, threads: map<Id, Thread>, comments: map<Id, Comment>)
    requires ReactionsOk(s.comments.data, s.reactions.data) && ValidReactions(c.comments, c.reactions)
    requires Swapped(s.comments.data, CommentsOf(s, p), c.comments, CommentKey, comments)
    requires OwnersHold(s.comments.data, CommentOwner(s.threads.data), CommentOwner(threads), Some(p), c.comments)
    ensures OwnersHold(s.reactions.data, ReactionOwner(s.threads.data, s.comments.data),
                       ReactionOwner(threads, comments), Some(p), c.reactions)
  {
    forall r <- c.reactions ensures ReactionOwner(threads, comments)(r) == Some(p) {
      assert r.commentId in Keys(c.comments, CommentKey);
      assert comments[r.commentId] in c.comments;
    }
  }

  lemma ApprovalOwnersFollow(s: Repo, p: Id, c: Content, revisions: map<Id, Revision>)
    requires ApprovalsOk(s.revisions.data, s.approvals.data) && ValidApprovals(c.revisions, c.approvals)
    requires RevisionsSwapped(s.revisions.data, p, c.revisions, revisions)
    ensures OwnersHold(s.approvals.data, ApprovalOwner(s.revisions.data), ApprovalOwner(revisions), Some(p),
                       c.approvals)
  {
    forall a <- c.approvals ensures ApprovalOwner(revisions)(a) == Some(p) { assert Of(revisions, a.revisionId, p); }
  }

  lemma PlainOwners(s: Repo, p: Id, c: Content)
    requires ValidContent(c, p)
    ensures OwnersHold(s.revisions.data, RevisionOwner, RevisionOwner, Some(p), c.revisions)
    ensures OwnersHold(s.threads.data, ThreadOwner, ThreadOwner, Some(p), c.threads)
    ensures OwnersHold(s.reviewThreads.data, ReviewThreadOwner, ReviewThreadOwner, Some(p), c.reviewThreads)
    ensures OwnersHold(s.requests.data, RequestOwner, RequestOwner, Some(p), c.requests)
    ensures OwnersHold(s.annotations.data, AnnotationOwner, AnnotationOwner, Some(p), c.annotations)
  {
    hide ValidComments, ValidReactions, ValidApprovals, Unique, Names, Keys;
  }

  /** The content of every other project is exported as before the swap. */
  lemma OtherContent(s: Repo, p: Id, c: Content, q: Id)
    requires Intact(s) && NoCollision(s, p, c) && ValidContent(c, p) && q != p
    ensures ContentOf(SwapContent(s, p, c), q) == ContentOf(s, q)
  {
    hide Intact, LinksOk, Swap, Good, Free, OwnedBy, OwnersHold, ContentSwapped, ValidContent, Listed;
    IntactMaps(s);
    IntactLinks(s);
    SwapContentSwaps(s, p, c);
    var t := SwapContent(s, p, c);
    OwnersFollow(s, p, c, t);
    PlainOwners(s, p, c);
    OthersListed(s.revisions, RevisionOwner, RevisionOwner, Some(p), c.revisions, RevisionKey, Some(q));
    OthersListed(s.threads, ThreadOwner, ThreadOwner, Some(p), c.threads, ThreadKey, Some(q));
    OthersListed(s.comments, CommentOwner(s.threads.data), CommentOwner(t.threads.data), Some(p), c.comments,
                 CommentKey, Some(q));
    OthersListed(s.reactions, ReactionOwner(s.threads.data, s.comments.data),
                 ReactionOwner(t.threads.data, t.comments.data),
                 Some(p), c.reactions, ReactionKey, Some(q));
    OthersListed(s.approvals, ApprovalOwner(s.revisions.data), ApprovalOwner(t.revisions.data), Some(p), c.approvals,
                 ApprovalKey, Some(q));
    OthersListed(s.reviewThreads, ReviewThreadOwner, ReviewThreadOwner, Some(p), c.reviewThreads, ReviewThreadKey,
                 Some(q));
    OthersListed(s.requests, RequestOwner, RequestOwner, Some(p), c.requests, RequestKey, Some(q));
    OthersListed(s.annotations, AnnotationOwner, AnnotationOwner, Some(p), c.annotations, AnnotationKey, Some(q));
  }

  /** No two reactions share a `user:emoji` text at one comment, and no user approves one revision twice. */
  predicate DistinctKeys(c: Content) { Unique(c.reactions, ReactionKey) && Unique(c.approvals, ApprovalKey) }

  lemma ValidUnique(c: Content, p: Id)
    requires ValidContent(c, p)
    ensures Unique(c.revisions, RevisionKey) && Unique(c.threads, ThreadKey) && Unique(c.comments, CommentKey)
    ensures Unique(c.reviewThreads, ReviewThreadKey) && Unique(c.requests, RequestKey)
            && Unique(c.annotations, AnnotationKey)
  {
    hide Unique, Names, Keys;
  }

  /** The list of reactions or that of approvals is shorter. */
  predicate Shorter(a: Content, b: Content) { |a.reactions| < |b.reactions| || |a.approvals| < |b.approvals| }

  /** The content itself is exported exactly as it was copied when its keys differ, and otherwise with fewer records. */
  lemma OwnContent(s: Repo, p: Id, c: Content)
    requires Intact(s) && NoCollision(s, p, c) && ValidContent(c, p)
    ensures ContentOf(SwapContent(s, p, c), p) == c <==> DistinctKeys(c)
    ensures !DistinctKeys(c) ==> Shorter(ContentOf(SwapContent(s, p, c), p), c)
  {
    hide Intact, LinksOk, Swap, Good, Free, OwnedBy, OwnersHold, ContentSwapped, ValidContent, Listed, NoRepeats;
    IntactMaps(s);
    IntactLinks(s);
    SwapContentSwaps(s, p, c);
    var t := SwapContent(s, p, c);
    OwnersFollow(s, p, c, t);
    PlainOwners(s, p, c);
    ValidUnique(c, p);
    OwnListed(s.revisions, RevisionOwner, RevisionOwner, Some(p), c.revisions, RevisionKey);
    OwnListed(s.threads, ThreadOwner, ThreadOwner, Some(p), c.threads, ThreadKey);
    OwnListed(s.comments, CommentOwner(s.threads.data), CommentOwner(t.threads.data), Some(p), c.comments, CommentKey);
    OwnListed(s.reactions, ReactionOwner(s.threads.data, s.comments.data),
              ReactionOwner(t.threads.data, t.comments.data),
              Some(p), c.reactions, ReactionKey);
    OwnListed(s.approvals, ApprovalOwner(s.revisions.data), ApprovalOwner(t.revisions.data), Some(p), c.approvals,
              ApprovalKey);
    OwnListed(s.reviewThreads, ReviewThreadOwner, ReviewThreadOwner, Some(p), c.reviewThreads, ReviewThreadKey);
    OwnListed(s.requests, RequestOwner, RequestOwner, Some(p), c.requests, RequestKey);
    OwnListed(s.annotations, AnnotationOwner, AnnotationOwner, Some(p), c.annotations, AnnotationKey);
  }

  /** Copying changes no key, and no length. */
  lemma OwnKeys(c: Content)
    ensures DistinctKeys(OwnContents(c)) == DistinctKeys(c)
    ensures |OwnContents(c).reactions| == |c.reactions| && |OwnContents(c).approvals| == |c.approvals|
  {
    hide OwnBody;
    EachKeys(c.reactions, OwnReaction, ReactionKey);
    EachKeys(c.approvals, OwnApproval, ApprovalKey);
  }

  /** A replacement that succeeds starts from the expected latest revision, and leaves the export of every other
    * project alone; its own export is the copied snapshot exactly when the reaction and approval keys differ, and the
    * snapshot as it was given exactly when, besides, no record has a key `length`. One that fails changes nothing. */
  lemma ReplaceLaw(s: Repo, n: Snapshot, expectedLatest: Option<Id>, fieldsValid: bool, q: Id)
    requires Intact(s)
    ensures Good(s.revisions)
    ensures var (t, outcome) := Replace(s, n, expectedLatest, fieldsValid);
            && (outcome.Threw? ==> t == s)
            && (q != n.project.id ==> Export(t, q) == Export(s, q))
            && (outcome.Done? ==> (Export(t, n.project.id) == Some(OwnSnapshot(n)) <==> DistinctKeys(n.content)))
            && (outcome.Done? ==> (Export(t, n.project.id) == Some(n) <==> DistinctKeys(n.content) && PlainSnapshot(n)))
            && (outcome.Done? && expectedLatest.Some? ==>
                  Latest(s, n.project.id).Some? && Latest(s, n.project.id).value.id == expectedLatest.value)
  {
    hide Intact, ReplaceOwned, DistinctKeys, PlainSnapshot, Export, Shorter, OwnContents, Each, OwnBody;
    ReplaceOwnedLaw(s, OwnSnapshot(n), expectedLatest, fieldsValid, q);
    OwnKeys(n.content);
    OwnSnapshotSame(n);
    var (t, outcome) := Replace(s, n, expectedLatest, fieldsValid);
    if outcome.Done? && !DistinctKeys(n.content) {
      ShorterDiffers(Export(t, n.project.id).value.content, OwnContents(n.content), n.content);
    }
  }

  /** What was imported, and so was within the budgets of a copy, is exported again without a refusal, exactly when its
    * reaction and approval keys differ. */
  lemma ImportedExports(s: Repo, n: Snapshot, expectedLatest: Option<Id>, fieldsValid: bool, fits: Snapshot -> bool)
    requires Intact(s) && Good(s.revisions) && fits(OwnSnapshot(n))
             && Replace(s, n, expectedLatest, fieldsValid).1.Done?
    ensures ExportCopy(Replace(s, n, expectedLatest, fieldsValid).0, n.project.id, fits) == Copied(Some(OwnSnapshot(n)))
            <==> DistinctKeys(n.content)
  {
    hide Intact, Replace, DistinctKeys, Export, OwnSnapshot;
    ReplaceLaw(s, n, expectedLatest, fieldsValid, n.project.id);
  }

  lemma ShorterDiffers(a: Content, b: Content, c: Content)
    requires Shorter(a, b) && |b.reactions| == |c.reactions| && |b.approvals| == |c.approvals|
    ensures a != c
  {}

  lemma ReplaceOwnedLaw(s: Repo, n: Snapshot, expectedLatest: Option<Id>, fieldsValid: bool, q: Id)
    requires Intact(s)
    ensures Good(s.revisions)
    ensures var (t, outcome) := ReplaceOwned(s, n, expectedLatest, fieldsValid);
            && (outcome.Threw? ==> t == s)
            && (q != n.project.id ==> Export(t, q) == Export(s, q))
            && (outcome.Done? ==> (Export(t, n.project.id) == Some(n) <==> DistinctKeys(n.content)))
            && (outcome.Done? ==> Export(t, n.project.id).Some?)
            && (outcome.Done? && !DistinctKeys(n.content) ==> Shorter(Export(t, n.project.id).value.content, n.content))
            && (outcome.Done? && expectedLatest.Some? ==>
                  Latest(s, n.project.id).Some? && Latest(s, n.project.id).value.id == expectedLatest.value)
  {
    hide Intact, Latest, ValidContent, NoCollision, SwapContent, ContentOf, DistinctKeys, WithinCapacity, Shorter;
    IntactMaps(s);
    var (t, outcome) := ReplaceOwned(s, n, expectedLatest, fieldsValid);
    if outcome.Done? {
      var swapped := SwapContent(s, n.project.id, n.content);
      SameContent(swapped, t, q);
      SameContent(swapped, t, n.project.id);
      OwnContent(s, n.project.id, n.content);
      if q != n.project.id { OtherContent(s, n.project.id, n.content, q); }
    }
  }

  lemma SameContent(s: Repo, t: Repo, q: Id)
    requires t == s.(projects := t.projects, states := t.states, changes := t.changes)
    ensures ContentOf(s, q) == ContentOf(t, q)
  {
    hide Listed, OwnedBy;
  }

  /** A deleted project is gone, and every other project is exported as before. */
  lemma DeleteLaw(s: Repo, p: Id, q: Id)
    requires Intact(s)
    ensures Export(Delete(s, p), q) == if q == p then None else Export(s, q)
  {
    hide Intact, NoCollision, ValidContent, SwapContent, ContentOf;
    if p in s.projects.data && q != p {
      var swapped := SwapContent(s, p, NOTHING);
      SameContent(swapped, Delete(s, p), q);
      NothingCollides(s, p);
      OtherContent(s, p, NOTHING, q);
    }
  }
}
