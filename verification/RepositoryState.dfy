/** The in-memory collaboration repository as a state and its operations as steps. What a record carries besides
  * the fields the repository looks at is its `body`; `fieldsValid` is the verdict of the field-by-field
  * validators on an operation's input. An operation that awaits is two steps, before and after. */
module RepositoryState {
  import opened Wrappers
  import opened Utf16
  import opened OrderedMaps
  import Documents

  type Id = Text

  type Body = Documents.Val

  const NO_BODY: Body := Documents.Null

  const MAX_ITEMS: nat := 10_000
  const MAX_REFERENCES: nat := 1_000

  datatype Project = Project(id: Id, organizationId: Id, body: Body)

  datatype Revision = Revision(id: Id, projectId: Id, sequence: int, parent: Option<Id>, fingerprint: Text, body: Body)

  datatype Thread = Thread(id: Id, projectId: Id, revisionId: Id, body: Body)

  datatype Comment = Comment(id: Id, threadId: Id, parent: Option<Id>, body: Body)

  datatype Reaction = Reaction(commentId: Id, userId: Text, emoji: Text, body: Body)

  datatype Approval = Approval(revisionId: Id, userId: Id, body: Body)

  datatype ReviewThread = ReviewThread(id: Id, projectId: Id, revisionId: Id, body: Body)

  /** A revision as a record names it: its id and the fingerprint it must have. */
  datatype Reference = Reference(id: Id, fingerprint: Text)

  datatype Request = Request(id: Id, projectId: Id, base: Reference, result: Option<Reference>, undo: Option<Reference>,
                             body: Body)

  datatype Annotation = Annotation(id: Id, projectId: Id, revisionId: Id, body: Body)

  datatype Readiness = Draft | ReadyForReview | ReadyForHandoff

  datatype Intent = Review | Handoff

  datatype Currency = NoBaseline | Current | Stale

  datatype Baseline = Baseline(id: Id, projectId: Id, revision: Reference, intent: Intent, createdBy: Id,
                               createdAt: Text)

  /** A semantic design change with its revision pair. */
  datatype Change = Change(id: Id, projectId: Id, before: Reference, current: Reference, occurredAt: Text, body: Body)

  datatype DesignState = DesignState(
    projectId: Id, readiness: Readiness, baseline: Option<Baseline>, currency: Currency, approvalsStale: bool,
      changes: seq<Change>)

  function DraftState(projectId: Id): DesignState { DesignState(projectId, Draft, None, NoBaseline, false, []) }

  datatype Repo = Repo(
    projects: OMap<Id, Project>,
    revisions: OMap<Id, Revision>,
    threads: OMap<Id, Thread>,
    comments: OMap<Id, Comment>,
    reactions: OMap<(Id, Text), Reaction>,
    approvals: OMap<(Id, Id), Approval>,
    reviewThreads: OMap<Id, ReviewThread>,
    requests: OMap<Id, Request>,
    annotations: OMap<Id, Annotation>,
    states: OMap<Id, DesignState>,
    changes: OMap<Id, Change>,
    idempotency: map<(Text, Text), CommitResult>)

  datatype Error = NotFound | Duplicate | Invalid | Conflict

  datatype Outcome = Done | Threw(error: Error)

  const COLON: Text := [0x3A]

  /** `key(commentId, user:emoji)`: two different pairs can share the text after the separator. */
  function ReactionKey(r: Reaction): (Id, Text) { (r.commentId, r.userId + COLON + r.emoji) }

  function ApprovalKey(a: Approval): (Id, Id) { (a.revisionId, a.userId) }

  function Stored<K, V>(m: OMap<K, V>, k: K): Option<V> { if k in m.data then Some(m.data[k]) else None }

  predicate Room<K, V>(m: OMap<K, V>, k: K) { k in m.data || |m.data| < MAX_ITEMS }

  /** The stored revision `id`, when it belongs to the project. */
  predicate Owned(s: Repo, id: Id, projectId: Id)
  {
    id in s.revisions.data && s.revisions.data[id].projectId == projectId
  }

  // ---------- The latest revision ----------

  /** `a` sorts before `b`: higher sequence first, then higher id. */
  predicate Later(a: Revision, b: Revision)
  {
    a.sequence > b.sequence || (a.sequence == b.sequence && Less(b.id, a.id))
  }

  function Best(revisions: seq<Revision>, projectId: Id): Option<Revision>
  {
    if revisions == [] then None
    else
      var rest := Best(revisions[..|revisions| - 1], projectId);
      var r := revisions[|revisions| - 1];
      if r.projectId != projectId || (rest.Some? && !Later(r, rest.value)) then rest else Some(r)
  }

  ghost function Latest(s: Repo, projectId: Id): Option<Revision>
    requires Good(s.revisions)
  {
    InOrder(s.revisions);
    Best(At(s.revisions, s.revisions.order), projectId)
  }

  lemma InOrder<K(!new), V(!new)>(m: OMap<K, V>)
    requires Good(m)
    ensures forall k :: k in m.order <==> k in m.data
  {
    assert forall k :: k in m.order <==> k in (set x <- m.order);
  }

  lemma LaterTransitive(a: Revision, b: Revision, c: Revision)
    requires Later(a, b) && Later(b, c)
    ensures Later(a, c)
  {
    if a.sequence == b.sequence == c.sequence { LessTransitive(c.id, b.id, a.id); }
  }

  lemma {:induction false} BestIsLatest(revisions: seq<Revision>, projectId: Id)
    ensures var best := Best(revisions, projectId);
            && (best.None? ==> forall r <- revisions :: r.projectId != projectId)
            && (best.Some? ==> best.value in revisions && best.value.projectId == projectId)
            && (best.Some? ==> forall r <- revisions :: r.projectId == projectId ==> !Later(r, best.value))
  {
    if revisions != [] {
      var front, r := revisions[..|revisions| - 1], revisions[|revisions| - 1];
      BestIsLatest(front, projectId);
      assert revisions == front + [r];
      var rest := Best(front, projectId);
      LessTotal(r.id, r.id);
      if Best(revisions, projectId) == Some(r) && rest.Some? {
        forall x <- front | x.projectId == projectId ensures !Later(x, r) {
          if Later(x, r) { LaterTransitive(x, r, rest.value); }
        }
      }
    }
  }

  /** The latest revision is the project's, and no other of the project's revisions sorts before it. */
  lemma LatestIsLatest(s: Repo, projectId: Id)
    requires Good(s.revisions)
    ensures var best := Latest(s, projectId);
            && (best.None? <==> forall id <- s.revisions.data :: s.revisions.data[id].projectId != projectId)
            && (best.Some? ==>
                  && (exists id <- s.revisions.data :: s.revisions.data[id] == best.value)
                  && best.value.projectId == projectId
                  && forall id <- s.revisions.data :: s.revisions.data[id].projectId == projectId ==>
                                                        !Later(s.revisions.data[id], best.value))
  {
    InOrder(s.revisions);
    var all := At(s.revisions, s.revisions.order);
    BestIsLatest(all, projectId);
    forall id <- s.revisions.data ensures s.revisions.data[id] in all {
      var i :| 0 <= i < |s.revisions.order| && s.revisions.order[i] == id;
      assert all[i] == s.revisions.data[id];
    }
    var best := Latest(s, projectId);
    if best.Some? {
      var i :| 0 <= i < |all| && all[i] == best.value;
      assert s.revisions.data[s.revisions.order[i]] == best.value;
    }
  }

  // ---------- Creating and updating single records ----------

  function CreateProject(s: Repo, p: Project): (Repo, Outcome)
  {
    if p.id in s.projects.data then (s, Threw(Duplicate))
    else if !Room(s.projects, p.id) then (s, Threw(Conflict))
    else (s.(projects := Set(s.projects, p.id, p)), Done)
  }

  function IdOf(latest: Option<Revision>): Option<Id> { if latest.Some? then Some(latest.value.id) else None }

  function NextSequence(latest: Option<Revision>): int { (if latest.Some? then latest.value.sequence else 0) + 1 }

  /** The checks of `appendRevision` before its `await`. */
  function AppendRefused(s: Repo, r: Revision): Option<Error>
  {
    if r.projectId !in s.projects.data then Some(NotFound) else if r.id in s.revisions.data then Some(Duplicate)
                                                                else None
  }

  /** `appendRevision` after its `await`; `latest` is the revision that was latest before it. */
  function FinishAppend(s: Repo, r: Revision, expectedParent: Option<Id>, latest: Option<Revision>): (Repo, Outcome)
  {
    if IdOf(latest) != expectedParent || r.sequence != NextSequence(latest)
       || !Room(s.revisions, r.id) then (s, Threw(Conflict))
    else (s.(revisions := Set(s.revisions, r.id, r)), Done)
  }

  function CreateThread(s: Repo, t: Thread, fieldsValid: bool): (Repo, Outcome)
  {
    if t.id in s.threads.data then (s, Threw(Duplicate))
    else if !Owned(s, t.revisionId, t.projectId) then (s, Threw(NotFound))
    else if !fieldsValid then (s, Threw(Invalid))
    else if !Room(s.threads, t.id) then (s, Threw(Conflict))
    else (s.(threads := Set(s.threads, t.id, t)), Done)
  }

  /** `updateThreadResolution`: only the resolution, part of the body, changes. */
  function ResolveThread(s: Repo, id: Id, body: Body): (Repo, Outcome)
  {
    if id !in s.threads.data then (s, Threw(NotFound))
    else (s.(threads := Set(s.threads, id, s.threads.data[id].(body := body))), Done)
  }

  function CreateComment(s: Repo, c: Comment, fieldsValid: bool): (Repo, Outcome)
  {
    if c.id in s.comments.data then (s, Threw(Duplicate))
    else if c.threadId !in s.threads.data then (s, Threw(NotFound))
    else if c.parent.Some? && c.parent.value !in s.comments.data then (s, Threw(NotFound))
    else if c.parent.Some? && s.comments.data[c.parent.value].threadId != c.threadId then (s, Threw(Invalid))
    else if !fieldsValid then (s, Threw(Invalid))
    else if !Room(s.comments, c.id) then (s, Threw(Conflict))
    else (s.(comments := Set(s.comments, c.id, c)), Done)
  }

  function AddReaction(s: Repo, r: Reaction, fieldsValid: bool): (Repo, Outcome)
  {
    if r.commentId !in s.comments.data then (s, Threw(NotFound))
    else if !fieldsValid then (s, Threw(Invalid))
    else if !Room(s.reactions, ReactionKey(r)) then (s, Threw(Conflict))
    else (s.(reactions := Set(s.reactions, ReactionKey(r), r)), Done)
  }

  function PutApproval(s: Repo, a: Approval): (Repo, Outcome)
  {
    if a.revisionId !in s.revisions.data then (s, Threw(NotFound))
    else if !Room(s.approvals, ApprovalKey(a)) then (s, Threw(Conflict))
    else (s.(approvals := Set(s.approvals, ApprovalKey(a), a)), Done)
  }

  function CreateReviewThread(s: Repo, t: ReviewThread, fieldsValid: bool): (Repo, Outcome)
  {
    if t.id in s.reviewThreads.data then (s, Threw(Duplicate))
    else if !Owned(s, t.revisionId, t.projectId) then (s, Threw(NotFound))
    else if !fieldsValid then (s, Threw(Invalid))
    else if !Room(s.reviewThreads, t.id) then (s, Threw(Conflict))
    else (s.(reviewThreads := Set(s.reviewThreads, t.id, t)), Done)
  }

  /** `moveReviewThread`: a new anchor, so possibly another revision. */
  function MoveReviewThread(s: Repo, id: Id, revisionId: Id, body: Body, fieldsValid: bool): (Repo, Outcome)
  {
    if id !in s.reviewThreads.data then (s, Threw(NotFound))
    else if !Owned(s, revisionId, s.reviewThreads.data[id].projectId) then (s, Threw(NotFound))
    else if !fieldsValid then (s, Threw(Invalid))
    else (s.(reviewThreads :=
             Set(s.reviewThreads, id, s.reviewThreads.data[id].(revisionId := revisionId, body := body))), Done)
  }

  /** The other updates of a stored review thread (message, reaction, read mark, resolve, reopen) keep its anchor. */
  function UpdateReviewThread(s: Repo, id: Id, body: Body, fieldsValid: bool): (Repo, Outcome)
  {
    if id !in s.reviewThreads.data then (s, Threw(NotFound))
    else if !fieldsValid then (s, Threw(Invalid))
    else (s.(reviewThreads := Set(s.reviewThreads, id, s.reviewThreads.data[id].(body := body))), Done)
  }

  /** A reference to a stored revision of the project with that fingerprint. */
  predicate Resolves(revisions: map<Id, Revision>, r: Reference, projectId: Id)
  {
    r.id in revisions && revisions[r.id].projectId == projectId && revisions[r.id].fingerprint == r.fingerprint
  }

  predicate ResultsResolve(revisions: map<Id, Revision>, q: Request)
  {
    && |revisions| <= MAX_REFERENCES
    && (q.result.Some? ==> Resolves(revisions, q.result.value, q.projectId))
    && (q.undo.Some? ==> Resolves(revisions, q.undo.value, q.projectId))
  }

  function CreateRequest(s: Repo, q: Request, fieldsValid: bool): (Repo, Outcome)
  {
    if q.id in s.requests.data then (s, Threw(Duplicate))
    else if !Owned(s, q.base.id, q.projectId) then (s, Threw(NotFound))
    else if !Resolves(s.revisions.data, q.base, q.projectId) || !fieldsValid then (s, Threw(Invalid))
    else if !ResultsResolve(s.revisions.data, q) then (s, Threw(Invalid))
    else if !Room(s.requests, q.id) then (s, Threw(Conflict))
    else (s.(requests := Set(s.requests, q.id, q)), Done)
  }

  /** `updateAIChangeRequest`; the lifecycle table is part of the verdict. */
  function UpdateRequest(s: Repo, q: Request, fieldsValid: bool): (Repo, Outcome)
  {
    if q.id !in s.requests.data then (s, Threw(NotFound))
    else if s.requests.data[q.id].projectId != q.projectId then (s, Threw(Invalid))
    else if !Owned(s, q.base.id, q.projectId) then (s, Threw(NotFound))
    else if !Resolves(s.revisions.data, q.base, q.projectId) || !fieldsValid then (s, Threw(Invalid))
    else if !ResultsResolve(s.revisions.data, q) then (s, Threw(Invalid))
    else (s.(requests := Set(s.requests, q.id, q)), Done)
  }

  function CreateAnnotation(s: Repo, a: Annotation, fieldsValid: bool): (Repo, Outcome)
  {
    if a.id in s.annotations.data then (s, Threw(Duplicate))
    else if !Owned(s, a.revisionId, a.projectId) then (s, Threw(NotFound))
    else if !fieldsValid then (s, Threw(Invalid))
    else if !Room(s.annotations, a.id) then (s, Threw(Conflict))
    else (s.(annotations := Set(s.annotations, a.id, a)), Done)
  }

  // ---------- Committing design revisions ----------

  datatype ReadinessInput = ReadinessInput(id: Id, intent: Intent, revision: Reference)

  datatype ChangeInput = ChangeInput(id: Id, projectId: Id, body: Body)

  datatype Head = Head(projectId: Id, actorId: Id, occurredAt: Text, key: Option<(Text, Text)>)

  /** The three kinds of commit. */
  datatype Commit =
    | AppendOnly(head: Head, revision: Revision, expectedParent: Option<Id>, change: Option<ChangeInput>)
    | MarkReady(head: Head, readiness: ReadinessInput)
    | AppendAndMarkReady(head: Head, revision: Revision, expectedParent: Option<Id>, readiness: ReadinessInput)

  datatype CommitResult =
    | Appended(revision: Revision, changeRecorded: bool)
    | MarkedReady(readiness: ReadinessInput)
    | AppendedAndReady(revision: Revision, readiness: ReadinessInput)

  datatype CommitOutcome = Committed(result: CommitResult) | Replayed(result: CommitResult) | Refused(error: Error)

  function RevisionOf(c: Commit): Option<Revision> { if c.MarkReady? then None else Some(c.revision) }

  function ReadinessOf(c: Commit): Option<ReadinessInput> { if c.AppendOnly? then None else Some(c.readiness) }

  function ChangeOf(c: Commit): Option<ChangeInput> { if c.AppendOnly? then c.change else None }

  function StateOf(s: Repo, projectId: Id): DesignState
  {
    if projectId in s.states.data then s.states.data[projectId] else DraftState(projectId)
  }

  /** Some project's current baseline already has this id. */
  predicate BaselineTaken(states: OMap<Id, DesignState>, id: Id)
  {
    exists p <- states.data :: states.data[p].baseline.Some? && states.data[p].baseline.value.id == id
  }

  function ReferenceTo(r: Revision): Reference { Reference(r.id, r.fingerprint) }

  /** The revision a readiness mark names: the one being appended, or a stored one. */
  function ReadinessRevision(s: Repo, c: Commit): Option<Revision>
    requires !c.AppendOnly?
  {
    if RevisionOf(c).Some? && c.readiness.revision.id == RevisionOf(c).value.id then RevisionOf(c)
    else Stored(s.revisions, c.readiness.revision.id)
  }

  function MarkedState(head: Head, r: ReadinessInput, revision: Revision): DesignState
  {
    DesignState(
      head.projectId, if r.intent == Review then ReadyForReview else ReadyForHandoff,
      Some(Baseline(r.id, head.projectId, ReferenceTo(revision), r.intent, head.actorId, head.occurredAt)),
      Current, false, [])
  }

  /** The checks of `commitDesignRevision` before its `await`. */
  function StartRefused(s: Repo, c: Commit): Option<Error>
  {
    var p := c.head.projectId;
    if p !in s.projects.data then Some(NotFound)
    else if RevisionOf(c).Some? && RevisionOf(c).value.projectId != p then Some(Invalid)
    else if !c.AppendOnly? && (ReadinessRevision(s, c).None? || ReadinessRevision(s, c).value.projectId != p
                               || ReadinessRevision(s, c).value.fingerprint != c.readiness.revision.fingerprint)
                                  then Some(Invalid)
    else None
  }

  /** The checks after the `await` and before the first write; `before` is the revision that was latest before it. */
  function CommitRefused(s: Repo, c: Commit, before: Option<Revision>, fieldsValid: bool): Option<Error>
  {
    var p := c.head.projectId;
    if c.AppendOnly? && StateOf(s, p).baseline.Some? != c.change.Some? then Some(Invalid)
    else if c.AppendOnly? && c.change.Some? && (c.change.value.projectId != p || !fieldsValid) then Some(Invalid)
    else if c.AppendOnly? && c.change.Some? && c.change.value.id in s.changes.data then Some(Duplicate)
    else if RevisionOf(c).Some? then
      var r := RevisionOf(c).value;
      if r.id in s.revisions.data then Some(Duplicate)
      else if IdOf(before) != c.expectedParent || r.sequence != NextSequence(before)
              || !Room(s.revisions, r.id) then Some(Conflict)
      else None
    else None
  }

  /** What can still refuse a readiness mark after the revision is stored. */
  function LateRefused(s: Repo, c: Commit): Option<Error>
  {
    if c.AppendOnly? then None
    else if |s.states.data| > MAX_ITEMS then Some(Invalid)
    else if BaselineTaken(s.states, c.readiness.id) then Some(Duplicate)
    else if c.MarkReady? && !Owned(s, c.readiness.revision.id, c.head.projectId) then Some(Invalid)
    else None
  }

  /** The change a commit records. */
  function RecordedChange(c: Commit, before: Revision): Change
    requires c.AppendOnly? && c.change.Some?
  {
    Change(c.change.value.id, c.change.value.projectId, ReferenceTo(before), ReferenceTo(c.revision), c.head.occurredAt,
           c.change.value.body)
  }

  /** The revision a readiness mark makes the baseline. */
  function MarkedRevision(s: Repo, c: Commit): Revision
    requires !c.AppendOnly? && LateRefused(s, c) == None
  {
    if RevisionOf(c).Some? then RevisionOf(c).value else s.revisions.data[c.readiness.revision.id]
  }

  /** After the revision is stored: the readiness mark or the recorded change. */
  function Recorded(s: Repo, c: Commit, before: Option<Revision>): Repo
    requires LateRefused(s, c) == None
  {
    var p := c.head.projectId;
    var state := StateOf(s, p);
    if !c.AppendOnly? then s.(states := Set(s.states, p, MarkedState(c.head, c.readiness, MarkedRevision(s, c))))
    else if c.change.Some? && before.Some? then
      var change := RecordedChange(c, before.value);
      s.(changes := Set(s.changes, change.id, change),
         states := Set(s.states, p,
                       state.(currency := Stale, approvalsStale := true, changes := state.changes + [change])))
    else s
  }

  function WithRevision(s: Repo, c: Commit): Repo
  {
    if RevisionOf(c).Some? then s.(revisions := Set(s.revisions, RevisionOf(c).value.id, RevisionOf(c).value)) else s
  }

  function ResultOf(s: Repo, c: Commit): CommitResult
  {
    match c
    case AppendOnly(head, revision, _, _) => Appended(revision, StateOf(s, head.projectId).baseline.Some?)
    case MarkReady(_, readiness) => MarkedReady(readiness)
    case AppendAndMarkReady(_, revision, _, readiness) => AppendedAndReady(revision, readiness)
  }

  /** Whether a response can be stored under the commit's idempotency key. */
  predicate Remembers(s: Repo, c: Commit)
  {
    c.head.key.Some? ==> c.head.key.value in s.idempotency || |s.idempotency| < MAX_ITEMS
  }

  /** `commitDesignRevision` after its `await`. The revision is written before a reused baseline id is refused, and
    * everything before a full idempotency store is. */
  function FinishCommit(s: Repo, c: Commit, before: Option<Revision>, fieldsValid: bool): (Repo, CommitOutcome)
  {
    if CommitRefused(s, c, before, fieldsValid).Some? then (s, Refused(CommitRefused(s, c, before, fieldsValid).value))
    else if LateRefused(s, c).Some? then (WithRevision(s, c), Refused(LateRefused(s, c).value))
    else
      var next := Recorded(s, c, before).(revisions := WithRevision(s, c).revisions);
      if !Remembers(s, c) then (next, Refused(Conflict))
      else if c.head.key.None? then (next, Committed(ResultOf(s, c)))
      else (next.(idempotency := s.idempotency[c.head.key.value := ResultOf(s, c)]), Committed(ResultOf(s, c)))
  }

  // ---------- Operations that wait ----------

  /** A call between its two halves, with the revision that was latest when it was made. */
  datatype Pending =
    | Appending(revision: Revision, expectedParent: Option<Id>, latest: Option<Revision>)
    | Committing(commit: Commit, fieldsValid: bool, latest: Option<Revision>)

  /** The first half of `appendRevision`: what is left to do, if anything. */
  ghost function StartAppend(s: Repo, r: Revision, expectedParent: Option<Id>): Option<Pending>
    requires Good(s.revisions)
  {
    if AppendRefused(s, r).Some? then None else Some(Appending(r, expectedParent, Latest(s, r.projectId)))
  }

  /** The first half of `commitDesignRevision`: a stored response is replayed, a refused commit fails. */
  ghost function StartCommit(s: Repo, c: Commit, fieldsValid: bool): Option<Pending>
    requires Good(s.revisions)
  {
    if (c.head.key.Some? && c.head.key.value in s.idempotency) || StartRefused(s, c).Some? then None
    else Some(Committing(c, fieldsValid, Latest(s, c.head.projectId)))
  }

  /** The second half of either. */
  function Finish(s: Repo, f: Pending): Repo
  {
    match f
    case Appending(r, expectedParent, latest) => FinishAppend(s, r, expectedParent, latest).0
    case Committing(c, fieldsValid, latest) => FinishCommit(s, c, latest, fieldsValid).0
  }

  /** The revision that the second half stores, if it gets that far. */
  function Written(s: Repo, f: Pending): Option<Revision>
  {
    match f
    case Appending(r, expectedParent, latest) =>
      if FinishAppend(s, r, expectedParent, latest).1.Done? then Some(r) else None
    case Committing(c, fieldsValid, latest) =>
      if CommitRefused(s, c, latest, fieldsValid).None? then RevisionOf(c) else None
  }
}
