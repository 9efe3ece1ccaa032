/** Compare-and-swap review mutations of the in-memory repository, with pruned operation receipts. */
module ReviewThreads {
  import opened Wrappers

  import opened Utf16
  import opened Documents

  type Id = Text
  type Time = Text

  /** Whatever a record carries besides the fields the mutations look at. */
  type Fields = map<Text, Val>

  const MAX_RECEIPTS: nat := 100
  const MAX_ITEMS: nat := 10_000

  datatype Message = Message(id: Id, createdAt: Time, content: Fields)

  datatype Lifecycle = Open | Resolved

  datatype Mark = Mark(actor: Id, at: Time)

  datatype Thread = Thread(
    id: Id,
    projectId: Id,
    anchor: Val,
    version: int,
    lifecycle: Lifecycle,
    resolved: Option<Mark>,
    reopened: Option<Mark>,
    createdAt: Time,
    messages: seq<Message>,
    content: Fields)

  datatype Mutation =
    | Create(operationId: Id, expectedVersion: int, thread: Thread)
    | Reply(operationId: Id, expectedVersion: int, threadId: Id, message: Message)
    | Resolve(operationId: Id, expectedVersion: int, threadId: Id, actorId: Id, occurredAt: Time)
    | Reopen(operationId: Id, expectedVersion: int, threadId: Id, actorId: Id, occurredAt: Time)

  const EVIDENCE: Text := [0x65, 0x76, 0x69, 0x64, 0x65, 0x6E, 0x63, 0x65]
  const REVISION_ID: Text := [0x72, 0x65, 0x76, 0x69, 0x73, 0x69, 0x6F, 0x6E, 0x49, 0x64]

  /** `thread.anchor.evidence.revisionId`. */
  function RevisionIdOf(t: Thread): Option<Id>
  {
    var id := Lookup(Some(t.anchor), [EVIDENCE, REVISION_ID]);
    if id.Some? && id.value.Str? then Some(id.value.s) else None
  }

  function Target(m: Mutation): Id { if m.Create? then m.thread.id else m.threadId }

  function Untimed(messages: seq<Message>): (r: seq<Message>)
    ensures |r| == |messages| && forall i :: 0 <= i < |r| ==> r[i] == messages[i].(createdAt := [])
  {
    if messages == [] then [] else [messages[0].(createdAt := [])] + Untimed(messages[1..])
  }

  /** The part of a request its fingerprint keeps: not the operation id, nor any time of its own. */
  function Fingerprint(m: Mutation): Mutation
  {
    match m
    case Create(_, v, t) => Create([], v, t.(createdAt := [], messages := Untimed(t.messages)))
    case Reply(_, v, id, message) => Reply([], v, id, message.(createdAt := []))
    case Resolve(_, v, id, actor, _) => Resolve([], v, id, actor, [])
    case Reopen(_, v, id, actor, _) => Reopen([], v, id, actor, [])
  }

  const COLON: Text := [0x3A]
  const REVIEW: Text := [0x72, 0x65, 0x76, 0x69, 0x65, 0x77, 0x3A]

  type Scope = Text

  /** `review:organization:project:thread`; identifiers may hold colons themselves. */
  function ScopeText(organizationId: Id, projectId: Id, threadId: Id): Scope
  {
    REVIEW + organizationId + COLON + projectId + COLON + threadId
  }

  /** A receipt's key is its scope and operation id. */
  datatype Receipt = Receipt(scope: Scope, operationId: Id, fingerprint: Mutation)

  datatype Result =
    | Applied(thread: Thread, fingerprint: Mutation)
    | Replayed(thread: Thread, fingerprint: Mutation)
    | Conflict(currentVersion: int, current: Option<Thread>)
    | Failed

  /** What the mutation reads but never writes: the projects' organizations, the revisions' projects, and the verdicts
    * on a request (its normalization, its fingerprint's budgets) and of the field-by-field validators on a thread. */
  datatype World = World(
    organizations: map<Id, Id>, revisions: map<Id, Id>, normal: Mutation -> bool, encodes: Mutation -> bool,
      valid: Thread -> bool)

  datatype State = State(threads: map<Id, Thread>, receipts: seq<Receipt>)

  // ---------- Receipts, in insertion order ----------

  function Find(receipts: seq<Receipt>, scope: Scope, operationId: Id): (r: Option<Receipt>)
    ensures r.Some? ==> r.value in receipts && r.value.scope == scope && r.value.operationId == operationId
    ensures r.None? ==> forall x <- receipts :: x.scope != scope || x.operationId != operationId
  {
    if receipts == [] then None
    else if receipts[0].scope == scope && receipts[0].operationId == operationId then Some(receipts[0])
    else Find(receipts[1..], scope, operationId)
  }

  /** `Map.set`: a known key keeps its place. */
  function Store(receipts: seq<Receipt>, r: Receipt): seq<Receipt>
  {
    if receipts == [] then [r]
    else if receipts[0].scope == r.scope && receipts[0].operationId == r.operationId then [r] + receipts[1..]
    else [receipts[0]] + Store(receipts[1..], r)
  }

  function CountScope(receipts: seq<Receipt>, scope: Scope): nat
  {
    if receipts == [] then 0 else (if receipts[0].scope == scope then 1 else 0) + CountScope(receipts[1..], scope)
  }

  function DropOldest(receipts: seq<Receipt>, scope: Scope): seq<Receipt>
  {
    if receipts == [] then []
    else if receipts[0].scope == scope then receipts[1..]
    else [receipts[0]] + DropOldest(receipts[1..], scope)
  }

  lemma {:induction false} DropOldestCounts(receipts: seq<Receipt>, scope: Scope, other: Scope)
    ensures CountScope(receipts, scope) > 0 ==>
              CountScope(DropOldest(receipts, scope), other)
              == CountScope(receipts, other) - if other == scope then 1 else 0
    ensures CountScope(receipts, scope) == 0 ==> DropOldest(receipts, scope) == receipts
    ensures forall r <- DropOldest(receipts, scope) :: r in receipts
    ensures forall r <- receipts :: r.scope != scope ==> r in DropOldest(receipts, scope)
  {
    if receipts != [] {
      DropOldestCounts(receipts[1..], scope, other);
      assert receipts == [receipts[0]] + receipts[1..];
    }
  }

  lemma {:induction false} StoreCounts(receipts: seq<Receipt>, r: Receipt, other: Scope)
    ensures CountScope(Store(receipts, r), other) <= CountScope(receipts, other) + if other == r.scope then 1 else 0
    ensures forall x <- Store(receipts, r) :: x == r || x in receipts
    ensures r in Store(receipts, r)
  {
    if receipts != [] {
      StoreCounts(receipts[1..], r, other);
      assert receipts == [receipts[0]] + receipts[1..];
    }
  }

  /** `pruneReviewReceipts`: the oldest of the scope go until a hundred remain. */
  function Prune(receipts: seq<Receipt>, scope: Scope): seq<Receipt>
    decreases CountScope(receipts, scope)
  {
    if CountScope(receipts, scope) <= MAX_RECEIPTS then receipts
    else (DropOldestCounts(receipts, scope, scope); Prune(DropOldest(receipts, scope), scope))
  }

  lemma {:induction false} PruneCounts(receipts: seq<Receipt>, scope: Scope, other: Scope)
    ensures CountScope(Prune(receipts, scope), other) <= CountScope(receipts, other)
    ensures CountScope(Prune(receipts, scope), scope) <= MAX_RECEIPTS
    ensures forall r <- Prune(receipts, scope) :: r in receipts
    ensures CountScope(receipts, scope) <= MAX_RECEIPTS + 1 && CountScope(receipts, scope) > MAX_RECEIPTS ==>
              Prune(receipts, scope) == DropOldest(receipts, scope)
    decreases CountScope(receipts, scope)
  {
    if CountScope(receipts, scope) > MAX_RECEIPTS {
      DropOldestCounts(receipts, scope, scope);
      DropOldestCounts(receipts, scope, other);
      PruneCounts(DropOldest(receipts, scope), scope, other);
    }
  }

  // ---------- One mutation ----------

  /** What a mutation makes of a thread, when nothing stands against it. */
  function Effect(t: Thread, m: Mutation): Thread
    requires !m.Create?
  {
    match m
    case Reply(_, _, _, message) => t.(version := t.version + 1, messages := t.messages + [message])
    case Resolve(_, _, _, actor, at) =>
      t.(version := t.version + 1, lifecycle := Resolved, resolved := Some(Mark(actor, at)))
    case Reopen(_, _, _, actor, at) =>
      t.(version := t.version + 1, lifecycle := Open, resolved := None, reopened := Some(Mark(actor, at)))
  }

  /** Whether a stored receipt's mutation still shows in the thread. */
  predicate StillApplied(m: Mutation, t: Thread)
  {
    match m
    case Create(_, _, _) => true
    case Reply(_, _, _, message) => exists i :: 0 <= i < |t.messages| && t.messages[i].id == message.id
    case Resolve(_, _, _, _, _) => t.lifecycle == Resolved
    case Reopen(_, _, _, _, _) => t.lifecycle == Open
  }

  predicate Allowed(m: Mutation, t: Thread)
  {
    match m
    case Resolve(_, _, _, _, _) => t.lifecycle == Open
    case Reopen(_, _, _, _, _) => t.lifecycle == Resolved
    case _ => true
  }

  class ReviewThreadStore {
    const world: World
    var reviewThreads: map<Id, Thread>
    var receipts: seq<Receipt>

    function View(): State
      reads this
    {
      State(reviewThreads, receipts)
    }

    /** Every thread is stored under its own id. */
    predicate Valid()
      reads this
    {
      forall id <- reviewThreads :: reviewThreads[id].id == id
    }

    constructor (world: World)
      ensures Valid() && this.world == world && View() == State(map[], [])
    {
      this.world := world;
      reviewThreads, receipts := map[], [];
    }

    method PruneReviewReceipts(scope: Scope)
      modifies this`receipts
      ensures receipts == Prune(old(receipts), scope)
    {
      while CountScope(receipts, scope) > MAX_RECEIPTS
        invariant Prune(receipts, scope) == Prune(old(receipts), scope)
        decreases CountScope(receipts, scope)
      {
        DropOldestCounts(receipts, scope, scope);
        receipts := DropOldest(receipts, scope);
      }
    }

    /** The writes of an applied mutation. */
    method Commit(thread: Thread, scope: Scope, m: Mutation)
      modifies this
      ensures View() == Committed(old(View()), thread, scope, m)
    {
      reviewThreads := reviewThreads[thread.id := thread];
      receipts := Store(receipts, Receipt(scope, m.operationId, Fingerprint(m)));
      PruneReviewReceipts(scope);
    }

    /** `mutateReviewThread`. */
    method MutateReviewThread(m: Mutation) returns (r: Result)
      requires Valid()
      modifies this
      ensures Valid() && (View(), r) == Mutate(old(View()), world, m)
    {
      if !world.normal(m) { return Failed; }
      if |m.operationId| == 0 || |m.operationId| > 256 || m.expectedVersion < 0 { return Failed; }
      if m.Create? && m.expectedVersion != 0 { return Failed; }
      var threadId := Target(m);
      var current := if threadId in reviewThreads then Some(reviewThreads[threadId]) else None;
      if !m.Create? && current.None? { return Conflict(0, None); }
      var projectId := if m.Create? then m.thread.projectId else current.value.projectId;
      if projectId !in world.organizations || !world.encodes(m) { return Failed; }
      var scope := ScopeText(world.organizations[projectId], projectId, threadId);
      var receipt := Find(receipts, scope, m.operationId);
      if receipt.Some? && current.Some? {
        if receipt.value.fingerprint != Fingerprint(m) { return Conflict(current.value.version, current); }
        return if StillApplied(receipt.value.fingerprint, current.value)
          then Replayed(current.value, receipt.value.fingerprint) else Conflict(current.value.version, current);
      }
      if m.Create? {
        if current.Some? { return Conflict(current.value.version, current); }
        var thread := m.thread.(version := 1);
        var revision := RevisionIdOf(thread);
        if revision.None? || revision.value !in world.revisions || world.revisions[revision.value] != thread.projectId {
          return Failed;
        }
        if !world.valid(thread) || |reviewThreads| >= MAX_ITEMS { return Failed; }
        Commit(thread, scope, m);
        return Applied(thread, Fingerprint(m));
      }
      if current.value.version != m.expectedVersion || !Allowed(m, current.value) {
        return Conflict(current.value.version, current);
      }
      var updated := Effect(current.value, m);
      if !world.valid(updated) { return Failed; }
      Commit(updated, scope, m);
      return Applied(updated, Fingerprint(m));
    }
  }

  function Committed(s: State, thread: Thread, scope: Scope, m: Mutation): State
  {
    State(s.threads[thread.id := thread],
          Prune(Store(s.receipts, Receipt(scope, m.operationId, Fingerprint(m))), scope))
  }

  /** One mutation as a step between states. */
  function Mutate(s: State, w: World, m: Mutation): (State, Result)
  {
    var current := if Target(m) in s.threads then Some(s.threads[Target(m)]) else None;
    if !w.normal(m) || |m.operationId| == 0 || |m.operationId| > 256 || m.expectedVersion < 0
       || (m.Create? && m.expectedVersion != 0) then (s, Failed)
    else if !m.Create? && current.None? then (s, Conflict(0, None))
    else
      var projectId := if m.Create? then m.thread.projectId else current.value.projectId;
      if projectId !in w.organizations || !w.encodes(m) then (s, Failed)
      else
        var scope := ScopeText(w.organizations[projectId], projectId, Target(m));
        var receipt := Find(s.receipts, scope, m.operationId);
        if receipt.Some? && current.Some? then
          (s, if receipt.value.fingerprint == Fingerprint(m) && StillApplied(Fingerprint(m), current.value)
              then Replayed(current.value, Fingerprint(m)) else Conflict(current.value.version, current))
        else if current.Some?
                && (m.Create? || current.value.version != m.expectedVersion || !Allowed(m, current.value)) then
          (s, Conflict(current.value.version, current))
        else
          var thread := if m.Create? then m.thread.(version := 1) else Effect(current.value, m);
          var revision := RevisionIdOf(thread);
          if m.Create? && (revision.None? || revision.value !in w.revisions || w.revisions[revision.value] != projectId
                           || |s.threads| >= MAX_ITEMS) then (s, Failed)
          else if !w.valid(thread) then (s, Failed)
          else (Committed(s, thread, scope, m), Applied(thread, Fingerprint(m)))
  }

  // ---------- Runs in which only `mutateReviewThread` writes ----------

  /** The mutations applied so far that concern one thread, oldest first. */
  function Of(applied: seq<Mutation>, id: Id): seq<Mutation>
  {
    if applied == [] then []
    else Of(applied[..|applied| - 1], id) + if Target(applied[|applied| - 1]) == id then [applied[|applied| - 1]]
                                            else []
  }

  /** The thread a list of mutations builds from nothing. */
  function Fold(history: seq<Mutation>): Option<Thread>
  {
    if history == [] then None
    else
      var before, m := Fold(history[..|history| - 1]), history[|history| - 1];
      if m.Create? then (if before.None? then Some(m.thread.(version := 1)) else None)
      else if before.Some? then Some(Effect(before.value, m)) else None
  }

  /** The messages a history has said: those of the creation, then the replies in order. */
  function Said(history: seq<Mutation>): seq<Message>
  {
    if history == [] then []
    else
      var front, m := history[..|history| - 1], history[|history| - 1];
      match m
      case Create(_, _, thread) => thread.messages
      case Reply(_, _, _, message) => Said(front) + [message]
      case _ => Said(front)
  }

  /** The latest resolution or reopening decides the lifecycle, and no reply touches it. */
  function Settled(history: seq<Mutation>): Lifecycle
  {
    if history == [] then Open
    else
      var front, m := history[..|history| - 1], history[|history| - 1];
      match m
      case Create(_, _, thread) => thread.lifecycle
      case Resolve(_, _, _, _, _) => Resolved
      case Reopen(_, _, _, _, _) => Open
      case Reply(_, _, _, _) => Settled(front)
  }

  /** A folded thread says what its history said, stands as its history settled, and is otherwise the one created. */
  lemma {:induction false} FoldStory(history: seq<Mutation>)
    requires Fold(history).Some?
    ensures var t := Fold(history).value;
            && t.messages == Said(history) && t.lifecycle == Settled(history)
            && exists m <- history :: m.Create? && t.id == m.thread.id && t.projectId == m.thread.projectId
                                      && t.anchor == m.thread.anchor && t.createdAt == m.thread.createdAt
                                      && t.content == m.thread.content
  {
    var front, last := history[..|history| - 1], history[|history| - 1];
    assert history == front + [last];
    if !last.Create? {
      FoldStory(front);
      var m :| m in front && m.Create? && Fold(front).value.id == m.thread.id
        && Fold(front).value.projectId == m.thread.projectId
               && Fold(front).value.anchor == m.thread.anchor && Fold(front).value.createdAt == m.thread.createdAt
               && Fold(front).value.content == m.thread.content;
      assert m in history;
    } else {
      assert last in history;
    }
  }

  /** The state and the applied mutations after a run. */
  function Run(s: State, applied: seq<Mutation>, w: World, requests: seq<Mutation>): (State, seq<Mutation>)
    decreases |requests|
  {
    if requests == [] then (s, applied)
    else
      var step := Mutate(s, w, requests[0]);
      Run(step.0, if step.1.Applied? then applied + [requests[0]] else applied, w, requests[1..])
  }

  /** A history with versions 0, 1, 2, ... in order builds exactly this thread. */
  predicate Tells(history: seq<Mutation>, t: Option<Thread>, id: Id)
  {
    && (forall i :: 0 <= i < |history| ==> history[i].expectedVersion == i)
    && Fold(history) == t && (t.None? <==> history == [])
    && (t.Some? ==> t.value.version == |history| && t.value.id == id)
  }

  function Stored(s: State, id: Id): Option<Thread> { if id in s.threads then Some(s.threads[id]) else None }

  predicate ThreadTold(s: State, applied: seq<Mutation>, id: Id) { Tells(Of(applied, id), Stored(s, id), id) }

  /** A receipt speaks of an applied mutation. */
  predicate Witnessed(r: Receipt, applied: seq<Mutation>)
  {
    exists m <- applied :: m.operationId == r.operationId && Fingerprint(m) == r.fingerprint
  }

  ghost predicate Told(s: State, applied: seq<Mutation>)
  {
    && (forall id: Id :: ThreadTold(s, applied, id))
    && (forall scope :: CountScope(s.receipts, scope) <= MAX_RECEIPTS)
    && forall r <- s.receipts :: Witnessed(r, applied)
  }

  lemma OfAppend(applied: seq<Mutation>, m: Mutation, id: Id)
    ensures Of(applied + [m], id) == Of(applied, id) + if Target(m) == id then [m] else []
  {
    assert (applied + [m])[..|applied|] == applied;
  }

  lemma FoldAppend(history: seq<Mutation>, m: Mutation)
    ensures Fold(history + [m]) ==
            if m.Create? then (if Fold(history).None? then Some(m.thread.(version := 1)) else None)
            else if Fold(history).Some? then Some(Effect(Fold(history).value, m)) else None
  {
    assert (history + [m])[..|history|] == history;
  }

  function ScopeOf(w: World, thread: Thread): Scope
    requires thread.projectId in w.organizations
  {
    ScopeText(w.organizations[thread.projectId], thread.projectId, thread.id)
  }

  /** What an applied answer implies. */
  lemma AppliedMeans(s: State, w: World, m: Mutation)
    requires Mutate(s, w, m).1.Applied? && (Target(m) in s.threads ==> s.threads[Target(m)].id == Target(m))
    ensures var (next, r) := Mutate(s, w, m);
            && r.thread.id == Target(m) && r.thread.projectId in w.organizations
            && next == Committed(s, r.thread, ScopeOf(w, r.thread), m)
            && (if m.Create? then Target(m) !in s.threads && m.expectedVersion == 0
                                  && r.thread == m.thread.(version := 1)
                else Target(m) in s.threads && s.threads[Target(m)].version == m.expectedVersion
                     && r.thread == Effect(s.threads[Target(m)], m))
  {
    hide Committed, Fingerprint, Find;
  }

  lemma TellsMore(history: seq<Mutation>, t: Option<Thread>, id: Id, m: Mutation, after: Thread)
    requires Tells(history, t, id) && after.id == id
    requires if m.Create? then t.None? && m.expectedVersion == 0 && after == m.thread.(version := 1)
             else t.Some? && m.expectedVersion == t.value.version && after == Effect(t.value, m)
    ensures Tells(history + [m], Some(after), id)
  {
    FoldAppend(history, m);
  }

  lemma ThreadsKept(s: State, applied: seq<Mutation>, w: World, m: Mutation, id: Id)
    requires ThreadTold(s, applied, id) && ThreadTold(s, applied, Target(m)) && Mutate(s, w, m).1.Applied?
    ensures ThreadTold(Mutate(s, w, m).0, applied + [m], id)
  {
    AppliedMeans(s, w, m);
    OfAppend(applied, m, id);
    if id == Target(m) {
      TellsMore(Of(applied, id), Stored(s, id), id, m, Mutate(s, w, m).1.thread);
    } else {
      assert Of(applied, id) + [] == Of(applied, id);
    }
  }

  lemma ReceiptsKept(s: State, applied: seq<Mutation>, w: World, m: Mutation)
    requires Told(s, applied) && Mutate(s, w, m).1.Applied?
    ensures var next := Mutate(s, w, m).0;
            && (forall scope :: CountScope(next.receipts, scope) <= MAX_RECEIPTS)
            && forall r <- next.receipts :: Witnessed(r, applied + [m])
  {
    assert ThreadTold(s, applied, Target(m));
    AppliedMeans(s, w, m);
    hide Mutate, ThreadTold, Tells, Prune, Store;
    var scope := ScopeOf(w, Mutate(s, w, m).1.thread);
    var r := Receipt(scope, m.operationId, Fingerprint(m));
    var stored := Store(s.receipts, r);
    forall other ensures CountScope(Prune(stored, scope), other) <= MAX_RECEIPTS {
      StoreCounts(s.receipts, r, other);
      PruneCounts(stored, scope, other);
    }
    PruneCounts(stored, scope, scope);
    StoreCounts(s.receipts, r, scope);
    forall x <- Prune(stored, scope) ensures Witnessed(x, applied + [m]) {
      if x == r { assert m in applied + [m]; } else { WitnessedLonger(x, applied, m); }
    }
  }

  lemma WitnessedLonger(x: Receipt, applied: seq<Mutation>, m: Mutation)
    requires Witnessed(x, applied)
    ensures Witnessed(x, applied + [m])
  {
    var y :| y in applied && y.operationId == x.operationId && Fingerprint(y) == x.fingerprint;
    assert y in applied + [m];
  }

  lemma MutateKeeps(s: State, applied: seq<Mutation>, w: World, m: Mutation)
    requires Told(s, applied)
    ensures var (next, r) := Mutate(s, w, m);
            if r.Applied? then Told(next, applied + [m]) else next == s
  {
    if Mutate(s, w, m).1.Applied? {
      forall id: Id ensures ThreadTold(Mutate(s, w, m).0, applied + [m], id) {
        assert ThreadTold(s, applied, id) && ThreadTold(s, applied, Target(m));
        ThreadsKept(s, applied, w, m, id);
      }
      ReceiptsKept(s, applied, w, m);
    }
  }

  /** In every run from an empty store: per thread the applied mutations carry versions 0, 1, 2, ..., the stored
    * thread is their fold, at most a hundred receipts remain, and each receipt speaks of an applied mutation. */
  lemma {:induction false} RunKeeps(s: State, applied: seq<Mutation>, w: World, requests: seq<Mutation>)
    requires Told(s, applied)
    ensures Told(Run(s, applied, w, requests).0, Run(s, applied, w, requests).1)
    decreases |requests|
  {
    if requests != [] {
      var step := Mutate(s, w, requests[0]);
      MutateKeeps(s, applied, w, requests[0]);
      RunKeeps(step.0, if step.1.Applied? then applied + [requests[0]] else applied, w, requests[1..]);
    }
  }

  lemma {:induction false} OfMembers(applied: seq<Mutation>, m: Mutation)
    requires m in applied
    ensures m in Of(applied, Target(m))
  {
    var last := |applied| - 1;
    assert applied == applied[..last] + [applied[last]];
    if m in applied[..last] { OfMembers(applied[..last], m); }
  }

  /** What a replayed answer implies. */
  lemma ReplayedMeans(s: State, w: World, m: Mutation)
    requires Mutate(s, w, m).1.Replayed?
    ensures exists r <- s.receipts :: r.operationId == m.operationId && r.fingerprint == Fingerprint(m)
  {
    hide Committed, StillApplied, ScopeText, RevisionIdOf;
    var current := s.threads[Target(m)];
    var projectId := if m.Create? then m.thread.projectId else current.projectId;
    var r := Find(s.receipts, ScopeText(w.organizations[projectId], projectId, Target(m)), m.operationId).value;
    assert r in s.receipts;
  }

  /** A fingerprint names its thread and the version it expects. */
  lemma SameFingerprint(a: Mutation, b: Mutation)
    requires Fingerprint(a) == Fingerprint(b)
    ensures Target(a) == Target(b) && a.expectedVersion == b.expectedVersion && a.Create? == b.Create?
  {
    assert Target(Fingerprint(a)) == Target(a) && Target(Fingerprint(b)) == Target(b);
  }

  /** Nothing is ever applied twice, under whatever operation id and time it comes again, and whether or not its
    * receipt is still there; and an answer of 'replayed' means that a request with the same operation id and
    * fingerprint, so to the same thread, was applied. */
  lemma ExactlyOnce(w: World, requests: seq<Mutation>, m: Mutation)
    ensures var (s, applied) := Run(State(map[], []), [], w, requests);
            && ((exists x <- applied :: Fingerprint(x) == Fingerprint(m)) ==> !Mutate(s, w, m).1.Applied?)
            && (Mutate(s, w, m).1.Replayed? ==>
                  exists x <- applied :: x.operationId == m.operationId && Target(x) == Target(m)
                    && Fingerprint(x) == Fingerprint(m))
  {
    RunKeeps(State(map[], []), [], w, requests);
    var (s, applied) := Run(State(map[], []), [], w, requests);
    hide Run, Mutate, Fold, Fingerprint, ThreadTold;
    assert ThreadTold(s, applied, Target(m));
    if exists x <- applied :: Fingerprint(x) == Fingerprint(m) {
      var x :| x in applied && Fingerprint(x) == Fingerprint(m);
      NotAgain(s, applied, w, m, x);
    }
    if Mutate(s, w, m).1.Replayed? { ReplayWitnessed(s, applied, w, m); }
  }

  lemma NotAgain(s: State, applied: seq<Mutation>, w: World, m: Mutation, x: Mutation)
    requires ThreadTold(s, applied, Target(m)) && x in applied && Fingerprint(x) == Fingerprint(m)
    ensures !Mutate(s, w, m).1.Applied?
  {
    hide Mutate, Fold, Fingerprint, Committed, ScopeOf, Effect;
    SameFingerprint(x, m);
    OfMembers(applied, x);
    var i :| 0 <= i < |Of(applied, Target(m))| && Of(applied, Target(m))[i] == x;
    if Mutate(s, w, m).1.Applied? { AppliedMeans(s, w, m); }
  }

  lemma ReplayWitnessed(s: State, applied: seq<Mutation>, w: World, m: Mutation)
    requires Told(s, applied) && Mutate(s, w, m).1.Replayed?
    ensures exists x <- applied :: x.operationId == m.operationId && Target(x) == Target(m)
              && Fingerprint(x) == Fingerprint(m)
  {
    hide Mutate, Fold, Fingerprint, ThreadTold;
    ReplayedMeans(s, w, m);
    var r :| r in s.receipts && r.operationId == m.operationId && r.fingerprint == Fingerprint(m);
    assert Witnessed(r, applied);
    var x :| x in applied && x.operationId == m.operationId && Fingerprint(x) == Fingerprint(m);
    SameFingerprint(x, m);
  }
}
