/** Design histories over interleaved runs: the revision line of a project, and the list of changes since its last
  * readiness mark. */
module DesignRevisions {
  import opened Wrappers
  import opened Utf16
  import opened OrderedMaps
  import opened MapSwaps
  import opened RepositoryState
  import opened RepositoryIntegrity
  import opened RepositorySnapshots
  import opened RepositoryRuns

  /** The project's stored revisions are exactly those of the line. */
  ghost predicate Holds(s: Repo, p: Id, line: seq<Revision>)
  {
    && (forall i :: 0 <= i < |line| ==> line[i].projectId == p && Stored(s.revisions, line[i].id) == Some(line[i]))
    && (forall i, j :: 0 <= i < j < |line| ==> line[i].id != line[j].id)
    && (forall id <- s.revisions.data :: s.revisions.data[id].projectId == p ==> s.revisions.data[id] in line)
  }

  /** Sequences 1, 2, …. */
  predicate Numbered(line: seq<Revision>) { forall i :: 0 <= i < |line| ==> line[i].sequence == i + 1 }

  /** The last revision of the first `k`. */
  function LastOf(line: seq<Revision>, k: nat): Option<Revision>
    requires k <= |line|
  {
    if k == 0 then None else Some(line[k - 1])
  }

  lemma LatestOfLine(s: Repo, p: Id, line: seq<Revision>)
    requires Good(s.revisions) && Holds(s, p, line) && Numbered(line)
    ensures Latest(s, p) == LastOf(line, |line|)
  {
    LatestIsLatest(s, p);
    hide Latest, Good;
    if line != [] {
      var last := line[|line| - 1];
      assert Stored(s.revisions, last.id) == Some(last) && last.projectId == p;
      var best := Latest(s, p).value;
      assert !Later(last, best) && best in line;
      hide Holds;
      HighestIsLast(line, best);
    }
  }

  lemma HighestIsLast(line: seq<Revision>, best: Revision)
    requires line != [] && Numbered(line) && best in line && !Later(line[|line| - 1], best)
    ensures best == line[|line| - 1]
  {}

  // ---------- What an action does to a project ----------

  function ProjectOf(f: Pending): Id { if f.Appending? then f.revision.projectId else f.commit.head.projectId }

  /** The call whose second half runs now. */
  function Resumed(w: World, action: Action): Option<Pending>
  {
    if action.Resume? && action.i < |w.waiting| then Some(w.waiting[action.i]) else None
  }

  /** The new revision of `p` that the action stores. */
  function StoredFor(w: World, action: Action, p: Id): Option<Revision>
  {
    var f := Resumed(w, action);
    if f.None? || ProjectOf(f.value) != p || Written(w.repo, f.value).None? then None
    else if Written(w.repo, f.value).value.id in w.repo.revisions.data then None
    else Written(w.repo, f.value)
  }

  function LineAfter(w: World, action: Action, p: Id, line: seq<Revision>): seq<Revision>
  {
    if StoredFor(w, action, p).Some? then line + [StoredFor(w, action, p).value] else line
  }

  /** The project is neither imported nor deleted. */
  predicate Spares(action: Action, p: Id)
  {
    action.Do? ==> !(action.op.Import? && action.op.snapshot.project.id == p)
                   && !(action.op.Remove? && action.op.projectId == p)
  }

  /** The same revisions and the same review state for `p`. */
  predicate SameFor(s: Repo, t: Repo, p: Id)
  {
    && (forall id <- s.revisions.data :: s.revisions.data[id].projectId == p
          ==> Stored(t.revisions, id) == Some(s.revisions.data[id]))
    && (forall id <- t.revisions.data :: t.revisions.data[id].projectId == p
          ==> Stored(s.revisions, id) == Some(t.revisions.data[id]))
    && StateOf(t, p) == StateOf(s, p)
  }

  lemma SwapSameFor(s: Repo, q: Id, c: Content, t: Repo, p: Id)
    requires Intact(s) && NoCollision(s, q, c) && ValidContent(c, q) && p != q
    requires t.revisions == SwapContent(s, q, c).revisions && StateOf(t, p) == StateOf(s, p)
    ensures SameFor(s, t, p)
  {
    hide Intact, ContentSwapped, ValidContent, NoCollision, SwapContent, ValidRevisions;
    SwapContentSwaps(s, q, c);
    ContentRevisions(s, q, c, SwapContent(s, q, c));
    RevisionsNamed(c.revisions, q);
  }

  lemma RevisionsNamed(revisions: seq<Revision>, q: Id)
    requires ValidRevisions(revisions, q)
    ensures forall r <- revisions :: r.projectId == q
  {
    hide Unique, RepositorySnapshots.Keys;
  }

  lemma ImportSameFor(s: Repo, n: Snapshot, expectedLatest: Option<Id>, valid: bool, p: Id)
    requires Intact(s) && n.project.id != p
    ensures Good(s.revisions) && SameFor(s, ReplaceOwned(s, n, expectedLatest, valid).0, p)
  {
    hide Intact, Latest, ValidContent, NoCollision, SwapContent, WithinCapacity, ChangesWith, SameFor;
    IntactMaps(s);
    var t := ReplaceOwned(s, n, expectedLatest, valid).0;
    if ReplaceOwned(s, n, expectedLatest, valid).1.Done? {
      assert StateOf(t, p) == StateOf(s, p);
      SwapSameFor(s, n.project.id, n.content, t, p);
    } else {
      SameForItself(s, p);
    }
  }

  lemma SameForItself(s: Repo, p: Id)
    ensures SameFor(s, s, p)
  {}

  lemma RemoveSameFor(s: Repo, q: Id, p: Id)
    requires Intact(s) && p != q
    ensures SameFor(s, Delete(s, q), p)
  {
    hide Intact, NoCollision, ValidContent, SwapContent, ChangesWithout, SameFor;
    if q in s.projects.data {
      NothingCollides(s, q);
      assert StateOf(Delete(s, q), p) == StateOf(s, p);
      SwapSameFor(s, q, NOTHING, Delete(s, q), p);
    } else {
      SameForItself(s, p);
    }
  }

  lemma StepSameFor(s: Repo, op: Op, p: Id)
    requires Intact(s) && Spares(Do(op), p)
    ensures SameFor(s, Step(s, op), p)
  {
    hide Intact, Step, SameFor, Replace, ReplaceOwned, Delete, OwnSnapshot;
    match op
    case Import(n, expectedLatest, valid) =>
      OwnProject(n);
      ImportSameFor(s, OwnSnapshot(n), expectedLatest, valid, p);
      ImportIs(s, n, expectedLatest, valid);
    case Remove(q) =>
      RemoveSameFor(s, q, p);
      RemoveIs(s, q);
    case _ =>
      OtherMaps(s, op);
      SameMaps(s, Step(s, op), p);
  }

  lemma OtherMaps(s: Repo, op: Op)
    requires Intact(s) && !op.Import? && !op.Remove?
    ensures Step(s, op).revisions == s.revisions && Step(s, op).states == s.states
  {
    hide Intact, Set, Room, Owned, Resolves, ResultsResolve, ReactionKey, ApprovalKey;
  }

  lemma ImportIs(s: Repo, n: Snapshot, expectedLatest: Option<Id>, valid: bool)
    requires Intact(s)
    ensures Good(s.revisions)
            && Step(s, Import(n, expectedLatest, valid)) == ReplaceOwned(s, OwnSnapshot(n), expectedLatest, valid).0
  {
    hide Intact, ReplaceOwned, OwnSnapshot, Good;
    IntactMaps(s);
    ReplaceIs(s, n, expectedLatest, valid);
    hide Replace;
  }

  lemma ReplaceIs(s: Repo, n: Snapshot, expectedLatest: Option<Id>, valid: bool)
    requires Good(s.revisions)
    ensures Replace(s, n, expectedLatest, valid) == ReplaceOwned(s, OwnSnapshot(n), expectedLatest, valid)
  {
    hide ReplaceOwned, OwnSnapshot, Good;
  }

  lemma OwnProject(n: Snapshot)
    ensures OwnSnapshot(n).project.id == n.project.id
  {
    hide OwnContents, Each, OwnBody;
  }

  lemma RemoveIs(s: Repo, q: Id)
    requires Intact(s)
    ensures Step(s, Remove(q)) == Delete(s, q)
  {
    hide Intact, Delete;
  }

  lemma SameMaps(s: Repo, t: Repo, p: Id)
    requires t.revisions == s.revisions && t.states == s.states
    ensures SameFor(s, t, p)
  {}

  lemma SameForHolds(s: Repo, t: Repo, p: Id, line: seq<Revision>)
    requires SameFor(s, t, p) && Holds(s, p, line)
    ensures Holds(t, p, line)
  {
    forall i | 0 <= i < |line| ensures Stored(t.revisions, line[i].id) == Some(line[i]) {
      assert Stored(s.revisions, line[i].id) == Some(line[i]);
    }
  }

  // ---------- The line ----------

  lemma LineGrows(s: Repo, t: Repo, p: Id, line: seq<Revision>, r: Revision)
    requires Holds(s, p, line) && r.id !in s.revisions.data && t.revisions == Set(s.revisions, r.id, r)
    ensures Holds(t, p, if r.projectId == p then line + [r] else line)
  {
    var next := if r.projectId == p then line + [r] else line;
    forall i | 0 <= i < |next| ensures Stored(t.revisions, next[i].id) == Some(next[i]) {
      if i < |line| { assert Stored(s.revisions, line[i].id) == Some(line[i]); }
    }
    forall i, j | 0 <= i < j < |next| ensures next[i].id != next[j].id {
      assert Stored(s.revisions, line[i].id) == Some(line[i]);
    }
    forall id <- t.revisions.data | t.revisions.data[id].projectId == p ensures t.revisions.data[id] in next {
      if id == r.id { assert next[|line|] == r; }
    }
  }

  lemma ResumeIs(w: World, action: Action)
    requires Ready(w) && Resumed(w, action).Some?
    ensures Act(w, action).repo == Finish(w.repo, Resumed(w, action).value) && Started(Resumed(w, action).value)
  {
    hide Finish, Intact;
  }

  lemma WaitIs(w: World, action: Action)
    requires Ready(w) && !action.Do? && Resumed(w, action).None?
    ensures Act(w, action).repo == w.repo
  {
    hide Finish, Intact, StartAppend, StartCommit;
  }

  lemma DoIs(w: World, op: Op)
    requires Ready(w)
    ensures Act(w, Do(op)) == World(Step(w.repo, op), w.waiting)
  {
    hide Intact, Step;
  }

  lemma WrittenProject(s: Repo, f: Pending)
    requires Started(f) && Written(s, f).Some?
    ensures Written(s, f).value.projectId == ProjectOf(f)
  {}

  /** Each second half that stores a revision of the project extends its line by it, and nothing else changes it. */
  lemma LineKept(w: World, action: Action, p: Id, line: seq<Revision>)
    requires Ready(w) && ClearAction(w, action) && Spares(action, p) && Holds(w.repo, p, line)
    ensures Holds(Act(w, action).repo, p, LineAfter(w, action, p, line))
  {
    hide Ready, Act, Finish, Holds, Written, Clear, Spares, Started;
    var f := Resumed(w, action);
    if action.Do? {
      DoLine(w, action.op, p, line);
    } else if f.None? {
      WaitIs(w, action);
    } else {
      ResumeIs(w, action);
      ResumeLine(w.repo, f.value, p, line);
    }
  }

  lemma DoLine(w: World, op: Op, p: Id, line: seq<Revision>)
    requires Ready(w) && Spares(Do(op), p) && Holds(w.repo, p, line)
    ensures Holds(Act(w, Do(op)).repo, p, line)
  {
    DoIs(w, op);
    ReadyIntact(w);
    hide Ready, Act, Intact, Step, Holds, SameFor, Spares;
    StepSameFor(w.repo, op, p);
    SameForHolds(w.repo, Step(w.repo, op), p, line);
  }

  lemma ReadyIntact(w: World)
    requires Ready(w)
    ensures Intact(w.repo)
  {}

  lemma ResumeLine(s: Repo, f: Pending, p: Id, line: seq<Revision>)
    requires Started(f) && Clear(s, f) && Holds(s, p, line)
    ensures var stored := ProjectOf(f) == p && Written(s, f).Some? && Written(s, f).value.id !in s.revisions.data;
            Holds(Finish(s, f), p, if stored then line + [Written(s, f).value] else line)
  {
    hide Finish, Holds, Written, Set;
    FinishRevisions(s, f);
    var t, w := Finish(s, f), Written(s, f);
    if w.Some? {
      WrittenProject(s, f);
      if w.value.id in s.revisions.data {
        SetSame(s.revisions, w.value);
        HoldsAlike(s, t, p, line);
      } else {
        LineGrows(s, t, p, line, w.value);
      }
    } else {
      HoldsAlike(s, t, p, line);
    }
  }

  lemma SetSame(m: OMap<Id, Revision>, r: Revision)
    requires r.id in m.data && m.data[r.id] == r
    ensures Set(m, r.id, r) == m
  {
    assert m.data[r.id := r] == m.data;
  }

  lemma HoldsAlike(s: Repo, t: Repo, p: Id, line: seq<Revision>)
    requires Holds(s, p, line) && t.revisions == s.revisions
    ensures Holds(t, p, line)
  {
    forall i | 0 <= i < |line| ensures Stored(t.revisions, line[i].id) == Some(line[i]) {
      assert Stored(s.revisions, line[i].id) == Some(line[i]);
    }
  }

  // ---------- Runs ----------

  ghost predicate Line(w: World, actions: seq<Action>, p: Id)
    requires Ready(w)
  {
    AllClear(w, actions) && forall a <- actions :: Spares(a, p)
  }

  lemma LineStep(w: World, actions: seq<Action>, p: Id)
    requires Ready(w) && Line(w, actions, p) && actions != []
    ensures ClearAction(w, actions[0]) && Spares(actions[0], p) && Ready(Act(w, actions[0]))
            && Line(Act(w, actions[0]), actions[1..], p)
  {
    hide Ready, Act, ClearAction, Spares;
    ActReady(w, actions[0]);
  }

  /** The project's line, read off a run. */
  ghost function Traced(w: World, actions: seq<Action>, p: Id, line: seq<Revision>): (end: seq<Revision>)
    requires Ready(w) && Line(w, actions, p)
    decreases |actions|
  {
    if actions == [] then line
    else
      LineStep(w, actions, p);
      Traced(Act(w, actions[0]), actions[1..], p, LineAfter(w, actions[0], p, line))
  }

  /** Whatever runs in between, the project's revisions are those of the traced line. */
  lemma {:induction false} RunHolds(w: World, actions: seq<Action>, p: Id, line: seq<Revision>)
    requires Ready(w) && Line(w, actions, p) && Holds(w.repo, p, line)
    ensures Holds(Run(w, actions).repo, p, Traced(w, actions, p, line)) && line <= Traced(w, actions, p, line)
    decreases |actions|
  {
    hide Ready, Act, Holds, LineAfter, ClearAction, Spares;
    if actions != [] {
      LineStep(w, actions, p);
      LineKept(w, actions[0], p, line);
      LineExtends(w, actions[0], p, line);
      RunHolds(Act(w, actions[0]), actions[1..], p, LineAfter(w, actions[0], p, line));
    }
  }

  lemma LineExtends(w: World, action: Action, p: Id, line: seq<Revision>)
    ensures line <= LineAfter(w, action, p, line)
  {
    hide StoredFor;
  }

  /** A revision that is stored was checked against the revision that is still the latest one. */
  ghost predicate UpToDate(w: World, action: Action, p: Id)
    requires Ready(w)
  {
    IntactMaps(w.repo);
    StoredFor(w, action, p).Some? ==> Resumed(w, action).value.latest == Latest(w.repo, p)
  }

  ghost predicate AllUpToDate(w: World, actions: seq<Action>, p: Id)
    requires Ready(w) && Line(w, actions, p)
    decreases |actions|
  {
    actions == [] ||
    (LineStep(w, actions, p);
     UpToDate(w, actions[0], p) && AllUpToDate(Act(w, actions[0]), actions[1..], p))
  }

  /** Every waiting call of the project found some revision of its line to be the latest. */
  ghost predicate OnLine(waiting: seq<Pending>, p: Id, line: seq<Revision>)
  {
    forall f <- waiting :: ProjectOf(f) == p ==> exists k :: 0 <= k <= |line| && f.latest == LastOf(line, k)
  }

  lemma OnLineGrows(waiting: seq<Pending>, p: Id, line: seq<Revision>, longer: seq<Revision>)
    requires OnLine(waiting, p, line) && line <= longer
    ensures OnLine(waiting, p, longer)
  {
    forall f <- waiting | ProjectOf(f) == p ensures exists k :: 0 <= k <= |longer| && f.latest == LastOf(longer, k) {
      var k :| 0 <= k <= |line| && f.latest == LastOf(line, k);
      assert f.latest == LastOf(longer, k);
    }
  }

  lemma OnLineFewer(waiting: seq<Pending>, fewer: seq<Pending>, p: Id, line: seq<Revision>)
    requires OnLine(waiting, p, line) && forall f <- fewer :: f in waiting
    ensures OnLine(fewer, p, line)
  {}

  lemma OnLineMore(waiting: seq<Pending>, f: Pending, p: Id, line: seq<Revision>)
    requires OnLine(waiting, p, line) && (ProjectOf(f) == p ==> f.latest == LastOf(line, |line|))
    ensures OnLine(waiting + [f], p, line)
  {}

  /** A call made now finds the last revision of the line. */
  lemma StartedOnLine(s: Repo, p: Id, line: seq<Revision>, f: Option<Pending>, action: Action)
    requires Good(s.revisions) && Holds(s, p, line) && Numbered(line)
    requires || (action.Append? && f == StartAppend(s, action.revision, action.expectedParent))
             || (action.CommitDesign? && f == StartCommit(s, action.commit, action.valid))
    ensures f.Some? && ProjectOf(f.value) == p ==> f.value.latest == LastOf(line, |line|)
  {
    hide Latest, Holds, Good;
    LatestOfLine(s, p, line);
  }

  lemma WaitingOnLine(w: World, action: Action, p: Id, line: seq<Revision>)
    requires Ready(w) && Holds(w.repo, p, line) && Numbered(line) && OnLine(w.waiting, p, line)
    ensures OnLine(Act(w, action).waiting, p, LineAfter(w, action, p, line))
  {
    hide Ready, Intact, Act, Holds, OnLine, Latest, StartAppend, StartCommit, LineAfter, Good, Numbered;
    WaitingAfter(w, action);
    LineExtends(w, action, p, line);
    match action
    case Do(op) => OnLineGrows(w.waiting, p, line, LineAfter(w, action, p, line));
    case Append(r, e) =>
      var f := StartAppend(w.repo, r, e);
      StartedOnLine(w.repo, p, line, f, action);
      if f.Some? { OnLineMore(w.waiting, f.value, p, line); }
      OnLineGrows(Act(w, action).waiting, p, line, LineAfter(w, action, p, line));
    case CommitDesign(c, valid) =>
      var f := StartCommit(w.repo, c, valid);
      StartedOnLine(w.repo, p, line, f, action);
      if f.Some? { OnLineMore(w.waiting, f.value, p, line); }
      OnLineGrows(Act(w, action).waiting, p, line, LineAfter(w, action, p, line));
    case Resume(i) =>
      var rest := Act(w, action).waiting;
      OnLineFewer(w.waiting, rest, p, line);
      OnLineGrows(rest, p, line, LineAfter(w, action, p, line));
  }

  /** Who waits after an action. */
  lemma WaitingAfter(w: World, action: Action)
    requires Ready(w)
    ensures Good(w.repo.revisions)
    ensures action.Do? ==> Act(w, action).waiting == w.waiting
    ensures action.Append?
            ==> Act(w, action).waiting == Waits(w.waiting, StartAppend(w.repo, action.revision, action.expectedParent))
    ensures action.CommitDesign?
            ==> Act(w, action).waiting == Waits(w.waiting, StartCommit(w.repo, action.commit, action.valid))
    ensures action.Resume? ==> forall f <- Act(w, action).waiting :: f in w.waiting
  {
    hide Intact, Step, Finish, StartAppend, StartCommit, Good;
    IntactMaps(w.repo);
  }

  lemma NumberAfter(line: seq<Revision>, k: nat, r: Revision)
    requires Numbered(line) && k <= |line| && r.sequence == k + 1
    ensures Numbered(line + [r]) <==> LastOf(line, k) == LastOf(line, |line|)
  {
    assert (line + [r])[|line|] == r;
  }

  /** The next number goes to a revision exactly when the latest one is still the one its call found. */
  lemma NextNumber(w: World, action: Action, p: Id, line: seq<Revision>)
    requires Ready(w) && Holds(w.repo, p, line) && Numbered(line) && OnLine(w.waiting, p, line)
    ensures Numbered(LineAfter(w, action, p, line)) <==> UpToDate(w, action, p)
  {
    hide Intact, Holds, Latest, Good, Numbered, Written, LastOf;
    IntactMaps(w.repo);
    LatestOfLine(w.repo, p, line);
    var stored := StoredFor(w, action, p);
    if stored.Some? {
      var f := Resumed(w, action).value;
      assert f in w.waiting;
      var k :| 0 <= k <= |line| && f.latest == LastOf(line, k);
      SequenceOf(w.repo, f, stored.value);
      NextSequenceOf(line, k);
      NumberAfter(line, k, stored.value);
    }
  }

  lemma NextSequenceOf(line: seq<Revision>, k: nat)
    requires Numbered(line) && k <= |line|
    ensures NextSequence(LastOf(line, k)) == k + 1
  {}

  lemma SequenceOf(s: Repo, f: Pending, r: Revision)
    requires Written(s, f) == Some(r)
    ensures r.sequence == NextSequence(f.latest)
  {}

  /** Over every interleaving the sequences are 1 to n exactly when no call stores a revision after the latest one it
    * found has been succeeded. */
  lemma {:induction false} RunNumbered(w: World, actions: seq<Action>, p: Id, line: seq<Revision>)
    requires Ready(w) && Line(w, actions, p) && Holds(w.repo, p, line) && Numbered(line) && OnLine(w.waiting, p, line)
    ensures Numbered(Traced(w, actions, p, line)) <==> AllUpToDate(w, actions, p)
    decreases |actions|
  {
    hide Ready, Act, Holds, LineAfter, ClearAction, Spares, UpToDate, OnLine;
    if actions != [] {
      var a := actions[0];
      var next := LineAfter(w, a, p, line);
      LineStep(w, actions, p);
      LineKept(w, a, p, line);
      NextNumber(w, a, p, line);
      WaitingOnLine(w, a, p, line);
      if UpToDate(w, a, p) {
        RunNumbered(Act(w, a), actions[1..], p, next);
      } else {
        RunHolds(Act(w, a), actions[1..], p, next);
        PrefixNumbered(next, Traced(Act(w, a), actions[1..], p, next));
      }
    }
  }

  lemma PrefixNumbered(line: seq<Revision>, longer: seq<Revision>)
    requires line <= longer
    ensures Numbered(longer) ==> Numbered(line)
  {
    assert forall i :: 0 <= i < |line| ==> longer[i] == line[i];
  }
}
