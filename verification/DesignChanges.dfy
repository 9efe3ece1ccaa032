/** The changes since a project's last readiness mark, over interleaved runs. */
module DesignChanges {
  import opened Wrappers
  import opened Utf16
  import opened OrderedMaps
  import opened RepositoryState
  import opened RepositoryIntegrity
  import opened RepositorySnapshots
  import opened RepositoryRuns
  import opened DesignRevisions

  /** The change list names, one by one, the revisions after the mark, each with its predecessor in the line; the
    * baseline is current exactly when there are none. Without a mark the project is an untouched draft. */
  ghost predicate Listed(d: DesignState, line: seq<Revision>, mark: Option<nat>)
  {
    match mark
    case None => d == DraftState(d.projectId)
    case Some(m) =>
      && 1 <= m <= |line| && d.baseline.Some? && |d.changes| == |line| - m
      && (forall i :: 0 <= i < |d.changes| ==>
                        d.changes[i].before == ReferenceTo(line[m + i - 1])
                        && d.changes[i].current == ReferenceTo(line[m + i]))
      && d.currency == (if d.changes == [] then Current else Stale) && d.approvalsStale == (d.changes != [])
  }

  /** The call is a commit that passes every check, and not only those before its first write. */
  predicate Passes(s: Repo, f: Pending)
  {
    f.Committing? && CommitRefused(s, f.commit, f.latest, f.fieldsValid) == None && LateRefused(s, f.commit) == None
  }

  /** The action marks the project ready. */
  predicate Marks(w: World, action: Action, p: Id)
  {
    var f := Resumed(w, action);
    f.Some? && ProjectOf(f.value) == p && Passes(w.repo, f.value) && !f.value.commit.AppendOnly?
  }

  function MarkAfter(w: World, action: Action, p: Id, line: seq<Revision>, mark: Option<nat>): Option<nat>
  {
    if Marks(w, action, p) then Some(|LineAfter(w, action, p, line)|) else mark
  }

  /** A revision is stored without a change or a mark: by a plain append, or by a combined commit that is refused
    * after its revision is stored. */
  predicate Torn(w: World, action: Action, p: Id)
  {
    var f := Resumed(w, action);
    StoredFor(w, action, p).Some? && !Marks(w, action, p) && !(f.value.Committing? && f.value.commit.AppendOnly?)
  }

  /** What a second half does to a project's review state. */
  lemma FinishState(s: Repo, f: Pending, p: Id)
    ensures var before, after := StateOf(s, p), StateOf(Finish(s, f), p);
            if ProjectOf(f) != p || !Passes(s, f) then after == before
            else if !f.commit.AppendOnly? then
              after.baseline.Some? && after.currency == Current && !after.approvalsStale && after.changes == []
            else if f.commit.change.None? || f.latest.None? then after == before
            else
              after == before.(currency := Stale, approvalsStale := true,
                               changes := before.changes + [RecordedChange(f.commit, f.latest.value)])
  {
    hide BaselineTaken, CommitRefused, LateRefused, ReferenceTo, Remembers;
  }

  /** A revision stored without its change makes the list of a marked project one short. */
  lemma TornUnlisted(d: DesignState, line: seq<Revision>, mark: Option<nat>, r: Revision)
    requires Listed(d, line, mark)
    ensures Listed(d, line + [r], mark) <==> mark.None?
  {
    hide ReferenceTo;
  }

  lemma ListGrows(d: DesignState, line: seq<Revision>, m: nat, r: Revision, change: Change)
    requires Listed(d, line, Some(m))
    requires change.before == ReferenceTo(line[|line| - 1]) && change.current == ReferenceTo(r)
    ensures Listed(d.(currency := Stale, approvalsStale := true, changes := d.changes + [change]), line + [r], Some(m))
  {
    hide ReferenceTo;
  }

  lemma MarkListed(d: DesignState, line: seq<Revision>)
    requires line != [] && d.baseline.Some? && d.currency == Current && !d.approvalsStale && d.changes == []
    ensures Listed(d, line, Some(|line|))
  {}

  /** The marked revision exists, so a mark never precedes the whole line. */
  lemma MarkedLine(w: World, action: Action, p: Id, line: seq<Revision>)
    requires Holds(w.repo, p, line) && Marks(w, action, p)
    ensures LineAfter(w, action, p, line) != []
  {
    hide BaselineTaken;
    var f := Resumed(w, action).value;
    FinishRevisions(w.repo, f);
    if f.commit.MarkReady? { assert w.repo.revisions.data[f.commit.readiness.revision.id] in line; }
  }

  /** A commit without a mark that stores its revision records its change, or meets a project without a baseline. */
  lemma AppendListed(s: Repo, f: Pending, p: Id, line: seq<Revision>, mark: Option<nat>)
    requires ProjectOf(f) == p && Passes(s, f) && f.commit.AppendOnly? && f.latest == LastOf(line, |line|)
    requires Listed(StateOf(s, p), line, mark)
    ensures Listed(StateOf(Finish(s, f), p), line + [f.commit.revision], mark)
  {
    FinishState(s, f, p);
    hide Finish, LateRefused, ReferenceTo, StateOf;
    if mark.Some? {
      ListGrows(StateOf(s, p), line, mark.value, f.commit.revision, RecordedChange(f.commit, f.latest.value));
    } else {
      assert f.commit.change.None?;
    }
  }

  /** What is stored is what the commit carries. */
  lemma StoredIs(w: World, action: Action, p: Id)
    ensures var f := Resumed(w, action);
            f.Some? && ProjectOf(f.value) == p && f.value.Committing? ==>
              StoredFor(w, action, p) == if CommitRefused(w.repo, f.value.commit, f.value.latest, f.value.fieldsValid)
                                            == None
                                         then RevisionOf(f.value.commit) else None
  {
    var f := Resumed(w, action);
    if f.Some? { FinishRevisions(w.repo, f.value); }
    hide CommitRefused;
  }

  /** A second half of the project's, with the latest revision its call found still the latest. */
  lemma ResumeListed(w: World, action: Action, p: Id, line: seq<Revision>, mark: Option<nat>)
    requires Holds(w.repo, p, line) && Listed(StateOf(w.repo, p), line, mark)
    requires Resumed(w, action).Some? && ProjectOf(Resumed(w, action).value) == p
    requires StoredFor(w, action, p).Some? ==> Resumed(w, action).value.latest == LastOf(line, |line|)
    ensures Listed(StateOf(Finish(w.repo, Resumed(w, action).value), p), LineAfter(w, action, p, line),
                   MarkAfter(w, action, p, line, mark))
            <==> !(Torn(w, action, p) && mark.Some?)
  {
    hide Holds, Listed, Finish, CommitRefused, LateRefused, Written, StateOf;
    var f := Resumed(w, action).value;
    FinishState(w.repo, f, p);
    StoredIs(w, action, p);
    if Marks(w, action, p) {
      MarkedLine(w, action, p, line);
      MarkListed(StateOf(Finish(w.repo, f), p), LineAfter(w, action, p, line));
    } else if StoredFor(w, action, p).Some? {
      if f.Committing? && f.commit.AppendOnly? {
        NotLate(w.repo, f.commit);
        AppendListed(w.repo, f, p, line, mark);
      } else {
        TornUnlisted(StateOf(w.repo, p), line, mark, StoredFor(w, action, p).value);
      }
    }
  }

  lemma NotLate(s: Repo, c: Commit)
    requires c.AppendOnly?
    ensures LateRefused(s, c) == None
  {}

  lemma OtherProject(w: World, action: Action, p: Id, line: seq<Revision>, mark: Option<nat>)
    requires Resumed(w, action).None? || ProjectOf(Resumed(w, action).value) != p
    ensures LineAfter(w, action, p, line) == line && MarkAfter(w, action, p, line, mark) == mark && !Torn(w, action, p)
  {}

  /** Each action keeps the change list exact, unless, and only unless, it stores a revision of a marked project
    * without a change or a mark. */
  lemma ListKept(w: World, action: Action, p: Id, line: seq<Revision>, mark: Option<nat>)
    requires Ready(w) && Spares(action, p) && UpToDate(w, action, p)
    requires Holds(w.repo, p, line) && Numbered(line) && Listed(StateOf(w.repo, p), line, mark)
    ensures Listed(StateOf(Act(w, action).repo, p), LineAfter(w, action, p, line), MarkAfter(w, action, p, line, mark))
            <==> !(Torn(w, action, p) && mark.Some?)
  {
    assert Good(w.repo.revisions) by { IntactMaps(w.repo); }
    LatestOfLine(w.repo, p, line);
    ReadyIntact(w);
    hide Ready, Intact, Act, Finish, Holds, Listed, StateOf, Latest, StoredFor, LineAfter, MarkAfter, Torn, Numbered,
      Spares, Good;
    var f := Resumed(w, action);
    if f.Some? {
      ResumeIs(w, action);
      if ProjectOf(f.value) == p {
        ResumeListed(w, action, p, line, mark);
      } else {
        FinishState(w.repo, f.value, p);
        OtherProject(w, action, p, line, mark);
      }
    } else {
      OtherProject(w, action, p, line, mark);
      if action.Do? {
        DoIs(w, action.op);
        SameState(w.repo, action.op, p);
      } else {
        WaitIs(w, action);
      }
    }
  }

  lemma SameState(s: Repo, op: Op, p: Id)
    requires Intact(s) && Spares(Do(op), p)
    ensures StateOf(Step(s, op), p) == StateOf(s, p)
  {
    hide Intact, Step;
    StepSameFor(s, op, p);
  }

  // ---------- Runs ----------

  /** The last readiness mark, read off a run. */
  ghost function MarkTraced(w: World, actions: seq<Action>, p: Id, line: seq<Revision>, mark: Option<nat>): Option<nat>
    requires Ready(w) && Line(w, actions, p)
    decreases |actions|
  {
    if actions == [] then mark
    else
      LineStep(w, actions, p);
      MarkTraced(Act(w, actions[0]), actions[1..], p, LineAfter(w, actions[0], p, line),
                 MarkAfter(w, actions[0], p, line, mark))
  }

  ghost predicate NeverTorn(w: World, actions: seq<Action>, p: Id)
    requires Ready(w) && Line(w, actions, p)
    decreases |actions|
  {
    actions == [] ||
    (LineStep(w, actions, p);
     !Torn(w, actions[0], p) && NeverTorn(Act(w, actions[0]), actions[1..], p))
  }

  /** In every run whose calls are up to date and never torn the change list is exactly the revisions since the last
    * mark. */
  lemma {:induction false} RunListed(w: World, actions: seq<Action>, p: Id, line: seq<Revision>, mark: Option<nat>)
    requires Ready(w) && Line(w, actions, p) && AllUpToDate(w, actions, p) && NeverTorn(w, actions, p)
    requires Holds(w.repo, p, line) && Numbered(line) && OnLine(w.waiting, p, line)
             && Listed(StateOf(w.repo, p), line, mark)
    ensures Listed(StateOf(Run(w, actions).repo, p), Traced(w, actions, p, line), MarkTraced(w, actions, p, line, mark))
    decreases |actions|
  {
    hide Ready, Act, Holds, Listed, LineAfter, MarkAfter, ClearAction, Spares, UpToDate, Torn, OnLine, Numbered,
      StateOf;
    if actions != [] {
      var a := actions[0];
      LineStep(w, actions, p);
      LineKept(w, a, p, line);
      NextNumber(w, a, p, line);
      WaitingOnLine(w, a, p, line);
      ListKept(w, a, p, line, mark);
      RunListed(Act(w, a), actions[1..], p, LineAfter(w, a, p, line), MarkAfter(w, a, p, line, mark));
    }
  }

  /** A stored project without revisions, review state or waiting calls. */
  predicate EmptyProject(w: World, p: Id)
  {
    && p in w.repo.projects.data && p !in w.repo.states.data
    && (forall id <- w.repo.revisions.data :: w.repo.revisions.data[id].projectId != p)
    && forall f <- w.waiting :: ProjectOf(f) != p
  }

  /** Sequences 1 to n, and a connected chain of changes from the revision that was latest at the last mark to the
    * latest one; the baseline is current exactly when the chain is empty. */
  ghost predicate History(s: Repo, p: Id, line: seq<Revision>, mark: Option<nat>)
    requires Good(s.revisions)
  {
    var d := StateOf(s, p);
    && Holds(s, p, line) && Numbered(line) && Latest(s, p) == LastOf(line, |line|)
    && (d.baseline.Some? <==> mark.Some?)
    && (d.currency == Current <==> d.baseline.Some? && d.changes == [])
    && (mark.None? ==> d.changes == [])
    && Chained(d.changes, line, mark)
  }

  predicate Chained(changes: seq<Change>, line: seq<Revision>, mark: Option<nat>)
  {
    && (forall i :: 0 <= i < |changes| - 1 ==> changes[i].current == changes[i + 1].before)
    && match mark
       case None => true
       case Some(m) =>
         && 1 <= m <= |line| && |changes| == |line| - m
         && (forall i :: 0 <= i < |changes| ==> changes[i].current == ReferenceTo(line[m + i]))
         && (changes != [] ==> changes[0].before == ReferenceTo(line[m - 1]))
  }

  lemma ListedChained(d: DesignState, line: seq<Revision>, mark: Option<nat>)
    requires Listed(d, line, mark)
    ensures Chained(d.changes, line, mark)
  {
    hide ReferenceTo;
  }

  lemma ListedState(d: DesignState, line: seq<Revision>, mark: Option<nat>)
    requires Listed(d, line, mark)
    ensures (d.baseline.Some? <==> mark.Some?) && (d.currency == Current <==> d.baseline.Some? && d.changes == [])
    ensures mark.None? ==> d.changes == []
  {
    hide ReferenceTo;
  }

  lemma ListedHistory(s: Repo, p: Id, line: seq<Revision>, mark: Option<nat>)
    requires Good(s.revisions) && Holds(s, p, line) && Numbered(line) && Listed(StateOf(s, p), line, mark)
    ensures History(s, p, line, mark)
  {
    hide Latest, Good, Holds, StateOf, Numbered, Listed, Chained;
    LatestOfLine(s, p, line);
    ListedChained(StateOf(s, p), line, mark);
    ListedState(StateOf(s, p), line, mark);
  }

  /** The history of a project over any interleaved run that starts when it is empty, neither imports nor deletes it,
    * and is up to date and never torn. */
  lemma DesignHistory(w: World, actions: seq<Action>, p: Id)
    requires Ready(w) && EmptyProject(w, p) && Line(w, actions, p) && AllUpToDate(w, actions, p)
             && NeverTorn(w, actions, p)
    ensures var s := Run(w, actions).repo;
            Good(s.revisions) && History(s, p, Traced(w, actions, p, []), MarkTraced(w, actions, p, [], None))
  {
    hide Ready, Run, Traced, MarkTraced, Spares, AllClear, AllUpToDate, NeverTorn, Latest, History, Good;
    RunHolds(w, actions, p, []);
    RunNumbered(w, actions, p, []);
    RunListed(w, actions, p, [], None);
    var s := Run(w, actions).repo;
    assert Good(s.revisions) by { ReadyIntact(Run(w, actions)); IntactMaps(s); }
    ListedHistory(s, p, Traced(w, actions, p, []), MarkTraced(w, actions, p, [], None));
  }

  // ---------- Commits that fail ----------

  /** A refused second half leaves no trace exactly when it was refused by the checks before the first write, or was a
    * bare readiness mark refused by the later ones. */
  lemma RefusedUnchanged(s: Repo, c: Commit, before: Option<Revision>, fieldsValid: bool)
    requires FinishCommit(s, c, before, fieldsValid).1.Refused?
    ensures FinishCommit(s, c, before, fieldsValid).0 == s <==>
            CommitRefused(s, c, before, fieldsValid).Some? || (c.MarkReady? && LateRefused(s, c).Some?)
  {
    var t := FinishCommit(s, c, before, fieldsValid).0;
    if CommitRefused(s, c, before, fieldsValid).None? {
      if c.MarkReady? {
        if LateRefused(s, c).None? { MarkShows(s, c, before, fieldsValid); }
      } else {
        hide LateRefused;
        assert RevisionOf(c).value.id in t.revisions.data && RevisionOf(c).value.id !in s.revisions.data;
      }
    }
  }

  lemma MarkShows(s: Repo, c: Commit, before: Option<Revision>, fieldsValid: bool)
    requires c.MarkReady? && CommitRefused(s, c, before, fieldsValid).None? && LateRefused(s, c).None?
    ensures FinishCommit(s, c, before, fieldsValid).0 != s
  {
    var t := FinishCommit(s, c, before, fieldsValid).0;
    assert StateOf(t, c.head.projectId).baseline.value.id == c.readiness.id;
    assert BaselineTaken(t.states, c.readiness.id) by { assert c.head.projectId in t.states.data; }
  }

  const B: Id := [0x62]

  const R: Reference := Reference([0x72], [0x66])

  const MARKED: DesignState := DesignState(P, ReadyForReview, Some(Baseline(B, P, R, Review, P, [])), Current, false,
                                           [])

  /** One project whose baseline has the id `b`. */
  const TORN_REPO: Repo := EMPTY_REPO.(projects := OMap([P], map[P := ProjectNamed(P)]),
                                       states := OMap([P], map[P := MARKED]))

  /** Its next revision, to be marked with a baseline of the same id. */
  const TORN_COMMIT: Commit := AppendAndMarkReady(
    Head(P, P, [], None), Revision(R.id, P, 1, None, R.fingerprint, NO_BODY), None, ReadinessInput(B, Handoff, R))

  /** The commit is refused as a duplicate, and its revision is stored all the same. */
  lemma TornExample()
    ensures Intact(TORN_REPO) && Good(TORN_REPO.revisions)
    ensures StartCommit(TORN_REPO, TORN_COMMIT, true) == Some(Committing(TORN_COMMIT, true, None))
    ensures var (t, outcome) := FinishCommit(TORN_REPO, TORN_COMMIT, None, true);
            outcome == Refused(Duplicate) && R.id in t.revisions.data && R.id !in TORN_REPO.revisions.data
  {
    TornIntact();
    hide Intact;
    assert Latest(TORN_REPO, P) == None;
    assert MARKED == TORN_REPO.states.data[P];
    assert BaselineTaken(TORN_REPO.states, B);
  }

  lemma TornIntact()
    ensures Intact(TORN_REPO)
  {
    EmptyIntact();
    assert (set k <- [P]) == {P};
    assert FiledWithin(TORN_REPO.projects, ProjectKey) && Filed(TORN_REPO.states, StateKey);
    hide Filed, FiledWithin;
  }
}
