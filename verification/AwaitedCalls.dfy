/** Callers that await each call before they make the next: what interleaved runs guarantee under a condition, they
  * guarantee to these callers without one. */
module AwaitedCalls {
  import opened Wrappers
  import opened Utf16
  import opened OrderedMaps
  import opened RepositoryState
  import opened RepositoryIntegrity
  import opened RepositorySnapshots
  import opened RepositoryRuns
  import opened DesignRevisions
  import opened DesignChanges

  /** The second half of each call follows its first half at once. */
  predicate Awaited(actions: seq<Action>)
    decreases |actions|
  {
    || actions == []
    || (actions[0].Do? && Awaited(actions[1..]))
    || ((actions[0].Append? || actions[0].CommitDesign?) && |actions| > 1 && actions[1] == Resume(0)
        && Awaited(actions[2..]))
  }

  /** At most one call waits, and nothing has happened since it was made. */
  ghost predicate JustMade(w: World)
    requires Ready(w)
  {
    IntactMaps(w.repo);
    |w.waiting| <= 1 && forall f <- w.waiting :: Clear(w.repo, f) && f.latest == Latest(w.repo, ProjectOf(f))
  }

  lemma FirstHalf(w: World, action: Action)
    requires Ready(w) && w.waiting == [] && (action.Append? || action.CommitDesign?)
    ensures ClearAction(w, action) && Ready(Act(w, action)) && JustMade(Act(w, action))
  {
    hide Ready, Act, Intact, Latest, Clear, StartCommit, StartAppend, Good;
    ActReady(w, action);
    WaitIs(w, action);
    WaitingAfter(w, action);
    if action.Append? {
      StartedAppend(w.repo, action.revision, action.expectedParent);
    } else {
      StartedCommit(w.repo, action.commit, action.valid);
    }
  }

  lemma StartedAppend(s: Repo, r: Revision, expectedParent: Option<Id>)
    requires Good(s.revisions)
    ensures var f := StartAppend(s, r, expectedParent);
            f.Some? ==> Clear(s, f.value) && f.value.latest == Latest(s, ProjectOf(f.value))
  {
    hide Latest;
  }

  lemma StartedCommit(s: Repo, c: Commit, valid: bool)
    requires Good(s.revisions)
    ensures var f := StartCommit(s, c, valid);
            f.Some? ==> Clear(s, f.value) && f.value.latest == Latest(s, ProjectOf(f.value))
  {
    hide Latest;
  }

  lemma SecondHalf(w: World, p: Id)
    requires Ready(w) && JustMade(w)
    ensures ClearAction(w, Resume(0)) && UpToDate(w, Resume(0), p)
    ensures Ready(Act(w, Resume(0))) && Act(w, Resume(0)).waiting == []
  {
    hide Intact, Latest, Clear, Finish, Written, Started;
    if w.waiting != [] { assert w.waiting[0] in w.waiting; }
    ActReady(w, Resume(0));
  }

  lemma InOnePiece(w: World, action: Action, p: Id)
    requires Ready(w) && action.Do?
    ensures ClearAction(w, action) && UpToDate(w, action, p) && Ready(Act(w, action))
            && Act(w, action).waiting == w.waiting
  {
    hide Ready, Act, Clear, Intact, Latest, Good;
    ActReady(w, action);
    WaitingAfter(w, action);
  }

  /** Both halves of an awaited call. */
  lemma WholeCall(w: World, action: Action, p: Id)
    requires Ready(w) && w.waiting == [] && (action.Append? || action.CommitDesign?)
    ensures ClearAction(w, action) && UpToDate(w, action, p) && Ready(Act(w, action))
    ensures ClearAction(Act(w, action), Resume(0)) && UpToDate(Act(w, action), Resume(0), p)
    ensures Ready(Act(Act(w, action), Resume(0))) && Act(Act(w, action), Resume(0)).waiting == []
  {
    hide Ready, Act, ClearAction, JustMade, UpToDate;
    FirstHalf(w, action);
    StartStores(w, action, p);
    SecondHalf(Act(w, action), p);
  }

  lemma {:induction false} AwaitedClear(w: World, actions: seq<Action>)
    requires Ready(w) && w.waiting == [] && Awaited(actions)
    ensures AllClear(w, actions)
    decreases |actions|
  {
    hide Ready, Act, ClearAction, JustMade, UpToDate;
    if actions != [] {
      var a := actions[0];
      if a.Do? {
        InOnePiece(w, a, P);
        AwaitedClear(Act(w, a), actions[1..]);
      } else {
        WholeCall(w, a, P);
        assert actions[1..][1..] == actions[2..];
        AwaitedClear(Act(Act(w, a), Resume(0)), actions[2..]);
      }
    }
  }

  /** Awaited calls are always clear, so integrity and stored revisions survive every such run. */
  lemma AwaitedSound(w: World, actions: seq<Action>)
    requires Ready(w) && w.waiting == [] && Awaited(actions)
    ensures AllClear(w, actions) && AllSound(w, actions)
  {
    AwaitedClear(w, actions);
    SoundExactly(w, actions);
  }

  lemma AwaitedLine(w: World, actions: seq<Action>, p: Id)
    requires Ready(w) && w.waiting == [] && Awaited(actions) && forall a <- actions :: Spares(a, p)
    ensures Line(w, actions, p)
  {
    hide Ready, Spares;
    AwaitedClear(w, actions);
  }

  /** And they always store what was checked against the latest revision. */
  lemma {:induction false} AwaitedUpToDate(w: World, actions: seq<Action>, p: Id)
    requires Ready(w) && w.waiting == [] && Awaited(actions) && Line(w, actions, p)
    ensures AllUpToDate(w, actions, p)
    decreases |actions|
  {
    hide Ready, Act, ClearAction, JustMade, UpToDate, Spares, AllClear, Line;
    if actions != [] {
      var a := actions[0];
      LineStep(w, actions, p);
      if a.Do? {
        InOnePiece(w, a, p);
        AwaitedUpToDate(Act(w, a), actions[1..], p);
      } else {
        WholeCall(w, a, p);
        assert actions[1..][1..] == actions[2..] && actions[1..][0] == Resume(0);
        LineStep(Act(w, a), actions[1..], p);
        AwaitedUpToDate(Act(Act(w, a), Resume(0)), actions[2..], p);
      }
    }
  }

  lemma StartStores(w: World, a: Action, p: Id)
    requires Ready(w) && (a.Append? || a.CommitDesign?)
    ensures UpToDate(w, a, p)
  {
    hide Ready;
  }

  /** The history of a project that starts empty, for callers that await their calls: sequences 1 to n and the chain of
    * changes since the mark, as long as no combined commit is refused too late and no plain append joins in. */
  lemma AwaitedHistory(w: World, actions: seq<Action>, p: Id)
    requires Ready(w) && w.waiting == [] && EmptyProject(w, p) && Awaited(actions)
             && forall a <- actions :: Spares(a, p)
    ensures Line(w, actions, p) && Numbered(Traced(w, actions, p, []))
    ensures NeverTorn(w, actions, p) ==>
              var s := Run(w, actions).repo;
              Good(s.revisions) && History(s, p, Traced(w, actions, p, []), MarkTraced(w, actions, p, [], None))
  {
    hide Ready, Run, Traced, MarkTraced, Spares, AllClear, AllUpToDate, NeverTorn, History, Good, Line;
    AwaitedLine(w, actions, p);
    AwaitedUpToDate(w, actions, p);
    EmptyLine(w, p);
    RunNumbered(w, actions, p, []);
    if NeverTorn(w, actions, p) { DesignHistory(w, actions, p); }
  }

  lemma EmptyLine(w: World, p: Id)
    requires EmptyProject(w, p)
    ensures Holds(w.repo, p, []) && Numbered([]) && OnLine(w.waiting, p, [])
  {}
}
