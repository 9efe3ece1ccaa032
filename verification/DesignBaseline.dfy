/** The core design-baseline machine, and the proof that the repository's commits follow it. */
module DesignBaseline {
  import opened Wrappers
  import opened Utf16
  import opened OrderedMaps
  import Documents
  import opened DesignBudgets
  import opened RepositoryState
  import opened RepositoryIntegrity
  import opened RepositorySnapshots
  import opened RepositoryRuns
  import opened DesignRevisions
  import opened DesignChanges

  /** The field-by-field validators. */
  datatype Checks = Checks(baseline: Baseline -> bool, change: Change -> bool, activity: Body -> bool)

  datatype Command =
    | MarkDesignReady(intent: Intent, baseline: Baseline)
    | ApplyMutation(change: Change)
    | RecordActivity(activity: Body)

  const TYPE := Ascii("type")
  const CHANGE := Ascii("change")
  const ACTIVITY := Ascii("activity")
  const STATE := Ascii("state")

  function CommandValue(c: Command): Documents.Val
  {
    Documents.Record(
      match c
      case MarkDesignReady(intent, baseline) =>
        map[TYPE := Documents.Str(Ascii("mark-ready")), INTENT := Documents.Str(IntentText(intent)),
            BASELINE := BaselineValue(baseline)]
      case ApplyMutation(change) =>
        map[TYPE := Documents.Str(Ascii("apply-design-mutation")), CHANGE := ChangeValue(change)]
      case RecordActivity(activity) =>
        map[TYPE := Documents.Str(Ascii("record-collaboration-activity")), ACTIVITY := activity])
  }

  predicate ValidChange(c: Change, p: Id, k: Checks)
  {
    k.change(c) && Complete(c) && c.before.id != c.current.id && c.projectId == p
  }

  /** `validateDesignBaselineState`. */
  ghost predicate ValidCore(d: DesignState, k: Checks)
  {
    && Portable(StateValue(d))
    && ValidState(d) && (d.baseline.Some? ==> k.baseline(d.baseline.value))
    && forall c <- d.changes :: ValidChange(c, d.projectId, k)
  }

  function ReadinessFor(intent: Intent): Readiness { if intent == Review then ReadyForReview else ReadyForHandoff }

  /** The state that a baseline and the changes since it describe. */
  function Described(p: Id, baseline: Option<Baseline>, changes: seq<Change>): DesignState
  {
    match baseline
    case None => DraftState(p)
    case Some(b) =>
      DesignState(p, ReadinessFor(b.intent), baseline, if changes == [] then Current else Stale, changes != [], changes)
  }

  /** What `markDesignReady` returns: the baseline and the new state in one object. */
  function MarkResult(p: Id, baseline: Baseline): Documents.Val
  {
    Documents.Record(map[BASELINE := BaselineValue(baseline), STATE := StateValue(Described(p, Some(baseline), []))])
  }

  /** `markDesignReady`: `None` is a thrown error. The result is copied, so it must be within the budgets too. */
  ghost function Mark(d: DesignState, intent: Intent, baseline: Baseline, k: Checks): Option<DesignState>
  {
    if !ValidCore(d, k) || baseline.projectId != d.projectId || !k.baseline(baseline)
       || baseline.intent != intent then None
    else if !Portable(MarkResult(d.projectId, baseline)) then None
    else Some(DesignState(d.projectId, ReadinessFor(intent), Some(baseline), Current, false, []))
  }

  function Extended(d: DesignState, change: Change): DesignState
  {
    d.(currency := Stale, changes := d.changes + [change], approvalsStale := true)
  }

  /** `recordDesignMutation`: before the first baseline there is nothing to record against. */
  ghost function Mutate(d: DesignState, change: Change, k: Checks): Option<DesignState>
  {
    if !ValidCore(d, k) || !ValidChange(change, d.projectId, k) then None
    else if d.baseline.None? then Some(d)
    else if !Portable(StateValue(Extended(d, change))) then None
    else Some(Extended(d, change))
  }

  /** `executeDesignBaselineCommand`. The state and the command are copied first; the copies made further in are of
    * parts of these, which `PartPortable` lets through. */
  ghost function Execute(d: DesignState, command: Command, k: Checks): Option<DesignState>
  {
    if !Portable(StateValue(d)) || !Portable(CommandValue(command)) then None
    else
      match command
      case MarkDesignReady(intent, baseline) => Mark(d, intent, baseline, k)
      case ApplyMutation(change) => Mutate(d, change, k)
      case RecordActivity(activity) => if ValidCore(d, k) && k.activity(activity) then Some(d) else None
  }

  /** Commands one after another; one that throws leaves the state. */
  ghost function Run(d: DesignState, commands: seq<Command>, k: Checks): DesignState
    decreases |commands|
  {
    if commands == [] then d else Run(Execute(d, commands[0], k).GetOr(d), commands[1..], k)
  }

  // ---------- What every run keeps ----------

  lemma ExecuteKeeps(d: DesignState, command: Command, k: Checks)
    requires ValidCore(d, k) && Execute(d, command, k).Some?
    ensures ValidCore(Execute(d, command, k).value, k) && Execute(d, command, k).value.projectId == d.projectId
  {
    hide Portable, StateValue, CommandValue, Complete;
    if command.MarkDesignReady? { PartPortable(MarkResult(d.projectId, command.baseline), STATE); }
  }

  /** Valid states stay valid, of their project and, with a baseline, of at most 833 changes. */
  lemma {:induction false} RunKeeps(d: DesignState, commands: seq<Command>, k: Checks)
    requires ValidCore(d, k)
    ensures ValidCore(Run(d, commands, k), k) && Run(d, commands, k).projectId == d.projectId
    ensures |Run(d, commands, k).changes| <= MAX_CHANGES
    decreases |commands|
  {
    hide Execute, Portable, StateValue, Complete;
    if commands == [] {
      if d.baseline.Some? { ChangesBounded(d); }
    } else {
      if Execute(d, commands[0], k).Some? { ExecuteKeeps(d, commands[0], k); }
      RunKeeps(Execute(d, commands[0], k).GetOr(d), commands[1..], k);
    }
  }

  // ---------- When a command is accepted ----------

  /** What acceptance asks of a command and its project alone. */
  ghost predicate Sound(p: Id, command: Command, k: Checks)
  {
    && Portable(CommandValue(command))
    && match command
       case MarkDesignReady(intent, baseline) =>
         baseline.projectId == p && k.baseline(baseline) && baseline.intent == intent
         && Portable(MarkResult(p, baseline))
       case ApplyMutation(change) => ValidChange(change, p, k)
       case RecordActivity(activity) => k.activity(activity)
  }

  /** What it asks of the state: that the next one is within the budgets. */
  ghost predicate Fitting(p: Id, baseline: Option<Baseline>, changes: seq<Change>, command: Command)
  {
    command.ApplyMutation? && baseline.Some?
    ==> Portable(StateValue(Described(p, baseline, changes + [command.change])))
  }

  lemma AppliedToDescribed(p: Id, baseline: Option<Baseline>, changes: seq<Change>, command: Command, k: Checks)
    requires ValidCore(Described(p, baseline, changes), k)
    ensures var d, accepted := Described(p, baseline, changes), Sound(p, command, k)
            && Fitting(p, baseline, changes, command);
            && (Execute(d, command, k).Some? <==> accepted)
            && Execute(d, command, k).GetOr(d) ==
               if !accepted || command.RecordActivity? then d
               else if command.MarkDesignReady? then Described(p, Some(command.baseline), [])
               else if baseline.None? then d
               else Described(p, baseline, changes + [command.change])
  {
    hide Portable, StateValue, CommandValue, MarkResult, Complete;
  }

  // ---------- The state is a fold over the commands since the last mark ----------

  /** The baseline of the last accepted mark, or the one to start with. */
  ghost function LastBaseline(start: Option<Baseline>, p: Id, commands: seq<Command>, k: Checks): Option<Baseline>
  {
    if commands == [] then start
    else
      var last := commands[|commands| - 1];
      if last.MarkDesignReady? && Sound(p, last, k) then Some(last.baseline)
      else LastBaseline(start, p, commands[..|commands| - 1], k)
  }

  /** The mutations accepted after the last accepted mark, in order: those that were sound and found room after the
    * ones before them. Those before the first baseline do not count. */
  ghost function Since(start: DesignState, commands: seq<Command>, k: Checks): seq<Change>
  {
    if commands == [] then start.changes
    else
      var front, last := commands[..|commands| - 1], commands[|commands| - 1];
      var changes, baseline := Since(start, front, k), LastBaseline(start.baseline, start.projectId, front, k);
      if !Sound(start.projectId, last, k) || last.RecordActivity? then changes
      else if last.MarkDesignReady? then []
      else if baseline.None? || !Fitting(start.projectId, baseline, changes, last) then changes
      else changes + [last.change]
  }

  lemma {:induction false} RunAppend(d: DesignState, commands: seq<Command>, last: Command, k: Checks)
    ensures var end := Run(d, commands, k); Run(d, commands + [last], k) == Execute(end, last, k).GetOr(end)
    decreases |commands|
  {
    hide Execute;
    if commands == [] {
      assert [last][1..] == [];
    } else {
      assert (commands + [last])[1..] == commands[1..] + [last];
      RunAppend(Execute(d, commands[0], k).GetOr(d), commands[1..], last, k);
    }
  }

  /** Every reachable state is its last baseline and the mutations since: nothing else of the run survives. */
  lemma {:induction false} RunIsFold(d: DesignState, commands: seq<Command>, k: Checks)
    requires ValidCore(d, k)
    ensures Run(d, commands, k)
            == Described(d.projectId, LastBaseline(d.baseline, d.projectId, commands, k), Since(d, commands, k))
    decreases |commands|
  {
    hide Execute, Portable, StateValue, CommandValue, MarkResult, Complete, Sound;
    if commands != [] {
      var front, last := commands[..|commands| - 1], commands[|commands| - 1];
      RunIsFold(d, front, k);
      RunKeeps(d, front, k);
      RunAppend(d, front, last, k);
      assert commands == front + [last];
      AppliedToDescribed(d.projectId, LastBaseline(d.baseline, d.projectId, front, k), Since(d, front, k), last, k);
    }
  }

  // ---------- Room for changes ----------

  predicate NoMark(commands: seq<Command>) { forall c <- commands :: !c.MarkDesignReady? }

  lemma RefusedStep(d: DesignState, command: Command, change: Change, k: Checks)
    requires ValidCore(d, k) && !command.MarkDesignReady? && Execute(d, ApplyMutation(change), k).None?
    ensures Execute(Execute(d, command, k).GetOr(d), ApplyMutation(change), k).None?
  {
    hide Portable, StateValue, CommandValue, Complete;
    var next := Execute(d, command, k).GetOr(d);
    if next != d && Portable(StateValue(Extended(next, change))) {
      FewerChanges(Extended(next, change), d.changes, [command.change], change);
      assert Extended(next, change).(changes := d.changes + [change]) == Extended(d, change);
    }
  }

  /** A refused mutation stays refused until the next mark, whatever else is executed. */
  lemma {:induction false} RefusedStays(d: DesignState, commands: seq<Command>, change: Change, k: Checks)
    requires ValidCore(d, k) && NoMark(commands) && Execute(d, ApplyMutation(change), k).None?
    ensures Execute(Run(d, commands, k), ApplyMutation(change), k).None?
    decreases |commands|
  {
    hide Execute, ValidCore;
    if commands != [] {
      assert commands[0] in commands;
      RefusedStep(d, commands[0], change, k);
      if Execute(d, commands[0], k).Some? { ExecuteKeeps(d, commands[0], k); }
      RefusedStays(Execute(d, commands[0], k).GetOr(d), commands[1..], change, k);
    }
  }

  function Repeated(change: Change, n: nat): seq<Command> { seq(n, _ => ApplyMutation(change)) }

  /** Any one change is refused after at most 833 times, however valid it is. */
  lemma {:induction false} RefusedInTheEnd(d: DesignState, change: Change, n: nat, k: Checks)
    requires ValidCore(d, k) && d.baseline.Some? && |d.changes| + n >= MAX_CHANGES
    ensures Execute(Run(d, Repeated(change, n), k), ApplyMutation(change), k).None?
    decreases n
  {
    hide Portable, StateValue, CommandValue, Complete, Run;
    var first := ApplyMutation(change);
    if Execute(d, first, k).None? {
      RefusedStays(d, Repeated(change, n), change, k);
    } else {
      var next := Execute(d, first, k).value;
      ExecuteKeeps(d, first, k);
      ChangesBounded(next);
      RunFirst(d, first, Repeated(change, n - 1), k);
      assert Repeated(change, n) == [first] + Repeated(change, n - 1);
      RefusedInTheEnd(next, change, n - 1, k);
    }
  }

  lemma RunFirst(d: DesignState, first: Command, rest: seq<Command>, k: Checks)
    ensures Run(d, [first] + rest, k) == Run(Execute(d, first, k).GetOr(d), rest, k)
  {
    assert ([first] + rest)[1..] == rest;
  }

  lemma {:induction false} SameBaseline(start: Option<Baseline>, p: Id, commands: seq<Command>, k: Checks)
    requires NoMark(commands)
    ensures LastBaseline(start, p, commands, k) == start
  {
    if commands != [] {
      assert commands[|commands| - 1] in commands;
      SameBaseline(start, p, commands[..|commands| - 1], k);
    }
  }

  // ---------- What can be left out of a run ----------

  /** Drops collaboration activity, and mutations while there is no baseline. */
  ghost function Relevant(marked: bool, p: Id, commands: seq<Command>, k: Checks): seq<Command>
    decreases |commands|
  {
    if commands == [] then []
    else
      var c := commands[0];
      if c.RecordActivity? || (c.ApplyMutation? && !marked) then Relevant(marked, p, commands[1..], k)
      else [c] + Relevant(marked || (c.MarkDesignReady? && Sound(p, c, k)), p, commands[1..], k)
  }

  /** Deleting collaboration commands and mutations before the first baseline changes nothing. */
  lemma {:induction false} RunOfRelevant(d: DesignState, commands: seq<Command>, k: Checks)
    requires ValidCore(d, k)
    ensures Run(d, commands, k) == Run(d, Relevant(d.baseline.Some?, d.projectId, commands, k), k)
    decreases |commands|
  {
    hide Portable, StateValue, CommandValue, MarkResult, Complete;
    if commands != [] {
      var c := commands[0];
      var next := Execute(d, c, k).GetOr(d);
      if Execute(d, c, k).Some? { ExecuteKeeps(d, c, k); }
      RunOfRelevant(next, commands[1..], k);
      if !(c.RecordActivity? || (c.ApplyMutation? && d.baseline.None?)) {
        var rest := Relevant(next.baseline.Some?, d.projectId, commands[1..], k);
        RunFirst(d, c, rest, k);
      }
    }
  }

  // ---------- The repository follows the core machine ----------

  /** The core command that the second half of a call carries out on its project's state, if it gets that far. */
  function CommandOf(s: Repo, f: Pending): Option<Command>
  {
    if !Passes(s, f) then None
    else
      var c := f.commit;
      if !c.AppendOnly? then
        Some(MarkDesignReady(
               c.readiness.intent,
               Baseline(c.readiness.id, c.head.projectId, ReferenceTo(MarkedRevision(s, c)), c.readiness.intent,
                        c.head.actorId, c.head.occurredAt)))
      else if c.change.None? || f.latest.None? then None
      else Some(ApplyMutation(RecordedChange(c, f.latest.value)))
  }

  /** The command for the project `p`. */
  function CommandFor(w: World, action: Action, p: Id): Option<Command>
  {
    var f := Resumed(w, action);
    if f.Some? && ProjectOf(f.value) == p then CommandOf(w.repo, f.value) else None
  }

  /** The second half of one call is one core command on its project's state, or none. */
  lemma CommitFollowsCore(s: Repo, f: Pending, p: Id, k: Checks)
    requires StateOf(s, p).projectId == p
    requires ProjectOf(f) == p && CommandOf(s, f).Some? ==> Execute(StateOf(s, p), CommandOf(s, f).value, k).Some?
    ensures StateOf(Finish(s, f), p) ==
            if ProjectOf(f) == p && CommandOf(s, f).Some? then Execute(StateOf(s, p), CommandOf(s, f).value, k).value
            else StateOf(s, p)
  {
    hide ValidCore, CommitRefused, LateRefused, ReferenceTo, Remembers, BaselineTaken;
    if ProjectOf(f) == p && Passes(s, f) && !f.commit.AppendOnly? {
      MarkFollowsCore(s, f, k);
    } else {
      FinishState(s, f, p);
      AppendIsStale(s, f);
      hide Finish;
    }
  }

  lemma MarkFollowsCore(s: Repo, f: Pending, k: Checks)
    requires Passes(s, f) && !f.commit.AppendOnly? && StateOf(s, ProjectOf(f)).projectId == ProjectOf(f)
    requires Execute(StateOf(s, ProjectOf(f)), CommandOf(s, f).value, k).Some?
    ensures StateOf(Finish(s, f), ProjectOf(f)) == Execute(StateOf(s, ProjectOf(f)), CommandOf(s, f).value, k).value
  {
    hide ValidCore, CommitRefused, LateRefused, ReferenceTo, Remembers, Portable, StateValue, CommandValue, MarkResult;
  }

  /** A change is only recorded against a baseline. */
  lemma AppendIsStale(s: Repo, f: Pending)
    ensures Passes(s, f) && f.commit.AppendOnly? && f.commit.change.Some? ==> StateOf(s, ProjectOf(f)).baseline.Some?
  {
    hide LateRefused;
  }

  /** One action on one project's review state. */
  lemma ActFollowsCore(w: World, action: Action, p: Id, k: Checks)
    requires Ready(w) && Spares(action, p)
    requires CommandFor(w, action, p).Some? ==> Execute(StateOf(w.repo, p), CommandFor(w, action, p).value, k).Some?
    ensures StateOf(Act(w, action).repo, p) ==
            if CommandFor(w, action, p).Some? then Execute(StateOf(w.repo, p), CommandFor(w, action, p).value, k).value
            else StateOf(w.repo, p)
  {
    ReadyIntact(w);
    StateNamed(w.repo, p);
    hide Ready, Intact, Act, Finish, Execute, CommandOf, StateOf, Spares;
    var f := Resumed(w, action);
    if f.Some? {
      ResumeIs(w, action);
      CommitFollowsCore(w.repo, f.value, p, k);
    } else if action.Do? {
      DoIs(w, action.op);
      SameState(w.repo, action.op, p);
    } else {
      WaitIs(w, action);
    }
  }

  lemma StateNamed(s: Repo, p: Id)
    requires Intact(s)
    ensures StateOf(s, p).projectId == p
  {}

  /** The core commands of a run, for one project. */
  ghost function CommandsOf(w: World, actions: seq<Action>, p: Id): seq<Command>
    requires Ready(w) && Line(w, actions, p)
    decreases |actions|
  {
    if actions == [] then []
    else
      LineStep(w, actions, p);
      var first, rest := CommandFor(w, actions[0], p), CommandsOf(Act(w, actions[0]), actions[1..], p);
      if first.Some? then [first.value] + rest else rest
  }

  /** The core accepts every command, one after another. */
  ghost predicate AllAccepted(d: DesignState, commands: seq<Command>, k: Checks)
    decreases |commands|
  {
    commands == [] || (Execute(d, commands[0], k).Some?
                       && AllAccepted(Execute(d, commands[0], k).value, commands[1..], k))
  }

  /** Over any interleaved run whose commands the core accepts, the repository's review state is the core's. */
  lemma {:induction false} CommitsFollowCore(w: World, actions: seq<Action>, p: Id, k: Checks)
    requires Ready(w) && Line(w, actions, p) && AllAccepted(StateOf(w.repo, p), CommandsOf(w, actions, p), k)
    ensures StateOf(RepositoryRuns.Run(w, actions).repo, p) == Run(StateOf(w.repo, p), CommandsOf(w, actions, p), k)
    decreases |actions|
  {
    hide Ready, Act, CommandFor, Execute, StateOf, ClearAction, Spares;
    if actions != [] {
      var a := actions[0];
      LineStep(w, actions, p);
      var rest := CommandsOf(Act(w, a), actions[1..], p);
      if CommandFor(w, a, p).Some? { assert ([CommandFor(w, a, p).value] + rest)[1..] == rest; }
      ActFollowsCore(w, a, p, k);
      CommitsFollowCore(Act(w, a), actions[1..], p, k);
    }
  }

  /** So over a run from an empty project the repository's state is the fold of the accepted commands since the last
    * mark, whatever the core would have skipped. */
  lemma CommitsFold(w: World, actions: seq<Action>, p: Id, k: Checks)
    requires Ready(w) && EmptyProject(w, p) && Line(w, actions, p)
             && AllAccepted(DraftState(p), CommandsOf(w, actions, p), k)
    ensures var commands := CommandsOf(w, actions, p);
            StateOf(RepositoryRuns.Run(w, actions).repo, p)
            == Described(p, LastBaseline(None, p, commands, k), Since(DraftState(p), commands, k))
  {
    hide Ready, RepositoryRuns.Run, CommandsOf, Run, LastBaseline, Since, Described, AllClear, Spares;
    CommitsFollowCore(w, actions, p, k);
    var commands := CommandsOf(w, actions, p);
    if commands == [] {
      NoCommands(p, k);
    } else {
      AcceptedValid(DraftState(p), commands[0], k);
      RunIsFold(DraftState(p), commands, k);
    }
  }

  lemma NoCommands(p: Id, k: Checks)
    ensures Run(DraftState(p), [], k) == Described(p, LastBaseline(None, p, [], k), Since(DraftState(p), [], k))
  {}

  lemma AcceptedValid(d: DesignState, command: Command, k: Checks)
    requires Execute(d, command, k).Some?
    ensures ValidCore(d, k)
  {}
}
