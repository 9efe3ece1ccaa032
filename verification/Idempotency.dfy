/** The in-flight idempotency helper: callers in any number of processes, interleaved freely, over one store in which
  * the first response written for a key stays. */
module Idempotency {
  import opened Wrappers

  /** A scope and key, as one text. */
  type Key = string

  /** One execution of the helper's inner function: reading the store, about to operate, operating, holding a response
    * to store, or settled with a result or an error. */
  datatype Phase<Response> =
    | Reading
    | Unanswered
    | Operating
    | Storing(response: Response)
    | Settled(result: Option<Response>)

  datatype Run<Response> = Run(process: nat, key: Key, phase: Phase<Response>)

  /** A caller waits for the run it found or started. */
  datatype Caller = Caller(process: nat, key: Key, run: nat)

  datatype State<Response> = State(
    store: map<Key, Response>, runs: seq<Run<Response>>, locks: map<(nat, Key), nat>, callers: seq<Caller>)

  datatype Action<Response> =
    | Call(process: nat, key: Key)
    | Read(run: nat)
    | Begin(run: nat)
    | Finish(run: nat, response: Response)
    | Put(run: nat)
    | PutThenLose(run: nat)
    | Fail(run: nat)
    | Release(run: nat)

  function Enter<R>(s: State<R>, run: nat, phase: Phase<R>): State<R>
    requires run < |s.runs|
  {
    s.(runs := s.runs[run := s.runs[run].(phase := phase)])
  }

  /** The store keeps the first response it was given. */
  function PutFirst<R>(store: map<Key, R>, key: Key, response: R): map<Key, R>
  {
    if key in store then store else store[key := response]
  }

  /** Between two awaits a process runs alone, so each of these is atomic. An action that cannot happen does nothing. */
  function Step<R>(s: State<R>, a: Action<R>): State<R>
  {
    match a
    case Call(p, k) =>
      if (p, k) in s.locks then s.(callers := s.callers + [Caller(p, k, s.locks[(p, k)])])
      else s.(runs := s.runs + [Run(p, k, Reading)], locks := s.locks[(p, k) := |s.runs|],
              callers := s.callers + [Caller(p, k, |s.runs|)])
    case Read(i) =>
      if i >= |s.runs| || !s.runs[i].phase.Reading? then s
      else if s.runs[i].key in s.store then Enter(s, i, Settled(Some(s.store[s.runs[i].key])))
      else Enter(s, i, Unanswered)
    case Begin(i) => if i >= |s.runs| || !s.runs[i].phase.Unanswered? then s else Enter(s, i, Operating)
    case Finish(i, response) =>
      if i >= |s.runs| || !s.runs[i].phase.Operating? then s else Enter(s, i, Storing(response))
    case Put(i) =>
      if i >= |s.runs| || !s.runs[i].phase.Storing? then s
      else
        var store := PutFirst(s.store, s.runs[i].key, s.runs[i].phase.response);
        Enter(s, i, Settled(Some(store[s.runs[i].key]))).(store := store)
    case PutThenLose(i) =>
      if i >= |s.runs| || !s.runs[i].phase.Storing? then s
      else Enter(s, i, Settled(None)).(store := PutFirst(s.store, s.runs[i].key, s.runs[i].phase.response))
    case Fail(i) => if i >= |s.runs| || s.runs[i].phase.Settled? then s else Enter(s, i, Settled(None))
    case Release(i) =>
      if i >= |s.runs| || !s.runs[i].phase.Settled? then s
      else
        var name := (s.runs[i].process, s.runs[i].key);
        if name in s.locks && s.locks[name] == i then s.(locks := s.locks - {name}) else s
  }

  function Play<R>(s: State<R>, actions: seq<Action<R>>): State<R>
    decreases |actions|
  {
    if actions == [] then s else Play(Step(s, actions[0]), actions[1..])
  }

  function Start<R>(store: map<Key, R>): State<R> { State(store, [], map[], []) }

  // ---------- What every interleaving keeps ----------

  /** A lock names a run of its process and key; an unsettled run is the one its lock names; a settled response is
    * the stored one; a caller waits for a run of its own process and key. */
  ghost predicate Valid<R>(s: State<R>)
  {
    && (forall name <- s.locks :: s.locks[name] < |s.runs|
          && (s.runs[s.locks[name]].process, s.runs[s.locks[name]].key) == name)
    && (forall i :: 0 <= i < |s.runs| && !s.runs[i].phase.Settled? ==>
                      (s.runs[i].process, s.runs[i].key) in s.locks && s.locks[(s.runs[i].process, s.runs[i].key)] == i)
    && (forall i :: 0 <= i < |s.runs| && s.runs[i].phase.Settled? && s.runs[i].phase.result.Some? ==>
                      s.runs[i].key in s.store && s.store[s.runs[i].key] == s.runs[i].phase.result.value)
    && (forall c <- s.callers :: c.run < |s.runs| && s.runs[c.run].process == c.process && s.runs[c.run].key == c.key)
  }

  /** A run that moves on, with at most one new response stored: its own key's. */
  lemma EnterKeeps<R(!new)>(s: State<R>, i: nat, phase: Phase<R>, store: map<Key, R>)
    requires Valid(s) && i < |s.runs| && !s.runs[i].phase.Settled?
             && forall k <- s.store :: k in store && store[k] == s.store[k]
    requires phase.Settled? && phase.result.Some?
             ==> s.runs[i].key in store && store[s.runs[i].key] == phase.result.value
    ensures Valid(Enter(s, i, phase).(store := store))
  {
  }

  lemma CallKeeps<R(!new)>(s: State<R>, p: nat, k: Key)
    requires Valid(s)
    ensures Valid(Step(s, Call(p, k)))
  {
  }

  lemma ReleaseKeeps<R(!new)>(s: State<R>, i: nat)
    requires Valid(s)
    ensures Valid(Step(s, Release(i)))
  {
  }

  lemma StepKeeps<R(!new)>(s: State<R>, a: Action<R>)
    requires Valid(s)
    ensures Valid(Step(s, a))
  {
    hide Valid;
    var t := Step(s, a);
    match a
    case Call(p, k) => CallKeeps(s, p, k);
    case Release(i) => ReleaseKeeps(s, i);
    case _ =>
      var i := a.run;
      if i < |s.runs| && t != s {
        assert t == Enter(s, i, t.runs[i].phase).(store := t.store);
        EnterKeeps(s, i, t.runs[i].phase, t.store);
      }
  }

  /** Responses stay, and runs keep their process and key. */
  ghost predicate Grows<R>(s: State<R>, t: State<R>)
  {
    && (forall k <- s.store :: k in t.store && t.store[k] == s.store[k]) && |s.runs| <= |t.runs|
    && forall i :: 0 <= i < |s.runs| ==> t.runs[i].process == s.runs[i].process && t.runs[i].key == s.runs[i].key
  }

  lemma StepGrows<R(!new)>(s: State<R>, a: Action<R>)
    ensures Grows(s, Step(s, a))
  {
  }

  lemma {:induction false} PlayKeeps<R(!new)>(s: State<R>, actions: seq<Action<R>>)
    requires Valid(s)
    ensures Valid(Play(s, actions)) && Grows(s, Play(s, actions))
    decreases |actions|
  {
    hide Step, Valid;
    if actions != [] {
      StepKeeps(s, actions[0]);
      StepGrows(s, actions[0]);
      PlayKeeps(Step(s, actions[0]), actions[1..]);
    }
  }

  /** The operation runs between the empty read and the store: no later than that, no earlier. */
  predicate Active<R>(p: Phase<R>) { p.Operating? || p.Storing? || p.Unanswered? }

  /** Operations of one key never overlap within a process, whatever the interleaving. */
  lemma NeverOverlap<R(!new)>(store: map<Key, R>, actions: seq<Action<R>>, i: nat, j: nat)
    requires var s := Play(Start(store), actions);
             && i < |s.runs| && j < |s.runs| && Active(s.runs[i].phase) && Active(s.runs[j].phase)
             && s.runs[i].process == s.runs[j].process && s.runs[i].key == s.runs[j].key
    ensures i == j
  {
    hide Step;
    PlayKeeps(Start(store), actions);
  }

  /** All callers of a key that return, in whatever process and however often it was tried, return one response. */
  lemma SameAnswer<R(!new)>(store: map<Key, R>, actions: seq<Action<R>>, c: Caller, d: Caller)
    requires var s := Play(Start(store), actions); c in s.callers && d in s.callers && c.key == d.key
    ensures var s := Play(Start(store), actions);
            && c.run < |s.runs| && d.run < |s.runs|
            && var x, y := s.runs[c.run].phase, s.runs[d.run].phase;
               (x.Settled? && y.Settled? && x.result.Some? && y.result.Some? ==> x.result == y.result)
  {
    hide Step;
    PlayKeeps(Start(store), actions);
  }

  // ---------- No operation after the answer ----------

  /** The key has an answer, and no run from `first` on is anywhere near its operation. */
  predicate Answered<R>(s: State<R>, k: Key, first: nat)
  {
    k in s.store && forall i :: first <= i < |s.runs| && s.runs[i].key == k ==> !Active(s.runs[i].phase)
  }

  lemma AnsweredKept<R(!new)>(s: State<R>, a: Action<R>, k: Key, first: nat)
    requires Answered(s, k, first)
    ensures Answered(Step(s, a), k, first)
  {
  }

  lemma {:induction false} AnsweredStays<R(!new)>(s: State<R>, actions: seq<Action<R>>, k: Key, first: nat)
    requires Answered(s, k, first)
    ensures Answered(Play(s, actions), k, first)
    decreases |actions|
  {
    hide Step, Answered;
    if actions != [] {
      AnsweredKept(s, actions[0], k, first);
      AnsweredStays(Step(s, actions[0]), actions[1..], k, first);
    }
  }

  /** Once a response is stored, no run started later ever operates, in any process. */
  lemma NoOperationAfterAnswer<R(!new)>(s: State<R>, actions: seq<Action<R>>, k: Key)
    requires k in s.store
    ensures var t := Play(s, actions);
            forall i :: |s.runs| <= i < |t.runs| && t.runs[i].key == k ==> !Active(t.runs[i].phase)
  {
    AnsweredStays(s, actions, k, |s.runs|);
  }

  /** Every run of the key belongs to one process. */
  predicate OneProcess<R>(s: State<R>, k: Key, p: nat)
  {
    forall i :: 0 <= i < |s.runs| && s.runs[i].key == k ==> s.runs[i].process == p
  }

  predicate QuietOnceStored<R>(s: State<R>, k: Key)
  {
    k in s.store ==> forall i :: 0 <= i < |s.runs| && s.runs[i].key == k ==> !Active(s.runs[i].phase)
  }

  lemma QuietKept<R(!new)>(s: State<R>, a: Action<R>, k: Key, p: nat)
    requires Valid(s) && QuietOnceStored(s, k) && OneProcess(s, k, p)
    ensures QuietOnceStored(Step(s, a), k)
  {
    if k !in s.store && k in Step(s, a).store {
      var w := a.run;
      assert s.runs[w].key == k && Active(s.runs[w].phase);
      forall i | 0 <= i < |s.runs| && i != w && s.runs[i].key == k ensures !Active(s.runs[i].phase) {
        assert s.runs[i].process == s.runs[w].process;
      }
    }
  }

  /** Every call of the key comes from one of these processes. */
  ghost predicate CallsWithin<R>(actions: seq<Action<R>>, k: Key, ps: set<nat>)
  {
    forall a <- actions :: a.Call? && a.key == k ==> a.process in ps
  }

  lemma {:induction false} OneProcessQuiet<R(!new)>(s: State<R>, actions: seq<Action<R>>, k: Key, p: nat)
    requires Valid(s) && QuietOnceStored(s, k) && OneProcess(s, k, p) && CallsWithin(actions, k, {p})
    ensures QuietOnceStored(Play(s, actions), k)
    decreases |actions|
  {
    hide Valid, QuietOnceStored;
    if actions != [] {
      var a := actions[0];
      assert a in actions;
      StepKeeps(s, a);
      QuietKept(s, a, k, p);
      assert OneProcess(Step(s, a), k, p);
      hide Step;
      OneProcessQuiet(Step(s, a), actions[1..], k, p);
    }
  }

  /** In one process, nothing is operating any more, not even finishing, once a response is stored. */
  lemma SingleProcessQuiet<R(!new)>(store: map<Key, R>, actions: seq<Action<R>>, k: Key, p: nat)
    requires CallsWithin(actions, k, {p})
    ensures QuietOnceStored(Play(Start(store), actions), k)
  {
    OneProcessQuiet(Start(store), actions, k, p);
  }

  // ---------- Across processes ----------

  /** `p` and `q` both find the store empty; `p` operates and stores its response, and only then `q` begins. */
  function Overlapping<R>(k: Key, p: nat, q: nat, response: R): seq<Action<R>>
  {
    [Call(p, k), Call(q, k), Read(0), Read(1)] + [Begin(0), Finish(0, response), Put(0), Begin(1)]
  }

  /** Any two processes can overlap on any key that has no response yet: the slower operates after the faster has
    * stored its response. */
  lemma TwoProcessesOverlap<R(!new)>(store: map<Key, R>, k: Key, p: nat, q: nat, response: R)
    requires k !in store && p != q
    ensures var s := Play(Start(store), Overlapping(k, p, q, response));
            && k in s.store && s.store[k] == response
            && |s.runs| == 2 && s.runs[0] == Run(p, k, Settled(Some(response))) && s.runs[1] == Run(q, k, Operating)
  {
    var a0, a1, a2, a3: Action<R> := Call(p, k), Call(q, k), Read(0), Read(1);
    var a4, a5, a6, a7: Action<R> := Begin(0), Finish(0, response), Put(0), Begin(1);
    var s: State<R> := Start(store);
    PlaySplit(s, [a0, a1, a2, a3], [a4, a5, a6, a7]);
    hide Step, Play;
    PlayFour(s, a0, a1, a2, a3);
    BothRead(store, k, p, q);
    PlayFour(BothUnanswered(store, k, p, q), a4, a5, a6, a7);
    SlowerOperates(store, k, p, q, response);
  }

  /** Both processes have read the store and found nothing. */
  function BothUnanswered<R>(store: map<Key, R>, k: Key, p: nat, q: nat): State<R>
  {
    State(store, [Run(p, k, Unanswered), Run(q, k, Unanswered)], map[(p, k) := 0, (q, k) := 1],
          [Caller(p, k, 0), Caller(q, k, 1)])
  }

  lemma BothRead<R(!new)>(store: map<Key, R>, k: Key, p: nat, q: nat)
    requires k !in store && p != q
    ensures Step(Step(Step(Step(Start(store), Call(p, k)), Call(q, k)), Read(0)), Read(1))
            == BothUnanswered(store, k, p, q)
  {
    var s2 := Step(Step(Start(store), Call(p, k)), Call(q, k));
    assert s2 == BothUnanswered(store, k, p, q).(runs := [Run(p, k, Reading), Run(q, k, Reading)]);
  }

  lemma SlowerOperates<R(!new)>(store: map<Key, R>, k: Key, p: nat, q: nat, response: R)
    requires k !in store && p != q
    ensures var s := Step(Step(Step(Step(BothUnanswered(store, k, p, q), Begin(0)), Finish(0, response)), Put(0)),
                          Begin(1));
            && k in s.store && s.store[k] == response
            && |s.runs| == 2 && s.runs[0] == Run(p, k, Settled(Some(response))) && s.runs[1] == Run(q, k, Operating)
  {
    var s2 := Step(Step(BothUnanswered(store, k, p, q), Begin(0)), Finish(0, response));
    assert s2 == BothUnanswered(store, k, p, q).(runs := [Run(p, k, Storing(response)), Run(q, k, Unanswered)]);
  }

  /** The processes that may call a key decide whether everything is quiet once it has a response: in every run
    * if and only if the response was there from the start or at most one process calls. */
  lemma QuietExactly<R(!new)>(store: map<Key, R>, k: Key, ps: set<nat>, response: R)
    ensures (forall actions: seq<Action<R>> :: CallsWithin(actions, k, ps)
               ==> QuietOnceStored(Play(Start(store), actions), k))
            <==> k in store || |ps| <= 1
  {
    if k in store {
      forall actions: seq<Action<R>> ensures QuietOnceStored(Play(Start(store), actions), k) {
        AnsweredStays(Start(store), actions, k, 0);
      }
    } else if |ps| <= 1 {
      var p := Sole(ps);
      forall actions: seq<Action<R>> | CallsWithin(actions, k,
                                                   ps) ensures QuietOnceStored(Play(Start(store), actions), k)
      {
        SingleProcessQuiet(store, actions, k, p);
      }
    } else {
      var p, q := TwoOf(ps);
      TwoProcessesOverlap(store, k, p, q, response);
      assert CallsWithin(Overlapping(k, p, q, response), k, ps);
      assert Active(Play(Start(store), Overlapping(k, p, q, response)).runs[1].phase);
    }
  }

  lemma Sole(ps: set<nat>) returns (p: nat)
    requires |ps| <= 1
    ensures forall x <- ps :: x == p
  {
    p := 0;
    if ps != {} {
      p :| p in ps;
      assert |ps - {p}| == 0;
      forall x <- ps ensures x == p { assert x != p ==> x in ps - {p}; }
    }
  }

  lemma TwoOf(ps: set<nat>) returns (p: nat, q: nat)
    requires |ps| > 1
    ensures p in ps && q in ps && p != q
  {
    p :| p in ps;
    assert |ps - {p}| > 0;
    q :| q in ps - {p};
  }

  // ---------- One run ----------

  /** The action stores the first response of the key while another run of it is between its read and its store. */
  ghost predicate Overtakes<R>(s: State<R>, a: Action<R>, k: Key)
  {
    k !in s.store && k in Step(s, a).store
    && exists i :: 0 <= i < |s.runs| && i != a.run && s.runs[i].key == k && Active(s.runs[i].phase)
  }

  lemma QuietStep<R(!new)>(s: State<R>, a: Action<R>, k: Key)
    requires QuietOnceStored(s, k)
    ensures QuietOnceStored(Step(s, a), k) <==> !Overtakes(s, a, k)
  {
    var t := Step(s, a);
    if k in s.store {
      AnsweredKept(s, a, k, 0);
    } else if k in t.store {
      assert forall i :: 0 <= i < |s.runs| && i != a.run ==> t.runs[i] == s.runs[i];
      assert !Active(t.runs[a.run].phase);
    }
  }

  ghost predicate AlwaysQuiet<R>(s: State<R>, actions: seq<Action<R>>, k: Key)
    decreases |actions|
  {
    QuietOnceStored(s, k) && (actions != [] ==> AlwaysQuiet(Step(s, actions[0]), actions[1..], k))
  }

  ghost predicate NeverOvertakes<R>(s: State<R>, actions: seq<Action<R>>, k: Key)
    decreases |actions|
  {
    actions != [] ==> !Overtakes(s, actions[0], k) && NeverOvertakes(Step(s, actions[0]), actions[1..], k)
  }

  /** One run is quiet at every moment after its response was stored if and only if, at the action that stores the
    * response, no other run of the key had found the store empty and was still to store its own. */
  lemma {:induction false} QuietRunExactly<R(!new)>(s: State<R>, actions: seq<Action<R>>, k: Key)
    requires QuietOnceStored(s, k)
    ensures AlwaysQuiet(s, actions, k) <==> NeverOvertakes(s, actions, k)
    decreases |actions|
  {
    hide Step, QuietOnceStored, Overtakes;
    if actions != [] {
      QuietStep(s, actions[0], k);
      if QuietOnceStored(Step(s, actions[0]), k) { QuietRunExactly(Step(s, actions[0]), actions[1..], k); }
    }
  }

  lemma {:induction false} PlaySplit<R(!new)>(s: State<R>, a: seq<Action<R>>, b: seq<Action<R>>)
    ensures Play(s, a + b) == Play(Play(s, a), b)
    decreases |a|
  {
    if a == [] {
      assert a + b == b;
    } else {
      assert (a + b)[1..] == a[1..] + b;
      PlaySplit(Step(s, a[0]), a[1..], b);
    }
  }

  lemma PlayFirst<R(!new)>(s: State<R>, a: Action<R>, rest: seq<Action<R>>)
    ensures Play(s, [a] + rest) == Play(Step(s, a), rest)
  {
    assert ([a] + rest)[1..] == rest;
  }

  lemma PlayFour<R(!new)>(s: State<R>, a: Action<R>, b: Action<R>, c: Action<R>, d: Action<R>)
    ensures Play(s, [a, b, c, d]) == Step(Step(Step(Step(s, a), b), c), d)
  {
    hide Step;
    assert [a, b, c, d] == [a] + ([b] + ([c] + ([d] + [])));
    PlayFirst(s, a, [b] + ([c] + ([d] + [])));
    PlayFirst(Step(s, a), b, [c] + ([d] + []));
    PlayFirst(Step(Step(s, a), b), c, [d] + []);
    PlayFirst(Step(Step(Step(s, a), b), c), d, []);
  }

  /** A failed operation leaves its key to be tried again: the next call starts a run of its own, which operates. */
  lemma FailureRetries<R(!new)>(s: State<R>, i: nat)
    requires Valid(s) && i < |s.runs| && Active(s.runs[i].phase) && s.runs[i].key !in s.store
    ensures var (p, k) := (s.runs[i].process, s.runs[i].key);
            var released := Step(Step(s, Fail(i)), Release(i));
            var retried := Step(Step(Step(released, Call(p, k)), Read(|s.runs|)), Begin(|s.runs|));
            |retried.runs| == |s.runs| + 1 && retried.runs[|s.runs|] == Run(p, k, Operating)
  {
    var p, k := s.runs[i].process, s.runs[i].key;
    var failed := Step(s, Fail(i));
    assert failed.locks[(p, k)] == i;
    var released := Step(failed, Release(i));
    assert (p, k) !in released.locks && released.store == s.store;
    var n := |s.runs|;
    var called := Step(released, Call(p, k));
    assert called.runs[n] == Run(p, k, Reading) && called.store == s.store;
    var read := Step(called, Read(n));
    assert read.runs[n] == Run(p, k, Unanswered) && |read.runs| == n + 1;
    var begun := Step(read, Begin(n));
    assert begun.runs[n] == Run(p, k, Operating) && |begun.runs| == n + 1;
  }
}
