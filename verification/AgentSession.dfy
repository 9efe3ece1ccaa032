/** The agent protocol session: request and message lifecycle with two bounded first-in-first-out memories. */
module AgentSession {
  import opened Wrappers

  type Id = string

  const MAX_IN_FLIGHT: nat := 1_024

  datatype RequestState = Active | Cancelling

  /** Validated envelopes, with the fields the lifecycle looks at. */
  datatype Envelope =
    | Hello(messageId: Id, capabilities: set<string>)
    | Request(messageId: Id)
    | Cancel(messageId: Id)
    | Event(messageId: Id, requestId: Id, event: string)
    | Failure(messageId: Id, failed: Option<Id>)

  /** A bounded memory: what it knows, and in which order it learned it. */
  datatype Memory = Memory(values: set<Id>, order: seq<Id>)

  datatype State = State(
    local: set<string>,
    remote: set<string>,
    helloAccepted: bool,
    closed: bool,
    requests: map<Id, RequestState>,
    retired: Memory,
    messages: Memory)

  datatype Command =
    | AcceptHello(messageId: Id, capabilities: set<string>)
    | Begin(requestId: Id, capability: string)
    | CancelRequest(requestId: Id)
    | Incoming(envelope: Envelope)
    | Close

  predicate IdentifierStart(c: char) { 'A' <= c <= 'Z' || 'a' <= c <= 'z' || '0' <= c <= '9' }

  predicate IsIdentifier(id: Id)
  {
    && 1 <= |id| <= 128 && IdentifierStart(id[0])
    && forall i :: 1 <= i < |id| ==> IdentifierStart(id[i]) || id[i] == '.' || id[i] == '_' || id[i] == ':'
                                     || id[i] == '-'
  }

  predicate IsCapability(c: string)
  {
    && 1 <= |c| <= 128 && 'a' <= c[0] <= 'z'
    && forall i :: 1 <= i < |c| ==> 'a' <= c[i] <= 'z' || '0' <= c[i] <= '9' || c[i] == '.' || c[i] == '-'
  }

  // ---------- The lifecycle as a function of the state ----------

  function Track(m: Memory, id: Id): Memory
  {
    var order := m.order + [id];
    if |order| > MAX_IN_FLIGHT then Memory(m.values + {id} - {order[0]}, order[1..]) else Memory(m.values + {id}, order)
  }

  function Retire(s: State, id: Id): State { s.(requests := s.requests - {id}, retired := Track(s.retired, id)) }

  function Noted(s: State, messageId: Id): State { s.(messages := Track(s.messages, messageId)) }

  predicate Supports(s: State, capability: string)
  {
    !s.closed && IsCapability(capability) && capability in s.local && capability in s.remote
  }

  /** The state after a command the session accepts; None when it throws. */
  function Step(s: State, c: Command): Option<State>
  {
    match c
    case Close => Some(s.(closed := true, requests := map[], remote := {}))
    case _ => if s.closed then None else OpenStep(s, c)
  }

  function OpenStep(s: State, c: Command): Option<State>
  {
    match c
    case AcceptHello(messageId, capabilities) =>
      Greeted(s, messageId, capabilities)
    case Begin(id, capability) =>
      if !IsIdentifier(id) || !Supports(s, capability) || |s.requests| >= MAX_IN_FLIGHT
         || id in s.requests || id in s.retired.values then None
      else Some(s.(requests := s.requests[id := Active]))
    case CancelRequest(id) =>
      if id in s.requests && s.requests[id] == Active then Some(s.(requests := s.requests[id := Cancelling])) else None
    case Incoming(envelope) => if envelope.messageId in s.messages.values then None else Receive(s, envelope)
    case Close => None
  }

  function Greeted(s: State, messageId: Id, capabilities: set<string>): Option<State>
  {
    if s.helloAccepted then None else Some(Noted(s.(remote := capabilities, helloAccepted := true), messageId))
  }

  predicate Terminal(event: string) { event == "completed" || event == "cancelled" }

  function Receive(s: State, envelope: Envelope): Option<State>
  {
    match envelope
    case Hello(messageId, capabilities) => Greeted(s, messageId, capabilities)
    case Request(_) => None
    case Cancel(_) => None
    case Failure(messageId, None) => Some(Noted(s, messageId))
    case Failure(messageId, Some(id)) => if id in s.requests then Some(Noted(Retire(s, id), messageId)) else None
    case Event(messageId, id, event) =>
      if id !in s.requests || (s.requests[id] == Cancelling && event == "completed") then None
      else Some(Noted(if Terminal(event) then Retire(s, id) else s, messageId))
  }

  // ---------- The session object ----------

  class AgentProtocolSession {
    const localCapabilities: set<string>
    var remoteCapabilities: set<string>
    var helloAccepted: bool
    var closed: bool
    var requests: map<Id, RequestState>
    var retiredRequestIds: set<Id>
    var retiredRequestOrder: seq<Id>
    var messageIds: set<Id>
    var messageIdOrder: seq<Id>

    function View(): State
      reads this
    {
      State(localCapabilities, remoteCapabilities, helloAccepted, closed, requests,
            Memory(retiredRequestIds, retiredRequestOrder), Memory(messageIds, messageIdOrder))
    }

    constructor (localCapabilities: set<string>)
      ensures View() == Fresh(localCapabilities)
    {
      this.localCapabilities := localCapabilities;
      remoteCapabilities, helloAccepted, closed, requests := {}, false, false, map[];
      retiredRequestIds, retiredRequestOrder, messageIds, messageIdOrder := {}, [], {}, [];
    }

    method TrackMessageId(id: Id)
      modifies this`messageIds, this`messageIdOrder
      ensures Memory(messageIds, messageIdOrder) == Track(old(Memory(messageIds, messageIdOrder)), id)
    {
      messageIds := messageIds + {id};
      messageIdOrder := messageIdOrder + [id];
      if |messageIdOrder| > MAX_IN_FLIGHT {
        messageIds := messageIds - {messageIdOrder[0]};
        messageIdOrder := messageIdOrder[1..];
      }
    }

    method RetireRequest(id: Id)
      modifies this`requests, this`retiredRequestIds, this`retiredRequestOrder
      ensures View() == Retire(old(View()), id)
    {
      requests := requests - {id};
      retiredRequestIds := retiredRequestIds + {id};
      retiredRequestOrder := retiredRequestOrder + [id];
      if |retiredRequestOrder| > MAX_IN_FLIGHT {
        retiredRequestIds := retiredRequestIds - {retiredRequestOrder[0]};
        retiredRequestOrder := retiredRequestOrder[1..];
      }
    }

    method AcceptHelloEnvelope(messageId: Id, capabilities: set<string>) returns (accepted: bool)
      modifies this
      ensures accepted == Step(old(View()), AcceptHello(messageId, capabilities)).Some?
      ensures View() == if accepted then Step(old(View()), AcceptHello(messageId, capabilities)).value else old(View())
    {
      if closed || helloAccepted { return false; }
      remoteCapabilities := capabilities;
      helloAccepted := true;
      TrackMessageId(messageId);
      return true;
    }

    method BeginRequest(id: Id, capability: string) returns (accepted: bool)
      modifies this
      ensures accepted == Step(old(View()), Begin(id, capability)).Some?
      ensures View() == if accepted then Step(old(View()), Begin(id, capability)).value else old(View())
    {
      if closed || !IsIdentifier(id) || !Supports(View(), capability) { return false; }
      if |requests| >= MAX_IN_FLIGHT { return false; }
      if id in requests || id in retiredRequestIds { return false; }
      requests := requests[id := Active];
      return true;
    }

    method Cancelled(id: Id) returns (accepted: bool)
      modifies this
      ensures accepted == Step(old(View()), CancelRequest(id)).Some?
      ensures View() == if accepted then Step(old(View()), CancelRequest(id)).value else old(View())
    {
      if closed || id !in requests || requests[id] != Active { return false; }
      requests := requests[id := Cancelling];
      return true;
    }

    method AcceptIncoming(envelope: Envelope) returns (accepted: bool)
      modifies this
      ensures accepted == Step(old(View()), Incoming(envelope)).Some?
      ensures View() == if accepted then Step(old(View()), Incoming(envelope)).value else old(View())
    {
      if closed || envelope.messageId in messageIds { return false; }
      match envelope {
        case Hello(messageId, capabilities) =>
          accepted := AcceptHelloEnvelope(messageId, capabilities);
        case Request(_) => return false;
        case Cancel(_) => return false;
        case Failure(messageId, failed) =>
          if failed == None {
            TrackMessageId(messageId);
            return true;
          }
          if failed.value !in requests { return false; }
          RetireRequest(failed.value);
          TrackMessageId(messageId);
          return true;
        case Event(messageId, id, event) =>
          if id !in requests { return false; }
          if requests[id] == Cancelling && event == "completed" { return false; }
          if Terminal(event) { RetireRequest(id); }
          TrackMessageId(messageId);
          return true;
      }
    }

    method CloseSession()
      modifies this
      ensures Some(View()) == Step(old(View()), Close)
    {
      closed := true;
      requests := map[];
      remoteCapabilities := {};
    }
  }

  // ---------- Runs ----------

  function Fresh(local: set<string>): State
  {
    State(local, {}, false, false, map[], Memory({}, []), Memory({}, []))
  }

  /** Everything ever retired and every message ever accepted, oldest first. */
  datatype Log = Log(retired: seq<Id>, messages: seq<Id>)

  /** What an accepted command adds to the log. */
  function Logged(log: Log, c: Command): Log
  {
    match c
    case AcceptHello(messageId, _) => log.(messages := log.messages + [messageId])
    case Incoming(Event(messageId, id, event)) =>
      Log(if Terminal(event) then log.retired + [id] else log.retired, log.messages + [messageId])
    case Incoming(Failure(messageId, Some(id))) => Log(log.retired + [id], log.messages + [messageId])
    case Incoming(envelope) => log.(messages := log.messages + [envelope.messageId])
    case _ => log
  }

  /** The state and log after a run; rejected commands change nothing. */
  function Run(s: State, log: Log, commands: seq<Command>): (State, Log)
    decreases |commands|
  {
    if commands == [] then (s, log)
    else
      var next := Step(s, commands[0]);
      if next.Some? then Run(next.value, Logged(log, commands[0]), commands[1..]) else Run(s, log, commands[1..])
  }

  function Last(ids: seq<Id>): seq<Id> { if |ids| <= MAX_IN_FLIGHT then ids else ids[|ids| - MAX_IN_FLIGHT..] }

  /** A memory that holds exactly the last 1024 things logged, none of them twice. */
  predicate Remembers(m: Memory, logged: seq<Id>)
  {
    m.order == Last(logged) && m.values == (set id <- m.order) && NoRepeats(m.order)
  }

  predicate Consistent(s: State, log: Log)
  {
    && Remembers(s.retired, log.retired) && Remembers(s.messages, log.messages)
    && s.requests.Keys !! s.retired.values && |s.requests| <= MAX_IN_FLIGHT
  }

  /** Dropping the front of a list without repeats drops it from the members. */
  lemma TrackedMembers(m: Memory, order: seq<Id>, id: Id)
    requires order == m.order + [id] && NoRepeats(order) && m.values == set x <- m.order
    ensures (set x <- order) == m.values + {id}
    ensures NoRepeats(order[1..]) && (set x <- order[1..]) == m.values + {id} - {order[0]}
  {
    assert forall x :: x in m.order <==> x in m.values;
    assert forall x :: x in order <==> x in m.order || x == id;
    assert order == [order[0]] + order[1..];
    assert forall x :: x in order[1..] <==> x in order && x != order[0];
  }

  lemma TrackKeeps(m: Memory, logged: seq<Id>, id: Id)
    requires Remembers(m, logged) && id !in m.values
    ensures Remembers(Track(m, id), logged + [id])
  {
    var order, members := m.order + [id], set x <- m.order;
    assert forall x :: x in m.order <==> x in members;
    assert NoRepeats(order);
    assert (if |order| > MAX_IN_FLIGHT then order[1..] else order) == Last(logged + [id]);
    hide Last;
    TrackedMembers(m, order, id);
  }

  /** Each accepted command keeps both memories exact, provided a direct hello is no repeat. */
  lemma StepKeeps(s: State, log: Log, c: Command)
    requires Consistent(s, log) && Step(s, c).Some?
    requires c.AcceptHello? ==> c.messageId !in s.messages.values
    ensures Consistent(Step(s, c).value, Logged(log, c))
  {
    match c {
      case AcceptHello(messageId, _) => TrackKeeps(s.messages, log.messages, messageId);
      case Incoming(envelope) =>
        TrackKeeps(s.messages, log.messages, envelope.messageId);
        var retiring := if envelope.Failure? then envelope.failed
                        else if envelope.Event? && Terminal(envelope.event) then Some(envelope.requestId) else None;
        if retiring.Some? { RetireKeeps(s, log, retiring.value); }
      case _ =>
    }
  }

  lemma RetireKeeps(s: State, log: Log, id: Id)
    requires Consistent(s, log) && id in s.requests
    ensures Consistent(Retire(s, id), log.(retired := log.retired + [id]))
  {
    TrackKeeps(s.retired, log.retired, id);
    assert |s.requests - {id}| <= |s.requests| by {
      assert (s.requests - {id}).Keys == s.requests.Keys - {id};
      assert |(s.requests - {id}).Keys| <= |s.requests.Keys|;
    }
  }

  /** The run receives hello only through `acceptIncoming`. */
  predicate NoDirectHello(commands: seq<Command>) { forall c <- commands :: !c.AcceptHello? }

  /** In every run, in-flight and remembered ids are apart and both memories are the last 1024 of the log. */
  lemma {:induction false} RunKeeps(s: State, log: Log, commands: seq<Command>)
    requires Consistent(s, log) && NoDirectHello(commands)
    ensures Consistent(Run(s, log, commands).0, Run(s, log, commands).1)
    decreases |commands|
  {
    if commands != [] {
      var next := Step(s, commands[0]);
      if next.Some? {
        StepKeeps(s, log, commands[0]);
        RunKeeps(next.value, Logged(log, commands[0]), commands[1..]);
      } else {
        RunKeeps(s, log, commands[1..]);
      }
    }
  }

  /** Whatever a run from a fresh session accepts next: an id that was retired comes back only after 1024 further
    * retirements, and a message id differs from the 1024 accepted before it. */
  lemma NothingRepeatsSoon(local: set<string>, commands: seq<Command>, c: Command)
    requires NoDirectHello(commands + [c])
    requires Step(Run(Fresh(local), Log([], []), commands).0, c).Some?
    ensures var log := Run(Fresh(local), Log([], []), commands).1;
            && (c.Begin? ==> forall i :: 0 <= i < |log.retired| && log.retired[i] == c.requestId
                               ==> |log.retired| - 1 - i >= MAX_IN_FLIGHT)
            && (c.Incoming? ==> forall i :: 0 <= i < |log.messages| && log.messages[i] == c.envelope.messageId ==>
                                  |log.messages| - 1 - i >= MAX_IN_FLIGHT)
  {
    assert forall x :: x in commands ==> x in commands + [c];
    RunKeeps(Fresh(local), Log([], []), commands);
    var (s, log) := Run(Fresh(local), Log([], []), commands);
    if c.Begin? { ForgottenIsOld(s.retired, log.retired, c.requestId); }
    if c.Incoming? { ForgottenIsOld(s.messages, log.messages, c.envelope.messageId); }
  }

  lemma ForgottenIsOld(m: Memory, logged: seq<Id>, id: Id)
    requires Remembers(m, logged) && id !in m.values
    ensures forall i :: 0 <= i < |logged| && logged[i] == id ==> |logged| - 1 - i >= MAX_IN_FLIGHT
  {
    forall i | 0 <= i < |logged| && |logged| - 1 - i < MAX_IN_FLIGHT ensures logged[i] in m.order {
      var k := if |logged| <= MAX_IN_FLIGHT then i else i - (|logged| - MAX_IN_FLIGHT);
      assert Last(logged)[k] == logged[i];
    }
  }

  predicate Live(s: State, id: Id) { id in s.requests && s.requests[id] == Active }

  predicate Begins(c: Command, id: Id) { c.Begin? && c.requestId == id }

  predicate Completes(c: Command, id: Id)
  {
    c.Incoming? && c.envelope.Event? && c.envelope.requestId == id && c.envelope.event == "completed"
  }

  /** Once a request is not active, only beginning it again can make it active, so nothing completes it. */
  lemma {:induction false} NeverCompleted(s: State, log: Log, commands: seq<Command>, id: Id)
    requires !Live(s, id) && forall c <- commands :: !Begins(c, id)
    ensures !Live(Run(s, log, commands).0, id)
    ensures forall c :: Completes(c, id) ==> Step(Run(s, log, commands).0, c) == None
    decreases |commands|
  {
    if commands != [] {
      var c := commands[0];
      assert !Begins(c, id);
      var next := Step(s, c);
      if next.Some? {
        assert !Live(next.value, id);
        NeverCompleted(next.value, Logged(log, c), commands[1..], id);
      } else {
        NeverCompleted(s, log, commands[1..], id);
      }
    }
  }

  lemma {:induction false} LogGrows(s: State, log: Log, commands: seq<Command>)
    ensures log.retired <= Run(s, log, commands).1.retired
    decreases |commands|
  {
    hide Step;
    if commands != [] {
      var next := Step(s, commands[0]);
      if next.Some? { LogGrows(next.value, Logged(log, commands[0]), commands[1..]); } else {
        LogGrows(s, log, commands[1..]);
      }
    }
  }

  /** The session is closed, the request is being cancelled, or it has been retired since the log was `base` long. */
  predicate Gone(s: State, log: Log, id: Id, base: nat)
  {
    || s.closed
    || (id in s.requests && s.requests[id] == Cancelling)
    || (id !in s.requests && exists i :: base <= i < |log.retired| && log.retired[i] == id)
  }

  /** What an accepted command does to a request that is not active. */
  lemma InactiveStep(s: State, log: Log, c: Command, id: Id)
    requires Step(s, c).Some? && !Live(s, id) && !s.closed
    ensures var next := Step(s, c).value;
            || next.closed
            || (if id in s.requests then id in next.requests && next.requests[id] == Cancelling
                else id !in next.requests)
            || (id in s.requests && id !in next.requests && Logged(log, c).retired == log.retired + [id])
            || (id !in s.requests && Begins(c, id))
  {}

  lemma RetiredStay(log: Log, c: Command)
    ensures log.retired <= Logged(log, c).retired
  {}

  /** It stays gone as long as it is remembered. */
  lemma GoneKept(s: State, log: Log, c: Command, id: Id, base: nat)
    requires Consistent(s, log) && Step(s, c).Some? && Gone(s, log, id, base)
    requires base <= |log.retired| <= base + MAX_IN_FLIGHT
    ensures Gone(Step(s, c).value, Logged(log, c), id, base)
  {
    var longer := Logged(log, c);
    if s.closed {
      ClosedStays(s, c);
    } else {
      InactiveStep(s, log, c, id);
      RetiredStay(log, c);
      if Begins(c, id) { GoneRefuses(s, log, id, base); }
      hide Step, Logged, Consistent, Begins;
      if id in s.requests {
        if longer.retired == log.retired + [id] { assert longer.retired[|log.retired|] == id; }
      } else {
        var i :| base <= i < |log.retired| && log.retired[i] == id;
        assert longer.retired[i] == id;
      }
    }
  }

  lemma ClosedStays(s: State, c: Command)
    requires s.closed && Step(s, c).Some?
    ensures Step(s, c).value.closed
  {}

  lemma {:induction false} StaysGone(s: State, log: Log, commands: seq<Command>, id: Id, base: nat)
    requires Consistent(s, log) && NoDirectHello(commands) && Gone(s, log, id, base) && base <= |log.retired|
    requires |Run(s, log, commands).1.retired| <= base + MAX_IN_FLIGHT
    ensures Gone(Run(s, log, commands).0, Run(s, log, commands).1, id, base)
    decreases |commands|
  {
    hide Step, Gone, Consistent;
    if commands != [] {
      var c := commands[0];
      var next := Step(s, c);
      LogGrows(s, log, commands);
      assert forall x <- commands[1..] :: x in commands;
      if next.Some? {
        StepKeeps(s, log, c);
        GoneKept(s, log, c, id, base);
        LoggedGrows(log, c);
        StaysGone(next.value, Logged(log, c), commands[1..], id, base);
      } else {
        StaysGone(s, log, commands[1..], id, base);
      }
    }
  }

  lemma LoggedGrows(log: Log, c: Command)
    ensures |log.retired| <= |Logged(log, c).retired|
  {}

  /** A cancelled request never yields 'completed', and cannot be begun again, until more than 1024 requests have been
    * retired since, whatever happens in between. */
  lemma CancelledNeverCompletes(s: State, log: Log, id: Id, commands: seq<Command>)
    requires Consistent(s, log) && NoDirectHello(commands) && Step(s, CancelRequest(id)).Some?
    requires |Run(Step(s, CancelRequest(id)).value, log, commands).1.retired| <= |log.retired| + MAX_IN_FLIGHT
    ensures var end := Run(Step(s, CancelRequest(id)).value, log, commands).0;
            && (forall c :: Completes(c, id) ==> Step(end, c) == None)
            && (forall c :: Begins(c, id) ==> Step(end, c) == None)
  {
    var start := Step(s, CancelRequest(id)).value;
    StepKeeps(s, log, CancelRequest(id));
    StaysGone(start, log, commands, id, |log.retired|);
    RunKeeps(start, log, commands);
    GoneRefuses(Run(start, log, commands).0, Run(start, log, commands).1, id, |log.retired|);
  }

  lemma GoneRefuses(s: State, log: Log, id: Id, base: nat)
    requires Consistent(s, log) && Gone(s, log, id, base) && |log.retired| <= base + MAX_IN_FLIGHT
    ensures forall c :: Completes(c, id) || Begins(c, id) ==> Step(s, c) == None
  {
    if !s.closed && id !in s.requests {
      var i :| base <= i < |log.retired| && log.retired[i] == id;
      if id !in s.retired.values { ForgottenIsOld(s.retired, log.retired, id); }
    }
  }

  /** `acceptHello` called directly skips the duplicate check: the message memory stays exact if and only if
    * the hello's id was not among the remembered ones. */
  lemma DirectHello(s: State, log: Log, c: Command)
    requires Consistent(s, log) && c.AcceptHello? && Step(s, c).Some?
    ensures Consistent(Step(s, c).value, Logged(log, c)) <==> c.messageId !in s.messages.values
  {
    if c.messageId !in s.messages.values {
      StepKeeps(s, log, c);
    } else {
      var order, after := s.messages.order, Step(s, c).value.messages;
      var i :| 0 <= i < |order| && order[i] == c.messageId;
      assert after.order[|after.order| - 1] == c.messageId;
      if |order| < MAX_IN_FLIGHT {
        assert after.order[i] == c.messageId;
      } else if i > 0 {
        assert after.order[i - 1] == c.messageId;
      } else {
        assert c.messageId !in after.values && c.messageId in after.order;
      }
    }
  }
}
