/** `mutate` of the browser-local provider: read the record, compare versions, write it back whole, remember. */
module BrowserProvider {
  import opened Wrappers
  import opened Utf16
  import opened OrderedMaps
  import opened BrowserLocal

  /** The storage and the memory of completed operations. */
  datatype State = State(storage: map<Id, Record>, cache: Cache)

  /** The serialized sizes of a receipt and of a record, and whether stored threads pass their validation when they
    * are read back. */
  datatype Sizes = Sizes(receipt: (Key, Receipt) -> nat, record: (Id, Record) -> nat, valid: (Id, seq<Thread>) -> bool)

  /** Whether the storage can be read and written at this call, and the clock. */
  datatype Env = Env(readable: bool, writable: bool, now: int)

  datatype Outcome = Outcome(result: Result, applied: bool)

  const MESSAGE_PREFIX: Text := [0x6D, 0x65, 0x73, 0x73, 0x61, 0x67, 0x65, 0x2D]
  const REPLY_PREFIX: Text := [0x72, 0x65, 0x70, 0x6C, 0x79, 0x2D]

  /** `readRecord`: the threads are valid, and every receipt names one of them. */
  predicate Readable(b: Id, r: Record, sizes: Sizes)
  {
    && sizes.valid(b, r.threads) && sizes.record(b, r) <= MAX_RECORD_BYTES && |r.receipts.order| <= MAX_RECEIPTS
    && forall k <- r.receipts.data ::
         match r.receipts.data[k]
         case Success(id, _) => Find(r.threads, id).Some?
         case Conflicted(current) => current.Some? ==> Find(r.threads, current.value).Some?
  }

  function ReadRecord(s: State, b: Id, env: Env, sizes: Sizes): Option<Record>
  {
    if !env.readable then None
    else if b !in s.storage then Some(Record([], Empty()))
    else if Readable(b, s.storage[b], sizes) then Some(s.storage[b])
    else None
  }

  function ConflictWith(current: Option<Thread>): Result
  {
    Conflict(if current.Some? then LocalVersion(current.value) else 0, current)
  }

  /** `receiptResult`. */
  function ReceiptResult(receipt: Receipt, threads: seq<Thread>): Result
  {
    match receipt
    case Conflicted(current) => ConflictWith(if current.Some? then Find(threads, current.value) else None)
    case Success(id, operation) =>
      var t := Find(threads, id);
      if operation == Resolve && (t.None? || t.value.status != Resolved) then ConflictWith(t)
      else if operation == Reopen && (t.None? || t.value.status != Open) then ConflictWith(t)
      else if t.None? then Failure
      else Ok(t.value)
  }

  function Members(keys: seq<Key>): set<Key> { set k <- keys }

  /** The last `MAX_RECEIPTS` entries. */
  function Bounded(receipts: OMap<Key, Receipt>): OMap<Key, Receipt>
  {
    var n := |receipts.order|;
    if n <= MAX_RECEIPTS then receipts else Keep(receipts, Members(receipts.order[n - MAX_RECEIPTS..]))
  }

  function Updated(t: Thread, op: Operation, now: int): Thread
  {
    var next := t.(version := Some(LocalVersion(t) + 1));
    match op.kind
    case Reply => next.(messages := t.messages + [Message(REPLY_PREFIX + op.operationId, op.body, now)])
    case Resolve => next.(status := Resolved, resolvedAt := Some(now))
    case _ => next.(status := Open, resolvedAt := None)
  }

  function UpdateAll(threads: seq<Thread>, op: Operation, now: int): seq<Thread>
  {
    if threads == [] then []
    else [if threads[0].id == op.threadId then Updated(threads[0], op, now) else threads[0]]
         + UpdateAll(threads[1..], op, now)
  }

  function Created(op: Operation, now: int): Thread
  {
    Thread(op.threadId, Some(1), op.pin, [Message(MESSAGE_PREFIX + op.operationId, op.body, now)], Open, None)
  }

  function Applied(threads: seq<Thread>, op: Operation, now: int): seq<Thread>
  {
    if op.kind == Create then threads + [Created(op, now)] else UpdateAll(threads, op, now)
  }

  /** The operation does not meet the thread it expects. */
  predicate Conflicts(op: Operation, current: Option<Thread>)
  {
    if op.kind == Create then current.Some? || op.expectedVersion != 0
    else current.None? || LocalVersion(current.value) != op.expectedVersion
  }

  /** Writing the record and then remembering the receipt; a failed write changes neither. */
  function Settle(s: State, op: Operation, threads: seq<Thread>, receipts: OMap<Key, Receipt>, receipt: Receipt,
                  result: Result,
                  applied: bool, env: Env, sizes: Sizes): (State, Outcome)
  {
    var record := Record(threads, Bounded(Set(receipts, KeyOf(op), receipt)));
    if !env.writable || sizes.record(op.binding, record) > MAX_RECORD_BYTES then (s, Outcome(Failure, false))
    else (State(s.storage[op.binding := record],
                Remember(s.cache, KeyOf(op), receipt, sizes.receipt(KeyOf(op), receipt))),
          Outcome(result, applied))
  }

  /** `mutate`. */
  function MutateStep(s: State, op: Operation, env: Env, sizes: Sizes): (State, Outcome)
  {
    var key, read := KeyOf(op), ReadRecord(s, op.binding, env, sizes);
    if read.None? then (s, Outcome(Failure, false))
    else
      var threads, receipts := read.value.threads, read.value.receipts;
      var current := Find(threads, op.threadId);
      if key in s.cache.completed.data then (s, Outcome(ReceiptResult(s.cache.completed.data[key], threads), false))
      else if key in receipts.data then
        var replay := ReceiptResult(receipts.data[key], threads);
        if replay.Failure? then (s, Outcome(Failure, false))
        else (s.(cache := Remember(s.cache, key, receipts.data[key], sizes.receipt(key, receipts.data[key]))),
              Outcome(replay, false))
      else if Conflicts(op, current) then
        Settle(s, op, threads, receipts, Conflicted(if current.Some? then Some(op.threadId) else None),
               ConflictWith(current), false, env, sizes)
      else
        var next := Applied(threads, op, env.now);
        var updated := Find(next, op.threadId);
        if updated.None? then (s, Outcome(Failure, false))
        else Settle(s, op, next, receipts, Success(op.threadId, op.kind), Ok(updated.value), true, env, sizes)
  }

  class BrowserLocalProvider {
    const sizes: Sizes
    var storage: map<Id, Record>
    const completed: CompletedCache

    function View(): State
      reads this, completed
    {
      State(storage, completed.View())
    }

    ghost predicate Valid()
      reads this, completed
    {
      completed.size == sizes.receipt && Tidy(completed.View(), sizes.receipt)
    }

    constructor (storage: map<Id, Record>, sizes: Sizes)
      ensures Valid() && View() == State(storage, FORGOTTEN) && this.sizes == sizes && fresh(completed)
    {
      this.sizes, this.storage := sizes, storage;
      this.completed := new CompletedCache(sizes.receipt);
    }

    /** `writeRecord`: true when the storage now holds the record. */
    method WriteRecord(b: Id, threads: seq<Thread>, receipts: OMap<Key, Receipt>, env: Env) returns (ok: bool)
      modifies this`storage
      ensures var record := Record(threads, Bounded(receipts));
              && ok == (env.writable && sizes.record(b, record) <= MAX_RECORD_BYTES)
              && storage == if ok then old(storage)[b := record] else old(storage)
    {
      var record := Record(threads, Bounded(receipts));
      ok := env.writable && sizes.record(b, record) <= MAX_RECORD_BYTES;
      if ok { storage := storage[b := record]; }
    }

    method Mutate(op: Operation, env: Env) returns (outcome: Outcome)
      requires Valid()
      modifies this, completed
      ensures Valid() && (View(), outcome) == MutateStep(old(View()), op, env, sizes)
    {
      hide Remember, Tidy, Bounded, Applied, Find, Conflicts, ReceiptResult, ReadRecord, Set;
      var key := KeyOf(op);
      var persisted := ReadRecord(View(), op.binding, env, sizes);
      if persisted.None? { return Outcome(Failure, false); }
      var threads, receipts := persisted.value.threads, persisted.value.receipts;
      if key in completed.completed.data {
        return Outcome(ReceiptResult(completed.completed.data[key], threads), false);
      }
      if key in receipts.data {
        var replay := ReceiptResult(receipts.data[key], threads);
        if !replay.Failure? { completed.RememberCompleted(key, receipts.data[key]); }
        return Outcome(replay, false);
      }
      var current := Find(threads, op.threadId);
      var next, receipt, result, applied := threads, Conflicted(if current.Some? then Some(op.threadId) else None),
        ConflictWith(current), false;
      if !Conflicts(op, current) {
        next := Applied(threads, op, env.now);
        var updated := Find(next, op.threadId);
        if updated.None? { return Outcome(Failure, false); }
        receipt, result, applied := Success(op.threadId, op.kind), Ok(updated.value), true;
      }
      var written := WriteRecord(op.binding, next, Set(receipts, key, receipt), env);
      if !written { return Outcome(Failure, false); }
      completed.RememberCompleted(key, receipt);
      outcome := Outcome(result, applied);
    }
  }

  // ---------- Versions ----------

  lemma {:induction false} FindUpdated(threads: seq<Thread>, op: Operation, now: int, id: Id)
    ensures Find(UpdateAll(threads, op, now), id) ==
            var t := Find(threads, id); if t.Some? && id == op.threadId then Some(Updated(t.value, op, now)) else t
  {
    if threads != [] {
      SameId(threads[0], op, now);
      hide Updated;
      FindUpdated(threads[1..], op, now, id);
    }
  }

  lemma SameId(t: Thread, op: Operation, now: int)
    ensures Updated(t, op, now).id == t.id
  {}

  lemma {:induction false} FindAppended(threads: seq<Thread>, t: Thread, id: Id)
    ensures Find(threads + [t], id) == if Find(threads, id).Some? then Find(threads, id)
                                       else if t.id == id then Some(t) else None
  {
    if threads == [] {
      assert [] + [t] == [t] && [t][1..] == [];
    } else {
      assert (threads + [t])[1..] == threads[1..] + [t];
      FindAppended(threads[1..], t, id);
    }
  }

  /** Applying an operation that does not conflict raises its thread to one more than it expected, and leaves others. */
  lemma AppliedThread(threads: seq<Thread>, op: Operation, now: int, id: Id)
    requires !Conflicts(op, Find(threads, op.threadId))
    ensures var before, after := Find(threads, id), Find(Applied(threads, op, now), id);
            if id == op.threadId then after.Some? && LocalVersion(after.value) == op.expectedVersion + 1
            else after == before
  {
    FindUpdated(threads, op, now, id);
    FindAppended(threads, Created(op, now), id);
  }

  lemma {:induction false} UpdateAllAt(threads: seq<Thread>, op: Operation, now: int)
    ensures var next := UpdateAll(threads, op, now);
            |next| == |threads| &&
            forall i :: 0 <= i < |next| ==> next[i] == if threads[i].id == op.threadId then Updated(threads[i], op, now)
                                                       else threads[i]
  {
    if threads != [] { UpdateAllAt(threads[1..], op, now); }
  }

  /** What an operation adds to the discussion: a creation appends one open thread with its one message, a reply one
    * message to its thread, a resolution or reopening no message at all; every other thread stays in its place. */
  lemma AppliedEffect(threads: seq<Thread>, op: Operation, now: int)
    ensures var next := Applied(threads, op, now);
            if op.kind == Create then
              |next| == |threads| + 1 && next[..|threads|] == threads
              && var t := next[|threads|];
              t.id == op.threadId && t.status == Open && |t.messages| == 1 && t.messages[0].body == op.body
            else
              |next| == |threads| && forall i :: 0 <= i < |next| ==>
                var before, after := threads[i], next[i];
                after.id == before.id && after.pin == before.pin && before.messages <= after.messages
                && (before.id != op.threadId ==> after == before)
                && (before.id == op.threadId && op.kind == Reply ==>
                      |after.messages| == |before.messages| + 1 && after.messages[|before.messages|].body == op.body
                      && after.status == before.status)
                && (before.id == op.threadId && op.kind != Reply ==>
                      after.messages == before.messages
                      && after.status == (if op.kind == Resolve then Resolved else Open)
                      && (after.resolvedAt.Some? <==> after.status == Resolved))
  {
    UpdateAllAt(threads, op, now);
  }

  function ThreadAt(s: State, b: Id, id: Id): Option<Thread>
  {
    if b in s.storage then Find(s.storage[b].threads, id) else None
  }

  /** What one call can do to a thread: nothing, or, when it applied its operation to that thread, one version more
    * than the operation expected. */
  lemma MutateThread(s: State, op: Operation, env: Env, sizes: Sizes, b: Id, id: Id)
    ensures var (t, outcome) := MutateStep(s, op, env, sizes);
            var before, after := ThreadAt(s, b, id), ThreadAt(t, b, id);
            if outcome.applied && (b, id) == (op.binding, op.threadId) then
              !Conflicts(op, before) && after.Some? && LocalVersion(after.value) == op.expectedVersion + 1
            else after == before
  {
    hide Remember, Bounded, ReceiptResult, Applied, Find, Conflicts, Readable, LocalVersion, Set;
    var read := ReadRecord(s, op.binding, env, sizes);
    if read.Some? && !Conflicts(op, Find(read.value.threads, op.threadId)) {
      AppliedThread(read.value.threads, op, env.now, id);
      AppliedThread(read.value.threads, op, env.now, op.threadId);
    }
  }

  // ---------- Runs ----------

  /** One storage, and any number of pages over it, each with a memory of its own. */
  datatype World = World(storage: map<Id, Record>, memories: map<nat, Cache>)

  function Page(w: World, page: nat): State
  {
    State(w.storage, if page in w.memories then w.memories[page] else FORGOTTEN)
  }

  /** A call on some page, which runs in one turn, or a fresh page: its memory is lost, the storage stays. */
  datatype Event = Call(page: nat, op: Operation, env: Env) | Restart(page: nat)

  function After(w: World, e: Event, sizes: Sizes): World
  {
    match e
    case Call(page, op, env) =>
      var s := MutateStep(Page(w, page), op, env, sizes).0;
      World(s.storage, w.memories[page := s.cache])
    case Restart(page) => w.(memories := w.memories - {page})
  }

  /** The event is a call that applies its operation. */
  predicate Applies(w: World, e: Event, sizes: Sizes)
  {
    e.Call? && MutateStep(Page(w, e.page), e.op, e.env, sizes).1.applied
  }

  /** The operations a run applies, in order. */
  function Log(w: World, events: seq<Event>, sizes: Sizes): seq<Operation>
    decreases |events|
  {
    if events == [] then []
    else (if Applies(w, events[0], sizes) then [events[0].op] else [])
         + Log(After(w, events[0], sizes), events[1..], sizes)
  }

  /** The thread is beyond version `v`. */
  predicate Beyond(storage: map<Id, Record>, b: Id, id: Id, v: int)
  {
    var t := ThreadAt(State(storage, FORGOTTEN), b, id);
    t.Some? && LocalVersion(t.value) > v
  }

  lemma BeyondStep(w: World, e: Event, sizes: Sizes, b: Id, id: Id, v: int)
    requires Beyond(w.storage, b, id, v)
    ensures Beyond(After(w, e, sizes).storage, b, id, v)
    ensures Applies(w, e, sizes) && e.op.binding == b && e.op.threadId == id ==> e.op.expectedVersion > v
  {
    if e.Call? { MutateThread(Page(w, e.page), e.op, e.env, sizes, b, id); }
    hide MutateStep, Find, LocalVersion;
  }

  lemma {:induction false} LogBeyond(w: World, events: seq<Event>, sizes: Sizes, b: Id, id: Id, v: int)
    requires Beyond(w.storage, b, id, v)
    ensures forall op <- Log(w, events, sizes) :: op.binding == b && op.threadId == id ==> op.expectedVersion > v
    decreases |events|
  {
    hide Applies, After, Beyond;
    if events != [] {
      BeyondStep(w, events[0], sizes, b, id, v);
      LogBeyond(After(w, events[0], sizes), events[1..], sizes, b, id, v);
    }
  }

  predicate SameThread(a: Operation, b: Operation) { a.binding == b.binding && a.threadId == b.threadId }

  /** The operations on one thread expect ever higher versions. */
  ghost predicate Rising(log: seq<Operation>)
  {
    forall i, j :: 0 <= i < j < |log| && SameThread(log[i], log[j]) ==> log[i].expectedVersion < log[j].expectedVersion
  }

  lemma RisingFrom(op: Operation, rest: seq<Operation>)
    requires Rising(rest) && forall x <- rest :: SameThread(op, x) ==> x.expectedVersion > op.expectedVersion
    ensures Rising([op] + rest)
  {
  }

  lemma LogFirst(w: World, events: seq<Event>, sizes: Sizes)
    requires events != []
    ensures var rest := Log(After(w, events[0], sizes), events[1..], sizes);
            Log(w, events, sizes) == if Applies(w, events[0], sizes) then [events[0].op] + rest else rest
  {
    hide Applies, After;
    var rest := Log(After(w, events[0], sizes), events[1..], sizes);
    assert [] + rest == rest;
  }

  /** In every run, with any number of pages, failed writes and forgotten memories included, the operations applied to
    * a thread expect ever higher versions: so none is applied twice. */
  lemma {:induction false} AppliedInVersionOrder(w: World, events: seq<Event>, sizes: Sizes)
    ensures Rising(Log(w, events, sizes))
    decreases |events|
  {
    hide Applies, Beyond, Log, Rising, After;
    if events == [] {
      NothingLogged(w, sizes);
    } else {
      var e, next := events[0], After(w, events[0], sizes);
      AppliedInVersionOrder(next, events[1..], sizes);
      LogFirst(w, events, sizes);
      if Applies(w, e, sizes) {
        AppliedBeyond(w, e, sizes);
        LogBeyond(next, events[1..], sizes, e.op.binding, e.op.threadId, e.op.expectedVersion);
        RisingFrom(e.op, Log(next, events[1..], sizes));
      }
    }
  }

  lemma NothingLogged(w: World, sizes: Sizes)
    ensures Rising(Log(w, [], sizes))
  {
  }

  lemma AppliedBeyond(w: World, e: Event, sizes: Sizes)
    requires Applies(w, e, sizes)
    ensures e.Call? && Beyond(After(w, e, sizes).storage, e.op.binding, e.op.threadId, e.op.expectedVersion)
  {
    MutateThread(Page(w, e.page), e.op, e.env, sizes, e.op.binding, e.op.threadId);
    hide MutateStep, Find;
  }

  /** No operation is applied twice, on one page or on two, even after every memory has forgotten it. */
  lemma NeverTwice(w: World, events: seq<Event>, sizes: Sizes)
    ensures var log := Log(w, events, sizes); forall i, j :: 0 <= i < j < |log| ==> log[i] != log[j]
  {
    AppliedInVersionOrder(w, events, sizes);
    hide Log;
  }

  /** A call that fails, because of the storage or of its record, changes nothing at all. */
  lemma FailureChangesNothing(s: State, op: Operation, env: Env, sizes: Sizes)
    requires MutateStep(s, op, env, sizes).1.result.Failure?
    ensures MutateStep(s, op, env, sizes).0 == s && !MutateStep(s, op, env, sizes).1.applied
  {
    hide Remember, Bounded, Applied, Find, ReadRecord;
  }

  /** What an applied operation leaves behind. */
  lemma AppliedState(s: State, op: Operation, env: Env, sizes: Sizes)
    requires MutateStep(s, op, env, sizes).1.applied
    ensures var (t, outcome) := MutateStep(s, op, env, sizes);
            var key, read, receipt := KeyOf(op), ReadRecord(s, op.binding, env, sizes), Success(op.threadId, op.kind);
            && read.Some? && key !in read.value.receipts.data && !Conflicts(op, Find(read.value.threads, op.threadId))
            && (op.binding in s.storage ==> read.value == s.storage[op.binding])
            && (op.binding !in s.storage ==> read.value == Record([], Empty()))
            && op.binding in t.storage
            && t.storage[op.binding]
               == Record(Applied(read.value.threads, op, env.now), Bounded(Set(read.value.receipts, key, receipt)))
            && t.cache == Remember(s.cache, key, receipt, sizes.receipt(key, receipt)) && key !in s.cache.completed.data
            && Find(Applied(read.value.threads, op, env.now), op.threadId).Some?
            && outcome.result == Ok(Find(Applied(read.value.threads, op, env.now), op.threadId).value)
  {
    hide Remember, Bounded, Applied, Find, Conflicts, ReceiptResult, Readable, Set;
  }

  /** A call whose receipt is remembered or stored is answered from it. */
  lemma Replayed(s: State, op: Operation, env: Env, sizes: Sizes, receipt: Receipt)
    requires ReadRecord(s, op.binding, env, sizes).Some? && op.binding in s.storage
    requires var record := s.storage[op.binding];
             KeyOf(op) in record.receipts.data && record.receipts.data[KeyOf(op)] == receipt
    requires KeyOf(op) in s.cache.completed.data ==> s.cache.completed.data[KeyOf(op)] == receipt
    ensures MutateStep(s, op, env, sizes).0.storage == s.storage
    ensures MutateStep(s, op, env, sizes).1 == Outcome(ReceiptResult(receipt, s.storage[op.binding].threads), false)
  {
    hide Remember, Bounded, Applied, Find, Conflicts, ReceiptResult, Readable, Set;
  }

  /** Right after an operation was applied, its retry is answered from a receipt: same thread, nothing changed. */
  lemma RetryAnswered(s: State, op: Operation, env: Env, again: Env, sizes: Sizes)
    requires Tidy(s.cache, sizes.receipt) && MutateStep(s, op, env, sizes).1.applied
             && (forall b <- s.storage :: Good(s.storage[b].receipts))
    requires ReadRecord(MutateStep(s, op, env, sizes).0, op.binding, again, sizes).Some?
    ensures var (t, outcome) := MutateStep(s, op, env, sizes);
            MutateStep(t, op, again, sizes).0.storage == t.storage
            && MutateStep(t, op, again, sizes).1 == Outcome(outcome.result, false)
  {
    hide MutateStep, Remember, Bounded, Applied, Find, Conflicts, Tidy, ReceiptResult, ReadRecord, Good, Set;
    AppliedState(s, op, env, sizes);
    var key, read, receipt := KeyOf(op), ReadRecord(s, op.binding, env, sizes).value, Success(op.threadId, op.kind);
    EmptyGood();
    BoundedLatest(read.receipts, key, receipt);
    TidyGood(s.cache, sizes.receipt);
    RememberedOrNot(s.cache, key, receipt, sizes.receipt(key, receipt));
    AnswersAgain(read.threads, op, env.now);
    Replayed(MutateStep(s, op, env, sizes).0, op, again, sizes, receipt);
  }

  lemma EmptyGood()
    ensures Good(Empty<Key, Receipt>())
  {
  }

  lemma AnswersAgain(threads: seq<Thread>, op: Operation, now: int)
    requires !Conflicts(op, Find(threads, op.threadId))
    ensures var next := Applied(threads, op, now);
            Find(next, op.threadId).Some?
            && ReceiptResult(Success(op.threadId, op.kind), next) == Ok(Find(next, op.threadId).value)
  {
    FindUpdated(threads, op, now, op.threadId);
    FindAppended(threads, Created(op, now), op.threadId);
  }

  lemma BoundedOrder(m: OMap<Key, Receipt>)
    requires Good(m) && |m.order| > MAX_RECEIPTS
    ensures Bounded(m).order == m.order[|m.order| - MAX_RECEIPTS..]
  {
    TailSelected(m.order, MAX_RECEIPTS);
  }

  /** The latest receipt is always among those kept. */
  lemma BoundedLatest(receipts: OMap<Key, Receipt>, key: Key, receipt: Receipt)
    requires Good(receipts) && key !in receipts.data
    ensures var r := Bounded(Set(receipts, key, receipt));
            key in r.data && r.data[key] == receipt && |r.order| <= MAX_RECEIPTS
  {
    hide Good, Select;
    var all := Set(receipts, key, receipt);
    SetGood(receipts, key, receipt);
    if |all.order| > MAX_RECEIPTS {
      var tail := all.order[|all.order| - MAX_RECEIPTS..];
      assert tail[MAX_RECEIPTS - 1] == key;
      BoundedOrder(all);
    }
  }

  lemma {:induction false} TailSelected(keys: seq<Key>, n: nat)
    requires NoRepeats(keys) && n <= |keys|
    ensures Select(keys, Members(keys[|keys| - n..])) == keys[|keys| - n..]
  {
    var front, tail := keys[..|keys| - n], keys[|keys| - n..];
    var kept := Members(tail);
    assert keys == front + tail;
    SelectConcat(front, tail, kept);
    forall k <- front ensures k !in kept {
      var i :| 0 <= i < |front| && front[i] == k;
      assert forall j :: 0 <= j < |tail| ==> tail[j] == keys[|front| + j] != keys[i];
    }
    SelectNone(front, kept);
    SelectAll(tail, kept);
  }

  lemma RememberedOrNot(c: Cache, key: Key, receipt: Receipt, size: nat)
    requires Good(c.completed)
    ensures var r := Remember(c, key, receipt, size);
            (size > MAX_COMPLETED_BYTES ==> r == c) &&
            (size <= MAX_COMPLETED_BYTES ==> key in r.completed.data && r.completed.data[key] == receipt)
  {
    if size <= MAX_COMPLETED_BYTES { RememberLatest(c, key, receipt, size); }
  }
}
