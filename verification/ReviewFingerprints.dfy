/** The receipt fingerprint of a review mutation: the canonical text of the request without its id and its times, for
  * requests that pass the budgets of the whole request. */
module ReviewFingerprints {
  import opened Wrappers
  import opened Utf16
  import opened JsonNumbers
  import opened SortedKeys
  import opened Documents
  import opened OwnedData
  import opened CanonicalText

  const MAX_RECEIPT_BYTES: nat := 256 * 1024
  const MAX_RECEIPT_KEY_BYTES: nat := 256
  const MAX_RECEIPT_STRING_BYTES: nat := 64 * 1024
  const MAX_RECEIPT_ITEMS: nat := 1_000
  const MAX_RECEIPT_DEPTH: nat := 32
  const MAX_OPERATION_ID: nat := 256
  const MAX_IDENTIFIER: nat := 128
  const MAX_TIMESTAMP: nat := 64
  const MAX_SAFE_INTEGER: int := 0x1F_FFFF_FFFF_FFFF

  type Fields = map<Text, Val>

  /** A request: a thread's messages stand apart from its other fields. */
  datatype Mutation =
    | Create(operationId: Text, expectedVersion: int, thread: Fields, messages: seq<Fields>)
    | Reply(operationId: Text, expectedVersion: int, threadId: Text, message: Fields)
    | Resolve(operationId: Text, expectedVersion: int, threadId: Text, actorId: Text, occurredAt: Text)
    | Reopen(operationId: Text, expectedVersion: int, threadId: Text, actorId: Text, occurredAt: Text)

  const OPERATION_ID: Text := [0x6F, 0x70, 0x65, 0x72, 0x61, 0x74, 0x69, 0x6F, 0x6E, 0x49, 0x64]
  const OCCURRED_AT: Text := [0x6F, 0x63, 0x63, 0x75, 0x72, 0x72, 0x65, 0x64, 0x41, 0x74]
  const KIND: Text := [0x6B, 0x69, 0x6E, 0x64]
  const EXPECTED_VERSION: Text := [0x65, 0x78, 0x70, 0x65, 0x63, 0x74, 0x65, 0x64, 0x56, 0x65, 0x72, 0x73, 0x69, 0x6F,
                                   0x6E]
  const THREAD: Text := [0x74, 0x68, 0x72, 0x65, 0x61, 0x64]
  const THREAD_ID: Text := [0x74, 0x68, 0x72, 0x65, 0x61, 0x64, 0x49, 0x64]
  const MESSAGE: Text := [0x6D, 0x65, 0x73, 0x73, 0x61, 0x67, 0x65]
  const MESSAGES: Text := [0x6D, 0x65, 0x73, 0x73, 0x61, 0x67, 0x65, 0x73]
  const ACTOR_ID: Text := [0x61, 0x63, 0x74, 0x6F, 0x72, 0x49, 0x64]
  const CREATED_AT: Text := [0x63, 0x72, 0x65, 0x61, 0x74, 0x65, 0x64, 0x41, 0x74]
  const CREATE: Text := [0x63, 0x72, 0x65, 0x61, 0x74, 0x65]
  const REPLY: Text := [0x72, 0x65, 0x70, 0x6C, 0x79]
  const RESOLVE: Text := [0x72, 0x65, 0x73, 0x6F, 0x6C, 0x76, 0x65]
  const REOPEN: Text := [0x72, 0x65, 0x6F, 0x70, 0x65, 0x6E]

  /** `{ ...fields, createdAt: '' }`. */
  function Untimed(fields: Fields): Fields { fields[CREATED_AT := Str([])] }

  function UntimedMessages(messages: seq<Fields>): (r: seq<Val>)
    ensures |r| == |messages| && forall i :: 0 <= i < |r| ==> r[i] == Record(Untimed(messages[i]))
  {
    if messages == [] then [] else [Record(Untimed(messages[0]))] + UntimedMessages(messages[1..])
  }

  /** What is encoded for a request. */
  function Payload(m: Mutation): Val
  {
    match m
    case Create(_, v, thread, messages) =>
      Record(map[KIND := Str(CREATE), EXPECTED_VERSION := Num(v),
                 THREAD := Record(Untimed(thread)[MESSAGES := List(UntimedMessages(messages))])])
    case Reply(_, v, id, message) =>
      Record(map[KIND := Str(REPLY), EXPECTED_VERSION := Num(v), THREAD_ID := Str(id),
                 MESSAGE := Record(Untimed(message))])
    case Resolve(_, v, id, actor, _) =>
      Record(map[KIND := Str(RESOLVE), EXPECTED_VERSION := Num(v), THREAD_ID := Str(id), ACTOR_ID := Str(actor)])
    case Reopen(_, v, id, actor, _) =>
      Record(map[KIND := Str(REOPEN), EXPECTED_VERSION := Num(v), THREAD_ID := Str(id), ACTOR_ID := Str(actor)])
  }

  function ErasedMessages(messages: seq<Fields>): (r: seq<Fields>)
    ensures |r| == |messages| && forall i :: 0 <= i < |r| ==> r[i] == Untimed(messages[i])
  {
    if messages == [] then [] else [Untimed(messages[0])] + ErasedMessages(messages[1..])
  }

  /** A request without its operation id and without any time of its own. */
  function Erased(m: Mutation): Mutation
  {
    match m
    case Create(_, v, thread, messages) => Create([], v, Untimed(thread) - {MESSAGES}, ErasedMessages(messages))
    case Reply(_, v, id, message) => Reply([], v, id, Untimed(message))
    case Resolve(_, v, id, actor, _) => Resolve([], v, id, actor, [])
    case Reopen(_, v, id, actor, _) => Reopen([], v, id, actor, [])
  }

  // ---------- The whole request ----------

  function Records(messages: seq<Fields>): (r: seq<Val>)
    ensures |r| == |messages| && forall i :: 0 <= i < |r| ==> r[i] == Record(messages[i])
  {
    if messages == [] then [] else [Record(messages[0])] + Records(messages[1..])
  }

  function HeadFields(m: Mutation): Fields
  {
    map[KIND := Str(KindOf(m)), OPERATION_ID := Str(m.operationId), EXPECTED_VERSION := Num(m.expectedVersion)]
  }

  function BodyFields(m: Mutation): Fields
  {
    match m
    case Create(_, _, thread, messages) => map[THREAD := Record(thread[MESSAGES := List(Records(messages))])]
    case Reply(_, _, id, message) => map[THREAD_ID := Str(id), MESSAGE := Record(message)]
    case Resolve(_, _, id, actor, at) => map[THREAD_ID := Str(id), ACTOR_ID := Str(actor), OCCURRED_AT := Str(at)]
    case Reopen(_, _, id, actor, at) => map[THREAD_ID := Str(id), ACTOR_ID := Str(actor), OCCURRED_AT := Str(at)]
  }

  function RequestFields(m: Mutation): Fields { HeadFields(m) + BodyFields(m) }

  /** The request as it comes in. */
  function RequestValue(m: Mutation): Val { Record(RequestFields(m)) }

  /** Depth, key, string and item budgets of `preflightReviewReceiptValue`; keys are counted with `length`, which is
    * otherwise skipped. */
  predicate PreflightShape(u: Val, depth: nat)
    decreases u
  {
    && depth <= MAX_RECEIPT_DEPTH
    && match u
       case Str(s) => Utf8Length(s) <= MAX_RECEIPT_STRING_BYTES
       case List(items) => |items| + 1 <= MAX_RECEIPT_ITEMS && forall item <- items :: PreflightShape(item, depth + 1)
       case Record(fields) =>
         && |fields| <= MAX_RECEIPT_ITEMS
         && forall k <- fields :: k == LENGTH
              || (Utf8Length(k) <= MAX_RECEIPT_KEY_BYTES && PreflightShape(fields[k], depth + 1))
       case _ => true
  }

  /** The bytes the preflight charges for a value without keys `length`: the text of scalars, keys and indices. */
  ghost function PreflightBytes(u: Val, n: NumberCodec): nat
    decreases u, 1, 0
  {
    match u
    case Null => 4
    case Bool(b) => if b then 4 else 5
    case Num(x) => Utf8Length(n.show(x))
    case Str(s) => Utf8Length(s)
    case List(items) => PreflightItems(u, 0, n)
    case Record(fields) => Sum(Sorted(fields.Keys), PreflightFields(u, n))
  }

  ghost function PreflightItems(u: Val, i: nat, n: NumberCodec): nat
    requires u.List? && i <= |u.items|
    decreases u, 0, |u.items| - i
  {
    if i == |u.items| then 0 else DecimalLength(i) + PreflightBytes(u.items[i], n) + PreflightItems(u, i + 1, n)
  }

  ghost function PreflightFields(u: Val, n: NumberCodec): map<Text, nat>
    requires u.Record?
    decreases u, 0
  {
    map k | k in u.fields :: Utf8Length(k) + PreflightBytes(u.fields[k], n)
  }

  /** `preflightReviewReceiptValue`. */
  ghost predicate Preflight(u: Val, n: NumberCodec)
  {
    PreflightShape(u, 0) && Nodes(Strip(u)) <= MAX_NODES && PreflightBytes(Strip(u), n) <= MAX_RECEIPT_BYTES
  }

  function StripFields(fields: Fields): Fields { Strip(Record(fields)).fields }

  function StripMessages(messages: seq<Fields>): (r: seq<Fields>)
    ensures |r| == |messages| && forall i :: 0 <= i < |r| ==> r[i] == StripFields(messages[i])
  {
    if messages == [] then [] else [StripFields(messages[0])] + StripMessages(messages[1..])
  }

  /** The request after the boundary copy. */
  function Copied(m: Mutation): Mutation
  {
    match m
    case Create(op, v, thread, messages) => Create(op, v, StripFields(thread), StripMessages(messages))
    case Reply(op, v, id, message) => Reply(op, v, id, StripFields(message))
    case _ => m
  }

  predicate Sized(s: Text, maximum: nat) { 1 <= |s| <= maximum }

  /** What `normalizeReviewThreadMutation` checks on the fields of the copy. */
  predicate WellFormed(m: Mutation)
  {
    && Sized(m.operationId, MAX_OPERATION_ID) && 0 <= m.expectedVersion <= MAX_SAFE_INTEGER
    && match m
       case Create(_, v, _, _) => v == 0
       case Reply(_, _, id, _) => Sized(id, MAX_IDENTIFIER)
       case Resolve(_, _, id, actor, at) =>
         Sized(id, MAX_IDENTIFIER) && Sized(actor, MAX_IDENTIFIER) && Sized(at, MAX_TIMESTAMP)
       case Reopen(_, _, id, actor, at) =>
         Sized(id, MAX_IDENTIFIER) && Sized(actor, MAX_IDENTIFIER) && Sized(at, MAX_TIMESTAMP)
  }

  /** `normalizeReviewThreadMutation` returns the copy. */
  ghost predicate Accepts(m: Mutation, n: NumberCodec)
  {
    Preflight(RequestValue(m), n) && OwnedTree(RequestValue(m)).Some? && WellFormed(m)
  }

  // ---------- The fingerprint ----------

  /** Depth, key, string and item budgets of the encoder. */
  predicate Encodable(t: Val, depth: nat)
    decreases t
  {
    && depth <= MAX_RECEIPT_DEPTH
    && match t
       case Str(s) => Utf8Length(s) <= MAX_RECEIPT_STRING_BYTES
       case List(items) => |items| <= MAX_RECEIPT_ITEMS && forall item <- items :: Encodable(item, depth + 1)
       case Record(fields) =>
         && |fields| <= MAX_RECEIPT_ITEMS
         && forall k <- fields :: Utf8Length(k) <= MAX_RECEIPT_KEY_BYTES && Encodable(fields[k], depth + 1)
       case _ => true
  }

  /** The encoder's budgets on a payload. */
  ghost predicate Encodes(payload: Val, n: NumberCodec, ord: Order)
    requires Lists(ord)
  {
    Encodable(payload, 0) && Nodes(payload) <= MAX_NODES && CanonBytes(payload, n, ord) <= MAX_RECEIPT_BYTES
  }

  /** `canonicalReviewThreadMutationFingerprint`, under any listing of the keys. */
  ghost function Fingerprint(m: Mutation, n: NumberCodec, ord: Order): Option<Text>
    requires Lists(ord)
  {
    var payload := Payload(Copied(m));
    if Accepts(m, n) && Encodes(payload, n, ord) then Some(Canon(payload, n, ord)) else None
  }

  // ---------- The payload keeps exactly what erasing keeps ----------

  lemma MessagesAgree(a: seq<Fields>, b: seq<Fields>)
    ensures UntimedMessages(a) == UntimedMessages(b) <==> ErasedMessages(a) == ErasedMessages(b)
  {
    var p, q, x, y := UntimedMessages(a), UntimedMessages(b), ErasedMessages(a), ErasedMessages(b);
    if p == q {
      forall i | 0 <= i < |x| ensures x[i] == y[i] { assert p[i] == q[i]; }
      assert x == y;
    }
    if x == y {
      forall i | 0 <= i < |p| ensures p[i] == q[i] { assert x[i] == y[i]; }
      assert p == q;
    }
  }

  lemma ThreadsAgree(a: Fields, b: Fields, p: Val, q: Val)
    ensures Untimed(a)[MESSAGES := p] == Untimed(b)[MESSAGES := q]
            <==> Untimed(a) - {MESSAGES} == Untimed(b) - {MESSAGES} && p == q
  {
    var x, y := Untimed(a), Untimed(b);
    if x[MESSAGES := p] == y[MESSAGES := q] {
      assert p == x[MESSAGES := p][MESSAGES] == q;
      assert x - {MESSAGES} == x[MESSAGES := p] - {MESSAGES};
      assert y - {MESSAGES} == y[MESSAGES := q] - {MESSAGES};
    }
    if x - {MESSAGES} == y - {MESSAGES} && p == q {
      assert x[MESSAGES := p] == (x - {MESSAGES})[MESSAGES := p];
      assert y[MESSAGES := q] == (y - {MESSAGES})[MESSAGES := q];
    }
  }

  function KindOf(m: Mutation): Text
  {
    match m case Create(_, _, _, _) => CREATE case Reply(_, _, _, _) => REPLY case Resolve(_, _, _, _, _) => RESOLVE
            case Reopen(_, _, _, _, _) => REOPEN
  }

  lemma PayloadFields(m: Mutation)
    ensures var f := Payload(m).fields;
            && Payload(m).Record? && KIND in f && f[KIND] == Str(KindOf(m)) && EXPECTED_VERSION in f
            && f[EXPECTED_VERSION] == Num(m.expectedVersion)
            && (m.Create? ==> THREAD in f
                              && f[THREAD] == Record(Untimed(m.thread)[MESSAGES := List(UntimedMessages(m.messages))]))
            && (!m.Create? ==> THREAD_ID in f && f[THREAD_ID] == Str(m.threadId))
            && (m.Reply? ==> MESSAGE in f && f[MESSAGE] == Record(Untimed(m.message)))
            && (m.Resolve? || m.Reopen? ==> ACTOR_ID in f && f[ACTOR_ID] == Str(m.actorId))
  {
    assert |KIND| == 4 && |EXPECTED_VERSION| == 15 && |THREAD| == 6 && |THREAD_ID| == 8 && |MESSAGE| == 7
      && |ACTOR_ID| == 7;
    assert MESSAGE[0] != ACTOR_ID[0];
  }

  lemma KindsDiffer(a: Mutation, b: Mutation)
    requires KindOf(a) == KindOf(b)
    ensures a.Create? == b.Create? && a.Reply? == b.Reply? && a.Resolve? == b.Resolve? && a.Reopen? == b.Reopen?
  {
    assert |CREATE| == 6 && |REPLY| == 5 && |RESOLVE| == 7 && |REOPEN| == 6;
    assert CREATE[0] != REOPEN[0];
  }

  lemma PayloadKeeps(a: Mutation, b: Mutation)
    ensures Payload(a) == Payload(b) <==> Erased(a) == Erased(b)
  {
    hide Untimed;
    PayloadFields(a);
    PayloadFields(b);
    if Payload(a) == Payload(b) || Erased(a) == Erased(b) {
      if KindOf(a) == KindOf(b) { KindsDiffer(a, b); }
      match a
      case Create(_, _, thread, messages) =>
        MessagesAgree(messages, b.messages);
        ThreadsAgree(thread, b.thread, List(UntimedMessages(messages)), List(UntimedMessages(b.messages)));
      case _ =>
    }
  }

  // ---------- The copy of a request ----------

  lemma StripRecords(messages: seq<Fields>)
    ensures Strip(List(Records(messages))) == List(Records(StripMessages(messages)))
  {
    var a, b := Strip(List(Records(messages))).items, Records(StripMessages(messages));
    forall i | 0 <= i < |a| ensures a[i] == b[i] {
      assert Records(messages)[i] == Record(messages[i]);
    }
    assert a == b;
  }

  lemma StripPut(fields: Fields, k: Text, v: Val)
    requires k != LENGTH
    ensures StripFields(fields[k := v]) == StripFields(fields)[k := Strip(v)]
  {}

  lemma StripThread(thread: Fields, messages: seq<Fields>)
    ensures Strip(Record(thread[MESSAGES := List(Records(messages))])) ==
            Record(StripFields(thread)[MESSAGES := List(Records(StripMessages(messages)))])
  {
    hide Strip;
    assert |MESSAGES| == 8 && |LENGTH| == 6;
    StripPut(thread, MESSAGES, List(Records(messages)));
    StripRecords(messages);
    StripRecord(thread[MESSAGES := List(Records(messages))]);
  }

  lemma StripRecord(fields: Fields)
    ensures Strip(Record(fields)) == Record(StripFields(fields))
  {}

  lemma RequestKeys()
    ensures KIND != LENGTH && OPERATION_ID != LENGTH && EXPECTED_VERSION != LENGTH && THREAD != LENGTH
            && THREAD_ID != LENGTH
    ensures MESSAGE != LENGTH && ACTOR_ID != LENGTH && OCCURRED_AT != LENGTH && CREATED_AT != LENGTH
            && MESSAGES != LENGTH
  {
    assert |KIND| == 4 && |OPERATION_ID| == 11 && |EXPECTED_VERSION| == 15 && |THREAD_ID| == 8 && |MESSAGE| == 7
      && |ACTOR_ID| == 7;
    assert |OCCURRED_AT| == 10 && |CREATED_AT| == 9 && |MESSAGES| == 8 && |THREAD| == |LENGTH| == 6
      && THREAD[0] != LENGTH[0];
  }

  lemma StripSum(a: Fields, b: Fields)
    ensures StripFields(a + b) == StripFields(a) + StripFields(b)
  {}

  lemma StripHead(m: Mutation)
    ensures StripFields(HeadFields(m)) == HeadFields(Copied(m))
  {
    RequestKeys();
    hide StripFields, StripMessages;
    assert KindOf(Copied(m)) == KindOf(m);
    ScalarFields(HeadFields(m));
  }

  lemma ScalarFields(fields: Fields)
    requires LENGTH !in fields && forall k <- fields :: fields[k].Str? || fields[k].Num?
    ensures StripFields(fields) == fields
  {
    forall k <- fields ensures Strip(fields[k]) == fields[k] {}
    assert StripFields(fields).Keys == fields.Keys;
    assert StripFields(fields) == fields;
  }

  lemma StripBody(m: Mutation)
    ensures StripFields(BodyFields(m)) == BodyFields(Copied(m))
  {
    RequestKeys();
    if m.Create? {
      StripThread(m.thread, m.messages);
      OneField(THREAD, Record(m.thread[MESSAGES := List(Records(m.messages))]));
    } else if m.Reply? {
      StripReply(m.threadId, m.message);
    } else {
      hide StripFields;
      ScalarFields(BodyFields(m));
    }
  }

  lemma OneField(k: Text, v: Val)
    requires k != LENGTH
    ensures StripFields(map[k := v]) == map[k := Strip(v)]
  {}

  lemma StripReply(id: Text, message: Fields)
    ensures StripFields(map[THREAD_ID := Str(id), MESSAGE := Record(message)])
            == map[THREAD_ID := Str(id), MESSAGE := Record(StripFields(message))]
  {
    RequestKeys();
    StripRecord(message);
    StripSum(map[THREAD_ID := Str(id)], map[MESSAGE := Record(message)]);
    OneField(THREAD_ID, Str(id));
    OneField(MESSAGE, Record(message));
    hide StripFields;
    var id := map[THREAD_ID := Str(id)];
    assert id + map[MESSAGE := Record(message)] == id[MESSAGE := Record(message)];
  }

  /** What the boundary makes of a request is the copied request. */
  lemma CopiedRequest(m: Mutation)
    ensures Strip(RequestValue(m)) == RequestValue(Copied(m))
  {
    hide StripFields, HeadFields, BodyFields, Copied, Strip;
    StripRecord(RequestFields(m));
    StripSum(HeadFields(m), BodyFields(m));
    StripHead(m);
    StripBody(m);
  }

  // ---------- Fingerprints ----------

  /** Two requests have the same fingerprint exactly when they are equal after erasing the operation id, the creation
    * times of thread and messages, and the time of a resolve or reopen. */
  lemma FingerprintExactly(a: Mutation, b: Mutation, n: NumberCodec, ord: Order)
    requires Lists(ord) && n.Valid() && Fingerprint(a, n, ord).Some? && Fingerprint(b, n, ord).Some?
    ensures Fingerprint(a, n, ord) == Fingerprint(b, n, ord) <==> Erased(Copied(a)) == Erased(Copied(b))
  {
    hide Canon, Payload, Erased, Accepts, Encodes, Copied;
    CanonInjective(Payload(Copied(a)), Payload(Copied(b)), n, ord);
    PayloadKeeps(Copied(a), Copied(b));
  }

  /** A request equal to a fingerprinted one up to what is erased has the same fingerprint, or none when the whole
    * request, with its operation id and its times, is not accepted. */
  lemma FingerprintOfRetry(a: Mutation, b: Mutation, n: NumberCodec, ord: Order)
    requires Lists(ord) && Erased(Copied(a)) == Erased(Copied(b)) && Fingerprint(a, n, ord).Some?
    ensures Fingerprint(b, n, ord) == if Accepts(b, n) then Fingerprint(a, n, ord) else None
  {
    hide Canon, Payload, Erased, Accepts, Encodes, Copied;
    PayloadKeeps(Copied(a), Copied(b));
  }

  /** The same request at another time. */
  function At(m: Mutation, time: Text): Mutation
    requires m.Create? || m.Reply?
  {
    match m
    case Create(_, _, thread, _) => m.(thread := thread[CREATED_AT := Str(time)])
    case Reply(_, _, _, message) => m.(message := message[CREATED_AT := Str(time)])
  }

  lemma LongTime(fields: Fields, time: Text, depth: nat)
    requires CREATED_AT in fields && fields[CREATED_AT] == Str(time) && Utf8Length(time) > MAX_RECEIPT_STRING_BYTES
    ensures !PreflightShape(Record(fields), depth)
  {
    hide Utf8Length;
    RequestKeys();
    assert !PreflightShape(fields[CREATED_AT], depth + 1);
  }

  lemma PreflightField(fields: Fields, k: Text, depth: nat)
    requires k in fields && k != LENGTH && !PreflightShape(fields[k], depth + 1)
    ensures !PreflightShape(Record(fields), depth)
  {
    hide Utf8Length;
  }

  lemma UntimedTime(fields: Fields, time: Text)
    ensures Untimed(StripFields(fields[CREATED_AT := Str(time)])) == Untimed(StripFields(fields))
  {
    RequestKeys();
    StripPut(fields, CREATED_AT, Str(time));
  }

  /** A creation time of more than 64 KiB is erased from the fingerprint, and is refused all the same: a retry can fail
    * where the first call did not. */
  lemma LongTimeRefused(m: Mutation, time: Text, n: NumberCodec, ord: Order)
    requires Lists(ord) && (m.Create? || m.Reply?) && Utf8Length(time) > MAX_RECEIPT_STRING_BYTES
    ensures Erased(Copied(At(m, time))) == Erased(Copied(m)) && Fingerprint(At(m, time), n, ord) == None
  {
    hide Untimed, StripFields, Payload, Encodes, Utf8Length, Canon, PreflightShape;
    var late := At(m, time);
    RequestKeys();
    if m.Create? {
      UntimedTime(m.thread, time);
      assert |CREATED_AT| == 9 && |MESSAGES| == 8;
      LongTime(late.thread[MESSAGES := List(Records(late.messages))], time, 1);
      PreflightField(RequestFields(late), THREAD, 0);
    } else {
      UntimedTime(m.message, time);
      LongTime(late.message, time, 1);
      PreflightField(RequestFields(late), MESSAGE, 0);
    }
  }

  lemma {:induction false} BytesAtLeastUnits(s: Text)
    ensures Utf8Length(s) >= |s|
    decreases |s|
  {
    if s != [] {
      Utf8Step(s, 0);
      assert s[0..] == s;
      var width := if CharacterBytes(s, 0) == 4 then 2 else 1;
      BytesAtLeastUnits(s[width..]);
    }
  }

  /** 70,000 characters are such a time. */
  lemma SeventyThousandRefused(m: Mutation, n: NumberCodec, ord: Order)
    requires Lists(ord) && (m.Create? || m.Reply?)
    ensures var time := seq(70_000, _ => 0x61);
            Erased(Copied(At(m, time))) == Erased(Copied(m)) && Fingerprint(At(m, time), n, ord) == None
  {
    hide Utf8Length, Erased, Copied, At, Fingerprint;
    var time: Text := seq(70_000, _ => 0x61);
    BytesAtLeastUnits(time);
    LongTimeRefused(m, time, n, ord);
  }
}
