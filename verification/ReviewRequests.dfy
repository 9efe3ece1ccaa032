/** The typed requests of the review store, the requests whose text is fingerprinted, and why the store may compare
  * erased requests where the source compares texts. */
module ReviewRequests {
  import opened Wrappers
  import opened Utf16
  import opened JsonNumbers
  import opened Documents
  import CanonicalText
  import F = ReviewFingerprints
  import T = ReviewThreads

  type Fields = map<Text, Val>

  const ID: Text := [0x69, 0x64]
  const PROJECT_ID: Text := [0x70, 0x72, 0x6F, 0x6A, 0x65, 0x63, 0x74, 0x49, 0x64]
  const ANCHOR: Text := [0x61, 0x6E, 0x63, 0x68, 0x6F, 0x72]
  const VERSION: Text := [0x76, 0x65, 0x72, 0x73, 0x69, 0x6F, 0x6E]
  const LIFECYCLE: Text := [0x6C, 0x69, 0x66, 0x65, 0x63, 0x79, 0x63, 0x6C, 0x65]
  const OPEN: Text := [0x6F, 0x70, 0x65, 0x6E]
  const RESOLVED: Text := [0x72, 0x65, 0x73, 0x6F, 0x6C, 0x76, 0x65, 0x64]
  const RESOLVED_AT: Text := [0x72, 0x65, 0x73, 0x6F, 0x6C, 0x76, 0x65, 0x64, 0x41, 0x74]
  const RESOLVED_BY: Text := [0x72, 0x65, 0x73, 0x6F, 0x6C, 0x76, 0x65, 0x64, 0x42, 0x79]
  const REOPENED_AT: Text := [0x72, 0x65, 0x6F, 0x70, 0x65, 0x6E, 0x65, 0x64, 0x41, 0x74]
  const REOPENED_BY: Text := [0x72, 0x65, 0x6F, 0x70, 0x65, 0x6E, 0x65, 0x64, 0x42, 0x79]

  /** The keys the typed fields stand for. */
  const MESSAGE_KEYS: set<Text> := {ID, F.CREATED_AT}

  const THREAD_KEYS: set<Text> :=
    {ID, PROJECT_ID, ANCHOR, VERSION, LIFECYCLE, F.CREATED_AT, F.MESSAGES, RESOLVED_AT, RESOLVED_BY, REOPENED_AT,
     REOPENED_BY}

  function RawMessage(x: T.Message): Fields { x.content + map[ID := Str(x.id), F.CREATED_AT := Str(x.createdAt)] }

  function RawMessages(messages: seq<T.Message>): (r: seq<Fields>)
    ensures |r| == |messages| && forall i :: 0 <= i < |r| ==> r[i] == RawMessage(messages[i])
  {
    if messages == [] then [] else [RawMessage(messages[0])] + RawMessages(messages[1..])
  }

  function RawMark(atKey: Text, byKey: Text, mark: Option<T.Mark>): Fields
  {
    if mark.Some? then map[atKey := Str(mark.value.at), byKey := Str(mark.value.actor)] else map[]
  }

  function Head(t: T.Thread): Fields
  {
    map[ID := Str(t.id), PROJECT_ID := Str(t.projectId), ANCHOR := t.anchor, VERSION := Num(t.version),
        LIFECYCLE := Str(if t.lifecycle.Open? then OPEN else RESOLVED), F.CREATED_AT := Str(t.createdAt)]
  }

  /** A thread's fields, its messages apart. */
  function RawThread(t: T.Thread): Fields
  {
    t.content + Head(t) + RawMark(RESOLVED_AT, RESOLVED_BY, t.resolved) + RawMark(REOPENED_AT, REOPENED_BY, t.reopened)
  }

  function Raw(m: T.Mutation): F.Mutation
  {
    match m
    case Create(op, v, t) => F.Create(op, v, RawThread(t), RawMessages(t.messages))
    case Reply(op, v, id, message) => F.Reply(op, v, id, RawMessage(message))
    case Resolve(op, v, id, actor, at) => F.Resolve(op, v, id, actor, at)
    case Reopen(op, v, id, actor, at) => F.Reopen(op, v, id, actor, at)
  }

  /** What is left of a record when its typed fields are taken out has none of their keys. */
  predicate Apart(m: T.Mutation)
  {
    match m
    case Create(_, _, t) => t.content.Keys !! THREAD_KEYS && forall x <- t.messages :: x.content.Keys !! MESSAGE_KEYS
    case Reply(_, _, _, message) => message.content.Keys !! MESSAGE_KEYS
    case _ => true
  }

  lemma SumSplits(a: Fields, b: Fields, x: Fields, y: Fields, keys: set<Text>)
    requires a.Keys !! keys && b.Keys !! keys && x.Keys <= keys && y.Keys <= keys
    ensures a + x == b + y <==> a == b && x == y
  {
    if a + x == b + y {
      assert a == (a + x) - keys && b == (b + y) - keys;
      forall k <- x ensures k in y && x[k] == y[k] { assert k in a + x && (a + x)[k] == x[k]; }
      forall k <- y ensures k in x && x[k] == y[k] { assert k in b + y && (b + y)[k] == y[k]; }
      assert x == y;
    }
  }

  /** The typed fields of a message without its time. */
  lemma MessagesAgree(a: T.Message, b: T.Message)
    requires a.content.Keys !! MESSAGE_KEYS && b.content.Keys !! MESSAGE_KEYS
    ensures F.Untimed(RawMessage(a)) == F.Untimed(RawMessage(b)) <==> a.(createdAt := []) == b.(createdAt := [])
  {
    assert |ID| == 2 && |F.CREATED_AT| == 9;
    var x: Fields := map[ID := Str(a.id), F.CREATED_AT := Str([])];
    var y: Fields := map[ID := Str(b.id), F.CREATED_AT := Str([])];
    assert F.Untimed(RawMessage(a)) == a.content + x;
    assert F.Untimed(RawMessage(b)) == b.content + y;
    SumSplits(a.content, b.content, x, y, MESSAGE_KEYS);
    assert x == y <==> a.id == b.id by { assert x[ID] == Str(a.id) && y[ID] == Str(b.id); }
  }

  lemma AllMessagesAgree(a: seq<T.Message>, b: seq<T.Message>)
    requires (forall x <- a :: x.content.Keys !! MESSAGE_KEYS) && (forall x <- b :: x.content.Keys !! MESSAGE_KEYS)
    ensures F.ErasedMessages(RawMessages(a)) == F.ErasedMessages(RawMessages(b)) <==> T.Untimed(a) == T.Untimed(b)
  {
    hide RawMessage, F.Untimed, MESSAGE_KEYS;
    var p, q, x, y := F.ErasedMessages(RawMessages(a)), F.ErasedMessages(RawMessages(b)), T.Untimed(a), T.Untimed(b);
    forall i | 0 <= i < |a| && i < |b| ensures p[i] == q[i] <==> x[i] == y[i] {
      assert a[i] in a && b[i] in b;
      MessagesAgree(a[i], b[i]);
    }
    if p == q {
      forall i | 0 <= i < |x| ensures x[i] == y[i] { assert p[i] == q[i]; }
      assert x == y;
    }
    if x == y {
      forall i | 0 <= i < |p| ensures p[i] == q[i] { assert x[i] == y[i]; }
      assert p == q;
    }
  }

  /** The typed fields of a thread without its time and messages. */
  function Named(t: T.Thread): Fields
  {
    Head(t.(createdAt := [])) + RawMark(RESOLVED_AT, RESOLVED_BY, t.resolved)
      + RawMark(REOPENED_AT, REOPENED_BY, t.reopened)
  }

  lemma KeysDiffer()
    ensures |ID| == 2 && |PROJECT_ID| == |LIFECYCLE| == |F.CREATED_AT| == 9 && |ANCHOR| == 6 && |VERSION| == 7
            && |F.MESSAGES| == 8
    ensures |RESOLVED_AT| == |RESOLVED_BY| == |REOPENED_AT| == |REOPENED_BY| == 10
    ensures PROJECT_ID[0] == 0x70 && LIFECYCLE[0] == 0x6C && F.CREATED_AT[0] == 0x63
    ensures RESOLVED_AT[2] == RESOLVED_BY[2] == 0x73 && REOPENED_AT[2] == REOPENED_BY[2] == 0x6F
    ensures RESOLVED_AT[8] == REOPENED_AT[8] == 0x41 && RESOLVED_BY[8] == REOPENED_BY[8] == 0x42
  {}

  lemma NamedMarks(t: T.Thread)
    ensures var n := Named(t);
            && (t.resolved.Some? <==> RESOLVED_AT in n) && (t.reopened.Some? <==> REOPENED_AT in n)
            && (t.resolved.Some? ==> n[RESOLVED_AT] == Str(t.resolved.value.at) && RESOLVED_BY in n
                                     && n[RESOLVED_BY] == Str(t.resolved.value.actor))
            && (t.reopened.Some? ==> n[REOPENED_AT] == Str(t.reopened.value.at) && REOPENED_BY in n
                                     && n[REOPENED_BY] == Str(t.reopened.value.actor))
  {
    KeysDiffer();
  }

  lemma HeadFields(t: T.Thread)
    ensures var h := Head(t);
            && ID in h && h[ID] == Str(t.id) && PROJECT_ID in h && h[PROJECT_ID] == Str(t.projectId)
            && ANCHOR in h && h[ANCHOR] == t.anchor && VERSION in h && h[VERSION] == Num(t.version)
            && LIFECYCLE in h && h[LIFECYCLE] == Str(if t.lifecycle.Open? then OPEN else RESOLVED)
    ensures Head(t).Keys == {ID, PROJECT_ID, ANCHOR, VERSION, LIFECYCLE, F.CREATED_AT}
  {
    KeysDiffer();
  }

  lemma MarkKeys(t: T.Thread)
    ensures RawMark(RESOLVED_AT, RESOLVED_BY, t.resolved).Keys <= {RESOLVED_AT, RESOLVED_BY}
    ensures RawMark(REOPENED_AT, REOPENED_BY, t.reopened).Keys <= {REOPENED_AT, REOPENED_BY}
  {}

  lemma NamedHead(t: T.Thread)
    ensures var n := Named(t);
            && ID in n && n[ID] == Str(t.id) && PROJECT_ID in n && n[PROJECT_ID] == Str(t.projectId)
            && ANCHOR in n && n[ANCHOR] == t.anchor && VERSION in n && n[VERSION] == Num(t.version)
            && LIFECYCLE in n && n[LIFECYCLE] == Str(if t.lifecycle.Open? then OPEN else RESOLVED)
  {
    KeysDiffer();
    HeadFields(t.(createdAt := []));
    MarkKeys(t);
    hide Head, RawMark;
  }

  /** The named fields determine the typed ones. */
  lemma NamedAgree(a: T.Thread, b: T.Thread)
    ensures Named(a) == Named(b) <==>
            a.id == b.id && a.projectId == b.projectId && a.anchor == b.anchor && a.version == b.version
            && a.lifecycle == b.lifecycle
            && a.resolved == b.resolved && a.reopened == b.reopened
  {
    NamedHead(a);
    NamedHead(b);
    NamedMarks(a);
    NamedMarks(b);
    assert |OPEN| == 4 && |RESOLVED| == 8;
    hide Named;
    if a.id == b.id && a.projectId == b.projectId && a.anchor == b.anchor && a.version == b.version
       && a.lifecycle == b.lifecycle
       && a.resolved == b.resolved && a.reopened == b.reopened {
      NamedOnly(a, b);
    }
  }

  lemma NamedOnly(a: T.Thread, b: T.Thread)
    requires a.id == b.id && a.projectId == b.projectId && a.anchor == b.anchor && a.version == b.version
             && a.lifecycle == b.lifecycle
    requires a.resolved == b.resolved && a.reopened == b.reopened
    ensures Named(a) == Named(b)
  {}

  lemma PutInMiddle(a: Fields, h: Fields, r: Fields, q: Fields, k: Text, v: Val, dropped: Text)
    requires k in h && k !in r && k !in q && dropped !in a && dropped !in h && dropped !in r && dropped !in q
             && dropped != k
    ensures (a + h + r + q)[k := v] - {dropped} == a + (h[k := v] + r + q)
  {
    PutBefore(a + h + r, q, k, v);
    PutBefore(a + h, r, k, v);
    PutAfter(a, h, k, v);
    SumAssociative(a, h[k := v], r, q);
    DropAbsent(a + (h[k := v] + r + q), dropped);
  }

  lemma SumAssociative(a: Fields, b: Fields, c: Fields, d: Fields)
    ensures a + b + c + d == a + (b + c + d)
  {}

  lemma DropAbsent(m: Fields, k: Text)
    requires k !in m
    ensures m - {k} == m
  {}

  lemma PutBefore(m: Fields, q: Fields, k: Text, v: Val)
    requires k !in q
    ensures (m + q)[k := v] == m[k := v] + q
  {}

  lemma PutAfter(m: Fields, h: Fields, k: Text, v: Val)
    ensures (m + h)[k := v] == m + h[k := v]
  {}

  lemma HeadUntimed(t: T.Thread)
    ensures Head(t)[F.CREATED_AT := Str([])] == Head(t.(createdAt := []))
  {
    KeysDiffer();
  }

  lemma NamedKeys(t: T.Thread)
    requires t.content.Keys !! THREAD_KEYS
    ensures F.Untimed(RawThread(t)) - {F.MESSAGES} == t.content + Named(t) && Named(t).Keys <= THREAD_KEYS
  {
    KeysDiffer();
    HeadFields(t);
    HeadFields(t.(createdAt := []));
    MarkKeys(t);
    HeadUntimed(t);
    hide Head, RawMark;
    PutInMiddle(t.content, Head(t), RawMark(RESOLVED_AT, RESOLVED_BY, t.resolved),
                RawMark(REOPENED_AT, REOPENED_BY, t.reopened),
                F.CREATED_AT, Str([]), F.MESSAGES);
  }

  lemma ThreadsAgree(a: T.Thread, b: T.Thread)
    requires a.content.Keys !! THREAD_KEYS && b.content.Keys !! THREAD_KEYS
    ensures F.Untimed(RawThread(a)) - {F.MESSAGES} == F.Untimed(RawThread(b)) - {F.MESSAGES} <==>
            a.(createdAt := [], messages := []) == b.(createdAt := [], messages := [])
  {
    hide F.Untimed, RawThread, Named, THREAD_KEYS;
    NamedKeys(a);
    NamedKeys(b);
    SumSplits(a.content, b.content, Named(a), Named(b), THREAD_KEYS);
    NamedAgree(a, b);
  }

  /** The store's fingerprints are equal exactly when the erased raw requests are. */
  lemma FingerprintsAgree(a: T.Mutation, b: T.Mutation)
    requires Apart(a) && Apart(b)
    ensures T.Fingerprint(a) == T.Fingerprint(b) <==> F.Erased(Raw(a)) == F.Erased(Raw(b))
  {
    hide F.Untimed, RawThread, RawMessage, THREAD_KEYS, MESSAGE_KEYS;
    if a.Create? && b.Create? {
      ThreadsAgree(a.thread, b.thread);
      AllMessagesAgree(a.thread.messages, b.thread.messages);
    } else if a.Reply? && b.Reply? {
      MessagesAgree(a.message, b.message);
    }
  }

  /** A request that the boundary copies unchanged. */
  predicate Plain(m: T.Mutation) { F.Copied(Raw(m)) == Raw(m) }

  /** So, for requests that can be fingerprinted, the store compares its fingerprints as the source compares texts. */
  lemma TextsAgree(a: T.Mutation, b: T.Mutation, n: NumberCodec, ord: CanonicalText.Order)
    requires CanonicalText.Lists(ord) && n.Valid() && Apart(a) && Apart(b) && Plain(a) && Plain(b)
    requires F.Fingerprint(Raw(a), n, ord).Some? && F.Fingerprint(Raw(b), n, ord).Some?
    ensures F.Fingerprint(Raw(a), n, ord) == F.Fingerprint(Raw(b), n, ord) <==> T.Fingerprint(a) == T.Fingerprint(b)
  {
    hide F.Fingerprint, F.Erased, T.Fingerprint, Raw, Apart;
    F.FingerprintExactly(Raw(a), Raw(b), n, ord);
    FingerprintsAgree(a, b);
  }
}
