/** The recursive snapshot that charges byte by byte for the compact text it would print, the printer
  * itself, and their agreement with the parser. */
module JsonSnapshot {
  import opened Wrappers
  import opened Utf16
  import opened JsonStrings
  import opened JsonNumbers
  import opened JsonSyntax
  import opened JsonDescent
  import opened JsonCompleteness
  import opened JsonGraphs

  // ---------- JSON.stringify ----------

  function Print(v: Json, g: Config): Text
  {
    match v
    case Null => NULL
    case Bool(b) => if b then TRUE else FALSE
    case Num(n) => g.numbers.show(n)
    case Str(s) => Quote(s)
    case Arr(items) => [LBRACKET] + PrintItems(items, g) + [RBRACKET]
    case Obj(members) => [LBRACE] + PrintMembers(members, g) + [RBRACE]
  }

  function PrintItems(items: seq<Json>, g: Config): Text
  {
    if items == [] then []
    else if |items| == 1 then Print(items[0], g)
    else Print(items[0], g) + [COMMA] + PrintItems(items[1..], g)
  }

  function PrintEntry(e: Entry, g: Config): Text { Quote(e.key) + [COLON] + Print(e.value, g) }

  function PrintMembers(members: seq<Entry>, g: Config): Text
  {
    if members == [] then []
    else if |members| == 1 then PrintEntry(members[0], g)
    else PrintEntry(members[0], g) + [COMMA] + PrintMembers(members[1..], g)
  }

  // ---------- What the snapshot accepts and what it charges ----------

  function Bytes(v: Json, g: Config): nat
  {
    match v
    case Null => 4
    case Bool(b) => if b then 4 else 5
    case Num(n) => Utf8Length(g.numbers.show(n))
    case Str(s) => QuotedBytes(s)
    case Arr(items) => 2 + ItemsBytes(items, g) + Commas(|items|)
    case Obj(members) => 2 + MembersBytes(members, g) + Commas(|members|)
  }

  function Commas(n: nat): nat { if n == 0 then 0 else n - 1 }

  function ItemsBytes(items: seq<Json>, g: Config): nat
  {
    if items == [] then 0 else Bytes(items[0], g) + ItemsBytes(items[1..], g)
  }

  function EntryBytes(e: Entry, g: Config): nat { QuotedBytes(e.key) + 1 + Bytes(e.value, g) }

  function MembersBytes(members: seq<Entry>, g: Config): nat
  {
    if members == [] then 0 else EntryBytes(members[0], g) + MembersBytes(members[1..], g)
  }

  /** Every budget but the two running totals. */
  predicate Fits(v: Json, depth: nat, g: Config)
  {
    match v
    case Num(n) => |g.numbers.show(n)| <= g.limit.maximumNumberCharacters
    case Str(s) => Utf8Length(s) <= g.limit.maximumStringBytes
    case Arr(items) =>
      && depth < g.limit.maximumDepth && |items| <= g.limit.maximumArrayLength
      && forall item <- items :: Fits(item, depth + 1, g)
    case Obj(members) =>
      && depth < g.limit.maximumDepth
      && forall e <- members :: KeyFits(e.key, g.limit) && Fits(e.value, depth + 1, g)
    case _ => true
  }

  predicate KeyFits(key: Text, limit: Limits) { !Dangerous(key) && Utf8Length(key) <= limit.maximumStringBytes }

  /** Own keys of an object never repeat. */
  predicate DistinctKeys(v: Json)
  {
    match v
    case Arr(items) => forall item <- items :: DistinctKeys(item)
    case Obj(members) =>
      && (forall i, j :: 0 <= i < j < |members| ==> members[i].key != members[j].key)
      && forall e <- members :: DistinctKeys(e.value)
    case _ => true
  }

  /** Every string and key passes `isWellFormedUnicode`. */
  predicate AllWellFormed(v: Json)
  {
    match v
    case Str(s) => WellFormed(s)
    case Arr(items) => forall item <- items :: AllWellFormed(item)
    case Obj(members) => forall e <- members :: WellFormed(e.key) && AllWellFormed(e.value)
    case _ => true
  }

  /** How many strings and keys end in an unpaired high surrogate. */
  function UnpairedEnds(v: Json): nat
  {
    match v
    case Str(s) => if EndsInHigh(s) then 1 else 0
    case Arr(items) => UnpairedItems(items)
    case Obj(members) => UnpairedMembers(members)
    case _ => 0
  }

  function UnpairedItems(items: seq<Json>): nat
  {
    if items == [] then 0 else UnpairedEnds(items[0]) + UnpairedItems(items[1..])
  }

  function UnpairedMembers(members: seq<Entry>): nat
  {
    if members == [] then 0
    else (if EndsInHigh(members[0].key) then 1 else 0) + UnpairedEnds(members[0].value) + UnpairedMembers(members[1..])
  }

  /** The whole of `snapshotJsonValue`'s acceptance. */
  predicate Accepts(v: Json, g: Config)
  {
    Fits(v, 0, g) && Count(v) <= g.limit.maximumValues && Bytes(v, g) <= g.limit.maximumBytes
  }

  // ---------- Sums over prefixes ----------

  lemma {:induction false} ItemsSplit(items: seq<Json>, i: nat, g: Config)
    requires i < |items|
    ensures CountItems(items[..i + 1]) == CountItems(items[..i]) + Count(items[i])
    ensures ItemsBytes(items[..i + 1], g) == ItemsBytes(items[..i], g) + Bytes(items[i], g)
    ensures CountItems(items[..i + 1]) <= CountItems(items) && ItemsBytes(items[..i + 1], g) <= ItemsBytes(items, g)
  {
    if i > 0 {
      ItemsSplit(items[1..], i - 1, g);
      assert items[..i + 1][1..] == items[1..][..i];
      assert items[..i][1..] == items[1..][..i - 1];
    } else {
      assert items[..1] == [items[0]] && items[..0] == [];
    }
  }

  lemma {:induction false} MembersSplit(members: seq<Entry>, i: nat, g: Config)
    requires i < |members|
    ensures CountMembers(members[..i + 1]) == CountMembers(members[..i]) + Count(members[i].value)
    ensures MembersBytes(members[..i + 1], g) == MembersBytes(members[..i], g) + EntryBytes(members[i], g)
    ensures CountMembers(members[..i + 1]) <= CountMembers(members)
            && MembersBytes(members[..i + 1], g) <= MembersBytes(members, g)
  {
    hide EntryBytes;
    if i > 0 {
      MembersSplit(members[1..], i - 1, g);
      assert members[..i + 1][1..] == members[1..][..i];
      assert members[..i][1..] == members[1..][..i - 1];
    } else {
      assert members[..1] == [members[0]] && members[..0] == [];
    }
  }

  lemma {:induction false} ManyItems(items: seq<Json>)
    ensures CountItems(items) >= |items|
  {
    if items != [] { ManyItems(items[1..]); }
  }

  lemma {:induction false} ManyMembers(members: seq<Entry>)
    ensures CountMembers(members) >= |members|
  {
    if members != [] { ManyMembers(members[1..]); }
  }

  lemma ItemsAppend(items: seq<Json>, item: Json, g: Config)
    ensures CountItems(items + [item]) == CountItems(items) + Count(item)
    ensures ItemsBytes(items + [item], g) == ItemsBytes(items, g) + Bytes(item, g)
  {
    hide Count, Bytes;
    ItemsSplit(items + [item], |items|, g);
    assert (items + [item])[..|items|] == items && (items + [item])[..|items| + 1] == items + [item];
  }

  lemma MembersAppend(members: seq<Entry>, e: Entry, g: Config)
    ensures CountMembers(members + [e]) == CountMembers(members) + Count(e.value)
    ensures MembersBytes(members + [e], g) == MembersBytes(members, g) + EntryBytes(e, g)
  {
    hide Count, EntryBytes;
    MembersSplit(members + [e], |members|, g);
    assert (members + [e])[..|members|] == members && (members + [e])[..|members| + 1] == members + [e];
  }

  // ---------- What can be copied when part of the budgets is spent ----------

  /** The objects seen and the budgets spent so far. */
  datatype Spent = Spent(seen: set<Ref>, count: nat, bytes: nat)

  /** `v` unfolds to `t` without meeting an object twice, and `t` keeps every budget. */
  ghost predicate Copyable(h: Heap, g: Config, spent: Spent, v: Candidate, depth: nat, t: Json)
  {
    && Unfolds(h, v, t) && Unaliased(Visits(h, v, t), spent.seen) && Fits(t, depth, g)
    && spent.count + Count(t) <= g.limit.maximumValues && spent.bytes + Bytes(t, g) <= g.limit.maximumBytes
  }

  ghost predicate Uncopyable(h: Heap, g: Config, spent: Spent, v: Candidate, depth: nat)
  {
    forall t :: !Copyable(h, g, spent, v, depth, t)
  }

  /** The same for the items of a list. */
  ghost predicate ItemsCopyable(h: Heap, g: Config, spent: Spent, node: Node, depth: nat, items: seq<Json>)
  {
    && node.ListNode? && |items| == |node.items| && ChildrenUnfold(h, node, Arr(items), |items|)
    && Unaliased(ChildVisits(h, node, Arr(items), |items|), spent.seen)
    && (forall item <- items :: Fits(item, depth + 1, g))
    && spent.count + CountItems(items) <= g.limit.maximumValues
    && spent.bytes + 2 + ItemsBytes(items, g) + Commas(|items|) <= g.limit.maximumBytes
  }

  /** And for the members of a record. */
  ghost predicate MembersCopyable(h: Heap, g: Config, spent: Spent, node: Node, depth: nat, members: seq<Entry>)
  {
    && node.RecordNode? && SameShape(node, Obj(members)) && ChildrenUnfold(h, node, Obj(members), |members|)
    && Unaliased(ChildVisits(h, node, Obj(members), |members|), spent.seen)
    && (forall e <- members :: KeyFits(e.key, g.limit) && Fits(e.value, depth + 1, g))
    && spent.count + CountMembers(members) <= g.limit.maximumValues
    && spent.bytes + 2 + MembersBytes(members, g) + Commas(|members|) <= g.limit.maximumBytes
  }

  lemma VisitsReference(h: Heap, r: Ref, t: Json, seen: set<Ref>)
    requires Unfolds(h, Reference(r), t) && r !in seen
    ensures ChildrenUnfold(h, h[r], t, Parts(t))
    ensures var inside := ChildVisits(h, h[r], t, Parts(t));
            && (Unaliased(Visits(h, Reference(r), t), seen) <==> Unaliased(inside, seen + {r}))
            && Met(Visits(h, Reference(r), t)) == {r} + Met(inside)
  {
    var inside := ChildVisits(h, h[r], t, Parts(t));
    assert Met([r]) == {r} && Unaliased([r], seen);
    hide Unaliased;
    UnaliasedConcat([r], inside, seen);
  }

  lemma ListCopyable(h: Heap, g: Config, spent: Spent, r: Ref, depth: nat, t: Json)
    requires r in h && h[r].ListNode? && r !in spent.seen
    requires depth < g.limit.maximumDepth && |h[r].items| <= g.limit.maximumArrayLength
    ensures Copyable(h, g, spent, Reference(r), depth, t)
            <==> t.Arr? && ItemsCopyable(h, g, Spent(spent.seen + {r}, spent.count + 1, spent.bytes), h[r], depth,
                                         t.items)
  {
    hide Unaliased, Visits, ChildVisits;
    if Unfolds(h, Reference(r), t) { VisitsReference(h, r, t, spent.seen); }
  }

  lemma RecordCopyable(h: Heap, g: Config, spent: Spent, r: Ref, depth: nat, t: Json)
    requires r in h && h[r].RecordNode? && r !in spent.seen && depth < g.limit.maximumDepth
    ensures Copyable(h, g, spent, Reference(r), depth, t)
            <==> t.Obj? && MembersCopyable(h, g, Spent(spent.seen + {r}, spent.count + 1, spent.bytes), h[r], depth,
                                           t.members)
  {
    hide Unaliased, Visits, ChildVisits, KeyFits;
    if Unfolds(h, Reference(r), t) { VisitsReference(h, r, t, spent.seen); }
  }

  /** Parts copied already are the first parts of whatever the whole unfolds to. */
  lemma SameFirst(h: Heap, node: Node, t: Json, done: Json, n: nat)
    requires ChildrenUnfold(h, node, t, n) && ChildrenUnfold(h, node, done, n)
    ensures forall i :: 0 <= i < n ==> Part(t, i) == Part(done, i)
    ensures ChildVisits(h, node, t, n) == ChildVisits(h, node, done, n)
  {
    forall i | 0 <= i < n ensures Part(t, i) == Part(done, i) {
      UnfoldsUnique(h, Child(node, i), Part(t, i), Part(done, i));
    }
    SameVisits(h, node, t, done, n);
  }

  /** What is spent when the first items are copied and the next comma is. */
  ghost function AfterItems(h: Heap, g: Config, spent: Spent, node: Node, done: seq<Json>): Spent
    requires ChildrenUnfold(h, node, Arr(done), |done|)
  {
    Spent(spent.seen + Met(ChildVisits(h, node, Arr(done), |done|)), spent.count + CountItems(done),
          spent.bytes + 2 + ItemsBytes(done, g) + Commas(|done| + 1))
  }

  /** A list that can be copied lets its next item be copied. */
  lemma NextItem(h: Heap, g: Config, spent: Spent, node: Node, depth: nat, items: seq<Json>, done: seq<Json>)
    requires ItemsCopyable(h, g, spent, node, depth, items) && |done| < |items|
             && ChildrenUnfold(h, node, Arr(done), |done|)
    ensures var next := AfterItems(h, g, spent, node, done);
            next.bytes <= g.limit.maximumBytes && Copyable(h, g, next, node.items[|done|], depth + 1, items[|done|])
  {
    hide Unaliased, Count, Bytes, Fits, Visits;
    var i := |done|;
    SameFirst(h, node, Arr(items), Arr(done), i);
    forall j | 0 <= j < i ensures items[j] == done[j] { assert Part(Arr(items), j) == Part(Arr(done), j); }
    assert items[..i] == done && items[i] in items;
    FirstChildren(h, node, Arr(items), i, |items|, spent.seen);
    ItemsSplit(items, i, g);
  }

  ghost function AfterMembers(h: Heap, g: Config, spent: Spent, node: Node, done: seq<Entry>): Spent
    requires ChildrenUnfold(h, node, Obj(done), |done|)
  {
    Spent(spent.seen + Met(ChildVisits(h, node, Obj(done), |done|)), spent.count + CountMembers(done),
          spent.bytes + 2 + MembersBytes(done, g) + Commas(|done|))
  }

  /** The bytes of a key with its colon and the comma before it. */
  function KeyBytes(key: Text, i: nat): nat { QuotedBytes(key) + 1 + if i > 0 then 1 else 0 }

  lemma FirstMembers(h: Heap, node: Node, members: seq<Entry>, done: seq<Entry>)
    requires node.RecordNode? && SameShape(node, Obj(members)) && |done| < |members|
    requires ChildrenUnfold(h, node, Obj(members), |members|) && ChildrenUnfold(h, node, Obj(done), |done|)
    requires forall j :: 0 <= j < |done| ==> done[j].key == node.fields[j].key
    ensures ChildrenUnfold(h, node, Obj(members), |done|)
    ensures ChildVisits(h, node, Obj(members), |done|) == ChildVisits(h, node, Obj(done), |done|)
            && members[..|done|] == done
  {
    hide Unfolds, ChildVisits;
    SameFirst(h, node, Obj(members), Obj(done), |done|);
    forall j | 0 <= j < |done| ensures members[j] == done[j] { assert Part(Obj(members), j) == Part(Obj(done), j); }
  }

  /** A record that can be copied lets its next key be charged and its next value be copied. */
  lemma NextMember(h: Heap, g: Config, spent: Spent, node: Node, depth: nat, members: seq<Entry>, done: seq<Entry>)
    requires MembersCopyable(h, g, spent, node, depth, members) && |done| < |members|
    requires ChildrenUnfold(h, node, Obj(done), |done|) && forall j :: 0 <= j < |done|
                                                             ==> done[j].key == node.fields[j].key
    ensures var next, field := AfterMembers(h, g, spent, node, done), node.fields[|done|];
            var charged := next.bytes + KeyBytes(field.key, |done|);
            && KeyFits(field.key, g.limit) && charged <= g.limit.maximumBytes
            && Copyable(h, g, next.(bytes := charged), field.value, depth + 1, members[|done|].value)
  {
    hide Unaliased, Count, Bytes, Fits, Visits, QuotedBytes, KeyFits, Unfolds, Met;
    var i := |done|;
    FirstMembers(h, node, members, done);
    assert members[i] in members;
    FirstChildren(h, node, Obj(members), i, |members|, spent.seen);
    MembersSplit(members, i, g);
  }

  lemma MemberRefused(h: Heap, g: Config, spent: Spent, node: Node, depth: nat, done: seq<Entry>, after: Spent)
    requires node.RecordNode? && |done| < |node.fields| && ChildrenUnfold(h, node, Obj(done), |done|)
    requires forall j :: 0 <= j < |done| ==> done[j].key == node.fields[j].key
    requires var next := AfterMembers(h, g, spent, node, done);
             after == next.(bytes := next.bytes + KeyBytes(node.fields[|done|].key, |done|))
    requires || !KeyFits(node.fields[|done|].key, g.limit) || after.bytes > g.limit.maximumBytes
             || Uncopyable(h, g, after, node.fields[|done|].value, depth + 1)
    ensures forall members :: !MembersCopyable(h, g, spent, node, depth, members)
  {
    forall members ensures !MembersCopyable(h, g, spent, node, depth, members) {
      hide Copyable, KeyFits, AfterMembers, KeyBytes;
      if MembersCopyable(h, g, spent, node, depth, members) { NextMember(h, g, spent, node, depth, members, done); }
    }
  }

  lemma OneMoreUnfolds(h: Heap, node: Node, done: Json, longer: Json)
    requires ChildrenUnfold(h, node, done, Parts(done)) && Parts(longer) == Parts(done) + 1 && Parts(done) < Arity(node)
    requires forall i :: 0 <= i < Parts(done) ==> Part(longer, i) == Part(done, i)
    requires Unfolds(h, Child(node, Parts(done)), Part(longer, Parts(done)))
    ensures ChildrenUnfold(h, node, longer, Parts(longer)) && ChildrenUnfold(h, node, longer, Parts(done))
  {
    hide Unfolds;
    forall i | 0 <= i < Parts(longer) ensures Unfolds(h, Child(node, i), Part(longer, i)) {
      if i < Parts(done) { assert Part(longer, i) == Part(done, i); }
    }
  }

  /** One more child, copied next. */
  lemma OneMore(h: Heap, node: Node, done: Json, longer: Json, seen: set<Ref>)
    requires ChildrenUnfold(h, node, done, Parts(done)) && Parts(longer) == Parts(done) + 1 && Parts(done) < Arity(node)
    requires forall i :: 0 <= i < Parts(done) ==> Part(longer, i) == Part(done, i)
    requires Unfolds(h, Child(node, Parts(done)), Part(longer, Parts(done)))
    ensures ChildrenUnfold(h, node, longer, Parts(longer))
    ensures var before, last := ChildVisits(h, node, done, Parts(done)),
            Visits(h, Child(node, Parts(done)), Part(longer, Parts(done)));
            var after := ChildVisits(h, node, longer, Parts(longer));
            && (Unaliased(after, seen) <==> Unaliased(before, seen) && Unaliased(last, seen + Met(before)))
            && Met(after) == Met(before) + Met(last)
  {
    hide Unaliased, Unfolds, Met, Visits;
    var n := Parts(done);
    OneMoreUnfolds(h, node, done, longer);
    SameVisits(h, node, longer, done, n);
    UnaliasedConcat(ChildVisits(h, node, done, n), Visits(h, Child(node, n), Part(longer, n)), seen);
  }

  /** The first members of a record are copied, with this spent in all. */
  ghost predicate MembersDone(h: Heap, g: Config, spent: Spent, node: Node, depth: nat, done: seq<Entry>, now: Spent)
  {
    && node.RecordNode? && ChildrenUnfold(h, node, Obj(done), |done|)
    && (forall j :: 0 <= j < |done| ==> done[j].key == node.fields[j].key)
    && Unaliased(ChildVisits(h, node, Obj(done), |done|), spent.seen)
    && (forall e <- done :: KeyFits(e.key, g.limit) && Fits(e.value, depth + 1, g))
    && now == AfterMembers(h, g, spent, node, done)
    && now.count <= g.limit.maximumValues && now.bytes <= g.limit.maximumBytes
  }

  lemma NoneDone(h: Heap, g: Config, spent: Spent, node: Node, depth: nat)
    requires node.RecordNode? && spent.count <= g.limit.maximumValues && spent.bytes + 2 <= g.limit.maximumBytes
    ensures MembersDone(h, g, spent, node, depth, [], spent.(bytes := spent.bytes + 2))
  {
    NothingVisited(h, node, Obj([]), spent.seen);
  }

  lemma DoneIs(h: Heap, g: Config, spent: Spent, node: Node, depth: nat, done: seq<Entry>, now: Spent)
    requires MembersDone(h, g, spent, node, depth, done, now)
    ensures node.RecordNode? && ChildrenUnfold(h, node, Obj(done), |done|)
            && now == AfterMembers(h, g, spent, node, done)
    ensures forall j :: 0 <= j < |done| ==> done[j].key == node.fields[j].key
    ensures now.count <= g.limit.maximumValues && now.bytes <= g.limit.maximumBytes
  {}

  lemma MemberAdded(h: Heap, g: Config, spent: Spent, node: Node, depth: nat, done: seq<Entry>, now: Spent, value: Json,
                    after: Spent)
    requires MembersDone(h, g, spent, node, depth, done, now) && |done| < |node.fields|
             && KeyFits(node.fields[|done|].key, g.limit)
    requires var field, charged := node.fields[|done|], now.bytes + KeyBytes(node.fields[|done|].key, |done|);
             && Copyable(h, g, now.(bytes := charged), field.value, depth + 1, value)
             && after == Spent(now.seen + Met(Visits(h, field.value, value)), now.count + Count(value),
                               charged + Bytes(value, g))
    ensures MembersDone(h, g, spent, node, depth, done + [Entry(node.fields[|done|].key, value)], after)
  {
    hide Fits, Count, Bytes, Unaliased, Visits, ChildVisits, Unfolds, KeyFits, QuotedBytes, Met;
    var e := Entry(node.fields[|done|].key, value);
    MembersAppend(done, e, g);
    OneMore(h, node, Obj(done), Obj(done + [e]), spent.seen);
  }

  lemma AllDone(h: Heap, g: Config, spent: Spent, node: Node, depth: nat, done: seq<Entry>, now: Spent)
    requires MembersDone(h, g, spent, node, depth, done, now) && |done| == |node.fields|
    ensures MembersCopyable(h, g, spent, node, depth, done) && now == AfterMembers(h, g, spent, node, done)
  {
    hide Fits, Unaliased, ChildVisits, Unfolds, KeyFits;
  }

  /** The closure state of `snapshotJsonValue`. */
  class Snapshot {
    const heap: Heap
    const g: Config
    var seen: set<Ref>
    var count: nat
    var usedBytes: nat

    constructor (heap: Heap, g: Config)
      ensures this.heap == heap && this.g == g && seen == {} && count == 0 && usedBytes == 0
    {
      this.heap, this.g := heap, g;
      seen, count, usedBytes := {}, 0, 0;
    }

    function Now(): Spent
      reads this
    {
      Spent(seen, count, usedBytes)
    }

    ghost predicate Within()
      reads this
    {
      usedBytes <= g.limit.maximumBytes && count <= g.limit.maximumValues
    }

    method ConsumeBytes(amount: nat) returns (ok: bool)
      modifies this`usedBytes
      ensures usedBytes == old(usedBytes) + amount && ok == (usedBytes <= g.limit.maximumBytes)
    {
      usedBytes := usedBytes + amount;
      return usedBytes <= g.limit.maximumBytes;
    }

    /** A quoted string and `extra` more bytes. */
    method ConsumeQuoted(s: Text, extra: nat) returns (ok: bool)
      requires usedBytes <= g.limit.maximumBytes
      modifies this`usedBytes
      ensures ok == (old(usedBytes) + QuotedBytes(s) + extra <= g.limit.maximumBytes)
      ensures ok ==> usedBytes == old(usedBytes) + QuotedBytes(s) + extra
    {
      var bytes := JsonStringBytesAtMost(s, g.limit.maximumBytes - usedBytes);
      ok := ConsumeBytes(bytes + extra);
    }

    method CopyScalar(value: Json) returns (ok: bool)
      requires usedBytes <= g.limit.maximumBytes && !value.Arr? && !value.Obj?
      modifies this`usedBytes
      ensures ok <==> Fits(value, 0, g) && old(usedBytes) + Bytes(value, g) <= g.limit.maximumBytes
      ensures ok ==> usedBytes == old(usedBytes) + Bytes(value, g)
    {
      match value
      case Null => ok := ConsumeBytes(4);
      case Bool(b) => ok := ConsumeBytes(if b then 4 else 5);
      case Str(s) =>
        var bytes := Utf8ByteLengthAtMost(s, g.limit.maximumStringBytes);
        if bytes > g.limit.maximumStringBytes { return false; }
        ok := ConsumeQuoted(s, 0);
      case Num(n) =>
        var serialized := g.numbers.show(n);
        if |serialized| > g.limit.maximumNumberCharacters { return false; }
        var bytes := Utf8Length(serialized);
        ok := ConsumeBytes(bytes);
    }

    /** `copy`: succeeds exactly on what unfolds without an object met twice, now or before, within what is left. */
    method Copy(candidate: Candidate, depth: nat) returns (r: Result<Json>)
      requires Within()
      modifies this
      ensures r.Ok? ==> old(Copyable(heap, g, Now(), candidate, depth, r.value))
      ensures r.Ok? ==> seen == old(seen) + Met(Visits(heap, candidate, r.value))
      ensures r.Ok? ==> count == old(count) + Count(r.value) && usedBytes == old(usedBytes) + Bytes(r.value, g)
      ensures r.Err? ==> old(Uncopyable(heap, g, Now(), candidate, depth))
      decreases heap.Keys - seen, 1
    {
      count := count + 1;
      if count > g.limit.maximumValues { return Err(Budget); }
      match candidate {
        case Alien => return Err(UnsafeValue);
        case Scalar(value) =>
          if value.Arr? || value.Obj? { return Err(UnsafeValue); }
          var ok := CopyScalar(value);
          return if ok then Ok(value) else Err(Budget);
        case Reference(ref) =>
          r := CopyObject(ref, depth);
      }
    }

    /** The part of `copy` for objects. */
    method CopyObject(ref: Ref, depth: nat) returns (r: Result<Json>)
      requires Within() && count > 0
      modifies this
      ensures var spent := old(Now()).(count := old(count) - 1);
              && (r.Ok? ==> Copyable(heap, g, spent, Reference(ref), depth, r.value))
              && (r.Err? ==> Uncopyable(heap, g, spent, Reference(ref), depth))
      ensures r.Ok? ==> seen == old(seen) + Met(Visits(heap, Reference(ref), r.value))
      ensures r.Ok? ==> count == old(count) - 1 + Count(r.value) && usedBytes == old(usedBytes) + Bytes(r.value, g)
      decreases heap.Keys - seen, 0
    {
      ghost var spent := Spent(seen, count - 1, usedBytes);
      hide Visits, ChildVisits, Fits, Count, Bytes, Unaliased;
      if depth >= g.limit.maximumDepth || ref in seen || ref !in heap {
        Inadmissible(heap, g, spent, ref, depth);
        return Err(if depth >= g.limit.maximumDepth then Budget else UnsafeValue);
      }
      var node := heap[ref];
      if Arity(node) > g.limit.maximumValues + (if node.ListNode? then 0 else 1)
         || (node.ListNode? && |node.items| > g.limit.maximumArrayLength) {
        ManyAnyway(heap, g, spent, ref, depth);
        return Err(if node.ListNode? && |node.items| <= g.limit.maximumValues then Budget else UnsafeValue);
      }
      assert ref in heap.Keys - seen;
      seen := seen + {ref};
      ghost var now := Now();
      if node.ListNode? {
        var copied := CopyItems(node, depth);
        forall t ensures Copyable(heap, g, spent, Reference(ref), depth, t)
          <==> t.Arr? && ItemsCopyable(heap, g, now, node, depth, t.items)
        {
          ListCopyable(heap, g, spent, ref, depth, t);
        }
        if copied.Err? { return Err(copied.error); }
        r := Ok(Arr(copied.value));
      } else {
        var copied := CopyMembers(node, depth);
        forall t ensures Copyable(heap, g, spent, Reference(ref), depth, t)
          <==> t.Obj? && MembersCopyable(heap, g, now, node, depth, t.members)
        {
          RecordCopyable(heap, g, spent, ref, depth, t);
        }
        if copied.Err? { return Err(copied.error); }
        r := Ok(Obj(copied.value));
      }
      VisitsReference(heap, ref, r.value, spent.seen);
      ContainerCosts(r.value, g);
    }

    /** The array part of `copy`. */
    method CopyItems(node: Node, depth: nat) returns (r: Result<seq<Json>>)
      requires Within() && node.ListNode?
      modifies this
      ensures r.Ok? ==> old(ItemsCopyable(heap, g, Now(), node, depth, r.value))
      ensures r.Ok? ==> seen == old(seen) + Met(ChildVisits(heap, node, Arr(r.value), |r.value|))
      ensures r.Ok? ==> count == old(count) + CountItems(r.value)
                        && usedBytes == old(usedBytes) + 2 + ItemsBytes(r.value, g) + Commas(|r.value|)
      ensures r.Err? ==> forall items :: !old(ItemsCopyable(heap, g, Now(), node, depth, items))
      decreases heap.Keys - seen, 2
    {
      hide Fits, Count, Bytes, Unaliased, Visits, ChildVisits, Unfolds;
      ghost var spent := Now();
      var items := node.items;
      var ok := ConsumeBytes(2);
      if !ok { return Err(Budget); }
      var result: seq<Json> := [];
      var index := 0;
      NothingVisited(heap, node, Arr(result), spent.seen);
      while index < |items|
        invariant 0 <= index <= |items| && |result| == index && ChildrenUnfold(heap, node, Arr(result), index)
        invariant Unaliased(ChildVisits(heap, node, Arr(result), index), spent.seen)
        invariant seen == spent.seen + Met(ChildVisits(heap, node, Arr(result), index))
        invariant forall item <- result :: Fits(item, depth + 1, g)
        invariant count == spent.count + CountItems(result) <= g.limit.maximumValues
        invariant usedBytes == spent.bytes + 2 + ItemsBytes(result, g) + Commas(index) <= g.limit.maximumBytes
      {
        ghost var next := AfterItems(heap, g, spent, node, result);
        if index > 0 { ok := ConsumeBytes(1); }
        if !ok {
          forall items ensures !ItemsCopyable(heap, g, spent, node, depth, items) {
            if ItemsCopyable(heap, g, spent, node, depth, items) {
              NextItem(heap, g, spent, node, depth, items, result);
            }
          }
          return Err(Budget);
        }
        assert Now() == next;
        var item := Copy(items[index], depth + 1);
        if item.Err? {
          forall items ensures !ItemsCopyable(heap, g, spent, node, depth, items) {
            if ItemsCopyable(heap, g, spent, node, depth, items) {
              NextItem(heap, g, spent, node, depth, items, result);
            }
          }
          return Err(item.error);
        }
        ItemsAppend(result, item.value, g);
        OneMore(heap, node, Arr(result), Arr(result + [item.value]), spent.seen);
        result := result + [item.value];
        index := index + 1;
      }
      return Ok(result);
    }

    /** The object part of `copy`. */
    method CopyMembers(node: Node, depth: nat) returns (r: Result<seq<Entry>>)
      requires Within() && node.RecordNode?
      modifies this
      ensures r.Ok? ==> old(MembersCopyable(heap, g, Now(), node, depth, r.value))
      ensures r.Ok? ==> seen == old(seen) + Met(ChildVisits(heap, node, Obj(r.value), |r.value|))
      ensures r.Ok? ==> count == old(count) + CountMembers(r.value)
                        && usedBytes == old(usedBytes) + 2 + MembersBytes(r.value, g) + Commas(|r.value|)
      ensures r.Err? ==> forall members :: !old(MembersCopyable(heap, g, Now(), node, depth, members))
      decreases heap.Keys - seen, 3
    {
      hide Fits, Count, Bytes, Unaliased, Visits, ChildVisits, Unfolds, KeyFits, MembersDone;
      ghost var spent := Now();
      var fields := node.fields;
      var ok := ConsumeBytes(2);
      if !ok { return Err(Budget); }
      var result: seq<Entry> := [];
      var index := 0;
      NoneDone(heap, g, spent, node, depth);
      while index < |fields|
        invariant 0 <= index <= |fields| && |result| == index && MembersDone(heap, g, spent, node, depth, result, Now())
        invariant old(seen) <= seen
      {
        DoneIs(heap, g, spent, node, depth, result, Now());
        ghost var now := Now();
        var member := CopyMember(spent, node, depth, result);
        if member.Err? { return Err(member.error); }
        MemberAdded(heap, g, spent, node, depth, result, now, member.value, Now());
        result := result + [Entry(fields[index].key, member.value)];
        index := index + 1;
      }
      AllDone(heap, g, spent, node, depth, result, Now());
      return Ok(result);
    }

    /** The next member of a record: its key is checked and charged, then its value is copied. */
    method CopyMember(ghost spent: Spent, node: Node, depth: nat, done: seq<Entry>) returns (r: Result<Json>)
      requires Within() && node.RecordNode? && |done| < |node.fields| && ChildrenUnfold(heap, node, Obj(done), |done|)
      requires forall j :: 0 <= j < |done| ==> done[j].key == node.fields[j].key
      requires Now() == AfterMembers(heap, g, spent, node, done)
      modifies this
      ensures var field, charged := node.fields[|done|], old(usedBytes) + KeyBytes(node.fields[|done|].key, |done|);
              && (r.Ok? ==> KeyFits(field.key, g.limit)
                            && Copyable(heap, g, old(Now()).(bytes := charged), field.value, depth + 1, r.value)
                            && seen == old(seen) + Met(Visits(heap, field.value, r.value))
                            && count == old(count) + Count(r.value) && usedBytes == charged + Bytes(r.value, g))
              && (r.Err? ==> forall members :: !MembersCopyable(heap, g, spent, node, depth, members))
      decreases heap.Keys - seen, 2
    {
      hide Fits, Count, Bytes, Unaliased, Visits, Dangerous, Utf8Length, QuotedBytes;
      var field := node.fields[|done|];
      ghost var charged := Now().(bytes := usedBytes + KeyBytes(field.key, |done|));
      if Dangerous(field.key) {
        MemberRefused(heap, g, spent, node, depth, done, charged);
        return Err(DangerousKey);
      }
      var bytes := Utf8ByteLengthAtMost(field.key, g.limit.maximumStringBytes);
      var ok := bytes <= g.limit.maximumStringBytes;
      if ok { ok := ConsumeQuoted(field.key, 1 + if done == [] then 0 else 1); }
      if !ok {
        MemberRefused(heap, g, spent, node, depth, done, charged);
        return Err(Budget);
      }
      assert Now() == charged;
      r := Copy(field.value, depth + 1);
      if r.Err? { MemberRefused(heap, g, spent, node, depth, done, charged); }
    }
  }

  lemma ContainerCosts(t: Json, g: Config)
    ensures t.Arr? ==> Count(t) == 1 + CountItems(t.items)
                       && Bytes(t, g) == 2 + ItemsBytes(t.items, g) + Commas(|t.items|)
    ensures t.Obj? ==> Count(t) == 1 + CountMembers(t.members)
                       && Bytes(t, g) == 2 + MembersBytes(t.members, g) + Commas(|t.members|)
  {}

  /** Too deep, met before, or no plain object. */
  lemma Inadmissible(h: Heap, g: Config, spent: Spent, r: Ref, depth: nat)
    requires depth >= g.limit.maximumDepth || r in spent.seen || r !in h
    ensures Uncopyable(h, g, spent, Reference(r), depth)
  {
    forall t ensures !Copyable(h, g, spent, Reference(r), depth, t) {
      if Unfolds(h, Reference(r), t) { assert Visits(h, Reference(r), t)[0] == r; }
    }
  }

  lemma NothingVisited(h: Heap, node: Node, t: Json, seen: set<Ref>)
    ensures ChildrenUnfold(h, node, t, 0) && ChildVisits(h, node, t, 0) == [] && Unaliased([], seen) && Met([]) == {}
  {}

  /** More parts than values may be visited. */
  lemma ManyAnyway(h: Heap, g: Config, spent: Spent, r: Ref, depth: nat)
    requires r in h && (Arity(h[r]) > g.limit.maximumValues
                        || (h[r].ListNode? && Arity(h[r]) > g.limit.maximumArrayLength))
    ensures Uncopyable(h, g, spent, Reference(r), depth)
  {
    forall t ensures !Copyable(h, g, spent, Reference(r), depth, t) {
      if t.Arr? { ManyItems(t.items); }
      if t.Obj? { ManyMembers(t.members); }
    }
  }

  /** `snapshotJsonValue`: succeeds exactly when the graph unfolds to a tree within the budgets and no object is met
    * twice; that tree is the snapshot, and the bytes charged are its `Bytes`. */
  method SnapshotJsonValue(heap: Heap, value: Candidate, g: Config) returns (r: Result<Json>, usedBytes: nat)
    ensures r.Ok? ==> Unfolds(heap, value, r.value) && NoRepeats(Visits(heap, value, r.value)) && Accepts(r.value, g)
    ensures r.Ok? ==> usedBytes == Bytes(r.value, g)
    ensures r.Err? ==> forall t :: Unfolds(heap, value, t) && NoRepeats(Visits(heap, value, t)) ==> !Accepts(t, g)
  {
    hide Visits, Fits, Count, Bytes, NoRepeats;
    var snapshot := new Snapshot(heap, g);
    ghost var nothing := snapshot.Now();
    r := snapshot.Copy(value, 0);
    usedBytes := snapshot.usedBytes;
    if r.Err? {
      forall t | Unfolds(heap, value, t) && NoRepeats(Visits(heap, value, t)) ensures !Accepts(t, g) {
        assert !Copyable(heap, g, nothing, value, 0, t);
      }
    }
  }

  /** A cyclic value has no snapshot. */
  method CyclicRefused(heap: Heap, cycle: seq<Ref>, g: Config) returns (r: Result<Json>)
    requires |cycle| >= 2 && Chain(heap, cycle) && cycle[|cycle| - 1] == cycle[0]
    ensures r.Err?
  {
    var bytes: nat;
    r, bytes := SnapshotJsonValue(heap, Reference(cycle[0]), g);
    if r.Ok? { CyclesDoNotUnfold(heap, cycle, r.value); }
  }
}
