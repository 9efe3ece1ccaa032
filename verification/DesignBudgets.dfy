/** What the boundary of the core design-baseline module charges for states, baselines and changes. It is the traversal
  * of `OwnedData`, but the length of a key is bounded by its bytes alone. */
module DesignBudgets {
  import opened Wrappers
  import opened Utf16
  import opened SortedKeys
  import opened Documents
  import opened OwnedData
  import opened RepositoryState

  const ID := Ascii("id")
  const PROJECT_ID := Ascii("projectId")
  const READINESS := Ascii("readiness")
  const BASELINE := Ascii("baseline")
  const CURRENCY := Ascii("currency")
  const APPROVALS_STALE := Ascii("approvalsStale")
  const CHANGES := Ascii("changesSinceBaseline")
  const REVISION := Ascii("revision")
  const INTENT := Ascii("intent")
  const CREATED_AT := Ascii("createdAt")
  const CREATED_BY := Ascii("createdBy")
  const FINGERPRINT := Ascii("fingerprint")
  const BEFORE_REVISION := Ascii("beforeRevision")
  const CURRENT_REVISION := Ascii("currentRevision")
  const AFFECTED := Ascii("affected")
  const OCCURRED_AT := Ascii("occurredAt")
  const EVIDENCE := Ascii("evidence")
  const PROVENANCE := Ascii("provenance")
  const SCREEN_IDS := Ascii("screenIds")
  const ROUTE_PATHS := Ascii("routePaths")
  const SCENARIO_IDS := Ascii("scenarioIds")
  const COMPONENT_IDS := Ascii("componentIds")
  const STABLE_NODE_IDS := Ascii("stableNodeIds")

  function ReadinessText(r: Readiness): Text
  {
    match r
    case Draft => Ascii("draft")
    case ReadyForReview => Ascii("ready-for-review")
    case ReadyForHandoff => Ascii("ready-for-handoff")
  }

  function IntentText(i: Intent): Text { if i == Review then Ascii("review") else Ascii("handoff") }

  function CurrencyText(c: Currency): Text
  {
    match c
    case NoBaseline => Ascii("none")
    case Current => Ascii("current")
    case Stale => Ascii("stale")
  }

  // ---------- Entities as values ----------

  function ReferenceValue(r: Reference): Val { Record(map[ID := Str(r.id), FINGERPRINT := Str(r.fingerprint)]) }

  function BaselineValue(b: Baseline): Val
  {
    Record(map[ID := Str(b.id), PROJECT_ID := Str(b.projectId), REVISION := ReferenceValue(b.revision),
               INTENT := Str(IntentText(b.intent)), CREATED_AT := Str(b.createdAt), CREATED_BY := Str(b.createdBy)])
  }

  function FieldsOf(v: Val): map<Text, Val> { if v.Record? then v.fields else map[] }

  function FieldOf(v: Val, k: Text): Val { if k in FieldsOf(v) then FieldsOf(v)[k] else Null }

  function AffectedValue(c: Change): Val { Record(FieldsOf(FieldOf(c.body, AFFECTED))[PROJECT_ID := Str(c.projectId)]) }

  function ChangeValue(c: Change): Val
  {
    Record(FieldsOf(c.body)[ID := Str(c.id)][BEFORE_REVISION := ReferenceValue(c.before)]
           [CURRENT_REVISION := ReferenceValue(c.current)][AFFECTED :=
                                                           AffectedValue(c)][OCCURRED_AT := Str(c.occurredAt)])
  }

  function ChangeValues(changes: seq<Change>): Val
  {
    List(seq(|changes|, i requires 0 <= i < |changes| => ChangeValue(changes[i])))
  }

  function StateValue(d: DesignState): Val
  {
    var fields := map[PROJECT_ID := Str(d.projectId), READINESS := Str(ReadinessText(d.readiness)),
                      CURRENCY := Str(CurrencyText(d.currency)), CHANGES := ChangeValues(d.changes),
                      APPROVALS_STALE := Bool(d.approvalsStale)];
    Record(if d.baseline.Some? then fields[BASELINE := BaselineValue(d.baseline.value)] else fields)
  }

  /** The lists and records that a valid change holds. */
  predicate Complete(c: Change)
  {
    var evidence := FieldOf(c.body, EVIDENCE);
    var affected := FieldOf(c.body, AFFECTED);
    && evidence.List? && evidence.items != [] && (forall item <- evidence.items :: item.Record?)
    && FieldOf(c.body, PROVENANCE).Record?
    && FieldOf(affected, SCREEN_IDS).List? && FieldOf(affected, ROUTE_PATHS).List?
    && FieldOf(affected, SCENARIO_IDS).List?
    && FieldOf(affected, COMPONENT_IDS).List? && FieldOf(affected, STABLE_NODE_IDS).List?
  }

  // ---------- Budgets ----------

  predicate Shaped(t: Val, depth: nat)
    decreases t
  {
    && depth <= MAX_DEPTH
    && match t
       case Str(s) => |s| <= MAX_TEXT
       case List(items) => |items| + 1 <= OwnedData.MAX_ITEMS && forall item <- items :: Shaped(item, depth + 1)
       case Record(fields) => |fields| <= OwnedData.MAX_ITEMS && forall k <- fields :: Shaped(fields[k], depth + 1)
       case _ => true
  }

  /** `ownBaselineValue` succeeds. */
  ghost predicate Portable(t: Val) { Shaped(t, 0) && Nodes(t) <= MAX_NODES && Bytes(t) <= MAX_BYTES }

  lemma {:induction false} ShapedDeeper(t: Val, depth: nat, shallow: nat)
    requires Shaped(t, depth) && shallow <= depth
    ensures Shaped(t, shallow)
    decreases t
  {
    match t
    case List(items) =>
      forall item <- items ensures Shaped(item, shallow + 1) { ShapedDeeper(item, depth + 1, shallow + 1); }
    case Record(fields) =>
      forall k <- fields ensures Shaped(fields[k], shallow + 1) { ShapedDeeper(fields[k], depth + 1, shallow + 1); }
    case _ =>
  }

  lemma KeyAt(u: Val, k: Text) returns (j: nat)
    requires u.Record? && k in u.fields
    ensures var keys := Sorted(u.fields.Keys); j < |keys| && keys[j] == k
  {
    var keys := Sorted(u.fields.Keys);
    assert k in (set x <- keys);
    j :| 0 <= j < |keys| && keys[j] == k;
  }

  /** A field costs no more than its record. */
  lemma FieldCosts(u: Val, k: Text)
    requires u.Record? && k in u.fields
    ensures Nodes(u) >= 1 + Nodes(u.fields[k]) && Bytes(u) >= Bytes(u.fields[k])
  {
    hide Sorted, Sum, Utf8Length;
    var j := KeyAt(u, k);
    SumWithout(Sorted(u.fields.Keys), j, FieldNodes(u));
    SumWithout(Sorted(u.fields.Keys), j, FieldBytes(u));
  }

  /** The parts of a value that was copied need no copy of their own. */
  lemma PartPortable(u: Val, k: Text)
    requires Portable(u) && u.Record? && k in u.fields
    ensures Portable(u.fields[k])
  {
    FieldCosts(u, k);
    ShapedDeeper(u.fields[k], 1, 0);
  }

  // ---------- How many objects a change is ----------

  lemma {:induction false} PartOfSum(keys: seq<Text>, part: seq<Text>, cost: map<Text, nat>)
    requires NoRepeats(part) && forall k <- part :: k in keys
    ensures Sum(part, cost) <= Sum(keys, cost)
  {
    if part != [] {
      assert part[0] in part;
      var j :| 0 <= j < |keys| && keys[j] == part[0];
      var rest := keys[..j] + keys[j + 1..];
      SumWithout(keys, j, cost);
      forall k <- part[1..] ensures k in rest {
        var i :| 0 <= i < |part[1..]| && part[1..][i] == k;
        assert part[0] != part[i + 1] && part[i + 1] in keys;
        assert keys == keys[..j] + [keys[j]] + keys[j + 1..];
      }
      PartOfSum(rest, part[1..], cost);
    }
  }

  lemma RecordCosts(u: Val)
    requires u.Record?
    ensures Nodes(u) == 1 + Sum(Sorted(u.fields.Keys), FieldNodes(u))
            && Bytes(u) == Sum(Sorted(u.fields.Keys), FieldBytes(u))
  {}

  lemma PartNodes(u: Val, part: seq<Text>)
    requires u.Record? && NoRepeats(part) && forall k <- part :: k in u.fields
    ensures Nodes(u) >= 1 + Sum(part, FieldNodes(u))
  {
    hide Nodes, Bytes;
    var keys := Sorted(u.fields.Keys);
    forall k <- part ensures k in keys { assert k in (set x <- keys); }
    PartOfSum(keys, part, FieldNodes(u));
    RecordCosts(u);
  }

  lemma SumFirst(k: Text, rest: seq<Text>, cost: map<Text, nat>)
    requires k in cost
    ensures Sum([k] + rest, cost) == cost[k] + Sum(rest, cost)
  {
    assert ([k] + rest)[1..] == rest;
  }

  lemma SumOfFive(a: Text, b: Text, c: Text, d: Text, e: Text, cost: map<Text, nat>)
    requires {a, b, c, d, e} <= cost.Keys
    ensures Sum([a, b, c, d, e], cost) == cost[a] + cost[b] + cost[c] + cost[d] + cost[e]
  {
    assert [a, b, c, d, e] == [a] + ([b] + ([c] + ([d] + ([e] + []))));
    SumFirst(a, [b] + ([c] + ([d] + ([e] + []))), cost);
    SumFirst(b, [c] + ([d] + ([e] + [])), cost);
    SumFirst(c, [d] + ([e] + []), cost);
    SumFirst(d, [e] + [], cost);
    SumFirst(e, [], cost);
  }

  /** Five of a record's fields. */
  lemma FiveFields(u: Val, a: Text, b: Text, c: Text, d: Text, e: Text)
    requires u.Record? && NoRepeats([a, b, c, d, e]) && {a, b, c, d, e} <= u.fields.Keys
    ensures Nodes(u) >= 1 + Nodes(u.fields[a]) + Nodes(u.fields[b]) + Nodes(u.fields[c]) + Nodes(u.fields[d])
            + Nodes(u.fields[e])
  {
    hide Nodes, Sum, NoRepeats;
    PartNodes(u, [a, b, c, d, e]);
    SumOfFive(a, b, c, d, e, FieldNodes(u));
  }

  lemma AffectedLists(c: Change)
    requires Complete(c)
    ensures var u := AffectedValue(c);
            && u.Record? && NoRepeats([SCREEN_IDS, ROUTE_PATHS, SCENARIO_IDS, COMPONENT_IDS, STABLE_NODE_IDS])
            && {SCREEN_IDS, ROUTE_PATHS, SCENARIO_IDS, COMPONENT_IDS, STABLE_NODE_IDS} <= u.fields.Keys
            && u.fields[SCREEN_IDS].List? && u.fields[ROUTE_PATHS].List? && u.fields[SCENARIO_IDS].List?
            && u.fields[COMPONENT_IDS].List? && u.fields[STABLE_NODE_IDS].List?
  {
    assert SCREEN_IDS[0] == 0x73;
  }

  lemma ListNodes()
    ensures forall v: Val :: v.List? ==> Nodes(v) >= 1
  {}

  lemma AffectedNodes(c: Change)
    requires Complete(c)
    ensures Nodes(AffectedValue(c)) >= 6
  {
    var u := AffectedValue(c);
    AffectedLists(c);
    hide Complete, AffectedValue, Nodes;
    ListNodes();
    FiveFields(u, SCREEN_IDS, ROUTE_PATHS, SCENARIO_IDS, COMPONENT_IDS, STABLE_NODE_IDS);
  }

  lemma EvidenceNodes(u: Val)
    requires u.List? && u.items != [] && forall item <- u.items :: item.Record?
    ensures Nodes(u) >= 2
  {
    assert u.items[0] in u.items;
    RecordCosts(u.items[0]);
    assert ItemsNodes(u, 0) == Nodes(u.items[0]) + ItemsNodes(u, 1);
  }

  /** A change is at least twelve objects. */
  lemma ChangeNodes(c: Change)
    requires Complete(c)
    ensures Nodes(ChangeValue(c)) >= 12
  {
    hide Complete, Nodes, AffectedValue;
    var u := ChangeValue(c);
    AffectedNodes(c);
    ChangeParts(c);
    EvidenceNodes(u.fields[EVIDENCE]);
    assert forall v: Val :: v.Record? ==> Nodes(v) >= 1 by { RecordNodes(); }
    FiveFields(u, BEFORE_REVISION, CURRENT_REVISION, AFFECTED, EVIDENCE, PROVENANCE);
  }

  lemma RecordNodes()
    ensures forall v: Val :: v.Record? ==> Nodes(v) >= 1
  {}

  lemma ChangeParts(c: Change)
    requires Complete(c)
    ensures var u := ChangeValue(c);
            && u.Record? && NoRepeats([BEFORE_REVISION, CURRENT_REVISION, AFFECTED, EVIDENCE, PROVENANCE])
            && {BEFORE_REVISION, CURRENT_REVISION, AFFECTED, EVIDENCE, PROVENANCE} <= u.fields.Keys
            && u.fields[BEFORE_REVISION].Record? && u.fields[CURRENT_REVISION].Record? && u.fields[PROVENANCE].Record?
            && u.fields[AFFECTED] == AffectedValue(c)
            && u.fields[EVIDENCE].List? && u.fields[EVIDENCE].items != []
            && forall item <- u.fields[EVIDENCE].items :: item.Record?
  {
    assert EVIDENCE[0] == 0x65 && AFFECTED[0] == 0x61 && PROVENANCE[0] == 0x70 && OCCURRED_AT[0] == 0x6F;
  }

  lemma {:induction false} ManyChanges(changes: seq<Change>, i: nat)
    requires i <= |changes| && forall c <- changes :: Complete(c)
    ensures ItemsNodes(ChangeValues(changes), i) >= 12 * (|changes| - i)
    decreases |changes| - i
  {
    hide Complete, ChangeValue;
    if i < |changes| {
      assert changes[i] in changes;
      ChangeNodes(changes[i]);
      ManyChanges(changes, i + 1);
    }
  }

  const MAX_CHANGES: nat := 833

  /** A copied state with a baseline holds at most 833 changes. */
  lemma ChangesBounded(d: DesignState)
    requires Portable(StateValue(d)) && d.baseline.Some? && forall c <- d.changes :: Complete(c)
    ensures |d.changes| <= MAX_CHANGES
  {
    hide Complete, Sum, Shaped, ChangeValue, Bytes, Nodes, BaselineValue;
    var u := StateValue(d);
    ManyChanges(d.changes, 0);
    BaselineNodes(d.baseline.value);
    ListCosts(ChangeValues(d.changes));
    assert u.fields[BASELINE] == BaselineValue(d.baseline.value) && u.fields[CHANGES] == ChangeValues(d.changes);
    TwoFields(u, BASELINE, CHANGES);
  }

  lemma TwoFields(u: Val, a: Text, b: Text)
    requires u.Record? && a != b && a in u.fields && b in u.fields
    ensures Nodes(u) >= 1 + Nodes(u.fields[a]) + Nodes(u.fields[b])
  {
    hide Nodes, Sum;
    PartNodes(u, [a, b]);
    assert [a, b] == [a] + ([b] + []);
    SumFirst(a, [b] + [], FieldNodes(u));
    SumFirst(b, [], FieldNodes(u));
  }

  lemma BaselineNodes(b: Baseline)
    ensures Nodes(BaselineValue(b)) >= 2
  {
    FieldCosts(BaselineValue(b), REVISION);
  }

  // ---------- More changes cost more ----------

  lemma {:induction false} LongerIndex(i: nat, j: nat)
    requires i <= j
    ensures DecimalLength(i) <= DecimalLength(j)
    decreases j
  {
    if j >= 10 && i >= 10 { LongerIndex(i / 10, j / 10); }
  }

  /** What an item costs is part of what the rest of its list costs. */
  lemma {:induction false} ItemCosts(u: Val, i: nat, j: nat)
    requires u.List? && i <= j < |u.items|
    ensures ItemsNodes(u, i) >= Nodes(u.items[j])
    ensures ItemsBytes(u, i) >= DecimalLength(j) + Bytes(u.items[j])
    decreases j - i
  {
    hide Nodes, Bytes, DecimalLength;
    if i < j { ItemCosts(u, i + 1, j); }
  }

  /** Taking items out before the last one saves. */
  lemma {:induction false} FewerItems(xs: seq<Val>, ys: seq<Val>, last: Val, i: nat)
    requires i <= |xs|
    ensures ItemsNodes(List(xs + [last]), i) <= ItemsNodes(List(xs + ys + [last]), i)
    ensures ItemsBytes(List(xs + [last]), i) <= ItemsBytes(List(xs + ys + [last]), i)
    decreases |xs| - i
  {
    var u, v := List(xs + [last]), List(xs + ys + [last]);
    if i < |xs| {
      assert u.items[i] == v.items[i];
      FewerItems(xs, ys, last, i + 1);
    } else {
      ItemCosts(v, i, |xs| + |ys|);
      LongerIndex(|xs|, |xs| + |ys|);
      assert ItemsNodes(u, i + 1) == 0 && ItemsBytes(u, i + 1) == 0;
    }
  }

  lemma {:induction false} SumMonotone(keys: seq<Text>, less: map<Text, nat>, more: map<Text, nat>)
    requires less.Keys == more.Keys && forall k <- less :: less[k] <= more[k]
    ensures Sum(keys, less) <= Sum(keys, more)
  {
    if keys != [] { SumMonotone(keys[1..], less, more); }
  }

  /** One field of a record made cheaper. */
  lemma CheaperField(u: Val, k: Text, v: Val)
    requires u.Record? && k in u.fields && Nodes(v) <= Nodes(u.fields[k]) && Bytes(v) <= Bytes(u.fields[k])
    ensures Nodes(Record(u.fields[k := v])) <= Nodes(u) && Bytes(Record(u.fields[k := v])) <= Bytes(u)
  {
    hide Nodes, Bytes, Sum, Sorted, Utf8Length;
    var w := Record(u.fields[k := v]);
    assert w.fields.Keys == u.fields.Keys;
    RecordCosts(u);
    RecordCosts(w);
    SumMonotone(Sorted(u.fields.Keys), FieldNodes(w), FieldNodes(u));
    SumMonotone(Sorted(u.fields.Keys), FieldBytes(w), FieldBytes(u));
  }

  lemma ListCosts(u: Val)
    requires u.List?
    ensures Nodes(u) == 1 + ItemsNodes(u, 0) && Bytes(u) == ItemsBytes(u, 0)
  {}

  /** A state that is small enough stays so when changes before the last are taken out. */
  lemma FewerChanges(d: DesignState, xs: seq<Change>, ys: seq<Change>, last: Change)
    requires d.changes == xs + ys + [last] && Portable(StateValue(d))
    ensures Portable(StateValue(d.(changes := xs + [last])))
  {
    hide ChangeValue, Shaped, Nodes, Bytes, ItemsNodes, ItemsBytes;
    var u, v, w := StateValue(d), ChangeValues(xs + [last]), ChangeValues(d.changes);
    var less, more := ChangeValues(xs).items, ChangeValues(ys).items;
    assert v.items == less + [ChangeValue(last)] && w.items == less + more + [ChangeValue(last)];
    FewerItems(less, more, ChangeValue(last), 0);
    ListCosts(v);
    ListCosts(w);
    CheaperField(u, CHANGES, v);
    assert StateValue(d.(changes := xs + [last])).fields == u.fields[CHANGES := v];
    FewerShaped(u, less, more, ChangeValue(last));
  }

  lemma FewerShaped(u: Val, xs: seq<Val>, ys: seq<Val>, last: Val)
    requires u.Record? && CHANGES in u.fields && u.fields[CHANGES] == List(xs + ys + [last]) && Shaped(u, 0)
    ensures Shaped(Record(u.fields[CHANGES := List(xs + [last])]), 0)
  {
    var w := u.fields[CHANGES := List(xs + [last])];
    assert w.Keys == u.fields.Keys;
    assert |w| == |w.Keys| && |u.fields| == |u.fields.Keys|;
    assert forall item <- xs + [last] :: item in xs + ys + [last];
    assert Shaped(u.fields[CHANGES], 1);
  }

  // ---------- Small values ----------

  /** At most nine parts at each place, and texts of at most twenty-four units. */
  predicate Small(t: Val, height: nat)
    decreases t
  {
    match t
    case Str(s) => |s| <= 24
    case List(items) => height > 0 && |items| <= 9 && forall item <- items :: Small(item, height - 1)
    case Record(fields) =>
      height > 0 && |fields| <= 9 && forall k <- fields :: |k| <= 24 && Small(fields[k], height - 1)
    case _ => true
  }

  function ByteBound(height: nat): nat { if height == 0 then 72 else 9 * (72 + ByteBound(height - 1)) }

  function NodeBound(height: nat): nat { if height == 0 then 0 else 1 + 9 * NodeBound(height - 1) }

  lemma {:induction false} ShortText(s: Text)
    ensures Utf8Length(s) <= 3 * |s|
    decreases |s|
  {
    if s == [] {
    } else if StartsWithPair(s) {
      ShortText(s[2..]);
    } else {
      ShortText(s[1..]);
    }
  }

  lemma {:induction false} SumAtMost(keys: seq<Text>, cost: map<Text, nat>, bound: nat)
    requires forall k <- cost :: cost[k] <= bound
    ensures Sum(keys, cost) <= |keys| * bound
  {
    if keys != [] { SumAtMost(keys[1..], cost, bound); }
  }

  lemma {:induction false} ItemsAtMost(u: Val, i: nat, nodes: nat, bytes: nat)
    requires u.List? && i <= |u.items| <= 9 && forall item <- u.items :: Nodes(item) <= nodes && Bytes(item) <= bytes
    ensures ItemsNodes(u, i) <= (|u.items| - i) * nodes && ItemsBytes(u, i) <= (|u.items| - i) * (2 + bytes)
    decreases |u.items| - i
  {
    hide Nodes, Bytes;
    if i < |u.items| {
      assert u.items[i] in u.items && DecimalLength(i) <= 2;
      ItemsAtMost(u, i + 1, nodes, bytes);
      OneMore(|u.items| - i, nodes);
      OneMore(|u.items| - i, 2 + bytes);
    }
  }

  lemma OneMore(n: int, x: nat)
    ensures n * x == x + (n - 1) * x
  {}

  lemma AtMostNine(n: nat, x: nat)
    requires n <= 9
    ensures n * x <= 9 * x
  {}

  lemma {:induction false} SmallCosts(t: Val, height: nat)
    requires Small(t, height)
    ensures Nodes(t) <= NodeBound(height) && Bytes(t) <= ByteBound(height)
    decreases t
  {
    hide Utf8Length, Sum, Sorted, DecimalLength;
    match t
    case Str(s) =>
      ShortText(s);
      assert ByteBound(height) >= 72;
    case List(items) =>
      var nodes, bytes := NodeBound(height - 1), ByteBound(height - 1);
      forall item <- items ensures Nodes(item) <= nodes && Bytes(item) <= bytes { SmallCosts(item, height - 1); }
      hide Nodes, Bytes, Small;
      ListCosts(t);
      ItemsAtMost(t, 0, nodes, bytes);
      AtMostNine(|items|, nodes);
      AtMostNine(|items|, 2 + bytes);
    case Record(fields) =>
      forall k <- fields
        ensures FieldNodes(t)[k] <= NodeBound(height - 1) && FieldBytes(t)[k] <= 72 + ByteBound(height - 1)
      {
        SmallCosts(fields[k], height - 1);
        ShortText(k);
      }
      hide Nodes, Bytes, Small;
      RecordCosts(t);
      var keys := Sorted(fields.Keys);
      SumAtMost(keys, FieldNodes(t), NodeBound(height - 1));
      SumAtMost(keys, FieldBytes(t), 72 + ByteBound(height - 1));
      AtMostNine(|keys|, NodeBound(height - 1));
      AtMostNine(|keys|, 72 + ByteBound(height - 1));
    case _ =>
  }

  lemma {:induction false} SmallShaped(t: Val, height: nat, depth: nat)
    requires Small(t, height) && depth + height <= MAX_DEPTH
    ensures Shaped(t, depth)
    decreases t
  {
    match t
    case List(items) =>
      forall item <- items ensures Shaped(item, depth + 1) { SmallShaped(item, height - 1, depth + 1); }
    case Record(fields) =>
      forall k <- fields ensures Shaped(fields[k], depth + 1) { SmallShaped(fields[k], height - 1, depth + 1); }
    case _ =>
  }

  /** Small values of height five are within every budget. */
  lemma SmallPortable(t: Val)
    requires Small(t, 5)
    ensures Portable(t)
  {
    SmallCosts(t, 5);
    SmallShaped(t, 5, 0);
    assert NodeBound(3) == 91 && NodeBound(5) == 7381 && ByteBound(1) == 1296 && ByteBound(3) == 111456;
  }
}
