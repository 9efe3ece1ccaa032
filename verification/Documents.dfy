/** Plain data owned by the collaboration boundary, the structural diff, and applying a list of edits. */
module Documents {
  import opened Wrappers
  import opened Utf16
  import opened SortedKeys

  /** Owned plain data: objects are maps, numbers are opaque codes. `==` is `equalCollaborationValues`. */
  datatype Val =
    | Null
    | Bool(b: bool)
    | Num(n: int)
    | Str(s: Text)
    | List(items: seq<Val>)
    | Record(fields: map<Text, Val>)

  /** A place that may hold a value. */
  type Slot = Option<Val>

  type Path = seq<Text>

  /** Replace what stands at `path`: absent `before` is an addition, absent `after` a removal. */
  datatype Edit = Edit(path: Path, before: Slot, after: Slot)

  function Get(m: map<Text, Val>, k: Text): Slot { if k in m then Some(m[k]) else None }

  function Put(m: map<Text, Val>, k: Text, slot: Slot): map<Text, Val>
  {
    if slot.Some? then m[k := slot.value] else m - {k}
  }

  function Under(k: Text, edits: seq<Edit>): (r: seq<Edit>)
    ensures |r| == |edits|
    ensures forall i :: 0 <= i < |edits| ==> r[i] == Edit([k] + edits[i].path, edits[i].before, edits[i].after)
  {
    if edits == [] then [] else [Edit([k] + edits[0].path, edits[0].before, edits[0].after)] + Under(k, edits[1..])
  }

  // ---------- Diff ----------

  /** `diffValue` on two present values. */
  ghost function Diff(left: Val, right: Val): seq<Edit>
    decreases left, 2
  {
    if left == right then []
    else if left.Record? && right.Record? then DiffKeys(left, right, Sorted(left.fields.Keys + right.fields.Keys))
    else [Edit([], Some(left), Some(right))]
  }

  /** The loop of `diffValue` over the keys still to come. */
  ghost function DiffKeys(left: Val, right: Val, keys: seq<Text>): seq<Edit>
    requires left.Record? && right.Record?
    decreases left, 1, |keys|
  {
    if keys == [] then []
    else Under(keys[0], DiffMember(left, right, keys[0])) + DiffKeys(left, right, keys[1..])
  }

  ghost function DiffMember(left: Val, right: Val, k: Text): seq<Edit>
    requires left.Record? && right.Record?
    decreases left, 0
  {
    var a, b := Get(left.fields, k), Get(right.fields, k);
    if k in left.fields && k in right.fields then Diff(left.fields[k], right.fields[k])
    else if a == b then []
    else [Edit([], a, b)]
  }

  ghost function DiffSlot(a: Slot, b: Slot): seq<Edit>
  {
    if a.Some? && b.Some? then Diff(a.value, b.value) else if a == b then [] else [Edit([], a, b)]
  }

  lemma MemberIsSlot(left: Val, right: Val, k: Text)
    requires left.Record? && right.Record?
    ensures DiffMember(left, right, k) == DiffSlot(Get(left.fields, k), Get(right.fields, k))
  {
  }

  // ---------- Applying edits ----------

  /** What `slot` becomes when the place at `path` becomes `after`; None when there is no such place. */
  function SetAt(slot: Slot, path: Path, after: Slot): Option<Slot>
    decreases |path|
  {
    if path == [] then Some(after)
    else if slot.Some? && slot.value.Record? then
      var r := SetAt(Get(slot.value.fields, path[0]), path[1..], after);
      if r.Some? then Some(Some(Record(Put(slot.value.fields, path[0], r.value)))) else None
    else None
  }

  function Apply(slot: Slot, edits: seq<Edit>): Option<Slot>
    decreases |edits|
  {
    if edits == [] then Some(slot)
    else
      var r := SetAt(slot, edits[0].path, edits[0].after);
      if r.Some? then Apply(r.value, edits[1..]) else None
  }

  function Lookup(slot: Slot, path: Path): Slot
    decreases |path|
  {
    if path == [] then slot
    else if slot.Some? && slot.value.Record? then Lookup(Get(slot.value.fields, path[0]), path[1..])
    else None
  }

  predicate Overlap(p: Path, q: Path) { p <= q || q <= p }

  lemma {:induction false} ApplyConcat(slot: Slot, a: seq<Edit>, b: seq<Edit>)
    ensures Apply(slot, a + b) == if Apply(slot, a).Some? then Apply(Apply(slot, a).value, b) else None
    decreases |a|
  {
    if a == [] {
      assert a + b == b;
    } else {
      assert (a + b)[1..] == a[1..] + b;
      var r := SetAt(slot, a[0].path, a[0].after);
      if r.Some? { ApplyConcat(r.value, a[1..], b); }
    }
  }

  lemma PutGet(m: map<Text, Val>, k: Text)
    ensures Put(m, k, Get(m, k)) == m
  {
  }

  lemma PutPut(m: map<Text, Val>, k: Text, a: Slot, b: Slot)
    ensures Put(Put(m, k, a), k, b) == Put(m, k, b) && Get(Put(m, k, a), k) == a
  {
  }

  lemma PutElsewhere(m: map<Text, Val>, k: Text, a: Slot, j: Text)
    requires j != k
    ensures Get(Put(m, k, a), j) == Get(m, j)
  {
  }

  /** Edits under one key act on that key's place alone. */
  lemma {:induction false} ApplyUnder(m: map<Text, Val>, k: Text, edits: seq<Edit>)
    ensures var r := Apply(Get(m, k), edits);
            Apply(Some(Record(m)), Under(k, edits)) ==
              if r.Some? then Some(Some(Record(Put(m, k, r.value)))) else None
    decreases |edits|
  {
    if edits == [] {
      PutGet(m, k);
    } else {
      var e := edits[0];
      assert ([k] + e.path)[1..] == e.path;
      assert Under(k, edits)[1..] == Under(k, edits[1..]);
      var r := SetAt(Get(m, k), e.path, e.after);
      if r.Some? {
        var next := Put(m, k, r.value);
        assert SetAt(Some(Record(m)), [k] + e.path, e.after) == Some(Some(Record(next)));
        ApplyUnder(next, k, edits[1..]);
        PutPut(m, k, r.value, None);
        forall x: Slot { PutPut(m, k, r.value, x); }
      }
    }
  }

  /** One key of a keyed diff, then the rest. */
  lemma ApplyKey(m: map<Text, Val>, left: Val, right: Val, keys: seq<Text>)
    requires left.Record? && right.Record? && keys != []
    ensures var a := Apply(Get(m, keys[0]), DiffMember(left, right, keys[0]));
            Apply(Some(Record(m)), DiffKeys(left, right, keys)) ==
              if a.Some? then Apply(Some(Record(Put(m, keys[0], a.value))), DiffKeys(left, right, keys[1..])) else None
  {
    var here := DiffMember(left, right, keys[0]);
    ApplyUnder(m, keys[0], here);
    ApplyConcat(Some(Record(m)), Under(keys[0], here), DiffKeys(left, right, keys[1..]));
  }

  ghost predicate KeysApply(m: map<Text, Val>, left: Val, right: Val, keys: seq<Text>)
    requires left.Record? && right.Record?
  {
    forall k <- keys :: Apply(Get(m, k), DiffMember(left, right, k)).Some?
  }

  /** `r` is what a keyed diff makes of `m`, seen key by key. */
  ghost predicate KeysGive(m: map<Text, Val>, left: Val, right: Val, keys: seq<Text>, r: map<Text, Val>)
    requires left.Record? && right.Record?
  {
    && (forall k <- keys :: Apply(Get(m, k), DiffMember(left, right, k)) == Some(Get(r, k)))
    && forall k: Text :: k !in keys ==> Get(r, k) == Get(m, k)
  }

  lemma KeysStep(m: map<Text, Val>, left: Val, right: Val, k: Text, rest: seq<Text>, a: Slot)
    requires left.Record? && right.Record? && k !in rest
    requires Apply(Get(m, k), DiffMember(left, right, k)) == Some(a)
    ensures KeysApply(m, left, right, [k] + rest) <==> KeysApply(Put(m, k, a), left, right, rest)
    ensures forall r :: KeysGive(Put(m, k, a), left, right, rest, r) ==> KeysGive(m, left, right, [k] + rest, r)
  {
    hide DiffMember, Apply;
    var next := Put(m, k, a);
    forall j: Text | j != k ensures Get(next, j) == Get(m, j) { PutElsewhere(m, k, a, j); }
    assert Get(next, k) == a;
    forall r | KeysGive(next, left, right, rest, r) ensures KeysGive(m, left, right, [k] + rest, r) {
      assert Get(r, k) == a;
      forall j <- [k] + rest ensures Apply(Get(m, j), DiffMember(left, right, j)) == Some(Get(r, j)) {
        if j != k { assert j in rest; }
      }
    }
    if KeysApply(next, left, right, rest) {
      forall j <- [k] + rest ensures Apply(Get(m, j), DiffMember(left, right, j)).Some? {
        if j != k { assert j in rest; }
      }
    }
    if KeysApply(m, left, right, [k] + rest) {
      forall j <- rest ensures Apply(Get(next, j), DiffMember(left, right, j)).Some? { assert j in [k] + rest; }
    }
  }

  /** What applying the diff of `left` and `right` over `keys` does to a record `m`, key by key. */
  lemma {:induction false} ApplyKeys(m: map<Text, Val>, left: Val, right: Val, keys: seq<Text>)
    returns (r: map<Text, Val>)
    requires left.Record? && right.Record? && Ascending(keys)
    ensures if KeysApply(m, left, right, keys)
            then Apply(Some(Record(m)), DiffKeys(left, right, keys)) == Some(Some(Record(r)))
                 && KeysGive(m, left, right, keys, r)
            else Apply(Some(Record(m)), DiffKeys(left, right, keys)) == None
    decreases |keys|
  {
    r := m;
    if keys != [] {
      var k, rest := keys[0], keys[1..];
      ApplyKey(m, left, right, keys);
      Distinct(keys);
      assert keys == [k] + rest && k !in rest;
      var a := Apply(Get(m, k), DiffMember(left, right, k));
      if a.Some? {
        r := ApplyKeys(Put(m, k, a.value), left, right, rest);
        KeysStep(m, left, right, k, rest, a.value);
      } else {
        assert k in keys;
      }
    }
  }

  lemma SameRecord(a: map<Text, Val>, b: map<Text, Val>)
    requires forall k: Text :: Get(a, k) == Get(b, k)
    ensures a == b
  {
    forall k: Text ensures k in a <==> k in b { assert Get(a, k) == Get(b, k); }
    forall k: Text | k in a ensures a[k] == b[k] { assert Get(a, k) == Get(b, k); }
  }

  /** A record whose keys were all given is the right one. */
  lemma GivenEverywhere(left: Val, right: Val, keys: seq<Text>, r: map<Text, Val>)
    requires left.Record? && right.Record? && keys == Sorted(left.fields.Keys + right.fields.Keys)
    requires forall k <- keys :: Get(r, k) == Get(right.fields, k)
    requires forall k :: k !in keys ==> Get(r, k) == Get(left.fields, k)
    ensures r == right.fields
  {
    var members := set x <- keys;
    assert members == left.fields.Keys + right.fields.Keys;
    forall k: Text ensures Get(r, k) == Get(right.fields, k) {
      assert k in keys <==> k in members;
    }
    SameRecord(r, right.fields);
  }

  /** Applying a diff to its left side gives its right side. */
  lemma {:induction false} DiffThenApply(left: Val, right: Val)
    ensures Apply(Some(left), Diff(left, right)) == Some(Some(right))
    decreases left, 1
  {
    if left != right && left.Record? && right.Record? {
      hide Apply, Diff, Sorted;
      var keys := Sorted(left.fields.Keys + right.fields.Keys);
      forall k <- keys
        ensures Apply(Get(left.fields, k), DiffMember(left, right, k)) == Some(Get(right.fields, k))
      {
        MemberThenApply(left, right, k);
      }
      RecordThenApply(left, right, keys);
    }
  }

  lemma {:induction false} MemberThenApply(left: Val, right: Val, k: Text)
    requires left.Record? && right.Record?
    ensures Apply(Get(left.fields, k), DiffMember(left, right, k)) == Some(Get(right.fields, k))
    decreases left, 0
  {
    if k in left.fields && k in right.fields {
      assert left.fields[k] < Record(left.fields);
      DiffThenApply(left.fields[k], right.fields[k]);
    }
  }

  lemma RecordThenApply(left: Val, right: Val, keys: seq<Text>)
    requires left.Record? && right.Record? && left != right && keys == Sorted(left.fields.Keys + right.fields.Keys)
    requires forall k <- keys :: Apply(Get(left.fields, k), DiffMember(left, right, k)) == Some(Get(right.fields, k))
    ensures Apply(Some(left), Diff(left, right)) == Some(Some(right))
  {
    assert Diff(left, right) == DiffKeys(left, right, keys);
    hide Diff, Apply, DiffMember, DiffKeys, Sorted;
    var r := ApplyKeys(left.fields, left, right, keys);
    GivenEverywhere(left, right, keys, r);
  }

  lemma DiffSlotThenApply(a: Slot, b: Slot)
    ensures Apply(a, DiffSlot(a, b)) == Some(b)
  {
    if a.Some? && b.Some? { DiffThenApply(a.value, b.value); }
  }

  /** The diff is empty exactly when there is nothing to change. */
  lemma DiffEmpty(left: Val, right: Val)
    ensures Diff(left, right) == [] <==> left == right
  {
    DiffThenApply(left, right);
  }

  // ---------- Paths of a diff ----------

  lemma UnderMembers(k: Text, edits: seq<Edit>, e: Edit)
    ensures e in Under(k, edits) <==> e.path != [] && e.path[0] == k && Edit(e.path[1..], e.before, e.after) in edits
  {
    if e in Under(k, edits) {
      var i :| 0 <= i < |edits| && Under(k, edits)[i] == e;
      assert e.path[1..] == edits[i].path;
    }
    if e.path != [] && e.path[0] == k && Edit(e.path[1..], e.before, e.after) in edits {
      var i :| 0 <= i < |edits| && edits[i] == Edit(e.path[1..], e.before, e.after);
      assert [k] + e.path[1..] == e.path;
      assert Under(k, edits)[i] == e;
    }
  }

  /** An edit of a keyed diff is an edit of one member's diff, under its key. */
  lemma {:induction false} KeysMembers(left: Val, right: Val, keys: seq<Text>, e: Edit)
    requires left.Record? && right.Record?
    ensures e in DiffKeys(left, right, keys) <==>
            e.path != [] && e.path[0] in keys
            && Edit(e.path[1..], e.before, e.after) in DiffMember(left, right, e.path[0])
    decreases |keys|
  {
    if keys != [] {
      UnderMembers(keys[0], DiffMember(left, right, keys[0]), e);
      KeysMembers(left, right, keys[1..], e);
    }
  }

  predicate Separate(edits: seq<Edit>)
  {
    forall i, j :: 0 <= i < j < |edits| ==> !Overlap(edits[i].path, edits[j].path)
  }

  lemma OverlapUnder(p: Path, q: Path)
    requires p != [] && q != []
    ensures Overlap(p, q) <==> p[0] == q[0] && Overlap(p[1..], q[1..])
  {
    if p[0] == q[0] {
      assert p == [p[0]] + p[1..] && q == [q[0]] + q[1..];
      PrefixCons(p, q); PrefixCons(q, p);
    }
  }

  lemma PrefixCons(p: Path, q: Path)
    requires p != [] && q != [] && p[0] == q[0]
    ensures p <= q <==> p[1..] <= q[1..]
  {
    if p[1..] <= q[1..] {
      assert forall i :: 1 <= i < |p| ==> p[i] == p[1..][i - 1] == q[1..][i - 1] == q[i];
    }
  }

  /** The paths of a diff are pairwise non-overlapping. */
  lemma {:induction false} DiffSeparate(left: Val, right: Val)
    ensures Separate(Diff(left, right))
    decreases left, 1
  {
    if left != right && left.Record? && right.Record? {
      KeysSeparate(left, right, Sorted(left.fields.Keys + right.fields.Keys));
    }
  }

  lemma {:induction false} KeysSeparate(left: Val, right: Val, keys: seq<Text>)
    requires left.Record? && right.Record? && Ascending(keys)
    ensures Separate(DiffKeys(left, right, keys))
    decreases left, 0, |keys|
  {
    if keys != [] {
      var k, rest := keys[0], keys[1..];
      var here := DiffMember(left, right, k);
      if k in left.fields && k in right.fields { DiffSeparate(left.fields[k], right.fields[k]); }
      KeysSeparate(left, right, rest);
      Distinct(keys);
      var a, b := Under(k, here), DiffKeys(left, right, rest);
      var all := a + b;
      forall i, j | 0 <= i < j < |all| ensures !Overlap(all[i].path, all[j].path) {
        if j < |a| {
          OverlapUnder(a[i].path, a[j].path);
          assert a[i].path[1..] == here[i].path && a[j].path[1..] == here[j].path;
        } else if i < |a| {
          KeysMembers(left, right, rest, b[j - |a|]);
          OverlapUnder(a[i].path, b[j - |a|].path);
        }
      }
    }
  }
}
