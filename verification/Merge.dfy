/** The three-way merge law: when applying two diffs of one base to each other's results agrees. */
module Merge {
  import opened Wrappers
  import opened Utf16
  import opened SortedKeys
  import opened Documents

  /** Overlapping edits stand at the same path and leave the same value. */
  ghost predicate Compatible(ours: seq<Edit>, theirs: seq<Edit>)
  {
    forall a, b :: a in ours && b in theirs && Overlap(a.path, b.path) ==> a.path == b.path && a.after == b.after
  }

  /** Both orders apply, to one result: the base's other diff put on top of each side. */
  ghost predicate Commute(b: Slot, t: Slot, s: Slot)
  {
    Apply(t, DiffSlot(b, s)).Some? && Apply(t, DiffSlot(b, s)) == Apply(s, DiffSlot(b, t))
  }

  /** Both sides descend into one record, so the edits are those of the members. */
  predicate Descends(b: Slot, t: Slot) { b.Some? && t.Some? && b.value.Record? && t.value.Record? }

  lemma RootEdit(b: Slot, t: Slot)
    requires b != t && !Descends(b, t)
    ensures DiffSlot(b, t) == [Edit([], b, t)]
  {
  }

  lemma {:induction false} NestedEdits(b: Slot, t: Slot)
    requires b != t && Descends(b, t)
    ensures DiffSlot(b, t) != [] && DiffSlot(b, t)[0].path != []
  {
    DiffEmpty(b.value, t.value);
    var keys := Sorted(b.value.fields.Keys + t.value.fields.Keys);
    KeysMembers(b.value, t.value, keys, DiffSlot(b, t)[0]);
  }

  /** A root edit against a nested one: never compatible, and the nested one has no place to apply. */
  lemma RootAgainstNested(b: Slot, t: Slot, s: Slot)
    requires b != t && b != s && !Descends(b, t) && Descends(b, s)
    ensures !Compatible(DiffSlot(b, t), DiffSlot(b, s)) && !Compatible(DiffSlot(b, s), DiffSlot(b, t))
    ensures Apply(t, DiffSlot(b, s)) == None
  {
    RootEdit(b, t);
    NestedEdits(b, s);
    var root, nested := DiffSlot(b, t)[0], DiffSlot(b, s)[0];
    assert root in DiffSlot(b, t) && nested in DiffSlot(b, s) && Overlap(root.path, nested.path);
  }

  function Field(v: Slot, k: Text): Slot { if v.Some? && v.value.Record? then Get(v.value.fields, k) else None }

  /** A nested diff's edits, told apart by their first key. */
  lemma SlotMembers(b: Slot, t: Slot, e: Edit)
    requires Descends(b, t) && b != t
    ensures e in DiffSlot(b, t) <==>
            e.path != [] && Edit(e.path[1..], e.before, e.after) in DiffSlot(Field(b, e.path[0]), Field(t, e.path[0]))
  {
    var keys := Sorted(b.value.fields.Keys + t.value.fields.Keys);
    KeysMembers(b.value, t.value, keys, e);
    if e.path != [] {
      MemberIsSlot(b.value, t.value, e.path[0]);
      assert e.path[0] in keys <==> e.path[0] in (set x <- keys);
    }
  }

  ghost predicate CompatibleAt(b: Slot, t: Slot, s: Slot, k: Text)
  {
    Compatible(DiffSlot(Field(b, k), Field(t, k)), DiffSlot(Field(b, k), Field(s, k)))
  }

  lemma CompatibleDown(b: Slot, t: Slot, s: Slot, k: Text)
    requires b != t && b != s && Descends(b, t) && Descends(b, s)
    requires Compatible(DiffSlot(b, t), DiffSlot(b, s))
    ensures CompatibleAt(b, t, s, k)
  {
    hide DiffSlot;
    forall x, y | x in DiffSlot(Field(b, k), Field(t, k)) && y in DiffSlot(Field(b, k), Field(s, k))
      && Overlap(x.path, y.path)
      ensures x.path == y.path && x.after == y.after
    {
      var x', y' := Edit([k] + x.path, x.before, x.after), Edit([k] + y.path, y.before, y.after);
      assert x'.path[1..] == x.path && y'.path[1..] == y.path;
      SlotMembers(b, t, x'); SlotMembers(b, s, y');
      OverlapUnder(x'.path, y'.path);
    }
  }

  lemma CompatibleUp(b: Slot, t: Slot, s: Slot)
    requires b != t && b != s && Descends(b, t) && Descends(b, s)
    requires forall k :: CompatibleAt(b, t, s, k)
    ensures Compatible(DiffSlot(b, t), DiffSlot(b, s))
  {
    hide DiffSlot;
    forall x, y | x in DiffSlot(b, t) && y in DiffSlot(b, s) && Overlap(x.path, y.path)
      ensures x.path == y.path && x.after == y.after
    {
      SlotMembers(b, t, x); SlotMembers(b, s, y);
      OverlapUnder(x.path, y.path);
      var k := x.path[0];
      assert CompatibleAt(b, t, s, k);
      var x', y' := Edit(x.path[1..], x.before, x.after), Edit(y.path[1..], y.before, y.after);
      assert x.path == [k] + x'.path && y.path == [k] + y'.path;
    }
  }

  /** Applying a nested diff to a record, seen at every key. */
  lemma ApplyNested(b: Slot, s: Slot, t: Slot) returns (r: Slot)
    requires b != s && Descends(b, s) && Descends(b, t)
    ensures if forall k :: Apply(Field(t, k), DiffSlot(Field(b, k), Field(s, k))).Some?
            then Apply(t, DiffSlot(b, s)) == Some(r) && r.Some? && r.value.Record?
                 && forall k :: Apply(Field(t, k), DiffSlot(Field(b, k), Field(s, k))) == Some(Field(r, k))
            else Apply(t, DiffSlot(b, s)) == None
  {
    var keys := Sorted(b.value.fields.Keys + s.value.fields.Keys);
    var m := ApplyKeys(t.value.fields, b.value, s.value, keys);
    r := Some(Record(m));
    forall k: Text
      ensures DiffMember(b.value, s.value, k) == DiffSlot(Field(b, k), Field(s, k))
      ensures k !in keys ==> DiffSlot(Field(b, k), Field(s, k)) == []
    {
      MemberIsSlot(b.value, s.value, k);
      assert k in keys <==> k in (set x <- keys);
    }
    assert DiffSlot(b, s) == DiffKeys(b.value, s.value, keys);
    hide Diff, DiffSlot, DiffMember, DiffKeys, Sorted;
    if KeysApply(t.value.fields, b.value, s.value, keys) {
      forall k: Text ensures Apply(Field(t, k), DiffSlot(Field(b, k), Field(s, k))) == Some(Field(r, k)) {
        if k in keys { assert Apply(Get(t.value.fields, k), DiffMember(b.value, s.value, k)).Some?; }
      }
    } else {
      var k :| k in keys && !Apply(Get(t.value.fields, k), DiffMember(b.value, s.value, k)).Some?;
      assert !Apply(Field(t, k), DiffSlot(Field(b, k), Field(s, k))).Some?;
    }
  }

  lemma CommuteByKey(b: Slot, t: Slot, s: Slot)
    requires b != t && b != s && Descends(b, t) && Descends(b, s)
    ensures Commute(b, t, s) <==> forall k :: Commute(Field(b, k), Field(t, k), Field(s, k))
  {
    var x := ApplyNested(b, s, t);
    var y := ApplyNested(b, t, s);
    if forall k :: Commute(Field(b, k), Field(t, k), Field(s, k)) {
      forall k: Text ensures Apply(Field(t, k), DiffSlot(Field(b, k), Field(s, k))).Some?
                     ensures Apply(Field(s, k), DiffSlot(Field(b, k), Field(t, k))).Some?
                     ensures Apply(Field(t, k), DiffSlot(Field(b, k), Field(s, k)))
                             == Apply(Field(s, k), DiffSlot(Field(b, k), Field(t, k)))
      {
        assert Commute(Field(b, k), Field(t, k), Field(s, k));
      }
      forall k: Text ensures Get(x.value.fields, k) == Get(y.value.fields, k) {
        assert Some(Field(x, k)) == Some(Field(y, k));
      }
      SameRecord(x.value.fields, y.value.fields);
    }
    if Commute(b, t, s) {
      forall k: Text ensures Commute(Field(b, k), Field(t, k), Field(s, k)) {
        assert Apply(Field(t, k), DiffSlot(Field(b, k), Field(s, k))) == Some(Field(x, k));
        assert Apply(Field(s, k), DiffSlot(Field(b, k), Field(t, k))) == Some(Field(y, k));
      }
    }
  }

  /** The law where one side has no change, or both replace the whole place. */
  lemma CommuteShallow(b: Slot, t: Slot, s: Slot)
    requires b == t || b == s || !Descends(b, t) || !Descends(b, s)
    ensures Commute(b, t, s) <==> Compatible(DiffSlot(b, t), DiffSlot(b, s))
  {
    DiffSlotThenApply(b, t);
    DiffSlotThenApply(b, s);
    if b == t || b == s {
      assert DiffSlot(b, b) == [];
    } else if !Descends(b, t) && Descends(b, s) {
      RootAgainstNested(b, t, s);
    } else if Descends(b, t) && !Descends(b, s) {
      RootAgainstNested(b, s, t);
    } else {
      RootEdit(b, t);
      RootEdit(b, s);
      var x, y := Edit([], b, t), Edit([], b, s);
      assert x in DiffSlot(b, t) && y in DiffSlot(b, s);
    }
  }

  /** The merge law, both ways and for every base and pair of successors: the two diffs apply on top of each
    * other with one result exactly when every overlap is at one path and leaves one value. */
  lemma {:induction false} MergeLaw(b: Val, t: Slot, s: Slot)
    ensures Commute(Some(b), t, s) <==> Compatible(DiffSlot(Some(b), t), DiffSlot(Some(b), s))
    decreases b
  {
    var base := Some(b);
    if base == t || base == s || !Descends(base, t) || !Descends(base, s) {
      CommuteShallow(base, t, s);
    } else {
      forall k: Text
        ensures Commute(Field(base, k), Field(t, k), Field(s, k)) <==>
                CompatibleAt(base, t, s, k)
      {
        if k in b.fields {
          MergeLaw(b.fields[k], Field(t, k), Field(s, k));
        } else {
          CommuteShallow(None, Field(t, k), Field(s, k));
        }
      }
      if Compatible(DiffSlot(base, t), DiffSlot(base, s)) {
        forall k { CompatibleDown(base, t, s, k); }
      }
      if forall k :: CompatibleAt(base, t, s, k) { CompatibleUp(base, t, s); }
      CommuteByKey(base, t, s);
    }
  }

  // ---------- Where the merged document's values come from ----------

  lemma {:induction false} LookupSet(slot: Slot, p: Path, after: Slot, q: Path)
    requires SetAt(slot, p, after).Some?
    ensures Lookup(SetAt(slot, p, after).value, p) == after
    ensures !Overlap(p, q) ==> Lookup(SetAt(slot, p, after).value, q) == Lookup(slot, q)
    decreases |p|
  {
    if p != [] {
      var m := slot.value.fields;
      var r := SetAt(Get(m, p[0]), p[1..], after).value;
      LookupSet(Get(m, p[0]), p[1..], after, if q != [] && q[0] == p[0] then q[1..] else []);
      PutPut(m, p[0], r, None);
      if q != [] {
        OverlapUnder(p, q);
        if q[0] != p[0] { PutElsewhere(m, p[0], r, q[0]); }
      }
    }
  }

  /** Pairwise separate edits each leave their value, and leave every other separate path alone. */
  lemma {:induction false} LookupApply(slot: Slot, edits: seq<Edit>, q: Path)
    requires Apply(slot, edits).Some? && Separate(edits)
    ensures forall e <- edits :: Lookup(Apply(slot, edits).value, e.path) == e.after
    ensures (forall e <- edits :: !Overlap(e.path, q)) ==> Lookup(Apply(slot, edits).value, q) == Lookup(slot, q)
    decreases |edits|
  {
    if edits != [] {
      var e, rest := edits[0], edits[1..];
      var next := SetAt(slot, e.path, e.after).value;
      LookupSet(slot, e.path, e.after, q);
      LookupApply(next, rest, q);
      LookupApply(next, rest, e.path);
      forall x <- rest ensures !Overlap(x.path, e.path) {
        var i :| 0 <= i < |rest| && rest[i] == x;
        assert edits[i + 1] == x;
        assert !Overlap(edits[0].path, edits[i + 1].path);
      }
      forall x <- edits ensures Lookup(Apply(slot, edits).value, x.path) == x.after {
        assert x == e || x in rest;
      }
    }
  }
}
