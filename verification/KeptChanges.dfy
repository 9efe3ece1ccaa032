/** Plans with conflicts: the changes a plan keeps are themselves a diff, so its law holds for them. */
module KeptChanges {
  import opened Wrappers
  import opened Utf16
  import opened SortedKeys
  import opened Documents
  import opened Pointers
  import opened History
  import opened MergePlans

  // ---------- Part of a diff is a diff ----------

  /** The edits whose places, seen from the document's root, are wanted. */
  ghost function Select(edits: seq<Edit>, keep: Path -> bool, prefix: Path): seq<Edit>
  {
    if edits == [] then []
    else (if keep(prefix + edits[0].path) then [edits[0]] else []) + Select(edits[1..], keep, prefix)
  }

  /** `left`, changed to `right` only at the wanted places. */
  ghost function Partly(left: Val, right: Val, keep: Path -> bool, prefix: Path): Val
    decreases left, 1
  {
    if left == right then left
    else if left.Record? && right.Record? then Record(PartlyFields(left, right, keep, prefix))
    else if keep(prefix) then right else left
  }

  ghost function PartlyFields(left: Val, right: Val, keep: Path -> bool, prefix: Path): map<Text, Val>
    requires left.Record? && right.Record?
    decreases left, 0
  {
    map k | k in left.fields.Keys + right.fields.Keys
            && (if k in left.fields && k in right.fields then true else (k in right.fields) == keep(prefix + [k])) ::
      if k in left.fields && k in right.fields then Partly(left.fields[k], right.fields[k], keep, prefix + [k])
      else if k in left.fields then left.fields[k] else right.fields[k]
  }

  lemma {:induction false} SelectConcat(a: seq<Edit>, b: seq<Edit>, keep: Path -> bool, prefix: Path)
    ensures Select(a + b, keep, prefix) == Select(a, keep, prefix) + Select(b, keep, prefix)
  {
    if a == [] {
      assert a + b == b;
    } else {
      assert (a + b)[1..] == a[1..] + b;
      SelectConcat(a[1..], b, keep, prefix);
      SelectStep(a, keep, prefix);
      SelectStep(a + b, keep, prefix);
      hide Select;
      Regroup(if keep(prefix + a[0].path) then [a[0]] else [], Select(a[1..], keep, prefix), Select(b, keep, prefix));
    }
  }

  lemma SelectStep(a: seq<Edit>, keep: Path -> bool, prefix: Path)
    requires a != []
    ensures Select(a, keep, prefix) == (if keep(prefix + a[0].path) then [a[0]] else []) + Select(a[1..], keep, prefix)
  {}

  lemma Regroup(a: seq<Edit>, b: seq<Edit>, c: seq<Edit>)
    ensures a + (b + c) == (a + b) + c
  {}

  lemma {:induction false} SelectUnder(k: Text, edits: seq<Edit>, keep: Path -> bool, prefix: Path)
    ensures Select(Under(k, edits), keep, prefix) == Under(k, Select(edits, keep, prefix + [k]))
  {
    if edits != [] {
      SelectUnder(k, edits[1..], keep, prefix);
      assert prefix + ([k] + edits[0].path) == prefix + [k] + edits[0].path;
      var rest := Select(edits[1..], keep, prefix + [k]);
      assert ([edits[0]] + rest)[1..] == rest && [] + rest == rest;
    }
  }

  lemma SelectOne(e: Edit, keep: Path -> bool, prefix: Path)
    ensures Select([e], keep, prefix) == if keep(prefix + e.path) then [e] else []
  {
    assert [e][1..] == [];
  }

  ghost function Only(keys: seq<Text>, s: set<Text>): (r: seq<Text>)
    ensures forall k :: k in r <==> k in keys && k in s
  {
    if keys == [] then [] else (if keys[0] in s then [keys[0]] else []) + Only(keys[1..], s)
  }

  lemma {:induction false} OnlyAscending(keys: seq<Text>, s: set<Text>)
    requires Ascending(keys)
    ensures Ascending(Only(keys, s))
  {
    if keys != [] {
      OnlyAscending(keys[1..], s);
      var rest := Only(keys[1..], s);
      forall j | 0 <= j < |rest| ensures Less(keys[0], rest[j]) {
        assert rest[j] in rest;
        var i :| 0 <= i < |keys[1..]| && keys[1..][i] == rest[j];
        assert keys[i + 1] == rest[j];
      }
    }
  }

  lemma OnlySorted(all: set<Text>, s: set<Text>)
    requires s <= all
    ensures Only(Sorted(all), s) == Sorted(s)
  {
    var keys, members := Sorted(all), set k <- Sorted(all);
    OnlyAscending(keys, s);
    SortedUnique(Only(keys, s));
    assert members == all && forall k :: k in keys <==> k in members;
    assert (set k <- Only(keys, s)) == s;
  }

  /** Keys that neither side has add nothing. */
  lemma {:induction false} IdleKeys(left: Val, right: Val, keys: seq<Text>)
    requires left.Record? && right.Record?
    ensures DiffKeys(left, right, keys) == DiffKeys(left, right, Only(keys, left.fields.Keys + right.fields.Keys))
  {
    if keys != [] {
      var s := left.fields.Keys + right.fields.Keys;
      var rest := Only(keys[1..], s);
      IdleKeys(left, right, keys[1..]);
      if keys[0] in s {
        assert ([keys[0]] + rest)[1..] == rest;
      } else {
        assert DiffMember(left, right, keys[0]) == [] && Under(keys[0], []) == [];
        assert [] + rest == rest && [] + DiffKeys(left, right, keys[1..]) == DiffKeys(left, right, keys[1..]);
      }
    }
  }

  /** Equal records differ in no key. */
  lemma {:induction false} EqualKeys(left: Val, keys: seq<Text>)
    requires left.Record?
    ensures DiffKeys(left, left, keys) == []
  {
    if keys != [] {
      EqualKeys(left, keys[1..]);
      assert DiffMember(left, left, keys[0]) == [];
    }
  }

  /** The diff to the partly changed value is the wanted part of the diff. */
  lemma {:induction false} PartlyDiff(left: Val, right: Val, keep: Path -> bool, prefix: Path)
    ensures Diff(left, Partly(left, right, keep, prefix)) == Select(Diff(left, right), keep, prefix)
    decreases left, 2
  {
    if left == right {
    } else if left.Record? && right.Record? {
      PartlyRecord(left, right, keep, prefix);
    } else {
      assert prefix + [] == prefix;
      SelectOne(Edit([], Some(left), Some(right)), keep, prefix);
    }
  }

  lemma {:induction false} PartlyRecord(left: Val, right: Val, keep: Path -> bool, prefix: Path)
    requires left.Record? && right.Record? && left != right
    ensures Diff(left, Partly(left, right, keep, prefix)) == Select(Diff(left, right), keep, prefix)
    decreases left, 1
  {
    hide Select, Sorted, Only;
    var part := Partly(left, right, keep, prefix);
    var all, some := left.fields.Keys + right.fields.Keys, left.fields.Keys + part.fields.Keys;
    PartlyKeys(left, right, keep, prefix, Sorted(all));
    IdleKeys(left, part, Sorted(all));
    OnlySorted(all, some);
    if left == part { EqualKeys(left, Sorted(some)); }
  }

  lemma {:induction false} PartlyKeys(left: Val, right: Val, keep: Path -> bool, prefix: Path, keys: seq<Text>)
    requires left.Record? && right.Record? && left != right
    ensures DiffKeys(left, Partly(left, right, keep, prefix), keys) == Select(DiffKeys(left, right, keys), keep, prefix)
    decreases left, 0, |keys|
  {
    if keys != [] {
      hide Select;
      var k, part := keys[0], Partly(left, right, keep, prefix);
      PartlyMember(left, right, keep, prefix, k);
      SelectUnder(k, DiffMember(left, right, k), keep, prefix);
      PartlyKeys(left, right, keep, prefix, keys[1..]);
      SelectConcat(Under(k, DiffMember(left, right, k)), DiffKeys(left, right, keys[1..]), keep, prefix);
    } else {
      assert Select([], keep, prefix) == [];
    }
  }

  lemma {:induction false} PartlyMember(left: Val, right: Val, keep: Path -> bool, prefix: Path, k: Text)
    requires left.Record? && right.Record? && left != right
    ensures DiffMember(left, Partly(left, right, keep, prefix), k)
            == Select(DiffMember(left, right, k), keep, prefix + [k])
    decreases left, 0, 0
  {
    var part := Partly(left, right, keep, prefix);
    assert part == Record(PartlyFields(left, right, keep, prefix));
    if k in left.fields && k in right.fields {
      assert k in PartlyFields(left, right, keep, prefix);
      assert left.fields[k] < Record(left.fields);
      PartlyDiff(left.fields[k], right.fields[k], keep, prefix + [k]);
      assert part.fields[k] == Partly(left.fields[k], right.fields[k], keep, prefix + [k]);
    } else {
      var a, b := Get(left.fields, k), Get(right.fields, k);
      if a != b {
        assert prefix + [k] + [] == prefix + [k];
        SelectOne(Edit([], a, b), keep, prefix + [k]);
      }
    }
  }

  // ---------- What a plan keeps ----------

  /** The place of a source change that the plan keeps. */
  ghost function Wanted(ours: seq<Change>, edits: seq<Edit>): Path -> bool
  {
    (p: Path) => exists e <- edits :: e.path == p && Retained(ours, Render([], e))
  }

  lemma WantedExactly(ours: seq<Change>, edits: seq<Edit>, e: Edit)
    requires Separate(edits) && e in edits
    ensures Wanted(ours, edits)([] + e.path) <==> Retained(ours, Render([], e))
  {
    assert [] + e.path == e.path;
    if x :| x in edits && x.path == e.path && Retained(ours, Render([], x)) {
      var i :| 0 <= i < |edits| && edits[i] == x;
      var j :| 0 <= j < |edits| && edits[j] == e;
      assert Overlap(x.path, e.path);
    }
  }

  lemma {:induction false} ChosenRendered(ours: seq<Change>, edits: seq<Edit>, keep: Path -> bool)
    requires forall e <- edits :: keep([] + e.path) <==> Retained(ours, Render([], e))
    ensures Choose(ours, RenderAll([], edits), true) == RenderAll([], Select(edits, keep, []))
  {
    hide Retained;
    if edits != [] {
      var e, rest := edits[0], Select(edits[1..], keep, []);
      assert e in edits && forall x <- edits[1..] :: x in edits;
      ChosenRendered(ours, edits[1..], keep);
      assert RenderAll([], edits)[1..] == RenderAll([], edits[1..]);
      RenderConcat([], [e], rest);
      assert RenderAll([], [e]) == [Render([], e)];
      assert [] + rest == rest;
    }
  }

  /** `base` with the kept changes only. */
  ghost function KeptSource(base: Val, target: Val, source: Val): Val
  {
    Partly(base, source, Wanted(Changes(base, target), Diff(base, source)), [])
  }

  /** What a plan keeps is the diff from the base to a document. */
  lemma KeptIsDiff(base: Val, target: Val, source: Val)
    ensures Choose(Changes(base, target), Changes(base, source), true)
            == Changes(base, KeptSource(base, target, source))
  {
    hide Diff, Retained, Select, Choose, Partly;
    var ours, edits := Changes(base, target), Diff(base, source);
    DiffSeparate(base, source);
    forall e <- edits ensures Wanted(ours, edits)([] + e.path) <==> Retained(ours, Render([], e)) {
      WantedExactly(ours, edits, e);
    }
    ChosenRendered(ours, edits, Wanted(ours, edits));
    PartlyDiff(base, source, Wanted(ours, edits), []);
  }

  lemma {:induction false} AllRetained(target: seq<Change>, source: seq<Change>)
    requires forall c <- source :: Retained(target, c)
    ensures Choose(target, source, false) == []
  {
    hide Retained;
    if source != [] {
      assert source[0] in source && forall c <- source[1..] :: c in source;
      AllRetained(target, source[1..]);
    }
  }

  /** Nothing that is kept is in conflict. */
  lemma KeptRetained(target: seq<Change>, source: seq<Change>)
    ensures Choose(target, Choose(target, source, true), false) == []
  {
    hide Retained, Choose, Subsequence;
    PlanSplits(target, source);
    AllRetained(target, Choose(target, source, true));
  }

  /** The plan's law with conflicts. The kept changes apply to the base, and give some document; they apply to the
    * target,
    * to the document that the target's changes make of that one, exactly when every overlap between the target's
    * changes and the kept ones is at one pointer. */
  lemma KeptLaw(base: Val, target: Val, source: Val)
    ensures var ours, kept := Changes(base, target), Choose(Changes(base, target), Changes(base, source), true);
            var partial := ApplyChanges(Some(base), kept);
            && partial.Some?
            && (ApplyChanges(Some(target), kept).Some?
                && ApplyChanges(Some(target), kept) == ApplyChanges(partial.value, ours)
                <==> OverlapsCoincide(ours, kept))
  {
    hide Diff, Changes, Choose, ApplyChanges, OverlapsCoincide, KeptSource;
    var ours, partial := Changes(base, target), KeptSource(base, target, source);
    KeptIsDiff(base, target, source);
    KeptRetained(ours, Changes(base, source));
    DiffLaws(base, partial);
    PlanLaw(base, target, partial);
  }

  /** And then the merged document has the source's value at every place that is kept, and the target's value at every
    * path apart from those. */
  lemma KeptValues(base: Val, target: Val, source: Val, apart: Path)
    requires var ours, theirs := Changes(base, target), Changes(base, source);
             OverlapsCoincide(ours, Choose(ours, theirs, true))
    ensures var ours := Changes(base, target);
            var kept := Choose(ours, Changes(base, source), true);
            && ApplyChanges(Some(target), kept).Some?
            && var merged := ApplyChanges(Some(target), kept).value;
               && (forall e <- Diff(base, source) :: Retained(ours, Render([], e))
                     ==> Lookup(merged, e.path) == e.after)
               && ((forall e <- Diff(base, source) :: Retained(ours, Render([], e)) ==> !Overlap(e.path, apart)) ==>
                     Lookup(merged, apart) == Lookup(Some(target), apart))
  {
    hide Diff, Choose, Retained, OverlapsCoincide, KeptSource, ApplyChanges, Overlap;
    var ours, theirs, partial := Changes(base, target), Changes(base, source), KeptSource(base, target, source);
    KeptIsDiff(base, target, source);
    KeptRetained(ours, theirs);
    PlanLaw(base, target, partial);
    PlanValues(base, target, partial, apart);
    KeptEdits(base, target, source);
  }

  /** The edits that are kept. */
  lemma KeptEdits(base: Val, target: Val, source: Val)
    ensures forall e :: e in Diff(base, KeptSource(base, target, source)) <==>
                        e in Diff(base, source) && Retained(Changes(base, target), Render([], e))
  {
    hide Diff, Retained, Partly, Changes;
    var ours, edits := Changes(base, target), Diff(base, source);
    DiffSeparate(base, source);
    PartlyDiff(base, source, Wanted(ours, edits), []);
    forall e <- edits ensures Wanted(ours, edits)([] + e.path) <==> Retained(ours, Render([], e)) {
      WantedExactly(ours, edits, e);
    }
    Selected(edits, Wanted(ours, edits), []);
  }

  lemma {:induction false} Selected(edits: seq<Edit>, keep: Path -> bool, prefix: Path)
    ensures forall e :: e in Select(edits, keep, prefix) <==> e in edits && keep(prefix + e.path)
  {
    if edits != [] {
      Selected(edits[1..], keep, prefix);
      assert edits == [edits[0]] + edits[1..];
    }
  }
}
