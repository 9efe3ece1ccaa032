/** What a host may rely on when it applies a diff or a merge plan. */
module MergePlans {
  import opened Wrappers
  import opened Utf16
  import opened SortedKeys
  import opened Documents
  import opened Merge
  import opened Pointers
  import opened History

  /** Applying pointer-addressed changes in order; None when a pointer is malformed or names no place. */
  function ApplyChanges(doc: Slot, changes: seq<Change>): Option<Slot>
    decreases |changes|
  {
    if changes == [] then Some(doc)
    else
      var path := ParsePointer(changes[0].path);
      var next := if path.Some? then SetAt(doc, path.value, changes[0].after) else None;
      if next.Some? then ApplyChanges(next.value, changes[1..]) else None
  }

  lemma {:induction false} ApplyRendered(doc: Slot, edits: seq<Edit>)
    ensures ApplyChanges(doc, RenderAll([], edits)) == Apply(doc, edits)
    decreases |edits|
  {
    if edits != [] {
      var e := edits[0];
      PointerRoundTrip(e.path);
      assert [] + e.path == e.path;
      assert RenderAll([], edits)[1..] == RenderAll([], edits[1..]);
      var next := SetAt(doc, e.path, e.after);
      if next.Some? { ApplyRendered(next.value, edits[1..]); }
    }
  }

  /** Applying the diff of two contents to the first gives the second; it is empty exactly when they are equal;
    * and no two of its pointers overlap. */
  lemma DiffLaws(left: Val, right: Val)
    ensures ApplyChanges(Some(left), Changes(left, right)) == Some(Some(right))
    ensures Changes(left, right) == [] <==> left == right
    ensures forall i, j :: 0 <= i < j < |Changes(left, right)| ==>
              !PathsOverlap(Changes(left, right)[i].path, Changes(left, right)[j].path)
  {
    hide Diff, PathsOverlap, Pointer, Apply, ApplyChanges, Overlap;
    ApplyRendered(Some(left), Diff(left, right));
    DiffThenApply(left, right);
    DiffEmpty(left, right);
    DiffSeparate(left, right);
    var edits := Diff(left, right);
    forall i, j | 0 <= i < j < |edits|
      ensures !PathsOverlap(Changes(left, right)[i].path, Changes(left, right)[j].path)
    {
      assert [] + edits[i].path == edits[i].path && [] + edits[j].path == edits[j].path;
      OverlapIsPrefix(edits[i].path, edits[j].path);
    }
  }

  lemma {:induction false} ChosenMembers(target: seq<Change>, source: seq<Change>, keep: bool)
    ensures forall c :: c in Choose(target, source, keep) <==> c in source && Retained(target, c) == keep
  {
    hide Retained;
    if source != [] {
      ChosenMembers(target, source[1..], keep);
      assert source == [source[0]] + source[1..];
    }
  }

  lemma {:induction false} ChosenSum(target: seq<Change>, source: seq<Change>)
    ensures multiset(Choose(target, source, true)) + multiset(Choose(target, source, false)) == multiset(source)
  {
    hide Retained;
    if source != [] {
      ChosenSum(target, source[1..]);
      assert source == [source[0]] + source[1..];
    }
  }

  /** `small` is `big` with some members left out. */
  predicate Subsequence(small: seq<Change>, big: seq<Change>)
  {
    small == [] || (big != [] && if small[0] == big[0] then Subsequence(small[1..], big[1..])
                                 else Subsequence(small, big[1..]))
  }

  lemma {:induction false} SubsequenceTail(small: seq<Change>, big: seq<Change>)
    requires small != [] && Subsequence(small, big)
    ensures Subsequence(small[1..], big)
  {
    var rest := small[1..];
    if small[0] == big[0] {
      if rest != [] && rest[0] == big[0] { SubsequenceTail(rest, big[1..]); }
    } else {
      SubsequenceTail(small, big[1..]);
      if rest != [] && rest[0] == big[0] { SubsequenceTail(rest, big[1..]); }
    }
  }

  lemma {:induction false} ChosenInOrder(target: seq<Change>, source: seq<Change>, keep: bool)
    ensures Subsequence(Choose(target, source, keep), source)
  {
    hide Retained;
    if source != [] {
      var rest := Choose(target, source[1..], keep);
      ChosenInOrder(target, source[1..], keep);
      if Retained(target, source[0]) == keep {
        assert ([source[0]] + rest)[1..] == rest;
      } else {
        assert Choose(target, source, keep) == [] + rest == rest;
        if rest != [] && rest[0] == source[0] { SubsequenceTail(rest, source[1..]); }
      }
    }
  }

  /** Kept changes and reported sources split the source diff: nothing lost, nothing in both, nothing reordered. */
  lemma PlanSplits(target: seq<Change>, source: seq<Change>)
    ensures multiset(Choose(target, source, true)) + multiset(Choose(target, source, false)) == multiset(source)
    ensures Subsequence(Choose(target, source, true), source) && Subsequence(Choose(target, source, false), source)
    ensures forall c :: c in Choose(target, source, true) <==> c in source && Retained(target, c)
    ensures forall c :: c in Choose(target, source, false) <==> c in source && !Retained(target, c)
    ensures Choose(target, source, false) == [] <==> Choose(target, source, true) == source
  {
    hide Retained, Subsequence;
    ChosenSum(target, source);
    ChosenInOrder(target, source, true);
    ChosenInOrder(target, source, false);
    ChosenMembers(target, source, true);
    ChosenMembers(target, source, false);
    ChooseAll(target, source);
  }

  lemma {:induction false} ChooseAll(target: seq<Change>, source: seq<Change>)
    ensures Choose(target, source, false) == [] <==> Choose(target, source, true) == source
  {
    hide Retained;
    if source != [] {
      var first, rest := source[0], source[1..];
      var kept, lost := Choose(target, rest, true), Choose(target, rest, false);
      ChooseAll(target, rest);
      ChooseLength(target, rest);
      assert source == [first] + rest && [] + kept == kept && [] + lost == lost;
      if Retained(target, first) {
        assert Choose(target, source, true) == [first] + kept && Choose(target, source, false) == lost;
        assert ([first] + kept)[1..] == kept && ([first] + rest)[1..] == rest;
      } else {
        assert Choose(target, source, true) == kept && |kept| < |source|;
      }
    }
  }

  lemma {:induction false} ChooseLength(target: seq<Change>, source: seq<Change>)
    ensures |Choose(target, source, true)| + |Choose(target, source, false)| == |source|
  {
    if source != [] { ChooseLength(target, source[1..]); }
  }

  /** Every overlap between the two diffs is at one and the same pointer. */
  ghost predicate OverlapsCoincide(ours: seq<Change>, theirs: seq<Change>)
  {
    forall a, b :: a in ours && b in theirs && PathsOverlap(a.path, b.path) ==> a.path == b.path
  }

  lemma RenderedPair(a: Edit, b: Edit)
    ensures PathsOverlap(Render([], a).path, Render([], b).path) <==> Overlap(a.path, b.path)
    ensures Render([], a).path == Render([], b).path <==> a.path == b.path
  {
    assert [] + a.path == a.path && [] + b.path == b.path;
    OverlapIsPrefix(a.path, b.path);
    PointerRoundTrip(a.path);
    PointerRoundTrip(b.path);
  }

  lemma Rendered(edits: seq<Edit>, c: Change)
    requires c in RenderAll([], edits)
    ensures exists e :: e in edits && Render([], e) == c
  {
    var i :| 0 <= i < |edits| && RenderAll([], edits)[i] == c;
    assert edits[i] in edits;
  }

  lemma InRendered(edits: seq<Edit>, e: Edit)
    requires e in edits
    ensures Render([], e) in RenderAll([], edits)
  {
    var i :| 0 <= i < |edits| && edits[i] == e;
    assert RenderAll([], edits)[i] == Render([], e);
  }

  /** Two changes of one diff at one pointer are the same change. */
  lemma OnePointerOneChange(left: Val, right: Val, a: Change, b: Change)
    requires a in Changes(left, right) && b in Changes(left, right) && a.path == b.path
    ensures a == b
  {
    DiffLaws(left, right);
  }

  /** Without conflicts, a coinciding overlap leaves the same on both sides. */
  lemma CoincidingAgree(base: Val, target: Val, source: Val, a: Edit, b: Edit)
    requires a in Diff(base, target) && b in Diff(base, source) && Overlap(a.path, b.path)
    requires var ours, theirs := Changes(base, target), Changes(base, source);
             Choose(ours, theirs, false) == [] && OverlapsCoincide(ours, theirs)
    ensures a.path == b.path && a.after == b.after
  {
    hide Diff, PathsOverlap, Pointer, Overlap;
    var ours, theirs := Changes(base, target), Changes(base, source);
    InRendered(Diff(base, target), a); InRendered(Diff(base, source), b);
    RenderedPair(a, b);
    var ca, cb := Render([], a), Render([], b);
    PlanSplits(ours, theirs);
    assert Retained(ours, cb);
    var hit := FirstOverlap(ours, cb.path).value;
    assert hit.path == cb.path == ca.path;
    OnePointerOneChange(base, target, hit, ca);
  }

  lemma CompatibleCoincides(base: Val, target: Val, source: Val, ca: Change, cb: Change)
    requires Compatible(Diff(base, target), Diff(base, source))
    requires ca in Changes(base, target) && cb in Changes(base, source) && PathsOverlap(ca.path, cb.path)
    ensures ca.path == cb.path
  {
    hide Diff, PathsOverlap, Pointer, Overlap;
    Rendered(Diff(base, target), ca); Rendered(Diff(base, source), cb);
    var a :| a in Diff(base, target) && Render([], a) == ca;
    var b :| b in Diff(base, source) && Render([], b) == cb;
    RenderedPair(a, b);
  }

  lemma AllCoincidingAgree(base: Val, target: Val, source: Val)
    requires Choose(Changes(base, target), Changes(base, source), false) == []
    requires OverlapsCoincide(Changes(base, target), Changes(base, source))
    ensures Compatible(Diff(base, target), Diff(base, source))
  {
    hide Diff, PathsOverlap, Overlap, Changes, Choose, OverlapsCoincide;
    forall a, b | a in Diff(base, target) && b in Diff(base, source) && Overlap(a.path, b.path)
      ensures a.path == b.path && a.after == b.after
    {
      CoincidingAgree(base, target, source, a, b);
    }
  }

  lemma AllCompatibleCoincide(base: Val, target: Val, source: Val)
    requires Compatible(Diff(base, target), Diff(base, source))
    ensures OverlapsCoincide(Changes(base, target), Changes(base, source))
  {
    hide Diff, PathsOverlap, Overlap, Changes, Compatible;
    forall ca, cb | ca in Changes(base, target) && cb in Changes(base, source) && PathsOverlap(ca.path, cb.path)
      ensures ca.path == cb.path
    {
      CompatibleCoincides(base, target, source, ca, cb);
    }
  }

  /** Without conflicts, coinciding overlaps also agree on what they leave. */
  lemma CoincideIsCompatible(base: Val, target: Val, source: Val)
    requires Choose(Changes(base, target), Changes(base, source), false) == []
    ensures OverlapsCoincide(Changes(base, target), Changes(base, source)) <==>
            Compatible(Diff(base, target), Diff(base, source))
  {
    hide Diff, Changes, Choose, OverlapsCoincide, Compatible;
    if OverlapsCoincide(Changes(base, target), Changes(base, source)) { AllCoincidingAgree(base, target, source); }
    if Compatible(Diff(base, target), Diff(base, source)) { AllCompatibleCoincide(base, target, source); }
  }

  /** The plan's law. When it reports no conflict it keeps the whole source diff, and the kept changes apply to
    * the target, to the same document as the target's changes applied to the source, exactly when every
    * overlap is at one pointer. The source only looks at the first overlap and at `after`, so it does not
    * check this itself. */
  lemma PlanLaw(base: Val, target: Val, source: Val)
    requires Choose(Changes(base, target), Changes(base, source), false) == []
    ensures var ours, theirs := Changes(base, target), Changes(base, source);
            var kept := Choose(ours, theirs, true);
            && kept == theirs
            && (ApplyChanges(Some(target), kept).Some?
                && ApplyChanges(Some(target), kept) == ApplyChanges(Some(source), ours)
                <==> OverlapsCoincide(ours, theirs))
  {
    PlanSplits(Changes(base, target), Changes(base, source));
    ApplyRendered(Some(target), Diff(base, source));
    ApplyRendered(Some(source), Diff(base, target));
    MergeLaw(base, Some(target), Some(source));
    CoincideIsCompatible(base, target, source);
  }

  /** And then the merged document has the source's value at every pointer the source changed, and the target's
    * value at every path apart from those. */
  lemma PlanValues(base: Val, target: Val, source: Val, apart: Path)
    requires var ours, theirs := Changes(base, target), Changes(base, source);
             Choose(ours, theirs, false) == [] && OverlapsCoincide(ours, theirs)
    ensures var kept := Choose(Changes(base, target), Changes(base, source), true);
            && ApplyChanges(Some(target), kept).Some?
            && var merged := ApplyChanges(Some(target), kept).value;
               && (forall e <- Diff(base, source) :: Lookup(merged, e.path) == e.after == Lookup(Some(source), e.path))
               && ((forall e <- Diff(base, source) :: !Overlap(e.path, apart)) ==>
                     Lookup(merged, apart) == Lookup(Some(target), apart))
  {
    PlanLaw(base, target, source);
    ApplyRendered(Some(target), Diff(base, source));
    DiffSeparate(base, source);
    LookupApply(Some(target), Diff(base, source), apart);
    DiffThenApply(base, source);
    LookupApply(Some(base), Diff(base, source), apart);
  }

  lemma OverlapSymmetric(p: Text, q: Text)
    ensures PathsOverlap(p, q) == PathsOverlap(q, p)
  {
  }

  /** Within one diff only a change itself overlaps it. */
  lemma OverlappingIsSame(left: Val, right: Val, a: Change, b: Change)
    requires a in Changes(left, right) && b in Changes(left, right) && PathsOverlap(a.path, b.path)
    ensures a == b
  {
    hide Diff, PathsOverlap, Changes;
    DiffLaws(left, right);
    OverlapSymmetric(a.path, b.path);
    var i :| 0 <= i < |Changes(left, right)| && Changes(left, right)[i] == a;
    var j :| 0 <= j < |Changes(left, right)| && Changes(left, right)[j] == b;
    assert i < j || i == j || j < i;
  }

  /** Two removals of one place are a conflict, because absent values are not equal. */
  lemma RemovalsConflict(base: Val, target: Val, source: Val, a: Change, b: Change)
    requires a in Changes(base, target) && b in Changes(base, source) && a.path == b.path && a.after.None?
    ensures !Retained(Changes(base, target), b) && b in Choose(Changes(base, target), Changes(base, source), false)
  {
    hide Diff, Choose, Changes;
    var hit := FirstOverlap(Changes(base, target), b.path);
    assert PathsOverlap(a.path, b.path);
    assert hit.Some?;
    OverlappingIsSame(base, target, hit.value, a);
    PlanSplits(Changes(base, target), Changes(base, source));
  }

  const A: Text := [0x61]
  const B: Text := [0x62]

  /** Records that differ under one key alone. */
  lemma SingleKey(k: Text, left: Val, right: Val)
    requires left != right
    ensures Diff(Record(map[k := left]), Record(map[k := right])) == Under(k, Diff(left, right))
  {
    var l, r := Record(map[k := left]), Record(map[k := right]);
    assert l.fields[k] != r.fields[k];
    var keys := [k];
    SortedUnique(keys);
    assert l.fields.Keys + r.fields.Keys == (set x <- keys);
    assert Diff(l, r) == DiffKeys(l, r, keys);
    assert keys[1..] == [];
    assert DiffMember(l, r, k) == Diff(left, right);
  }

  lemma SingleEdit(k: Text, e: Edit)
    ensures Under(k, [e]) == [Edit([k] + e.path, e.before, e.after)]
  {
  }

  /** A plan without conflicts that does not apply: base {a:{b:1}}, target {a:5}, source {a:{b:5}}. */
  lemma ToleratedOverlapFails()
    ensures var base, target, source :=
              Record(map[A := Record(map[B := Num(1)])]), Record(map[A := Num(5)]),
                Record(map[A := Record(map[B := Num(5)])]);
            var ours, theirs := Changes(base, target), Changes(base, source);
            && Choose(ours, theirs, false) == []
            && ApplyChanges(Some(target), Choose(ours, theirs, true)) == None
  {
    var one, five := Record(map[B := Num(1)]), Record(map[B := Num(5)]);
    var base, target, source := Record(map[A := one]), Record(map[A := Num(5)]), Record(map[A := five]);
    assert one.fields[B] != five.fields[B];
    SingleKey(A, one, Num(5));
    SingleKey(A, one, five);
    SingleKey(B, Num(1), Num(5));
    var a, b := Edit([A], Some(one), Some(Num(5))), Edit([A, B], Some(Num(1)), Some(Num(5)));
    SingleEdit(A, Edit([], Some(one), Some(Num(5))));
    SingleEdit(B, Edit([], Some(Num(1)), Some(Num(5))));
    SingleEdit(A, Edit([B], Some(Num(1)), Some(Num(5))));
    KeyPaths();
    NoPlaceFor(b);
    hide Diff, SetAt, Under;
    ToleratedPair(base, target, source, a, b);
  }

  lemma KeyPaths()
    ensures [A] + [] == [A] && [B] + [] == [B] && [A] + [B] == [A, B]
  {}

  lemma NoPlaceFor(b: Edit)
    requires b.path == [A, B]
    ensures SetAt(Some(Record(map[A := Num(5)])), b.path, b.after) == None
  {
    assert b.path[1..] == [B];
  }

  lemma ToleratedPair(base: Val, target: Val, source: Val, a: Edit, b: Edit)
    requires Diff(base, target) == [a] && Diff(base, source) == [b]
    requires EqualAfter(a.after, b.after) && SetAt(Some(target), b.path, b.after) == None
    ensures var ours, theirs := Changes(base, target), Changes(base, source);
            Choose(ours, theirs, false) == [] && ApplyChanges(Some(target), Choose(ours, theirs, true)) == None
  {
    var ours, theirs := Changes(base, target), Changes(base, source);
    var c := Render([], b);
    assert ours == [Render([], a)] && theirs == [c];
    assert forall hit :: hit in ours ==> EqualAfter(hit.after, c.after);
    assert Retained(ours, c);
    assert theirs[1..] == [] && Choose(ours, [], false) == [];
    PlanSplits(ours, theirs);
    ApplyRendered(Some(target), [b]);
  }
}
