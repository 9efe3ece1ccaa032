/** Revision diffs and merge plans as lists of pointer-addressed changes. */
module History {
  import opened Wrappers
  import opened Utf16
  import opened SortedKeys
  import opened Documents
  import opened OwnedData
  import opened OwnedTrees
  import opened Pointers
  import opened InheritedNames

  datatype Kind = Add | Remove | Replace

  datatype Change = Change(kind: Kind, path: Text, before: Slot, after: Slot)

  /** A revision; `rest` is what the record carries besides the fields looked at here. */
  datatype Revision = Revision(id: Text, projectId: Text, content: Val, rest: map<Text, Val>)

  datatype RevisionDiff = RevisionDiff(fromRevisionId: Text, toRevisionId: Text, changes: seq<Change>)

  datatype Conflict = Conflict(path: Text, target: Change, source: Change)

  datatype MergePlan = MergePlan(
    baseRevisionId: Text, targetRevisionId: Text, sourceRevisionId: Text, changes: seq<Change>,
      conflicts: seq<Conflict>)

  function KindOf(e: Edit): Kind { if e.before.None? then Add else if e.after.None? then Remove else Replace }

  /** An edit below `prefix` as the change the source reports for it. */
  function Render(prefix: Path, e: Edit): Change { Change(KindOf(e), Pointer(prefix + e.path), e.before, e.after) }

  function RenderAll(prefix: Path, edits: seq<Edit>): (r: seq<Change>)
    ensures |r| == |edits| && forall i :: 0 <= i < |r| ==> r[i] == Render(prefix, edits[i])
  {
    if edits == [] then [] else [Render(prefix, edits[0])] + RenderAll(prefix, edits[1..])
  }

  lemma RenderUnder(prefix: Path, k: Text, edits: seq<Edit>)
    ensures RenderAll(prefix, Under(k, edits)) == RenderAll(prefix + [k], edits)
  {
    forall i | 0 <= i < |edits|
      ensures RenderAll(prefix, Under(k, edits))[i] == RenderAll(prefix + [k], edits)[i]
    {
      assert prefix + ([k] + edits[i].path) == prefix + [k] + edits[i].path;
    }
  }

  lemma RenderConcat(prefix: Path, a: seq<Edit>, b: seq<Edit>)
    ensures RenderAll(prefix, a + b) == RenderAll(prefix, a) + RenderAll(prefix, b)
  {
  }

  /** The changes of a content diff, in the order they are reported. */
  ghost function Changes(left: Val, right: Val): seq<Change> { RenderAll([], Diff(left, right)) }

  /** What `diffValue` pushes: `None` when it pushes something that the boundary cannot copy. */
  ghost function Pushed(left: Val, right: Val): Option<seq<Change>>
  {
    var walk := Walk(left, right);
    if walk.Some? then Some(RenderAll([], walk.value)) else None
  }

  /** Pushing the edits of a walk onto a list: refused exactly past the limit. A walk that meets something that cannot
    * be copied leaves the list marked, or is refused. */
  ghost predicate Pushes(before: seq<Change>, after: seq<Change>, was: bool, marked: bool, ok: bool, prefix: Path,
                         walk: Option<seq<Edit>>)
  {
    && |after| <= MAX_ITEMS && (was ==> marked)
    && match walk
       case None => !ok || marked
       case Some(edits) =>
         (ok <==> |before| + |edits| <= MAX_ITEMS)
         && (ok ==> after == before + RenderAll(prefix, edits) && marked == was)
  }

  /** The shared list that `diffValue` pushes into; it is marked `foreign` once it holds an inherited function or the
    * object that plain objects inherit from. */
  class ChangeList {
    var changes: seq<Change>
    var foreign: bool

    constructor ()
      ensures changes == [] && !foreign
    {
      changes, foreign := [], false;
    }

    /** `appendChange`: refuses the item past the maximum. */
    method Append(change: Change) returns (ok: bool)
      modifies this`changes
      ensures ok == (|old(changes)| < MAX_ITEMS)
      ensures changes == if ok then old(changes) + [change] else old(changes)
    {
      if |changes| >= MAX_ITEMS { return false; }
      changes := changes + [change];
      return true;
    }

    /** One edit at the place `path`. */
    method AppendEdit(e: Edit, path: Text, ghost prefix: Path) returns (ok: bool)
      requires path == Pointer(prefix) && |changes| <= MAX_ITEMS && e.path == []
      modifies this`changes
      ensures Pushes(old(changes), changes, old(foreign), foreign, ok, prefix, Some([e]))
    {
      assert prefix + [] == prefix;
      ok := Append(Change(KindOf(e), path, e.before, e.after));
    }

    /** A change that holds what cannot be copied. */
    method AppendForeign(path: Text, present: Val) returns (ok: bool)
      requires |changes| <= MAX_ITEMS
      modifies this
      ensures |changes| <= MAX_ITEMS && (old(foreign) ==> foreign) && (!ok || foreign)
    {
      ok := Append(Change(Replace, path, None, Some(present)));
      foreign := true;
    }

    /** `diffValue`; `prefix` is the path whose pointer text `path` is. */
    method DiffValue(left: Val, right: Val, path: Text, ghost prefix: Path) returns (ok: bool)
      requires path == Pointer(prefix) && |changes| <= MAX_ITEMS
      modifies this
      ensures Pushes(old(changes), changes, old(foreign), foreign, ok, prefix, Walk(left, right))
      decreases left, 2
    {
      if left == right { return true; }
      if left.Record? && right.Record? {
        var keys := SortKeys(left.fields.Keys + right.fields.Keys);
        ok := DiffFields(left, right, keys, path, prefix);
        return;
      }
      ok := AppendEdit(Edit([], Some(left), Some(right)), path, prefix);
    }

    /** The loop over the keys of two records. */
    method DiffFields(left: Val, right: Val, keys: seq<Text>, path: Text, ghost prefix: Path) returns (ok: bool)
      requires left.Record? && right.Record? && path == Pointer(prefix) && |changes| <= MAX_ITEMS
      requires (set k <- keys) == left.fields.Keys + right.fields.Keys
      modifies this
      ensures Pushes(old(changes), changes, old(foreign), foreign, ok, prefix, WalkKeys(left, right, keys))
      decreases left, 1
    {
      hide RenderAll, WalkKeys, WalkMember, Under;
      ghost var walk := WalkKeys(left, right, keys);
      var i := 0;
      KeysAtEnds(left, right, keys);
      while i < |keys|
        invariant 0 <= i <= |keys| && |changes| <= MAX_ITEMS && (old(foreign) ==> foreign)
        invariant walk.None? ==> foreign || WalkKeys(left, right, keys[i..]).None?
        invariant walk.Some?
                  ==> foreign == old(foreign)
                      && Ahead(old(changes), changes, prefix, walk, WalkKeys(left, right, keys[i..]))
      {
        WalkStep(left, right, keys, i);
        ghost var here, rest, sofar := WalkMember(left, right, keys[i]), WalkKeys(left, right, keys[i + 1..]), changes;
        ok := DiffKey(left, right, keys[i], path, prefix);
        if here.Some? && rest.Some? {
          AheadStep(old(changes), sofar, changes, prefix, walk, keys[i], here.value, rest.value);
        }
        if !ok { return; }
        i := i + 1;
      }
      return true;
    }

    /** One key of two records. */
    method DiffKey(left: Val, right: Val, key: Text, path: Text, ghost prefix: Path) returns (ok: bool)
      requires left.Record? && right.Record? && path == Pointer(prefix) && |changes| <= MAX_ITEMS
      requires key in left.fields || key in right.fields
      modifies this
      ensures Pushes(old(changes), changes, old(foreign), foreign, ok, prefix + [key], WalkMember(left, right, key))
      decreases left, 0
    {
      var next := path + [SLASH] + PointerToken(key);
      PointerAppend(prefix, key);
      ProtoIsNoMethod();
      hide METHODS, AgainstPrototype, RenderAll, Pointer, PointerToken;
      var onRight := key !in left.fields;
      if key in left.fields && key in right.fields {
        ok := DiffValue(left.fields[key], right.fields[key], next, prefix + [key]);
      } else {
        var present := if onRight then right.fields[key] else left.fields[key];
        if !Inherited(key) {
          ok := AppendEdit(OneSided(present, onRight), next, prefix + [key]);
        } else if key == PROTO {
          ok := DiffPrototype(present, onRight, next, prefix + [key]);
        } else {
          ok := AppendForeign(next, present);
        }
      }
    }

    /** `diffValue` with the object that plain objects inherit from on the other side. */
    method DiffPrototype(x: Val, onRight: bool, path: Text, ghost prefix: Path) returns (ok: bool)
      requires path == Pointer(prefix) && |changes| <= MAX_ITEMS
      modifies this
      ensures Pushes(old(changes), changes, old(foreign), foreign, ok, prefix, AgainstPrototype(x, onRight))
    {
      if !x.Record? {
        ok := AppendForeign(path, x);
        return;
      }
      var keys := SortKeys(x.fields.Keys);
      SortedIn(x);
      ok := PrototypeFields(x, onRight, keys, path, prefix);
    }

    method PrototypeFields(x: Val, onRight: bool, keys: seq<Text>, path: Text, ghost prefix: Path) returns (ok: bool)
      requires path == Pointer(prefix) && |changes| <= MAX_ITEMS && x.Record? && forall k <- keys :: k in x.fields
      modifies this
      ensures Pushes(old(changes), changes, old(foreign), foreign, ok, prefix, PrototypeKeys(x, onRight, keys))
    {
      hide RenderAll, PrototypeKeys, PrototypeMember, Under, Pointer;
      ghost var walk := PrototypeKeys(x, onRight, keys);
      var i := 0;
      PrototypeAtEnds(x, onRight, keys);
      while i < |keys|
        invariant 0 <= i <= |keys| && |changes| <= MAX_ITEMS && (old(foreign) ==> foreign)
        invariant forall k <- keys[i..] :: k in x.fields
        invariant walk.None? ==> foreign || PrototypeKeys(x, onRight, keys[i..]).None?
        invariant walk.Some?
                  ==> foreign == old(foreign)
                      && Ahead(old(changes), changes, prefix, walk, PrototypeKeys(x, onRight, keys[i..]))
      {
        PrototypeStep(x, onRight, keys, i);
        ghost var here, rest, sofar := PrototypeMember(keys[i], x.fields[keys[i]], onRight),
          PrototypeKeys(x, onRight, keys[i + 1..]), changes;
        ok := PrototypeKey(keys[i], x.fields[keys[i]], onRight, path, prefix);
        if here.Some? && rest.Some? {
          AheadStep(old(changes), sofar, changes, prefix, walk, keys[i], here.value, rest.value);
        }
        if !ok { return; }
        i := i + 1;
      }
      return true;
    }

    method PrototypeKey(key: Text, v: Val, onRight: bool, path: Text, ghost prefix: Path) returns (ok: bool)
      requires path == Pointer(prefix) && |changes| <= MAX_ITEMS
      modifies this
      ensures Pushes(old(changes), changes, old(foreign), foreign, ok, prefix + [key], PrototypeMember(key, v, onRight))
    {
      var next := path + [SLASH] + PointerToken(key);
      PointerAppend(prefix, key);
      hide METHODS, Pointer, PointerToken;
      if key in METHODS {
        ok := AppendForeign(next, v);
      } else if key != PROTO {
        ok := AppendEdit(OneSided(v, onRight), next, prefix + [key]);
      } else if v != Null {
        ok := AppendEdit(if onRight then Edit([], Some(Null), Some(v)) else Edit([], Some(v), Some(Null)), next,
                         prefix + [key]);
      } else {
        return true;
      }
    }
  }

  /** What is pushed so far, with what the rest of the walk will push, is all that is to be pushed. */
  ghost predicate Ahead(before: seq<Change>, now: seq<Change>, prefix: Path, walk: Option<seq<Edit>>,
                        rest: Option<seq<Edit>>)
  {
    walk.Some? && rest.Some? && now + RenderAll(prefix, rest.value) == before + RenderAll(prefix, walk.value)
  }

  lemma AheadStep(before: seq<Change>, sofar: seq<Change>, now: seq<Change>, prefix: Path, walk: Option<seq<Edit>>,
                  k: Text,
                  here: seq<Edit>, rest: seq<Edit>)
    ensures Ahead(before, sofar, prefix, walk, Some(Under(k, here) + rest))
            && now == sofar + RenderAll(prefix + [k], here)
            ==> Ahead(before, now, prefix, walk, Some(rest))
    ensures Ahead(before, sofar, prefix, walk, Some(Under(k, here) + rest))
            ==> |sofar| + |here| <= |before| + |walk.value|
  {
    RenderConcat(prefix, Under(k, here), rest);
    RenderUnder(prefix, k, here);
    var a, b := RenderAll(prefix + [k], here), RenderAll(prefix, rest);
    assert sofar + (a + b) == sofar + a + b;
    if Ahead(before, sofar, prefix, walk, Some(Under(k, here) + rest)) {
      assert |sofar + (a + b)| == |before + RenderAll(prefix, walk.value)|;
    }
  }

  lemma KeysAtEnds(left: Val, right: Val, keys: seq<Text>)
    requires left.Record? && right.Record?
    ensures keys[0..] == keys && WalkKeys(left, right, keys[|keys|..]) == Some([])
  {}

  lemma WalkStep(left: Val, right: Val, keys: seq<Text>, i: nat)
    requires left.Record? && right.Record? && i < |keys| && (set k <- keys) == left.fields.Keys + right.fields.Keys
    ensures keys[i] in left.fields || keys[i] in right.fields
    ensures var here, rest := WalkMember(left, right, keys[i]), WalkKeys(left, right, keys[i + 1..]);
            WalkKeys(left, right, keys[i..]) == if here.None? || rest.None? then None
                                                else Some(Under(keys[i], here.value) + rest.value)
  {
    hide WalkMember;
    assert keys[i] in (set k <- keys);
    assert keys[i] in left.fields.Keys + right.fields.Keys;
    assert keys[i..][1..] == keys[i + 1..];
  }

  lemma PrototypeAtEnds(x: Val, onRight: bool, keys: seq<Text>)
    requires x.Record? && forall k <- keys :: k in x.fields
    ensures keys[0..] == keys && PrototypeKeys(x, onRight, keys[|keys|..]) == Some([])
  {}

  lemma PrototypeStep(x: Val, onRight: bool, keys: seq<Text>, i: nat)
    requires x.Record? && i < |keys| && forall k <- keys[i..] :: k in x.fields
    ensures keys[i] in x.fields && forall k <- keys[i + 1..] :: k in x.fields
    ensures var here, rest := PrototypeMember(keys[i], x.fields[keys[i]], onRight),
            PrototypeKeys(x, onRight, keys[i + 1..]);
            PrototypeKeys(x, onRight, keys[i..]) == if here.None? || rest.None? then None
                                                    else Some(Under(keys[i], here.value) + rest.value)
  {
    hide PrototypeMember;
    assert keys[i..][0] == keys[i] && keys[i..][1..] == keys[i + 1..];
    assert keys[i..][0] in keys[i..];
    forall k <- keys[i + 1..] ensures k in x.fields { assert k in keys[i..][1..]; }
  }

  // ---------- Revisions and results as values ----------

  const ID: Text := [0x69, 0x64]
  const PROJECT_ID: Text := [0x70, 0x72, 0x6F, 0x6A, 0x65, 0x63, 0x74, 0x49, 0x64]
  const CONTENT: Text := [0x63, 0x6F, 0x6E, 0x74, 0x65, 0x6E, 0x74]
  const FROM_ID: Text := [0x66, 0x72, 0x6F, 0x6D, 0x52, 0x65, 0x76, 0x69, 0x73, 0x69, 0x6F, 0x6E, 0x49, 0x64]
  const TO_ID: Text := [0x74, 0x6F, 0x52, 0x65, 0x76, 0x69, 0x73, 0x69, 0x6F, 0x6E, 0x49, 0x64]
  const BASE_ID: Text := [0x62, 0x61, 0x73, 0x65, 0x52, 0x65, 0x76, 0x69, 0x73, 0x69, 0x6F, 0x6E, 0x49, 0x64]
  const TARGET_ID: Text := [0x74, 0x61, 0x72, 0x67, 0x65, 0x74, 0x52, 0x65, 0x76, 0x69, 0x73, 0x69, 0x6F, 0x6E, 0x49,
                            0x64]
  const SOURCE_ID: Text := [0x73, 0x6F, 0x75, 0x72, 0x63, 0x65, 0x52, 0x65, 0x76, 0x69, 0x73, 0x69, 0x6F, 0x6E, 0x49,
                            0x64]
  const CHANGES: Text := [0x63, 0x68, 0x61, 0x6E, 0x67, 0x65, 0x73]
  const CONFLICTS: Text := [0x63, 0x6F, 0x6E, 0x66, 0x6C, 0x69, 0x63, 0x74, 0x73]
  const KIND: Text := [0x6B, 0x69, 0x6E, 0x64]
  const PATH: Text := [0x70, 0x61, 0x74, 0x68]
  const BEFORE: Text := [0x62, 0x65, 0x66, 0x6F, 0x72, 0x65]
  const AFTER: Text := [0x61, 0x66, 0x74, 0x65, 0x72]
  const TARGET: Text := [0x74, 0x61, 0x72, 0x67, 0x65, 0x74]
  const SOURCE: Text := [0x73, 0x6F, 0x75, 0x72, 0x63, 0x65]

  function AsValue(r: Revision): Val
  {
    Record(r.rest[ID := Str(r.id)][PROJECT_ID := Str(r.projectId)][CONTENT := r.content])
  }

  function KindText(kind: Kind): Text
  {
    match kind
    case Add => [0x61, 0x64, 0x64]
    case Remove => [0x72, 0x65, 0x6D, 0x6F, 0x76, 0x65]
    case Replace => [0x72, 0x65, 0x70, 0x6C, 0x61, 0x63, 0x65]
  }

  function ChangeValue(c: Change): Val
  {
    Record(Put(Put(map[KIND := Str(KindText(c.kind)), PATH := Str(c.path)], BEFORE, c.before), AFTER, c.after))
  }

  function ConflictValue(c: Conflict): Val
  {
    Record(map[PATH := Str(c.path), TARGET := ChangeValue(c.target), SOURCE := ChangeValue(c.source)])
  }

  function ChangeValues(changes: seq<Change>): Val
  {
    List(seq(|changes|, i requires 0 <= i < |changes| => ChangeValue(changes[i])))
  }

  function ConflictValues(conflicts: seq<Conflict>): Val
  {
    List(seq(|conflicts|, i requires 0 <= i < |conflicts| => ConflictValue(conflicts[i])))
  }

  function DiffValueOf(d: RevisionDiff): Val
  {
    Record(map[FROM_ID := Str(d.fromRevisionId), TO_ID := Str(d.toRevisionId), CHANGES := ChangeValues(d.changes)])
  }

  function PlanValueOf(p: MergePlan): Val
  {
    Record(map[BASE_ID := Str(p.baseRevisionId), TARGET_ID := Str(p.targetRevisionId),
               SOURCE_ID := Str(p.sourceRevisionId),
      CHANGES := ChangeValues(p.changes), CONFLICTS := ConflictValues(p.conflicts)])
  }

  // ---------- Copies of revisions and of results ----------

  /** The boundary copy of a revision, when there is one. */
  ghost function OwnedRevision(r: Revision): Option<Revision>
  {
    var copy := OwnedTree(AsValue(r));
    if copy.Some? then Some(Revision(r.id, r.projectId, Strip(r.content), copy.value.fields)) else None
  }

  lemma CopiedFields(r: Revision)
    requires OwnedTree(AsValue(r)).Some?
    ensures var copy := OwnedTree(AsValue(r)).value;
            && copy == Strip(AsValue(r)) && copy.Record? && ID in copy.fields && PROJECT_ID in copy.fields
            && CONTENT in copy.fields
            && copy.fields[ID] == Str(r.id) && copy.fields[PROJECT_ID] == Str(r.projectId)
            && copy.fields[CONTENT] == Strip(r.content)
  {
    hide Fits, NarrowTree;
    assert |ID| == 2 && |PROJECT_ID| == 9 && |CONTENT| == 7 && |LENGTH| == 6;
  }

  method OwnRevision(r: Revision) returns (copy: Option<Revision>)
    ensures copy == OwnedRevision(r)
  {
    hide OwnedTree, Strip, AsValue;
    var value := OwnTree(AsValue(r));
    if value.None? { return None; }
    CopiedFields(r);
    var fields := value.value.fields;
    copy := Some(Revision(fields[ID].s, fields[PROJECT_ID].s, fields[CONTENT], fields));
  }

  lemma AsValueOf(r: Revision)
    requires ID in r.rest && PROJECT_ID in r.rest && CONTENT in r.rest
    requires r.rest[ID] == Str(r.id) && r.rest[PROJECT_ID] == Str(r.projectId) && r.rest[CONTENT] == r.content
    ensures AsValue(r) == Record(r.rest)
  {
    assert AsValue(r).fields == r.rest;
  }

  /** A copied revision is copied as itself. */
  lemma OwnedRevisionTwice(r: Revision)
    requires OwnedRevision(r).Some?
    ensures OwnedRevision(OwnedRevision(r).value) == OwnedRevision(r)
  {
    hide OwnedTree, Strip, LengthFree, AsValue;
    var copy := OwnedRevision(r).value;
    OwnedTwice(AsValue(r));
    CopiedFields(r);
    AsValueOf(copy);
    StripIsLengthFree(r.content);
    StripKeeps(copy.content);
  }

  predicate PlainSlot(slot: Slot) { slot.Some? ==> LengthFree(slot.value) }

  predicate PlainEdits(edits: seq<Edit>) { forall e <- edits :: PlainSlot(e.before) && PlainSlot(e.after) }

  lemma PlainUnder(k: Text, edits: seq<Edit>)
    requires PlainEdits(edits)
    ensures PlainEdits(Under(k, edits))
  {
    var under := Under(k, edits);
    forall e <- under ensures PlainSlot(e.before) && PlainSlot(e.after) {
      var i :| 0 <= i < |under| && under[i] == e;
      assert edits[i] in edits;
    }
  }

  lemma PlainConcat(k: Text, here: seq<Edit>, rest: seq<Edit>)
    requires PlainEdits(here) && PlainEdits(rest)
    ensures PlainEdits(Under(k, here) + rest)
  {
    PlainUnder(k, here);
    hide PlainSlot;
  }

  lemma {:induction false} PlainPrototype(x: Val, onRight: bool, keys: seq<Text>)
    requires x.Record? && LengthFree(x) && forall k <- keys :: k in x.fields
    ensures PrototypeKeys(x, onRight, keys).Some? ==> PlainEdits(PrototypeKeys(x, onRight, keys).value)
  {
    if keys != [] {
      hide METHODS, Under, PlainEdits;
      PlainPrototype(x, onRight, keys[1..]);
      var here := PrototypeMember(keys[0], x.fields[keys[0]], onRight);
      if here.Some? {
        PlainMember(keys[0], x.fields[keys[0]], onRight);
        if PrototypeKeys(x, onRight, keys[1..]).Some? {
          PlainConcat(keys[0], here.value, PrototypeKeys(x, onRight, keys[1..]).value);
        }
      }
    }
  }

  lemma PlainMember(k: Text, v: Val, onRight: bool)
    requires LengthFree(v)
    ensures PrototypeMember(k, v, onRight).Some? ==> PlainEdits(PrototypeMember(k, v, onRight).value)
    ensures PlainEdits([OneSided(v, onRight)])
  {
    hide METHODS;
  }

  /** A walk reports parts of the two contents. */
  lemma {:induction false} PlainWalk(left: Val, right: Val)
    requires LengthFree(left) && LengthFree(right)
    ensures Walk(left, right).Some? ==> PlainEdits(Walk(left, right).value)
    decreases left, 1
  {
    if left != right && left.Record? && right.Record? {
      PlainKeys(left, right, Sorted(left.fields.Keys + right.fields.Keys));
    }
  }

  lemma {:induction false} PlainKeys(left: Val, right: Val, keys: seq<Text>)
    requires left.Record? && right.Record? && LengthFree(left) && LengthFree(right)
    ensures WalkKeys(left, right, keys).Some? ==> PlainEdits(WalkKeys(left, right, keys).value)
    decreases left, 0, |keys|
  {
    if keys != [] {
      hide Sorted, METHODS, Under, PlainEdits;
      var k := keys[0];
      var here, rest := WalkMember(left, right, k), WalkKeys(left, right, keys[1..]);
      if k in left.fields && k in right.fields {
        assert left.fields[k] < Record(left.fields);
        PlainWalk(left.fields[k], right.fields[k]);
      } else {
        PlainLacking(left, right, k);
      }
      PlainKeys(left, right, keys[1..]);
      if here.Some? && rest.Some? { PlainConcat(k, here.value, rest.value); }
    }
  }

  lemma PlainLacking(left: Val, right: Val, k: Text)
    requires left.Record? && right.Record? && LengthFree(left) && LengthFree(right)
             && !(k in left.fields && k in right.fields)
    ensures WalkMember(left, right, k).Some? ==> PlainEdits(WalkMember(left, right, k).value)
  {
    hide METHODS;
    if k in left.fields || k in right.fields {
      var v := if k in right.fields then right.fields[k] else left.fields[k];
      PlainMember(k, v, k in right.fields);
      if v.Record? {
        SortedIn(v);
        PlainPrototype(v, k in right.fields, Sorted(v.fields.Keys));
      }
    }
  }

  predicate PlainChanges(changes: seq<Change>) { forall c <- changes :: PlainSlot(c.before) && PlainSlot(c.after) }

  lemma PlainRendered(prefix: Path, edits: seq<Edit>)
    requires PlainEdits(edits)
    ensures PlainChanges(RenderAll(prefix, edits))
  {
    var all := RenderAll(prefix, edits);
    forall c <- all ensures PlainSlot(c.before) && PlainSlot(c.after) {
      var i :| 0 <= i < |all| && all[i] == c;
      assert edits[i] in edits;
    }
  }

  lemma PlainChange(c: Change)
    requires PlainSlot(c.before) && PlainSlot(c.after)
    ensures LengthFree(ChangeValue(c))
  {
  }

  lemma PlainList(changes: seq<Change>)
    requires PlainChanges(changes)
    ensures LengthFree(ChangeValues(changes))
  {
    hide LengthFree, PlainSlot;
    var items := ChangeValues(changes).items;
    forall item <- items ensures LengthFree(item) {
      var i :| 0 <= i < |items| && items[i] == item;
      assert changes[i] in changes;
      PlainChange(changes[i]);
    }
    PlainItems(items);
  }

  lemma PlainItems(items: seq<Val>)
    requires forall item <- items :: LengthFree(item)
    ensures LengthFree(List(items))
  {
  }

  lemma PlainDiffValue(d: RevisionDiff)
    requires PlainChanges(d.changes)
    ensures LengthFree(DiffValueOf(d))
  {
    PlainList(d.changes);
  }

  /** A result is returned exactly when it is within the budgets of the boundary itself. */
  lemma ResultOwned(u: Val)
    requires LengthFree(u)
    ensures OwnedTree(u) == if Fits(u) then Some(u) else None
  {
    hide Nodes, Bytes, ShapeFits, NarrowTree;
    StripKeeps(u);
    if Fits(u) { FitsIsNarrow(u, 0); }
  }

  datatype Outcome<+T> = Success(value: T) | Invalid

  /** The diff of two copied revisions, when all it holds can be copied. */
  ghost function DiffOf(from: Revision, to: Revision): Option<RevisionDiff>
  {
    var changes := Pushed(from.content, to.content);
    if changes.Some? then Some(RevisionDiff(from.id, to.id, changes.value)) else None
  }

  /** `diffRevisions`: both revisions are copied, and the result is; refused across projects and past any budget. */
  ghost function DiffOutcome(from: Revision, to: Revision): Outcome<RevisionDiff>
  {
    var a, b := OwnedRevision(from), OwnedRevision(to);
    if a.None? || b.None? || from.projectId != to.projectId then Invalid
    else
      var d := DiffOf(a.value, b.value);
      if d.Some? && Fits(DiffValueOf(d.value)) then Success(d.value) else Invalid
  }

  method DiffRevisions(from: Revision, to: Revision) returns (r: Outcome<RevisionDiff>)
    ensures r == DiffOutcome(from, to)
  {
    hide Fits, DiffValueOf, Walk, OwnedRevision, OwnedTree, RenderAll, LengthFree, Strip, PlainChanges;
    var a := OwnRevision(from);
    var b := OwnRevision(to);
    if a.None? || b.None? { return Invalid; }
    OwnedFields(from);
    OwnedFields(to);
    if a.value.projectId != b.value.projectId { return Invalid; }
    var list := new ChangeList();
    var ok := list.DiffValue(a.value.content, b.value.content, [], []);
    ghost var d := DiffOf(a.value, b.value);
    if !ok {
      if d.Some? { TooManyChanges(d.value); }
      return Invalid;
    }
    if d.Some? { DiffPlain(from, to); }
    r := CopyDiff(RevisionDiff(a.value.id, b.value.id, list.changes), list.foreign, d);
  }

  /** The copy of the result; an inherited function or object in it cannot be copied. */
  method CopyDiff(pushed: RevisionDiff, foreign: bool, ghost d: Option<RevisionDiff>) returns (r: Outcome<RevisionDiff>)
    requires d.None? ==> foreign
    requires d.Some? ==> !foreign && pushed == d.value && LengthFree(DiffValueOf(pushed))
    ensures r == if d.Some? && Fits(DiffValueOf(d.value)) then Success(d.value) else Invalid
  {
    hide Fits, DiffValueOf, LengthFree;
    if foreign { return Invalid; }
    ResultOwned(DiffValueOf(pushed));
    var result := OwnTree(DiffValueOf(pushed));
    return if result.Some? then Success(pushed) else Invalid;
  }

  lemma OwnedFields(r: Revision)
    requires OwnedRevision(r).Some?
    ensures var copy := OwnedRevision(r).value;
            copy.id == r.id && copy.projectId == r.projectId && copy.content == Strip(r.content)
    ensures LengthFree(OwnedRevision(r).value.content)
  {
    StripIsLengthFree(r.content);
  }

  lemma DiffPlain(from: Revision, to: Revision)
    requires OwnedRevision(from).Some? && OwnedRevision(to).Some?
    requires DiffOf(OwnedRevision(from).value, OwnedRevision(to).value).Some?
    ensures var d := DiffOf(OwnedRevision(from).value, OwnedRevision(to).value).value;
            PlainChanges(d.changes) && LengthFree(DiffValueOf(d))
  {
    hide LengthFree, OwnedRevision, DiffValueOf, Walk, PlainEdits, PlainChanges;
    OwnedFields(from);
    OwnedFields(to);
    var a, b := OwnedRevision(from).value, OwnedRevision(to).value;
    PlainWalk(a.content, b.content);
    PlainRendered([], Walk(a.content, b.content).value);
    PlainDiffValue(DiffOf(a, b).value);
  }

  lemma {:induction false} ManyItems(u: Val, i: nat)
    requires u.List? && i <= |u.items| && forall item <- u.items :: Nodes(item) >= 1
    ensures ItemsNodes(u, i) >= |u.items| - i
    decreases |u.items| - i
  {
    if i < |u.items| { ManyItems(u, i + 1); }
  }

  lemma ListedNodes(changes: seq<Change>)
    ensures Nodes(ChangeValues(changes)) >= |changes| + 1
  {
    var u := ChangeValues(changes);
    ManyItems(u, 0);
  }

  /** A result record holds the list of its changes. */
  lemma FieldFitsBudget(u: Val, k: Text)
    requires u.Record? && k in u.fields
    ensures Nodes(u) >= 1 + Nodes(u.fields[k])
  {
    var keys := Sorted(u.fields.Keys);
    var members := set x <- keys;
    assert k in members;
    var j :| 0 <= j < |keys| && keys[j] == k;
    SumWithout(keys, j, FieldNodes(u));
  }

  /** A diff of n changes costs at least n + 2 objects, so from 9,999 changes on it is refused. */
  lemma TooManyChanges(d: RevisionDiff)
    ensures Nodes(DiffValueOf(d)) >= |d.changes| + 2
    ensures |d.changes| >= MAX_ITEMS - 1 ==> !Fits(DiffValueOf(d))
  {
    hide Nodes, ShapeFits, Bytes;
    ListedNodes(d.changes);
    FieldFitsBudget(DiffValueOf(d), CHANGES);
  }

  /** The diff is empty exactly for contents that are alike without their keys `length`. */
  lemma EmptyDiff(from: Revision, to: Revision)
    requires DiffOutcome(from, to).Success?
    ensures DiffOutcome(from, to).value.changes == [] <==> Alike(Strip(from.content), Strip(to.content))
  {
    hide Fits, OwnedRevision, DiffValueOf, Alike, Walk;
    OwnedFields(from);
    OwnedFields(to);
    WalkEmpty(Strip(from.content), Strip(to.content));
  }

  /** The rendered structural diff is what is pushed, exactly when no inherited name stands on one side only. */
  lemma PushedIsDiff(left: Val, right: Val)
    ensures OwnNames(left, right) ==> Pushed(left, right) == Some(Changes(left, right))
    ensures Walk(left, right) == Some(Diff(left, right)) <==> OwnNames(left, right)
  {
    hide Walk, Diff, OwnNames;
    WalkIsDiff(left, right);
  }

  /** So a diff of revisions is the structural diff of the contents it compares. */
  lemma DiffIsStructural(from: Revision, to: Revision)
    requires OwnNames(Strip(from.content), Strip(to.content))
    ensures DiffOutcome(from, to).Success?
            ==> DiffOutcome(from, to).value.changes == Changes(Strip(from.content), Strip(to.content))
  {
    hide Fits, OwnedRevision, DiffValueOf, OwnNames, Walk, Changes;
    if DiffOutcome(from, to).Success? {
      OwnedFields(from);
      OwnedFields(to);
      PushedIsDiff(Strip(from.content), Strip(to.content));
    }
  }

  // ---------- Merge plans ----------

  /** `equal` on the `after` fields: two absent values are not equal. */
  predicate EqualAfter(a: Slot, b: Slot) { a.Some? && b.Some? && a == b }

  /** The first target change whose path overlaps. */
  function FirstOverlap(target: seq<Change>, path: Text): (r: Option<Change>)
    ensures r.None? <==> forall t <- target :: !PathsOverlap(t.path, path)
    ensures r.Some? ==> r.value in target && PathsOverlap(r.value.path, path)
  {
    if target == [] then None
    else if PathsOverlap(target[0].path, path) then Some(target[0])
    else FirstOverlap(target[1..], path)
  }

  predicate Retained(target: seq<Change>, candidate: Change)
  {
    var hit := FirstOverlap(target, candidate.path);
    hit.None? || EqualAfter(hit.value.after, candidate.after)
  }

  /** The candidates the plan keeps (`keep`) or reports as conflicts (not `keep`), in order. */
  function Choose(target: seq<Change>, source: seq<Change>, keep: bool): seq<Change>
  {
    if source == [] then []
    else (if Retained(target, source[0]) == keep then [source[0]] else []) + Choose(target, source[1..], keep)
  }

  /** What the plan reports for the candidates it does not keep: the candidate and the first target change it meets. */
  function ConflictsOf(target: seq<Change>, source: seq<Change>): seq<Conflict>
  {
    if source == [] then [] else Reported(target, source[0]) + ConflictsOf(target, source[1..])
  }

  function Reported(target: seq<Change>, candidate: Change): seq<Conflict>
  {
    if Retained(target, candidate) then []
    else [Conflict(candidate.path, FirstOverlap(target, candidate.path).value, candidate)]
  }

  predicate GoodConflict(target: seq<Change>, c: Conflict)
  {
    c.path == c.source.path && FirstOverlap(target, c.path) == Some(c.target)
    && !EqualAfter(c.target.after, c.source.after)
  }

  function Sources(conflicts: seq<Conflict>): (r: seq<Change>)
    ensures |r| == |conflicts| && forall i :: 0 <= i < |r| ==> r[i] == conflicts[i].source
  {
    if conflicts == [] then [] else [conflicts[0].source] + Sources(conflicts[1..])
  }

  /** The conflicts are the candidates that are not kept, each with a target change that overlaps it and differs. */
  lemma {:induction false} ConflictSources(target: seq<Change>, source: seq<Change>)
    ensures Sources(ConflictsOf(target, source)) == Choose(target, source, false)
    ensures forall c <- ConflictsOf(target, source) :: GoodConflict(target, c)
  {
    if source != [] {
      hide FirstOverlap, EqualAfter;
      ConflictSources(target, source[1..]);
      var rest := ConflictsOf(target, source[1..]);
      if !Retained(target, source[0]) {
        var c := Conflict(source[0].path, FirstOverlap(target, source[0].path).value, source[0]);
        assert ([c] + rest)[1..] == rest;
      } else {
        assert [] + rest == rest;
      }
    }
  }

  lemma {:induction false} ConflictsStep(target: seq<Change>, source: seq<Change>, i: nat)
    requires i < |source|
    ensures ConflictsOf(target, source[..i + 1]) == ConflictsOf(target, source[..i]) + Reported(target, source[i])
  {
    hide Reported;
    if i == 0 {
      assert source[..1][1..] == [] && source[..0] == [];
      assert [] + Reported(target, source[0]) == Reported(target, source[0]) + [];
    } else {
      assert source[..i + 1][1..] == source[1..][..i];
      assert source[..i][1..] == source[1..][..i - 1];
      ConflictsStep(target, source[1..], i - 1);
      assert ConflictsOf(target, source[..i])
        == Reported(target, source[0]) + ConflictsOf(target, source[1..][..i - 1]);
      hide ConflictsOf;
      RegroupConflicts(Reported(target, source[0]), ConflictsOf(target, source[1..][..i - 1]),
                       Reported(target, source[i]));
    }
  }

  lemma RegroupConflicts(a: seq<Conflict>, b: seq<Conflict>, c: seq<Conflict>)
    ensures a + (b + c) == (a + b) + c
  {}

  lemma {:induction false} ChooseStep(target: seq<Change>, source: seq<Change>, i: nat, keep: bool)
    requires i < |source|
    ensures Choose(target, source[..i + 1], keep) ==
            Choose(target, source[..i], keep) + if Retained(target, source[i]) == keep then [source[i]] else []
  {
    hide Retained;
    if i == 0 {
      assert source[..1][1..] == [] && source[..0] == [];
    } else {
      assert source[..i + 1][1..] == source[1..][..i];
      assert source[..i][1..] == source[1..][..i - 1];
      ChooseStep(target, source[1..], i - 1, keep);
    }
  }

  /** The filter of `planRevisionMerge`: keeps or reports every source change, in order. */
  method Partition(ours: seq<Change>, theirs: seq<Change>) returns (safe: seq<Change>, conflicts: seq<Conflict>)
    ensures safe == Choose(ours, theirs, true) && conflicts == ConflictsOf(ours, theirs)
  {
    hide FirstOverlap;
    safe, conflicts := [], [];
    var i := 0;
    while i < |theirs|
      invariant 0 <= i <= |theirs|
      invariant safe == Choose(ours, theirs[..i], true) && conflicts == ConflictsOf(ours, theirs[..i])
    {
      var candidate := theirs[i];
      ChooseStep(ours, theirs, i, true);
      ConflictsStep(ours, theirs, i);
      var colliding := FindOverlap(ours, candidate.path);
      if colliding.None? || EqualAfter(colliding.value.after, candidate.after) {
        safe := safe + [candidate];
      } else {
        conflicts := conflicts + [Conflict(candidate.path, colliding.value, candidate)];
      }
      i := i + 1;
    }
    assert theirs[..i] == theirs;
  }

  ghost function PlanOf(base: Revision, target: Revision, source: Revision): Option<MergePlan>
  {
    var ours, theirs := Pushed(base.content, target.content), Pushed(base.content, source.content);
    if ours.None? || theirs.None? then None
    else Some(MergePlan(base.id, target.id, source.id, Choose(ours.value, theirs.value, true),
                        ConflictsOf(ours.value, theirs.value)))
  }

  ghost predicate Differs(d: Option<RevisionDiff>) { d.Some? && Fits(DiffValueOf(d.value)) }

  /** `planRevisionMerge`: the revisions are copied, both diffs must be possible, and the plan is copied. */
  ghost function PlanOutcome(base: Revision, target: Revision, source: Revision): Outcome<MergePlan>
  {
    var b, t, s := OwnedRevision(base), OwnedRevision(target), OwnedRevision(source);
    if b.None? || t.None? || s.None? || !(base.projectId == target.projectId == source.projectId) then Invalid
    else
      var plan := PlanOf(b.value, t.value, s.value);
      if Differs(DiffOf(b.value, t.value)) && Differs(DiffOf(b.value, s.value)) && plan.Some?
         && Fits(PlanValueOf(plan.value))
      then Success(plan.value) else Invalid
  }

  method PlanRevisionMerge(base: Revision, target: Revision, source: Revision) returns (r: Outcome<MergePlan>)
    ensures r == PlanOutcome(base, target, source)
  {
    hide Fits, DiffValueOf, PlanValueOf, Choose, ConflictsOf, Walk, OwnedRevision;
    var b := OwnRevision(base);
    var t := OwnRevision(target);
    var s := OwnRevision(source);
    if b.None? || t.None? || s.None? { return Invalid; }
    OwnedFields(base);
    OwnedFields(target);
    OwnedFields(source);
    if b.value.projectId != t.value.projectId || b.value.projectId != s.value.projectId { return Invalid; }
    OwnedRevisionTwice(base);
    OwnedRevisionTwice(target);
    OwnedRevisionTwice(source);
    var targetDiff := DiffRevisions(b.value, t.value);
    var sourceDiff := DiffRevisions(b.value, s.value);
    if targetDiff.Invalid? || sourceDiff.Invalid? { return Invalid; }
    var safe, conflicts := Partition(targetDiff.value.changes, sourceDiff.value.changes);
    var plan := MergePlan(b.value.id, t.value.id, s.value.id, safe, conflicts);
    PlanPlain(base, target, source);
    ResultOwned(PlanValueOf(plan));
    var result := OwnTree(PlanValueOf(plan));
    return if result.Some? then Success(plan) else Invalid;
  }

  /** A plan whose revisions share no inherited name one-sidedly keeps and reports changes of the structural diffs. */
  lemma PlanIsStructural(base: Revision, target: Revision, source: Revision)
    requires OwnNames(Strip(base.content), Strip(target.content))
             && OwnNames(Strip(base.content), Strip(source.content))
    ensures PlanOutcome(base, target, source).Success? ==>
              var plan := PlanOutcome(base, target, source).value;
              var ours, theirs := Changes(Strip(base.content), Strip(target.content)),
                Changes(Strip(base.content), Strip(source.content));
              plan.changes == Choose(ours, theirs, true) && plan.conflicts == ConflictsOf(ours, theirs)
  {
    hide Fits, OwnedRevision, DiffValueOf, PlanValueOf, OwnNames, Walk, Changes, Choose, ConflictsOf;
    if PlanOutcome(base, target, source).Success? {
      OwnedFields(base);
      OwnedFields(target);
      OwnedFields(source);
      PushedIsDiff(Strip(base.content), Strip(target.content));
      PushedIsDiff(Strip(base.content), Strip(source.content));
    }
  }

  lemma PlainConflicts(conflicts: seq<Conflict>, target: seq<Change>, source: seq<Change>)
    requires PlainChanges(target) && PlainChanges(source)
    requires forall c <- conflicts :: c.target in target && c.source in source
    ensures LengthFree(ConflictValues(conflicts))
  {
    hide LengthFree, PlainSlot;
    var items := ConflictValues(conflicts).items;
    forall item <- items ensures LengthFree(item) {
      var i :| 0 <= i < |items| && items[i] == item;
      var c := conflicts[i];
      assert c in conflicts;
      PlainChange(c.target);
      PlainChange(c.source);
      PlainConflict(c);
    }
    PlainItems(items);
  }

  lemma PlainConflict(c: Conflict)
    requires LengthFree(ChangeValue(c.target)) && LengthFree(ChangeValue(c.source))
    ensures LengthFree(ConflictValue(c))
  {
    hide ChangeValue;
  }

  lemma PlainPlanValue(p: MergePlan)
    requires LengthFree(ChangeValues(p.changes)) && LengthFree(ConflictValues(p.conflicts))
    ensures LengthFree(PlanValueOf(p))
  {
    hide ChangeValues, ConflictValues;
  }

  lemma {:induction false} ChosenFrom(target: seq<Change>, source: seq<Change>, keep: bool)
    ensures forall c <- Choose(target, source, keep) :: c in source
    ensures forall c <- ConflictsOf(target, source) :: c.target in target && c.source in source
  {
    hide EqualAfter;
    if source != [] {
      ChosenFrom(target, source[1..], keep);
      assert source == [source[0]] + source[1..];
    }
  }

  lemma PlanPlain(base: Revision, target: Revision, source: Revision)
    requires OwnedRevision(base).Some? && OwnedRevision(target).Some? && OwnedRevision(source).Some?
    requires PlanOf(OwnedRevision(base).value, OwnedRevision(target).value, OwnedRevision(source).value).Some?
    ensures LengthFree(PlanValueOf(PlanOf(OwnedRevision(base).value, OwnedRevision(target).value,
                                          OwnedRevision(source).value).value))
  {
    hide LengthFree, OwnedRevision, DiffValueOf, PlanValueOf, Walk, PlainSlot, Choose, ConflictsOf;
    DiffPlain(base, target);
    DiffPlain(base, source);
    var b, t, s := OwnedRevision(base).value, OwnedRevision(target).value, OwnedRevision(source).value;
    var ours, theirs := Pushed(b.content, t.content).value, Pushed(b.content, s.content).value;
    ChosenFrom(ours, theirs, true);
    PlainList(Choose(ours, theirs, true));
    PlainConflicts(ConflictsOf(ours, theirs), ours, theirs);
    PlainPlanValue(PlanOf(b, t, s).value);
  }

  /** `targetChanges.find(...)`. */
  method FindOverlap(target: seq<Change>, path: Text) returns (r: Option<Change>)
    ensures r == FirstOverlap(target, path)
  {
    var i := 0;
    assert target[0..] == target;
    while i < |target|
      invariant 0 <= i <= |target|
      invariant FirstOverlap(target, path) == FirstOverlap(target[i..], path)
    {
      assert target[i..][1..] == target[i + 1..];
      if PathsOverlap(target[i].path, path) { return Some(target[i]); }
      i := i + 1;
    }
    return None;
  }
}
