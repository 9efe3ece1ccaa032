/** `key in left` also sees the names that every plain object inherits: what `diffValue` makes of a key that one side
  * has of its own and the other side inherits, and when that is the structural diff all the same. */
module InheritedNames {
  import opened Wrappers
  import opened Utf16
  import opened SortedKeys
  import opened Documents

  const PROTO := Ascii("__proto__")

  /** The functions that plain objects inherit. */
  const METHODS := {
    Ascii("constructor"), Ascii("hasOwnProperty"), Ascii("isPrototypeOf"), Ascii("propertyIsEnumerable"),
    Ascii("toLocaleString"), Ascii("toString"), Ascii("valueOf"), Ascii("__defineGetter__"), Ascii("__defineSetter__"),
    Ascii("__lookupGetter__"), Ascii("__lookupSetter__")}

  predicate Inherited(k: Text) { k == PROTO || k in METHODS }

  lemma ProtoIsNoMethod()
    ensures PROTO !in METHODS
  {
    assert forall k <- METHODS :: |k| != 9;
  }

  /** A value that stands on one side only. */
  function OneSided(v: Val, onRight: bool): Edit
  {
    if onRight then Edit([], None, Some(v)) else Edit([], Some(v), None)
  }

  // ---------- Against the object that plain objects inherit from ----------

  /** A key of a record that is compared with that object: its methods can be copied nowhere, its own `__proto__` is
    * null, and other names it lacks. */
  function PrototypeMember(k: Text, v: Val, onRight: bool): Option<seq<Edit>>
  {
    if k in METHODS then None
    else if k != PROTO then Some([OneSided(v, onRight)])
    else if v == Null then Some([])
    else Some([if onRight then Edit([], Some(Null), Some(v)) else Edit([], Some(v), Some(Null))])
  }

  function PrototypeKeys(x: Val, onRight: bool, keys: seq<Text>): Option<seq<Edit>>
    requires x.Record? && forall k <- keys :: k in x.fields
  {
    if keys == [] then Some([])
    else
      var here, rest := PrototypeMember(keys[0], x.fields[keys[0]], onRight), PrototypeKeys(x, onRight, keys[1..]);
      if here.None? || rest.None? then None else Some(Under(keys[0], here.value) + rest.value)
  }

  lemma SortedIn(x: Val)
    requires x.Record?
    ensures forall k <- Sorted(x.fields.Keys) :: k in x.fields
  {
    var keys := Sorted(x.fields.Keys);
    forall k <- keys ensures k in x.fields { assert k in (set y <- keys); }
  }

  ghost function AgainstPrototype(x: Val, onRight: bool): Option<seq<Edit>>
  {
    if x.Record? then
      SortedIn(x);
      PrototypeKeys(x, onRight, Sorted(x.fields.Keys))
    else None
  }

  // ---------- The walk of `diffValue` ----------

  /** The edits that are pushed; `None` when one of them holds what the boundary cannot copy. */
  ghost function Walk(left: Val, right: Val): Option<seq<Edit>>
    decreases left, 2
  {
    if left == right then Some([])
    else if left.Record? && right.Record? then WalkKeys(left, right, Sorted(left.fields.Keys + right.fields.Keys))
    else Some([Edit([], Some(left), Some(right))])
  }

  ghost function WalkKeys(left: Val, right: Val, keys: seq<Text>): Option<seq<Edit>>
    requires left.Record? && right.Record?
    decreases left, 1, |keys|
  {
    if keys == [] then Some([])
    else
      var here, rest := WalkMember(left, right, keys[0]), WalkKeys(left, right, keys[1..]);
      if here.None? || rest.None? then None else Some(Under(keys[0], here.value) + rest.value)
  }

  ghost function WalkMember(left: Val, right: Val, k: Text): Option<seq<Edit>>
    requires left.Record? && right.Record?
    decreases left, 0
  {
    if k in left.fields && k in right.fields then Walk(left.fields[k], right.fields[k])
    else if k !in left.fields && k !in right.fields then Some([])
    else
      var onRight := k in right.fields;
      var v := if onRight then right.fields[k] else left.fields[k];
      if k == PROTO then AgainstPrototype(v, onRight) else if k in METHODS then None else Some([OneSided(v, onRight)])
  }

  // ---------- When the walk is the diff ----------

  /** No inherited name is a key of one of two compared records and not of the other. */
  predicate OwnNames(left: Val, right: Val)
    decreases left
  {
    left == right || !left.Record? || !right.Record?
    || ((forall k <- left.fields :: if k in right.fields then OwnNames(left.fields[k], right.fields[k])
                                    else !Inherited(k))
        && forall k <- right.fields :: k in left.fields || !Inherited(k))
  }

  /** Paths below a key, and paths below other keys. */
  predicate AllUnder(edits: seq<Edit>, keys: seq<Text>) { forall e <- edits :: e.path != [] && e.path[0] in keys }

  lemma UnderAll(k: Text, edits: seq<Edit>, keys: seq<Text>)
    requires k in keys
    ensures AllUnder(Under(k, edits), keys)
  {}

  lemma ConcatUnder(k: Text, edits: seq<Edit>, rest: seq<Edit>, keys: seq<Text>)
    requires keys != [] && k == keys[0] && AllUnder(rest, keys[1..])
    ensures AllUnder(Under(k, edits) + rest, keys)
  {
    UnderAll(k, edits, keys);
    forall e <- rest ensures e.path[0] in keys { assert e.path[0] in keys[1..]; }
  }

  /** Edits below a key are no more than what stands before edits below others. */
  lemma NoLonger(k: Text, a: seq<Edit>, b: seq<Edit>, x: seq<Edit>, y: seq<Edit>, keys: seq<Text>)
    requires Under(k, a) + x == Under(k, b) + y && AllUnder(x, keys) && k !in keys
    ensures |b| <= |a|
  {
    var s := Under(k, a) + x;
    assert |a| < |s| ==> s[|a|] == x[0] && x[0] in x;
  }

  /** Edits below one key followed by edits below others determine each other. */
  lemma UnderSplit(k: Text, a: seq<Edit>, b: seq<Edit>, x: seq<Edit>, y: seq<Edit>, keys: seq<Text>)
    requires Under(k, a) + x == Under(k, b) + y && AllUnder(x, keys) && AllUnder(y, keys) && k !in keys
    ensures a == b && x == y
  {
    NoLonger(k, a, b, x, y, keys);
    NoLonger(k, b, a, y, x, keys);
    hide AllUnder;
    var s, u, v := Under(k, a) + x, Under(k, a), Under(k, b);
    assert s[..|a|] == u && s[|a|..] == x;
    assert (v + y)[..|b|] == v && (v + y)[|b|..] == y;
    UnderSame(k, a, b);
  }

  lemma UnderSame(k: Text, a: seq<Edit>, b: seq<Edit>)
    requires Under(k, a) == Under(k, b)
    ensures a == b
  {
    var u, v := Under(k, a), Under(k, b);
    forall i | 0 <= i < |a| ensures a[i] == b[i] {
      assert u[i] == v[i] && u[i].path[1..] == a[i].path && v[i].path[1..] == b[i].path;
    }
  }

  lemma {:induction false} KeysBelow(left: Val, right: Val, keys: seq<Text>)
    requires left.Record? && right.Record?
    ensures AllUnder(DiffKeys(left, right, keys), keys)
    ensures WalkKeys(left, right, keys).Some? ==> AllUnder(WalkKeys(left, right, keys).value, keys)
  {
    if keys != [] {
      hide DiffMember, WalkMember, Under;
      KeysBelow(left, right, keys[1..]);
      ConcatUnder(keys[0], DiffMember(left, right, keys[0]), DiffKeys(left, right, keys[1..]), keys);
      if WalkKeys(left, right, keys).Some? {
        ConcatUnder(keys[0], WalkMember(left, right, keys[0]).value, WalkKeys(left, right, keys[1..]).value, keys);
      }
    }
  }

  predicate SameMember(here: Option<seq<Edit>>, edits: seq<Edit>) { here == Some(edits) }

  ghost predicate MembersAgree(left: Val, right: Val, keys: seq<Text>)
    requires left.Record? && right.Record?
  {
    forall k <- keys :: SameMember(WalkMember(left, right, k), DiffMember(left, right, k))
  }

  lemma MembersAgreeFirst(left: Val, right: Val, keys: seq<Text>)
    requires left.Record? && right.Record? && keys != []
    ensures MembersAgree(left, right, keys)
            <==> SameMember(WalkMember(left, right, keys[0]), DiffMember(left, right, keys[0]))
                 && MembersAgree(left, right, keys[1..])
  {
    hide WalkMember, DiffMember;
    assert keys == [keys[0]] + keys[1..];
  }

  /** The walk of some keys is their diff exactly when it is for each of them. */
  lemma {:induction false} KeysAgree(left: Val, right: Val, keys: seq<Text>)
    requires left.Record? && right.Record? && NoRepeats(keys)
    ensures WalkKeys(left, right, keys) == Some(DiffKeys(left, right, keys)) <==> MembersAgree(left, right, keys)
  {
    hide DiffMember, WalkMember, MembersAgree, AllUnder, Under;
    if keys == [] {
      NoneAgree(left, right);
    } else {
      var rest := keys[1..];
      MembersAgreeFirst(left, right, keys);
      KeysAgree(left, right, rest);
      KeysBelow(left, right, rest);
      if WalkKeys(left, right, keys) == Some(DiffKeys(left, right, keys)) {
        UnderSplit(keys[0], WalkMember(left, right, keys[0]).value, DiffMember(left, right, keys[0]),
                   WalkKeys(left, right, rest).value, DiffKeys(left, right, rest), rest);
      }
    }
  }

  lemma NoneAgree(left: Val, right: Val)
    requires left.Record? && right.Record?
    ensures MembersAgree(left, right, [])
  {}

  lemma {:induction false} PrototypePaths(x: Val, onRight: bool, keys: seq<Text>)
    requires x.Record? && forall k <- keys :: k in x.fields
    ensures PrototypeKeys(x, onRight, keys).Some? ==> forall e <- PrototypeKeys(x, onRight, keys).value :: e.path != []
  {
    if keys != [] { PrototypePaths(x, onRight, keys[1..]); }
  }

  /** A key that one side lacks is walked as it is diffed exactly when it is not inherited. */
  lemma LackingMember(left: Val, right: Val, k: Text)
    requires left.Record? && right.Record? && (k in left.fields) != (k in right.fields)
    ensures SameMember(WalkMember(left, right, k), DiffMember(left, right, k)) <==> !Inherited(k)
  {
    ProtoIsNoMethod();
    var onRight := k in right.fields;
    var v := if onRight then right.fields[k] else left.fields[k];
    if k == PROTO && v.Record? {
      SortedIn(v);
      PrototypePaths(v, onRight, Sorted(v.fields.Keys));
      assert DiffMember(left, right, k)[0].path == [];
    }
  }

  predicate OwnMember(left: Val, right: Val, k: Text)
    requires left.Record? && right.Record?
  {
    if k in left.fields && k in right.fields then OwnNames(left.fields[k], right.fields[k]) else !Inherited(k)
  }

  /** The keys of two records, one after another. */
  lemma AllKeys(left: Val, right: Val)
    requires left.Record? && right.Record?
    ensures var keys := Sorted(left.fields.Keys + right.fields.Keys);
            NoRepeats(keys) && forall k :: k in keys <==> k in left.fields || k in right.fields
  {
    var all := left.fields.Keys + right.fields.Keys;
    var keys := Sorted(all);
    SortedKeys.Distinct(keys);
    hide Sorted, NoRepeats;
    var members := set y <- keys;
    assert members == all && forall k :: k in keys <==> k in members;
  }

  lemma OwnNamesOfRecords(left: Val, right: Val)
    requires left != right && left.Record? && right.Record?
    ensures OwnNames(left, right) <==> forall k | k in left.fields || k in right.fields :: OwnMember(left, right, k)
  {
    hide Inherited;
  }

  /** What is pushed is the structural diff if and only if no inherited name stands on one side only. */
  lemma {:induction false} WalkIsDiff(left: Val, right: Val)
    ensures Walk(left, right) == Some(Diff(left, right)) <==> OwnNames(left, right)
    decreases left
  {
    if left != right && left.Record? && right.Record? {
      var keys := Sorted(left.fields.Keys + right.fields.Keys);
      hide Sorted, Inherited, WalkKeys, DiffKeys, Walk, Diff, OwnNames, NoRepeats;
      AllKeys(left, right);
      KeysAgree(left, right, keys);
      forall k <- keys ensures SameMember(WalkMember(left, right, k), DiffMember(left, right, k))
        <==> OwnMember(left, right, k)
      {
        if k in left.fields && k in right.fields {
          WalkIsDiff(left.fields[k], right.fields[k]);
        } else {
          LackingMember(left, right, k);
        }
      }
      OwnNamesOfRecords(left, right);
      WalkOfRecords(left, right);
    }
  }

  lemma WalkOfRecords(left: Val, right: Val)
    requires left != right && left.Record? && right.Record?
    ensures Walk(left, right) == WalkKeys(left, right, Sorted(left.fields.Keys + right.fields.Keys))
    ensures Diff(left, right) == DiffKeys(left, right, Sorted(left.fields.Keys + right.fields.Keys))
  {}

  // ---------- When nothing is pushed ----------

  /** A record that looks empty beside the object all others inherit from. */
  predicate Unseen(x: Val) { x.Record? && forall k <- x.fields :: k == PROTO && x.fields[k] == Null }

  /** Equal, but for keys `__proto__` that one side lacks and that hold nothing the comparison sees. */
  predicate Alike(left: Val, right: Val)
    decreases left
  {
    left == right
    || (left.Record? && right.Record?
        && (forall k <- left.fields :: if k in right.fields then Alike(left.fields[k], right.fields[k])
                                       else k == PROTO && Unseen(left.fields[k]))
        && forall k <- right.fields :: k in left.fields || (k == PROTO && Unseen(right.fields[k])))
  }

  lemma {:induction false} PrototypeEmpty(x: Val, onRight: bool, keys: seq<Text>)
    requires x.Record? && forall k <- keys :: k in x.fields
    ensures PrototypeKeys(x, onRight, keys) == Some([]) <==> forall k <- keys :: k == PROTO && x.fields[k] == Null
  {
    ProtoIsNoMethod();
    if keys != [] {
      PrototypeEmpty(x, onRight, keys[1..]);
      assert keys == [keys[0]] + keys[1..];
      NothingThere(keys[0], PrototypeMember(keys[0], x.fields[keys[0]], onRight), PrototypeKeys(x, onRight, keys[1..]));
    }
  }

  lemma NothingThere(k: Text, here: Option<seq<Edit>>, rest: Option<seq<Edit>>)
    ensures here.Some? && rest.Some?
            ==> (Under(k, here.value) + rest.value == [] <==> here == Some([]) && rest == Some([]))
  {
    if here.Some? && rest.Some? {
      var all := Under(k, here.value) + rest.value;
      assert |all| == |here.value| + |rest.value|;
      if all == [] { assert here.value == [] && rest.value == []; }
    }
  }

  lemma AgainstEmpty(x: Val, onRight: bool)
    ensures AgainstPrototype(x, onRight) == Some([]) <==> Unseen(x)
  {
    if x.Record? {
      SortedIn(x);
      var keys := Sorted(x.fields.Keys);
      PrototypeEmpty(x, onRight, keys);
      forall k <- x.fields ensures k in keys { assert k in (set y <- keys); }
    }
  }

  ghost predicate MembersEmpty(left: Val, right: Val, keys: seq<Text>)
    requires left.Record? && right.Record?
  {
    forall k <- keys :: SameMember(WalkMember(left, right, k), [])
  }

  lemma MembersEmptyFirst(left: Val, right: Val, keys: seq<Text>)
    requires left.Record? && right.Record?
    ensures keys == [] ==> MembersEmpty(left, right, keys)
    ensures keys != [] ==> (MembersEmpty(left, right, keys)
                            <==> SameMember(WalkMember(left, right, keys[0]), [])
                                 && MembersEmpty(left, right, keys[1..]))
  {
    hide WalkMember;
    assert keys != [] ==> keys == [keys[0]] + keys[1..];
  }

  lemma {:induction false} KeysEmpty(left: Val, right: Val, keys: seq<Text>)
    requires left.Record? && right.Record?
    ensures WalkKeys(left, right, keys) == Some([]) <==> MembersEmpty(left, right, keys)
  {
    hide WalkMember, MembersEmpty, Under;
    MembersEmptyFirst(left, right, keys);
    if keys != [] {
      KeysEmpty(left, right, keys[1..]);
      NothingThere(keys[0], WalkMember(left, right, keys[0]), WalkKeys(left, right, keys[1..]));
    }
  }

  predicate AlikeMember(left: Val, right: Val, k: Text)
    requires left.Record? && right.Record? && (k in left.fields || k in right.fields)
  {
    if k in left.fields && k in right.fields then Alike(left.fields[k], right.fields[k])
    else k == PROTO && Unseen(if k in right.fields then right.fields[k] else left.fields[k])
  }

  lemma AlikeRecords(left: Val, right: Val)
    requires left != right && left.Record? && right.Record?
    ensures Alike(left, right) <==> forall k | k in left.fields || k in right.fields :: AlikeMember(left, right, k)
  {
    hide Unseen;
  }

  lemma LackingEmpty(left: Val, right: Val, k: Text)
    requires left.Record? && right.Record? && (k in left.fields) != (k in right.fields)
    ensures SameMember(WalkMember(left, right, k), []) <==> AlikeMember(left, right, k)
  {
    hide AgainstPrototype, Unseen;
    ProtoIsNoMethod();
    AgainstEmpty(if k in right.fields then right.fields[k] else left.fields[k], k in right.fields);
  }

  /** Nothing is pushed exactly for values that are alike. */
  lemma {:induction false} WalkEmpty(left: Val, right: Val)
    ensures Walk(left, right) == Some([]) <==> Alike(left, right)
    decreases left
  {
    if left != right && left.Record? && right.Record? {
      var keys := Sorted(left.fields.Keys + right.fields.Keys);
      hide Sorted, WalkKeys, Walk, Unseen, Alike, NoRepeats;
      AllKeys(left, right);
      KeysEmpty(left, right, keys);
      forall k <- keys ensures SameMember(WalkMember(left, right, k), []) <==> AlikeMember(left, right, k) {
        if k in left.fields && k in right.fields {
          WalkEmpty(left.fields[k], right.fields[k]);
        } else {
          LackingEmpty(left, right, k);
        }
      }
      AlikeRecords(left, right);
      WalkOfRecords(left, right);
    }
  }

  lemma SameKeysSame(left: Val, right: Val)
    requires left.Record? && right.Record? && left.fields.Keys == right.fields.Keys
    requires forall k <- left.fields :: left.fields[k] == right.fields[k]
    ensures left == right
  {
    assert left.fields == right.fields;
  }

  /** With own names only, alike is equal. */
  lemma {:induction false} AlikeIsEqual(left: Val, right: Val)
    requires OwnNames(left, right) && Alike(left, right)
    ensures left == right
    decreases left
  {
    if left.Record? && right.Record? && left != right {
      forall k | k in left.fields && k in right.fields ensures left.fields[k] == right.fields[k] {
        AlikeIsEqual(left.fields[k], right.fields[k]);
      }
      SameKeysSame(left, right);
    }
  }

  /** Two contents that differ and whose diff is empty; and two that cannot be diffed at all. */
  lemma InheritedExamples()
    ensures var empty, hidden, named := Record(map[]), Record(map[PROTO := Record(map[])]),
            Record(map[Ascii("constructor") := Null]);
            && empty != hidden && Walk(empty, hidden) == Some([])
            && Walk(empty, named) == None && Diff(empty, named) == [Edit([Ascii("constructor")], None, Some(Null))]
  {
    var empty, hidden, named := Record(map[]), Record(map[PROTO := Record(map[])]),
      Record(map[Ascii("constructor") := Null]);
    assert PROTO in hidden.fields && Alike(empty, hidden);
    WalkEmpty(empty, hidden);
    var k := Ascii("constructor");
    assert k in METHODS && k in named.fields;
    SingleKey(k, named.fields.Keys);
    WalkOfRecords(empty, named);
    var one: seq<Text> := [k];
    assert one[1..] == [];
    assert WalkKeys(empty, named, one) == None;
    assert DiffKeys(empty, named, one) == Under(k, [Edit([], None, Some(Null))]) + [];
  }

  lemma SingleKey(k: Text, keys: set<Text>)
    requires keys == {k}
    ensures Sorted({} + keys) == [k]
  {
    var s := Sorted({} + keys);
    assert {} + keys == {k} && |s| == 1;
    assert s[0] in (set y <- s);
  }
}
