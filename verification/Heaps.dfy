/** Object graphs, possibly shared or cyclic, and the finite values they unfold to. */
module Heaps {
  import opened Wrappers
  import opened Utf16
  import opened Documents

  type Ref = nat

  /** A value as the traversals meet it; `Alien` is anything they do not support (a function, undefined, a
    * non-finite number). */
  datatype Value = Prim(value: Val) | Object(ref: Ref) | Alien

  /** A record lists its keys in property order. */
  datatype Node = Array(items: seq<Value>) | Fields(order: seq<Text>, fields: map<Text, Value>)

  /** References outside the heap stand for objects the traversals reject (exotic prototypes, accessors, symbols,
    * holes). */
  type Heap = map<Ref, Node>

  predicate Primitive(v: Val) { !v.List? && !v.Record? }

  /** Property order lists every key once. */
  ghost predicate Ordered(h: Heap)
  {
    forall r <- h :: h[r].Fields? ==> NoRepeats(h[r].order) && (set k <- h[r].order) == h[r].fields.Keys
  }

  /** `t` is what `v` unfolds to: a shared part appears once per occurrence, a cycle unfolds to nothing. */
  ghost predicate Unfolds(h: Heap, v: Value, t: Val)
    decreases t
  {
    match v
    case Alien => false
    case Prim(p) => t == p && Primitive(p)
    case Object(r) =>
      r in h &&
      match h[r]
      case Array(items) =>
        t.List? && |t.items| == |items| && forall i :: 0 <= i < |items| ==> Unfolds(h, items[i], t.items[i])
      case Fields(_, fields) =>
        t.Record? && t.fields.Keys == fields.Keys && forall k <- fields :: Unfolds(h, fields[k], t.fields[k])
  }

  /** A value unfolds in at most one way. */
  lemma {:induction false} UnfoldsUnique(h: Heap, v: Value, t: Val, u: Val)
    requires Unfolds(h, v, t) && Unfolds(h, v, u)
    ensures t == u
    decreases t
  {
    if v.Object? {
      match h[v.ref]
      case Array(items) =>
        forall i | 0 <= i < |items| ensures t.items[i] == u.items[i] {
          UnfoldsUnique(h, items[i], t.items[i], u.items[i]);
        }
        assert t.items == u.items;
      case Fields(_, fields) =>
        forall k <- fields ensures t.fields[k] == u.fields[k] { UnfoldsUnique(h, fields[k], t.fields[k], u.fields[k]); }
        assert t.fields == u.fields;
    }
  }

  ghost function Unfolding(h: Heap, v: Value): (t: Option<Val>)
    ensures t.Some? ==> Unfolds(h, v, t.value)
    ensures t.None? ==> forall u :: !Unfolds(h, v, u)
  {
    if exists t :: Unfolds(h, v, t) then
      var t :| Unfolds(h, v, t);
      Some(t)
    else None
  }

  lemma UnfoldingIs(h: Heap, v: Value, t: Val)
    requires Unfolds(h, v, t)
    ensures Unfolding(h, v) == Some(t)
  {
    UnfoldsUnique(h, v, t, Unfolding(h, v).value);
  }

  /** An array unfolds exactly when all its items do, to the list of their values. */
  lemma UnfoldingArray(h: Heap, r: Ref)
    requires r in h && h[r].Array?
    ensures var items, t := h[r].items, Unfolding(h, Object(r));
            && (t.Some? <==> forall i :: 0 <= i < |items| ==> Unfolding(h, items[i]).Some?)
            && (t.Some? ==> t.value.List? && |t.value.items| == |items|)
            && (t.Some? ==> forall i :: 0 <= i < |items| ==> Unfolding(h, items[i]) == Some(t.value.items[i]))
  {
    var items, t := h[r].items, Unfolding(h, Object(r));
    if t.Some? {
      forall i | 0 <= i < |items| ensures Unfolding(h, items[i]) == Some(t.value.items[i]) {
        UnfoldingIs(h, items[i], t.value.items[i]);
      }
    } else if forall i :: 0 <= i < |items| ==> Unfolding(h, items[i]).Some? {
      var whole := List(seq(|items|, i requires 0 <= i < |items| => Unfolding(h, items[i]).value));
      assert Unfolds(h, Object(r), whole);
    }
  }

  /** A record unfolds exactly when all its fields do, to the map of their values. */
  lemma UnfoldingFields(h: Heap, r: Ref)
    requires r in h && h[r].Fields?
    ensures var fields, t := h[r].fields, Unfolding(h, Object(r));
            && (t.Some? <==> forall k <- fields :: Unfolding(h, fields[k]).Some?)
            && (t.Some? ==> t.value.Record? && t.value.fields.Keys == fields.Keys)
            && (t.Some? ==> forall k <- fields :: Unfolding(h, fields[k]) == Some(t.value.fields[k]))
  {
    var fields, t := h[r].fields, Unfolding(h, Object(r));
    if t.Some? {
      forall k <- fields ensures Unfolding(h, fields[k]) == Some(t.value.fields[k]) {
        UnfoldingIs(h, fields[k], t.value.fields[k]);
      }
    } else if forall k <- fields :: Unfolding(h, fields[k]).Some? {
      var whole := Record(map k | k in fields :: Unfolding(h, fields[k]).value);
      assert Unfolds(h, Object(r), whole);
    }
  }

  // ---------- Cycles ----------

  /** Whatever `r` unfolds to, `v` unfolds to a proper part of it. */
  ghost predicate Below(h: Heap, r: Ref, v: Value)
  {
    Unfolding(h, Object(r)).Some? ==> Unfolding(h, v).Some? && Unfolding(h, v).value < Unfolding(h, Object(r)).value
  }

  /** An object below itself unfolds to nothing. */
  lemma CycleUnfoldsToNothing(h: Heap, r: Ref)
    requires Below(h, r, Object(r))
    ensures Unfolding(h, Object(r)) == None
  {
  }

  ghost predicate AllBelow(h: Heap, path: set<Ref>, v: Value) { forall r <- path :: Below(h, r, v) }

  /** What is below an object on the path is below the whole path. */
  lemma PathDown(h: Heap, path: set<Ref>, r: Ref, child: Value)
    requires AllBelow(h, path, Object(r)) && Below(h, r, child)
    ensures AllBelow(h, path + {r}, child)
  {
  }

  lemma ItemBelow(h: Heap, r: Ref, i: nat)
    requires r in h && h[r].Array? && i < |h[r].items|
    ensures Below(h, r, h[r].items[i])
  {
    UnfoldingArray(h, r);
    var t := Unfolding(h, Object(r));
    if t.Some? { assert t.value.items[i] < t.value; }
  }

  lemma FieldBelow(h: Heap, r: Ref, k: Text)
    requires r in h && h[r].Fields? && k in h[r].fields
    ensures Below(h, r, h[r].fields[k])
  {
    UnfoldingFields(h, r);
    var t := Unfolding(h, Object(r));
    if t.Some? { assert t.value.fields[k] < Record(t.value.fields); }
  }

  /** `v` is an item or a field of the object `r`. */
  ghost predicate Holds(h: Heap, r: Ref, v: Value)
  {
    r in h && match h[r] case Array(items) => v in items case Fields(_, fields) => exists k <- fields :: fields[k] == v
  }

  lemma HeldBelow(h: Heap, r: Ref, v: Value)
    requires Holds(h, r, v)
    ensures Below(h, r, v)
  {
    match h[r]
    case Array(items) =>
      var i :| 0 <= i < |items| && items[i] == v;
      ItemBelow(h, r, i);
    case Fields(_, fields) =>
      var k :| k in fields && fields[k] == v;
      FieldBelow(h, r, k);
  }

  /** Each object of the chain holds the next. */
  ghost predicate Chain(h: Heap, chain: seq<Ref>)
  {
    forall i :: 0 <= i < |chain| - 1 ==> Holds(h, chain[i], Object(chain[i + 1]))
  }

  lemma {:induction false} ChainBelow(h: Heap, chain: seq<Ref>)
    requires |chain| >= 2 && Chain(h, chain)
    ensures Below(h, chain[0], Object(chain[|chain| - 1]))
  {
    HeldBelow(h, chain[0], Object(chain[1]));
    if |chain| > 2 {
      var rest := chain[1..];
      forall i | 0 <= i < |rest| - 1 ensures Holds(h, rest[i], Object(rest[i + 1])) {
        assert Holds(h, chain[i + 1], Object(chain[i + 2]));
      }
      ChainBelow(h, rest);
    }
  }

  /** No object on a cycle unfolds to anything. */
  lemma CyclesDoNotUnfold(h: Heap, cycle: seq<Ref>)
    requires |cycle| >= 2 && Chain(h, cycle) && cycle[|cycle| - 1] == cycle[0]
    ensures Unfolding(h, Object(cycle[0])) == None
  {
    ChainBelow(h, cycle);
    CycleUnfoldsToNothing(h, cycle[0]);
  }

  // ---------- Property order does not matter ----------

  /** The same graph, up to the order in which records list their keys. */
  ghost predicate Reordered(h: Heap, g: Heap)
  {
    && h.Keys == g.Keys
    && forall r <- h :: h[r].Array? == g[r].Array? && (if h[r].Array? then h[r] == g[r] else h[r].fields == g[r].fields)
  }

  lemma {:induction false} ReorderedUnfolds(h: Heap, g: Heap, v: Value, t: Val)
    requires Reordered(h, g) && Unfolds(h, v, t)
    ensures Unfolds(g, v, t)
    decreases t
  {
    if v.Object? {
      match h[v.ref]
      case Array(items) =>
        forall i | 0 <= i < |items| ensures Unfolds(g, items[i], t.items[i]) {
          ReorderedUnfolds(h, g, items[i], t.items[i]);
        }
      case Fields(_, fields) =>
        forall k <- fields ensures Unfolds(g, fields[k], t.fields[k]) {
          ReorderedUnfolds(h, g, fields[k], t.fields[k]);
        }
    }
  }

  lemma ReorderedUnfolding(h: Heap, g: Heap, v: Value)
    requires Reordered(h, g)
    ensures Unfolding(h, v) == Unfolding(g, v)
  {
    if Unfolding(h, v).Some? {
      ReorderedUnfolds(h, g, v, Unfolding(h, v).value);
      UnfoldingIs(g, v, Unfolding(h, v).value);
    } else if Unfolding(g, v).Some? {
      ReorderedUnfolds(g, h, v, Unfolding(g, v).value);
    }
  }
}
