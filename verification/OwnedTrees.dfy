/** Object literals: a finite value laid out as an object graph, and its boundary copy. */
module OwnedTrees {
  import opened Wrappers
  import opened Utf16
  import opened SortedKeys
  import opened Documents
  import opened Heaps
  import opened OwnedData
  import opened Ownership

  ghost predicate Extends(g: Heap, h: Heap) { forall r <- h :: r in g && g[r] == h[r] }

  lemma {:induction false} ExtendedUnfolds(g: Heap, h: Heap, v: Value, t: Val)
    requires Extends(g, h) && Unfolds(h, v, t)
    ensures Unfolds(g, v, t)
    decreases t
  {
    if v.Object? {
      match h[v.ref]
      case Array(items) =>
        forall i | 0 <= i < |items| ensures Unfolds(g, items[i], t.items[i]) {
          ExtendedUnfolds(g, h, items[i], t.items[i]);
        }
      case Fields(_, fields) =>
        forall k <- fields ensures Unfolds(g, fields[k], t.fields[k]) { ExtendedUnfolds(g, h, fields[k], t.fields[k]); }
    }
  }

  /** Objects are allocated one after the other. */
  class Allocator {
    var heap: Heap
    var next: Ref

    ghost predicate Valid()
      reads this
    {
      Ordered(heap) && forall r <- heap :: r < next
    }

    constructor ()
      ensures Valid()
    {
      heap, next := map[], 0;
    }

    method Allocate(node: Node) returns (v: Value)
      requires Valid()
      requires node.Fields? ==> NoRepeats(node.order) && (set k <- node.order) == node.fields.Keys
      modifies this
      ensures Valid() && Extends(heap, old(heap)) && v.Object? && v.ref in heap && heap[v.ref] == node
    {
      v := Object(next);
      heap := heap[next := node];
      next := next + 1;
    }

    method LayOut(u: Val) returns (v: Value)
      requires Valid()
      modifies this
      ensures Valid() && Extends(heap, old(heap)) && Unfolds(heap, v, u)
      decreases u, 1
    {
      match u
      case List(_) => v := LayOutItems(u);
      case Record(_) => v := LayOutFields(u);
      case _ => v := Prim(u);
    }

    method LayOutItems(u: Val) returns (v: Value)
      requires Valid() && u.List?
      modifies this
      ensures Valid() && Extends(heap, old(heap)) && Unfolds(heap, v, u)
      decreases u, 0
    {
      hide Ordered;
      var items, i := [], 0;
      while i < |u.items|
        invariant Valid() && Extends(heap, old(heap))
        invariant 0 <= i <= |u.items| && |items| == i && forall j :: 0 <= j < i ==> Unfolds(heap, items[j], u.items[j])
      {
        ghost var before := heap;
        var item := LayOut(u.items[i]);
        forall j | 0 <= j < i ensures Unfolds(heap, items[j], u.items[j]) {
          ExtendedUnfolds(heap, before, items[j], u.items[j]);
        }
        items := items + [item];
        i := i + 1;
      }
      ghost var before := heap;
      v := Allocate(Array(items));
      forall j | 0 <= j < i ensures Unfolds(heap, items[j], u.items[j]) {
        ExtendedUnfolds(heap, before, items[j], u.items[j]);
      }
    }

    method LayOutFields(u: Val) returns (v: Value)
      requires Valid() && u.Record?
      modifies this
      ensures Valid() && Extends(heap, old(heap)) && Unfolds(heap, v, u)
      decreases u, 0
    {
      hide Ordered, Sorted, Ascending;
      var order := SortKeys(u.fields.Keys);
      var fields: map<Text, Value> := map[];
      SortedOrder(u.fields.Keys);
      var i := 0;
      while i < |order|
        invariant Valid() && Extends(heap, old(heap))
        invariant 0 <= i <= |order| && (forall j :: 0 <= j < i ==> order[j] in fields)
        invariant forall k <- fields :: k in u.fields && Unfolds(heap, fields[k], u.fields[k])
      {
        ghost var before := heap;
        assert order[i] in order;
        assert u.fields[order[i]] < Record(u.fields);
        var field := LayOut(u.fields[order[i]]);
        forall k <- fields ensures Unfolds(heap, fields[k], u.fields[k]) {
          ExtendedUnfolds(heap, before, fields[k], u.fields[k]);
        }
        fields := fields[order[i] := field];
        i := i + 1;
      }
      ghost var before := heap;
      assert fields.Keys == u.fields.Keys by {
        forall k <- u.fields ensures k in fields { assert k in order; }
      }
      v := Allocate(Fields(order, fields));
      forall k <- fields ensures Unfolds(heap, fields[k], u.fields[k]) {
        ExtendedUnfolds(heap, before, fields[k], u.fields[k]);
      }
    }
  }

  lemma SortedOrder(s: set<Text>)
    ensures NoRepeats(Sorted(s)) && (set k <- Sorted(s)) == s && forall k :: k in Sorted(s) <==> k in s
  {
    var order := Sorted(s);
    Distinct(order);
    var members := set k <- order;
    assert members == s && forall k :: k in order <==> k in members;
  }

  /** `ownCollaborationValue` of a value that is not cyclic: the value without the keys `length`, when it is within
    * the budgets. */
  method OwnTree(u: Val) returns (copy: Option<Val>)
    ensures copy == OwnedTree(u)
  {
    hide OwnedTree, Owned;
    var allocator := new Allocator();
    var v := allocator.LayOut(u);
    OwnedOfUnfolding(allocator.heap, v, u);
    copy := OwnCollaborationValue(allocator.heap, v);
  }
}
