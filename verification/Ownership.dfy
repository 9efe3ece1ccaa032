/** `ownCollaborationValue` and `equalCollaborationValues` on object graphs. */
module Ownership {
  import opened Wrappers
  import opened Utf16
  import opened SortedKeys
  import opened Documents
  import opened Heaps
  import opened OwnedData

  // ---------- The graph that is copied ----------

  function Without(order: seq<Text>): seq<Text>
  {
    if order == [] then [] else (if order[0] == LENGTH then [] else [order[0]]) + Without(order[1..])
  }

  /** The graph with the key `length` removed from every record: what the copy looks at. */
  ghost function Lengthless(h: Heap): Heap
  {
    map r | r in h :: match h[r] case Array(_) => h[r] case Fields(order, fields) =>
      Fields(Without(order), fields - {LENGTH})
  }

  /** Every record visited on the way to `t` has at most MAX_ITEMS own keys, `length` counted. */
  ghost predicate Narrow(h: Heap, v: Value, t: Val)
    decreases t
  {
    v.Object? ==>
      && v.ref in h
      && match h[v.ref]
         case Array(items) =>
           t.List? && |t.items| == |items| && forall i :: 0 <= i < |items| ==> Narrow(h, items[i], t.items[i])
         case Fields(_, fields) =>
           t.Record? && |fields| <= MAX_ITEMS && forall k <- t.fields :: k in fields
                                                   && Narrow(h, fields[k], t.fields[k])
  }

  /** No record visited on the way to `t` has a key `length`. */
  ghost predicate NoLength(h: Heap, v: Value, t: Val)
    decreases t
  {
    v.Object? ==>
      && v.ref in h
      && match h[v.ref]
         case Array(items) =>
           t.List? && |t.items| == |items| && forall i :: 0 <= i < |items| ==> NoLength(h, items[i], t.items[i])
         case Fields(_, fields) =>
           t.Record? && LENGTH !in fields && forall k <- t.fields :: k in fields && NoLength(h, fields[k], t.fields[k])
  }

  /** The value fits the budgets of its shape. */
  ghost predicate Shaped(h: Heap, v: Value, t: Val, depth: nat) { Narrow(h, v, t) && ShapeFits(t, depth) }

  lemma BareNode(h: Heap, r: Ref)
    ensures r in Lengthless(h) <==> r in h
    ensures r in h && h[r].Array? ==> Lengthless(h)[r] == h[r]
    ensures r in h && h[r].Fields? ==> Lengthless(h)[r].Fields? && Lengthless(h)[r].fields == h[r].fields - {LENGTH}
  {
  }

  /** What `ownCollaborationValue` returns: the finite value that the graph without `length` unfolds to, when it is
    * within the budgets. */
  ghost function Owned(h: Heap, v: Value): Option<Val>
  {
    var t := Unfolding(Lengthless(h), v);
    if t.Some? && Narrow(h, v, t.value) && Fits(t.value) then t else None
  }

  // ---------- The copy ----------

  class Owner {
    const heap: Heap
    var bytes: nat
    var nodes: nat
    var active: set<Ref>

    constructor (heap: Heap)
      ensures this.heap == heap && bytes == 0 && nodes == 0 && active == {}
    {
      this.heap := heap;
      bytes, nodes, active := 0, 0, {};
    }

    /** What the copy sees of a value. */
    ghost function Seen(value: Value): Option<Val> { Unfolding(Lengthless(heap), value) }

    /** The value fits its own budgets and what is left of the shared ones. */
    ghost predicate Affords(value: Value, depth: nat, nodes: nat, bytes: nat)
    {
      var t := Seen(value);
      && t.Some? && Shaped(heap, value, t.value, depth)
      && nodes + Nodes(t.value) <= MAX_NODES && bytes + Bytes(t.value) <= MAX_BYTES
    }

    twostate predicate Visited(t: Val)
      reads this
    {
      bytes == old(bytes) + Bytes(t) && nodes == old(nodes) + Nodes(t) && active == old(active)
    }

    method AddBytes(n: nat) returns (ok: bool)
      modifies this`bytes
      ensures bytes == old(bytes) + n && (ok <==> bytes <= MAX_BYTES)
    {
      bytes := bytes + n;
      ok := bytes <= MAX_BYTES;
    }

    method AddText(s: Text) returns (ok: bool)
      modifies this`bytes
      ensures bytes == old(bytes) + Utf8Length(s) && (ok <==> |s| <= MAX_TEXT && bytes <= MAX_BYTES)
    {
      bytes := bytes + Utf8Length(s);
      ok := |s| <= MAX_TEXT && bytes <= MAX_BYTES;
    }

    method Visit(value: Value, depth: nat) returns (copy: Option<Val>)
      requires Ordered(heap) && AllBelow(Lengthless(heap), active, value) && bytes <= MAX_BYTES && nodes <= MAX_NODES
      modifies this
      ensures copy.Some? <==> Affords(value, depth, old(nodes), old(bytes))
      ensures copy.Some? ==> copy == Seen(value) && Visited(copy.value)
      decreases MAX_DEPTH + 1 - depth, 3
    {
      hide Utf8Length, Below, ItemsBytes, FieldBytes, Sum;
      if depth > MAX_DEPTH { return None; }
      match value
      case Alien => return None;
      case Prim(t) =>
        if !Primitive(t) { return None; }
        UnfoldingIs(Lengthless(heap), value, t);
        hide Lengthless;
        var ok := true;
        match t {
          case Null => ok := AddBytes(4);
          case Bool(_) => ok := AddBytes(5);
          case Num(_) => ok := AddBytes(24);
          case Str(s) => ok := AddText(s);
        }
        copy := if ok then Some(t) else None;
      case Object(r) =>
        BareNode(heap, r);
        if r !in heap { return None; }
        if r in active {
          CycleUnfoldsToNothing(Lengthless(heap), r);
          return None;
        }
        if heap[r].Array? { copy := CopyArray(r, depth); } else { copy := CopyRecord(r, depth); }
    }

    method CopyArray(r: Ref, depth: nat) returns (copy: Option<Val>)
      requires Ordered(heap) && r in heap && heap[r].Array? && r !in active && depth <= MAX_DEPTH
               && AllBelow(Lengthless(heap), active, Object(r))
      requires bytes <= MAX_BYTES && nodes <= MAX_NODES
      modifies this
      ensures copy.Some? <==> Affords(Object(r), depth, old(nodes), old(bytes))
      ensures copy.Some? ==> copy == Seen(Object(r)) && Visited(copy.value)
      decreases MAX_DEPTH + 1 - depth, 1
    {
      hide Bytes, Nodes, Shaped, Lengthless, Below, ItemsBytes, ItemsNodes, AllBelow, Unfolds, Ordered;
      BareNode(heap, r);
      UnfoldingArray(Lengthless(heap), r);
      ghost var t := Seen(Object(r));
      ghost var before := active;
      if t.Some? { ArrayCosts(heap, r, t.value, depth); }
      active := active + {r};
      nodes := nodes + 1;
      if nodes > MAX_NODES || |heap[r].items| + 1 > MAX_ITEMS { return None; }
      var items := CopyItems(r, depth, before);
      if items.None? { return None; }
      active := active - {r};
      assert t.Some? ==> items.value == t.value.items;
      copy := Some(List(items.value));
    }

    method CopyItems(r: Ref, depth: nat, ghost before: set<Ref>) returns (copy: Option<seq<Val>>)
      requires Ordered(heap) && r in heap && heap[r].Array? && depth <= MAX_DEPTH
      requires active == before + {r} && AllBelow(Lengthless(heap), before, Object(r)) && bytes <= MAX_BYTES
               && nodes <= MAX_NODES
      modifies this
      ensures copy.Some? <==>
              && Seen(Object(r)).Some?
              && var t := Seen(Object(r)).value;
                 && t.List? && |t.items| == |heap[r].items|
                 && (forall i :: 0 <= i < |t.items| ==> Shaped(heap, heap[r].items[i], t.items[i], depth + 1))
                 && old(nodes) + ItemsNodes(t, 0) <= MAX_NODES && old(bytes) + ItemsBytes(t, 0) <= MAX_BYTES
      ensures copy.Some? ==>
                var t := Seen(Object(r)).value;
                && copy.value == t.items && nodes == old(nodes) + ItemsNodes(t, 0)
                && bytes == old(bytes) + ItemsBytes(t, 0)
                && active == old(active)
      decreases MAX_DEPTH + 1 - depth, 0
    {
      hide Bytes, Nodes, Shaped, Lengthless, Below, AllBelow, Unfolds, DecimalLength, Ordered;
      BareNode(heap, r);
      UnfoldingArray(Lengthless(heap), r);
      var items, done := heap[r].items, [];
      ghost var t := Seen(Object(r));
      var i := 0;
      while i < |items|
        invariant 0 <= i <= |items| && |done| == i
        invariant active == before + {r} && bytes <= MAX_BYTES && nodes <= MAX_NODES
        invariant forall j :: 0 <= j < i ==> Seen(items[j]) == Some(done[j])
        invariant t.Some? ==> forall j :: 0 <= j < i ==> Shaped(heap, items[j], t.value.items[j], depth + 1)
        invariant t.Some? ==> nodes + ItemsNodes(t.value, i) == old(nodes) + ItemsNodes(t.value, 0)
        invariant t.Some? ==> bytes + ItemsBytes(t.value, i) == old(bytes) + ItemsBytes(t.value, 0)
      {
        ItemBelow(Lengthless(heap), r, i);
        PathDown(Lengthless(heap), before, r, items[i]);
        var ok := AddBytes(DecimalLength(i));
        if !ok { return None; }
        var item := Visit(items[i], depth + 1);
        assert t.Some? ==> t.value.items[i] in t.value.items;
        if item.None? { return None; }
        done := done + [item.value];
        i := i + 1;
      }
      copy := Some(done);
    }

    method CopyRecord(r: Ref, depth: nat) returns (copy: Option<Val>)
      requires Ordered(heap) && r in heap && heap[r].Fields? && r !in active && depth <= MAX_DEPTH
               && AllBelow(Lengthless(heap), active, Object(r))
      requires bytes <= MAX_BYTES && nodes <= MAX_NODES
      modifies this
      ensures copy.Some? <==> Affords(Object(r), depth, old(nodes), old(bytes))
      ensures copy.Some? ==> copy == Seen(Object(r)) && Visited(copy.value)
      decreases MAX_DEPTH + 1 - depth, 2
    {
      hide Bytes, Nodes, Shaped, Lengthless, Below, AllBelow, Unfolds, Sum, Sorted, FieldBytes, FieldNodes;
      FieldsSeen(heap, r);
      ghost var t := Seen(Object(r));
      ghost var before := active;
      if t.Some? { RecordCosts(heap, r, t.value, depth); }
      active := active + {r};
      nodes := nodes + 1;
      if nodes > MAX_NODES || |heap[r].fields| > MAX_ITEMS { return None; }
      var fields := CopyFields(r, depth, before);
      if fields.None? { return None; }
      active := active - {r};
      assert t.Some? ==> Record(fields.value) == t.value;
      copy := Some(Record(fields.value));
    }

    /** One key and its value. */
    method CopyField(r: Ref, key: Text, depth: nat, ghost before: set<Ref>) returns (copy: Option<Val>)
      requires Ordered(heap) && r in heap && heap[r].Fields? && key in heap[r].fields && key != LENGTH
               && depth <= MAX_DEPTH
      requires active == before + {r} && AllBelow(Lengthless(heap), before, Object(r)) && bytes <= MAX_BYTES
               && nodes <= MAX_NODES
      modifies this
      ensures copy.Some? <==>
              |key| <= MAX_TEXT && Affords(heap[r].fields[key], depth + 1, old(nodes), old(bytes) + Utf8Length(key))
      ensures copy.Some? ==>
                && copy == Seen(heap[r].fields[key]) && nodes == old(nodes) + Nodes(copy.value) && nodes <= MAX_NODES
                && bytes == old(bytes) + Utf8Length(key) + Bytes(copy.value) && bytes <= MAX_BYTES
                && active == old(active)
      decreases MAX_DEPTH + 1 - depth, 0
    {
      hide Bytes, Nodes, Shaped, Lengthless, Below, AllBelow, Unfolds, Unfolding, Utf8Length, Ordered;
      BareNode(heap, r);
      FieldBelow(Lengthless(heap), r, key);
      PathDown(Lengthless(heap), before, r, heap[r].fields[key]);
      var ok := AddText(key);
      if !ok { return None; }
      copy := Visit(heap[r].fields[key], depth + 1);
    }

    /** The loop over the keys of a record in property order, `length` skipped. */
    method CopyFields(r: Ref, depth: nat, ghost before: set<Ref>) returns (copy: Option<map<Text, Val>>)
      requires Ordered(heap) && r in heap && heap[r].Fields? && depth <= MAX_DEPTH
      requires active == before + {r} && AllBelow(Lengthless(heap), before, Object(r)) && bytes <= MAX_BYTES
               && nodes <= MAX_NODES
      modifies this
      ensures copy.Some? <==>
              Seen(Object(r)).Some? && FieldsAffordable(heap, r, Seen(Object(r)).value, depth, old(nodes), old(bytes))
      ensures copy.Some? ==>
                && FieldsCharged(Seen(Object(r)).value, heap[r].order, old(nodes), old(bytes), nodes, bytes)
                && copy.value == Seen(Object(r)).value.fields && active == old(active)
      decreases MAX_DEPTH + 1 - depth, 1
    {
      hide Bytes, Nodes, Shaped, Lengthless, AllBelow, Unfolding, Utf8Length, Ordered, Progress, FieldsAffordable,
        FieldsCharged, Sum,
        FieldNodes, FieldBytes, Unfolds, Below, NoRepeats, CopiedUpTo;
      FieldsSeen(heap, r);
      var order, done := heap[r].order, map[];
      ghost var t := Seen(Object(r));
      if t.Some? { ProgressStart(heap, r, t.value, depth, nodes, bytes); }
      CopiedStart(heap, r);
      var i := 0;
      while i < |order|
        invariant 0 <= i <= |order| && CopiedUpTo(heap, r, i, done)
        invariant active == before + {r} && bytes <= MAX_BYTES && nodes <= MAX_NODES
        invariant t.Some? ==> Progress(heap, r, t.value, i, depth, old(nodes), old(bytes), nodes, bytes)
      {
        var key := order[i];
        if t.Some? { ProgressStep(heap, r, t.value, i, depth, old(nodes), old(bytes), nodes, bytes); }
        CopiedStep(heap, r, i, done);
        i := i + 1;
        if key == LENGTH { continue; }
        var field := CopyField(r, key, depth, before);
        if field.None? { return None; }
        done := done[key := field.value];
      }
      CopiedAll(heap, r, done);
      ProgressDone(heap, r, t.value, depth, old(nodes), old(bytes), nodes, bytes);
      copy := Some(done);
    }
  }

  lemma FieldsSeen(h: Heap, r: Ref)
    requires Ordered(h) && r in h && h[r].Fields?
    ensures forall k :: k in h[r].order <==> k in h[r].fields
    ensures var fields, t := h[r].fields, Unfolding(Lengthless(h), Object(r));
            && (t.Some? <==> forall k <- fields :: k != LENGTH ==> Unfolding(Lengthless(h), fields[k]).Some?)
            && (t.Some? ==> t.value.Record? && t.value.fields.Keys == fields.Keys - {LENGTH})
            && (t.Some? ==> forall k <- fields :: k != LENGTH
                              ==> Unfolding(Lengthless(h), fields[k]) == Some(t.value.fields[k]))
  {
    hide Lengthless, Unfolding, Unfolds;
    BareNode(h, r);
    PropertyOrder(h, r);
    UnfoldingFields(Lengthless(h), r);
    var bare := Lengthless(h)[r].fields;
    assert forall k <- h[r].fields :: k != LENGTH ==> k in bare && bare[k] == h[r].fields[k];
    assert forall k <- bare :: k in h[r].fields && k != LENGTH;
  }

  /** The first `i` keys have been copied, `length` skipped. */
  ghost predicate CopiedUpTo(h: Heap, r: Ref, i: nat, done: map<Text, Val>)
    requires r in h && h[r].Fields?
  {
    var order, fields := h[r].order, h[r].fields;
    && (forall j :: 0 <= j < i && j < |order| && order[j] != LENGTH ==> order[j] in done)
    && (forall k <- done :: k in fields && k != LENGTH && Unfolding(Lengthless(h), fields[k]) == Some(done[k]))
  }

  lemma CopiedStart(h: Heap, r: Ref)
    requires r in h && h[r].Fields?
    ensures CopiedUpTo(h, r, 0, map[])
  {
  }

  lemma CopiedStep(h: Heap, r: Ref, i: nat, done: map<Text, Val>)
    requires r in h && h[r].Fields? && i < |h[r].order| && CopiedUpTo(h, r, i, done)
    requires forall k :: k in h[r].order <==> k in h[r].fields
    ensures var key, fields := h[r].order[i], h[r].fields;
            if key == LENGTH then CopiedUpTo(h, r, i + 1, done)
            else forall x :: Unfolding(Lengthless(h), fields[key]) == Some(x)
                   ==> CopiedUpTo(h, r, i + 1, done[key := x])
  {
    hide Lengthless, Unfolding;
    assert h[r].order[i] in h[r].order;
  }

  lemma CopiedAll(h: Heap, r: Ref, done: map<Text, Val>)
    requires Ordered(h) && r in h && h[r].Fields? && CopiedUpTo(h, r, |h[r].order|, done)
    ensures Unfolding(Lengthless(h), Object(r)) == Some(Record(done))
  {
    hide Lengthless, Unfolding, Ordered;
    FieldsSeen(h, r);
    var fields, t := h[r].fields, Unfolding(Lengthless(h), Object(r));
    forall k <- fields ensures k == LENGTH || k in done { assert k in h[r].order; }
    assert t.Some?;
    assert done == t.value.fields;
  }

  /** The fields fit their own budgets and what is left of the shared ones. */
  ghost predicate FieldsAffordable(h: Heap, r: Ref, t: Val, depth: nat, nodes: nat, bytes: nat)
    requires r in h && h[r].Fields?
  {
    && t.Record? && (forall k <- h[r].order :: k == LENGTH || FieldFits(h, r, t, k, depth))
    && nodes + Sum(h[r].order, FieldNodes(t)) <= MAX_NODES && bytes + Sum(h[r].order, FieldBytes(t)) <= MAX_BYTES
  }

  ghost predicate FieldFits(h: Heap, r: Ref, t: Val, k: Text, depth: nat)
    requires r in h && h[r].Fields? && t.Record?
  {
    k in t.fields && k in h[r].fields && |k| <= MAX_TEXT && Shaped(h, h[r].fields[k], t.fields[k], depth + 1)
  }

  ghost predicate FieldsCharged(t: Val, order: seq<Text>, oldNodes: nat, oldBytes: nat, nodes: nat, bytes: nat)
  {
    t.Record? && nodes == oldNodes + Sum(order, FieldNodes(t)) && bytes == oldBytes + Sum(order, FieldBytes(t))
  }

  /** The first `i` fields have been copied and charged. */
  ghost predicate Progress(h: Heap, r: Ref, t: Val, i: nat, depth: nat, oldNodes: nat, oldBytes: nat, nodes: nat,
                           bytes: nat)
    requires r in h && h[r].Fields?
  {
    var order := h[r].order;
    && t.Record? && LENGTH !in t.fields && i <= |order| && (forall k <- order :: k == LENGTH || k in t.fields)
    && (forall j :: 0 <= j < i && order[j] != LENGTH ==> FieldFits(h, r, t, order[j], depth))
    && nodes + Sum(order[i..], FieldNodes(t)) == oldNodes + Sum(order, FieldNodes(t))
    && bytes + Sum(order[i..], FieldBytes(t)) == oldBytes + Sum(order, FieldBytes(t))
  }

  lemma ProgressStart(h: Heap, r: Ref, t: Val, depth: nat, nodes: nat, bytes: nat)
    requires r in h && h[r].Fields? && t.Record? && LENGTH !in t.fields
             && forall k <- h[r].order :: k == LENGTH || k in t.fields
    ensures Progress(h, r, t, 0, depth, nodes, bytes, nodes, bytes)
  {
    hide Sum, FieldNodes, FieldBytes, FieldFits;
    assert h[r].order[0..] == h[r].order;
  }

  /** `length` is skipped; any other field is affordable now, and then charged, or the fields as a whole never were. */
  lemma ProgressStep(h: Heap, r: Ref, t: Val, i: nat, depth: nat, oldNodes: nat, oldBytes: nat, nodes: nat, bytes: nat)
    requires r in h && h[r].Fields? && i < |h[r].order| && Progress(h, r, t, i, depth, oldNodes, oldBytes, nodes, bytes)
    ensures var key := h[r].order[i];
            t.Record? && if key == LENGTH then Progress(h, r, t, i + 1, depth, oldNodes, oldBytes, nodes, bytes)
                         else key in t.fields
    ensures var key := h[r].order[i];
            key != LENGTH ==>
              var u := t.fields[key];
              if FieldFits(h, r, t, key, depth) && nodes + Nodes(u) <= MAX_NODES
                 && bytes + Utf8Length(key) + Bytes(u) <= MAX_BYTES
              then Progress(h, r, t, i + 1, depth, oldNodes, oldBytes, nodes + Nodes(u),
                            bytes + Utf8Length(key) + Bytes(u))
              else !FieldsAffordable(h, r, t, depth, oldNodes, oldBytes)
  {
    hide Nodes, Bytes, Utf8Length, FieldFits, FieldNodes, FieldBytes, Sum;
    FieldStep(t, h[r].order, i);
    assert h[r].order[i] in h[r].order;
  }

  lemma ProgressDone(h: Heap, r: Ref, t: Val, depth: nat, oldNodes: nat, oldBytes: nat, nodes: nat, bytes: nat)
    requires r in h && h[r].Fields? && Progress(h, r, t, |h[r].order|, depth, oldNodes, oldBytes, nodes, bytes)
    requires nodes <= MAX_NODES && bytes <= MAX_BYTES
    ensures FieldsAffordable(h, r, t, depth, oldNodes, oldBytes)
            && FieldsCharged(t, h[r].order, oldNodes, oldBytes, nodes, bytes)
  {
    hide FieldNodes, FieldBytes, FieldFits;
    assert h[r].order[|h[r].order|..] == [];
  }

  lemma PropertyOrder(h: Heap, r: Ref)
    requires Ordered(h) && r in h && h[r].Fields?
    ensures NoRepeats(h[r].order) && forall k :: k in h[r].order <==> k in h[r].fields
  {
    var members := set k <- h[r].order;
    assert members == h[r].fields.Keys && forall k :: k in h[r].order <==> k in members;
  }

  /** What one field adds to the sums. */
  lemma FieldStep(t: Val, order: seq<Text>, i: nat)
    requires t.Record? && i < |order| && (order[i] == LENGTH ==> LENGTH !in t.fields)
             && (order[i] != LENGTH ==> order[i] in t.fields)
    ensures var nodes, bytes := Sum(order[i + 1..], FieldNodes(t)), Sum(order[i + 1..], FieldBytes(t));
            if order[i] == LENGTH then Sum(order[i..], FieldNodes(t)) == nodes
                                       && Sum(order[i..], FieldBytes(t)) == bytes
            else && Sum(order[i..], FieldNodes(t)) == Nodes(t.fields[order[i]]) + nodes
                 && Sum(order[i..], FieldBytes(t)) == Utf8Length(order[i]) + Bytes(t.fields[order[i]]) + bytes
  {
    hide Nodes, Bytes, Utf8Length;
    assert order[i..][1..] == order[i + 1..];
  }

  lemma ArrayCosts(h: Heap, r: Ref, t: Val, depth: nat)
    requires r in h && h[r].Array? && t.List? && |t.items| == |h[r].items| && depth <= MAX_DEPTH
    ensures Shaped(h, Object(r), t, depth) <==>
            |t.items| + 1 <= MAX_ITEMS && forall i :: 0 <= i < |t.items|
                                            ==> Shaped(h, h[r].items[i], t.items[i], depth + 1)
    ensures Nodes(t) == 1 + ItemsNodes(t, 0) && Bytes(t) == ItemsBytes(t, 0)
  {
    hide ItemsNodes, ItemsBytes;
    assert forall i :: 0 <= i < |t.items| ==> t.items[i] in t.items;
  }

  lemma RecordCosts(h: Heap, r: Ref, t: Val, depth: nat)
    requires Ordered(h) && r in h && h[r].Fields? && t.Record? && t.fields.Keys == h[r].fields.Keys - {LENGTH}
             && depth <= MAX_DEPTH
    ensures Shaped(h, Object(r), t, depth) <==>
            |h[r].fields| <= MAX_ITEMS && forall k <- h[r].order :: k == LENGTH || FieldFits(h, r, t, k, depth)
    ensures Nodes(t) == 1 + Sum(h[r].order, FieldNodes(t)) && Bytes(t) == Sum(h[r].order, FieldBytes(t))
  {
    PropertyOrder(h, r);
    RecordShape(h, r, t, depth);
    hide Sum, FieldNodes, FieldBytes, Sorted, Shaped, FieldFits;
    SumInOrder(h[r].order, t.fields.Keys, FieldNodes(t));
    SumInOrder(h[r].order, t.fields.Keys, FieldBytes(t));
  }

  lemma NarrowRecord(h: Heap, r: Ref, t: Val)
    requires r in h && h[r].Fields? && t.Record?
    ensures Narrow(h, Object(r), t) <==>
            |h[r].fields| <= MAX_ITEMS && forall k <- t.fields :: k in h[r].fields
                                            && Narrow(h, h[r].fields[k], t.fields[k])
  {
  }

  lemma RecordShapeFits(t: Val, depth: nat)
    requires t.Record? && depth <= MAX_DEPTH
    ensures ShapeFits(t, depth)
            <==> |t.fields| <= MAX_ITEMS && forall k <- t.fields :: |k| <= MAX_TEXT && ShapeFits(t.fields[k], depth + 1)
  {
  }

  lemma RecordShape(h: Heap, r: Ref, t: Val, depth: nat)
    requires r in h && h[r].Fields? && t.Record? && t.fields.Keys == h[r].fields.Keys - {LENGTH} && depth <= MAX_DEPTH
    requires forall k :: k in h[r].order <==> k in h[r].fields
    ensures Shaped(h, Object(r), t, depth) <==>
            |h[r].fields| <= MAX_ITEMS && forall k <- h[r].order :: k == LENGTH || FieldFits(h, r, t, k, depth)
  {
    hide Narrow, ShapeFits;
    SmallerSet(t.fields.Keys, h[r].fields.Keys);
    NarrowRecord(h, r, t);
    RecordShapeFits(t, depth);
    assert forall k :: k in t.fields <==> k in h[r].order && k != LENGTH by {
      assert forall k :: k in t.fields.Keys <==> k in h[r].fields.Keys - {LENGTH};
    }
  }

  lemma SmallerSet(a: set<Text>, b: set<Text>)
    requires a <= b
    ensures |a| <= |b|
  {
    assert b == a + (b - a);
  }

  // ---------- Owned values ----------

  method OwnCollaborationValue(heap: Heap, value: Value) returns (copy: Option<Val>)
    requires Ordered(heap)
    ensures copy == Owned(heap, value)
  {
    hide ShapeFits, Nodes, Bytes;
    var owner := new Owner(heap);
    copy := owner.Visit(value, 0);
  }

  // ---------- What the copy is ----------

  lemma {:induction false} LengthFreeUnfolds(h: Heap, v: Value, t: Val)
    requires Unfolds(Lengthless(h), v, t) && NoLength(h, v, t)
    ensures Unfolds(h, v, t)
    decreases t
  {
    if v.Object? {
      BareNode(h, v.ref);
      hide Lengthless;
      match h[v.ref]
      case Array(items) =>
        forall i | 0 <= i < |items| ensures Unfolds(h, items[i], t.items[i]) {
          LengthFreeUnfolds(h, items[i], t.items[i]);
        }
      case Fields(_, fields) =>
        forall k <- fields ensures Unfolds(h, fields[k], t.fields[k]) { LengthFreeUnfolds(h, fields[k], t.fields[k]); }
    }
  }

  lemma {:induction false} UnfoldsLengthFree(h: Heap, v: Value, t: Val)
    requires Unfolds(Lengthless(h), v, t) && Unfolds(h, v, t)
    ensures NoLength(h, v, t)
    decreases t
  {
    if v.Object? {
      BareNode(h, v.ref);
      hide Lengthless;
      match h[v.ref]
      case Array(items) =>
        forall i | 0 <= i < |items| ensures NoLength(h, items[i], t.items[i]) {
          UnfoldsLengthFree(h, items[i], t.items[i]);
        }
      case Fields(_, fields) =>
        assert LENGTH !in t.fields;
        forall k <- fields ensures NoLength(h, fields[k], t.fields[k]) { UnfoldsLengthFree(h, fields[k], t.fields[k]); }
    }
  }

  /** The copy is the value the graph itself unfolds to exactly when no visited record has a key `length`. */
  lemma CopyIsUnfolding(h: Heap, v: Value)
    requires Owned(h, v).Some?
    ensures Owned(h, v) == Unfolding(h, v) <==> NoLength(h, v, Owned(h, v).value)
  {
    var t := Owned(h, v).value;
    if NoLength(h, v, t) {
      LengthFreeUnfolds(h, v, t);
      UnfoldingIs(h, v, t);
    } else if Unfolding(h, v) == Some(t) {
      UnfoldsLengthFree(h, v, t);
    }
  }

  lemma {:induction false} StrippedUnfolds(h: Heap, v: Value, u: Val)
    requires Unfolds(h, v, u)
    ensures Unfolds(Lengthless(h), v, Strip(u))
    decreases u
  {
    if v.Object? {
      BareNode(h, v.ref);
      hide Lengthless;
      match h[v.ref]
      case Array(items) =>
        forall i | 0 <= i < |items| ensures Unfolds(Lengthless(h), items[i], Strip(u.items[i])) {
          StrippedUnfolds(h, items[i], u.items[i]);
        }
      case Fields(_, fields) =>
        forall k <- fields ensures Unfolds(Lengthless(h), fields[k], Strip(u.fields[k])) {
          StrippedUnfolds(h, fields[k], u.fields[k]);
        }
    }
  }

  lemma {:induction false} StrippedNarrow(h: Heap, v: Value, u: Val)
    requires Unfolds(h, v, u)
    ensures Narrow(h, v, Strip(u)) <==> NarrowTree(u)
    decreases u
  {
    if v.Object? {
      match h[v.ref]
      case Array(items) =>
        forall i | 0 <= i < |items| ensures Narrow(h, items[i], Strip(u.items[i])) <==> NarrowTree(u.items[i]) {
          StrippedNarrow(h, items[i], u.items[i]);
        }
        assert forall i :: 0 <= i < |items| ==> u.items[i] in u.items;
      case Fields(_, fields) =>
        forall k <- fields ensures Narrow(h, fields[k], Strip(u.fields[k])) <==> NarrowTree(u.fields[k]) {
          StrippedNarrow(h, fields[k], u.fields[k]);
        }
        SmallerSet(u.fields.Keys, fields.Keys);
        SmallerSet(fields.Keys, u.fields.Keys);
        NarrowRecord(h, v.ref, Strip(u));
        hide Narrow;
    }
  }

  /** A graph that unfolds is copied to its value without the keys `length`, when that is within the budgets. */
  lemma OwnedOfUnfolding(h: Heap, v: Value, u: Val)
    requires Unfolds(h, v, u)
    ensures Owned(h, v) == OwnedTree(u)
  {
    StrippedUnfolds(h, v, u);
    StrippedNarrow(h, v, u);
    UnfoldingIs(Lengthless(h), v, Strip(u));
  }

  /** An owned copy, however it is laid out, is owned as itself. */
  lemma OwnIdempotent(h: Heap, v: Value, g: Heap, w: Value)
    requires Owned(h, v).Some? && Unfolds(g, w, Owned(h, v).value)
    ensures Owned(g, w) == Owned(h, v)
  {
    var t := Owned(h, v).value;
    SeenIsLengthFree(h, v, t);
    OwnedOfUnfolding(g, w, t);
    OwnedUnchanged(t);
  }

  lemma {:induction false} SeenIsLengthFree(h: Heap, v: Value, t: Val)
    requires Unfolds(Lengthless(h), v, t)
    ensures LengthFree(t)
    decreases t
  {
    if v.Object? {
      BareNode(h, v.ref);
      hide Lengthless;
      match h[v.ref]
      case Array(items) =>
        forall item <- t.items ensures LengthFree(item) {
          var i :| 0 <= i < |items| && t.items[i] == item;
          SeenIsLengthFree(h, items[i], item);
        }
      case Fields(_, fields) =>
        forall k <- t.fields ensures LengthFree(t.fields[k]) { SeenIsLengthFree(h, fields[k], t.fields[k]); }
    }
  }

  /** A cycle that does not pass through a field `length` is not owned. */
  lemma CyclesNotOwned(h: Heap, cycle: seq<Ref>)
    requires |cycle| >= 2 && Chain(Lengthless(h), cycle) && cycle[|cycle| - 1] == cycle[0]
    ensures Owned(h, Object(cycle[0])) == None
  {
    hide Lengthless;
    CyclesDoNotUnfold(Lengthless(h), cycle);
  }

  /** A record whose only key is `length` is owned as the empty record, whatever the field holds: a number, a function,
    * or the record itself. */
  lemma OnlyLength(x: Value)
    ensures var h: Heap := map[0 := Fields([LENGTH], map[LENGTH := x])];
            && Owned(h, Object(0)) == Some(Record(map[]))
            && (x == Alien || x == Object(0) ==> Unfolding(h, Object(0)) == None)
  {
    var h: Heap := map[0 := Fields([LENGTH], map[LENGTH := x])];
    var empty := Record(map[]);
    BareNode(h, 0);
    assert Unfolds(Lengthless(h), Object(0), empty);
    UnfoldingIs(Lengthless(h), Object(0), empty);
    assert Sorted(empty.fields.Keys) == [];
    if x == Alien || x == Object(0) { OnlyLengthCycle(x); }
  }

  lemma OnlyLengthCycle(x: Value)
    requires x == Alien || x == Object(0)
    ensures Unfolding(map[0 := Fields([LENGTH], map[LENGTH := x])], Object(0)) == None
  {
    var h: Heap := map[0 := Fields([LENGTH], map[LENGTH := x])];
    UnfoldingFields(h, 0);
    assert LENGTH in h[0].fields;
    if x == Object(0) {
      FieldBelow(h, 0, LENGTH);
      CycleUnfoldsToNothing(h, 0);
    }
  }

  /** The recursive comparison of two owned values. */
  predicate Compare(a: Val, b: Val)
    decreases a
  {
    if Primitive(a) || Primitive(b) then a == b
    else if a.List? || b.List? then
      a.List? && b.List? && |a.items| == |b.items| && forall i :: 0 <= i < |a.items| ==> Compare(a.items[i], b.items[i])
    else
      |a.fields| == |b.fields| && forall k <- a.fields :: k in b.fields && Compare(a.fields[k], b.fields[k])
  }

  /** Comparing is equality of values, objects being maps. */
  lemma {:induction false} CompareIsEquality(a: Val, b: Val)
    ensures Compare(a, b) <==> a == b
    decreases a
  {
    if a.List? && b.List? {
      forall i | 0 <= i < |a.items| && i < |b.items| ensures Compare(a.items[i], b.items[i])
        <==> a.items[i] == b.items[i]
      {
        CompareIsEquality(a.items[i], b.items[i]);
      }
      assert Compare(a, b) ==> a.items == b.items;
    } else if a.Record? && b.Record? {
      forall k | k in a.fields && k in b.fields ensures Compare(a.fields[k], b.fields[k])
        <==> a.fields[k] == b.fields[k]
      {
        CompareIsEquality(a.fields[k], b.fields[k]);
      }
      if Compare(a, b) {
        SameSize(a.fields.Keys, b.fields.Keys);
        assert a.fields == b.fields;
      }
    }
  }

  lemma SameSize(a: set<Text>, b: set<Text>)
    requires a <= b && |a| == |b|
    ensures a == b
  {
    assert b == a + (b - a);
  }

  /** `equalCollaborationValues`: both sides can be owned, and are copied to the same value. */
  method EqualCollaborationValues(h: Heap, v: Value, g: Heap, w: Value) returns (equal: bool)
    requires Ordered(h) && Ordered(g)
    ensures equal <==> Owned(h, v).Some? && Owned(h, v) == Owned(g, w)
  {
    hide Owned;
    var left := OwnCollaborationValue(h, v);
    var right := OwnCollaborationValue(g, w);
    if left.None? || right.None? { return false; }
    CompareIsEquality(left.value, right.value);
    equal := Compare(left.value, right.value);
  }

  /** Finite values have equal copies exactly when they are the same up to the keys `length` of their records. */
  lemma EqualUpToLength(h: Heap, v: Value, g: Heap, w: Value, a: Val, b: Val)
    requires Unfolds(h, v, a) && Unfolds(g, w, b) && Owned(h, v).Some? && Owned(g, w).Some?
    ensures Owned(h, v) == Owned(g, w) <==> Strip(a) == Strip(b)
  {
    hide Owned;
    OwnedOfUnfolding(h, v, a);
    OwnedOfUnfolding(g, w, b);
  }
}
