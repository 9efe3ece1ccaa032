/** Object graphs as the JSON snapshot meets them, and the trees they unfold to. */
module JsonGraphs {
  import opened Wrappers
  import opened Utf16
  import opened JsonSyntax

  type Ref = nat

  /** `Alien` is anything that is no JSON value: a function, undefined, a non-finite number. */
  datatype Candidate = Scalar(value: Json) | Reference(ref: Ref) | Alien

  datatype Field = Field(key: Text, value: Candidate)

  /** A record lists its fields in property order. */
  datatype Node = ListNode(items: seq<Candidate>) | RecordNode(fields: seq<Field>)

  /** References outside the heap stand for objects the snapshot rejects (exotic prototypes, accessors, symbols,
    * holes). */
  type Heap = map<Ref, Node>

  function Arity(node: Node): nat { if node.ListNode? then |node.items| else |node.fields| }

  function Child(node: Node, i: nat): Candidate
    requires i < Arity(node)
  {
    if node.ListNode? then node.items[i] else node.fields[i].value
  }

  function Parts(t: Json): nat { if t.Arr? then |t.items| else if t.Obj? then |t.members| else 0 }

  function Part(t: Json, i: nat): (u: Json)
    requires i < Parts(t)
    ensures u < t
  {
    if t.Arr? then t.items[i] else t.members[i].value
  }

  /** The same kind, the same size and the same keys. */
  predicate SameShape(node: Node, t: Json)
  {
    match node
    case ListNode(items) => t.Arr? && |t.items| == |items|
    case RecordNode(fields) =>
      t.Obj? && |t.members| == |fields| && forall i :: 0 <= i < |fields| ==> t.members[i].key == fields[i].key
  }

  /** `t` is what `v` unfolds to. */
  ghost predicate Unfolds(h: Heap, v: Candidate, t: Json)
    decreases t
  {
    match v
    case Alien => false
    case Scalar(s) => t == s && !s.Arr? && !s.Obj?
    case Reference(r) =>
      r in h && SameShape(h[r], t) && forall i :: 0 <= i < Parts(t) ==> Unfolds(h, Child(h[r], i), Part(t, i))
  }

  /** The first `n` parts of `t` are what the children of `node` unfold to. */
  ghost predicate ChildrenUnfold(h: Heap, node: Node, t: Json, n: nat)
  {
    n <= Parts(t) && n <= Arity(node) && forall i :: 0 <= i < n ==> Unfolds(h, Child(node, i), Part(t, i))
  }

  /** The objects visited, in order, once per visit. */
  ghost function Visits(h: Heap, v: Candidate, t: Json): seq<Ref>
    requires Unfolds(h, v, t)
    decreases t, 1, 0
  {
    if v.Reference? then [v.ref] + ChildVisits(h, h[v.ref], t, Parts(t)) else []
  }

  ghost function ChildVisits(h: Heap, node: Node, t: Json, n: nat): seq<Ref>
    requires ChildrenUnfold(h, node, t, n)
    decreases t, 0, n
  {
    if n == 0 then [] else ChildVisits(h, node, t, n - 1) + Visits(h, Child(node, n - 1), Part(t, n - 1))
  }

  /** No object is visited twice, nor one of those seen before. */
  ghost predicate Unaliased(visits: seq<Ref>, seen: set<Ref>) { NoRepeats(visits) && forall r <- visits :: r !in seen }

  function Met(visits: seq<Ref>): set<Ref> { set r <- visits }

  lemma UnaliasedConcat(a: seq<Ref>, b: seq<Ref>, seen: set<Ref>)
    ensures Unaliased(a + b, seen) <==> Unaliased(a, seen) && Unaliased(b, seen + Met(a))
    ensures Met(a + b) == Met(a) + Met(b)
  {
    var c := a + b;
    assert forall i :: 0 <= i < |a| ==> c[i] == a[i];
    assert forall i :: 0 <= i < |b| ==> c[|a| + i] == b[i];
    if Unaliased(c, seen) {
      forall r <- b ensures r !in seen + Met(a) {
        var j :| 0 <= j < |b| && b[j] == r;
        assert c[|a| + j] == r && r in c;
        assert forall i :: 0 <= i < |a| ==> c[i] != c[|a| + j];
      }
      assert forall r <- a :: r in c;
      forall i, j | 0 <= i < j < |b| ensures b[i] != b[j] { assert c[|a| + i] != c[|a| + j]; }
    }
    if Unaliased(a, seen) && Unaliased(b, seen + Met(a)) {
      forall i, j | 0 <= i < j < |c| ensures c[i] != c[j] {
        if i < |a| <= j {
          assert a[i] in Met(a) && b[j - |a|] in b;
        } else if |a| <= i {
          assert b[i - |a|] != b[j - |a|];
        }
      }
    }
  }

  /** The children up to one child, then that child. */
  lemma {:induction false} FirstChildren(h: Heap, node: Node, t: Json, i: nat, n: nat, seen: set<Ref>)
    requires ChildrenUnfold(h, node, t, n) && i < n && Unaliased(ChildVisits(h, node, t, n), seen)
    ensures Unaliased(ChildVisits(h, node, t, i), seen)
    ensures Unaliased(Visits(h, Child(node, i), Part(t, i)), seen + Met(ChildVisits(h, node, t, i)))
    decreases n
  {
    hide Unaliased;
    UnaliasedConcat(ChildVisits(h, node, t, n - 1), Visits(h, Child(node, n - 1), Part(t, n - 1)), seen);
    if i < n - 1 { FirstChildren(h, node, t, i, n - 1, seen); }
  }

  /** Visits depend only on the parts visited. */
  lemma {:induction false} SameVisits(h: Heap, node: Node, t: Json, u: Json, n: nat)
    requires ChildrenUnfold(h, node, t, n) && ChildrenUnfold(h, node, u, n)
    requires forall i :: 0 <= i < n ==> Part(t, i) == Part(u, i)
    ensures ChildVisits(h, node, t, n) == ChildVisits(h, node, u, n)
    decreases n
  {
    if n > 0 { SameVisits(h, node, t, u, n - 1); }
  }

  lemma {:induction false} UnfoldsUnique(h: Heap, v: Candidate, t: Json, u: Json)
    requires Unfolds(h, v, t) && Unfolds(h, v, u)
    ensures t == u
    decreases t
  {
    if v.Reference? {
      forall i | 0 <= i < Parts(t) ensures Part(t, i) == Part(u, i) {
        UnfoldsUnique(h, Child(h[v.ref], i), Part(t, i), Part(u, i));
      }
      SameParts(h[v.ref], t, u);
    }
  }

  lemma SameParts(node: Node, t: Json, u: Json)
    requires SameShape(node, t) && SameShape(node, u) && forall i :: 0 <= i < Parts(t) ==> Part(t, i) == Part(u, i)
    ensures t == u
  {
    if t.Arr? {
      forall i | 0 <= i < |t.items| ensures t.items[i] == u.items[i] { assert Part(t, i) == Part(u, i); }
      assert t.items == u.items;
    } else {
      forall i | 0 <= i < |t.members| ensures t.members[i] == u.members[i] { assert Part(t, i) == Part(u, i); }
      assert t.members == u.members;
    }
  }

  // ---------- Cycles ----------

  predicate Holds(h: Heap, r: Ref, s: Ref)
  {
    r in h && exists i :: 0 <= i < Arity(h[r]) && Child(h[r], i) == Reference(s)
  }

  /** Each object of the chain holds the next. */
  predicate Chain(h: Heap, chain: seq<Ref>) { forall i :: 0 <= i < |chain| - 1 ==> Holds(h, chain[i], chain[i + 1]) }

  lemma {:induction false} ChainDown(h: Heap, chain: seq<Ref>, t: Json) returns (u: Json)
    requires |chain| >= 2 && Chain(h, chain) && Unfolds(h, Reference(chain[0]), t)
    ensures Unfolds(h, Reference(chain[|chain| - 1]), u) && u < t
    decreases |chain|
  {
    assert Holds(h, chain[0], chain[1]);
    var i :| 0 <= i < Arity(h[chain[0]]) && Child(h[chain[0]], i) == Reference(chain[1]);
    u := Part(t, i);
    if |chain| > 2 {
      forall j | 0 <= j < |chain[1..]| - 1 ensures Holds(h, chain[1..][j], chain[1..][j + 1]) {
        assert Holds(h, chain[j + 1], chain[j + 2]);
      }
      u := ChainDown(h, chain[1..], u);
    }
  }

  /** No object on a cycle unfolds to anything. */
  lemma CyclesDoNotUnfold(h: Heap, cycle: seq<Ref>, t: Json)
    requires |cycle| >= 2 && Chain(h, cycle) && cycle[|cycle| - 1] == cycle[0]
    ensures !Unfolds(h, Reference(cycle[0]), t)
  {
    var v := Reference(cycle[0]);
    if Unfolds(h, v, t) {
      var u := ChainDown(h, cycle, t);
      UnfoldsUnique(h, v, t, u);
    }
  }
}
