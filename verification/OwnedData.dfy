/** What the collaboration boundary charges for a value, and which values it copies. */
module OwnedData {
  import opened Wrappers
  import opened Utf16
  import opened SortedKeys
  import opened Documents

  /** The key `length`, which the copy skips in records as well as in arrays. */
  const LENGTH: Text := [0x6C, 0x65, 0x6E, 0x67, 0x74, 0x68]

  const MAX_BYTES: nat := 10 * 1024 * 1024
  const MAX_NODES: nat := 10_000
  const MAX_DEPTH: nat := 64
  const MAX_ITEMS: nat := 10_000
  const MAX_TEXT: nat := 1_000_000

  /** The length of an array index as a property key. */
  function DecimalLength(i: nat): nat { if i < 10 then 1 else 1 + DecimalLength(i / 10) }

  /** Depth, key count and text length at every place; an array's `length` is one of its keys. */
  predicate ShapeFits(t: Val, depth: nat)
    decreases t
  {
    && depth <= MAX_DEPTH
    && match t
       case Str(s) => |s| <= MAX_TEXT
       case List(items) => |items| + 1 <= MAX_ITEMS && forall item <- items :: ShapeFits(item, depth + 1)
       case Record(fields) =>
         |fields| <= MAX_ITEMS && forall k <- fields :: |k| <= MAX_TEXT && ShapeFits(fields[k], depth + 1)
       case _ => true
  }

  function Sum(keys: seq<Text>, cost: map<Text, nat>): nat
  {
    if keys == [] then 0 else (if keys[0] in cost then cost[keys[0]] else 0) + Sum(keys[1..], cost)
  }

  /** The bytes charged: fixed sizes for null, booleans and numbers, and the text of strings, keys and indices. */
  ghost function Bytes(t: Val): nat
    decreases t, 1, 0
  {
    match t
    case Null => 4
    case Bool(_) => 5
    case Num(_) => 24
    case Str(s) => Utf8Length(s)
    case List(items) => ItemsBytes(t, 0)
    case Record(fields) => Sum(Sorted(fields.Keys), FieldBytes(t))
  }

  ghost function ItemsBytes(t: Val, i: nat): nat
    requires t.List? && i <= |t.items|
    decreases t, 0, |t.items| - i
  {
    if i == |t.items| then 0 else DecimalLength(i) + Bytes(t.items[i]) + ItemsBytes(t, i + 1)
  }

  ghost function FieldBytes(t: Val): (cost: map<Text, nat>)
    requires t.Record?
    ensures cost.Keys == t.fields.Keys
    decreases t, 0
  {
    map k | k in t.fields :: Utf8Length(k) + Bytes(t.fields[k])
  }

  /** The objects visited, per occurrence. */
  ghost function Nodes(t: Val): nat
    decreases t, 1, 0
  {
    match t
    case List(items) => 1 + ItemsNodes(t, 0)
    case Record(fields) => 1 + Sum(Sorted(fields.Keys), FieldNodes(t))
    case _ => 0
  }

  ghost function ItemsNodes(t: Val, i: nat): nat
    requires t.List? && i <= |t.items|
    decreases t, 0, |t.items| - i
  {
    if i == |t.items| then 0 else Nodes(t.items[i]) + ItemsNodes(t, i + 1)
  }

  ghost function FieldNodes(t: Val): (cost: map<Text, nat>)
    requires t.Record?
    ensures cost.Keys == t.fields.Keys
    decreases t, 0
  {
    map k | k in t.fields :: Nodes(t.fields[k])
  }

  // ---------- The order of the keys does not change a sum ----------

  lemma {:induction false} SumWithout(keys: seq<Text>, j: nat, cost: map<Text, nat>)
    requires j < |keys|
    ensures Sum(keys, cost) == (if keys[j] in cost then cost[keys[j]] else 0) + Sum(keys[..j] + keys[j + 1..], cost)
  {
    if j == 0 {
      assert keys[..0] + keys[1..] == keys[1..];
    } else {
      SumWithout(keys[1..], j - 1, cost);
      var rest := keys[..j] + keys[j + 1..];
      assert rest[0] == keys[0] && rest[1..] == keys[1..][..j - 1] + keys[1..][j..];
    }
  }

  predicate SameKeys(a: seq<Text>, b: seq<Text>) { (forall k <- a :: k in b) && forall k <- b :: k in a }

  lemma {:induction false} SumReordered(a: seq<Text>, b: seq<Text>, cost: map<Text, nat>)
    requires NoRepeats(a) && NoRepeats(b) && SameKeys(a, b)
    ensures Sum(a, cost) == Sum(b, cost)
  {
    assert b != [] ==> b[0] in b && b[0] in a;
    if a == [] {
    } else {
      assert a[0] in b;
      var j :| 0 <= j < |b| && b[j] == a[0];
      SumWithout(b, j, cost);
      RestKeys(a, b, j);
      SumReordered(a[1..], b[..j] + b[j + 1..], cost);
    }
  }

  lemma RestKeys(a: seq<Text>, b: seq<Text>, j: nat)
    requires NoRepeats(a) && NoRepeats(b) && SameKeys(a, b) && a != [] && j < |b| && b[j] == a[0]
    ensures var rest := b[..j] + b[j + 1..]; NoRepeats(rest) && NoRepeats(a[1..]) && SameKeys(a[1..], rest)
  {
    var rest := b[..j] + b[j + 1..];
    assert b == b[..j] + [b[j]] + b[j + 1..];
    forall k <- a[1..] ensures k in rest {
      var i :| 0 <= i < |a[1..]| && a[1..][i] == k;
      assert a[0] != a[i + 1] && a[i + 1] in b;
    }
    forall k <- rest ensures k in a[1..] {
      var i :| 0 <= i < |rest| && rest[i] == k;
      assert rest[i] == (if i < j then b[i] else b[i + 1]) && rest[i] != b[j];
      assert k in a && a == [a[0]] + a[1..];
    }
  }

  /** A key list may name `LENGTH` besides the keys that cost something. */
  lemma SumInOrder(order: seq<Text>, s: set<Text>, cost: map<Text, nat>)
    requires NoRepeats(order) && (forall k :: k in order && k != LENGTH <==> k in s) && LENGTH !in cost
    ensures Sum(order, cost) == Sum(Sorted(s), cost)
  {
    var sorted := Sorted(s);
    SortedKeys.Distinct(sorted);
    var members := set k <- sorted;
    assert members == s && forall k :: k in sorted <==> k in members;
    if LENGTH in order {
      var j :| 0 <= j < |order| && order[j] == LENGTH;
      SumWithout(order, j, cost);
      WithoutKey(order, j);
      SumReordered(order[..j] + order[j + 1..], sorted, cost);
    } else {
      SumReordered(order, sorted, cost);
    }
  }

  lemma WithoutKey(order: seq<Text>, j: nat)
    requires NoRepeats(order) && j < |order|
    ensures var rest := order[..j] + order[j + 1..];
            NoRepeats(rest) && forall k :: k in rest <==> k in order && k != order[j]
  {
    var rest := order[..j] + order[j + 1..];
    assert order == order[..j] + [order[j]] + order[j + 1..];
    forall k <- rest ensures k != order[j] {
      var i :| 0 <= i < |rest| && rest[i] == k;
      assert rest[i] == (if i < j then order[i] else order[i + 1]);
    }
  }

  /** Within every budget. */
  ghost predicate Fits(t: Val) { ShapeFits(t, 0) && Nodes(t) <= MAX_NODES && Bytes(t) <= MAX_BYTES }

  // ---------- The key `length` ----------

  /** The value without the fields `length` of its records. */
  function Strip(u: Val): Val
    decreases u
  {
    match u
    case List(items) => List(seq(|items|, i requires 0 <= i < |items| => Strip(items[i])))
    case Record(fields) => Record(map k | k in fields && k != LENGTH :: Strip(fields[k]))
    case _ => u
  }

  /** No record has a key `length`. */
  predicate LengthFree(u: Val)
    decreases u
  {
    match u
    case List(items) => forall item <- items :: LengthFree(item)
    case Record(fields) => LENGTH !in fields && forall k <- fields :: LengthFree(fields[k])
    case _ => true
  }

  lemma {:induction false} StripIsLengthFree(u: Val)
    ensures LengthFree(Strip(u))
    decreases u
  {
    match u
    case List(items) =>
      var s := Strip(u).items;
      forall item <- s ensures LengthFree(item) {
        var i :| 0 <= i < |s| && s[i] == item;
        StripIsLengthFree(items[i]);
      }
    case Record(fields) =>
      forall k <- Strip(u).fields ensures LengthFree(Strip(u).fields[k]) { StripIsLengthFree(fields[k]); }
    case _ =>
  }

  /** A value survives exactly when no record has a key `length`. */
  lemma {:induction false} StripKeeps(u: Val)
    ensures Strip(u) == u <==> LengthFree(u)
    decreases u
  {
    match u
    case List(items) =>
      var s := Strip(u).items;
      forall i | 0 <= i < |items| ensures s[i] == items[i] <==> LengthFree(items[i]) { StripKeeps(items[i]); }
      if LengthFree(u) {
        assert forall i :: 0 <= i < |items| ==> items[i] in items;
        assert s == items;
      } else {
        var item :| item in items && !LengthFree(item);
        var i :| 0 <= i < |items| && items[i] == item;
        assert s[i] != items[i];
      }
    case Record(fields) =>
      var s := Strip(u).fields;
      forall k | k in fields && k != LENGTH ensures s[k] == fields[k] <==> LengthFree(fields[k]) {
        StripKeeps(fields[k]);
      }
      if LengthFree(u) { assert s == fields; }
    case _ =>
  }

  // ---------- Copies of finite values ----------

  /** Every record that is visited, its keys counted with `length`, has at most MAX_ITEMS of them. */
  predicate NarrowTree(u: Val)
    decreases u
  {
    match u
    case List(items) => forall item <- items :: NarrowTree(item)
    case Record(fields) => |fields| <= MAX_ITEMS && forall k <- fields :: k == LENGTH || NarrowTree(fields[k])
    case _ => true
  }

  /** What the boundary makes of a finite value. */
  ghost function OwnedTree(u: Val): Option<Val>
  {
    if NarrowTree(u) && Fits(Strip(u)) then Some(Strip(u)) else None
  }

  lemma {:induction false} FitsIsNarrow(u: Val, depth: nat)
    requires ShapeFits(u, depth)
    ensures NarrowTree(u)
    decreases u
  {
    match u
    case List(items) => forall item <- items ensures NarrowTree(item) { FitsIsNarrow(item, depth + 1); }
    case Record(fields) => forall k <- fields ensures NarrowTree(fields[k]) { FitsIsNarrow(fields[k], depth + 1); }
    case _ =>
  }

  /** A value is copied unchanged exactly when it is within the budgets and no record has a key `length`. */
  lemma OwnedUnchanged(u: Val)
    ensures OwnedTree(u) == Some(u) <==> Fits(u) && LengthFree(u)
  {
    hide Nodes, Bytes, NarrowTree, LengthFree, Strip, ShapeFits;
    StripKeeps(u);
    if Fits(u) { FitsIsNarrow(u, 0); }
  }

  /** A copy is copied unchanged. */
  lemma OwnedTwice(u: Val)
    requires OwnedTree(u).Some?
    ensures OwnedTree(OwnedTree(u).value) == OwnedTree(u) && LengthFree(OwnedTree(u).value) && Fits(OwnedTree(u).value)
  {
    hide Fits, LengthFree, Strip, NarrowTree;
    StripIsLengthFree(u);
    OwnedUnchanged(Strip(u));
  }
}
