/** Replacing one owner's entries of an ordered map by new ones, and listing the entries of an owner in order. */
module MapSwaps {
  import opened Wrappers
  import opened OrderedMaps

  /** `[...values()].filter(…)`: the values whose keys lie in `keep`, in order. */
  function Picked<K, V>(order: seq<K>, data: map<K, V>, keep: set<K>): seq<V>
  {
    if order == [] then []
    else (if order[0] in data && order[0] in keep then [data[order[0]]] else []) + Picked(order[1..], data, keep)
  }

  function Listed<K, V>(m: OMap<K, V>, keep: set<K>): seq<V> { Picked(m.order, m.data, keep) }

  /** Drops the entries in `gone`, then sets the new values one by one. */
  function Swap<K, V>(m: OMap<K, V>, gone: set<K>, values: seq<V>, key: V -> K): OMap<K, V>
  {
    SetAll(Keep(m, m.data.Keys - gone), values, key)
  }

  /** No new value takes the place of an entry that stays. */
  ghost predicate Free<K, V>(m: OMap<K, V>, gone: set<K>, values: seq<V>, key: V -> K)
  {
    forall v <- values :: key(v) in m.data ==> key(v) in gone
  }

  /** What a swap does to the entries: the others stay, and the rest are new values under their own keys. */
  ghost predicate Swapped<K, V>(before: map<K, V>, gone: set<K>, values: seq<V>, key: V -> K, after: map<K, V>)
  {
    && (forall k <- before :: k !in gone ==> k in after && after[k] == before[k])
    && (forall v <- values :: key(v) in after && (key(v) !in before || key(v) in gone))
    && (forall k <- after :: (k in before && k !in gone) || (after[k] in values && key(after[k]) == k))
  }

  lemma SwapSwaps<K(!new), V(!new)>(m: OMap<K, V>, gone: set<K>, values: seq<V>, key: V -> K)
    requires Good(m) && Free(m, gone, values, key)
    ensures Good(Swap(m, gone, values, key))
    ensures Swapped(m.data, gone, values, key, Swap(m, gone, values, key).data)
  {
    var kept := Keep(m, m.data.Keys - gone);
    KeepGood(m, m.data.Keys - gone);
    SetAllGood(kept, values, key);
    hide Good;
    var after := Swap(m, gone, values, key).data;
    forall k <- after
      ensures (k in m.data && k !in gone) || (after[k] in values && key(after[k]) == k)
      ensures k in m.data && k !in gone ==> after[k] == m.data[k]
    {
      SetAllFrom(kept, values, key, k);
    }
    forall k <- m.data | k !in gone ensures k in after { assert k in kept.data.Keys; }
  }

  lemma Regroup<T>(a: seq<T>, b: seq<T>, c: seq<T>)
    ensures a + (b + c) == (a + b) + c
  {}

  lemma {:induction false} PickedConcat<K(!new), V(!new)>(a: seq<K>, b: seq<K>, data: map<K, V>, keep: set<K>)
    ensures Picked(a + b, data, keep) == Picked(a, data, keep) + Picked(b, data, keep)
  {
    if a == [] {
      assert a + b == b;
    } else {
      PickedConcat(a[1..], b, data, keep);
      assert (a + b)[1..] == a[1..] + b;
      var first := if a[0] in data && a[0] in keep then [data[a[0]]] else [];
      var left, right := Picked(a[1..], data, keep), Picked(b, data, keep);
      assert Picked(a + b, data, keep) == first + (left + right);
      assert Picked(a, data, keep) == first + left;
      Regroup(first, left, right);
    }
  }

  lemma {:induction false} PickedSame<K(!new), V(!new)>(order: seq<K>, a: map<K, V>, b: map<K, V>, keepA: set<K>,
                                                        keepB: set<K>)
    requires forall k <- order :: (k in a && k in keepA) <==> (k in b && k in keepB)
    requires forall k <- order :: k in a && k in keepA && k in b ==> a[k] == b[k]
    ensures Picked(order, a, keepA) == Picked(order, b, keepB)
  {
    if order != [] { PickedSame(order[1..], a, b, keepA, keepB); }
  }

  lemma {:induction false} PickedNone<K(!new), V(!new)>(order: seq<K>, data: map<K, V>, keep: set<K>)
    requires forall k <- order :: k in data ==> k !in keep
    ensures Picked(order, data, keep) == []
  {
    if order != [] { PickedNone(order[1..], data, keep); }
  }

  lemma {:induction false} PickedFromSelected<K(!new), V(!new)>(order: seq<K>, data: map<K, V>, outer: set<K>,
                                                                keep: set<K>)
    requires forall k <- keep :: k in data ==> k in outer
    ensures Picked(Select(order, outer), data, keep) == Picked(order, data, keep)
  {
    if order != [] {
      PickedFromSelected(order[1..], data, outer, keep);
      PickedConcat(if order[0] in outer then [order[0]] else [], Select(order[1..], outer), data, keep);
      if order[0] in outer { assert [order[0]][1..] == []; }
    }
  }

  lemma {:induction false} PickedShort<K(!new), V(!new)>(order: seq<K>, data: map<K, V>, keep: set<K>)
    ensures |Picked(order, data, keep)| <= |order|
  {
    if order != [] { PickedShort(order[1..], data, keep); }
  }

  lemma {:induction false} PickedKeys<K(!new), V(!new)>(values: seq<V>, key: V -> K, data: map<K, V>, keep: set<K>)
    requires forall v <- values :: key(v) in data && data[key(v)] == v && key(v) in keep
    ensures Picked(KeysOf(values, key), data, keep) == values
  {
    if values != [] {
      assert values[0] in values;
      PickedKeys(values[1..], key, data, keep);
      assert KeysOf(values, key)[1..] == KeysOf(values[1..], key);
      assert values == [values[0]] + values[1..];
    }
  }

  /** Setting values only appends to the order, and appends only their keys. */
  lemma {:induction false} SetAllExtends<K(!new), V(!new)>(m: OMap<K, V>, values: seq<V>, key: V -> K)
    ensures m.order <= SetAll(m, values, key).order
    ensures forall k <- SetAll(m, values, key).order[|m.order|..] :: exists v <- values :: key(v) == k
    decreases |values|
  {
    if values != [] {
      var next, r := Set(m, key(values[0]), values[0]), SetAll(m, values, key);
      SetAllExtends(next, values[1..], key);
      SetExtends(m, key(values[0]), values[0]);
      hide Set, SetAll;
      assert r.order[|m.order|..] == next.order[|m.order|..] + r.order[|next.order|..];
      forall k <- r.order[|m.order|..] ensures exists v <- values :: key(v) == k {
        if k in r.order[|next.order|..] {
          var v :| v in values[1..] && key(v) == k;
          assert v in values;
        } else {
          assert k == key(values[0]) && values[0] in values;
        }
      }
    }
  }

  lemma SetExtends<K(!new), V(!new)>(m: OMap<K, V>, k: K, v: V)
    ensures m.order <= Set(m, k, v).order && forall x <- Set(m, k, v).order[|m.order|..] :: x == k
  {}

  /** Setting values under keys outside `others` lists the others as before. */
  lemma SetAllOther<K(!new), V(!new)>(m: OMap<K, V>, values: seq<V>, key: V -> K, others: set<K>)
    requires forall v <- values :: key(v) !in others
    ensures var r := SetAll(m, values, key); Listed(r, others) == Picked(m.order, r.data, others)
  {
    var r := SetAll(m, values, key);
    SetAllExtends(m, values, key);
    var added := r.order[|m.order|..];
    assert r.order == m.order + added;
    PickedConcat(m.order, added, r.data, others);
    PickedNone(added, r.data, others);
    assert Picked(m.order, r.data, others) + [] == Picked(m.order, r.data, others);
  }

  /** Entries that are neither dropped nor set are listed as before. */
  lemma SwapOther<K(!new), V(!new)>(m: OMap<K, V>, gone: set<K>, values: seq<V>, key: V -> K, others: set<K>)
    requires Good(m) && Free(m, gone, values, key) && others !! gone && (forall v <- values :: key(v) !in others)
    ensures Listed(Swap(m, gone, values, key), others) == Listed(m, others)
  {
    SwapSwaps(m, gone, values, key);
    hide Good, Free, SetAll;
    var kept, r := Keep(m, m.data.Keys - gone), Swap(m, gone, values, key);
    SetAllOther(kept, values, key, others);
    PickedFromSelected(m.order, m.data, m.data.Keys - gone, others);
    SwapAgrees(m.data, gone, values, key, r.data, others);
    PickedSame(kept.order, r.data, m.data, others, others);
  }

  lemma SwapAgrees<K(!new), V(!new)>(before: map<K, V>, gone: set<K>, values: seq<V>, key: V -> K, after: map<K, V>,
                                     others: set<K>)
    requires Swapped(before, gone, values, key, after) && others !! gone && (forall v <- values :: key(v) !in others)
    ensures forall k <- others :: k in after <==> k in before
    ensures forall k <- others :: k in after && k in before ==> after[k] == before[k]
  {}

  /** When no key already there is wanted, only the appended keys are listed. */
  lemma ListedIsAdded<K(!new), V(!new)>(m: OMap<K, V>, values: seq<V>, key: V -> K, mine: set<K>)
    requires forall k <- m.order :: k !in mine
    ensures var r := SetAll(m, values, key);
            m.order <= r.order && Listed(r, mine) == Picked(r.order[|m.order|..], r.data, mine)
  {
    var r := SetAll(m, values, key);
    SetAllExtends(m, values, key);
    var added := r.order[|m.order|..];
    assert r.order == m.order + added;
    PickedConcat(m.order, added, r.data, mine);
    PickedNone(m.order, r.data, mine);
    assert [] + Picked(added, r.data, mine) == Picked(added, r.data, mine);
  }

  /** The new values are listed exactly as given when their keys differ, and are fewer when they do not. */
  lemma SwapMine<K(!new), V(!new)>(m: OMap<K, V>, gone: set<K>, values: seq<V>, key: V -> K, mine: set<K>)
    requires Good(m) && Free(m, gone, values, key)
    requires (forall v <- values :: key(v) in mine) && (forall k <- mine :: k in m.data ==> k in gone)
    ensures Listed(Swap(m, gone, values, key), mine) == values <==> NoRepeats(KeysOf(values, key))
    ensures !NoRepeats(KeysOf(values, key)) ==> |Listed(Swap(m, gone, values, key), mine)| < |values|
  {
    var kept, r := Keep(m, m.data.Keys - gone), Swap(m, gone, values, key);
    KeepGood(m, m.data.Keys - gone);
    KeptOrder(m, gone);
    hide Good, NoRepeats;
    ListedIsAdded(kept, values, key, mine);
    var added := r.order[|kept.order|..];
    PickedShort(added, r.data, mine);
    SetAllShrinks(kept, values, key);
    if NoRepeats(KeysOf(values, key)) {
      SetAllAppends(kept, values, key);
      SetAllStores(kept, values, key);
      assert added == KeysOf(values, key);
      PickedKeys(values, key, r.data, mine);
    }
  }

  lemma KeptOrder<K(!new), V(!new)>(m: OMap<K, V>, gone: set<K>)
    requires Good(m)
    ensures forall k <- Keep(m, m.data.Keys - gone).order :: k in m.data && k !in gone
  {
    SelectMembers(m.order, m.data.Keys - gone);
  }

  // ---------- Entries by owner ----------

  function OwnedBy<K, V, O(==)>(m: map<K, V>, owner: V -> O, p: O): set<K> { set k <- m | owner(m[k]) == p }

  /** Owners are read off other records, which change too: those of the other entries stay, those of the new are `p`. */
  ghost predicate OwnersHold<K, V, O>(before: map<K, V>, owner: V -> O, later: V -> O, p: O, values: seq<V>)
  {
    && (forall k <- before :: owner(before[k]) != p ==> later(before[k]) == owner(before[k]))
    && (forall v <- values :: later(v) == p)
  }

  lemma OwnedAfter<K(!new), V(!new), O(!new)>(
    before: map<K, V>, owner: V -> O, later: V -> O, p: O, values: seq<V>, key: V -> K, after: map<K, V>, q: O)
    requires Swapped(before, OwnedBy(before, owner, p), values, key, after)
             && OwnersHold(before, owner, later, p, values)
    ensures q != p ==> OwnedBy(after, later, q) == OwnedBy(before, owner, q)
    ensures forall k <- OwnedBy(after, later, p) :: k in before ==> k in OwnedBy(before, owner, p)
    ensures forall v <- values :: key(v) in OwnedBy(after, later, p)
  {
    if q != p {
      forall k ensures k in OwnedBy(after, later, q) <==> k in OwnedBy(before, owner, q) {}
    }
    forall v <- values ensures key(v) in OwnedBy(after, later, p) { assert after[key(v)] in values; }
  }

  /** Every other owner's entries are listed as before. */
  lemma OthersListed<K(!new), V(!new), O(!new)>(
    m: OMap<K, V>, owner: V -> O, later: V -> O, p: O, values: seq<V>, key: V -> K, q: O)
    requires Good(m) && Free(m, OwnedBy(m.data, owner, p), values, key) && OwnersHold(m.data, owner, later, p, values)
             && q != p
    ensures var r := Swap(m, OwnedBy(m.data, owner, p), values, key);
            Listed(r, OwnedBy(r.data, later, q)) == Listed(m, OwnedBy(m.data, owner, q))
  {
    var gone := OwnedBy(m.data, owner, p);
    var r := Swap(m, gone, values, key);
    SwapSwaps(m, gone, values, key);
    OwnedAfter(m.data, owner, later, p, values, key, r.data, q);
    hide Swap, Good;
    SwapOther(m, gone, values, key, OwnedBy(m.data, owner, q));
  }

  /** The owner's entries are listed as the new values exactly when their keys differ, and are fewer when they do
    * not. */
  lemma OwnListed<K(!new), V(!new), O(!new)>(
    m: OMap<K, V>, owner: V -> O, later: V -> O, p: O, values: seq<V>, key: V -> K)
    requires Good(m) && Free(m, OwnedBy(m.data, owner, p), values, key) && OwnersHold(m.data, owner, later, p, values)
    ensures var r := Swap(m, OwnedBy(m.data, owner, p), values, key);
            && (Listed(r, OwnedBy(r.data, later, p)) == values <==> NoRepeats(KeysOf(values, key)))
            && (!NoRepeats(KeysOf(values, key)) ==> |Listed(r, OwnedBy(r.data, later, p))| < |values|)
  {
    var gone := OwnedBy(m.data, owner, p);
    var r := Swap(m, gone, values, key);
    SwapSwaps(m, gone, values, key);
    OwnedAfter(m.data, owner, later, p, values, key, r.data, p);
    hide Swap, Good, Free, OwnersHold, NoRepeats;
    SwapMine(m, gone, values, key, OwnedBy(r.data, later, p));
  }
}
