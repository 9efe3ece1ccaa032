/** The browser-local review provider: a compare-and-swap over one stored record per binding, with two bounded memories
  * of completed operations. */
module BrowserLocal {
  import opened Wrappers
  import opened Utf16
  import opened OrderedMaps

  const MAX_RECEIPTS: nat := 100
  const MAX_COMPLETED_BYTES: nat := 128 * 1024
  const MAX_RECORD_BYTES: nat := 288 * 1024

  type Id = Text

  datatype Status = Open | Resolved

  datatype Message = Message(id: Id, body: Text, at: int)

  /** `version` is absent in threads that older releases stored; the pin is opaque. */
  datatype Thread = Thread(id: Id, version: Option<int>, pin: int, messages: seq<Message>, status: Status,
                           resolvedAt: Option<int>)

  datatype Kind = Create | Reply | Resolve | Reopen

  datatype Receipt = Success(threadId: Id, operation: Kind) | Conflicted(current: Option<Id>)

  datatype Operation = Operation(binding: Id, operationId: Id, kind: Kind, threadId: Id, expectedVersion: int,
                                 body: Text, pin: int)

  /** An operation's key: its binding and its id. */
  type Key = (Id, Id)

  datatype Record = Record(threads: seq<Thread>, receipts: OMap<Key, Receipt>)

  datatype Result =
    | Ok(thread: Thread)
    | Conflict(currentVersion: int, current: Option<Thread>)
    | Failure

  function KeyOf(op: Operation): Key { (op.binding, op.operationId) }

  /** `localVersion`. */
  function LocalVersion(t: Thread): int { t.version.GetOr(|t.messages| + if t.status == Resolved then 1 else 0) }

  function Find(threads: seq<Thread>, id: Id): (r: Option<Thread>)
    ensures r.Some? ==> r.value in threads && r.value.id == id
    ensures r.None? ==> forall t <- threads :: t.id != id
  {
    if threads == [] then None else if threads[0].id == id then Some(threads[0]) else Find(threads[1..], id)
  }

  // ---------- The memory of completed operations ----------

  datatype Cache = Cache(completed: OMap<Key, Receipt>, sizes: map<Key, nat>, bytes: int)

  function Total(keys: seq<Key>, sizes: map<Key, nat>): nat
  {
    if keys == [] then 0 else (if keys[0] in sizes then sizes[keys[0]] else 0) + Total(keys[1..], sizes)
  }

  /** Sizes are kept for exactly the remembered keys, their sum is the running total, and both bounds hold. */
  ghost predicate Tidy(c: Cache, size: (Key, Receipt) -> nat)
  {
    && Good(c.completed) && c.sizes.Keys == c.completed.data.Keys
    && (forall k <- c.sizes :: c.sizes[k] == size(k, c.completed.data[k]))
    && c.bytes == Total(c.completed.order, c.sizes) && |c.completed.order| <= MAX_RECEIPTS
    && c.bytes <= MAX_COMPLETED_BYTES
  }

  const FORGOTTEN := Cache(Empty(), map[], 0)

  function Drop<K, V>(m: OMap<K, V>, k: K): OMap<K, V> { Keep(m, m.data.Keys - {k}) }

  /** Drops the oldest entries until a new one of `size` bytes has room. */
  function Evict(m: OMap<Key, Receipt>, sizes: map<Key, nat>, size: nat): OMap<Key, Receipt>
    decreases |m.data|
  {
    if m.order != [] && m.order[0] in m.data
       && (|m.order| >= MAX_RECEIPTS || Total(m.order, sizes) + size > MAX_COMPLETED_BYTES)
    then
      Smaller(m.data, m.order[0]);
      Evict(Drop(m, m.order[0]), sizes, size)
    else m
  }

  lemma Smaller<K, V>(m: map<K, V>, k: K)
    requires k in m
    ensures |map x | x in m && x in m.Keys - {k} :: m[x]| < |m|
  {
    var rest := map x | x in m && x in m.Keys - {k} :: m[x];
    assert rest.Keys == m.Keys - {k};
    assert |rest| == |rest.Keys| && |m| == |m.Keys|;
  }

  /** The memory after an operation: its entry is the latest, and only as many of the oldest others are gone as must
    * be. */
  function Remember(c: Cache, key: Key, receipt: Receipt, size: nat): Cache
  {
    if size > MAX_COMPLETED_BYTES then c
    else
      var kept := Evict(Drop(c.completed, key), c.sizes, size);
      Cache(Set(kept, key, receipt), (map k | k in c.sizes && k in kept.data :: c.sizes[k])[key := size],
            Total(kept.order, c.sizes) + size)
  }

  // ---------- Sums of sizes ----------

  lemma {:induction false} TotalWithout(keys: seq<Key>, sizes: map<Key, nat>, k: Key, others: set<Key>)
    requires NoRepeats(keys) && k in keys && k !in others && forall x <- keys :: x == k || x in others
    ensures Total(keys, sizes) == (if k in sizes then sizes[k] else 0) + Total(Select(keys, others), sizes)
  {
    forall j | 1 <= j < |keys| ensures keys[0] != keys[j] {}
    if keys[0] == k {
      forall x <- keys[1..] ensures x in others {
        var j :| 0 <= j < |keys[1..]| && keys[1..][j] == x;
        assert keys[0] != keys[j + 1];
      }
      SelectAll(keys[1..], others);
      assert Select(keys, others) == keys[1..];
    } else {
      TotalWithout(keys[1..], sizes, k, others);
    }
  }

  lemma {:induction false} TotalAppend(keys: seq<Key>, k: Key, sizes: map<Key, nat>)
    ensures Total(keys + [k], sizes) == Total(keys, sizes) + if k in sizes then sizes[k] else 0
  {
    if keys == [] {
      assert [] + [k] == [k] && [k][1..] == [];
    } else {
      assert (keys + [k])[1..] == keys[1..] + [k];
      TotalAppend(keys[1..], k, sizes);
    }
  }

  lemma {:induction false} TotalSame(keys: seq<Key>, a: map<Key, nat>, b: map<Key, nat>)
    requires forall k <- keys :: (k in a <==> k in b) && (k in a ==> a[k] == b[k])
    ensures Total(keys, a) == Total(keys, b)
  {
    if keys != [] { TotalSame(keys[1..], a, b); }
  }

  // ---------- Dropping entries ----------

  /** Part of a map. */
  ghost predicate Part(m: OMap<Key, Receipt>, whole: OMap<Key, Receipt>)
  {
    Good(m) && |m.order| <= |whole.order| && forall k <- m.data :: k in whole.data && m.data[k] == whole.data[k]
  }

  lemma KeysInOrder(m: OMap<Key, Receipt>)
    requires Good(m)
    ensures forall k :: k in m.order <==> k in m.data
  {
    var keys := set k <- m.order;
    assert keys == m.data.Keys && forall k :: k in m.order <==> k in keys;
  }

  lemma DropPart(m: OMap<Key, Receipt>, k: Key)
    requires Good(m)
    ensures Part(Drop(m, k), m) && Good(Drop(m, k)) && Drop(m, k).data.Keys == m.data.Keys - {k}
  {
    KeepGood(m, m.data.Keys - {k});
    SelectMembers(m.order, m.data.Keys - {k});
    hide Good;
  }

  lemma DropTotal(m: OMap<Key, Receipt>, k: Key, sizes: map<Key, nat>)
    requires Good(m)
    ensures Total(Drop(m, k).order, sizes) == Total(m.order, sizes) - if k in m.data && k in sizes then sizes[k] else 0
  {
    KeysInOrder(m);
    if k in m.data {
      TotalWithout(m.order, sizes, k, m.data.Keys - {k});
    } else {
      SelectAll(m.order, m.data.Keys - {k});
    }
  }

  /** Dropping the oldest entry drops the front of the order. */
  lemma DropOldest(m: OMap<Key, Receipt>)
    requires Good(m) && m.order != []
    ensures m.order[0] in m.data && Drop(m, m.order[0]).order == m.order[1..]
  {
    KeysInOrder(m);
    var rest := m.data.Keys - {m.order[0]};
    forall x <- m.order[1..] ensures x in rest {
      var j :| 0 <= j < |m.order[1..]| && m.order[1..][j] == x;
      assert m.order[0] != m.order[j + 1];
    }
    SelectAll(m.order[1..], rest);
  }

  /** What is kept is the most recent part of the order, has room for the new entry, and had none with one entry
    * more. */
  lemma {:induction false} EvictsJustEnough(m: OMap<Key, Receipt>, sizes: map<Key, nat>, size: nat) returns (n: nat)
    requires Good(m) && size <= MAX_COMPLETED_BYTES
    ensures var kept := Evict(m, sizes, size);
            && Part(kept, m) && n <= |m.order| && kept.order == m.order[n..]
            && |kept.order| < MAX_RECEIPTS && Total(kept.order, sizes) + size <= MAX_COMPLETED_BYTES
            && (n > 0 ==> |m.order[n - 1..]| >= MAX_RECEIPTS
                          || Total(m.order[n - 1..], sizes) + size > MAX_COMPLETED_BYTES)
    decreases |m.data|
  {
    hide Good;
    if Evict(m, sizes, size) == m {
      n := 0;
      assert m.order[0..] == m.order;
      RoomAlready(m, sizes, size);
    } else {
      var rest := Drop(m, m.order[0]);
      DropOldest(m);
      DropPart(m, m.order[0]);
      Smaller(m.data, m.order[0]);
      var later := EvictsJustEnough(rest, sizes, size);
      n := later + 1;
      assert m.order[1..][later..] == m.order[n..];
      if later > 0 { assert m.order[1..][later - 1..] == m.order[n - 1..]; } else { assert m.order[0..] == m.order; }
    }
  }

  lemma RoomAlready(m: OMap<Key, Receipt>, sizes: map<Key, nat>, size: nat)
    requires Good(m) && size <= MAX_COMPLETED_BYTES && Evict(m, sizes, size) == m
    ensures |m.order| < MAX_RECEIPTS && Total(m.order, sizes) + size <= MAX_COMPLETED_BYTES
    ensures Part(m, m)
  {
    if m.order != [] {
      DropOldest(m);
      if |m.order| >= MAX_RECEIPTS || Total(m.order, sizes) + size > MAX_COMPLETED_BYTES {
        DropPart(m, m.order[0]);
        Smaller(m.data, m.order[0]);
        EvictShrinks(Drop(m, m.order[0]), sizes, size);
      }
    }
  }

  lemma {:induction false} EvictShrinks(m: OMap<Key, Receipt>, sizes: map<Key, nat>, size: nat)
    ensures |Evict(m, sizes, size).data| <= |m.data|
    decreases |m.data|
  {
    if Evict(m, sizes, size) != m {
      Smaller(m.data, m.order[0]);
      EvictShrinks(Drop(m, m.order[0]), sizes, size);
    }
  }

  /** Adding the entry to what was kept. */
  lemma AddedTidy(c: Cache, kept: OMap<Key, Receipt>, key: Key, receipt: Receipt, size: (Key, Receipt) -> nat,
                  sizes: map<Key, nat>)
    requires Tidy(c, size) && Part(kept, c.completed) && key !in kept.data
    requires |kept.order| < MAX_RECEIPTS && Total(kept.order, c.sizes) + size(key, receipt) <= MAX_COMPLETED_BYTES
    requires sizes == (map k | k in c.sizes && k in kept.data :: c.sizes[k])[key := size(key, receipt)]
    ensures Tidy(Cache(Set(kept, key, receipt), sizes, Total(kept.order, c.sizes) + size(key, receipt)), size)
  {
    SetGood(kept, key, receipt);
    KeysInOrder(kept);
    hide Good;
    TotalAppend(kept.order, key, sizes);
    TotalSame(kept.order, c.sizes, sizes);
  }

  lemma TidyGood(c: Cache, size: (Key, Receipt) -> nat)
    requires Tidy(c, size)
    ensures Good(c.completed)
  {
  }

  lemma PartOfDrop(kept: OMap<Key, Receipt>, m: OMap<Key, Receipt>, k: Key)
    requires Good(m) && Part(kept, Drop(m, k))
    ensures Part(kept, m) && k !in kept.data
  {
    DropPart(m, k);
    hide Good;
  }

  /** The memory stays tidy. */
  lemma RememberTidy(c: Cache, key: Key, receipt: Receipt, size: (Key, Receipt) -> nat)
    requires Tidy(c, size)
    ensures Tidy(Remember(c, key, receipt, size(key, receipt)), size)
  {
    hide Good, Evict, Tidy, Drop, Part;
    var n := size(key, receipt);
    if n <= MAX_COMPLETED_BYTES {
      TidyGood(c, size);
      DropPart(c.completed, key);
      var others := Drop(c.completed, key);
      var _ := EvictsJustEnough(others, c.sizes, n);
      var kept := Evict(others, c.sizes, n);
      PartOfDrop(kept, c.completed, key);
      AddedTidy(c, kept, key, receipt, size, (map k | k in c.sizes && k in kept.data :: c.sizes[k])[key := n]);
    }
  }

  /** While room is made for `key`: the running total and the sizes of what is left; a replaced entry's size lingers. */
  ghost predicate Evicting(was: Cache, key: Key, completed: OMap<Key, Receipt>, sizes: map<Key, nat>, bytes: int)
  {
    && Good(completed) && key !in completed.data && sizes.Keys - {key} == completed.data.Keys
    && (forall k <- sizes :: k in was.sizes && sizes[k] == was.sizes[k]) && bytes == Total(completed.order, was.sizes)
  }

  lemma EvictingStart(was: Cache, key: Key, size: (Key, Receipt) -> nat)
    requires Tidy(was, size)
    ensures Evicting(was, key, Drop(was.completed, key), was.sizes,
                     was.bytes - if key in was.sizes then was.sizes[key] else 0)
  {
    DropPart(was.completed, key);
    DropTotal(was.completed, key, was.sizes);
    hide Good, Drop;
  }

  lemma EvictingStep(was: Cache, key: Key, completed: OMap<Key, Receipt>, sizes: map<Key, nat>, bytes: int, n: nat)
    requires Evicting(was, key, completed, sizes, bytes) && completed.order != []
    requires |completed.order| >= MAX_RECEIPTS || bytes + n > MAX_COMPLETED_BYTES
    ensures var oldest := completed.order[0];
            && oldest in sizes && Evicting(was, key, Drop(completed, oldest), sizes - {oldest}, bytes - sizes[oldest])
            && Evict(Drop(completed, oldest), was.sizes, n) == Evict(completed, was.sizes, n)
            && |Drop(completed, oldest).data| < |completed.data|
  {
    var oldest := completed.order[0];
    DropOldest(completed);
    DropPart(completed, oldest);
    DropTotal(completed, oldest, was.sizes);
    Smaller(completed.data, oldest);
    hide Good, Part;
  }

  lemma EvictingDone(was: Cache, key: Key, completed: OMap<Key, Receipt>, sizes: map<Key, nat>, bytes: int, n: nat)
    requires Evicting(was, key, completed, sizes, bytes) && n <= MAX_COMPLETED_BYTES
    requires completed.order == [] || (|completed.order| < MAX_RECEIPTS && bytes + n <= MAX_COMPLETED_BYTES)
    ensures bytes + n <= MAX_COMPLETED_BYTES && Evict(completed, was.sizes, n) == completed
            && bytes == Total(completed.order, was.sizes)
    ensures sizes[key := n] == (map k | k in was.sizes && k in completed.data :: was.sizes[k])[key := n]
  {
    hide Good;
  }

  /** A remembered operation is the most recent entry; the older ones kept are untouched. */
  lemma RememberLatest(c: Cache, key: Key, receipt: Receipt, size: nat)
    requires Good(c.completed) && size <= MAX_COMPLETED_BYTES
    ensures var r, others := Remember(c, key, receipt, size).completed, Drop(c.completed, key);
            && key in r.data && r.data[key] == receipt && r.order != [] && r.order[|r.order| - 1] == key
            && (exists n: nat :: n <= |others.order| && r.order == others.order[n..] + [key])
            && forall k <- r.data :: k != key ==> k in c.completed.data && r.data[k] == c.completed.data[k]
  {
    DropPart(c.completed, key);
    var n := EvictsJustEnough(Drop(c.completed, key), c.sizes, size);
    hide Good, Evict;
    assert Remember(c, key, receipt, size).completed.order == Drop(c.completed, key).order[n..] + [key];
  }

  class CompletedCache {
    const size: (Key, Receipt) -> nat
    var completed: OMap<Key, Receipt>
    var completedSizes: map<Key, nat>
    var completedBytes: int

    function View(): Cache
      reads this
    {
      Cache(completed, completedSizes, completedBytes)
    }

    constructor (size: (Key, Receipt) -> nat)
      ensures this.size == size && View() == FORGOTTEN && Tidy(View(), size)
    {
      this.size := size;
      completed, completedSizes, completedBytes := Empty(), map[], 0;
    }

    /** `rememberCompleted`. The source's last early return is never taken: the assertion before the writes shows it. */
    method RememberCompleted(key: Key, receipt: Receipt)
      requires Tidy(View(), size)
      modifies this
      ensures View() == Remember(old(View()), key, receipt, size(key, receipt)) && Tidy(View(), size)
    {
      hide Good, Drop, Tidy, Evicting, Evict, Total;
      ghost var was := View();
      RememberTidy(was, key, receipt, size);
      var bytes := size(key, receipt);
      if bytes > MAX_COMPLETED_BYTES { return; }
      EvictingStart(was, key, size);
      if key in completedSizes { completedBytes := completedBytes - completedSizes[key]; }
      completed := Drop(completed, key);
      while |completed.order| > 0 && (|completed.order| >= MAX_RECEIPTS || completedBytes + bytes > MAX_COMPLETED_BYTES)
        invariant Evicting(was, key, completed, completedSizes, completedBytes)
        invariant Evict(completed, was.sizes, bytes) == Evict(Drop(was.completed, key), was.sizes, bytes)
        decreases |completed.data|
      {
        var oldest := completed.order[0];
        EvictingStep(was, key, completed, completedSizes, completedBytes, bytes);
        completedBytes := completedBytes - completedSizes[oldest];
        completed := Drop(completed, oldest);
        completedSizes := completedSizes - {oldest};
      }
      EvictingDone(was, key, completed, completedSizes, completedBytes, bytes);
      assert completedBytes + bytes <= MAX_COMPLETED_BYTES;
      completed := Set(completed, key, receipt);
      completedSizes := completedSizes[key := bytes];
      completedBytes := completedBytes + bytes;
    }
  }
}
