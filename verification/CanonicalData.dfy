/** `serializeCanonicalData` on object graphs. */
module CanonicalData {
  import opened Wrappers
  import opened Utf16
  import opened JsonStrings
  import opened JsonNumbers
  import opened SortedKeys
  import opened Documents
  import opened CanonicalText
  import opened Heaps
  import S = JsonSyntax

  datatype Limits = Limits(maxDepth: nat, maxEntries: nat, maxEncodedBytes: nat, maxStringBytes: nat, maxKeyBytes: nat)

  /** `keys.sort()`. */
  ghost const CODE_UNITS: Order := (s: set<Text>) => Sorted(s)

  lemma CodeUnitsList()
    ensures Lists(CODE_UNITS)
  {
  }

  /** Depth, string and key budgets. */
  predicate ShapeFits(t: Val, depth: nat, limits: Limits)
    decreases t
  {
    match t
    case Str(s) => Utf8Length(s) <= limits.maxStringBytes
    case List(items) => depth <= limits.maxDepth && forall item <- items :: ShapeFits(item, depth + 1, limits)
    case Record(fields) =>
      && depth <= limits.maxDepth
      && forall k <- fields :: Utf8Length(k) <= limits.maxKeyBytes && ShapeFits(fields[k], depth + 1, limits)
    case _ => true
  }

  /** Own property names, per occurrence; an array also has its `length`. */
  ghost function Entries(t: Val): nat
    decreases t, 1, 0
  {
    match t
    case List(items) => |items| + 1 + EntriesItems(t, 0)
    case Record(fields) => |fields| + EntriesMembers(t, Sorted(fields.Keys), 0)
    case _ => 0
  }

  ghost function EntriesItems(t: Val, i: nat): nat
    requires t.List? && i <= |t.items|
    decreases t, 0, |t.items| - i
  {
    if i == |t.items| then 0 else Entries(t.items[i]) + EntriesItems(t, i + 1)
  }

  ghost function EntriesMembers(t: Val, keys: seq<Text>, i: nat): nat
    requires t.Record? && i <= |keys|
    decreases t, 0, |keys| - i
  {
    if i == |keys| then 0
    else (if keys[i] in t.fields then Entries(t.fields[keys[i]]) else 0) + EntriesMembers(t, keys, i + 1)
  }

  /** Everything the serializer requires of a value. */
  ghost predicate Accepts(t: Val, limits: Limits, n: NumberCodec)
  {
    CodeUnitsList();
    ShapeFits(t, 0, limits) && Entries(t) <= limits.maxEntries
    && Utf8Length(Canon(t, n, CODE_UNITS)) <= limits.maxEncodedBytes
  }

  class Serializer {
    const heap: Heap
    const limits: Limits
    const numbers: NumberCodec
    var seen: set<Ref>
    var entries: nat
    var encodedBytes: nat
    var text: Text

    constructor (heap: Heap, limits: Limits, numbers: NumberCodec)
      ensures this.heap == heap && this.limits == limits && this.numbers == numbers
      ensures seen == {} && entries == 0 && encodedBytes == 0 && text == []
    {
      this.heap, this.limits, this.numbers := heap, limits, numbers;
      seen, entries, encodedBytes, text := {}, 0, 0, [];
    }

    ghost predicate Ready()
    {
      numbers.Valid() && Lists(CODE_UNITS)
    }

    /** `append`: counts the bytes of a chunk, and throws when they exceed the limit. */
    method Append(chunk: Text) returns (ok: bool)
      modifies this`encodedBytes, this`text
      ensures encodedBytes == old(encodedBytes) + Utf8Length(chunk) && text == old(text) + chunk
      ensures ok <==> encodedBytes <= limits.maxEncodedBytes
    {
      encodedBytes, text := encodedBytes + Utf8Length(chunk), text + chunk;
      ok := encodedBytes <= limits.maxEncodedBytes;
    }

    /** The value fits its own budgets and what is left of the shared ones. */
    ghost predicate Affords(t: Val, depth: nat, entries: nat, bytes: nat)
      requires Ready()
    {
      && ShapeFits(t, depth, limits) && entries + Entries(t) <= limits.maxEntries
      && bytes + CanonBytes(t, numbers, CODE_UNITS) <= limits.maxEncodedBytes
    }

    /** What a successful visit has done. */
    twostate predicate Visited(t: Val)
      requires Ready()
      reads this
    {
      && text == old(text) + Canon(t, numbers, CODE_UNITS) && entries == old(entries) + Entries(t)
      && encodedBytes == old(encodedBytes) + CanonBytes(t, numbers, CODE_UNITS) && seen == old(seen)
    }

    method Primitive(t: Val) returns (ok: bool)
      requires Ready() && Heaps.Primitive(t)
      modifies this`encodedBytes, this`text
      ensures encodedBytes == old(encodedBytes) + CanonBytes(t, numbers, CODE_UNITS)
      ensures ok ==> text == old(text) + Canon(t, numbers, CODE_UNITS)
      ensures ok <==> ShapeFits(t, 0, limits) && encodedBytes <= limits.maxEncodedBytes
    {
      match t
      case Null => ok := Append(S.NULL);
      case Bool(b) => ok := Append(if b then S.TRUE else S.FALSE);
      case Num(x) => ok := Append(numbers.show(x));
      case Str(s) =>
        ok := Append(Quote(s));
        ok := ok && Utf8Length(s) <= limits.maxStringBytes;
    }

    method Visit(current: Value, depth: nat) returns (ok: bool)
      requires Ready() && AllBelow(heap, seen, current) && entries <= limits.maxEntries
               && encodedBytes <= limits.maxEncodedBytes
      modifies this
      ensures ok <==> Unfolding(heap, current).Some?
                      && Affords(Unfolding(heap, current).value, depth, old(entries), old(encodedBytes))
      ensures ok ==> Visited(Unfolding(heap, current).value)
      decreases limits.maxDepth + 1 - depth, 3
    {
      hide Canon, CanonBytes, Utf8Length, Below;
      match current
      case Alien => ok := false;
      case Prim(t) =>
        if Heaps.Primitive(t) {
          UnfoldingIs(heap, current, t);
          ok := this.Primitive(t);
        } else {
          ok := false;
        }
      case Object(r) =>
        if depth > limits.maxDepth || r !in heap {
          TooDeep(heap, r, depth, limits);
          return false;
        }
        if r in seen {
          CycleUnfoldsToNothing(heap, r);
          return false;
        }
        if heap[r].Array? { ok := VisitArray(r, depth); } else { ok := VisitFields(r, depth); }
    }

    method VisitArray(r: Ref, depth: nat) returns (ok: bool)
      requires Ready() && r in heap && heap[r].Array? && r !in seen && depth <= limits.maxDepth
               && AllBelow(heap, seen, Object(r))
      requires entries <= limits.maxEntries && encodedBytes <= limits.maxEncodedBytes
      modifies this
      ensures ok <==> Unfolding(heap, Object(r)).Some?
                      && Affords(Unfolding(heap, Object(r)).value, depth, old(entries), old(encodedBytes))
      ensures ok ==> Visited(Unfolding(heap, Object(r)).value)
      decreases limits.maxDepth + 1 - depth, 1
    {
      hide Canon, CanonBytes, Entries, ShapeFits, Utf8Length, Below, CanonItems, ItemsBytes, EntriesItems, AllBelow,
        Lists, Unfolds;
      UnfoldingArray(heap, r);
      ghost var t := Unfolding(heap, Object(r));
      ghost var before := seen;
      if t.Some? { ArrayCosts(t.value, depth, limits, numbers); }
      OneByte(S.LBRACKET); OneByte(S.RBRACKET);
      seen := seen + {r};
      entries := entries + |heap[r].items| + 1;
      if entries > limits.maxEntries { return false; }
      ok := Append([S.LBRACKET]);
      if !ok { return; }
      ok := VisitItems(r, depth, before);
      if !ok { return; }
      seen := seen - {r};
      ok := Append([S.RBRACKET]);
      assert t.Some? ==> text == old(text) + Canon(t.value, numbers, CODE_UNITS) by {
        if t.Some? { Wrapped(old(text), S.LBRACKET, CanonItems(t.value, 0, numbers, CODE_UNITS), S.RBRACKET); }
      }
    }

    /** The loop over the items of an array that is on the path. */
    method VisitItems(r: Ref, depth: nat, ghost before: set<Ref>) returns (ok: bool)
      requires Ready() && r in heap && heap[r].Array? && depth <= limits.maxDepth
      requires seen == before + {r} && AllBelow(heap, before, Object(r))
      requires entries <= limits.maxEntries && encodedBytes <= limits.maxEncodedBytes
      modifies this
      ensures ok <==>
              && Unfolding(heap, Object(r)).Some?
              && var t := Unfolding(heap, Object(r)).value;
                 && t.List? && (forall item <- t.items :: ShapeFits(item, depth + 1, limits))
                 && old(entries) + EntriesItems(t, 0) <= limits.maxEntries
                 && old(encodedBytes) + ItemsBytes(t, 0, numbers, CODE_UNITS) <= limits.maxEncodedBytes
      ensures ok ==>
                var t := Unfolding(heap, Object(r)).value;
                && text == old(text) + CanonItems(t, 0, numbers, CODE_UNITS)
                && entries == old(entries) + EntriesItems(t, 0)
                && encodedBytes == old(encodedBytes) + ItemsBytes(t, 0, numbers, CODE_UNITS) && seen == old(seen)
      decreases limits.maxDepth + 1 - depth, 0
    {
      hide Canon, CanonBytes, Utf8Length, Below, AllBelow, Lists, Entries, ShapeFits, Unfolds;
      UnfoldingArray(heap, r);
      var items := heap[r].items;
      ghost var t := Unfolding(heap, Object(r));
      ghost var start := text;
      var i := 0;
      while i < |items|
        invariant 0 <= i <= |items|
        invariant seen == before + {r} && entries <= limits.maxEntries && encodedBytes <= limits.maxEncodedBytes
        invariant forall j :: 0 <= j < i ==> Unfolding(heap, items[j]).Some?
        invariant t.Some? ==> forall j :: 0 <= j < i ==> ShapeFits(t.value.items[j], depth + 1, limits)
        invariant t.Some? ==> entries + EntriesItems(t.value, i) == old(entries) + EntriesItems(t.value, 0)
        invariant t.Some? ==> encodedBytes + ItemsBytes(t.value, i, numbers, CODE_UNITS)
                              == old(encodedBytes) + ItemsBytes(t.value, 0, numbers, CODE_UNITS)
        invariant t.Some? ==> text + CanonItems(t.value, i, numbers, CODE_UNITS)
                              == start + CanonItems(t.value, 0, numbers, CODE_UNITS)
      {
        ItemBelow(heap, r, i);
        PathDown(heap, before, r, items[i]);
        ghost var here := text;
        if i > 0 {
          OneByte(S.COMMA);
          ok := Append([S.COMMA]);
          if !ok { return; }
        }
        ok := Visit(items[i], depth + 1);
        assert t.Some? ==> t.value.items[i] in t.value.items;
        if !ok { return; }
        if t.Some? {
          ItemAppended(here, text, t.value, i, numbers);
        }
        i := i + 1;
      }
      ok := true;
    }

    method VisitFields(r: Ref, depth: nat) returns (ok: bool)
      requires Ready() && r in heap && heap[r].Fields? && r !in seen && depth <= limits.maxDepth
               && AllBelow(heap, seen, Object(r))
      requires entries <= limits.maxEntries && encodedBytes <= limits.maxEncodedBytes
      modifies this
      ensures ok <==> Unfolding(heap, Object(r)).Some?
                      && Affords(Unfolding(heap, Object(r)).value, depth, old(entries), old(encodedBytes))
      ensures ok ==> Visited(Unfolding(heap, Object(r)).value)
      decreases limits.maxDepth + 1 - depth, 2
    {
      hide Canon, CanonBytes, Entries, ShapeFits, Utf8Length, Below, CanonMembers, MembersBytes, EntriesMembers,
        AllBelow, Sorted, Lists, Unfolds;
      UnfoldingFields(heap, r);
      ghost var t := Unfolding(heap, Object(r));
      ghost var before := seen;
      if t.Some? { RecordCosts(t.value, depth, limits, numbers); }
      OneByte(S.LBRACE); OneByte(S.RBRACE);
      seen := seen + {r};
      entries := entries + |heap[r].fields|;
      if entries > limits.maxEntries { return false; }
      ok := Append([S.LBRACE]);
      if !ok { return; }
      var keys := SortKeys(heap[r].fields.Keys);
      ok := VisitMembers(r, keys, depth, before);
      if !ok { return; }
      seen := seen - {r};
      ok := Append([S.RBRACE]);
      assert t.Some? ==> text == old(text) + Canon(t.value, numbers, CODE_UNITS) by {
        if t.Some? { Wrapped(old(text), S.LBRACE, CanonMembers(t.value, keys, 0, numbers, CODE_UNITS), S.RBRACE); }
      }
    }

    /** One key and its value. */
    method VisitMember(r: Ref, key: Text, i: nat, depth: nat, ghost before: set<Ref>) returns (ok: bool)
      requires Ready() && r in heap && heap[r].Fields? && key in heap[r].fields && depth <= limits.maxDepth
      requires seen == before + {r} && AllBelow(heap, before, Object(r))
      requires entries <= limits.maxEntries && encodedBytes <= limits.maxEncodedBytes
      modifies this
      ensures ok <==>
              && Utf8Length(key) <= limits.maxKeyBytes && Unfolding(heap, heap[r].fields[key]).Some?
              && Affords(Unfolding(heap, heap[r].fields[key]).value, depth + 1, old(entries),
                         old(encodedBytes) + |Comma(i)| + Utf8Length(Quote(key)) + 1)
      ensures ok ==>
                var u := Unfolding(heap, heap[r].fields[key]).value;
                && text == ((old(text) + Comma(i)) + Quote(key) + [S.COLON]) + Canon(u, numbers, CODE_UNITS)
                && entries == old(entries) + Entries(u) && entries <= limits.maxEntries
                && encodedBytes <= limits.maxEncodedBytes
                && encodedBytes == old(encodedBytes) + |Comma(i)| + Utf8Length(Quote(key)) + 1
                   + CanonBytes(u, numbers, CODE_UNITS)
                && seen == old(seen)
      decreases limits.maxDepth + 1 - depth, 0
    {
      hide Canon, CanonBytes, Utf8Length, Below, AllBelow, Lists, Entries, ShapeFits, Unfolds, Quote;
      FieldBelow(heap, r, key);
      PathDown(heap, before, r, heap[r].fields[key]);
      if Utf8Length(key) > limits.maxKeyBytes { return false; }
      if i > 0 {
        OneByte(S.COMMA);
        ok := Append([S.COMMA]);
        if !ok { return; }
      }
      assert text == old(text) + Comma(i);
      ok := Append(Quote(key));
      if !ok { return; }
      OneByte(S.COLON);
      ok := Append([S.COLON]);
      if !ok { return; }
      ok := Visit(heap[r].fields[key], depth + 1);
    }

    /** The loop over the sorted keys of a record that is on the path. */
    method VisitMembers(r: Ref, keys: seq<Text>, depth: nat, ghost before: set<Ref>) returns (ok: bool)
      requires Ready() && r in heap && heap[r].Fields? && depth <= limits.maxDepth
               && (set k <- keys) == heap[r].fields.Keys
      requires seen == before + {r} && AllBelow(heap, before, Object(r))
      requires entries <= limits.maxEntries && encodedBytes <= limits.maxEncodedBytes
      modifies this
      ensures ok <==>
              && Unfolding(heap, Object(r)).Some?
              && MembersAffordable(Unfolding(heap, Object(r)).value, keys, depth, limits, numbers, old(entries),
                                   old(encodedBytes))
      ensures ok ==>
                var t := Unfolding(heap, Object(r)).value;
                && text == old(text) + CanonMembers(t, keys, 0, numbers, CODE_UNITS)
                && entries == old(entries) + EntriesMembers(t, keys, 0)
                && encodedBytes == old(encodedBytes) + MembersBytes(t, keys, 0, numbers, CODE_UNITS)
                && seen == old(seen)
      decreases limits.maxDepth + 1 - depth, 1
    {
      hide Canon, CanonBytes, Utf8Length, Below, AllBelow, Lists, Entries, ShapeFits, Unfolds, Quote, CanonMembers,
        MembersBytes,
        EntriesMembers, MembersAffordable, MemberProgress, Unfolding, AllUnfold;
      UnfoldingFields(heap, r);
      KeysCover(heap, r, keys);
      ghost var t, start := Unfolding(heap, Object(r)), text;
      if t.Some? { MembersStart(t.value, keys, depth, limits, numbers, text, entries, encodedBytes); }
      NoneUnfold(heap, r, keys);
      var i := 0;
      while i < |keys|
        invariant 0 <= i <= |keys| && AllUnfold(heap, r, keys, i)
        invariant seen == before + {r} && entries <= limits.maxEntries && encodedBytes <= limits.maxEncodedBytes
        invariant t.Some? ==> MemberProgress(t.value, keys, i, depth, limits, numbers, start, old(entries),
                                             old(encodedBytes), text, entries, encodedBytes)
      {
        if t.Some? {
          MembersStep(t.value, keys, i, depth, limits, numbers, start, old(entries), old(encodedBytes), text, entries,
                      encodedBytes);
        }
        ok := VisitMember(r, keys[i], i, depth, before);
        if !ok { return; }
        OneMoreUnfolds(heap, r, keys, i);
        i := i + 1;
      }
      ok := true;
      EveryKeyUnfolds(heap, r, keys);
      MembersDone(t.value, keys, depth, limits, numbers, start, old(entries), old(encodedBytes), text, entries,
                  encodedBytes);
    }
  }

  // ---------- The loop over the members ----------

  lemma KeysCover(h: Heap, r: Ref, keys: seq<Text>)
    requires r in h && h[r].Fields? && (set k <- keys) == h[r].fields.Keys
    ensures forall k :: k in keys <==> k in h[r].fields
  {
    assert forall k :: k in keys <==> k in (set x <- keys);
  }

  ghost predicate AllUnfold(h: Heap, r: Ref, keys: seq<Text>, i: nat)
  {
    r in h && h[r].Fields? && forall j :: 0 <= j < i && j < |keys|
                                ==> keys[j] in h[r].fields && Unfolding(h, h[r].fields[keys[j]]).Some?
  }

  lemma NoneUnfold(h: Heap, r: Ref, keys: seq<Text>)
    requires r in h && h[r].Fields?
    ensures AllUnfold(h, r, keys, 0)
  {}

  lemma OneMoreUnfolds(h: Heap, r: Ref, keys: seq<Text>, i: nat)
    requires AllUnfold(h, r, keys, i) && i < |keys| && keys[i] in h[r].fields
             && Unfolding(h, h[r].fields[keys[i]]).Some?
    ensures AllUnfold(h, r, keys, i + 1)
  {
    hide Unfolding;
  }

  lemma EveryKeyUnfolds(h: Heap, r: Ref, keys: seq<Text>)
    requires AllUnfold(h, r, keys, |keys|) && forall k :: k in keys <==> k in h[r].fields
    ensures Unfolding(h, Object(r)).Some?
  {
    hide Unfolding, Unfolds;
    UnfoldingFields(h, r);
    forall k <- h[r].fields ensures Unfolding(h, h[r].fields[k]).Some? {
      var j :| 0 <= j < |keys| && keys[j] == k;
    }
  }

  ghost predicate MemberFits(t: Val, k: Text, depth: nat, limits: Limits)
  {
    t.Record? && k in t.fields && Utf8Length(k) <= limits.maxKeyBytes && ShapeFits(t.fields[k], depth + 1, limits)
  }

  /** The members fit their own budgets and what is left of the shared ones. */
  ghost predicate MembersAffordable(t: Val, keys: seq<Text>, depth: nat, limits: Limits, n: NumberCodec, entries: nat,
                                    bytes: nat)
    requires Lists(CODE_UNITS)
  {
    && KeysIn(t, keys) && (forall k <- keys :: MemberFits(t, k, depth, limits))
    && entries + EntriesMembers(t, keys, 0) <= limits.maxEntries
    && bytes + MembersBytes(t, keys, 0, n, CODE_UNITS) <= limits.maxEncodedBytes
  }

  /** The first `i` members have been appended and charged. */
  ghost predicate MemberProgress(
    t: Val, keys: seq<Text>, i: nat, depth: nat, limits: Limits, n: NumberCodec, start: Text, oldEntries: nat,
      oldBytes: nat,
    text: Text, entries: nat, bytes: nat)
    requires Lists(CODE_UNITS)
  {
    && KeysIn(t, keys) && i <= |keys| && (forall j :: 0 <= j < i ==> MemberFits(t, keys[j], depth, limits))
    && text + CanonMembers(t, keys, i, n, CODE_UNITS) == start + CanonMembers(t, keys, 0, n, CODE_UNITS)
    && entries + EntriesMembers(t, keys, i) == oldEntries + EntriesMembers(t, keys, 0)
    && bytes + MembersBytes(t, keys, i, n, CODE_UNITS) == oldBytes + MembersBytes(t, keys, 0, n, CODE_UNITS)
  }

  lemma MembersStart(t: Val, keys: seq<Text>, depth: nat, limits: Limits, n: NumberCodec, text: Text, entries: nat,
                     bytes: nat)
    requires Lists(CODE_UNITS) && t.Record? && forall k :: k in keys <==> k in t.fields
    ensures MemberProgress(t, keys, 0, depth, limits, n, text, entries, bytes, text, entries, bytes)
  {
    hide Lists, MemberFits, CanonMembers, EntriesMembers, MembersBytes;
  }

  /** The next member is affordable now, and then appended and charged, or the members as a whole never were. */
  lemma MembersStep(
    t: Val, keys: seq<Text>, i: nat, depth: nat, limits: Limits, n: NumberCodec, start: Text, oldEntries: nat,
      oldBytes: nat,
    text: Text, entries: nat, bytes: nat)
    requires Lists(CODE_UNITS) && i < |keys|
    requires MemberProgress(t, keys, i, depth, limits, n, start, oldEntries, oldBytes, text, entries, bytes)
    ensures t.Record? && keys[i] in t.fields
    ensures var u, charged := t.fields[keys[i]], bytes + |Comma(i)| + Utf8Length(Quote(keys[i])) + 1;
            var cost, longer := CanonBytes(u, n, CODE_UNITS),
              ((text + Comma(i)) + Quote(keys[i]) + [S.COLON]) + Canon(u, n, CODE_UNITS);
            if && Utf8Length(keys[i]) <= limits.maxKeyBytes && ShapeFits(u, depth + 1, limits)
               && entries + Entries(u) <= limits.maxEntries
               && charged + cost <= limits.maxEncodedBytes
            then MemberProgress(t, keys, i + 1, depth, limits, n, start, oldEntries, oldBytes, longer,
                                entries + Entries(u), charged + cost)
            else !MembersAffordable(t, keys, depth, limits, n, oldEntries, oldBytes)
  {
    hide Lists, Canon, CanonBytes, CanonMembers, Utf8Length, Quote, ShapeFits, Entries, EntriesMembers, MembersBytes;
    MemberAppended(text, t, keys, i, n);
    MemberCosts(t, keys, i, n);
    assert keys[i] in keys;
  }

  lemma MemberCosts(t: Val, keys: seq<Text>, i: nat, n: NumberCodec)
    requires Lists(CODE_UNITS) && KeysIn(t, keys) && i < |keys|
    ensures keys[i] in t.fields
    ensures EntriesMembers(t, keys, i) == Entries(t.fields[keys[i]]) + EntriesMembers(t, keys, i + 1)
    ensures MembersBytes(t, keys, i, n, CODE_UNITS) ==
            |Comma(i)| + Utf8Length(Quote(keys[i])) + 1 + CanonBytes(t.fields[keys[i]], n, CODE_UNITS)
            + MembersBytes(t, keys, i + 1, n, CODE_UNITS)
  {
    hide Lists, CanonBytes, Utf8Length, Quote, Entries;
  }

  lemma MembersDone(
    t: Val, keys: seq<Text>, depth: nat, limits: Limits, n: NumberCodec, start: Text, oldEntries: nat, oldBytes: nat,
    text: Text, entries: nat, bytes: nat)
    requires Lists(CODE_UNITS)
             && MemberProgress(t, keys, |keys|, depth, limits, n, start, oldEntries, oldBytes, text, entries, bytes)
    requires entries <= limits.maxEntries && bytes <= limits.maxEncodedBytes
    ensures MembersAffordable(t, keys, depth, limits, n, oldEntries, oldBytes)
    ensures text == start + CanonMembers(t, keys, 0, n, CODE_UNITS)
            && entries == oldEntries + EntriesMembers(t, keys, 0)
    ensures bytes == oldBytes + MembersBytes(t, keys, 0, n, CODE_UNITS)
  {
    hide Lists, MemberFits;
    assert CanonMembers(t, keys, |keys|, n, CODE_UNITS) == [] && EntriesMembers(t, keys, |keys|) == 0;
    assert MembersBytes(t, keys, |keys|, n, CODE_UNITS) == 0;
    hide CanonMembers, EntriesMembers, MembersBytes;
    assert text + [] == text;
  }

  lemma OneByte(c: Unit)
    requires c < 0x80
    ensures Utf8Length([c]) == 1
  {
    Utf8Ascii([c], []);
    assert [c] + [] == [c];
  }

  lemma TooDeep(h: Heap, r: Ref, depth: nat, limits: Limits)
    requires depth > limits.maxDepth || r !in h
    ensures Unfolding(h, Object(r)).Some? ==> !ShapeFits(Unfolding(h, Object(r)).value, depth, limits)
  {
  }

  lemma Wrapped(start: Text, open: Unit, inside: Text, close: Unit)
    ensures ((start + [open]) + inside) + [close] == start + ([open] + inside + [close])
  {
  }

  lemma ArrayCosts(t: Val, depth: nat, limits: Limits, n: NumberCodec)
    requires t.List? && depth <= limits.maxDepth && Lists(CODE_UNITS)
    ensures ShapeFits(t, depth, limits) <==> forall item <- t.items :: ShapeFits(item, depth + 1, limits)
    ensures Entries(t) == |t.items| + 1 + EntriesItems(t, 0)
            && CanonBytes(t, n, CODE_UNITS) == 2 + ItemsBytes(t, 0, n, CODE_UNITS)
    ensures Canon(t, n, CODE_UNITS) == [S.LBRACKET] + CanonItems(t, 0, n, CODE_UNITS) + [S.RBRACKET]
  {
  }

  lemma SortedKeysOf(t: Val)
    requires t.Record? && Lists(CODE_UNITS)
    ensures var keys := Sorted(t.fields.Keys);
            Listed(t, CODE_UNITS) == keys && KeysIn(t, keys) && (set k <- keys) == t.fields.Keys
            && (forall k :: k in keys <==> k in t.fields)
  {
    var keys := Sorted(t.fields.Keys);
    assert forall k :: k in keys <==> k in (set x <- keys);
  }

  lemma RecordShape(t: Val, depth: nat, limits: Limits, keys: seq<Text>)
    requires t.Record? && depth <= limits.maxDepth && forall k :: k in keys <==> k in t.fields
    ensures ShapeFits(t, depth, limits) <==> forall k <- keys :: MemberFits(t, k, depth, limits)
  {
    hide Utf8Length;
  }

  lemma RecordCosts(t: Val, depth: nat, limits: Limits, n: NumberCodec)
    requires t.Record? && depth <= limits.maxDepth && Lists(CODE_UNITS)
    ensures var keys := Sorted(t.fields.Keys);
            && KeysIn(t, keys) && (set k <- keys) == t.fields.Keys
            && (ShapeFits(t, depth, limits) <==> forall k <- keys :: MemberFits(t, k, depth, limits))
            && Entries(t) == |t.fields| + EntriesMembers(t, keys, 0)
            && CanonBytes(t, n, CODE_UNITS) == 2 + MembersBytes(t, keys, 0, n, CODE_UNITS)
            && Canon(t, n, CODE_UNITS) == [S.LBRACE] + CanonMembers(t, keys, 0, n, CODE_UNITS) + [S.RBRACE]
  {
    hide Utf8Length, Lists, Listed, Sorted, CanonMembers, MembersBytes, EntriesMembers, ShapeFits;
    SortedKeysOf(t);
    RecordShape(t, depth, limits, Sorted(t.fields.Keys));
  }

  lemma ItemAppended(here: Text, text: Text, t: Val, i: nat, n: NumberCodec)
    requires t.List? && i < |t.items| && Lists(CODE_UNITS)
    requires text == (if i > 0 then here + [S.COMMA] else here) + Canon(t.items[i], n, CODE_UNITS)
    ensures text + CanonItems(t, i + 1, n, CODE_UNITS) == here + CanonItems(t, i, n, CODE_UNITS)
  {
    hide Canon, Lists;
    var item, rest := Canon(t.items[i], n, CODE_UNITS), CanonItems(t, i + 1, n, CODE_UNITS);
    assert CanonItems(t, i, n, CODE_UNITS) == Comma(i) + (item + rest);
    assert text == (here + Comma(i)) + item;
    assert ((here + Comma(i)) + item) + rest == here + (Comma(i) + (item + rest));
  }

  lemma MemberAppended(here: Text, t: Val, keys: seq<Text>, i: nat, n: NumberCodec)
    requires KeysIn(t, keys) && i < |keys| && Lists(CODE_UNITS)
    ensures keys[i] in t.fields
    ensures (((here + Comma(i)) + Quote(keys[i]) + [S.COLON]) + Canon(t.fields[keys[i]], n, CODE_UNITS))
            + CanonMembers(t, keys, i + 1, n, CODE_UNITS)
            == here + CanonMembers(t, keys, i, n, CODE_UNITS)
  {
    hide Canon, Lists, Quote, Comma;
    Regroup(here, Comma(i), Quote(keys[i]), [S.COLON], Canon(t.fields[keys[i]], n, CODE_UNITS),
            CanonMembers(t, keys, i + 1, n, CODE_UNITS));
  }

  lemma Regroup(here: Text, a: Text, b: Text, c: Text, d: Text, rest: Text)
    ensures (((here + a) + b + c) + d) + rest == here + (a + (b + (c + (d + rest))))
  {
    assert (((here + a) + b + c) + d) + rest == ((here + a) + b + c) + (d + rest);
    assert ((here + a) + b + c) + (d + rest) == ((here + a) + b) + (c + (d + rest));
    assert ((here + a) + b) + (c + (d + rest)) == (here + a) + (b + (c + (d + rest)));
  }

  /** `serializeCanonicalData`: succeeds exactly when the graph unfolds to a finite value within every budget, with
    * the canonical text of that value. */
  method SerializeCanonicalData(heap: Heap, value: Value, limits: Limits, numbers: NumberCodec)
    returns (text: Option<Text>)
    requires numbers.Valid()
    ensures Lists(CODE_UNITS)
    ensures text.Some? <==> Unfolding(heap, value).Some? && Accepts(Unfolding(heap, value).value, limits, numbers)
    ensures text.Some? ==> text.value == Canon(Unfolding(heap, value).value, numbers, CODE_UNITS)
  {
    hide Canon, CanonBytes, Entries, ShapeFits;
    CodeUnitsList();
    var s := new Serializer(heap, limits, numbers);
    if Unfolding(heap, value).Some? { BytesExactly(Unfolding(heap, value).value, numbers, CODE_UNITS); }
    var ok := s.Visit(value, 0);
    assert [] + s.text == s.text;
    text := if ok then Some(s.text) else None;
  }

  // ---------- What the text is good for ----------

  /** What `serializeCanonicalData` returns. */
  ghost function Serialized(heap: Heap, value: Value, limits: Limits, numbers: NumberCodec): Option<Text>
  {
    CodeUnitsList();
    var t := Unfolding(heap, value);
    if t.Some? && Accepts(t.value, limits, numbers) then Some(Canon(t.value, numbers, CODE_UNITS)) else None
  }

  /** Two graphs have the same text exactly when they unfold to the same value, however they share their parts and
    * list their keys. */
  lemma SameTextSameValue(h: Heap, v: Value, g: Heap, w: Value, limits: Limits, numbers: NumberCodec)
    requires numbers.Valid() && Serialized(h, v, limits, numbers).Some? && Serialized(g, w, limits, numbers).Some?
    ensures Serialized(h, v, limits, numbers) == Serialized(g, w, limits, numbers)
            <==> Unfolding(h, v) == Unfolding(g, w)
  {
    hide Canon;
    CodeUnitsList();
    CanonInjective(Unfolding(h, v).value, Unfolding(g, w).value, numbers, CODE_UNITS);
  }

  lemma KeyOrderIrrelevant(h: Heap, g: Heap, v: Value, limits: Limits, numbers: NumberCodec)
    requires Reordered(h, g)
    ensures Serialized(h, v, limits, numbers) == Serialized(g, v, limits, numbers)
  {
    ReorderedUnfolding(h, g, v);
  }

  /** An object on a cycle has no text. */
  lemma CyclesRejected(h: Heap, cycle: seq<Ref>, limits: Limits, numbers: NumberCodec)
    requires |cycle| >= 2 && Chain(h, cycle) && cycle[|cycle| - 1] == cycle[0]
    ensures Serialized(h, Object(cycle[0]), limits, numbers) == None
  {
    CyclesDoNotUnfold(h, cycle);
  }
}
