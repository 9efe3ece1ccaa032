/** Printing and parsing are inverse, and the snapshot's charges are the length of what is printed. */
module JsonRoundTrip {
  import opened Utf16
  import opened JsonStrings
  import opened JsonNumbers
  import opened JsonSyntax
  import opened JsonDescent
  import opened JsonCompleteness
  import opened JsonSnapshot

  // ---------- Bytes charged against bytes printed ----------

  lemma QuoteBytes(s: Text, rest: Text)
    ensures Utf8Length(Quote(s) + rest) == QuotedBytes(s) + Utf8Length(rest) + if EndsInHigh(s) then 3 else 0
  {
    hide Escape, BodyBytes, EndsInHigh, Utf8Length;
    assert Quote(s) + rest == [QUOTE] + (Escape(s) + ([QUOTE] + rest));
    Utf8Ascii([QUOTE], Escape(s) + ([QUOTE] + rest));
    BodyBytesExactly(s, [QUOTE] + rest);
    Utf8Ascii([QUOTE], rest);
  }

  lemma NumberBytes(n: int, rest: Text, g: Config)
    requires g.numbers.Valid()
    ensures Utf8Length(g.numbers.show(n) + rest) == Utf8Length(g.numbers.show(n)) + Utf8Length(rest)
  {
    var t := g.numbers.show(n);
    assert NumberText(t);
    hide NumberText, Utf8Length;
    NumberTextUnits(t);
    UnitsAscii(t);
    Utf8Ascii(t, rest);
    Utf8Ascii(t, []);
    assert t + [] == t;
  }

  lemma UnitsAscii(t: Text)
    requires AllNumberUnits(t)
    ensures forall i :: 0 <= i < |t| ==> t[i] < 0x80
  {
  }

  lemma {:induction false} PrintBytes(v: Json, rest: Text, g: Config)
    requires g.numbers.Valid()
    ensures Utf8Length(Print(v, g) + rest) == Bytes(v, g) + 3 * UnpairedEnds(v) + Utf8Length(rest)
    decreases v, 1
  {
    match v {
      case Arr(items) =>
        PrintItemsBytes(items, [RBRACKET] + rest, g);
        ArrayBytes(items, rest, g);
      case Obj(members) =>
        PrintMembersBytes(members, [RBRACE] + rest, g);
        ObjectBytes(members, rest, g);
      case _ => ScalarBytes(v, rest, g);
    }
    hide Print, Bytes, UnpairedEnds, Utf8Length;
  }

  lemma ScalarBytes(v: Json, rest: Text, g: Config)
    requires g.numbers.Valid() && !v.Arr? && !v.Obj?
    ensures Utf8Length(Print(v, g) + rest) == Bytes(v, g) + 3 * UnpairedEnds(v) + Utf8Length(rest)
  {
    hide QuotedBytes, EndsInHigh, Quote, Utf8Length;
    WordBytes(rest);
    hide NULL, TRUE, FALSE;
    match v {
      case Null =>
      case Bool(_) =>
      case Num(n) => NumberBytes(n, rest, g);
      case Str(s) => QuoteBytes(s, rest);
    }
  }

  lemma WordBytes(rest: Text)
    ensures Utf8Length(NULL + rest) == 4 + Utf8Length(rest)
    ensures Utf8Length(TRUE + rest) == 4 + Utf8Length(rest) && Utf8Length(FALSE + rest) == 5 + Utf8Length(rest)
  {
    hide Utf8Length;
    Utf8Ascii(NULL, rest);
    Utf8Ascii(TRUE, rest);
    Utf8Ascii(FALSE, rest);
  }

  lemma ArrayBytes(items: seq<Json>, rest: Text, g: Config)
    requires Utf8Length(PrintItems(items, g) + ([RBRACKET] + rest)) ==
             ItemsBytes(items, g) + Commas(|items|) + 3 * UnpairedItems(items) + Utf8Length([RBRACKET] + rest)
    ensures Utf8Length(Print(Arr(items), g) + rest) == Bytes(Arr(items), g) + 3 * UnpairedEnds(Arr(items))
            + Utf8Length(rest)
  {
    hide Utf8Length, PrintItems, ItemsBytes, UnpairedItems, Commas;
    Wrapped(LBRACKET, PrintItems(items, g), RBRACKET, rest);
  }

  lemma ObjectBytes(members: seq<Entry>, rest: Text, g: Config)
    requires Utf8Length(PrintMembers(members, g) + ([RBRACE] + rest)) ==
             MembersBytes(members, g) + Commas(|members|) + 3 * UnpairedMembers(members) + Utf8Length([RBRACE] + rest)
    ensures Utf8Length(Print(Obj(members), g) + rest) == Bytes(Obj(members), g) + 3 * UnpairedEnds(Obj(members))
            + Utf8Length(rest)
  {
    hide Utf8Length, PrintMembers, MembersBytes, UnpairedMembers, Commas;
    Wrapped(LBRACE, PrintMembers(members, g), RBRACE, rest);
  }

  lemma Wrapped(open: Unit, inside: Text, close: Unit, rest: Text)
    requires open < 0x80 && close < 0x80
    ensures Utf8Length(([open] + inside + [close]) + rest) == 1 + Utf8Length(inside + ([close] + rest))
    ensures Utf8Length([close] + rest) == 1 + Utf8Length(rest)
  {
    hide Utf8Length;
    assert ([open] + inside + [close]) + rest == [open] + (inside + ([close] + rest));
    Utf8Ascii([open], inside + ([close] + rest));
    Utf8Ascii([close], rest);
  }

  lemma {:induction false} PrintItemsBytes(items: seq<Json>, rest: Text, g: Config)
    requires g.numbers.Valid()
    ensures Utf8Length(PrintItems(items, g) + rest) ==
            ItemsBytes(items, g) + Commas(|items|) + 3 * UnpairedItems(items) + Utf8Length(rest)
    decreases items, 0
  {
    hide Print, Bytes, UnpairedEnds, Utf8Length;
    if items == [] {
      assert PrintItems(items, g) + rest == rest;
    } else if |items| == 1 {
      PrintBytes(items[0], rest, g);
    } else {
      var later := PrintItems(items[1..], g) + rest;
      assert PrintItems(items, g) + rest == Print(items[0], g) + ([COMMA] + later);
      PrintBytes(items[0], [COMMA] + later, g);
      Utf8Ascii([COMMA], later);
      PrintItemsBytes(items[1..], rest, g);
    }
  }

  lemma {:induction false} PrintEntryBytes(e: Entry, rest: Text, g: Config)
    requires g.numbers.Valid()
    ensures Utf8Length(PrintEntry(e, g) + rest) ==
            EntryBytes(e, g) + 3 * ((if EndsInHigh(e.key) then 1 else 0) + UnpairedEnds(e.value)) + Utf8Length(rest)
    decreases e, 0
  {
    hide Print, Bytes, UnpairedEnds, Utf8Length, QuotedBytes, EndsInHigh, Quote;
    var value := Print(e.value, g) + rest;
    assert PrintEntry(e, g) + rest == Quote(e.key) + ([COLON] + value);
    QuoteBytes(e.key, [COLON] + value);
    Utf8Ascii([COLON], value);
    PrintBytes(e.value, rest, g);
  }

  lemma {:induction false} PrintMembersBytes(members: seq<Entry>, rest: Text, g: Config)
    requires g.numbers.Valid()
    ensures Utf8Length(PrintMembers(members, g) + rest) ==
            MembersBytes(members, g) + Commas(|members|) + 3 * UnpairedMembers(members) + Utf8Length(rest)
    decreases members, 0
  {
    hide PrintEntry, EntryBytes, UnpairedEnds, Utf8Length, EndsInHigh;
    if members == [] {
      assert PrintMembers(members, g) + rest == rest;
    } else if |members| == 1 {
      PrintEntryBytes(members[0], rest, g);
    } else {
      var later := PrintMembers(members[1..], g) + rest;
      assert PrintMembers(members, g) + rest == PrintEntry(members[0], g) + ([COMMA] + later);
      PrintEntryBytes(members[0], [COMMA] + later, g);
      Utf8Ascii([COMMA], later);
      PrintMembersBytes(members[1..], rest, g);
    }
  }

  /** The snapshot charges the UTF-8 length of the compact text, less 3 for each string or key that ends
    * in an unpaired high surrogate: so exactly that length if and only if there is none. */
  lemma SnapshotChargesPrintedBytes(v: Json, g: Config)
    requires g.numbers.Valid()
    ensures Utf8Length(Print(v, g)) == Bytes(v, g) + 3 * UnpairedEnds(v)
    ensures Bytes(v, g) == Utf8Length(Print(v, g)) <==> UnpairedEnds(v) == 0
  {
    PrintBytes(v, [], g);
    assert Print(v, g) + [] == Print(v, g);
  }

  // ---------- The compact text is one of the grammar's texts ----------

  function CompactKey(key: Text): Key { Key([], Escape(key), [], []) }

  /** The syntax tree, with no spaces and no trailing commas, of a value. */
  function Compact(v: Json, g: Config): Cst
  {
    match v
    case Arr(items) => Array(CompactItems(items, g))
    case Obj(members) => Object(CompactMembers(members, g))
    case _ => Atom(Print(v, g), v)
  }

  function CompactItems(items: seq<Json>, g: Config): Items
  {
    if items == [] then NoItems([])
    else if |items| == 1 then LastItem([], Compact(items[0], g), [])
    else Item([], Compact(items[0], g), [], CompactItems(items[1..], g))
  }

  function CompactMembers(members: seq<Entry>, g: Config): Members
  {
    if members == [] then NoMembers([])
    else if |members| == 1 then LastMember(CompactKey(members[0].key), Compact(members[0].value, g), [])
    else Member(CompactKey(members[0].key), Compact(members[0].value, g), [], CompactMembers(members[1..], g))
  }

  lemma {:induction false} CompactText(v: Json, g: Config)
    ensures Unparse(Compact(v, g)) == Print(v, g)
    decreases v, 1
  {
    match v {
      case Arr(items) => CompactItemsText(items, g);
      case Obj(members) => CompactMembersText(members, g);
      case _ =>
    }
  }

  lemma {:induction false} CompactItemsText(items: seq<Json>, g: Config)
    ensures UnparseItems(CompactItems(items, g)) == PrintItems(items, g) + [RBRACKET]
    decreases items, 0
  {
    if items != [] {
      CompactText(items[0], g);
      CompactItemsText(items[1..], g);
    }
  }

  lemma CompactKeyText(e: Entry, g: Config)
    ensures KeyText(CompactKey(e.key)) + Print(e.value, g) == PrintEntry(e, g)
  {
    hide Escape, Print;
  }

  lemma {:induction false} CompactMembersText(members: seq<Entry>, g: Config)
    ensures UnparseMembers(CompactMembers(members, g)) == PrintMembers(members, g) + [RBRACE]
    decreases members, 0
  {
    hide KeyText, CompactKey, PrintEntry, Print, Compact;
    if members != [] {
      CompactText(members[0].value, g);
      CompactKeyText(members[0], g);
      CompactMembersText(members[1..], g);
    }
  }

  lemma {:induction false} CompactErases(v: Json, g: Config)
    requires g.numbers.Valid()
    ensures Erase(Compact(v, g)) == v && Grammatical(Compact(v, g), g)
    decreases v, 1
  {
    match v {
      case Arr(items) => CompactItemsErase(items, g);
      case Obj(members) => CompactMembersErase(members, g);
      case Str(s) =>
        DecodeEscape(s);
        assert Quote(s)[1..|Quote(s)| - 1] == Escape(s);
      case Num(n) =>
      case _ =>
    }
  }

  lemma {:induction false} CompactItemsErase(items: seq<Json>, g: Config)
    requires g.numbers.Valid()
    ensures EraseItems(CompactItems(items, g)) == items && GrammaticalItems(CompactItems(items, g), g)
    decreases items, 0
  {
    if items != [] {
      CompactErases(items[0], g);
      CompactItemsErase(items[1..], g);
    }
  }

  lemma {:induction false} CompactMembersErase(members: seq<Entry>, g: Config)
    requires g.numbers.Valid()
    ensures EraseMembers(CompactMembers(members, g)) == members && GrammaticalMembers(CompactMembers(members, g), g)
    decreases members, 0
  {
    hide Decode, Escape;
    if members != [] {
      DecodeEscape(members[0].key);
      CompactErases(members[0].value, g);
      CompactMembersErase(members[1..], g);
    }
  }

  // ---------- The two budget systems coincide ----------

  /** What the parser asks of a value beyond the two totals: the snapshot's own limits, and strings that
    * pass the surrogate check. */
  lemma {:induction false} BudgetsCoincide(v: Json, depth: nat, g: Config)
    requires g.numbers.Valid()
    ensures Within(Compact(v, g), depth, g.limit) <==> Fits(v, depth, g) && AllWellFormed(v) && DistinctKeys(v)
    decreases v, 1
  {
    hide WellFormed, KeyFits;
    match v {
      case Arr(items) =>
        CompactItemsErase(items, g);
        ItemsCoincide(items, depth + 1, g);
      case Obj(members) =>
        MembersCoincide(members, [], depth + 1, g);
        assert [] + members == members;
      case _ =>
    }
  }

  lemma {:induction false} ItemsCoincide(items: seq<Json>, depth: nat, g: Config)
    requires g.numbers.Valid()
    ensures WithinItems(CompactItems(items, g), depth, g.limit) <==>
            forall item <- items :: Fits(item, depth, g) && AllWellFormed(item) && DistinctKeys(item)
    decreases items, 0
  {
    hide Fits, AllWellFormed, DistinctKeys, Within, Compact;
    if items != [] {
      BudgetsCoincide(items[0], depth, g);
      ItemsCoincide(items[1..], depth, g);
      assert items == [items[0]] + items[1..];
    }
  }

  predicate EntryOk(e: Entry, depth: nat, g: Config)
  {
    KeyFits(e.key, g.limit) && WellFormed(e.key) && Fits(e.value, depth, g) && AllWellFormed(e.value)
    && DistinctKeys(e.value)
  }

  predicate FreshKeys(members: seq<Entry>, earlier: seq<Entry>)
  {
    && (forall i, j :: 0 <= i < j < |members| ==> members[i].key != members[j].key)
    && forall i :: 0 <= i < |members| ==> !HasKey(earlier, members[i].key)
  }

  lemma FreshStep(members: seq<Entry>, earlier: seq<Entry>)
    requires members != []
    ensures FreshKeys(members, earlier) <==>
            !HasKey(earlier, members[0].key) && FreshKeys(members[1..], earlier + [members[0]])
  {
    var e, rest := members[0], members[1..];
    assert forall k :: HasKey(earlier + [e], k) <==> HasKey(earlier, k) || k == e.key by {
      forall k ensures HasKey(earlier + [e], k) <==> HasKey(earlier, k) || k == e.key {
        assert (earlier + [e])[|earlier|] == e;
        if HasKey(earlier, k) {
          var i :| 0 <= i < |earlier| && earlier[i].key == k;
          assert (earlier + [e])[i].key == k;
        }
      }
    }
    if FreshKeys(rest, earlier + [e]) && !HasKey(earlier, e.key) {
      forall i, j | 0 <= i < j < |members| ensures members[i].key != members[j].key {
        assert members[j] == rest[j - 1];
        if i > 0 { assert members[i] == rest[i - 1]; }
      }
      forall i | 0 <= i < |members| ensures !HasKey(earlier, members[i].key) {
        if i > 0 { assert members[i] == rest[i - 1]; }
      }
    }
  }

  lemma {:induction false} MembersCoincide(members: seq<Entry>, earlier: seq<Entry>, depth: nat, g: Config)
    requires g.numbers.Valid()
    ensures WithinMembers(CompactMembers(members, g), depth, g.limit, earlier) <==>
            (forall e <- members :: EntryOk(e, depth, g)) && FreshKeys(members, earlier)
    decreases members, 0
  {
    hide Fits, AllWellFormed, DistinctKeys, Within, Compact, Decode, Escape, Dangerous, WellFormed, Utf8Length,
      FreshKeys, HasKey;
    if members == [] {
      NoFreshKeys(earlier);
    } else {
      var e := members[0];
      DecodeEscape(e.key);
      CompactErases(e.value, g);
      BudgetsCoincide(e.value, depth, g);
      MembersCoincide(members[1..], earlier + [e], depth, g);
      FreshStep(members, earlier);
      assert members == [e] + members[1..];
      assert (forall x <- members :: EntryOk(x, depth, g)) <==>
             EntryOk(e, depth, g) && forall x <- members[1..] :: EntryOk(x, depth, g);
      assert KeyValue(CompactKey(e.key)) == e.key;
      if |members| == 1 { NoFreshKeys(earlier + [e]); assert members[1..] == []; }
    }
  }

  lemma NoFreshKeys(earlier: seq<Entry>)
    ensures FreshKeys([], earlier)
  {
  }

  /** Round trip: a snapshot's compact text parses back to the same value under the same limits, if and
    * only if every string and key passes the parser's surrogate check. */
  lemma PrintThenParse(v: Json, g: Config)
    requires g.numbers.Valid() && Accepts(v, g) && DistinctKeys(v)
    ensures ReadText(Print(v, g), g) == Ok(v) <==> AllWellFormed(v)
  {
    CompactText(v, g);
    CompactErases(v, g);
    BudgetsCoincide(v, 0, g);
    if AllWellFormed(v) {
      ReaderComplete([], Compact(v, g), [], g);
      assert [] + Print(v, g) + [] == Print(v, g);
    }
    if ReadText(Print(v, g), g) == Ok(v) {
      ReaderMeetsGrammar(Print(v, g), v, g);
      var before, c, after :|
        && AllSpace(before) && AllSpace(after) && Grammatical(c, g)
        && Print(v, g) == before + Unparse(c) + after && Erase(c) == v && Within(c, 0, g.limit);
      WithinWellFormed(c, 0, g);
    }
  }

  lemma {:induction false} WithinWellFormed(c: Cst, depth: nat, g: Config)
    requires Within(c, depth, g.limit) && Grammatical(c, g)
    ensures AllWellFormed(Erase(c))
    decreases c
  {
    match c {
      case Array(items) => ItemsWellFormed(items, depth + 1, g);
      case Object(members) => MembersWellFormed(members, [], depth + 1, g);
      case _ =>
    }
  }

  lemma {:induction false} ItemsWellFormed(t: Items, depth: nat, g: Config)
    requires WithinItems(t, depth, g.limit) && GrammaticalItems(t, g)
    ensures forall item <- EraseItems(t) :: AllWellFormed(item)
    decreases t
  {
    if t.LastItem? || t.Item? { WithinWellFormed(t.item, depth, g); }
    if t.Item? { ItemsWellFormed(t.rest, depth, g); }
  }

  lemma {:induction false} MembersWellFormed(t: Members, earlier: seq<Entry>, depth: nat, g: Config)
    requires WithinMembers(t, depth, g.limit, earlier) && GrammaticalMembers(t, g)
    ensures forall e <- EraseMembers(t) :: WellFormed(e.key) && AllWellFormed(e.value)
    decreases t
  {
    hide WellFormed, AllWellFormed, Within, Decode;
    if t.LastMember? || t.Member? { WithinWellFormed(t.value, depth, g); }
    if t.Member? { MembersWellFormed(t.rest, earlier + [Entry(KeyValue(t.key), Erase(t.value))], depth, g); }
  }

  /** One unpaired high surrogate: charged 5 bytes, printed in 8. */
  lemma UnpairedUndercharged(g: Config)
    requires g.numbers.Valid()
    ensures Bytes(Str([0xD800]), g) == 5 && Utf8Length(Print(Str([0xD800]), g)) == 8
  {
    SnapshotChargesPrintedBytes(Str([0xD800]), g);
    hide Print, Utf8Length;
    OneHighSurrogate();
  }

  lemma OneHighSurrogate()
    ensures QuotedBytes([0xD800]) == 5 && EndsInHigh([0xD800])
  {
    assert BodyBytes([]) == 0 && FrontBytes([0xD800]) == 3;
    assert [0xD800][1..] == [];
  }

  /** One unpaired low surrogate: the snapshot takes it, the parser refuses what is printed for it. */
  lemma UnpairedNotReadBack(g: Config)
    requires g.numbers.Valid() && Accepts(Str([0xDC00]), g)
    ensures ReadText(Print(Str([0xDC00]), g), g) != Ok(Str([0xDC00]))
  {
    PrintThenParse(Str([0xDC00]), g);
  }
}
