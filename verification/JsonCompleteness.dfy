/** The recursive-descent reader reads every text of the grammar, and the two agree exactly. */
module JsonCompleteness {
  import opened Wrappers
  import opened Utf16
  import opened JsonStrings
  import opened JsonNumbers
  import opened JsonSyntax
  import opened JsonDescent

  lemma {:induction false} SkipSpace(space: Text, s: Text)
    requires AllSpace(space) && (s != [] ==> !IsSpace(s[0]))
    ensures Skip(space + s) == s
  {
    if space == [] {
      assert space + s == s;
    } else {
      SkipSpace(space[1..], s);
      assert (space + s)[1..] == space[1..] + s;
    }
  }

  lemma QuotedStringComplete(body: Text, rest: Text, limit: Limits)
    requires Decode(body).Some? && StringWithin(Decode(body).value, limit)
    ensures ReadString(Quoted(body) + rest, limit) == Ok((Decode(body).value, rest))
  {
    hide Decode, WellFormed, Scan, Utf8Length;
    var s := Quoted(body) + rest;
    ScanDecodable(body, rest);
    assert s[1..] == body + [QUOTE] + rest;
    assert s[1..][..|body|] == body && s[1..][|body| + 1..] == rest;
  }

  lemma NumberComplete(token: Text, n: int, rest: Text, g: Config)
    requires NumberText(token) && g.numbers.lex(token) == Some(n) && |token| <= g.limit.maximumNumberCharacters
    requires Stops(rest)
    ensures ReadNumber(token + rest, g) == Ok((Num(n), rest))
  {
    hide LexNumber;
    LexExtend(token, rest);
    assert (token + rest)[..|token|] == token && (token + rest)[|token|..] == rest;
  }

  lemma ScalarComplete(token: Text, value: Json, rest: Text, depth: nat, g: Config)
    requires AtomText(token, value, g) && Within(Atom(token, value), depth, g.limit) && Stops(rest)
    ensures ReadScalar(token + rest, g) == Ok((value, rest))
    ensures token != [] && !IsSpace(token[0]) && Separate(token[0]) && Count(value) == 1
  {
    hide ReadString, ReadNumber, Decode, StringWithin, NumberText;
    match value {
      case Str(s) =>
        var body := token[1..|token| - 1];
        assert token == Quoted(body);
        QuotedStringComplete(body, rest, g.limit);
      case Num(n) =>
        NumberTextUnits(token);
        NumberComplete(token, n, rest, g);
      case _ =>
    }
  }

  /** `c` is none of the marks the reader looks for before it looks for a value. */
  predicate Separate(c: Unit)
  {
    c != RBRACKET && c != RBRACE && c != COMMA && c != COLON
  }

  /** A tree's text starts with neither space nor one of those marks. */
  lemma FirstUnit(c: Cst, g: Config)
    requires Grammatical(c, g)
    ensures Unparse(c) != [] && !IsSpace(Unparse(c)[0]) && Separate(Unparse(c)[0])
  {
    hide Decode, LexNumber;
    if c.Atom? && c.value.Num? { NumberTextUnits(c.token); }
  }

  lemma AfterValueStops(after: Text, mark: Unit, rest: Text)
    requires AllSpace(after) && (mark == RBRACKET || mark == RBRACE || mark == COMMA)
    ensures Stops(after + ([mark] + rest)) && Skip(after + ([mark] + rest)) == [mark] + rest
  {
    SkipSpace(after, [mark] + rest);
  }

  lemma {:induction false} ValueComplete(c: Cst, rest: Text, depth: nat, values: nat, g: Config)
    requires Grammatical(c, g) && Within(c, depth, g.limit) && Stops(rest)
    requires values + Count(Erase(c)) <= g.limit.maximumValues
    ensures ReadValue(Unparse(c) + rest, depth, values, g) == Ok(Read(Erase(c), rest, values + Count(Erase(c))))
    decreases c, 0
  {
    hide ReadValue, ReadItems, ReadItemsTail, ReadMembers, ReadMembersTail, ReadScalar, Skip, AtomText, UnparseItems,
      UnparseMembers, EraseItems,
         EraseMembers, GrammaticalItems, GrammaticalMembers, WithinItems, WithinMembers, CountItems, CountMembers;
    match c {
      case Atom(token, value) =>
        ScalarComplete(token, value, rest, depth, g);
        AtomComplete(token, value, rest, depth, values, g);
      case Array(items) =>
        ItemsComplete(items, rest, depth + 1, values + 1, [], g);
        OpenArray(UnparseItems(items) + rest, depth, values, g);
        assert Unparse(c) + rest == [LBRACKET] + (UnparseItems(items) + rest);
        assert [] + EraseItems(items) == EraseItems(items);
      case Object(members) =>
        MembersComplete(members, rest, depth + 1, values + 1, [], g);
        OpenObject(UnparseMembers(members) + rest, depth, values, g);
        assert Unparse(c) + rest == [LBRACE] + (UnparseMembers(members) + rest);
        assert [] + EraseMembers(members) == EraseMembers(members);
    }
  }

  lemma AtomComplete(token: Text, value: Json, rest: Text, depth: nat, values: nat, g: Config)
    requires token != [] && ReadScalar(token + rest, g) == Ok((value, rest)) && values + 1 <= g.limit.maximumValues
    ensures ReadValue(token + rest, depth, values, g) == Ok(Read(value, rest, values + 1))
  {
    hide ReadString, ReadNumber, ReadLiteral;
  }

  lemma OpenArray(s: Text, depth: nat, values: nat, g: Config)
    requires depth < g.limit.maximumDepth && values < g.limit.maximumValues
    ensures ReadValue([LBRACKET] + s, depth, values, g) == ReadItems(s, depth + 1, values + 1, [], g)
  {
    assert ([LBRACKET] + s)[1..] == s;
  }

  lemma OpenObject(s: Text, depth: nat, values: nat, g: Config)
    requires depth < g.limit.maximumDepth && values < g.limit.maximumValues
    ensures ReadValue([LBRACE] + s, depth, values, g) == ReadMembers(s, depth + 1, values + 1, [], g)
  {
    assert ([LBRACE] + s)[1..] == s;
  }

  // One step of the reader at a time.

  lemma ItemsRead(s: Text, depth: nat, values: nat, items: seq<Json>, g: Config, v: Read)
    requires Skip(s) != [] && Skip(s)[0] != RBRACKET && ReadValue(Skip(s), depth, values, g) == Ok(v)
    requires |items| < g.limit.maximumArrayLength
    ensures ReadItems(s, depth, values, items, g) == ReadItemsTail(v.rest, depth, v.values, items + [v.value], g)
  {
  }

  lemma ItemsClose(s: Text, rest: Text, depth: nat, values: nat, items: seq<Json>, g: Config)
    requires Skip(s) == [RBRACKET] + rest
    ensures ReadItems(s, depth, values, items, g) == Ok(Read(Arr(items), rest, values))
    ensures ReadItemsTail(s, depth, values, items, g) == Ok(Read(Arr(items), rest, values))
  {
  }

  lemma ItemsMore(s: Text, rest: Text, depth: nat, values: nat, items: seq<Json>, g: Config)
    requires Skip(s) == [COMMA] + rest
    ensures ReadItemsTail(s, depth, values, items, g) == ReadItems(rest, depth, values, items, g)
  {
    assert ([COMMA] + rest)[1..] == rest;
  }

  lemma ItemErased(before: Text, c: Cst, after: Text, more: Items, items: seq<Json>)
    ensures var all := EraseItems(Item(before, c, after, more));
            && CountItems(all) == Count(Erase(c)) + CountItems(EraseItems(more)) && |all| == 1 + |EraseItems(more)|
            && items + [Erase(c)] + EraseItems(more) == items + all
  {
    hide Count, Erase;
    FirstItem(Erase(c), EraseItems(more));
    hide CountItems;
    ItemGathered(items, Erase(c), EraseItems(more), EraseItems(Item(before, c, after, more)));
  }

  lemma FirstItem(v: Json, rest: seq<Json>)
    ensures CountItems([v] + rest) == Count(v) + CountItems(rest)
  {
    hide Count;
    assert ([v] + rest)[1..] == rest;
  }

  lemma MemberErased(key: Key, c: Cst, after: Text, more: Members, members: seq<Entry>)
    ensures var all, entry := EraseMembers(Member(key, c, after, more)), Entry(KeyValue(key), Erase(c));
            && CountMembers(all) == Count(Erase(c)) + CountMembers(EraseMembers(more))
            && |all| == 1 + |EraseMembers(more)|
            && members + [entry] + EraseMembers(more) == members + all
  {
    hide Count, Erase, KeyValue;
    var entry := Entry(KeyValue(key), Erase(c));
    assert ([entry] + EraseMembers(more))[1..] == EraseMembers(more);
  }

  lemma NoItemsComplete(space: Text, rest: Text, depth: nat, values: nat, items: seq<Json>, g: Config)
    requires AllSpace(space)
    ensures ReadItems(UnparseItems(NoItems(space)) + rest, depth, values, items, g)
            == Ok(Read(Arr(items), rest, values))
    ensures items + EraseItems(NoItems(space)) == items && CountItems(EraseItems(NoItems(space))) == 0
  {
    hide ReadItems;
    assert UnparseItems(NoItems(space)) + rest == space + ([RBRACKET] + rest);
    AfterValueStops(space, RBRACKET, rest);
    ItemsClose(space + ([RBRACKET] + rest), rest, depth, values, items, g);
  }

  lemma {:induction false} ItemsComplete(t: Items, rest: Text, depth: nat, values: nat, items: seq<Json>, g: Config)
    requires GrammaticalItems(t, g) && WithinItems(t, depth, g.limit)
    requires |items| + |EraseItems(t)| <= g.limit.maximumArrayLength
    requires values + CountItems(EraseItems(t)) <= g.limit.maximumValues
    ensures ReadItems(UnparseItems(t) + rest, depth, values, items, g) ==
            Ok(Read(Arr(items + EraseItems(t)), rest, values + CountItems(EraseItems(t))))
    decreases t
  {
    hide ReadValue, ReadItems, ReadItemsTail, ReadMembers, ReadMembersTail, ReadScalar, Skip, Unparse, Grammatical,
      Within, Erase, Count;
    match t {
      case NoItems(space) =>
        NoItemsComplete(space, rest, depth, values, items, g);
      case LastItem(before, c, after) =>
        LastItemText(before, c, after, rest);
        assert CountItems([Erase(c)]) == Count(Erase(c));
        ItemFront(before, c, after, RBRACKET, rest, depth, values, items, g);
        ItemsClose(after + ([RBRACKET] + rest), rest, depth, values + Count(Erase(c)), items + [Erase(c)], g);
      case Item(before, c, after, more) =>
        ItemErased(before, c, after, more, items);
        ItemText(before, c, after, more, rest);
        MoreItems(before, c, after, UnparseItems(more) + rest, depth, values, items, g);
        ItemsComplete(more, rest, depth, values + Count(Erase(c)), items + [Erase(c)], g);
    }
  }

  lemma {:induction false} MoreItems(before: Text, c: Cst, after: Text, later: Text, depth: nat, values: nat,
                                     items: seq<Json>, g: Config)
    requires AllSpace(before) && AllSpace(after)
    requires Grammatical(c, g) && Within(c, depth, g.limit) && values + Count(Erase(c)) <= g.limit.maximumValues
    requires |items| < g.limit.maximumArrayLength
    ensures ReadItems(before + (Unparse(c) + (after + ([COMMA] + later))), depth, values, items, g) ==
            ReadItems(later, depth, values + Count(Erase(c)), items + [Erase(c)], g)
    decreases c, 2
  {
    hide ReadValue, ReadItems, ReadItemsTail, ReadMembers, ReadMembersTail, ReadScalar, Skip;
    ItemFront(before, c, after, COMMA, later, depth, values, items, g);
    ItemsMore(after + ([COMMA] + later), later, depth, values + Count(Erase(c)), items + [Erase(c)], g);
  }

  /** Reading one element leads to the tail after it. */
  lemma {:induction false} ItemFront(before: Text, c: Cst, after: Text, mark: Unit, rest: Text, depth: nat, values: nat,
                                     items: seq<Json>, g: Config)
    requires AllSpace(before) && AllSpace(after) && (mark == RBRACKET || mark == COMMA)
    requires Grammatical(c, g) && Within(c, depth, g.limit) && values + Count(Erase(c)) <= g.limit.maximumValues
    requires |items| < g.limit.maximumArrayLength
    ensures var tail := after + ([mark] + rest);
            && Skip(tail) == [mark] + rest
            && ReadItems(before + (Unparse(c) + tail), depth, values, items, g) ==
               ReadItemsTail(tail, depth, values + Count(Erase(c)), items + [Erase(c)], g)
    decreases c, 1
  {
    hide ReadValue, ReadItems, ReadItemsTail, ReadMembers, ReadMembersTail, ReadScalar, Grammatical, Within, Count,
      Erase;
    var tail := after + ([mark] + rest);
    AfterValueStops(after, mark, rest);
    FirstUnit(c, g);
    SkipSpace(before, Unparse(c) + tail);
    ValueComplete(c, tail, depth, values, g);
    ItemsRead(before + (Unparse(c) + tail), depth, values, items, g, Read(Erase(c), tail, values + Count(Erase(c))));
  }

  lemma MembersClose(s: Text, rest: Text, depth: nat, values: nat, members: seq<Entry>, g: Config)
    requires Skip(s) == [RBRACE] + rest
    ensures ReadMembers(s, depth, values, members, g) == Ok(Read(Obj(members), rest, values))
    ensures ReadMembersTail(s, depth, values, members, g) == Ok(Read(Obj(members), rest, values))
  {
  }

  lemma MembersMore(s: Text, rest: Text, depth: nat, values: nat, members: seq<Entry>, g: Config)
    requires Skip(s) == [COMMA] + rest
    ensures ReadMembersTail(s, depth, values, members, g) == ReadMembers(rest, depth, values, members, g)
  {
    assert ([COMMA] + rest)[1..] == rest;
  }

  lemma NoMembersComplete(space: Text, rest: Text, depth: nat, values: nat, members: seq<Entry>, g: Config)
    requires AllSpace(space)
    ensures ReadMembers(UnparseMembers(NoMembers(space)) + rest, depth, values, members, g)
            == Ok(Read(Obj(members), rest, values))
    ensures members + EraseMembers(NoMembers(space)) == members && CountMembers(EraseMembers(NoMembers(space))) == 0
  {
    hide ReadMembers;
    assert UnparseMembers(NoMembers(space)) + rest == space + ([RBRACE] + rest);
    AfterValueStops(space, RBRACE, rest);
    MembersClose(space + ([RBRACE] + rest), rest, depth, values, members, g);
  }

  lemma {:induction false} MembersComplete(t: Members, rest: Text, depth: nat, values: nat, members: seq<Entry>,
                                           g: Config)
    requires GrammaticalMembers(t, g) && WithinMembers(t, depth, g.limit, members)
    requires values + CountMembers(EraseMembers(t)) <= g.limit.maximumValues
    ensures ReadMembers(UnparseMembers(t) + rest, depth, values, members, g) ==
            Ok(Read(Obj(members + EraseMembers(t)), rest, values + CountMembers(EraseMembers(t))))
    decreases t
  {
    hide ReadValue, ReadItems, ReadItemsTail, ReadMembers, ReadMembersTail, ReadScalar, Skip, Unparse, Grammatical,
      Within, Erase, Count;
    hide KeyText, KeyWithin, GrammaticalKey, KeyValue;
    match t {
      case NoMembers(space) =>
        NoMembersComplete(space, rest, depth, values, members, g);
      case LastMember(key, c, after) =>
        var entry := Entry(KeyValue(key), Erase(c));
        LastMemberText(key, c, after, rest);
        assert CountMembers([entry]) == Count(Erase(c));
        MemberFront(key, c, after, RBRACE, rest, depth, values, members, g);
        MembersClose(after + ([RBRACE] + rest), rest, depth, values + Count(Erase(c)), members + [entry], g);
      case Member(key, c, after, more) =>
        var entry := Entry(KeyValue(key), Erase(c));
        MemberErased(key, c, after, more, members);
        MemberText(key, c, after, more, rest);
        MoreMembers(key, c, after, UnparseMembers(more) + rest, depth, values, members, g);
        MembersComplete(more, rest, depth, values + Count(Erase(c)), members + [entry], g);
    }
  }

  lemma {:induction false} MoreMembers(key: Key, c: Cst, after: Text, later: Text, depth: nat, values: nat,
                                       members: seq<Entry>, g: Config)
    requires GrammaticalKey(key) && KeyWithin(KeyValue(key), g.limit, members) && AllSpace(after)
    requires Grammatical(c, g) && Within(c, depth, g.limit) && values + Count(Erase(c)) <= g.limit.maximumValues
    ensures ReadMembers(KeyText(key) + (Unparse(c) + (after + ([COMMA] + later))), depth, values, members, g) ==
            ReadMembers(later, depth, values + Count(Erase(c)), members + [Entry(KeyValue(key), Erase(c))], g)
    decreases c, 2
  {
    hide ReadValue, ReadItems, ReadItemsTail, ReadMembers, ReadMembersTail, ReadScalar, Skip;
    MemberFront(key, c, after, COMMA, later, depth, values, members, g);
    MembersMore(after + ([COMMA] + later), later, depth, values + Count(Erase(c)),
                members + [Entry(KeyValue(key), Erase(c))], g);
  }

  /** Reading a key, its colon and its value leads to the tail after them. */
  lemma {:induction false} MemberFront(key: Key, c: Cst, after: Text, mark: Unit, rest: Text, depth: nat, values: nat,
                                       members: seq<Entry>, g: Config)
    requires GrammaticalKey(key) && KeyWithin(KeyValue(key), g.limit, members)
    requires AllSpace(after) && (mark == RBRACE || mark == COMMA)
    requires Grammatical(c, g) && Within(c, depth, g.limit) && values + Count(Erase(c)) <= g.limit.maximumValues
    ensures var tail := after + ([mark] + rest);
            && Skip(tail) == [mark] + rest
            && ReadMembers(KeyText(key) + (Unparse(c) + tail), depth, values, members, g) ==
               ReadMembersTail(tail, depth, values + Count(Erase(c)), members + [Entry(KeyValue(key), Erase(c))], g)
    decreases c, 1
  {
    hide KeyText;
    hide ReadValue, ReadItems, ReadItemsTail, ReadMembers, ReadMembersTail, ReadScalar, Grammatical, Within, Count,
      Erase;
    var tail := after + ([mark] + rest);
    AfterValueStops(after, mark, rest);
    FirstUnit(c, g);
    SkipSpace(key.gap, Unparse(c) + tail);
    ValueComplete(c, tail, depth, values, g);
    KeyComplete(key, c, tail, depth, values, members, g);
  }

  lemma KeyComplete(key: Key, c: Cst, tail: Text, depth: nat, values: nat, members: seq<Entry>, g: Config)
    requires GrammaticalKey(key) && KeyWithin(KeyValue(key), g.limit, members)
    requires Skip(key.gap + (Unparse(c) + tail)) == Unparse(c) + tail
    requires ReadValue(Unparse(c) + tail, depth, values, g) == Ok(Read(Erase(c), tail, values + Count(Erase(c))))
    ensures ReadMembers(KeyText(key) + (Unparse(c) + tail), depth, values, members, g) ==
            ReadMembersTail(tail, depth, values + Count(Erase(c)), members + [Entry(KeyValue(key), Erase(c))], g)
  {
    hide ReadValue, Skip, ReadString, Decode, StringWithin, HasKey, Dangerous, ReadMembersTail, KeyText;
    var v := Unparse(c) + tail;
    var u2 := key.gap + v;
    var u1 := key.colon + ([COLON] + u2);
    var u := Quoted(key.body) + u1;
    KeySplit(key, v);
    assert KeyText(key) + v == key.before + u;
    assert u[0] == QUOTE;
    SkipSpace(key.before, u);
    QuotedStringComplete(key.body, u1, g.limit);
    SkipSpace(key.colon, [COLON] + u2);
    assert ([COLON] + u2)[1..] == u2;
    var name := KeyValue(key);
    assert ReadMembers(key.before + u, depth, values, members, g) == ReadColon(u1, depth, values, members, name, g);
    assert ReadColon(u1, depth, values, members, name, g) == ReadMemberValue(u2, depth, values, members, name, g);
  }

  lemma ReaderSound(text: Text, v: Json, g: Config)
    requires ReadText(text, g) == Ok(v)
    ensures Denotes(text, v, g)
  {
    hide ReadValue, Skip, Grammatical, Within;
    var s := Skip(text);
    var c := ValueSound(s, 0, 0, g);
    var rest := ReadValue(s, 0, 0, g).value.rest;
    SpacesSound(text);
    SpacesSound(rest);
    assert rest == rest[..Spaces(rest)];
    assert text == text[..Spaces(text)] + Unparse(c) + rest;
  }

  lemma ReaderComplete(before: Text, c: Cst, after: Text, g: Config)
    requires AllSpace(before) && AllSpace(after) && Grammatical(c, g)
    requires Within(c, 0, g.limit) && Count(Erase(c)) <= g.limit.maximumValues
    ensures ReadText(before + Unparse(c) + after, g) == Ok(Erase(c))
  {
    hide ReadValue, Skip, Grammatical, Within;
    assert before + Unparse(c) + after == before + (Unparse(c) + after);
    FirstUnit(c, g);
    SkipSpace(before, Unparse(c) + after);
    SpaceStops(after);
    ValueComplete(c, after, 0, 0, g);
    SkipSpace(after, []);
    assert after + [] == after;
  }

  lemma SpaceStops(after: Text)
    requires AllSpace(after)
    ensures Stops(after)
  {
  }

  /** The reader accepts a text with value `v` exactly when the grammar gives the text that value within the budgets. */
  lemma ReaderMeetsGrammar(text: Text, v: Json, g: Config)
    ensures ReadText(text, g) == Ok(v) <==> Denotes(text, v, g)
  {
    if ReadText(text, g) == Ok(v) {
      ReaderSound(text, v, g);
    }
    if Denotes(text, v, g) {
      var before, c, after :|
        && AllSpace(before) && AllSpace(after) && Grammatical(c, g)
        && text == before + Unparse(c) + after && Erase(c) == v
        && Within(c, 0, g.limit) && Count(v) <= g.limit.maximumValues;
      ReaderComplete(before, c, after, g);
    }
  }
}
