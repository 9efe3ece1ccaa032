/** A recursive-descent reader for the protocol's JSON, and its agreement with the declarative grammar.
  * Each function reads from a suffix of the text; `depth` counts the containers that are open. */
module JsonDescent {
  import opened Wrappers
  import opened Utf16
  import opened JsonStrings
  import opened JsonNumbers
  import opened JsonSyntax

  /** A value, the text left after it, and how many values have been started so far. */
  datatype Read = Read(value: Json, rest: Text, values: nat)

  function Spaces(s: Text): (n: nat)
    ensures n <= |s|
    ensures n < |s| ==> !IsSpace(s[n])
  {
    if s != [] && IsSpace(s[0]) then 1 + Spaces(s[1..]) else 0
  }

  function Skip(s: Text): (t: Text)
    ensures |t| <= |s|
    ensures t != [] ==> !IsSpace(t[0])
  {
    s[Spaces(s)..]
  }

  /** `string()`: scan to the closing quote, decode, then check surrogates and bytes. */
  function ReadString(s: Text, limit: Limits): (r: Result<(Text, Text)>)
    requires s != []
    ensures r.Ok? ==> |r.value.1| < |s|
  {
    var end := Scan(s[1..]);
    if end == None then Err(Syntax)
    else
      var value := Decode(s[1..][..end.value]);
      if value == None || !WellFormed(value.value) then Err(Syntax)
      else if Utf8Length(value.value) > limit.maximumStringBytes then Err(Budget)
      else Ok((value.value, s[1..][end.value + 1..]))
  }

  function ReadLiteral(s: Text, text: Text, value: Json): (r: Result<(Json, Text)>)
    requires text != []
    ensures r.Ok? ==> |r.value.1| < |s|
  {
    if text <= s then Ok((value, s[|text|..])) else Err(Syntax)
  }

  function ReadNumber(s: Text, g: Config): (r: Result<(Json, Text)>)
    ensures r.Ok? ==> |r.value.1| < |s|
  {
    var n := LexNumber(s);
    if n == 0 then Err(Syntax)
    else if n > g.limit.maximumNumberCharacters then Err(Budget)
    else if g.numbers.lex(s[..n]) == None then Err(Syntax)
    else Ok((Num(g.numbers.lex(s[..n]).value), s[n..]))
  }

  function ReadScalar(s: Text, g: Config): (r: Result<(Json, Text)>)
    ensures r.Ok? ==> |r.value.1| < |s|
  {
    if s == [] then Err(Syntax)
    else if s[0] == QUOTE then
      var r := ReadString(s, g.limit);
      if r.Ok? then Ok((Str(r.value.0), r.value.1)) else Err(r.error)
    else if s[0] == TRUE[0] then ReadLiteral(s, TRUE, Bool(true))
    else if s[0] == FALSE[0] then ReadLiteral(s, FALSE, Bool(false))
    else if s[0] == NULL[0] then ReadLiteral(s, NULL, Null)
    else if s[0] == MINUS || IsDigit(s[0]) then ReadNumber(s, g)
    else Err(Syntax)
  }

  function ReadValue(s: Text, depth: nat, values: nat, g: Config): (r: Result<Read>)
    ensures r.Ok? ==> |r.value.rest| < |s|
    decreases |s|, 0
  {
    if values + 1 > g.limit.maximumValues then Err(Budget)
    else if s != [] && s[0] == LBRACE then
      if depth + 1 > g.limit.maximumDepth then Err(Budget) else ReadMembers(s[1..], depth + 1, values + 1, [], g)
    else if s != [] && s[0] == LBRACKET then
      if depth + 1 > g.limit.maximumDepth then Err(Budget) else ReadItems(s[1..], depth + 1, values + 1, [], g)
    else
      var r := ReadScalar(s, g);
      if r.Ok? then Ok(Read(r.value.0, r.value.1, values + 1)) else Err(r.error)
  }

  /** At a place where an element or the closing bracket may come; `items` are already read. */
  function ReadItems(s: Text, depth: nat, values: nat, items: seq<Json>, g: Config): (r: Result<Read>)
    ensures r.Ok? ==> |r.value.rest| < |s|
    decreases |s|, 1
  {
    var t := Skip(s);
    if t != [] && t[0] == RBRACKET then Ok(Read(Arr(items), t[1..], values))
    else
      var r := ReadValue(t, depth, values, g);
      if r.Err? then r
      else if |items| >= g.limit.maximumArrayLength then Err(Budget)
      else ReadItemsTail(r.value.rest, depth, r.value.values, items + [r.value.value], g)
  }

  /** After an element: a comma or the closing bracket. */
  function ReadItemsTail(s: Text, depth: nat, values: nat, items: seq<Json>, g: Config): (r: Result<Read>)
    ensures r.Ok? ==> |r.value.rest| < |s|
    decreases |s|, 1
  {
    var t := Skip(s);
    if t != [] && t[0] == RBRACKET then Ok(Read(Arr(items), t[1..], values))
    else if t == [] || t[0] != COMMA then Err(Syntax)
    else ReadItems(t[1..], depth, values, items, g)
  }

  /** At a place where a key or the closing brace may come; `members` are already read. */
  function ReadMembers(s: Text, depth: nat, values: nat, members: seq<Entry>, g: Config): (r: Result<Read>)
    ensures r.Ok? ==> |r.value.rest| < |s|
    decreases |s|, 1
  {
    var t := Skip(s);
    if t != [] && t[0] == RBRACE then Ok(Read(Obj(members), t[1..], values))
    else if t == [] || t[0] != QUOTE then Err(Syntax)
    else
      var key := ReadString(t, g.limit);
      if key.Err? then Err(key.error)
      else if Dangerous(key.value.0) then Err(DangerousKey)
      else if HasKey(members, key.value.0) then Err(DuplicateKey)
      else ReadColon(key.value.1, depth, values, members, key.value.0, g)
  }

  function ReadColon(s: Text, depth: nat, values: nat, members: seq<Entry>, key: Text, g: Config): (r: Result<Read>)
    ensures r.Ok? ==> |r.value.rest| < |s|
    decreases |s|, 1
  {
    var t := Skip(s);
    if t == [] || t[0] != COLON then Err(Syntax) else ReadMemberValue(t[1..], depth, values, members, key, g)
  }

  function ReadMemberValue(s: Text, depth: nat, values: nat, members: seq<Entry>, key: Text,
                           g: Config): (r: Result<Read>)
    ensures r.Ok? ==> |r.value.rest| < |s|
    decreases |s|, 1
  {
    var r := ReadValue(Skip(s), depth, values, g);
    if r.Err? then r
    else ReadMembersTail(r.value.rest, depth, r.value.values, members + [Entry(key, r.value.value)], g)
  }

  function ReadMembersTail(s: Text, depth: nat, values: nat, members: seq<Entry>, g: Config): (r: Result<Read>)
    ensures r.Ok? ==> |r.value.rest| < |s|
    decreases |s|, 1
  {
    var t := Skip(s);
    if t != [] && t[0] == RBRACE then Ok(Read(Obj(members), t[1..], values))
    else if t == [] || t[0] != COMMA then Err(Syntax)
    else ReadMembers(t[1..], depth, values, members, g)
  }

  /** Only space may follow the root value. */
  function Finish(value: Json, rest: Text): Result<Json>
  {
    if Skip(rest) == [] then Ok(value) else Err(Syntax)
  }

  function ReadText(text: Text, g: Config): Result<Json>
  {
    var r := ReadValue(Skip(text), 0, 0, g);
    if r.Ok? then Finish(r.value.value, r.value.rest) else Err(r.error)
  }

  // ---------- Soundness: whatever is read has a syntax tree ----------

  lemma {:induction false} SpacesSound(s: Text)
    ensures AllSpace(s[..Spaces(s)]) && s == s[..Spaces(s)] + Skip(s)
  {
    if s != [] && IsSpace(s[0]) {
      SpacesSound(s[1..]);
      assert s[..Spaces(s)] == [s[0]] + s[1..][..Spaces(s) - 1];
    }
  }

  lemma ReadStringSound(s: Text, limit: Limits) returns (body: Text)
    requires s != [] && s[0] == QUOTE && ReadString(s, limit).Ok?
    ensures var r := ReadString(s, limit).value;
            s == Quoted(body) + r.1 && Decode(body) == Some(r.0) && StringWithin(r.0, limit)
  {
    var end := Scan(s[1..]).value;
    body := s[1..][..end];
    SplitQuoted(s, end);
  }

  lemma SplitQuoted(s: Text, end: nat)
    requires s != [] && s[0] == QUOTE && end < |s[1..]| && s[1..][end] == QUOTE
    ensures s == Quoted(s[1..][..end]) + s[1..][end + 1..]
  {
  }

  lemma ReadNumberSound(s: Text, g: Config)
    requires ReadNumber(s, g).Ok?
    ensures var n := LexNumber(s);
            s == s[..n] + ReadNumber(s, g).value.1 && NumberText(s[..n]) && n <= g.limit.maximumNumberCharacters
    ensures ReadNumber(s, g).value.0.Num? && g.numbers.lex(s[..LexNumber(s)]) == Some(ReadNumber(s, g).value.0.n)
  {
    hide LexNumber;
    LexSound(s);
  }

  lemma ReadScalarSound(s: Text, depth: nat, g: Config) returns (token: Text)
    requires ReadScalar(s, g).Ok?
    ensures var r := ReadScalar(s, g).value;
            && s == token + r.1 && AtomText(token, r.0, g) && Within(Atom(token, r.0), depth, g.limit)
            && Count(r.0) == 1
  {
    hide ReadString, ReadNumber, Decode, WellFormed;
    if s[0] == QUOTE {
      var body := ReadStringSound(s, g.limit);
      token := Quoted(body);
      assert token[1..|token| - 1] == body;
    } else if s[0] == TRUE[0] {
      token := TRUE;
    } else if s[0] == FALSE[0] {
      token := FALSE;
    } else if s[0] == NULL[0] {
      token := NULL;
    } else {
      token := s[..LexNumber(s)];
      ReadNumberSound(s, g);
    }
  }

  /** `c` is the tree of a value read from `s`, leaving `r`. */
  ghost predicate IsValue(c: Cst, s: Text, depth: nat, values: nat, g: Config, r: Read)
  {
    && Grammatical(c, g) && s == Unparse(c) + r.rest && Erase(c) == r.value
    && Within(c, depth, g.limit) && r.values == values + Count(r.value) <= g.limit.maximumValues
  }

  ghost predicate IsItems(t: Items, s: Text, depth: nat, values: nat, items: seq<Json>, g: Config, r: Read)
  {
    && GrammaticalItems(t, g) && s == UnparseItems(t) + r.rest && r.value == Arr(items + EraseItems(t))
    && WithinItems(t, depth, g.limit) && |items + EraseItems(t)| <= g.limit.maximumArrayLength
    && r.values == values + CountItems(EraseItems(t)) <= g.limit.maximumValues
  }

  ghost predicate IsMembers(t: Members, s: Text, depth: nat, values: nat, members: seq<Entry>, g: Config, r: Read)
  {
    && GrammaticalMembers(t, g) && s == UnparseMembers(t) + r.rest && r.value == Obj(members + EraseMembers(t))
    && WithinMembers(t, depth, g.limit, members)
    && r.values == values + CountMembers(EraseMembers(t)) <= g.limit.maximumValues
  }

  lemma ObjectSound(t: Members, s: Text, depth: nat, values: nat, g: Config, r: Read)
    requires s != [] && s[0] == LBRACE && depth < g.limit.maximumDepth
             && IsMembers(t, s[1..], depth + 1, values + 1, [], g, r)
    ensures IsValue(Object(t), s, depth, values, g, r)
  {
    assert s == [LBRACE] + s[1..];
    assert [] + EraseMembers(t) == EraseMembers(t);
  }

  lemma ArraySound(t: Items, s: Text, depth: nat, values: nat, g: Config, r: Read)
    requires s != [] && s[0] == LBRACKET && depth < g.limit.maximumDepth
             && IsItems(t, s[1..], depth + 1, values + 1, [], g, r)
    ensures IsValue(Array(t), s, depth, values, g, r)
  {
    assert s == [LBRACKET] + s[1..];
    assert [] + EraseItems(t) == EraseItems(t);
  }

  lemma {:induction false} ValueSound(s: Text, depth: nat, values: nat, g: Config) returns (c: Cst)
    requires ReadValue(s, depth, values, g).Ok?
    ensures IsValue(c, s, depth, values, g, ReadValue(s, depth, values, g).value)
    decreases |s|, 0
  {
    hide IsValue, IsItems, IsMembers, ReadItems, ReadMembers, ReadScalar;
    if s != [] && s[0] == LBRACE {
      var t := MembersSound(s[1..], depth + 1, values + 1, [], g);
      c := Object(t);
      ObjectSound(t, s, depth, values, g, ReadValue(s, depth, values, g).value);
    } else if s != [] && s[0] == LBRACKET {
      var t := ItemsSound(s[1..], depth + 1, values + 1, [], g);
      c := Array(t);
      ArraySound(t, s, depth, values, g, ReadValue(s, depth, values, g).value);
    } else {
      c := ScalarSound(s, depth, values, g);
    }
  }

  lemma ScalarSound(s: Text, depth: nat, values: nat, g: Config) returns (c: Cst)
    requires ReadValue(s, depth, values, g).Ok? && !(s != [] && (s[0] == LBRACE || s[0] == LBRACKET))
    ensures IsValue(c, s, depth, values, g, ReadValue(s, depth, values, g).value)
  {
    hide ReadScalar, Within, Count, AtomText;
    var token := ReadScalarSound(s, depth, g);
    c := Atom(token, ReadScalar(s, g).value.0);
  }

  // How the pieces of a text make up the text of a tree; `left` is what follows.

  lemma LastItemText(before: Text, c: Cst, after: Text, left: Text)
    ensures before + (Unparse(c) + (after + ([RBRACKET] + left))) == UnparseItems(LastItem(before, c, after)) + left
  {
  }

  lemma ItemText(before: Text, c: Cst, after: Text, rest: Items, left: Text)
    ensures before + (Unparse(c) + (after + ([COMMA] + (UnparseItems(rest) + left)))) ==
            UnparseItems(Item(before, c, after, rest)) + left
  {
  }

  lemma LastMemberText(key: Key, c: Cst, after: Text, left: Text)
    ensures KeyText(key) + (Unparse(c) + (after + ([RBRACE] + left))) == UnparseMembers(LastMember(key, c, after))
            + left
  {
    hide KeyText;
  }

  lemma MemberText(key: Key, c: Cst, after: Text, rest: Members, left: Text)
    ensures KeyText(key) + (Unparse(c) + (after + ([COMMA] + (UnparseMembers(rest) + left)))) ==
            UnparseMembers(Member(key, c, after, rest)) + left
  {
    hide KeyText;
  }

  lemma KeySplit(k: Key, left: Text)
    ensures k.before + (Quoted(k.body) + (k.colon + ([COLON] + (k.gap + left)))) == KeyText(k) + left
  {
  }

  lemma Head(s: Text)
    requires s != []
    ensures s == [s[0]] + s[1..]
  {
  }

  /** What a successful `ReadItems` has read. */
  lemma ItemsStep(s: Text, depth: nat, values: nat, items: seq<Json>, g: Config)
    requires ReadItems(s, depth, values, items, g).Ok?
    ensures var r, u := ReadItems(s, depth, values, items, g).value, Skip(s);
            if u != [] && u[0] == RBRACKET then r == Read(Arr(items), u[1..], values)
            else
              && ReadValue(u, depth, values, g).Ok? && |items| < g.limit.maximumArrayLength
              && var v := ReadValue(u, depth, values, g).value;
                 var w := Skip(v.rest);
                 && w != [] && (w[0] == RBRACKET || w[0] == COMMA) && |w| < |s|
                 && (w[0] == RBRACKET ==> r == Read(Arr(items + [v.value]), w[1..], v.values))
                 && (w[0] == COMMA ==> ReadItems(w[1..], depth, v.values, items + [v.value], g) == Ok(r))
  {
    hide ReadValue, Skip;
  }

  lemma LastItemRead(t: Items, s: Text, u: Text, depth: nat, values: nat, items: seq<Json>, g: Config, v: Read,
                     left: Text)
    requires t.LastItem? && AllSpace(t.before) && AllSpace(t.after) && s == t.before + u
    requires IsValue(t.item, u, depth, values, g, v) && v.rest == t.after + ([RBRACKET] + left)
    requires |items| < g.limit.maximumArrayLength
    ensures IsItems(t, s, depth, values, items, g, Read(Arr(items + [v.value]), left, v.values))
  {
    LastItemText(t.before, t.item, t.after, left);
    assert CountItems([v.value]) == Count(v.value);
  }

  lemma ItemRead(t: Items, s: Text, u: Text, depth: nat, values: nat, items: seq<Json>, g: Config, v: Read, x: Text,
                 r: Read)
    requires t.Item? && AllSpace(t.before) && AllSpace(t.after) && s == t.before + u
    requires IsValue(t.item, u, depth, values, g, v) && v.rest == t.after + ([COMMA] + x)
    requires IsItems(t.rest, x, depth, v.values, items + [v.value], g, r)
    ensures IsItems(t, s, depth, values, items, g, r)
  {
    ItemText(t.before, t.item, t.after, t.rest, r.rest);
    ItemParts(t, u, depth, values, g, v);
    hide IsValue, Unparse, UnparseItems, Erase, EraseItems, Count, CountItems, WithinItems, GrammaticalItems;
    ItemGathered(items, v.value, EraseItems(t.rest), EraseItems(t));
  }

  lemma ItemGathered(items: seq<Json>, v: Json, rest: seq<Json>, all: seq<Json>)
    requires all == [v] + rest
    ensures items + [v] + rest == items + all
  {}

  /** What an item adds to the list it heads. */
  lemma ItemParts(t: Items, u: Text, depth: nat, values: nat, g: Config, v: Read)
    requires t.Item? && AllSpace(t.before) && AllSpace(t.after) && IsValue(t.item, u, depth, values, g, v)
    ensures EraseItems(t) == [v.value] + EraseItems(t.rest)
            && CountItems(EraseItems(t)) + values == v.values + CountItems(EraseItems(t.rest))
    ensures GrammaticalItems(t.rest, g) ==> GrammaticalItems(t, g)
    ensures WithinItems(t.rest, depth, g.limit) ==> WithinItems(t, depth, g.limit)
    ensures u == Unparse(t.item) + v.rest
  {
    hide Unparse;
    assert ([v.value] + EraseItems(t.rest))[1..] == EraseItems(t.rest);
  }

  lemma {:induction false} ItemsSound(s: Text, depth: nat, values: nat, items: seq<Json>, g: Config) returns (t: Items)
    requires ReadItems(s, depth, values, items, g).Ok?
    requires |items| <= g.limit.maximumArrayLength && values <= g.limit.maximumValues
    ensures IsItems(t, s, depth, values, items, g, ReadItems(s, depth, values, items, g).value)
    decreases |s|, 1
  {
    ItemsStep(s, depth, values, items, g);
    hide ReadItems, ReadItemsTail, ReadValue, Skip, IsValue;
    var before, u := s[..Spaces(s)], Skip(s);
    SpacesSound(s);
    if u != [] && u[0] == RBRACKET {
      t := NoItems(before);
      Head(u);
      assert before + [RBRACKET] + u[1..] == before + ([RBRACKET] + u[1..]);
      assert items + [] == items;
    } else {
      hide IsItems;
      var c := ValueSound(u, depth, values, g);
      var v := ReadValue(u, depth, values, g).value;
      var after, w := v.rest[..Spaces(v.rest)], Skip(v.rest);
      SpacesSound(v.rest);
      Head(w);
      if w[0] == RBRACKET {
        t := LastItem(before, c, after);
        LastItemRead(t, s, u, depth, values, items, g, v, w[1..]);
      } else {
        var rest := ItemsSound(w[1..], depth, v.values, items + [v.value], g);
        t := Item(before, c, after, rest);
        ItemRead(t, s, u, depth, values, items, g, v, w[1..], ReadItems(s, depth, values, items, g).value);
      }
    }
  }

  /** What a successful `ReadMembers` has read. */
  lemma MembersStep(s: Text, depth: nat, values: nat, members: seq<Entry>, g: Config)
    requires ReadMembers(s, depth, values, members, g).Ok?
    ensures var r, u := ReadMembers(s, depth, values, members, g).value, Skip(s);
            if u != [] && u[0] == RBRACE then r == Read(Obj(members), u[1..], values)
            else
              && u != [] && u[0] == QUOTE && ReadString(u, g.limit).Ok?
              && var key, u1 := ReadString(u, g.limit).value.0, ReadString(u, g.limit).value.1;
                 && !Dangerous(key) && !HasKey(members, key)
                 && Skip(u1) != [] && Skip(u1)[0] == COLON
                 && var v := Skip(Skip(u1)[1..]);
                 && ReadValue(v, depth, values, g).Ok? && |v| < |s|
                 && var value := ReadValue(v, depth, values, g).value;
                 var w, all := Skip(value.rest), members + [Entry(key, value.value)];
                 && w != [] && (w[0] == RBRACE || w[0] == COMMA) && |w| < |s|
                 && (w[0] == RBRACE ==> r == Read(Obj(all), w[1..], value.values))
                 && (w[0] == COMMA ==> ReadMembers(w[1..], depth, value.values, all, g) == Ok(r))
  {
    hide ReadValue, Skip, ReadString, HasKey, Dangerous;
    var r, u := ReadMembers(s, depth, values, members, g), Skip(s);
    if !(u != [] && u[0] == RBRACE) {
      var key, u1 := ReadString(u, g.limit).value.0, ReadString(u, g.limit).value.1;
      assert ReadColon(u1, depth, values, members, key, g) == r;
      var u2 := Skip(u1)[1..];
      assert ReadMemberValue(u2, depth, values, members, key, g) == r;
      var v := ReadValue(Skip(u2), depth, values, g).value;
      assert ReadMembersTail(v.rest, depth, v.values, members + [Entry(key, v.value)], g) == r;
    }
  }

  lemma LastMemberRead(t: Members, s: Text, u: Text, depth: nat, values: nat, members: seq<Entry>, g: Config, v: Read,
                       left: Text)
    requires t.LastMember? && GrammaticalKey(t.key) && AllSpace(t.after) && s == KeyText(t.key) + u
    requires KeyWithin(KeyValue(t.key), g.limit, members)
    requires IsValue(t.value, u, depth, values, g, v) && v.rest == t.after + ([RBRACE] + left)
    ensures IsMembers(t, s, depth, values, members, g,
                      Read(Obj(members + [Entry(KeyValue(t.key), v.value)]), left, v.values))
  {
    hide KeyText, KeyWithin, KeyValue, GrammaticalKey;
    LastMemberText(t.key, t.value, t.after, left);
    assert CountMembers([Entry(KeyValue(t.key), v.value)]) == Count(v.value);
  }

  lemma MemberRead(t: Members, s: Text, u: Text, depth: nat, values: nat, members: seq<Entry>, g: Config, v: Read,
                   x: Text, r: Read)
    requires t.Member? && GrammaticalKey(t.key) && AllSpace(t.after) && s == KeyText(t.key) + u
    requires KeyWithin(KeyValue(t.key), g.limit, members)
    requires IsValue(t.value, u, depth, values, g, v) && v.rest == t.after + ([COMMA] + x)
    requires IsMembers(t.rest, x, depth, v.values, members + [Entry(KeyValue(t.key), v.value)], g, r)
    ensures IsMembers(t, s, depth, values, members, g, r)
  {
    hide KeyText, KeyWithin, KeyValue, GrammaticalKey;
    MemberText(t.key, t.value, t.after, t.rest, r.rest);
    assert members + [Entry(KeyValue(t.key), v.value)] + EraseMembers(t.rest) == members + EraseMembers(t);
  }

  /** The key at the front of a member, up to its value. */
  lemma KeyRead(s: Text, members: seq<Entry>, limit: Limits) returns (key: Key)
    requires var u := Skip(s);
             && u != [] && u[0] == QUOTE && ReadString(u, limit).Ok?
             && var r := ReadString(u, limit).value;
             Skip(r.1) != [] && Skip(r.1)[0] == COLON && !Dangerous(r.0) && !HasKey(members, r.0)
    ensures var r := ReadString(Skip(s), limit).value;
            && GrammaticalKey(key) && KeyValue(key) == r.0 && KeyWithin(r.0, limit, members)
            && s == KeyText(key) + Skip(Skip(r.1)[1..])
  {
    hide Skip, ReadString, KeyText, Dangerous, HasKey;
    var u := Skip(s);
    SpacesSound(s);
    var body := ReadStringSound(u, limit);
    var u1 := ReadString(u, limit).value.1;
    SpacesSound(u1);
    Head(Skip(u1));
    var u2 := Skip(u1)[1..];
    SpacesSound(u2);
    key := Key(s[..Spaces(s)], body, u1[..Spaces(u1)], u2[..Spaces(u2)]);
    KeySplit(key, Skip(u2));
  }

  lemma {:induction false} MembersSound(s: Text, depth: nat, values: nat, members: seq<Entry>, g: Config)
    returns (t: Members)
    requires ReadMembers(s, depth, values, members, g).Ok? && values <= g.limit.maximumValues
    ensures IsMembers(t, s, depth, values, members, g, ReadMembers(s, depth, values, members, g).value)
    decreases |s|, 1
  {
    MembersStep(s, depth, values, members, g);
    hide ReadMembers, ReadMembersTail, ReadColon, ReadMemberValue, ReadValue, Skip, ReadString, KeyText, IsValue;
    hide KeyWithin, KeyValue, GrammaticalKey, HasKey, Dangerous;
    var u := Skip(s);
    if u != [] && u[0] == RBRACE {
      var before := s[..Spaces(s)];
      SpacesSound(s);
      t := NoMembers(before);
      Head(u);
      assert before + [RBRACE] + u[1..] == before + ([RBRACE] + u[1..]);
      assert members + [] == members;
    } else {
      hide IsMembers;
      var name := ReadString(u, g.limit).value.0;
      var key := KeyRead(s, members, g.limit);
      var x := Skip(Skip(ReadString(u, g.limit).value.1)[1..]);
      var c := ValueSound(x, depth, values, g);
      var v := ReadValue(x, depth, values, g).value;
      var after, w := v.rest[..Spaces(v.rest)], Skip(v.rest);
      SpacesSound(v.rest);
      Head(w);
      if w[0] == RBRACE {
        t := LastMember(key, c, after);
        LastMemberRead(t, s, x, depth, values, members, g, v, w[1..]);
      } else {
        var rest := MembersSound(w[1..], depth, v.values, members + [Entry(name, v.value)], g);
        t := Member(key, c, after, rest);
        MemberRead(t, s, x, depth, values, members, g, v, w[1..], ReadMembers(s, depth, values, members, g).value);
      }
    }
  }
}
