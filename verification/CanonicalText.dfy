/** Canonical text of plain data: keys in a fixed order, numbers and strings as `JSON.stringify` writes them. */
module CanonicalText {
  import opened Wrappers
  import opened Utf16
  import opened JsonStrings
  import opened JsonNumbers
  import opened Documents
  import S = JsonSyntax
  import JsonRoundTrip

  /** A way to list the keys of an object, as a sort by any strict total order is one. */
  type Order = set<Text> -> seq<Text>

  ghost predicate Lists(ord: Order) { forall s: set<Text> :: (set k <- ord(s)) == s && |ord(s)| == |s| }

  function Comma(i: nat): Text { if i > 0 then [S.COMMA] else [] }

  ghost predicate KeysIn(v: Val, keys: seq<Text>) { v.Record? && forall k <- keys :: k in v.fields }

  ghost function Listed(v: Val, ord: Order): (keys: seq<Text>)
    requires v.Record? && Lists(ord)
    ensures KeysIn(v, keys) && (set k <- keys) == v.fields.Keys && |keys| == |v.fields|
  {
    var keys := ord(v.fields.Keys);
    assert (set k <- keys) == v.fields.Keys;
    assert forall k <- keys :: k in (set x <- keys);
    assert |v.fields| == |v.fields.Keys|;
    keys
  }

  ghost function Canon(v: Val, n: NumberCodec, ord: Order): Text
    requires Lists(ord)
    decreases v, 1, 0
  {
    match v
    case Null => S.NULL
    case Bool(b) => if b then S.TRUE else S.FALSE
    case Num(x) => n.show(x)
    case Str(s) => Quote(s)
    case List(items) => [S.LBRACKET] + CanonItems(v, 0, n, ord) + [S.RBRACKET]
    case Record(fields) => [S.LBRACE] + CanonMembers(v, Listed(v, ord), 0, n, ord) + [S.RBRACE]
  }

  /** The items from index `i`, each after the first with its comma. */
  ghost function CanonItems(v: Val, i: nat, n: NumberCodec, ord: Order): Text
    requires Lists(ord) && v.List? && i <= |v.items|
    decreases v, 0, |v.items| - i
  {
    if i == |v.items| then [] else Comma(i) + (Canon(v.items[i], n, ord) + CanonItems(v, i + 1, n, ord))
  }

  ghost function CanonMembers(v: Val, keys: seq<Text>, i: nat, n: NumberCodec, ord: Order): Text
    requires Lists(ord) && KeysIn(v, keys) && i <= |keys|
    decreases v, 0, |keys| - i
  {
    if i == |keys| then []
    else Comma(i) + (Quote(keys[i])
                     + ([S.COLON] + (Canon(v.fields[keys[i]], n, ord) + CanonMembers(v, keys, i + 1, n, ord))))
  }

  // ---------- One text, one value ----------

  /** What may stand after a value. */
  predicate Ends(rest: Text) { rest == [] || rest[0] == S.COMMA || rest[0] == S.RBRACKET || rest[0] == S.RBRACE }

  /** The first unit tells the kind of value, and the two booleans apart. */
  predicate Opens(v: Val, c: Unit)
  {
    match v
    case Null => c == 0x6E
    case Bool(b) => c == if b then 0x74 else 0x66
    case Num(_) => IsDigit(c) || c == MINUS
    case Str(_) => c == QUOTE
    case List(_) => c == S.LBRACKET
    case Record(_) => c == S.LBRACE
  }

  lemma CanonOpens(v: Val, n: NumberCodec, ord: Order)
    requires Lists(ord) && n.Valid()
    ensures Canon(v, n, ord) != [] && Opens(v, Canon(v, n, ord)[0])
  {
    hide Lists, Listed, Escape, CanonItems, CanonMembers;
    match v
    case Num(x) =>
      assert NumberText(n.show(x));
      NumberOpens(n.show(x));
    case List(items) =>
      assert Canon(v, n, ord) == [S.LBRACKET] + (CanonItems(v, 0, n, ord) + [S.RBRACKET]);
    case Record(fields) =>
      assert Canon(v, n, ord) == [S.LBRACE] + (CanonMembers(v, Listed(v, ord), 0, n, ord) + [S.RBRACE]);
    case _ =>
  }

  lemma NumberOpens(t: Text)
    requires NumberText(t)
    ensures IsDigit(t[0]) || t[0] == MINUS
  {
    if t[0] != MINUS {
      assert t[MinusLength(t)..] == t;
      UnsignedFront(t);
    }
  }

  lemma SameKind(v: Val, w: Val, a: Text, b: Text, n: NumberCodec, ord: Order)
    requires Lists(ord) && n.Valid() && Canon(v, n, ord) + a == Canon(w, n, ord) + b
    ensures v.Null? == w.Null? && v.Bool? == w.Bool? && v.Num? == w.Num? && v.Str? == w.Str? && v.List? == w.List?
    ensures v.Record? == w.Record? && (v.Bool? ==> v == w)
  {
    CanonOpens(v, n, ord);
    CanonOpens(w, n, ord);
    var x, y := Canon(v, n, ord), Canon(w, n, ord);
    assert x[0] == (x + a)[0] && y[0] == (y + b)[0];
    hide Canon;
  }

  /** Texts of the same length at the front of one text are one text. */
  lemma SameSplit(x: Text, a: Text, y: Text, b: Text)
    requires x + a == y + b && |x| == |y|
    ensures x == y && a == b
  {
    assert x == (x + a)[..|x|] && y == (y + b)[..|y|];
    assert a == (x + a)[|x|..] && b == (y + b)[|y|..];
  }

  lemma NumberReadable(x: int, y: int, a: Text, b: Text, n: NumberCodec)
    requires n.Valid() && Ends(a) && Ends(b) && n.show(x) + a == n.show(y) + b
    ensures x == y && a == b
  {
    hide LexNumber;
    assert NumberText(n.show(x)) && NumberText(n.show(y));
    LexExtend(n.show(x), a);
    LexExtend(n.show(y), b);
    SameSplit(n.show(x), a, n.show(y), b);
    assert n.lex(n.show(x)) == Some(x) && n.lex(n.show(y)) == Some(y);
  }

  lemma QuoteReadable(s: Text, t: Text, a: Text, b: Text)
    requires Quote(s) + a == Quote(t) + b
    ensures s == t && a == b
  {
    DecodeEscape(s);
    DecodeEscape(t);
    hide Decode, Escape;
    var all := Quote(s) + a;
    assert all[1..] == Escape(s) + [QUOTE] + a && all[1..] == Escape(t) + [QUOTE] + b;
    ScanDecodable(Escape(s), a);
    ScanDecodable(Escape(t), b);
    assert |Quote(s)| == |Quote(t)|;
    SameSplit(Quote(s), a, Quote(t), b);
    assert Quote(s)[1..|Quote(s)| - 1] == Escape(s) && Quote(t)[1..|Quote(t)| - 1] == Escape(t);
  }

  /** A value can be read off the front of a text in one way only. */
  lemma {:induction false} Readable(v: Val, w: Val, a: Text, b: Text, n: NumberCodec, ord: Order)
    requires Lists(ord) && n.Valid() && Ends(a) && Ends(b) && Canon(v, n, ord) + a == Canon(w, n, ord) + b
    ensures v == w && a == b
    decreases v, 1, 0
  {
    hide Lists, Quote, Listed, Opens, CanonItems, CanonMembers, KeysIn;
    SameKind(v, w, a, b, n, ord);
    match v
    case Null => SameSplit(Canon(v, n, ord), a, Canon(w, n, ord), b);
    case Bool(_) => SameSplit(Canon(v, n, ord), a, Canon(w, n, ord), b);
    case Num(x) => NumberReadable(x, w.n, a, b, n);
    case Str(s) => QuoteReadable(s, w.s, a, b);
    case List(items) =>
      InsideSame(S.LBRACKET, CanonItems(v, 0, n, ord), a, CanonItems(w, 0, n, ord), b, S.RBRACKET);
      ItemsReadable(v, w, 0, a, b, n, ord);
      assert items == w.items;
    case Record(fields) =>
      var ks, ls := Listed(v, ord), Listed(w, ord);
      InsideSame(S.LBRACE, CanonMembers(v, ks, 0, n, ord), a, CanonMembers(w, ls, 0, n, ord), b, S.RBRACE);
      MembersReadable(v, w, ks, ls, 0, a, b, n, ord);
      SameFields(v, w, ks);
  }

  lemma InsideSame(open: Unit, x: Text, a: Text, y: Text, b: Text, close: Unit)
    requires ([open] + x + [close]) + a == ([open] + y + [close]) + b
    ensures x + ([close] + a) == y + ([close] + b)
  {
    assert ([open] + x + [close]) + a == [open] + (x + ([close] + a));
    assert ([open] + y + [close]) + b == [open] + (y + ([close] + b));
    SameSplit([open], x + ([close] + a), [open], y + ([close] + b));
  }

  lemma SameFields(v: Val, w: Val, keys: seq<Text>)
    requires KeysIn(v, keys) && KeysIn(w, keys) && (set k <- keys) == v.fields.Keys && (set k <- keys) == w.fields.Keys
    requires forall j :: 0 <= j < |keys| ==> v.fields[keys[j]] == w.fields[keys[j]]
    ensures v == w
  {
    forall k <- v.fields ensures v.fields[k] == w.fields[k] { assert k in (set x <- keys); }
    assert v.fields == w.fields;
  }

  lemma CommaStep(i: nat, x: Text, y: Text)
    requires Comma(i) + x == Comma(i) + y
    ensures x == y
  {
    SameSplit(Comma(i), x, Comma(i), y);
  }

  lemma {:induction false} ItemsReadable(v: Val, w: Val, i: nat, a: Text, b: Text, n: NumberCodec, ord: Order)
    requires Lists(ord) && n.Valid() && v.List? && w.List? && i <= |v.items| && i <= |w.items|
    requires CanonItems(v, i, n, ord) + ([S.RBRACKET] + a) == CanonItems(w, i, n, ord) + ([S.RBRACKET] + b)
    ensures |v.items| == |w.items| && (forall j :: i <= j < |v.items| ==> v.items[j] == w.items[j]) && a == b
    decreases v, 0, |v.items| - i
  {
    hide Lists, Canon, Comma;
    if i == |v.items| || i == |w.items| {
      ItemsEnd(v, w, i, a, b, n, ord);
    } else {
      var restV, restW := CanonItems(v, i + 1, n, ord) + ([S.RBRACKET] + a),
        CanonItems(w, i + 1, n, ord) + ([S.RBRACKET] + b);
      var x, y := Canon(v.items[i], n, ord) + restV, Canon(w.items[i], n, ord) + restW;
      assert CanonItems(v, i, n, ord) + ([S.RBRACKET] + a) == Comma(i) + x;
      assert CanonItems(w, i, n, ord) + ([S.RBRACKET] + b) == Comma(i) + y;
      CommaStep(i, x, y);
      ItemsEnds(v, i + 1, a, n, ord);
      ItemsEnds(w, i + 1, b, n, ord);
      Readable(v.items[i], w.items[i], restV, restW, n, ord);
      ItemsReadable(v, w, i + 1, a, b, n, ord);
    }
  }

  /** After an item comes a comma or the bracket. */
  lemma ItemsEnds(v: Val, i: nat, a: Text, n: NumberCodec, ord: Order)
    requires Lists(ord) && v.List? && 0 < i <= |v.items|
    ensures Ends(CanonItems(v, i, n, ord) + ([S.RBRACKET] + a))
  {
    hide Lists, Canon;
  }

  /** The bracket comes at the same place: no item opens with it. */
  lemma ItemsEnd(v: Val, w: Val, i: nat, a: Text, b: Text, n: NumberCodec, ord: Order)
    requires Lists(ord) && n.Valid() && v.List? && w.List? && i <= |v.items| && i <= |w.items|
             && (i == |v.items| || i == |w.items|)
    requires CanonItems(v, i, n, ord) + ([S.RBRACKET] + a) == CanonItems(w, i, n, ord) + ([S.RBRACKET] + b)
    ensures |v.items| == |w.items| && a == b
  {
    hide Lists, Canon;
    if i < |v.items| {
      ItemsOpen(v, i, a, n, ord);
    } else if i < |w.items| {
      ItemsOpen(w, i, b, n, ord);
    } else {
      var x, y := [S.RBRACKET] + a, [S.RBRACKET] + b;
      assert CanonItems(v, i, n, ord) + x == x && CanonItems(w, i, n, ord) + y == y;
      SameSplit([S.RBRACKET], a, [S.RBRACKET], b);
    }
  }

  lemma ItemsOpen(v: Val, i: nat, a: Text, n: NumberCodec, ord: Order)
    requires Lists(ord) && n.Valid() && v.List? && i < |v.items|
    ensures (CanonItems(v, i, n, ord) + ([S.RBRACKET] + a))[0] != S.RBRACKET
  {
    CanonOpens(v.items[i], n, ord);
    var c, t := Canon(v.items[i], n, ord), CanonItems(v, i, n, ord);
    assert i == 0 ==> t == c + CanonItems(v, i + 1, n, ord);
    assert t[0] == if i > 0 then S.COMMA else c[0];
  }

  lemma {:induction false} MembersReadable(
    v: Val, w: Val, ks: seq<Text>, ls: seq<Text>, i: nat, a: Text, b: Text, n: NumberCodec, ord: Order)
    requires Lists(ord) && n.Valid() && KeysIn(v, ks) && KeysIn(w, ls) && i <= |ks| && i <= |ls| && ks[..i] == ls[..i]
    requires CanonMembers(v, ks, i, n, ord) + ([S.RBRACE] + a) == CanonMembers(w, ls, i, n, ord) + ([S.RBRACE] + b)
    ensures ks == ls && (forall j :: i <= j < |ks| ==> v.fields[ks[j]] == w.fields[ls[j]]) && a == b
    decreases v, 0, |ks| - i
  {
    hide Lists, Canon, Comma, Quote;
    if i == |ks| || i == |ls| {
      MembersEnd(v, w, ks, ls, i, a, b, n, ord);
    } else {
      var restV, restW := CanonMembers(v, ks, i + 1, n, ord) + ([S.RBRACE] + a),
        CanonMembers(w, ls, i + 1, n, ord) + ([S.RBRACE] + b);
      MembersFirst(v, ks, i, a, n, ord);
      MembersFirst(w, ls, i, b, n, ord);
      var x, y := [S.COLON] + (Canon(v.fields[ks[i]], n, ord) + restV),
        [S.COLON] + (Canon(w.fields[ls[i]], n, ord) + restW);
      CommaStep(i, Quote(ks[i]) + x, Quote(ls[i]) + y);
      QuoteReadable(ks[i], ls[i], x, y);
      SameSplit([S.COLON], Canon(v.fields[ks[i]], n, ord) + restV, [S.COLON], Canon(w.fields[ls[i]], n, ord) + restW);
      MembersEnds(v, ks, i + 1, a, n, ord);
      MembersEnds(w, ls, i + 1, b, n, ord);
      Readable(v.fields[ks[i]], w.fields[ls[i]], restV, restW, n, ord);
      assert ks[..i + 1] == ks[..i] + [ks[i]] && ls[..i + 1] == ls[..i] + [ls[i]];
      MembersReadable(v, w, ks, ls, i + 1, a, b, n, ord);
    }
  }

  lemma MembersFirst(v: Val, ks: seq<Text>, i: nat, a: Text, n: NumberCodec, ord: Order)
    requires Lists(ord) && KeysIn(v, ks) && i < |ks|
    ensures CanonMembers(v, ks, i, n, ord) + ([S.RBRACE] + a) ==
            Comma(i) + (Quote(ks[i])
                        + ([S.COLON] + (Canon(v.fields[ks[i]], n, ord)
                                        + (CanonMembers(v, ks, i + 1, n, ord) + ([S.RBRACE] + a)))))
  {
    hide Lists, Canon, Comma, Quote;
    var value, rest, close := Canon(v.fields[ks[i]], n, ord), CanonMembers(v, ks, i + 1, n, ord), [S.RBRACE] + a;
    assert (value + rest) + close == value + (rest + close);
    var c := [S.COLON];
    assert (c + (value + rest)) + close == c + (value + (rest + close));
    var q := Quote(ks[i]);
    assert (q + (c + (value + rest))) + close == q + (c + (value + (rest + close)));
    assert (Comma(i) + (q + (c + (value + rest)))) + close == Comma(i) + (q + (c + (value + (rest + close))));
  }

  lemma MembersEnds(v: Val, ks: seq<Text>, i: nat, a: Text, n: NumberCodec, ord: Order)
    requires Lists(ord) && KeysIn(v, ks) && 0 < i <= |ks|
    ensures Ends(CanonMembers(v, ks, i, n, ord) + ([S.RBRACE] + a))
  {
    hide Lists, Canon, Quote;
  }

  lemma MembersEnd(v: Val, w: Val, ks: seq<Text>, ls: seq<Text>, i: nat, a: Text, b: Text, n: NumberCodec, ord: Order)
    requires Lists(ord) && KeysIn(v, ks) && KeysIn(w, ls) && i <= |ks| && i <= |ls| && ks[..i] == ls[..i]
             && (i == |ks| || i == |ls|)
    requires CanonMembers(v, ks, i, n, ord) + ([S.RBRACE] + a) == CanonMembers(w, ls, i, n, ord) + ([S.RBRACE] + b)
    ensures ks == ls && a == b
  {
    hide Lists, Canon, Escape;
    if i < |ks| {
      MembersOpen(v, ks, i, a, n, ord);
    } else if i < |ls| {
      MembersOpen(w, ls, i, b, n, ord);
    } else {
      assert ks == ks[..i] && ls == ls[..i];
      var x, y := [S.RBRACE] + a, [S.RBRACE] + b;
      assert CanonMembers(v, ks, i, n, ord) + x == x && CanonMembers(w, ls, i, n, ord) + y == y;
      SameSplit([S.RBRACE], a, [S.RBRACE], b);
    }
  }

  lemma MembersOpen(v: Val, ks: seq<Text>, i: nat, a: Text, n: NumberCodec, ord: Order)
    requires Lists(ord) && KeysIn(v, ks) && i < |ks|
    ensures (CanonMembers(v, ks, i, n, ord) + ([S.RBRACE] + a))[0] != S.RBRACE
  {
    hide Lists, Canon, Escape;
    assert Quote(ks[i])[0] == QUOTE;
  }

  /** Canonical texts are equal exactly for equal values, objects being maps. */
  lemma CanonInjective(v: Val, w: Val, n: NumberCodec, ord: Order)
    requires Lists(ord) && n.Valid()
    ensures Canon(v, n, ord) == Canon(w, n, ord) <==> v == w
  {
    hide Canon, Lists;
    var x, y := Canon(v, n, ord), Canon(w, n, ord);
    assert x + [] == x && y + [] == y;
    if x == y { Readable(v, w, [], [], n, ord); }
  }

  // ---------- Bytes ----------

  /** The bytes charged chunk by chunk. */
  ghost function CanonBytes(v: Val, n: NumberCodec, ord: Order): nat
    requires Lists(ord)
    decreases v, 1, 0
  {
    match v
    case List(items) => 2 + ItemsBytes(v, 0, n, ord)
    case Record(fields) => 2 + MembersBytes(v, Listed(v, ord), 0, n, ord)
    case _ => Utf8Length(Canon(v, n, ord))
  }

  ghost function ItemsBytes(v: Val, i: nat, n: NumberCodec, ord: Order): nat
    requires Lists(ord) && v.List? && i <= |v.items|
    decreases v, 0, |v.items| - i
  {
    if i == |v.items| then 0 else |Comma(i)| + CanonBytes(v.items[i], n, ord) + ItemsBytes(v, i + 1, n, ord)
  }

  ghost function MembersBytes(v: Val, keys: seq<Text>, i: nat, n: NumberCodec, ord: Order): nat
    requires Lists(ord) && KeysIn(v, keys) && i <= |keys|
    decreases v, 0, |keys| - i
  {
    if i == |keys| then 0
    else |Comma(i)| + Utf8Length(Quote(keys[i])) + 1 + CanonBytes(v.fields[keys[i]], n, ord)
         + MembersBytes(v, keys, i + 1, n, ord)
  }

  lemma QuoteThen(s: Text, rest: Text)
    ensures Utf8Length(Quote(s) + rest) == Utf8Length(Quote(s)) + Utf8Length(rest)
  {
    hide Quote, Utf8;
    JsonRoundTrip.QuoteBytes(s, rest);
    QuotedBytesExactly(s);
  }

  lemma CommaThen(i: nat, rest: Text)
    ensures Utf8Length(Comma(i) + rest) == |Comma(i)| + Utf8Length(rest)
  {
    Utf8Ascii(Comma(i), rest);
  }

  lemma AsciiWhole(a: Text, rest: Text)
    requires forall i :: 0 <= i < |a| ==> a[i] < 0x80
    ensures Utf8Length(a + rest) == Utf8Length(a) + Utf8Length(rest)
  {
    Utf8Ascii(a, rest);
    Utf8Ascii(a, []);
    assert a + [] == a;
  }

  lemma ShownThen(x: int, rest: Text, n: NumberCodec)
    requires n.Valid()
    ensures Utf8Length(n.show(x) + rest) == Utf8Length(n.show(x)) + Utf8Length(rest)
  {
    assert NumberText(n.show(x));
    hide NumberText, Utf8Length;
    NumberTextUnits(n.show(x));
    JsonRoundTrip.UnitsAscii(n.show(x));
    AsciiWhole(n.show(x), rest);
  }

  /** The chunk-by-chunk charge is the UTF-8 length of the whole text. */
  lemma {:induction false} BytesThen(v: Val, rest: Text, n: NumberCodec, ord: Order)
    requires Lists(ord) && n.Valid()
    ensures Utf8Length(Canon(v, n, ord) + rest) == CanonBytes(v, n, ord) + Utf8Length(rest)
    decreases v, 1, 0
  {
    match v
    case List(_) =>
      ItemsBytesThen(v, 0, [S.RBRACKET] + rest, n, ord);
      ListThen(v, rest, n, ord);
    case Record(_) =>
      MembersBytesThen(v, Listed(v, ord), 0, [S.RBRACE] + rest, n, ord);
      RecordThen(v, rest, n, ord);
    case _ => ScalarThen(v, rest, n, ord);
    hide Lists, Canon, CanonBytes, Utf8Length;
  }

  lemma ScalarThen(v: Val, rest: Text, n: NumberCodec, ord: Order)
    requires Lists(ord) && n.Valid() && !v.List? && !v.Record?
    ensures Utf8Length(Canon(v, n, ord) + rest) == CanonBytes(v, n, ord) + Utf8Length(rest)
  {
    hide Lists, Quote, Utf8Length;
    WordsThen(rest);
    hide S.NULL, S.TRUE, S.FALSE;
    match v
    case Null =>
    case Bool(_) =>
    case Num(x) => ShownThen(x, rest, n);
    case Str(s) => QuoteThen(s, rest);
  }

  lemma WordsThen(rest: Text)
    ensures Utf8Length(S.NULL + rest) == Utf8Length(S.NULL) + Utf8Length(rest)
    ensures Utf8Length(S.TRUE + rest) == Utf8Length(S.TRUE) + Utf8Length(rest)
    ensures Utf8Length(S.FALSE + rest) == Utf8Length(S.FALSE) + Utf8Length(rest)
  {
    hide Utf8Length;
    AsciiWhole(S.NULL, rest);
    AsciiWhole(S.TRUE, rest);
    AsciiWhole(S.FALSE, rest);
  }

  lemma ListThen(v: Val, rest: Text, n: NumberCodec, ord: Order)
    requires Lists(ord) && v.List?
    requires Utf8Length(CanonItems(v, 0, n, ord) + ([S.RBRACKET] + rest))
             == ItemsBytes(v, 0, n, ord) + Utf8Length([S.RBRACKET] + rest)
    ensures Utf8Length(Canon(v, n, ord) + rest) == CanonBytes(v, n, ord) + Utf8Length(rest)
  {
    hide Lists, Utf8Length, CanonItems, ItemsBytes;
    Enclosed(S.LBRACKET, CanonItems(v, 0, n, ord), S.RBRACKET, rest);
  }

  lemma RecordThen(v: Val, rest: Text, n: NumberCodec, ord: Order)
    requires Lists(ord) && v.Record?
    requires var keys := Listed(v, ord);
             Utf8Length(CanonMembers(v, keys, 0, n, ord) + ([S.RBRACE] + rest))
             == MembersBytes(v, keys, 0, n, ord) + Utf8Length([S.RBRACE] + rest)
    ensures Utf8Length(Canon(v, n, ord) + rest) == CanonBytes(v, n, ord) + Utf8Length(rest)
  {
    hide Lists, Utf8Length, CanonMembers, MembersBytes, Listed;
    Enclosed(S.LBRACE, CanonMembers(v, Listed(v, ord), 0, n, ord), S.RBRACE, rest);
  }

  lemma Enclosed(open: Unit, inside: Text, close: Unit, rest: Text)
    requires open < 0x80 && close < 0x80
    ensures Utf8Length(([open] + inside + [close]) + rest) == 1 + Utf8Length(inside + ([close] + rest))
    ensures Utf8Length([close] + rest) == 1 + Utf8Length(rest)
  {
    hide Utf8Length;
    assert ([open] + inside + [close]) + rest == [open] + (inside + ([close] + rest));
    Utf8Ascii([open], inside + ([close] + rest));
    Utf8Ascii([close], rest);
  }

  lemma {:induction false} ItemsBytesThen(v: Val, i: nat, rest: Text, n: NumberCodec, ord: Order)
    requires Lists(ord) && n.Valid() && v.List? && i <= |v.items|
    ensures Utf8Length(CanonItems(v, i, n, ord) + rest) == ItemsBytes(v, i, n, ord) + Utf8Length(rest)
    decreases v, 0, |v.items| - i
  {
    hide Lists, Canon, CanonBytes, Comma, Utf8Length;
    if i == |v.items| {
      assert CanonItems(v, i, n, ord) + rest == rest;
    } else {
      var later := CanonItems(v, i + 1, n, ord) + rest;
      var item := Canon(v.items[i], n, ord);
      assert (item + CanonItems(v, i + 1, n, ord)) + rest == item + later;
      assert CanonItems(v, i, n, ord) + rest == Comma(i) + (item + later);
      CommaThen(i, item + later);
      BytesThen(v.items[i], later, n, ord);
      ItemsBytesThen(v, i + 1, rest, n, ord);
    }
  }

  lemma {:induction false} MembersBytesThen(v: Val, keys: seq<Text>, i: nat, rest: Text, n: NumberCodec, ord: Order)
    requires Lists(ord) && n.Valid() && KeysIn(v, keys) && i <= |keys|
    ensures Utf8Length(CanonMembers(v, keys, i, n, ord) + rest) == MembersBytes(v, keys, i, n, ord) + Utf8Length(rest)
    decreases v, 0, |keys| - i
  {
    hide Lists, Canon, CanonBytes, Comma, Quote, Utf8Length;
    if i == |keys| {
      assert CanonMembers(v, keys, i, n, ord) + rest == rest;
    } else {
      var later := CanonMembers(v, keys, i + 1, n, ord) + rest;
      var member := Canon(v.fields[keys[i]], n, ord) + later;
      MemberThen(Comma(i), Quote(keys[i]), Canon(v.fields[keys[i]], n, ord), CanonMembers(v, keys, i + 1, n, ord),
                 rest);
      assert CanonMembers(v, keys, i, n, ord) + rest == Comma(i) + (Quote(keys[i]) + ([S.COLON] + member));
      CommaThen(i, Quote(keys[i]) + ([S.COLON] + member));
      QuoteThen(keys[i], [S.COLON] + member);
      Utf8Ascii([S.COLON], member);
      BytesThen(v.fields[keys[i]], later, n, ord);
      MembersBytesThen(v, keys, i + 1, rest, n, ord);
    }
  }

  lemma MemberThen(comma: Text, key: Text, value: Text, later: Text, rest: Text)
    ensures (comma + (key + ([S.COLON] + (value + later)))) + rest
            == comma + (key + ([S.COLON] + (value + (later + rest))))
  {
    assert (value + later) + rest == value + (later + rest);
    assert ([S.COLON] + (value + later)) + rest == [S.COLON] + (value + (later + rest));
    assert (key + ([S.COLON] + (value + later))) + rest == key + ([S.COLON] + (value + (later + rest)));
  }

  lemma BytesExactly(v: Val, n: NumberCodec, ord: Order)
    requires Lists(ord) && n.Valid()
    ensures CanonBytes(v, n, ord) == Utf8Length(Canon(v, n, ord))
  {
    hide Canon, CanonBytes, Lists;
    BytesThen(v, [], n, ord);
    assert Canon(v, n, ord) + [] == Canon(v, n, ord);
  }
}
