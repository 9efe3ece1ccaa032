/** JSON values, their concrete syntax, and the budgets the protocol puts on both. */
module JsonSyntax {
  import opened Wrappers
  import opened Utf16
  import opened JsonStrings
  import opened JsonNumbers

  /** A JSON value; object members are listed in property order. */
  datatype Json =
    | Null
    | Bool(b: bool)
    | Num(n: int)
    | Str(s: Text)
    | Arr(items: seq<Json>)
    | Obj(members: seq<Entry>)

  datatype Entry = Entry(key: Text, value: Json)

  datatype Limits = Limits(
    maximumBytes: nat,
    maximumDepth: nat,
    maximumValues: nat,
    maximumArrayLength: nat,
    maximumStringBytes: nat,
    maximumNumberCharacters: nat)

  datatype Config = Config(limit: Limits, numbers: NumberCodec)

  datatype Error = Syntax | Budget | DangerousKey | DuplicateKey | UnsafeValue

  datatype Result<+T> = Ok(value: T) | Err(error: Error)

  const PROTO: Text := [0x5F, 0x5F, 0x70, 0x72, 0x6F, 0x74, 0x6F, 0x5F, 0x5F]
  const CONSTRUCTOR: Text := [0x63, 0x6F, 0x6E, 0x73, 0x74, 0x72, 0x75, 0x63, 0x74, 0x6F, 0x72]
  const PROTOTYPE: Text := [0x70, 0x72, 0x6F, 0x74, 0x6F, 0x74, 0x79, 0x70, 0x65]

  predicate Dangerous(key: Text) { key == PROTO || key == CONSTRUCTOR || key == PROTOTYPE }

  predicate HasKey(members: seq<Entry>, key: Text) { exists i :: 0 <= i < |members| && members[i].key == key }

  const TRUE: Text := [0x74, 0x72, 0x75, 0x65]
  const FALSE: Text := [0x66, 0x61, 0x6C, 0x73, 0x65]
  const NULL: Text := [0x6E, 0x75, 0x6C, 0x6C]
  const LBRACE: Unit := 0x7B
  const RBRACE: Unit := 0x7D
  const LBRACKET: Unit := 0x5B
  const RBRACKET: Unit := 0x5D
  const COMMA: Unit := 0x2C
  const COLON: Unit := 0x3A

  predicate IsSpace(c: Unit) { c == 0x20 || c == 0x09 || c == 0x0D || c == 0x0A }

  predicate AllSpace(s: Text) { forall i :: 0 <= i < |s| ==> IsSpace(s[i]) }

  // ---------- Concrete syntax: RFC 8259 plus one optional trailing comma ----------

  /** A syntax tree that keeps the exact text. An atom is null, true, false, a number or a string. */
  datatype Cst =
    | Atom(token: Text, value: Json)
    | Array(items: Items)
    | Object(members: Members)

  /** The inside of an array, up to its closing bracket. `Item` is followed by a comma, so an `Item` whose
    * rest is `NoItems` is a trailing comma. */
  datatype Items =
    | NoItems(space: Text)
    | LastItem(before: Text, item: Cst, after: Text)
    | Item(before: Text, item: Cst, after: Text, rest: Items)

  /** The inside of an object, up to its closing brace. `body` is a key token between its quotes. */
  datatype Members =
    | NoMembers(space: Text)
    | LastMember(key: Key, value: Cst, after: Text)
    | Member(key: Key, value: Cst, after: Text, rest: Members)

  datatype Key = Key(before: Text, body: Text, colon: Text, gap: Text)

  function Quoted(body: Text): Text { [QUOTE] + body + [QUOTE] }

  function KeyText(k: Key): Text { k.before + Quoted(k.body) + k.colon + [COLON] + k.gap }

  function Unparse(c: Cst): Text
  {
    match c
    case Atom(token, _) => token
    case Array(items) => [LBRACKET] + UnparseItems(items)
    case Object(members) => [LBRACE] + UnparseMembers(members)
  }

  function UnparseItems(t: Items): Text
  {
    match t
    case NoItems(space) => space + [RBRACKET]
    case LastItem(before, item, after) => before + Unparse(item) + after + [RBRACKET]
    case Item(before, item, after, rest) => before + Unparse(item) + after + [COMMA] + UnparseItems(rest)
  }

  function UnparseMembers(t: Members): Text
  {
    match t
    case NoMembers(space) => space + [RBRACE]
    case LastMember(key, value, after) => KeyText(key) + Unparse(value) + after + [RBRACE]
    case Member(key, value, after, rest) => KeyText(key) + Unparse(value) + after + [COMMA] + UnparseMembers(rest)
  }

  /** The value a tree denotes. */
  function Erase(c: Cst): Json
  {
    match c
    case Atom(_, value) => value
    case Array(items) => Arr(EraseItems(items))
    case Object(members) => Obj(EraseMembers(members))
  }

  function EraseItems(t: Items): seq<Json>
  {
    match t
    case NoItems(_) => []
    case LastItem(_, item, _) => [Erase(item)]
    case Item(_, item, _, rest) => [Erase(item)] + EraseItems(rest)
  }

  function KeyValue(k: Key): Text { Decode(k.body).GetOr([]) }

  function EraseMembers(t: Members): seq<Entry>
  {
    match t
    case NoMembers(_) => []
    case LastMember(key, value, _) => [Entry(KeyValue(key), Erase(value))]
    case Member(key, value, _, rest) => [Entry(KeyValue(key), Erase(value))] + EraseMembers(rest)
  }

  /** The tokens of an atom that denotes `value`. */
  ghost predicate AtomText(token: Text, value: Json, g: Config)
  {
    match value
    case Null => token == NULL
    case Bool(b) => token == if b then TRUE else FALSE
    case Num(n) => NumberText(token) && g.numbers.lex(token) == Some(n)
    case Str(s) => |token| >= 2 && token == Quoted(token[1..|token| - 1]) && Decode(token[1..|token| - 1]) == Some(s)
    case _ => false
  }

  ghost predicate Grammatical(c: Cst, g: Config)
  {
    match c
    case Atom(token, value) => AtomText(token, value, g)
    case Array(items) => GrammaticalItems(items, g)
    case Object(members) => GrammaticalMembers(members, g)
  }

  ghost predicate GrammaticalItems(t: Items, g: Config)
  {
    match t
    case NoItems(space) => AllSpace(space)
    case LastItem(before, item, after) => AllSpace(before) && Grammatical(item, g) && AllSpace(after)
    case Item(before, item, after, rest) =>
      AllSpace(before) && Grammatical(item, g) && AllSpace(after) && GrammaticalItems(rest, g)
  }

  ghost predicate GrammaticalKey(k: Key)
  {
    AllSpace(k.before) && Decode(k.body).Some? && AllSpace(k.colon) && AllSpace(k.gap)
  }

  ghost predicate GrammaticalMembers(t: Members, g: Config)
  {
    match t
    case NoMembers(space) => AllSpace(space)
    case LastMember(key, value, after) => GrammaticalKey(key) && Grammatical(value, g) && AllSpace(after)
    case Member(key, value, after, rest) =>
      GrammaticalKey(key) && Grammatical(value, g) && AllSpace(after) && GrammaticalMembers(rest, g)
  }

  // ---------- Budgets and key rules ----------

  predicate StringWithin(s: Text, limit: Limits) { WellFormed(s) && Utf8Length(s) <= limit.maximumStringBytes }

  /** Everything but the value count: `depth` containers are open around `c`. */
  predicate Within(c: Cst, depth: nat, limit: Limits)
  {
    match c
    case Atom(token, value) =>
      (value.Num? ==> |token| <= limit.maximumNumberCharacters) && (value.Str? ==> StringWithin(value.s, limit))
    case Array(items) =>
      depth < limit.maximumDepth && |EraseItems(items)| <= limit.maximumArrayLength
      && WithinItems(items, depth + 1, limit)
    case Object(members) =>
      depth < limit.maximumDepth && WithinMembers(members, depth + 1, limit, [])
  }

  predicate WithinItems(t: Items, depth: nat, limit: Limits)
  {
    match t
    case NoItems(_) => true
    case LastItem(_, item, _) => Within(item, depth, limit)
    case Item(_, item, _, rest) => Within(item, depth, limit) && WithinItems(rest, depth, limit)
  }

  predicate KeyWithin(key: Text, limit: Limits, earlier: seq<Entry>)
  {
    StringWithin(key, limit) && !Dangerous(key) && !HasKey(earlier, key)
  }

  /** `earlier` are the members already read; no key repeats. */
  predicate WithinMembers(t: Members, depth: nat, limit: Limits, earlier: seq<Entry>)
  {
    match t
    case NoMembers(_) => true
    case LastMember(key, value, _) => KeyWithin(KeyValue(key), limit, earlier) && Within(value, depth, limit)
    case Member(key, value, _, rest) =>
      && KeyWithin(KeyValue(key), limit, earlier) && Within(value, depth, limit)
      && WithinMembers(rest, depth, limit, earlier + [Entry(KeyValue(key), Erase(value))])
  }

  function Count(v: Json): (n: nat)
    ensures n >= 1
  {
    match v
    case Arr(items) => 1 + CountItems(items)
    case Obj(members) => 1 + CountMembers(members)
    case _ => 1
  }

  function CountItems(items: seq<Json>): nat
  {
    if items == [] then 0 else Count(items[0]) + CountItems(items[1..])
  }

  function CountMembers(members: seq<Entry>): nat
  {
    if members == [] then 0 else Count(members[0].value) + CountMembers(members[1..])
  }

  /** A whole text that denotes `v`: spaces around one grammatical tree that keeps every budget. */
  ghost predicate Denotes(text: Text, v: Json, g: Config)
  {
    exists before, c, after ::
      && AllSpace(before) && AllSpace(after) && Grammatical(c, g)
      && text == before + Unparse(c) + after && Erase(c) == v
      && Within(c, 0, g.limit) && Count(v) <= g.limit.maximumValues
  }
}
