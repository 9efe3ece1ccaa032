/** The iterative parser with its explicit frame stack, proved against the recursive-descent reader. */
module JsonParser {
  import opened Wrappers
  import opened Utf16
  import opened JsonStrings
  import opened JsonNumbers
  import opened JsonSyntax
  import opened JsonDescent

  datatype ArrayState = ValueOrEnd | CommaOrEnd

  /** A pending key lives in the two states that have one. */
  datatype ObjectState = KeyOrEnd | AtColon(key: Text) | AtValue(key: Text) | AfterMember

  datatype Frame =
    | ArrayFrame(items: seq<Json>, arrayState: ArrayState)
    | ObjectFrame(members: seq<Entry>, keys: set<Text>, objectState: ObjectState)

  function KeysOf(members: seq<Entry>): set<Text> { set e <- members :: e.key }

  lemma KeysOfAppend(members: seq<Entry>, e: Entry)
    ensures KeysOf(members + [e]) == KeysOf(members) + {e.key}
  {
    assert forall x :: x in members + [e] <==> x in members || x == e;
  }

  predicate FrameOk(f: Frame)
  {
    f.ObjectFrame? ==>
      f.keys == KeysOf(f.members) + (if f.objectState.AtColon? || f.objectState.AtValue? then {f.objectState.key}
                                     else {})
  }

  // ---------- What the rest of a run will answer, in terms of the reader ----------

  /** The reader's continuation for one open container. */
  function Continue(top: Frame, depth: nat, s: Text, values: nat, g: Config): Result<Read>
  {
    match top
    case ArrayFrame(items, ValueOrEnd) => ReadItems(s, depth, values, items, g)
    case ArrayFrame(items, CommaOrEnd) => ReadItemsTail(s, depth, values, items, g)
    case ObjectFrame(members, _, KeyOrEnd) => ReadMembers(s, depth, values, members, g)
    case ObjectFrame(members, _, AtColon(key)) => ReadColon(s, depth, values, members, key, g)
    case ObjectFrame(members, _, AtValue(key)) => ReadMemberValue(s, depth, values, members, key, g)
    case ObjectFrame(members, _, AfterMember) => ReadMembersTail(s, depth, values, members, g)
  }

  /** Close the innermost container, then all the others. */
  function Resume(frames: seq<Frame>, s: Text, values: nat, g: Config): Result<Json>
    requires frames != []
    decreases |frames|, 0
  {
    var last := |frames| - 1;
    var r := Continue(frames[last], |frames|, s, values, g);
    if r.Err? then Err(r.error) else Deliver(frames[..last], r.value.value, r.value.rest, r.value.values, g)
  }

  /** Hand a finished value to the innermost open container, or finish with it. */
  function Deliver(frames: seq<Frame>, v: Json, s: Text, values: nat, g: Config): Result<Json>
    decreases |frames|, 1
  {
    if frames == [] then Finish(v, s)
    else
      var next := Fill(frames[|frames| - 1], v, g.limit);
      if next.Err? then Err(next.error) else Resume(frames[..|frames| - 1] + [next.value], s, values, g)
  }

  function Fill(top: Frame, v: Json, limit: Limits): Result<Frame>
  {
    match top
    case ArrayFrame(items, ValueOrEnd) =>
      if |items| >= limit.maximumArrayLength then Err(Budget) else Ok(ArrayFrame(items + [v], CommaOrEnd))
    case ObjectFrame(members, keys, AtValue(key)) => Ok(ObjectFrame(members + [Entry(key, v)], keys, AfterMember))
    case _ => Err(Syntax)
  }

  function Answer(frames: seq<Frame>, root: Option<Json>, s: Text, values: nat, g: Config): Result<Json>
  {
    if frames != [] then Resume(frames, s, values, g)
    else if root.Some? then Finish(root.value, s)
    else Start([], Skip(s), values, g)
  }

  /** Read one value for the innermost container, then go on. */
  function Start(frames: seq<Frame>, s: Text, values: nat, g: Config): Result<Json>
  {
    var r := ReadValue(s, |frames|, values, g);
    if r.Err? then Err(r.error) else Deliver(frames, r.value.value, r.value.rest, r.value.values, g)
  }

  lemma ClosedString(s: Text, end: nat, limit: Limits)
    requires s != [] && Scan(s[1..]) == Some(end)
    ensures var value := Decode(s[1..][..end]);
            ReadString(s, limit) ==
              if value == None || !WellFormed(value.value) then Err(Syntax)
              else if Utf8Length(value.value) > limit.maximumStringBytes then Err(Budget)
              else Ok((value.value, s[1..][end + 1..]))
  {
    hide Decode, WellFormed, Utf8Length;
  }

  lemma OpenString(s: Text, limit: Limits)
    requires s != [] && Scan(s[1..]) == None
    ensures ReadString(s, limit) == Err(Syntax)
  {
  }

  // ---------- Space before a mark never matters to the rest of a run ----------

  lemma SkipTwice(s: Text)
    ensures Skip(Skip(s)) == Skip(s)
  {
  }

  lemma ContinueSkip(top: Frame, depth: nat, s: Text, values: nat, g: Config)
    ensures Continue(top, depth, Skip(s), values, g) == Continue(top, depth, s, values, g)
  {
    SkipTwice(s);
    hide Skip, ReadValue, ReadString;
  }

  lemma ResumeTop(outer: seq<Frame>, top: Frame, s: Text, values: nat, g: Config)
    ensures var r := Continue(top, |outer| + 1, s, values, g);
            Resume(outer + [top], s, values, g) ==
              if r.Err? then Err(r.error) else Deliver(outer, r.value.value, r.value.rest, r.value.values, g)
  {
    hide Continue;
    assert (outer + [top])[..|outer|] == outer;
  }

  lemma ResumeSkip(outer: seq<Frame>, top: Frame, s: Text, values: nat, g: Config)
    ensures Resume(outer + [top], Skip(s), values, g) == Resume(outer + [top], s, values, g)
  {
    ResumeTop(outer, top, s, values, g);
    ResumeTop(outer, top, Skip(s), values, g);
    ContinueSkip(top, |outer| + 1, s, values, g);
  }

  lemma DeliverSkip(frames: seq<Frame>, v: Json, s: Text, values: nat, g: Config)
    ensures Deliver(frames, v, Skip(s), values, g) == Deliver(frames, v, s, values, g)
  {
    if frames == [] {
      SkipTwice(s);
    } else {
      var next := Fill(frames[|frames| - 1], v, g.limit);
      if next.Ok? { ResumeSkip(frames[..|frames| - 1], next.value, s, values, g); }
    }
  }

  /** An open frame that may close here does; one that reads a value here starts reading it. */
  lemma ResumeClose(outer: seq<Frame>, top: Frame, s: Text, values: nat, g: Config)
    requires Skip(s) != []
    requires if top.ArrayFrame? then Skip(s)[0] == RBRACKET else Skip(s)[0] == RBRACE
                                                                 && (top.objectState.KeyOrEnd?
                                                                     || top.objectState.AfterMember?)
    ensures Resume(outer + [top], s, values, g) ==
            Deliver(outer, if top.ArrayFrame? then Arr(top.items) else Obj(top.members), Skip(Skip(s)[1..]), values, g)
  {
    hide Skip, ReadValue, ReadString, Deliver;
    ResumeTop(outer, top, s, values, g);
    DeliverSkip(outer, if top.ArrayFrame? then Arr(top.items) else Obj(top.members), Skip(s)[1..], values, g);
  }

  lemma ResumeValue(outer: seq<Frame>, top: Frame, s: Text, values: nat, g: Config)
    requires if top.ArrayFrame? then top.arrayState == ValueOrEnd && !(Skip(s) != [] && Skip(s)[0] == RBRACKET)
             else top.objectState.AtValue?
    ensures Resume(outer + [top], s, values, g) == Start(outer + [top], Skip(s), values, g)
  {
    hide Skip, ReadValue;
    ResumeTop(outer, top, s, values, g);
    var r := ReadValue(Skip(s), |outer| + 1, values, g);
    if r.Ok? {
      var next := Fill(top, r.value.value, g.limit);
      if next.Ok? { ResumeTop(outer, next.value, r.value.rest, r.value.values, g); }
    }
  }

  lemma ResumeKey(outer: seq<Frame>, top: Frame, keys: set<Text>, s: Text, values: nat, g: Config)
    requires top.ObjectFrame? && top.objectState.KeyOrEnd? && Skip(s) != [] && Skip(s)[0] == QUOTE
    requires ReadString(Skip(s), g.limit).Ok?
    requires !Dangerous(ReadString(Skip(s), g.limit).value.0)
             && !HasKey(top.members, ReadString(Skip(s), g.limit).value.0)
    ensures var r := ReadString(Skip(s), g.limit).value;
            Resume(outer + [top], s, values, g) ==
            Resume(outer + [ObjectFrame(top.members, keys, AtColon(r.0))], r.1, values, g)
  {
    hide Skip, ReadString, ReadColon, Dangerous, HasKey, Deliver;
    var r := ReadString(Skip(s), g.limit).value;
    ResumeTop(outer, top, s, values, g);
    ResumeTop(outer, ObjectFrame(top.members, keys, AtColon(r.0)), r.1, values, g);
  }

  /** The frame after the mark `c` is consumed, when that only changes the state. */
  function Advance(top: Frame, c: Unit): Option<Frame>
  {
    match top
    case ArrayFrame(items, CommaOrEnd) => if c == COMMA then Some(ArrayFrame(items, ValueOrEnd)) else None
    case ObjectFrame(members, keys, AtColon(key)) =>
      if c == COLON then Some(ObjectFrame(members, keys, AtValue(key))) else None
    case ObjectFrame(members, keys, AfterMember) =>
      if c == COMMA then Some(ObjectFrame(members, keys, KeyOrEnd)) else None
    case _ => None
  }

  lemma ResumeAdvance(outer: seq<Frame>, top: Frame, s: Text, values: nat, g: Config)
    requires Skip(s) != [] && Advance(top, Skip(s)[0]).Some?
    ensures Resume(outer + [top], s, values, g) ==
            Resume(outer + [Advance(top, Skip(s)[0]).value], Skip(Skip(s)[1..]), values, g)
  {
    var next, t := Advance(top, Skip(s)[0]).value, Skip(s)[1..];
    ResumeSkip(outer, next, t, values, g);
    hide Skip, ReadValue, ReadString, Deliver;
    ResumeTop(outer, top, s, values, g);
    ResumeTop(outer, next, t, values, g);
    assert Continue(top, |outer| + 1, s, values, g) == Continue(next, |outer| + 1, t, values, g);
  }

  /** The scan from an index, which a final backslash may have moved past the end. */
  function ScanFrom(source: Text, i: nat): Option<nat>
  {
    if i <= |source| then Scan(source[i..]) else None
  }

  /** `end` counted from `k` units further on; it always lies there while the loop runs. */
  function Unshift(k: int, end: Option<nat>): Option<int>
  {
    if end.Some? then Some(end.value - k) else None
  }

  lemma ScanStep(source: Text, i: nat)
    ensures i >= |source| ==> ScanFrom(source, i) == None
    ensures i < |source| && source[i] == BACKSLASH ==> ScanFrom(source, i) == Shift(2, ScanFrom(source, i + 2))
    ensures i < |source| && source[i] == QUOTE ==> ScanFrom(source, i) == Some(0)
    ensures i < |source| && source[i] != BACKSLASH && source[i] != QUOTE ==>
              ScanFrom(source, i) == if source[i] < 0x20 then None else Shift(1, ScanFrom(source, i + 1))
  {
    if i < |source| {
      var tail := source[i..];
      assert tail[1..] == source[i + 1..];
      if |tail| >= 2 { assert tail[2..] == source[i + 2..]; }
    }
  }

  class BoundedJsonParser {
    const source: Text
    const g: Config
    var index: nat
    var values: nat
    var root: Option<Json>
    var frames: seq<Frame>

    ghost predicate Valid()
      reads this
    {
      index <= |source| && (forall f <- frames :: FrameOk(f)) && (root.Some? ==> frames == [])
    }

    /** The text not yet consumed. */
    ghost function Rest(): Text
      reads this
      requires index <= |source|
    {
      source[index..]
    }

    ghost function Promise(): Result<Json>
      reads this
      requires Valid()
    {
      Answer(frames, root, Rest(), values, g)
    }

    constructor (source: Text, g: Config)
      ensures Valid() && this.source == source && this.g == g
      ensures index == 0 && values == 0 && root == None && frames == []
    {
      this.source, this.g := source, g;
      index, values, root, frames := 0, 0, None, [];
    }

    method Space()
      requires index <= |source|
      modifies this`index
      ensures old(index) <= index <= |source| && Rest() == Skip(old(Rest()))
    {
      while index < |source| && IsSpace(source[index])
        invariant old(index) <= index <= |source|
        invariant Skip(source[index..]) == Skip(old(Rest()))
        decreases |source| - index
      {
        assert source[index..][1..] == source[index + 1..];
        index := index + 1;
      }
      assert Spaces(source[index..]) == 0;
    }

    /** Whether the next mark is `c`; if so it is consumed with the space around it. */
    method Take(c: Unit) returns (taken: bool)
      requires index <= |source|
      modifies this`index
      ensures old(index) <= index <= |source|
      ensures var t := Skip(old(Rest())); taken <==> t != [] && t[0] == c
      ensures taken ==> index > old(index) && Rest() == Skip(Skip(old(Rest()))[1..])
      ensures !taken ==> Rest() == Skip(old(Rest()))
    {
      Space();
      if index == |source| || source[index] != c { return false; }
      assert Rest()[1..] == source[index + 1..];
      index := index + 1;
      Space();
      return true;
    }

    /** The loop of `string()`: from the opening quote to just past the closing one. */
    method ScanQuoted() returns (closed: bool)
      requires index < |source|
      modifies this`index
      ensures closed ==> old(index) + 2 <= index <= |source|
                         && Scan(source[old(index) + 1..]) == Some(index - old(index) - 2)
      ensures !closed ==> Scan(source[old(index) + 1..]) == None
    {
      hide Scan;
      ghost var body := source[index + 1..];
      index := index + 1;
      while index < |source|
        invariant old(index) < index
        invariant ScanFrom(source, index) == Unshift(index - old(index) - 1, Scan(body))
        decreases |source| - index
      {
        var character := source[index];
        ScanStep(source, index);
        if character == BACKSLASH {
          index := index + 2;
        } else if character == QUOTE {
          index := index + 1;
          return true;
        } else if character < 0x20 {
          return false;
        } else {
          index := index + 1;
        }
      }
      ScanStep(source, index);
      return false;
    }

    /** `string()`, with the cursor on the opening quote. */
    method ReadQuoted() returns (r: Result<Text>)
      requires index < |source|
      modifies this`index
      ensures r.Ok? ==> old(index) < index <= |source| && ReadString(old(Rest()), g.limit) == Ok((r.value, Rest()))
      ensures r.Err? ==> ReadString(old(Rest()), g.limit) == Err(r.error)
    {
      hide ReadString, Decode, WellFormed, Utf8Length, Scan;
      var start := index;
      ghost var body := source[start + 1..];
      assert source[start..][1..] == body;
      var closed := ScanQuoted();
      if !closed {
        OpenString(source[start..], g.limit);
        return Err(Syntax);
      }
      ClosedString(source[start..], index - start - 2, g.limit);
      assert body[..index - start - 2] == source[start + 1..index - 1];
      assert body[index - start - 1..] == source[index..];
      var value := Decode(source[start + 1..index - 1]);
      if value == None { return Err(Syntax); }
      var wellFormed := IsWellFormedUnicode(value.value);
      if !wellFormed { return Err(Syntax); }
      var bytes := Utf8ByteLengthAtMost(value.value, g.limit.maximumStringBytes);
      if bytes > g.limit.maximumStringBytes { return Err(Budget); }
      return Ok(value.value);
    }

    method Literal(text: Text, value: Json) returns (r: Result<Json>)
      requires index <= |source| && text != []
      modifies this`index
      ensures r.Ok? ==> old(index) < index <= |source| && ReadLiteral(old(Rest()), text, value) == Ok((r.value, Rest()))
      ensures r.Err? ==> ReadLiteral(old(Rest()), text, value) == Err(r.error)
    {
      if index + |text| > |source| || source[index..index + |text|] != text { return Err(Syntax); }
      assert source[index..][..|text|] == text;
      assert source[index..][|text|..] == source[index + |text|..];
      index := index + |text|;
      return Ok(value);
    }

    method Number() returns (r: Result<Json>)
      requires index <= |source|
      modifies this`index
      ensures r.Ok? ==> old(index) < index <= |source| && ReadNumber(old(Rest()), g) == Ok((r.value, Rest()))
      ensures r.Err? ==> ReadNumber(old(Rest()), g) == Err(r.error)
    {
      hide LexNumber;
      var n := LexNumber(source[index..]);
      if n == 0 { return Err(Syntax); }
      if n > g.limit.maximumNumberCharacters { return Err(Budget); }
      var token := source[index..index + n];
      assert source[index..][..n] == token;
      assert source[index..][n..] == source[index + n..];
      index := index + n;
      var value := g.numbers.lex(token);
      if value == None { return Err(Syntax); }
      return Ok(Num(value.value));
    }

    method Attach(value: Json) returns (error: Option<Error>)
      requires Valid() && root == None
      modifies this`root, this`frames
      ensures error == None ==> Valid() && Promise() == Deliver(old(frames), value, Rest(), values, g)
      ensures error.Some? ==> Deliver(old(frames), value, Rest(), values, g) == Err(error.value)
    {
      if |frames| == 0 {
        root := Some(value);
        return None;
      }
      var last := |frames| - 1;
      assert FrameOk(frames[last]);
      match frames[last] {
        case ArrayFrame(items, state) =>
          if state != ValueOrEnd { return Some(Syntax); }
          if |items| >= g.limit.maximumArrayLength { return Some(Budget); }
          frames := frames[..last] + [ArrayFrame(items + [value], CommaOrEnd)];
        case ObjectFrame(members, keys, state) =>
          if !state.AtValue? { return Some(Syntax); }
          KeysOfAppend(members, Entry(state.key, value));
          frames := frames[..last] + [ObjectFrame(members + [Entry(state.key, value)], keys, AfterMember)];
      }
      return None;
    }

    method CloseFrame() returns (error: Option<Error>)
      requires Valid() && root == None && frames != []
      modifies this`root, this`frames
      ensures var f := old(frames[|frames| - 1]);
              var v := if f.ArrayFrame? then Arr(f.items) else Obj(f.members);
              var outer := old(frames[..|frames| - 1]);
              && (error == None ==> Valid() && Promise() == Deliver(outer, v, Rest(), values, g))
              && (error.Some? ==> Deliver(outer, v, Rest(), values, g) == Err(error.value))
    {
      var f := frames[|frames| - 1];
      frames := frames[..|frames| - 1];
      error := Attach(if f.ArrayFrame? then Arr(f.items) else Obj(f.members));
    }

    /** `readAndAttachValue`, with the cursor past any space. */
    method ReadAndAttachValue() returns (error: Option<Error>)
      requires Valid() && root == None
      modifies this
      ensures error == None ==>
                Valid() && index > old(index) && Promise() == Start(old(frames), old(Rest()), old(values), g)
      ensures error.Some? ==> Start(old(frames), old(Rest()), old(values), g) == Err(error.value)
    {
      values := values + 1;
      if values > g.limit.maximumValues { return Some(Budget); }
      if index < |source| && (source[index] == LBRACE || source[index] == LBRACKET) {
        if |frames| + 1 > g.limit.maximumDepth { return Some(Budget); }
        assert source[index..][1..] == source[index + 1..];
        var open := if source[index] == LBRACE then ObjectFrame([], {}, KeyOrEnd) else ArrayFrame([], ValueOrEnd);
        index := index + 1;
        frames := frames + [open];
        assert frames[..|frames| - 1] == old(frames);
        return None;
      }
      var scalar := Scalar();
      if scalar.Err? { return Some(scalar.error); }
      error := Attach(scalar.value);
    }

    method Scalar() returns (r: Result<Json>)
      requires index <= |source|
      modifies this`index
      ensures r.Ok? ==> old(index) < index <= |source| && ReadScalar(old(Rest()), g) == Ok((r.value, Rest()))
      ensures r.Err? ==> ReadScalar(old(Rest()), g) == Err(r.error)
    {
      hide ReadString, ReadLiteral, ReadNumber;
      if index == |source| { return Err(Syntax); }
      var character := source[index];
      if character == QUOTE {
        var s := ReadQuoted();
        return if s.Ok? then Ok(Str(s.value)) else Err(s.error);
      }
      if character == TRUE[0] { r := Literal(TRUE, Bool(true)); return; }
      if character == FALSE[0] { r := Literal(FALSE, Bool(false)); return; }
      if character == NULL[0] { r := Literal(NULL, Null); return; }
      if character == MINUS || IsDigit(character) { r := Number(); return; }
      return Err(Syntax);
    }

    /** `objectStep`, with the cursor past any space. */
    method ObjectStep() returns (error: Option<Error>)
      requires Valid() && frames != [] && frames[|frames| - 1].ObjectFrame? && Rest() == Skip(Rest())
      modifies this
      ensures error == None ==> Valid() && index > old(index) && Promise() == old(Promise())
      ensures error.Some? ==> old(Promise()) == Err(error.value)
    {
      hide ReadString, ReadValue, ReadMembers, ReadColon, ReadMemberValue, ReadMembersTail, Skip, Deliver, Dangerous,
        HasKey;
      var last := |frames| - 1;
      var top := frames[last];
      assert FrameOk(top);
      ghost var outer, s := frames[..last], Rest();
      assert frames == outer + [top];
      match top.objectState {
        case KeyOrEnd =>
          error := KeyStep(top);
        case AtColon(key) =>
          var taken := Take(COLON);
          if !taken { ColonMissing(outer, top, s, values, g); return Some(Syntax); }
          ResumeAdvance(outer, top, s, values, g);
          frames := frames[..last] + [ObjectFrame(top.members, top.keys, AtValue(key))];
          return None;
        case AtValue(key) =>
          ResumeValue(outer, top, s, values, g);
          error := ReadAndAttachValue();
        case AfterMember =>
          var closed := Take(RBRACE);
          if closed {
            ResumeClose(outer, top, s, values, g);
            error := CloseFrame();
            return;
          }
          var taken := Take(COMMA);
          if !taken { CommaMissing(outer, top, s, values, g); return Some(Syntax); }
          ResumeAdvance(outer, top, s, values, g);
          frames := frames[..last] + [ObjectFrame(top.members, top.keys, KeyOrEnd)];
          return None;
      }
    }

    /** The `keyOrEnd` state of `objectStep`. */
    method KeyStep(top: Frame) returns (error: Option<Error>)
      requires Valid() && frames != [] && frames[|frames| - 1] == top && Rest() == Skip(Rest())
      requires top.ObjectFrame? && top.objectState.KeyOrEnd?
      modifies this
      ensures error == None ==> Valid() && index > old(index) && Promise() == old(Promise())
      ensures error.Some? ==> old(Promise()) == Err(error.value)
    {
      hide ReadString, ReadValue, ReadColon, Skip, Deliver, Dangerous;
      var last := |frames| - 1;
      assert FrameOk(top);
      ghost var outer, s := frames[..last], Rest();
      assert frames == outer + [top];
      ResumeTop(outer, top, s, values, g);
      var closed := Take(RBRACE);
      if closed {
        ResumeClose(outer, top, s, values, g);
        error := CloseFrame();
        return;
      }
      if index == |source| || source[index] != QUOTE { return Some(Syntax); }
      var key := ReadQuoted();
      if key.Err? { return Some(key.error); }
      if Dangerous(key.value) { return Some(DangerousKey); }
      if key.value in top.keys { return Some(DuplicateKey); }
      ResumeKey(outer, top, top.keys + {key.value}, s, values, g);
      frames := frames[..last] + [ObjectFrame(top.members, top.keys + {key.value}, AtColon(key.value))];
      return None;
    }

    /** `arrayStep`, with the cursor past any space. */
    method ArrayStep() returns (error: Option<Error>)
      requires Valid() && frames != [] && frames[|frames| - 1].ArrayFrame? && Rest() == Skip(Rest())
      modifies this
      ensures error == None ==> Valid() && index > old(index) && Promise() == old(Promise())
      ensures error.Some? ==> old(Promise()) == Err(error.value)
    {
      hide ReadString, ReadValue, ReadItems, ReadItemsTail, Skip, Deliver;
      var last := |frames| - 1;
      var top := frames[last];
      ghost var outer, s := frames[..last], Rest();
      assert frames == outer + [top];
      var closed := Take(RBRACKET);
      if closed {
        ResumeClose(outer, top, s, values, g);
        error := CloseFrame();
        return;
      }
      if top.arrayState == ValueOrEnd {
        ResumeValue(outer, top, s, values, g);
        error := ReadAndAttachValue();
        return;
      }
      var taken := Take(COMMA);
      if !taken { CommaMissing(outer, top, s, values, g); return Some(Syntax); }
      ResumeAdvance(outer, top, s, values, g);
      frames := frames[..last] + [ArrayFrame(top.items, ValueOrEnd)];
      return None;
    }

    /** `parse`: the whole run answers what the recursive-descent reader answers, value or error alike. */
    method Parse() returns (r: Result<Json>)
      requires Valid() && index == 0 && values == 0 && root == None && frames == []
      modifies this
      ensures r == ReadText(source, g)
    {
      hide ReadValue, ReadItems, ReadMembers, Skip, Finish;
      FirstPromise(source, g);
      assert source[0..] == source;
      while true
        invariant Valid() && Promise() == ReadText(source, g)
        decreases |source| - index
      {
        ghost var s := Rest();
        Space();
        SkipTwice(s);
        AnswerSkip(frames, root, s, values, g);
        var error;
        if |frames| == 0 {
          if root.Some? {
            if index != |source| { FinishFails(root.value, Rest()); return Err(Syntax); }
            FinishEnds(root.value);
            return Ok(root.value);
          }
          error := ReadAndAttachValue();
        } else if frames[|frames| - 1].ObjectFrame? {
          error := ObjectStep();
        } else {
          error := ArrayStep();
        }
        if error.Some? { return Err(error.value); }
      }
    }
  }

  lemma ColonMissing(outer: seq<Frame>, top: Frame, s: Text, values: nat, g: Config)
    requires top.ObjectFrame? && top.objectState.AtColon? && !(Skip(s) != [] && Skip(s)[0] == COLON)
    ensures Resume(outer + [top], s, values, g) == Err(Syntax)
  {
    hide Skip;
    ResumeTop(outer, top, s, values, g);
  }

  lemma CommaMissing(outer: seq<Frame>, top: Frame, s: Text, values: nat, g: Config)
    requires (top.ArrayFrame? && top.arrayState == CommaOrEnd) || (top.ObjectFrame? && top.objectState.AfterMember?)
    requires !(Skip(s) != [] && (Skip(s)[0] == COMMA || Skip(s)[0] == if top.ArrayFrame? then RBRACKET else RBRACE))
    ensures Resume(outer + [top], s, values, g) == Err(Syntax)
  {
    hide Skip;
    ResumeTop(outer, top, s, values, g);
  }

  lemma FirstPromise(text: Text, g: Config)
    ensures Answer([], None, text, 0, g) == ReadText(text, g)
  {
    hide Skip, ReadValue, Finish;
  }

  lemma AnswerSkip(frames: seq<Frame>, root: Option<Json>, s: Text, values: nat, g: Config)
    ensures Answer(frames, root, Skip(s), values, g) == Answer(frames, root, s, values, g)
  {
    SkipTwice(s);
    hide Skip, Start, Resume;
    if frames != [] {
      var last := |frames| - 1;
      assert frames == frames[..last] + [frames[last]];
      ResumeSkip(frames[..last], frames[last], s, values, g);
    }
  }

  lemma FinishFails(v: Json, s: Text)
    requires s == Skip(s) && s != []
    ensures Finish(v, s) == Err(Syntax)
  {
  }

  lemma FinishEnds(v: Json)
    ensures Finish(v, []) == Ok(v)
  {
  }
}
