/** JSON pointers (RFC 6901 section 3) and the string test the merge finds collisions with. */
module Pointers {
  import opened Wrappers
  import opened Utf16
  import opened Documents

  const SLASH: Unit := 0x2F
  const TILDE: Unit := 0x7E
  const ZERO: Unit := 0x30
  const ONE: Unit := 0x31

  /** `value.replaceAll(c, by)` for a single unit `c`. */
  function ReplaceAll(value: Text, c: Unit, replacement: Text): Text
  {
    if value == [] then []
    else (if value[0] == c then replacement else [value[0]]) + ReplaceAll(value[1..], c, replacement)
  }

  function PointerToken(value: Text): Text
  {
    ReplaceAll(ReplaceAll(value, TILDE, [TILDE, ZERO]), SLASH, [TILDE, ONE])
  }

  /** Unit by unit, what the two replacements do together. */
  function EscapeToken(value: Text): Text
  {
    if value == [] then []
    else (if value[0] == TILDE then [TILDE, ZERO] else if value[0] == SLASH then [TILDE, ONE] else [value[0]])
         + EscapeToken(value[1..])
  }

  lemma Regroup(a: Text, b: Text, c: Text)
    ensures a + (b + c) == (a + b) + c
  {
  }

  lemma {:induction false} ReplaceConcat(a: Text, b: Text, c: Unit, replacement: Text)
    ensures ReplaceAll(a + b, c, replacement) == ReplaceAll(a, c, replacement) + ReplaceAll(b, c, replacement)
  {
    if a == [] {
      assert a + b == b;
    } else {
      ReplaceConcat(a[1..], b, c, replacement);
      assert (a + b)[1..] == a[1..] + b;
      Regroup(if a[0] == c then replacement else [a[0]], ReplaceAll(a[1..], c, replacement),
              ReplaceAll(b, c, replacement));
    }
  }

  lemma {:induction false} TokenByUnit(value: Text)
    ensures PointerToken(value) == EscapeToken(value)
  {
    if value != [] {
      TokenByUnit(value[1..]);
      var first := if value[0] == TILDE then [TILDE, ZERO] else [value[0]];
      ReplaceConcat(first, ReplaceAll(value[1..], TILDE, [TILDE, ZERO]), SLASH, [TILDE, ONE]);
      if value[0] == TILDE {
        assert first[1..] == [ZERO] && [ZERO][1..] == [];
      } else {
        assert first[1..] == [];
      }
    }
  }

  function UnescapeToken(token: Text): Option<Text>
  {
    if token == [] then Some([])
    else if token[0] == TILDE then
      if |token| >= 2 && (token[1] == ZERO || token[1] == ONE) && UnescapeToken(token[2..]).Some? then
        Some([if token[1] == ZERO then TILDE else SLASH] + UnescapeToken(token[2..]).value)
      else None
    else if UnescapeToken(token[1..]).Some? then Some([token[0]] + UnescapeToken(token[1..]).value)
    else None
  }

  predicate NoSlash(s: Text) { forall i :: 0 <= i < |s| ==> s[i] != SLASH }

  lemma {:induction false} TokenRoundTrip(value: Text)
    ensures UnescapeToken(EscapeToken(value)) == Some(value) && NoSlash(EscapeToken(value))
  {
    if value != [] {
      TokenRoundTrip(value[1..]);
      var rest := EscapeToken(value[1..]);
      assert value == [value[0]] + value[1..];
      if value[0] == TILDE || value[0] == SLASH {
        assert EscapeToken(value)[2..] == rest;
      } else {
        assert EscapeToken(value)[1..] == rest;
      }
    }
  }

  /** Two keys never share a token. */
  lemma TokenInjective(a: Text, b: Text)
    requires PointerToken(a) == PointerToken(b)
    ensures a == b
  {
    TokenByUnit(a); TokenByUnit(b);
    TokenRoundTrip(a); TokenRoundTrip(b);
  }

  /** The pointer text of a path; the root is the empty text. */
  function Pointer(path: Path): Text
  {
    if path == [] then [] else [SLASH] + PointerToken(path[0]) + Pointer(path[1..])
  }

  lemma {:induction false} PointerAppend(path: Path, key: Text)
    ensures Pointer(path + [key]) == Pointer(path) + [SLASH] + PointerToken(key)
  {
    if path == [] {
      assert path + [key] == [key];
    } else {
      PointerAppend(path[1..], key);
      assert (path + [key])[1..] == path[1..] + [key];
    }
  }

  /** Where the first slash of `s` stands, or its length. */
  function TokenEnd(s: Text): (n: nat)
    ensures n <= |s|
  {
    if s == [] || s[0] == SLASH then 0 else 1 + TokenEnd(s[1..])
  }

  /** Reading a pointer back; None when the text is not a pointer. */
  function ParsePointer(text: Text): Option<Path>
    decreases |text|
  {
    if text == [] then Some([])
    else if text[0] != SLASH then None
    else
      var n := TokenEnd(text[1..]);
      var key := UnescapeToken(text[1..][..n]);
      var rest := ParsePointer(text[1..][n..]);
      if key.Some? && rest.Some? then Some([key.value] + rest.value) else None
  }

  lemma {:induction false} TokenEndAt(token: Text, rest: Text)
    requires NoSlash(token) && (rest == [] || rest[0] == SLASH)
    ensures TokenEnd(token + rest) == |token|
  {
    if token == [] {
      assert token + rest == rest;
    } else {
      TokenEndAt(token[1..], rest);
      assert (token + rest)[1..] == token[1..] + rest;
    }
  }

  lemma PointerParts(key: Text)
    ensures NoSlash(PointerToken(key)) && UnescapeToken(PointerToken(key)) == Some(key)
  {
    TokenByUnit(key);
    TokenRoundTrip(key);
  }

  lemma ParseStep(token: Text, rest: Text)
    requires NoSlash(token) && (rest == [] || rest[0] == SLASH)
    ensures ParsePointer([SLASH] + (token + rest)) ==
            if UnescapeToken(token).Some? && ParsePointer(rest).Some?
            then Some([UnescapeToken(token).value] + ParsePointer(rest).value) else None
  {
    hide UnescapeToken;
    var text := [SLASH] + (token + rest);
    TokenEndAt(token, rest);
    assert text[1..] == token + rest;
    assert (token + rest)[..|token|] == token && (token + rest)[|token|..] == rest;
  }

  lemma PointerStep(path: Path)
    requires path != []
    ensures Pointer(path) == [SLASH] + (PointerToken(path[0]) + Pointer(path[1..]))
    ensures Pointer(path[1..]) == [] || Pointer(path[1..])[0] == SLASH
  {
    hide PointerToken;
  }

  /** Pointers are read back exactly, so no two paths share one. */
  lemma {:induction false} PointerRoundTrip(path: Path)
    ensures ParsePointer(Pointer(path)) == Some(path)
  {
    if path != [] {
      PointerRoundTrip(path[1..]);
      PointerStep(path);
      PointerParts(path[0]);
      ParseStep(PointerToken(path[0]), Pointer(path[1..]));
      assert path == [path[0]] + path[1..];
    }
  }

  /** `pathsOverlap`, on the texts. */
  predicate PathsOverlap(left: Text, right: Text)
  {
    left == right || right + [SLASH] <= left || left + [SLASH] <= right
  }

  /** A slash after a token is the first slash. */
  lemma FirstSlash(a: Text, x: Text)
    requires NoSlash(a) && (x == [] || x[0] == SLASH)
    ensures (forall i :: 0 <= i < |a| ==> (a + x)[i] != SLASH) && (x != [] ==> (a + x)[|a|] == SLASH)
  {
  }

  lemma SplitAtSlash(a: Text, x: Text, b: Text, y: Text)
    requires NoSlash(a) && NoSlash(b) && x != [] && x[0] == SLASH && (y == [] || y[0] == SLASH)
    requires a + x <= b + y
    ensures a == b && x <= y
  {
    var l, r := a + x, b + y;
    FirstSlash(a, x);
    FirstSlash(b, y);
    assert l[|a|] == r[|a|] && forall i :: 0 <= i < |a| ==> r[i] == l[i];
    assert |b| <= |a|;
    assert y != [] ==> |a| <= |b|;
    assert a == l[..|a|] == r[..|a|];
    assert x == l[|a|..];
    assert y == r[|b|..];
  }

  /** The token lists say what the texts say: `p` with a slash begins `q`. */
  predicate Begins(p: Path, q: Path) { Pointer(p) + [SLASH] <= Pointer(q) }

  lemma {:induction false} SlashPrefix(p: Path, q: Path)
    ensures Begins(p, q) <==> p <= q && p != q
    decreases |p|
  {
    if p == [] {
      assert Pointer(p) + [SLASH] == [SLASH];
      if q != [] { PointerStep(q); }
    } else if q != [] {
      SlashPrefix(p[1..], q[1..]);
      hide Begins;
      if p[0] == q[0] { PrefixCons(p, q); }
      assert p == [p[0]] + p[1..] && q == [q[0]] + q[1..];
      if Begins(p, q) { TokensFirst(p, q); }
      if p[0] == q[0] && Begins(p[1..], q[1..]) { TokensBack(p, q); }
    }
  }

  lemma Front(s: Unit, a: Text, x: Text)
    ensures ([s] + (a + x)) + [s] == [s] + (a + (x + [s])) && (([s] + (a + x)) + [s])[1..] == a + (x + [s])
    ensures ([s] + (a + x))[1..] == a + x
  {}

  lemma TailPrefix(s: Text, t: Text)
    requires s <= t && s != []
    ensures s[1..] <= t[1..]
  {}

  lemma TokensFirst(p: Path, q: Path)
    requires p != [] && q != [] && Begins(p, q)
    ensures p[0] == q[0] && Begins(p[1..], q[1..])
  {
    PointerStep(p); PointerStep(q);
    PointerParts(p[0]); PointerParts(q[0]);
    hide Pointer, PointerToken;
    var a, b, x, y := PointerToken(p[0]), PointerToken(q[0]), Pointer(p[1..]), Pointer(q[1..]);
    Front(SLASH, a, x);
    Front(SLASH, b, y);
    TailPrefix(Pointer(p) + [SLASH], Pointer(q));
    SplitAtSlash(a, x + [SLASH], b, y);
    TokenInjective(p[0], q[0]);
  }

  lemma TokensBack(p: Path, q: Path)
    requires p != [] && q != [] && p[0] == q[0] && Begins(p[1..], q[1..])
    ensures Begins(p, q)
  {
    PointerStep(p); PointerStep(q);
    hide Pointer, PointerToken;
    var a, x, y := PointerToken(p[0]), Pointer(p[1..]), Pointer(q[1..]);
    Front(SLASH, a, x);
    AddPrefix(a, x + [SLASH], y);
    AddPrefix([SLASH], a + (x + [SLASH]), a + y);
  }

  lemma AddPrefix(a: Text, x: Text, y: Text)
    requires x <= y
    ensures a + x <= a + y
  {
  }

  /** The string test holds exactly when one token list is a prefix of the other. */
  lemma OverlapIsPrefix(p: Path, q: Path)
    ensures PathsOverlap(Pointer(p), Pointer(q)) <==> Overlap(p, q)
  {
    SlashPrefix(p, q);
    SlashPrefix(q, p);
    PointerRoundTrip(p);
    PointerRoundTrip(q);
  }
}
