/** JSON string tokens: quoting as `JSON.stringify` does it, scanning and decoding as the parser does it. */
module JsonStrings {
  import opened Wrappers
  import opened Utf16

  const QUOTE: Unit := 0x22
  const BACKSLASH: Unit := 0x5C
  const SLASH: Unit := 0x2F
  const LETTER_U: Unit := 0x75

  function Hex(n: int): Unit
    requires 0 <= n < 16
  {
    if n < 10 then 0x30 + n else 0x57 + n
  }

  predicate IsHex(c: Unit) { 0x30 <= c <= 0x39 || 0x41 <= c <= 0x46 || 0x61 <= c <= 0x66 }

  function HexValue(c: Unit): (n: nat)
    requires IsHex(c)
    ensures n < 16
  {
    if c <= 0x39 then c - 0x30 else if c <= 0x46 then c - 0x37 else c - 0x57
  }

  function UnicodeEscape(c: Unit): Text
  {
    [BACKSLASH, LETTER_U, Hex(c / 16 / 16 / 16), Hex(c / 16 / 16 % 16), Hex(c / 16 % 16), Hex(c % 16)]
  }

  /** The units with a two-character escape, and the letter that follows the backslash. */
  function ShortEscape(c: Unit): Option<Unit>
  {
    match c
    case 0x22 => Some(QUOTE)
    case 0x5C => Some(BACKSLASH)
    case 0x08 => Some(0x62)
    case 0x0C => Some(0x66)
    case 0x0A => Some(0x6E)
    case 0x0D => Some(0x72)
    case 0x09 => Some(0x74)
    case _ => None
  }

  function Unescape(letter: Unit): Option<Unit>
  {
    match letter
    case 0x22 => Some(QUOTE)
    case 0x5C => Some(BACKSLASH)
    case 0x2F => Some(SLASH)
    case 0x62 => Some(0x08)
    case 0x66 => Some(0x0C)
    case 0x6E => Some(0x0A)
    case 0x72 => Some(0x0D)
    case 0x74 => Some(0x09)
    case _ => None
  }

  /** One code unit that is not half of a pair, as `JSON.stringify` writes it. */
  function EscapeUnit(c: Unit): Text
  {
    if ShortEscape(c).Some? then [BACKSLASH, ShortEscape(c).value]
    else if c < 0x20 || IsSurrogate(c) then UnicodeEscape(c)
    else [c]
  }

  function Escape(s: Text): Text
  {
    if s == [] then []
    else if StartsWithPair(s) then [s[0], s[1]] + Escape(s[2..])
    else EscapeUnit(s[0]) + Escape(s[1..])
  }

  function Quote(s: Text): Text { [QUOTE] + Escape(s) + [QUOTE] }

  /** The value of a string token's body (RFC 8259 section 7), or None when the body is malformed. */
  function Decode(body: Text): Option<Text>
  {
    if body == [] then Some([])
    else if body[0] == BACKSLASH then
      if |body| < 2 then None
      else if body[1] == LETTER_U then
        if |body| >= 6 && IsHex(body[2]) && IsHex(body[3]) && IsHex(body[4]) && IsHex(body[5]) then
          Prepend(HexValue(body[2]) * 0x1000 + HexValue(body[3]) * 0x100 + HexValue(body[4]) * 0x10 + HexValue(body[5]),
                  Decode(body[6..]))
        else None
      else if Unescape(body[1]).Some? then Prepend(Unescape(body[1]).value, Decode(body[2..]))
      else None
    else if body[0] == QUOTE || body[0] < 0x20 then None
    else Prepend(body[0], Decode(body[1..]))
  }

  function Prepend(c: Unit, rest: Option<Text>): Option<Text>
  {
    if rest.Some? then Some([c] + rest.value) else None
  }

  /** Where the parser's scan finds the closing quote, counted from just after the opening one. */
  function Scan(s: Text): (end: Option<nat>)
    ensures end.Some? ==> end.value < |s| && s[end.value] == QUOTE
  {
    if s == [] then None
    else if s[0] == BACKSLASH then if |s| < 2 then None else Shift(2, Scan(s[2..]))
    else if s[0] == QUOTE then Some(0)
    else if s[0] < 0x20 then None
    else Shift(1, Scan(s[1..]))
  }

  function Shift(offset: nat, end: Option<nat>): Option<nat>
  {
    if end.Some? then Some(offset + end.value) else None
  }

  lemma HexRoundTrip(n: int)
    requires 0 <= n < 16
    ensures IsHex(Hex(n)) && HexValue(Hex(n)) == n
  {
  }

  lemma HexDigits(c: Unit)
    ensures c / 16 / 16 / 16 * 0x1000 + c / 16 / 16 % 16 * 0x100 + c / 16 % 16 * 0x10 + c % 16 == c
  {
    var q := c / 16;
    var p := q / 16;
    assert c == q * 16 + c % 16 && q == p * 16 + q % 16 && p == p / 16 * 16 + p % 16;
  }

  lemma UnicodeEscapeDecodes(c: Unit, rest: Text)
    ensures Decode(UnicodeEscape(c) + rest) == Prepend(c, Decode(rest))
  {
    HexDigits(c);
    var p, q, r, t := c / 16 / 16 / 16, c / 16 / 16 % 16, c / 16 % 16, c % 16;
    HexRoundTrip(p); HexRoundTrip(q); HexRoundTrip(r); HexRoundTrip(t);
    FourDigits(Hex(p), Hex(q), Hex(r), Hex(t), rest);
  }

  lemma FourDigits(p: Unit, q: Unit, r: Unit, t: Unit, rest: Text)
    requires IsHex(p) && IsHex(q) && IsHex(r) && IsHex(t)
    ensures Decode([BACKSLASH, LETTER_U, p, q, r, t] + rest) ==
            Prepend(HexValue(p) * 0x1000 + HexValue(q) * 0x100 + HexValue(r) * 0x10 + HexValue(t), Decode(rest))
  {
    assert ([BACKSLASH, LETTER_U, p, q, r, t] + rest)[6..] == rest;
  }

  /** The first character of `s` as `JSON.stringify` writes it. */
  function Front(s: Text): Text
    requires s != []
  {
    if StartsWithPair(s) then [s[0], s[1]] else EscapeUnit(s[0])
  }

  lemma DecodeUnit(c: Unit, tail: Text)
    ensures Decode(EscapeUnit(c) + tail) == Prepend(c, Decode(tail))
  {
    if ShortEscape(c).Some? {
      assert (EscapeUnit(c) + tail)[2..] == tail;
    } else if c < 0x20 || IsSurrogate(c) {
      UnicodeEscapeDecodes(c, tail);
    } else {
      assert (EscapeUnit(c) + tail)[1..] == tail;
    }
  }

  lemma DecodePair(high: Unit, low: Unit, tail: Text)
    requires IsHigh(high) && IsLow(low)
    ensures Decode([high, low] + tail) == Prepend(high, Prepend(low, Decode(tail)))
  {
    assert ([high, low] + tail)[1..] == [low] + tail;
    assert ([low] + tail)[1..] == tail;
  }

  /** Decoding undoes quoting, for every string, paired or not. */
  lemma {:induction false} DecodeEscape(s: Text)
    ensures Decode(Escape(s)) == Some(s)
  {
    if s != [] {
      var rest := s[Width(s)..];
      DecodeEscape(rest);
      if StartsWithPair(s) {
        DecodePair(s[0], s[1], Escape(rest));
        assert s == [s[0]] + ([s[1]] + rest);
      } else {
        DecodeUnit(s[0], Escape(rest));
        assert s == [s[0]] + rest;
      }
    }
  }

  /** The scan stops exactly at the end of a well-formed body. */
  lemma {:induction false} ScanDecodable(body: Text, rest: Text)
    requires Decode(body).Some?
    ensures Scan(body + [QUOTE] + rest) == Some(|body|)
  {
    if body != [] {
      DecodeWidth(body);
      hide Decode, Scan;
      ScanDecodable(body[CodeWidth(body)..], rest);
      ScanWidth(body, rest);
    } else {
      assert body + [QUOTE] + rest == [QUOTE] + rest;
    }
  }

  /** How much of a body stands for its first unit. */
  function CodeWidth(body: Text): nat
    requires body != []
  {
    if body[0] != BACKSLASH then 1 else if |body| >= 2 && body[1] == LETTER_U then 6 else 2
  }

  lemma DecodeWidth(body: Text)
    requires body != [] && Decode(body).Some?
    ensures CodeWidth(body) <= |body| && Decode(body[CodeWidth(body)..]).Some?
    ensures CodeWidth(body) == 1 ==> body[0] != QUOTE && body[0] >= 0x20
    ensures CodeWidth(body) == 6 ==> forall i :: 2 <= i < 6 ==> IsHex(body[i])
  {
    hide HexValue, Unescape;
    if CodeWidth(body) == 1 {
      assert Decode(body) == Prepend(body[0], Decode(body[1..]));
    } else if CodeWidth(body) == 2 {
      assert Decode(body) == Prepend(Unescape(body[1]).value, Decode(body[2..]));
    } else {
      HexFront(body);
    }
  }

  lemma HexFront(body: Text)
    requires |body| >= 2 && body[0] == BACKSLASH && body[1] == LETTER_U && Decode(body).Some?
    ensures |body| >= 6 && Decode(body[6..]).Some? && forall i :: 2 <= i < 6 ==> IsHex(body[i])
  {
    hide HexValue, IsHex, Unescape;
    assert |body| >= 6 && IsHex(body[2]) && IsHex(body[3]) && IsHex(body[4]) && IsHex(body[5]);
  }

  lemma ScanWidth(body: Text, rest: Text)
    requires body != [] && CodeWidth(body) <= |body|
    requires CodeWidth(body) == 1 ==> body[0] != QUOTE && body[0] >= 0x20
    requires CodeWidth(body) == 6 ==> forall i :: 2 <= i < 6 ==> IsHex(body[i])
    ensures Scan(body + [QUOTE] + rest) == Shift(CodeWidth(body), Scan(body[CodeWidth(body)..] + [QUOTE] + rest))
  {
    var w, all := CodeWidth(body), body + [QUOTE] + rest;
    var tail := body[w..] + [QUOTE] + rest;
    assert all[w..] == tail;
    if w == 6 {
      hide Scan;
      ScanUnicode(body, tail);
      assert all == body[..6] + tail;
    }
  }

  lemma ScanUnicode(body: Text, tail: Text)
    requires |body| >= 6 && body[0] == BACKSLASH && body[1] == LETTER_U
    requires forall i :: 2 <= i < 6 ==> IsHex(body[i])
    ensures Scan(body[..6] + tail) == Shift(6, Scan(tail))
  {
    ScanPlain(body[2..6], tail);
    assert (body[..6] + tail)[2..] == body[2..6] + tail;
  }

  lemma ScanPlainUnit(c: Unit, tail: Text)
    requires IsHex(c)
    ensures Scan([c] + tail) == Shift(1, Scan(tail))
  {
    assert ([c] + tail)[1..] == tail;
  }

  lemma {:induction false} ScanPlain(plain: Text, tail: Text)
    requires forall i :: 0 <= i < |plain| ==> IsHex(plain[i])
    ensures Scan(plain + tail) == Shift(|plain|, Scan(tail))
  {
    if plain == [] {
      assert plain + tail == tail;
    } else {
      ScanPlain(plain[1..], tail);
      ScanPlainUnit(plain[0], plain[1..] + tail);
      hide Scan, IsHex;
      assert plain + tail == [plain[0]] + (plain[1..] + tail);
    }
  }

  /** What `jsonStringBytesAtMost` charges for the character at the front of `s`. */
  function FrontBytes(s: Text): nat
    requires s != []
  {
    if ShortEscape(s[0]).Some? then 2
    else if s[0] < 0x20 || (IsSurrogate(s[0]) && !WellFormed(if |s| >= 2 then s[..2] else s)) then 6
    else CharacterBytes(s, 0)
  }

  function BodyBytes(s: Text): nat
  {
    if s == [] then 0 else FrontBytes(s) + BodyBytes(if FrontBytes(s) == 4 then s[2..] else s[1..])
  }

  /** What `jsonStringBytesAtMost` charges for a whole quoted string. */
  function QuotedBytes(s: Text): nat { 2 + BodyBytes(s) }

  lemma SliceWellFormed(s: Text)
    requires |s| >= 2 && IsSurrogate(s[0])
    ensures WellFormed(s[..2]) <==> StartsWithPair(s)
  {
    assert s[..2] == [s[0], s[1]];
    assert s[..2][2..] == [];
  }

  /** `jsonStringBytesAtMost`. */
  method JsonStringBytesAtMost(value: Text, maximumBytes: nat) returns (usedBytes: nat)
    ensures usedBytes == if QuotedBytes(value) <= maximumBytes then QuotedBytes(value) else maximumBytes + 1
  {
    usedBytes := 2;
    if usedBytes > maximumBytes { return maximumBytes + 1; }
    var index := 0;
    while index < |value|
      invariant 0 <= index <= |value|
      invariant usedBytes + BodyBytes(value[index..]) == QuotedBytes(value)
      invariant usedBytes <= maximumBytes
    {
      var code := value[index];
      ghost var tail := value[index..];
      assert tail[1..] == value[index + 1..];
      if |tail| >= 2 { assert tail[2..] == value[index + 2..]; }
      var bytes;
      if code == 0x22 || code == 0x5C || code == 0x08 || code == 0x0C || code == 0x0A || code == 0x0D || code == 0x09 {
        bytes := 2;
      } else {
        var slice := if index + 2 <= |value| then value[index..index + 2] else value[index..];
        assert slice == if |tail| >= 2 then tail[..2] else tail;
        var wellFormed := IsWellFormedUnicode(slice);
        if code < 0x20 || (IsSurrogate(code) && !wellFormed) {
          bytes := 6;
        } else {
          bytes := CharacterBytes(value, index);
          if bytes == 4 { index := index + 1; }
        }
      }
      usedBytes := usedBytes + bytes;
      if usedBytes > maximumBytes { return maximumBytes + 1; }
      index := index + 1;
    }
  }

  lemma {:induction false} Utf8Ascii(a: Text, rest: Text)
    requires forall i :: 0 <= i < |a| ==> a[i] < 0x80
    ensures Utf8Length(a + rest) == |a| + Utf8Length(rest)
  {
    if a == [] {
      assert a + rest == rest;
    } else {
      Utf8Ascii(a[1..], rest);
      assert (a + rest)[1..] == a[1..] + rest;
    }
  }

  lemma FrontExactly(s: Text, tail: Text)
    requires s != []
    ensures FrontBytes(s) == 4 <==> StartsWithPair(s)
    ensures Utf8Length(Front(s) + tail) == FrontBytes(s) + Utf8Length(tail) + if |s| == 1 && EndsInHigh(s) then 3 else 0
  {
    if |s| >= 2 && IsSurrogate(s[0]) { SliceWellFormed(s); }
    if StartsWithPair(s) {
      assert (Front(s) + tail)[2..] == tail;
    } else if ShortEscape(s[0]).Some? || s[0] < 0x20 || IsSurrogate(s[0]) {
      Utf8Ascii(Front(s), tail);
    } else {
      assert (Front(s) + tail)[1..] == tail;
    }
  }

  /** The text after the first character. */
  function Later(s: Text): (later: Text)
    requires s != []
    ensures |later| < |s|
  {
    s[Width(s)..]
  }

  lemma EscapeStep(s: Text, rest: Text)
    requires s != []
    ensures Escape(s) + rest == Front(s) + (Escape(Later(s)) + rest)
  {
    hide EscapeUnit;
  }

  lemma EndStep(s: Text)
    requires s != []
    ensures EndsInHigh(s) <==> EndsInHigh(Later(s)) || (|s| == 1 && EndsInHigh(s))
    ensures EndsInHigh(Later(s)) ==> |s| > 1
  {
    var later := Later(s);
    if later != [] {
      assert later[|later| - 1] == s[|s| - 1];
    } else if |s| == 2 {
      assert IsLow(s[1]);
    }
  }

  lemma BodyStep(s: Text)
    requires s != []
    ensures BodyBytes(s) == FrontBytes(s) + BodyBytes(Later(s))
  {
    FrontExactly(s, []);
  }

  lemma {:induction false} BodyBytesExactly(s: Text, rest: Text)
    ensures Utf8Length(Escape(s) + rest) == BodyBytes(s) + Utf8Length(rest) + if EndsInHigh(s) then 3 else 0
  {
    if s == [] {
      assert Escape(s) + rest == rest;
    } else {
      BodyBytesExactly(Later(s), rest);
      BodyBytesStep(s, rest);
    }
  }

  lemma BodyBytesStep(s: Text, rest: Text)
    requires s != []
    requires Utf8Length(Escape(Later(s)) + rest) ==
             BodyBytes(Later(s)) + Utf8Length(rest) + if EndsInHigh(Later(s)) then 3 else 0
    ensures Utf8Length(Escape(s) + rest) == BodyBytes(s) + Utf8Length(rest) + if EndsInHigh(s) then 3 else 0
  {
    hide *;
    EscapeStep(s, rest);
    EndStep(s);
    FrontExactly(s, Escape(Later(s)) + rest);
    BodyStep(s);
  }

  /** The charge is the UTF-8 length of the quoted text, except that a final unpaired high surrogate
    * is charged 3 bytes where its escape takes 6. */
  lemma QuotedBytesExactly(s: Text)
    ensures Utf8Length(Quote(s)) == QuotedBytes(s) + if EndsInHigh(s) then 3 else 0
  {
    BodyBytesExactly(s, [QUOTE]);
    Utf8Ascii([QUOTE], Escape(s) + [QUOTE]);
    assert Quote(s) == [QUOTE] + (Escape(s) + [QUOTE]);
    Utf8Ascii([QUOTE], []);
    assert [QUOTE] + [] == [QUOTE];
  }
}
