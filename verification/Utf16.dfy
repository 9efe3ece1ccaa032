/** Strings of UTF-16 code units, and the UTF-8 accounting the source does on them. */
module Utf16 {
  type Unit = c: int | 0 <= c < 0x1_0000
  type Text = seq<Unit>

  /** A literal's characters as code units. */
  function Ascii(s: string): (t: Text)
    ensures |t| == |s|
  {
    seq(|s|, i requires 0 <= i < |s| => var c := s[i] as int; if c < 0x80 then c else 0)
  }

  predicate IsHigh(c: int) { 0xD800 <= c <= 0xDBFF }

  predicate IsLow(c: int) { 0xDC00 <= c <= 0xDFFF }

  predicate IsSurrogate(c: int) { 0xD800 <= c <= 0xDFFF }

  /** A surrogate pair stands at the front of `s`. */
  predicate StartsWithPair(s: Text) { |s| >= 2 && IsHigh(s[0]) && IsLow(s[1]) }

  /** The bytes of one code point (UTF-8, RFC 3629 section 3). */
  function EncodePoint(p: int): (bytes: seq<int>)
    requires 0 <= p < 0x11_0000
    ensures |bytes| == if p <= 0x7F then 1 else if p <= 0x7FF then 2 else if p <= 0xFFFF then 3 else 4
    ensures forall b <- bytes :: 0 <= b < 256
  {
    if p <= 0x7F then [p]
    else if p <= 0x7FF then [0xC0 + p / 0x40, 0x80 + p % 0x40]
    else if p <= 0xFFFF then [0xE0 + p / 0x1000, 0x80 + p / 0x40 % 0x40, 0x80 + p % 0x40]
    else [0xF0 + p / 0x4_0000, 0x80 + p / 0x1000 % 0x40, 0x80 + p / 0x40 % 0x40, 0x80 + p % 0x40]
  }

  /** The number of code units of the first character. */
  function Width(s: Text): nat { if StartsWithPair(s) then 2 else 1 }

  /** UTF-8 encoding; an unpaired surrogate becomes U+FFFD. */
  function Utf8(s: Text): seq<int>
  {
    if s == [] then []
    else if StartsWithPair(s) then
      var high: int := s[0]; var low: int := s[1];
      EncodePoint(0x1_0000 + (high - 0xD800) * 0x400 + (low - 0xDC00)) + Utf8(s[2..])
    else EncodePoint(if IsSurrogate(s[0]) then 0xFFFD else s[0]) + Utf8(s[1..])
  }

  function Utf8Length(s: Text): nat { |Utf8(s)| }

  /** `utf8CharacterBytes`: the width the source charges at an index. */
  function CharacterBytes(value: Text, index: nat): (n: nat)
    requires index < |value|
  {
    var code := value[index];
    if code <= 0x7F then 1
    else if code <= 0x7FF then 2
    else if IsHigh(code) && index + 1 < |value| && IsLow(value[index + 1]) then 4
    else 3
  }

  lemma Utf8Step(s: Text, i: nat)
    requires i < |s|
    ensures var n := CharacterBytes(s, i);
            && (n == 4 ==> i + 2 <= |s| && Utf8Length(s[i..]) == 4 + Utf8Length(s[i + 2..]))
            && (n != 4 ==> Utf8Length(s[i..]) == n + Utf8Length(s[i + 1..]))
  {
    var t := s[i..];
    assert t[1..] == s[i + 1..];
    if |t| >= 2 { assert t[2..] == s[i + 2..]; }
  }

  /** `utf8ByteLengthAtMost`: the exact length while it fits, else one more than the limit. */
  method Utf8ByteLengthAtMost(value: Text, maximumBytes: nat) returns (usedBytes: nat)
    ensures usedBytes == if Utf8Length(value) <= maximumBytes then Utf8Length(value) else maximumBytes + 1
  {
    usedBytes := 0;
    var index := 0;
    while index < |value|
      invariant 0 <= index <= |value|
      invariant usedBytes + Utf8Length(value[index..]) == Utf8Length(value)
      invariant usedBytes <= maximumBytes
    {
      Utf8Step(value, index);
      var characterBytes := CharacterBytes(value, index);
      usedBytes := usedBytes + characterBytes;
      if usedBytes > maximumBytes { return maximumBytes + 1; }
      if characterBytes == 4 { index := index + 1; }
      index := index + 1;
    }
  }

  /** Index `k` does not fall inside a surrogate pair of `s`. */
  predicate Boundary(s: Text, k: nat)
  {
    if k == 0 then true
    else if s == [] then false
    else if StartsWithPair(s) then k >= 2 && Boundary(s[2..], k - 2)
    else Boundary(s[1..], k - 1)
  }

  lemma {:induction false} BoundarySplit(s: Text, k: nat)
    requires k <= |s| && Boundary(s, k)
    ensures Utf8Length(s) == Utf8Length(s[..k]) + Utf8Length(s[k..])
  {
    if k == 0 {
      assert s[k..] == s && s[..k] == [];
    } else {
      var w := Width(s);
      hide Utf8Length, CharacterBytes;
      BoundarySplit(s[w..], k - w);
      assert s[w..][..k - w] == s[..k][w..];
      assert s[w..][k - w..] == s[k..];
      SameFront(s[..k], s);
    }
  }

  lemma SameFront(s: Text, t: Text)
    requires s != [] && s <= t && |s| >= Width(t)
    ensures StartsWithPair(s) == StartsWithPair(t)
    ensures Utf8Length(t) - Utf8Length(t[Width(t)..]) == Utf8Length(s) - Utf8Length(s[Width(t)..])
            == CharacterBytes(t, 0)
  {
  }

  lemma PrefixStep(s: Text, k: nat)
    requires s != [] && Width(s) <= k <= |s|
    ensures Utf8Length(s[..k]) == CharacterBytes(s, 0) + Utf8Length(s[Width(s)..][..k - Width(s)])
  {
    SameFront(s[..k], s);
    assert s[..k][Width(s)..] == s[Width(s)..][..k - Width(s)];
  }

  /** Boundaries only get further: a later boundary has room for the character in between. */
  lemma {:induction false} BoundaryMonotone(s: Text, j: nat, k: nat)
    requires j < k <= |s| && Boundary(s, j) && Boundary(s, k)
    ensures Utf8Length(s[..j]) + CharacterBytes(s, j) <= Utf8Length(s[..k])
  {
    PrefixStep(s, k);
    if j > 0 {
      var w := Width(s);
      LaterCharacter(s, w, j);
      hide Utf8Length, CharacterBytes;
      BoundaryMonotone(s[w..], j - w, k - w);
      PrefixStep(s, j);
    } else {
      assert s[..j] == [];
    }
  }

  lemma LaterCharacter(s: Text, w: nat, j: nat)
    requires w <= j < |s|
    ensures CharacterBytes(s[w..], j - w) == CharacterBytes(s, j)
  {}

  function Next(s: Text, k: nat): nat
    requires k < |s|
  {
    if CharacterBytes(s, k) == 4 then k + 2 else k + 1
  }

  /** The character at a boundary leads to the next boundary, and adds its bytes. */
  lemma {:induction false} BoundaryExtend(s: Text, k: nat)
    requires k < |s| && Boundary(s, k)
    ensures Next(s, k) <= |s| && Boundary(s, Next(s, k))
  {
    if k > 0 {
      BoundaryExtend(s[Width(s)..], k - Width(s));
    }
  }

  lemma BoundaryExtendBytes(s: Text, k: nat)
    requires k < |s| && Boundary(s, k)
    ensures Next(s, k) <= |s| && Utf8Length(s[..Next(s, k)]) == Utf8Length(s[..k]) + CharacterBytes(s, k)
  {
    BoundaryExtend(s, k);
    BoundarySplit(s, k);
    BoundarySplit(s, Next(s, k));
    Utf8Step(s, k);
  }

  lemma EmptyPrefix(s: Text)
    ensures Boundary(s, 0) && Utf8Length([]) == 0
  {}

  /** `truncateUtf8`: the longest prefix of whole characters whose encoding fits. */
  method TruncateUtf8(value: Text, maximumBytes: nat) returns (result: Text)
    ensures result <= value && Boundary(value, |result|)
    ensures Utf8Length(result) <= maximumBytes
    ensures forall k :: |result| < k <= |value| && Boundary(value, k) ==> Utf8Length(value[..k]) > maximumBytes
  {
    hide Utf8Length, Boundary;
    result := [];
    EmptyPrefix(value);
    var usedBytes := 0;
    var index := 0;
    while index < |value|
      invariant 0 <= index <= |value|
      invariant result == value[..index] && Boundary(value, index)
      invariant usedBytes == Utf8Length(result) <= maximumBytes
    {
      var characterBytes := CharacterBytes(value, index);
      if usedBytes + characterBytes > maximumBytes {
        forall k | index < k <= |value| && Boundary(value, k)
          ensures Utf8Length(value[..k]) > maximumBytes
        {
          BoundaryMonotone(value, index, k);
        }
        break;
      }
      BoundaryExtend(value, index);
      BoundaryExtendBytes(value, index);
      result := result + [value[index]];
      if characterBytes == 4 {
        index := index + 1;
        result := result + [value[index]];
      }
      index := index + 1;
      usedBytes := usedBytes + characterBytes;
    }
  }

  /** Every surrogate of `s` is part of a pair. */
  predicate Paired(s: Text)
  {
    s == [] || (if StartsWithPair(s) then Paired(s[2..]) else !IsSurrogate(s[0]) && Paired(s[1..]))
  }

  /** The last unit is a high surrogate: the one unpaired surrogate the source's check lets through. */
  predicate EndsInHigh(s: Text) { s != [] && IsHigh(s[|s| - 1]) }

  /** `isWellFormedUnicode`. Past the end `charCodeAt` gives NaN, which fails both comparisons of
    * line 602, so a final high surrogate is accepted. */
  method IsWellFormedUnicode(value: Text) returns (ok: bool)
    ensures ok == WellFormed(value)
  {
    var index := 0;
    while index < |value|
      invariant 0 <= index
      invariant index >= |value| ==> WellFormed(value)
      invariant index < |value| ==> WellFormed(value[index..]) == WellFormed(value)
    {
      var code := value[index];
      var tail := value[index..];
      assert tail[1..] == value[index + 1..];
      if |tail| >= 2 { assert tail[2..] == value[index + 2..]; }
      if IsHigh(code) {
        if index + 1 < |value| {
          var next := value[index + 1];
          if next < 0xDC00 || next > 0xDFFF { return false; }
        }
        index := index + 1;
      } else if IsLow(code) {
        return false;
      }
      index := index + 1;
    }
    return true;
  }

  /** What `isWellFormedUnicode` accepts. */
  predicate WellFormed(s: Text)
  {
    s == [] || (|s| == 1 && IsHigh(s[0])) ||
    (if StartsWithPair(s) then WellFormed(s[2..]) else !IsSurrogate(s[0]) && WellFormed(s[1..]))
  }

  /** The exact reach of the check: paired strings, and paired strings plus one final high surrogate. */
  lemma {:induction false} WellFormedExactly(s: Text)
    ensures WellFormed(s) <==> Paired(s) || (EndsInHigh(s) && Paired(s[..|s| - 1]))
  {
    if |s| >= 2 {
      var w := if StartsWithPair(s) then 2 else 1;
      WellFormedExactly(s[w..]);
      if w < |s| {
        assert s[..|s| - 1][w..] == s[w..][..|s| - w - 1];
        if EndsInHigh(s) { assert StartsWithPair(s[..|s| - 1]) == StartsWithPair(s); }
      }
      if !StartsWithPair(s) && |s| == 2 && EndsInHigh(s) { assert s[1..] == [s[1]]; assert s[..1] == [s[0]]; }
    }
  }

  lemma {:induction false} PairedNeverEndsHigh(s: Text)
    requires Paired(s)
    ensures !EndsInHigh(s)
  {
    if s != [] {
      PairedNeverEndsHigh(s[if StartsWithPair(s) then 2 else 1..]);
    }
  }

  /** Strict code-unit order on texts: the order `Array.prototype.sort` uses. */
  predicate Less(a: Text, b: Text)
  {
    b != [] && (a == [] || a[0] < b[0] || (a[0] == b[0] && Less(a[1..], b[1..])))
  }

  lemma {:induction false} LessTotal(a: Text, b: Text)
    ensures Less(a, b) || a == b || Less(b, a)
    ensures !(Less(a, b) && Less(b, a)) && !Less(a, a)
  {
    if a != [] && b != [] {
      LessTotal(a[1..], b[1..]); LessTotal(a[1..], a[1..]); assert a == [a[0]] + a[1..] && b == [b[0]] + b[1..];
    }
    else if a != [] { LessTotal(a[1..], a[1..]); }
  }

  lemma {:induction false} LessTransitive(a: Text, b: Text, c: Text)
    requires Less(a, b) && Less(b, c)
    ensures Less(a, c)
  {
    if a != [] && a[0] == b[0] == c[0] { LessTransitive(a[1..], b[1..], c[1..]); }
  }
}
