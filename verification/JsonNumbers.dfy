/** JSON number tokens: the parser's regular expression, and the foreign number conversions. */
module JsonNumbers {
  import opened Wrappers
  import opened Utf16

  const MINUS: Unit := 0x2D
  const PLUS: Unit := 0x2B
  const DOT: Unit := 0x2E
  const ZERO: Unit := 0x30

  predicate IsDigit(c: Unit) { 0x30 <= c <= 0x39 }

  predicate IsExponentMark(c: Unit) { c == 0x65 || c == 0x45 }

  predicate IsNumberUnit(c: Unit) { IsDigit(c) || IsExponentMark(c) || c == DOT || c == PLUS || c == MINUS }

  predicate AllNumberUnits(s: Text) { forall i :: 0 <= i < |s| ==> IsNumberUnit(s[i]) }

  /** How many digits lead `s`: `\d*`. */
  function Digits(s: Text): (n: nat)
    ensures n <= |s|
  {
    if s == [] || !IsDigit(s[0]) then 0 else 1 + Digits(s[1..])
  }

  /** Length matched by `-?`. */
  function MinusLength(s: Text): (n: nat)
    ensures n <= |s|
  {
    if s != [] && s[0] == MINUS then 1 else 0
  }

  /** Length matched by `(?:0|[1-9]\d*)`. */
  function WholeLength(s: Text): (n: nat)
    ensures n <= |s|
  {
    if s != [] && s[0] == ZERO then 1 else Digits(s)
  }

  /** Length matched by `(?:\.\d+)?`. */
  function FractionLength(s: Text): (n: nat)
    ensures n <= |s|
  {
    if s != [] && s[0] == DOT && Digits(s[1..]) > 0 then 1 + Digits(s[1..]) else 0
  }

  /** Length matched by `[eE][+-]?`. */
  function MarkLength(s: Text): (n: nat)
    ensures n <= |s|
  {
    if s == [] || !IsExponentMark(s[0]) then 0
    else if |s| >= 2 && (s[1] == PLUS || s[1] == MINUS) then 2
    else 1
  }

  /** Length matched by `(?:[eE][+-]?\d+)?`. */
  function ExponentLength(s: Text): (n: nat)
    ensures n <= |s|
  {
    var m := MarkLength(s);
    if m > 0 && Digits(s[m..]) > 0 then m + Digits(s[m..]) else 0
  }

  function TailLength(s: Text): (n: nat)
    ensures n <= |s|
  {
    FractionLength(s) + ExponentLength(s[FractionLength(s)..])
  }

  function UnsignedLength(s: Text): (n: nat)
    ensures n <= |s|
  {
    if WholeLength(s) == 0 then 0 else WholeLength(s) + TailLength(s[WholeLength(s)..])
  }

  /** Length of the regular expression's match at the front of `s`; 0 when there is none. */
  function LexNumber(s: Text): (n: nat)
    ensures n <= |s|
  {
    var n := UnsignedLength(s[MinusLength(s)..]);
    if n == 0 then 0 else MinusLength(s) + n
  }

  /** A number token: a text the regular expression matches whole (RFC 8259 section 6). */
  predicate NumberText(t: Text) { t != [] && LexNumber(t) == |t| }

  /** `rest` cannot continue a number token. */
  predicate Stops(rest: Text) { rest == [] || !IsNumberUnit(rest[0]) }

  lemma DropFront(a: Text, b: Text, k: nat)
    requires k <= |a|
    ensures (a + b)[k..] == a[k..] + b
  {
  }

  lemma {:induction false} DigitsExtend(t: Text, rest: Text)
    requires Stops(rest)
    ensures Digits(t + rest) == Digits(t)
  {
    if t == [] {
      assert t + rest == rest;
    } else {
      DropFront(t, rest, 1);
      DigitsExtend(t[1..], rest);
    }
  }

  lemma TailExtend(t: Text, rest: Text)
    requires Stops(rest)
    ensures TailLength(t + rest) == TailLength(t)
  {
    if t == [] {
      assert t + rest == rest;
    } else {
      DropFront(t, rest, 1);
      DigitsExtend(t[1..], rest);
      var f := FractionLength(t);
      DropFront(t, rest, f);
      ExponentExtend(t[f..], rest);
    }
  }

  lemma ExponentExtend(t: Text, rest: Text)
    requires Stops(rest)
    ensures ExponentLength(t + rest) == ExponentLength(t)
  {
    if t == [] {
      assert t + rest == rest;
    } else {
      var m := MarkLength(t);
      DropFront(t, rest, m);
      DigitsExtend(t[m..], rest);
    }
  }

  lemma UnsignedExtend(t: Text, rest: Text)
    requires Stops(rest)
    ensures UnsignedLength(t + rest) == UnsignedLength(t)
  {
    if t == [] {
      assert t + rest == rest;
    } else {
      hide TailLength;
      DigitsExtend(t, rest);
      var w := WholeLength(t);
      DropFront(t, rest, w);
      TailExtend(t[w..], rest);
    }
  }

  /** Maximal munch: what follows a text and cannot continue a number never changes the match. */
  lemma LexExtend(t: Text, rest: Text)
    requires Stops(rest)
    ensures LexNumber(t + rest) == LexNumber(t)
  {
    hide UnsignedLength;
    var m := MinusLength(t);
    assert MinusLength(t + rest) == m;
    DropFront(t, rest, m);
    UnsignedExtend(t[m..], rest);
  }

  lemma {:induction false} DigitsCut(s: Text, n: nat)
    requires Digits(s) <= n <= |s|
    ensures Digits(s[..n]) == Digits(s)
    ensures AllNumberUnits(s[..Digits(s)])
  {
    if s != [] && IsDigit(s[0]) {
      DigitsCut(s[1..], n - 1);
      assert s[..n][1..] == s[1..][..n - 1];
      assert s[..Digits(s)] == [s[0]] + s[1..][..Digits(s) - 1];
    }
  }

  lemma ExponentCut(s: Text)
    ensures ExponentLength(s[..ExponentLength(s)]) == ExponentLength(s)
    ensures AllNumberUnits(s[..ExponentLength(s)])
  {
    var m, n := MarkLength(s), ExponentLength(s);
    if n > 0 {
      assert s[..n][m..] == s[m..][..n - m];
      DigitsCut(s[m..], n - m);
      assert s[..n] == s[..m] + s[m..][..n - m];
    }
  }

  lemma TailCut(s: Text)
    ensures TailLength(s[..TailLength(s)]) == TailLength(s)
    ensures AllNumberUnits(s[..TailLength(s)])
  {
    var f, n := FractionLength(s), TailLength(s);
    FractionCut(s, n);
    ExponentCut(s[f..]);
    hide FractionLength, ExponentLength, AllNumberUnits;
    assert s[..n][f..] == s[f..][..n - f];
    UnitsJoin(s, f, n);
  }

  lemma FractionCut(s: Text, n: nat)
    requires FractionLength(s) <= n <= |s|
    ensures FractionLength(s[..n]) == FractionLength(s) && AllNumberUnits(s[..FractionLength(s)])
  {
    var f := FractionLength(s);
    if f > 0 {
      assert s[..n][1..] == s[1..][..n - 1];
      DigitsCut(s[1..], n - 1);
      assert s[..f] == [s[0]] + s[1..][..f - 1];
    } else if n > 0 {
      assert s[..n][0] == s[0];
      if s[0] == DOT { assert s[..n][1..] == s[1..][..n - 1]; DigitsCut(s[1..], n - 1); }
    }
  }

  lemma UnsignedCut(s: Text)
    ensures UnsignedLength(s[..UnsignedLength(s)]) == UnsignedLength(s)
  {
    var w, n := WholeLength(s), UnsignedLength(s);
    if n > 0 {
      TailCut(s[w..]);
      assert s[..n][w..] == s[w..][..n - w];
      if s[0] != ZERO { DigitsCut(s, n); }
      assert WholeLength(s[..n]) == w;
    }
  }

  lemma UnsignedUnits(s: Text)
    ensures AllNumberUnits(s[..UnsignedLength(s)])
  {
    var w, n := WholeLength(s), UnsignedLength(s);
    if n > 0 {
      TailCut(s[w..]);
      WholeUnits(s);
      hide WholeLength, TailLength, AllNumberUnits;
      UnitsJoin(s, w, n);
    }
  }

  lemma WholeUnits(s: Text)
    ensures AllNumberUnits(s[..WholeLength(s)])
  {
    DigitsCut(s, |s|);
    hide Digits;
  }

  lemma UnitsJoin(s: Text, m: nat, n: nat)
    requires m <= n <= |s| && AllNumberUnits(s[..m]) && AllNumberUnits(s[m..][..n - m])
    ensures AllNumberUnits(s[..n])
  {
    assert s[..n] == s[..m] + s[m..][..n - m];
  }

  /** A match is a token. */
  lemma LexSound(s: Text)
    requires LexNumber(s) > 0
    ensures NumberText(s[..LexNumber(s)])
  {
    hide UnsignedLength;
    var m, n := MinusLength(s), LexNumber(s);
    UnsignedCut(s[m..]);
    assert s[..n][m..] == s[m..][..n - m];
  }

  lemma UnsignedFront(s: Text)
    requires UnsignedLength(s) > 0
    ensures IsDigit(s[0])
  {
  }

  /** Tokens are made of number units, and start with a minus sign or a digit. */
  lemma NumberTextUnits(t: Text)
    requires NumberText(t)
    ensures AllNumberUnits(t) && (t[0] == MINUS || IsDigit(t[0]))
  {
    hide UnsignedLength;
    var m := MinusLength(t);
    UnsignedFront(t[m..]);
    UnsignedUnits(t[m..]);
    assert t[m..][..|t| - m] == t[m..];
    assert t == t[..m] + t[m..];
  }

  /** The foreign number conversions: `show` is JSON.stringify on a finite number, `lex` is Number() on a
    * token, None standing for a value that is not finite. Finite numbers are opaque codes; -0 is 0. */
  datatype NumberCodec = NumberCodec(show: int -> Text, lex: Text -> Option<int>) {
    ghost predicate Valid()
    {
      forall n: int :: NumberText(show(n)) && lex(show(n)) == Some(n)
    }
  }
}
