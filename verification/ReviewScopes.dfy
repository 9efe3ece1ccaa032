/** The receipt scope of a review thread is its colon-joined identifiers, and identifiers may hold colons themselves:
  * when two threads share a scope, and with it their receipts. */
module ReviewScopes {
  import opened Utf16
  import opened ReviewThreads

  const MAX_IDENTIFIER: nat := 128
  const SEPARATOR: Unit := 0x3A

  predicate IsAlphanumeric(c: Unit) { 0x30 <= c <= 0x39 || 0x41 <= c <= 0x5A || 0x61 <= c <= 0x7A }

  predicate IsIdentifierUnit(c: Unit) { IsAlphanumeric(c) || c == 0x2D || c == 0x2E || c == 0x5F || c == SEPARATOR }

  /** What `requireIdentifier` accepts. */
  predicate Identifier(s: Text)
  {
    1 <= |s| <= MAX_IDENTIFIER && IsAlphanumeric(s[0]) && forall c <- s :: IsIdentifierUnit(c)
  }

  /** A different project and thread of the organization with the same scope. */
  ghost predicate Shared(organizationId: Id, p: Id, t: Id, q: Id, u: Id)
  {
    (q, u) != (p, t) && ScopeText(organizationId, q, u) == ScopeText(organizationId, p, t)
  }

  /** Stable identifiers collide: `p:q` with `t`, and `p` with `q:t`. */
  lemma ScopesCollide(organizationId: Id, p: Id, q: Id, t: Id)
    requires Identifier(p) && Identifier(q) && Identifier(t) && |p| + |q| < MAX_IDENTIFIER && |q| + |t| < MAX_IDENTIFIER
    ensures Identifier(p + COLON + q) && Identifier(q + COLON + t)
    ensures Shared(organizationId, p + COLON + q, t, p, q + COLON + t)
  {
    JoinedIdentifier(p, q);
    JoinedIdentifier(q, t);
    assert |p + COLON + q| != |p|;
    ScopeSplit(organizationId, p, q, t);
  }

  lemma JoinedIdentifier(a: Text, b: Text)
    requires Identifier(a) && |a| + |b| < MAX_IDENTIFIER && forall c <- b :: IsIdentifierUnit(c)
    ensures Identifier(a + COLON + b)
  {
    assert forall c <- a + COLON + b :: c in a || c == SEPARATOR || c in b;
  }

  lemma ScopeSplit(organizationId: Id, p: Id, q: Id, t: Id)
    ensures ScopeText(organizationId, p + COLON + q, t) == ScopeText(organizationId, p, q + COLON + t)
  {
    var head := REVIEW + organizationId + COLON;
    assert head + (p + COLON + q) + COLON + t == head + p + COLON + (q + COLON + t);
  }

  /** The scope up to the project is the same for a whole organization. */
  lemma SameTail(organizationId: Id, p: Id, t: Id, q: Id, u: Id)
    ensures ScopeText(organizationId, q, u) == ScopeText(organizationId, p, t) <==> q + COLON + u == p + COLON + t
  {
    var head := REVIEW + organizationId + COLON;
    assert ScopeText(organizationId, q, u) == head + (q + COLON + u);
    assert ScopeText(organizationId, p, t) == head + (p + COLON + t);
    var a, b := q + COLON + u, p + COLON + t;
    assert (head + a)[|head|..] == a && (head + b)[|head|..] == b;
  }

  /** The pieces before the first separator determine each other. */
  lemma FirstPiece(a: Text, b: Text, c: Text, d: Text)
    requires a + COLON + b == c + COLON + d && SEPARATOR !in a && SEPARATOR !in c
    ensures a == c && b == d
  {
    var s := a + COLON + b;
    assert s[..|a|] == a && s[|a|] == SEPARATOR && s[|a| + 1..] == b;
    assert s[..|c|] == c && s[|c|] == SEPARATOR && s[|c| + 1..] == d;
  }

  /** A text that is split at two of its separators has the later one in its first piece, or in its last. */
  lemma SplitApart(p: Text, t: Text, q: Text, u: Text)
    requires q + COLON + u == p + COLON + t && |q| != |p|
    ensures |q| < |p| ==> p[|q|] == SEPARATOR && q == p[..|q|] && u == p[|q| + 1..] + COLON + t
    ensures |p| < |q| ==> var i := |q| - |p| - 1;
            i < |t| && t[i] == SEPARATOR && q == p + COLON + t[..i] && u == t[i + 1..]
  {
    var s := p + COLON + t;
    assert s[..|q|] == q && s[|q|] == SEPARATOR && s[|q| + 1..] == u;
    if |q| < |p| {
      assert s[|q|] == p[|q|] && s[..|q|] == p[..|q|];
    } else {
      assert s[|p| + 1..] == t;
    }
  }

  /** A project and thread share their scope with some others of the organization if and only if one of the two
    * identifiers holds a colon. */
  lemma SharedExactly(organizationId: Id, p: Id, t: Id)
    ensures (exists q, u :: Shared(organizationId, p, t, q, u)) <==> SEPARATOR in p || SEPARATOR in t
  {
    if SEPARATOR in p {
      var i :| 0 <= i < |p| && p[i] == SEPARATOR;
      assert p[..i] + COLON + p[i + 1..] == p;
      ScopeSplit(organizationId, p[..i], p[i + 1..], t);
      assert Shared(organizationId, p, t, p[..i], p[i + 1..] + COLON + t);
    } else if SEPARATOR in t {
      var i :| 0 <= i < |t| && t[i] == SEPARATOR;
      assert t[..i] + COLON + t[i + 1..] == t;
      ScopeSplit(organizationId, p, t[..i], t[i + 1..]);
      assert |p + COLON + t[..i]| != |p|;
      assert Shared(organizationId, p, t, p + COLON + t[..i], t[i + 1..]);
    } else {
      forall q, u ensures !Shared(organizationId, p, t, q, u) {
        hide ScopeText;
        SameTail(organizationId, p, t, q, u);
        if q + COLON + u == p + COLON + t {
          if |q| == |p| { Aligned(p, t, q, u); } else { SplitApart(p, t, q, u); }
        }
      }
    }
  }

  lemma Aligned(p: Text, t: Text, q: Text, u: Text)
    requires q + COLON + u == p + COLON + t && |q| == |p|
    ensures q == p && u == t
  {
    var s := p + COLON + t;
    assert s[..|q|] == q && s[..|p|] == p && s[|q| + 1..] == u && s[|p| + 1..] == t;
  }

  /** A colon of the project, or of the thread, at which both sides would be stable identifiers again. */
  predicate SplitsProject(p: Id, t: Id, i: nat)
  {
    i + 1 < |p| && p[i] == SEPARATOR && IsAlphanumeric(p[i + 1]) && |p| - i + |t| <= MAX_IDENTIFIER
  }

  predicate SplitsThread(p: Id, t: Id, i: nat)
  {
    i + 1 < |t| && t[i] == SEPARATOR && IsAlphanumeric(t[i + 1]) && |p| + 1 + i <= MAX_IDENTIFIER
  }

  /** Among stable identifiers the same holds for a colon with a letter or digit after it and room for what moves
    * across. */
  lemma SharedAmongIdentifiers(organizationId: Id, p: Id, t: Id)
    requires Identifier(p) && Identifier(t)
    ensures (exists q, u :: Identifier(q) && Identifier(u) && Shared(organizationId, p, t, q, u))
            <==> exists i :: SplitsProject(p, t, i) || SplitsThread(p, t, i)
  {
    hide Shared, Identifier;
    if i :| SplitsProject(p, t, i) { ProjectSplit(organizationId, p, t, i); }
    if i :| SplitsThread(p, t, i) { ThreadSplit(organizationId, p, t, i); }
    forall q, u | Identifier(q) && Identifier(u) && Shared(organizationId, p, t, q, u)
      ensures exists i :: SplitsProject(p, t, i) || SplitsThread(p, t, i)
    {
      SharedSplits(organizationId, p, t, q, u);
    }
  }

  lemma ProjectSplit(organizationId: Id, p: Id, t: Id, i: nat)
    requires Identifier(p) && Identifier(t) && SplitsProject(p, t, i)
    ensures Identifier(p[..i]) && Identifier(p[i + 1..] + COLON + t)
    ensures Shared(organizationId, p, t, p[..i], p[i + 1..] + COLON + t)
  {
    var rest := p[i + 1..];
    assert p[..i] + COLON + rest == p && rest[0] == p[i + 1];
    assert i > 0 by { assert p[0] != SEPARATOR; }
    ScopeSplit(organizationId, p[..i], rest, t);
    JoinedIdentifier(rest, t);
  }

  lemma ThreadSplit(organizationId: Id, p: Id, t: Id, i: nat)
    requires Identifier(p) && Identifier(t) && SplitsThread(p, t, i)
    ensures Identifier(p + COLON + t[..i]) && Identifier(t[i + 1..])
    ensures Shared(organizationId, p, t, p + COLON + t[..i], t[i + 1..])
  {
    var rest := t[i + 1..];
    assert t[..i] + COLON + rest == t && rest[0] == t[i + 1];
    ScopeSplit(organizationId, p, t[..i], rest);
    JoinedIdentifier(p, t[..i]);
    assert |p + COLON + t[..i]| != |p|;
  }

  lemma SharedSplits(organizationId: Id, p: Id, t: Id, q: Id, u: Id)
    requires Identifier(p) && Identifier(t) && Identifier(q) && Identifier(u) && Shared(organizationId, p, t, q, u)
    ensures exists i :: SplitsProject(p, t, i) || SplitsThread(p, t, i)
  {
    SameTail(organizationId, p, t, q, u);
    if |q| == |p| {
      Aligned(p, t, q, u);
    } else {
      SplitApart(p, t, q, u);
      if |q| < |p| {
        assert u[0] == if |q| + 1 < |p| then p[|q| + 1] else SEPARATOR;
        assert SplitsProject(p, t, |q|);
      } else {
        var i := |q| - |p| - 1;
        assert u[0] == t[i + 1];
        assert SplitsThread(p, t, i);
      }
    }
  }

  predicate ColonFree(s: Text) { SEPARATOR !in s }

  /** Without colons a scope names one thread, across organizations too. */
  lemma ScopeInjective(o: Id, p: Id, t: Id, o2: Id, p2: Id, t2: Id)
    requires ColonFree(o) && ColonFree(p) && ColonFree(o2) && ColonFree(p2)
    ensures ScopeText(o, p, t) == ScopeText(o2, p2, t2) <==> (o, p, t) == (o2, p2, t2)
  {
    var a, b := o + COLON + (p + COLON + t), o2 + COLON + (p2 + COLON + t2);
    assert ScopeText(o, p, t) == REVIEW + a && ScopeText(o2, p2, t2) == REVIEW + b;
    assert (REVIEW + a)[|REVIEW|..] == a && (REVIEW + b)[|REVIEW|..] == b;
    if a == b {
      FirstPiece(o, p + COLON + t, o2, p2 + COLON + t2);
      FirstPiece(p, t, p2, t2);
    }
  }
}
