/** The keys of an object in code-unit order, as `Object.keys(...).sort()` lists them. */
module SortedKeys {
  import opened Utf16

  ghost predicate IsLeast(m: Text, s: set<Text>) { m in s && forall y <- s :: y == m || Less(m, y) }

  lemma {:induction false} LeastExists(s: set<Text>)
    requires s != {}
    ensures exists m :: IsLeast(m, s)
    decreases |s|
  {
    var x :| x in s;
    var rest := s - {x};
    if rest == {} {
      assert s == {x};
      assert IsLeast(x, s);
    } else {
      LeastExists(rest);
      var m :| IsLeast(m, rest);
      LessTotal(x, m);
      if Less(x, m) {
        forall y <- s ensures y == x || Less(x, y) {
          if y != x && y != m { LessTransitive(x, m, y); }
        }
        assert IsLeast(x, s);
      } else {
        assert IsLeast(m, s);
      }
    }
  }

  ghost function Least(s: set<Text>): (m: Text)
    requires s != {}
    ensures IsLeast(m, s)
  {
    LeastExists(s);
    var m :| IsLeast(m, s);
    m
  }

  predicate Ascending(keys: seq<Text>) { forall i, j :: 0 <= i < j < |keys| ==> Less(keys[i], keys[j]) }

  lemma ConsAscending(m: Text, rest: seq<Text>, s: set<Text>)
    requires IsLeast(m, s) && Ascending(rest) && (set k <- rest) == s - {m}
    ensures Ascending([m] + rest) && (set k <- [m] + rest) == s
  {
    forall j | 0 <= j < |rest| ensures Less(m, rest[j]) {
      assert rest[j] in (set k <- rest);
      assert rest[j] in s - {m};
    }
    var others := set k <- rest;
    assert forall k :: k in rest <==> k in others;
    assert others == s - {m};
    assert (set k <- [m] + rest) == others + {m};
  }

  /** The keys in ascending order. */
  ghost function Sorted(s: set<Text>): (keys: seq<Text>)
    ensures Ascending(keys) && (set k <- keys) == s && |keys| == |s|
    decreases |s|
  {
    if s == {} then []
    else
      var m := Least(s);
      var rest := Sorted(s - {m});
      ConsAscending(m, rest, s);
      [m] + rest
  }

  lemma Distinct(keys: seq<Text>)
    requires Ascending(keys)
    ensures forall i, j :: 0 <= i < j < |keys| ==> keys[i] != keys[j]
  {
    forall i, j | 0 <= i < j < |keys| ensures keys[i] != keys[j] {
      LessTotal(keys[i], keys[i]);
    }
  }

  /** There is only one ascending list of a set's members. */
  lemma {:induction false} SortedUnique(keys: seq<Text>)
    requires Ascending(keys)
    ensures keys == Sorted(set k <- keys)
  {
    if keys != [] {
      var s := set k <- keys;
      assert keys[0] in s;
      var m := Least(s);
      assert m == keys[0] by {
        if m != keys[0] {
          var i :| 0 <= i < |keys| && keys[i] == m;
          LessTotal(keys[0], m);
        }
      }
      Distinct(keys);
      var rest := keys[1..];
      assert keys == [m] + rest;
      assert (set k <- rest) == s - {m};
      SortedUnique(rest);
    }
  }

  /** `[...keys].sort()`, by insertion. */
  method SortKeys(s: set<Text>) returns (keys: seq<Text>)
    ensures keys == Sorted(s)
  {
    keys := [];
    var rest := s;
    while rest != {}
      invariant rest <= s && (set k <- keys) == s - rest && Ascending(keys)
      decreases |rest|
    {
      var k :| k in rest;
      rest := rest - {k};
      keys := Insert(keys, k);
    }
    SortedUnique(keys);
  }

  method Insert(keys: seq<Text>, k: Text) returns (r: seq<Text>)
    requires Ascending(keys) && k !in keys
    ensures Ascending(r) && (set x <- r) == (set x <- keys) + {k}
  {
    var i := 0;
    while i < |keys| && Less(keys[i], k)
      invariant 0 <= i <= |keys|
      invariant forall j :: 0 <= j < i ==> Less(keys[j], k)
    {
      i := i + 1;
    }
    r := keys[..i] + [k] + keys[i..];
    forall x ensures x in r <==> x in keys || x == k {
      assert keys == keys[..i] + keys[i..];
    }
    forall j | i <= j < |keys| ensures Less(k, keys[j]) {
      LessTotal(k, keys[i]);
      if j > i { LessTransitive(k, keys[i], keys[j]); }
    }
  }
}
