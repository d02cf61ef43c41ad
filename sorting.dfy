/** Python's `sorted(..., key=...)`, which is stable, and the name order
    used when printing results. */
module Sorting {
  import opened Text

  /** Non-decreasing by `key`. */
  ghost predicate SortedBy<T>(s: seq<T>, key: T -> int)
  {
    forall i, j :: 0 <= i < j < |s| ==> key(s[i]) <= key(s[j])
  }

  /** The elements of `s` whose key is `v`, in their order in `s`. */
  function WithKey<T>(s: seq<T>, key: T -> int, v: int): seq<T>
    decreases |s|
  {
    if s == [] then []
    else (if key(s[0]) == v then [s[0]] else []) + WithKey(s[1..], key, v)
  }

  /** Inserts `x` before the first element whose key is not smaller. */
  function InsertBy<T>(x: T, s: seq<T>, key: T -> int): (r: seq<T>)
    requires SortedBy(s, key)
    ensures multiset(r) == multiset(s) + multiset{x}
    ensures SortedBy(r, key)
    decreases |s|
  {
    if s == [] || key(x) <= key(s[0]) then [x] + s
    else
      var rest := InsertBy(x, s[1..], key);
      assert s == [s[0]] + s[1..];
      assert forall j :: 0 <= j < |rest| ==> key(s[0]) <= key(rest[j]) by {
        forall j | 0 <= j < |rest| ensures key(s[0]) <= key(rest[j]) {
          assert rest[j] in multiset(rest);
          if rest[j] != x {
            assert rest[j] in multiset(s[1..]);
            var i :| 0 <= i < |s[1..]| && s[1..][i] == rest[j];
            assert s[i + 1] == rest[j];
          }
        }
      }
      [s[0]] + rest
  }

  /** `sorted(s, key=key)`: an insertion sort that keeps elements with equal
      keys in their original order. */
  function SortBy<T>(s: seq<T>, key: T -> int): (r: seq<T>)
    ensures multiset(r) == multiset(s)
    ensures SortedBy(r, key)
    decreases |s|
  {
    if s == [] then []
    else
      assert s == [s[0]] + s[1..];
      InsertBy(s[0], SortBy(s[1..], key), key)
  }

  lemma {:induction false} WithKeyInsert<T>(x: T, s: seq<T>, key: T -> int, v: int)
    requires SortedBy(s, key)
    ensures WithKey(InsertBy(x, s, key), key, v) == (if key(x) == v then [x] else []) + WithKey(s, key, v)
    decreases |s|
  {
    if s == [] || key(x) <= key(s[0]) {
      assert ([x] + s)[1..] == s;
    } else {
      WithKeyInsert(x, s[1..], key, v);
      var rest := InsertBy(x, s[1..], key);
      var r := [s[0]] + rest;
      assert InsertBy(x, s, key) == r;
      assert r[0] == s[0] && r[1..] == rest;
      assert WithKey(r, key, v) == (if key(s[0]) == v then [s[0]] else []) + WithKey(rest, key, v);
      assert WithKey(s, key, v) == (if key(s[0]) == v then [s[0]] else []) + WithKey(s[1..], key, v);
      // key(s[0]) < key(x): at most one of the two can have key v
      if key(x) == v {
        assert key(s[0]) != v;
      }
    }
  }

  /** Stability: sorting keeps, for every key, the elements with that key in
      their original relative order. */
  lemma {:induction false} SortByStable<T>(s: seq<T>, key: T -> int, v: int)
    ensures WithKey(SortBy(s, key), key, v) == WithKey(s, key, v)
    decreases |s|
  {
    if s != [] {
      SortByStable(s[1..], key, v);
      WithKeyInsert(s[0], SortBy(s[1..], key), key, v);
    }
  }

  /** The key negated, so that an ascending sort on it is a descending sort
      on `key`. */
  function Negated<T>(key: T -> int): T -> int
  {
    x => -key(x)
  }

  /** `sorted(s, key=key, reverse=True)`: non-increasing by `key`, and (as
      Python documents) still stable, i.e. a stable ascending sort on the
      negated key. */
  function SortDescendingBy<T>(s: seq<T>, key: T -> int): (r: seq<T>)
    ensures multiset(r) == multiset(s)
    ensures forall i, j :: 0 <= i < j < |r| ==> key(r[i]) >= key(r[j])
  {
    var r := SortBy(s, Negated(key));
    assert forall i, j :: 0 <= i < j < |r| ==> Negated(key)(r[i]) <= Negated(key)(r[j]);
    r
  }

  lemma {:induction false} WithNegatedKey<T>(s: seq<T>, key: T -> int, v: int)
    ensures WithKey(s, Negated(key), -v) == WithKey(s, key, v)
    decreases |s|
  {
    if s != [] { WithNegatedKey(s[1..], key, v); }
  }

  /** Stability of the descending sort. */
  lemma SortDescendingStable<T>(s: seq<T>, key: T -> int, v: int)
    ensures WithKey(SortDescendingBy(s, key), key, v) == WithKey(s, key, v)
  {
    SortByStable(s, Negated(key), -v);
    WithNegatedKey(SortBy(s, Negated(key)), key, v);
    WithNegatedKey(s, key, v);
  }

  // ---------------------------------------------------------------------
  // names in the order of str
  // ---------------------------------------------------------------------

  predicate IsLeast(m: string, names: set<string>)
  {
    m in names && forall y :: y in names && y != m ==> LexLess(m, y)
  }

  lemma {:induction false} LeastExists(names: set<string>)
    requires names != {}
    ensures exists m :: IsLeast(m, names)
    decreases |names|
  {
    var x :| x in names;
    if names == {x} {
      assert IsLeast(x, names);
    } else {
      LeastExists(names - {x});
      var m :| IsLeast(m, names - {x});
      LexLessTotal(x, m);
      if LexLess(x, m) {
        forall y | y in names && y != x ensures LexLess(x, y) {
          if y != m { LexLessTransitive(x, m, y); }
        }
        assert IsLeast(x, names);
      } else {
        assert IsLeast(m, names);
      }
    }
  }

  lemma LeastUnique(names: set<string>)
    ensures forall a, b :: IsLeast(a, names) && IsLeast(b, names) ==> a == b
  {
    forall a, b | IsLeast(a, names) && IsLeast(b, names) ensures a == b {
      if a != b { LexLessAsymmetric(a, b); }
    }
  }

  /** The smallest name of a non-empty set. */
  function Least(names: set<string>): (m: string)
    requires names != {}
    ensures m in names
    ensures forall y :: y in names && y != m ==> LexLess(m, y)
  {
    LeastExists(names);
    LeastUnique(names);
    var m :| IsLeast(m, names);
    m
  }

  /** Strictly increasing in the order of str. */
  ghost predicate StrictlyIncreasing(s: seq<string>)
  {
    forall i, j :: 0 <= i < j < |s| ==> LexLess(s[i], s[j])
  }

  /** `sorted(names)` for a set of distinct names. */
  function SortedNames(names: set<string>): (r: seq<string>)
    ensures |r| == |names|
    ensures forall x :: x in r <==> x in names
    ensures StrictlyIncreasing(r)
    decreases |names|
  {
    if names == {} then []
    else
      var m := Least(names);
      var rest := SortedNames(names - {m});
      assert forall j :: 0 <= j < |rest| ==> LexLess(m, rest[j]) by {
        forall j | 0 <= j < |rest| ensures LexLess(m, rest[j]) { assert rest[j] in names - {m}; }
      }
      [m] + rest
  }
}
