/** `OrderedDict[str, int]` as the sequence of its items: (key, value) pairs
    with distinct keys, in the order the keys were first inserted. */
module OrderedDicts {
  import opened Wrappers

  type Pairs = seq<(string, int)>

  function KeysOf(d: Pairs): (ks: seq<string>)
    ensures |ks| == |d| && forall i :: 0 <= i < |d| ==> ks[i] == d[i].0
  {
    seq(|d|, i requires 0 <= i < |d| => d[i].0)
  }

  ghost predicate DistinctKeys(d: Pairs)
  {
    forall i, j :: 0 <= i < j < |d| ==> d[i].0 != d[j].0
  }

  /** The tail of a list of pairs without repeated keys has none, and
      lacks the head's key. */
  lemma DistinctKeysTail(p: (string, int), tail: Pairs)
    requires DistinctKeys([p] + tail)
    ensures DistinctKeys(tail) && forall q :: q in tail ==> q.0 != p.0
  {
    var d := [p] + tail;
    forall i, j | 0 <= i < j < |tail| ensures tail[i].0 != tail[j].0 {
      assert d[i + 1] == tail[i] && d[j + 1] == tail[j];
    }
    forall q | q in tail ensures q.0 != p.0 {
      var j :| 0 <= j < |tail| && tail[j] == q;
      assert d[0] == p && d[j + 1] == q;
    }
  }

  /** `d.get(k)` */
  function Lookup(d: Pairs, k: string): (r: Option<int>)
    ensures r.Some? <==> k in KeysOf(d)
    decreases |d|
  {
    if d == [] then None
    else if d[0].0 == k then Some(d[0].1)
    else
      assert KeysOf(d) == [d[0].0] + KeysOf(d[1..]);
      Lookup(d[1..], k)
  }

  /** `d[k] = v`: the value is replaced in place when `k` is present,
      otherwise the pair goes at the end. */
  function Put(d: Pairs, k: string, v: int): (r: Pairs)
    decreases |d|
  {
    if d == [] then [(k, v)]
    else if d[0].0 == k then [(k, v)] + d[1..]
    else [d[0]] + Put(d[1..], k, v)
  }

  /** What `d[k] = v` does to a dict with distinct keys. */
  lemma PutFacts(d: Pairs, k: string, v: int)
    requires DistinctKeys(d)
    ensures DistinctKeys(Put(d, k, v))
    ensures KeysOf(Put(d, k, v)) == if k in KeysOf(d) then KeysOf(d) else KeysOf(d) + [k]
    ensures Lookup(Put(d, k, v), k) == Some(v)
    ensures forall j :: j != k ==> Lookup(Put(d, k, v), j) == Lookup(d, j)
  {
    PutKeys(d, k, v);
    PutLookup(d, k, v);
    var r := Put(d, k, v);
    forall i, j | 0 <= i < j < |r| ensures r[i].0 != r[j].0 {
      if k in KeysOf(d) {
        assert r[i].0 == KeysOf(d)[i] == d[i].0 && r[j].0 == KeysOf(d)[j] == d[j].0;
      } else if j < |d| {
        assert r[i].0 == KeysOf(d)[i] == d[i].0 && r[j].0 == KeysOf(d)[j] == d[j].0;
      } else {
        assert r[j].0 == k && r[i].0 == KeysOf(d)[i];
      }
    }
  }

  /** `d[k] = v` keeps the key order and appends a new key at the end. */
  lemma {:induction false} PutKeys(d: Pairs, k: string, v: int)
    ensures KeysOf(Put(d, k, v)) == if k in KeysOf(d) then KeysOf(d) else KeysOf(d) + [k]
    decreases |d|
  {
    if d == [] {
      assert KeysOf([(k, v)]) == [k];
    } else {
      var t := d[1..];
      assert d == [d[0]] + t;
      KeysOfCons(d[0], t);
      if d[0].0 == k {
        assert Put(d, k, v) == [(k, v)] + t;
        KeysOfCons((k, v), t);
      } else {
        var rest := Put(t, k, v);
        assert Put(d, k, v) == [d[0]] + rest;
        KeysOfCons(d[0], rest);
        PutKeys(t, k, v);
        assert k in KeysOf(d) <==> k in KeysOf(t);
        if k !in KeysOf(t) {
          assert [d[0].0] + (KeysOf(t) + [k]) == ([d[0].0] + KeysOf(t)) + [k];
        }
      }
    }
  }

  lemma KeysOfCons(p: (string, int), t: Pairs)
    ensures KeysOf([p] + t) == [p.0] + KeysOf(t)
  {
    var d := [p] + t;
    forall i | 0 <= i < |d| ensures KeysOf(d)[i] == ([p.0] + KeysOf(t))[i] {
      if i > 0 {
        assert d[i] == t[i - 1];
      }
    }
  }

  /** After `d[k] = v`, `k` maps to `v` and every other key as before. */
  lemma {:induction false} PutLookup(d: Pairs, k: string, v: int)
    ensures Lookup(Put(d, k, v), k) == Some(v)
    ensures forall j :: j != k ==> Lookup(Put(d, k, v), j) == Lookup(d, j)
    decreases |d|
  {
    if d != [] {
      var r := Put(d, k, v);
      if d[0].0 == k {
        assert r[1..] == d[1..];
      } else {
        PutLookup(d[1..], k, v);
        assert r[0] == d[0] && r[1..] == Put(d[1..], k, v);
      }
    }
  }

  /** `OrderedDict(pairs)`: every key at the position of its first occurrence,
      with the value of its last occurrence. */
  function FromPairs(pairs: Pairs): (d: Pairs)
    ensures DistinctKeys(d)
    decreases |pairs|
  {
    if pairs == [] then []
    else
      var last := pairs[|pairs| - 1];
      var front := FromPairs(pairs[..|pairs| - 1]);
      PutFacts(front, last.0, last.1);
      Put(front, last.0, last.1)
  }

  /** The value of the last pair with key `k`. */
  function LastValue(pairs: Pairs, k: string): Option<int>
    decreases |pairs|
  {
    if pairs == [] then None
    else if pairs[|pairs| - 1].0 == k then Some(pairs[|pairs| - 1].1)
    else LastValue(pairs[..|pairs| - 1], k)
  }

  /** The distinct elements of `s`, each at its first position. */
  function FirstOccurrences(s: seq<string>): seq<string>
    decreases |s|
  {
    if s == [] then []
    else
      var front := FirstOccurrences(s[..|s| - 1]);
      if s[|s| - 1] in front then front else front + [s[|s| - 1]]
  }

  lemma {:induction false} FirstOccurrencesElements(s: seq<string>)
    ensures forall x :: x in FirstOccurrences(s) <==> x in s
    decreases |s|
  {
    if s != [] {
      FirstOccurrencesElements(s[..|s| - 1]);
      assert s == s[..|s| - 1] + [s[|s| - 1]];
    }
  }

  /** Looking a key up in `OrderedDict(pairs)` gives its last value in `pairs`. */
  lemma {:induction false} FromPairsLookup(pairs: Pairs, k: string)
    ensures Lookup(FromPairs(pairs), k) == LastValue(pairs, k)
    decreases |pairs|
  {
    if pairs != [] {
      var last := pairs[|pairs| - 1];
      FromPairsLookup(pairs[..|pairs| - 1], k);
      PutFacts(FromPairs(pairs[..|pairs| - 1]), last.0, last.1);
    }
  }

  /** The keys of `OrderedDict(pairs)` are those of `pairs`, each at its first
      occurrence. */
  lemma {:induction false} FromPairsKeys(pairs: Pairs)
    ensures KeysOf(FromPairs(pairs)) == FirstOccurrences(KeysOf(pairs))
    decreases |pairs|
  {
    if pairs != [] {
      var front := pairs[..|pairs| - 1];
      var last := pairs[|pairs| - 1];
      var ks := KeysOf(pairs);
      FromPairsKeys(front);
      PutKeys(FromPairs(front), last.0, last.1);
      assert FromPairs(pairs) == Put(FromPairs(front), last.0, last.1);
      assert ks[..|ks| - 1] == KeysOf(front) && ks[|ks| - 1] == last.0;
      assert FirstOccurrences(ks) == var f := FirstOccurrences(KeysOf(front)); if last.0 in f then f else f + [last.0];
    }
  }

  /** Pairs whose keys are already distinct pass through unchanged. */
  lemma {:induction false} FromDistinctPairs(pairs: Pairs)
    requires DistinctKeys(pairs)
    ensures FromPairs(pairs) == pairs
    decreases |pairs|
  {
    if pairs != [] {
      var front := pairs[..|pairs| - 1];
      var last := pairs[|pairs| - 1];
      assert DistinctKeys(front);
      FromDistinctPairs(front);
      assert last.0 !in KeysOf(front);
      PutAppends(front, last.0, last.1);
      assert front + [last] == pairs;
    }
  }

  lemma {:induction false} PutAppends(d: Pairs, k: string, v: int)
    requires k !in KeysOf(d)
    ensures Put(d, k, v) == d + [(k, v)]
    decreases |d|
  {
    if d != [] {
      assert KeysOf(d) == [d[0].0] + KeysOf(d[1..]);
      PutAppends(d[1..], k, v);
      assert d == [d[0]] + d[1..];
    }
  }

  /** In a dict with distinct keys, looking up the key of an item gives
      that item's value. */
  lemma {:induction false} LookupItem(d: Pairs, i: nat)
    requires DistinctKeys(d) && i < |d|
    ensures Lookup(d, d[i].0) == Some(d[i].1)
    decreases |d|
  {
    if i > 0 {
      assert d[0].0 != d[i].0;
      assert d[1..][i - 1] == d[i];
      assert DistinctKeys(d[1..]) by {
        forall p, q | 0 <= p < q < |d[1..]| ensures d[1..][p].0 != d[1..][q].0 {
          assert d[1..][p] == d[p + 1] && d[1..][q] == d[q + 1];
        }
      }
      LookupItem(d[1..], i - 1);
    }
  }

  /** A successful lookup comes from an item of the dict. */
  lemma {:induction false} LookupFound(d: Pairs, k: string)
    requires Lookup(d, k).Some?
    ensures exists i :: 0 <= i < |d| && d[i] == (k, Lookup(d, k).value)
    decreases |d|
  {
    if d[0].0 != k {
      LookupFound(d[1..], k);
      var i :| 0 <= i < |d[1..]| && d[1..][i] == (k, Lookup(d, k).value);
      assert d[i + 1] == d[1..][i];
    }
  }
}
