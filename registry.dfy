/** The content of a `HomeBuyerAssigner` registry (its `neighborhoods` and
    `home_buyers` dicts) as a value, with what `add_neighborhood`,
    `add_home_buyer`, `buyers_per_neighborhood` and the two sorted views
    compute from it. The classes in `Assigner` and `Legacy` keep this
    content in fields and are proved against these functions. */
module Registry {
  import opened Wrappers
  import opened Errors
  import opened Scoring
  import opened Entities
  import opened Sorting
  import opened OrderedDicts

  /** `neighborhoods` and `home_buyers` by name; `buyerOrder` is the
      insertion order of the `home_buyers` dict, which decides how
      `sorted_home_buyers` breaks ties. */
  datatype State = State(neighborhoods: map<string, Neighborhood>, homeBuyers: map<string, HomeBuyer>, buyerOrder: seq<string>)
  {
    /** Every record is stored under its own name, and `buyerOrder` lists
        each registered buyer once. */
    ghost predicate Valid()
    {
      && (forall i, j :: 0 <= i < j < |buyerOrder| ==> buyerOrder[i] != buyerOrder[j])
      && (forall x :: x in buyerOrder <==> x in homeBuyers)
      && (forall x :: x in homeBuyers ==> homeBuyers[x].name == x)
      && (forall g :: g in neighborhoods ==> neighborhoods[g].name == g)
    }

    /** The `buyers_per_neighborhood` property of src/models.py. */
    function BuyersPerNeighborhood(): Result<nat, Error>
    {
      Capacity(|homeBuyers|, |neighborhoods|)
    }

    /** `add_neighborhood`: stores `n` under its name, replacing a
        neighbourhood of the same name. */
    function AddNeighborhood(n: Neighborhood): (t: State)
      ensures t.neighborhoods.Keys == neighborhoods.Keys + {n.name} && t.neighborhoods[n.name] == n
      ensures forall g :: g in neighborhoods && g != n.name ==> t.neighborhoods[g] == neighborhoods[g]
      ensures t.homeBuyers == homeBuyers && t.buyerOrder == buyerOrder
      ensures Valid() ==> t.Valid()
    {
      this.(neighborhoods := neighborhoods[n.name := n])
    }

    /** The first line of `add_home_buyer`: stores `b` under its name; a new
        name goes to the end of the dict order, a known one keeps its place. */
    function Register(b: HomeBuyer): (t: State)
      ensures t.homeBuyers.Keys == homeBuyers.Keys + {b.name} && t.homeBuyers[b.name] == b
      ensures t.neighborhoods == neighborhoods
      ensures Valid() ==> t.Valid()
    {
      State(neighborhoods, homeBuyers[b.name := b],
            if b.name in homeBuyers then buyerOrder else buyerOrder + [b.name])
    }

    /** One pass of the loop in `add_home_buyer`: the registered buyer
        `name` scores itself against neighbourhood `g`, and `g`'s
        scoreboard gains the pair (buyer name, score). */
    function ScoreOne(name: string, g: string): (t: State)
      requires name in homeBuyers && g in neighborhoods
      ensures t.neighborhoods.Keys == neighborhoods.Keys && t.homeBuyers.Keys == homeBuyers.Keys
      ensures t.buyerOrder == buyerOrder
    {
      var (b, score) := homeBuyers[name].CalculateNeighborhoodScore(neighborhoods[g]);
      State(neighborhoods[g := neighborhoods[g].AddScore((b.name, score))], homeBuyers[name := b], buyerOrder)
    }

    /** The loop of `add_home_buyer` over `prefs`, stopping at the first
        name that is not a registered neighbourhood; what was done before
        that stays done. */
    function ScorePreferences(name: string, prefs: seq<string>): (r: (State, Option<Error>))
      requires name in homeBuyers
      ensures r.0.neighborhoods.Keys == neighborhoods.Keys && r.0.homeBuyers.Keys == homeBuyers.Keys
      ensures r.0.buyerOrder == buyerOrder
      decreases |prefs|
    {
      if prefs == [] then (this, None)
      else if prefs[0] !in neighborhoods then (this, Some(UnknownNeighborhood(prefs[0])))
      else ScoreOne(name, prefs[0]).ScorePreferences(name, prefs[1..])
    }

    /** `add_home_buyer`: registers `b`, then scores it against each of its
        preferences in turn; the error is the ValueError for the first
        unknown preference. */
    function AddHomeBuyer(b: HomeBuyer): (r: (State, Option<Error>))
    {
      Register(b).ScorePreferences(b.name, b.preferences)
    }

    /** `sorted_neighborhoods_scores`: per neighbourhood, its scoreboard
        sorted by score, highest first and stable on ties, then put through
        `OrderedDict`. */
    function SortedNeighborhoodsScores(): (boards: map<string, Pairs>)
      ensures boards.Keys == neighborhoods.Keys
      ensures forall g :: g in boards ==> DistinctKeys(boards[g])
    {
      map g | g in neighborhoods :: FromPairs(SortDescendingBy(neighborhoods[g].scores, ScoreOf))
    }

    /** `sorted_home_buyers`: the buyer names in dict order, stably sorted by
        the buyers' `value`. */
    function SortedHomeBuyers(): (names: seq<string>)
      ensures multiset(names) == multiset(buyerOrder)
      ensures forall i, j :: 0 <= i < j < |names| ==> ValueOfName(homeBuyers, names[i]) <= ValueOfName(homeBuyers, names[j])
      ensures Valid() ==> forall x :: x in names ==> x in homeBuyers
    {
      var key := (x: string) => ValueOfName(homeBuyers, x);
      var names := SortBy(buyerOrder, key);
      assert forall i, j :: 0 <= i < j < |names| ==> key(names[i]) <= key(names[j]);
      assert forall x :: x in names ==> x in buyerOrder by {
        forall x | x in names ensures x in buyerOrder {
          assert x in multiset(names);
        }
      }
      names
    }
  }

  /** The empty registry of `HomeBuyerAssigner.__init__`. */
  function Empty(): (s: State)
    ensures s.Valid() && s.neighborhoods == map[] && s.homeBuyers == map[] && s.buyerOrder == []
  {
    State(map[], map[], [])
  }

  /** `buyers_per_neighborhood` in src/models.py on the two counts: no
      neighbourhood is a ValueError, a count of buyers that the count of
      neighbourhoods does not divide an ArithmeticError, and otherwise the
      exact quotient. */
  function Capacity(buyers: nat, neighborhoods: nat): (r: Result<nat, Error>)
    ensures neighborhoods == 0 <==> r == Err(NoNeighborhoods)
    ensures neighborhoods != 0 && buyers % neighborhoods != 0 <==> r == Err(NotDivisible(buyers, neighborhoods, ArithmeticError))
    ensures r.Ok? ==> r.value * neighborhoods == buyers
    ensures r.Err? ==> r.error.Class() in {ValueError, ArithmeticError}
  {
    if neighborhoods == 0 then Err(NoNeighborhoods)
    else if buyers % neighborhoods != 0 then Err(NotDivisible(buyers, neighborhoods, ArithmeticError))
    else Ok(buyers / neighborhoods)
  }

  /** The score of a scoreboard entry, the sort key of `sorted_neighborhoods_scores`. */
  function ScoreOf(e: (string, int)): int
  {
    e.1
  }

  /** The `value` of the buyer registered as `x`. */
  function ValueOfName(homeBuyers: map<string, HomeBuyer>, x: string): int
  {
    if x in homeBuyers then homeBuyers[x].Value() else 0
  }

  /** How often `x` occurs in `s`. */
  function Count(s: seq<string>, x: string): (n: nat)
    ensures n == 0 <==> x !in s
    ensures n <= |s|
    decreases |s|
  {
    if s == [] then 0 else (if s[0] == x then 1 else 0) + Count(s[1..], x)
  }

  /** `n` copies of `e`. */
  function Repeat(e: (string, int), n: nat): (r: seq<(string, int)>)
    ensures |r| == n && forall i :: 0 <= i < n ==> r[i] == e
  {
    seq(n, _ => e)
  }

  /** A preference list without repetitions names each of its elements once. */
  lemma {:induction false} CountDistinct(s: seq<string>, x: string)
    requires forall i, j :: 0 <= i < j < |s| ==> s[i] != s[j]
    requires x in s
    ensures Count(s, x) == 1
    decreases |s|
  {
    if s[0] == x {
      assert x !in s[1..] by {
        forall i | 0 <= i < |s[1..]| ensures s[1..][i] != x { assert s[1..][i] == s[i + 1]; }
      }
    } else {
      assert x in s[1..] by { var i :| 0 <= i < |s| && s[i] == x; assert s[1..][i - 1] == x; }
      CountDistinctTail(s);
      CountDistinct(s[1..], x);
    }
  }

  lemma CountDistinctTail(s: seq<string>)
    requires |s| >= 1
    requires forall i, j :: 0 <= i < j < |s| ==> s[i] != s[j]
    ensures forall i, j :: 0 <= i < j < |s[1..]| ==> s[1..][i] != s[1..][j]
  {
    forall i, j | 0 <= i < j < |s[1..]| ensures s[1..][i] != s[1..][j] {
      assert s[1..][i] == s[i + 1] && s[1..][j] == s[j + 1];
    }
  }

  // ---------------------------------------------------------------------
  // add_home_buyer
  // ---------------------------------------------------------------------

  /** Scoring changes no name, vector or preference list; only the scored
      buyer's scores and the scoreboards change. */
  lemma {:induction false} ScorePreferencesFrame(s: State, name: string, prefs: seq<string>)
    requires name in s.homeBuyers
    ensures var t := s.ScorePreferences(name, prefs).0;
      && (forall g :: g in s.neighborhoods ==> t.neighborhoods[g].name == s.neighborhoods[g].name && t.neighborhoods[g].vector == s.neighborhoods[g].vector)
      && (forall x :: x in s.homeBuyers && x != name ==> t.homeBuyers[x] == s.homeBuyers[x])
      && t.homeBuyers[name].name == s.homeBuyers[name].name
      && t.homeBuyers[name].vector == s.homeBuyers[name].vector
      && t.homeBuyers[name].preferences == s.homeBuyers[name].preferences
    decreases |prefs|
  {
    if prefs != [] && prefs[0] in s.neighborhoods {
      ScorePreferencesFrame(s.ScoreOne(name, prefs[0]), name, prefs[1..]);
    }
  }

  /** The scoring loop ends without error exactly when every preference is
      a registered neighbourhood. */
  lemma {:induction false} ScorePreferencesSucceeds(s: State, name: string, prefs: seq<string>)
    requires name in s.homeBuyers
    ensures s.ScorePreferences(name, prefs).1 == None <==> forall p :: p in prefs ==> p in s.neighborhoods
    decreases |prefs|
  {
    if prefs != [] && prefs[0] in s.neighborhoods {
      ScorePreferencesSucceeds(s.ScoreOne(name, prefs[0]), name, prefs[1..]);
      assert forall p :: p in prefs <==> p == prefs[0] || p in prefs[1..];
    }
  }

  /** With an unknown preference at position `j` and none before it, the
      loop fails there with that name, after having scored the preferences
      before `j`. */
  lemma {:induction false} ScorePreferencesFails(s: State, name: string, prefs: seq<string>, j: nat)
    requires name in s.homeBuyers
    requires j < |prefs| && prefs[j] !in s.neighborhoods
    requires forall i :: 0 <= i < j ==> prefs[i] in s.neighborhoods
    ensures s.ScorePreferences(name, prefs) == (s.ScorePreferences(name, prefs[..j]).0, Some(UnknownNeighborhood(prefs[j])))
    decreases j
  {
    if j > 0 {
      var s1 := s.ScoreOne(name, prefs[0]);
      assert prefs[1..][j - 1] == prefs[j];
      ScorePreferencesFails(s1, name, prefs[1..], j - 1);
      assert prefs[..j][1..] == prefs[1..][..j - 1];
    }
  }

  /** One scoring step, spelled out: the buyer's score for `g` is set, one
      pair is appended to `g`'s scoreboard, and nothing else changes. */
  lemma ScoreOneFacts(s: State, name: string, g: string)
    requires name in s.homeBuyers && g in s.neighborhoods
    ensures var t := s.ScoreOne(name, g);
      var b := s.homeBuyers[name];
      var score := Dot(b.vector, s.neighborhoods[g].vector);
      && t.homeBuyers[name] == b.(scores := b.scores[s.neighborhoods[g].name := score])
      && (forall x :: x in s.homeBuyers && x != name ==> t.homeBuyers[x] == s.homeBuyers[x])
      && t.neighborhoods[g] == s.neighborhoods[g].(scores := s.neighborhoods[g].scores + [(b.name, score)])
      && (forall h :: h in s.neighborhoods && h != g ==> t.neighborhoods[h] == s.neighborhoods[h])
  {
    var b := s.homeBuyers[name];
    var r := b.CalculateNeighborhoodScore(s.neighborhoods[g]);
    assert r.0 == b.(scores := b.scores[s.neighborhoods[g].name := r.1]);
    assert r.0.name == b.name;
  }

  /** After a successful loop the buyer has, for every preference `p`, the
      product of its vector with `p`'s under key `p`, and its other scores
      are as they were. */
  lemma {:induction false} ScorePreferencesScores(s: State, name: string, prefs: seq<string>)
    requires name in s.homeBuyers
    requires forall g :: g in s.neighborhoods ==> s.neighborhoods[g].name == g
    requires forall p :: p in prefs ==> p in s.neighborhoods
    ensures var b := s.homeBuyers[name];
      var b' := s.ScorePreferences(name, prefs).0.homeBuyers[name];
      && (forall p :: p in b'.scores <==> p in b.scores || p in prefs)
      && (forall p :: p in prefs ==> b'.scores[p] == Dot(b.vector, s.neighborhoods[p].vector))
      && (forall p :: p in b.scores && p !in prefs ==> b'.scores[p] == b.scores[p])
    decreases |prefs|
  {
    if prefs != [] {
      var s1 := s.ScoreOne(name, prefs[0]);
      ScoreOneFacts(s, name, prefs[0]);
      assert forall p :: p in prefs <==> p == prefs[0] || p in prefs[1..];
      ScorePreferencesScores(s1, name, prefs[1..]);
      ScorePreferencesFrame(s1, name, prefs[1..]);
    }
  }

  /** After a successful loop each neighbourhood's scoreboard has gained one
      (buyer name, score) pair per occurrence of the neighbourhood in the
      preferences, at its end. */
  lemma {:induction false} ScorePreferencesScoreboards(s: State, name: string, prefs: seq<string>, g: string)
    requires name in s.homeBuyers && g in s.neighborhoods
    requires forall p :: p in prefs ==> p in s.neighborhoods
    ensures var b := s.homeBuyers[name];
      s.ScorePreferences(name, prefs).0.neighborhoods[g].scores
        == s.neighborhoods[g].scores + Repeat((b.name, Dot(b.vector, s.neighborhoods[g].vector)), Count(prefs, g))
    decreases |prefs|
  {
    if prefs != [] {
      var s1 := s.ScoreOne(name, prefs[0]);
      var b := s.homeBuyers[name];
      var e := (b.name, Dot(b.vector, s.neighborhoods[g].vector));
      ScoreOneFacts(s, name, prefs[0]);
      assert forall p :: p in prefs[1..] ==> p in prefs;
      ScorePreferencesScoreboards(s1, name, prefs[1..], g);
      var n := Count(prefs[1..], g);
      var b1 := s1.homeBuyers[name];
      assert b1.name == b.name && b1.vector == b.vector;
      assert s1.neighborhoods[g].vector == s.neighborhoods[g].vector;
      var rest := s1.ScorePreferences(name, prefs[1..]).0.neighborhoods[g].scores;
      assert rest == s1.neighborhoods[g].scores + Repeat(e, n);
      assert s.ScorePreferences(name, prefs).0 == s1.ScorePreferences(name, prefs[1..]).0;
      if g == prefs[0] {
        assert Count(prefs, g) == 1 + n;
        assert s1.neighborhoods[g].scores == s.neighborhoods[g].scores + [e];
        assert Repeat(e, 1 + n) == [e] + Repeat(e, n);
        assert rest == s.neighborhoods[g].scores + ([e] + Repeat(e, n));
      } else {
        assert Count(prefs, g) == n;
        assert s1.neighborhoods[g].scores == s.neighborhoods[g].scores;
      }
    }
  }

  /** The buyer's `value` after successful scoring: the sum, over its
      preferences, of its product with each preferred neighbourhood. */
  function DotSum(v: Vector, prefs: seq<string>, neighborhoods: map<string, Neighborhood>): int
    requires forall p :: p in prefs ==> p in neighborhoods
    decreases |prefs|
  {
    if prefs == [] then 0
    else Dot(v, neighborhoods[prefs[0]].vector) + DotSum(v, prefs[1..], neighborhoods)
  }

  lemma {:induction false} ScoreSumOfDots(v: Vector, prefs: seq<string>, scores: map<string, int>, neighborhoods: map<string, Neighborhood>)
    requires forall p :: p in prefs ==> p in neighborhoods && p in scores && scores[p] == Dot(v, neighborhoods[p].vector)
    ensures ScoreSum(prefs, scores) == DotSum(v, prefs, neighborhoods)
    decreases |prefs|
  {
    if prefs != [] {
      assert prefs[0] in prefs;
      assert forall p :: p in prefs[1..] ==> p in prefs;
      ScoreSumOfDots(v, prefs[1..], scores, neighborhoods);
    }
  }

  /** One step of the loop of `add_home_buyer`, at preference `i`. */
  lemma ScorePreferencesStep(s: State, name: string, prefs: seq<string>, i: nat)
    requires name in s.homeBuyers && i < |prefs|
    ensures s.ScorePreferences(name, prefs[i..])
      == if prefs[i] !in s.neighborhoods then (s, Some(UnknownNeighborhood(prefs[i])))
         else s.ScoreOne(name, prefs[i]).ScorePreferences(name, prefs[i + 1..])
  {
    assert prefs[i..][1..] == prefs[i + 1..];
  }

  /** `add_home_buyer` always registers the buyer under its name (a new name
      at the end of the dict order) and keeps the registry well formed; it
      fails exactly when a preference is not a registered neighbourhood. */
  lemma AddHomeBuyerRegisters(s: State, b: HomeBuyer)
    requires s.Valid()
    ensures var (t, err) := s.AddHomeBuyer(b);
      && t.Valid()
      && t.homeBuyers.Keys == s.homeBuyers.Keys + {b.name}
      && t.neighborhoods.Keys == s.neighborhoods.Keys
      && t.buyerOrder == (if b.name in s.homeBuyers then s.buyerOrder else s.buyerOrder + [b.name])
      && (err == None <==> forall p :: p in b.preferences ==> p in s.neighborhoods)
  {
    var r := s.Register(b);
    ScorePreferencesSucceeds(r, b.name, b.preferences);
    ScorePreferencesFrame(r, b.name, b.preferences);
    var t := s.AddHomeBuyer(b).0;
    assert forall g :: g in t.neighborhoods ==> t.neighborhoods[g].name == g;
    forall x | x in t.homeBuyers ensures t.homeBuyers[x].name == x {
      if x != b.name { assert t.homeBuyers[x] == r.homeBuyers[x]; }
    }
  }

  /** A successful `add_home_buyer` leaves the registered buyer with one
      score per preferred neighbourhood, the product of the two vectors,
      its earlier scores otherwise untouched, and as `value` the sum of
      those products. */
  lemma AddHomeBuyerScores(s: State, b: HomeBuyer)
    requires s.Valid()
    requires forall p :: p in b.preferences ==> p in s.neighborhoods
    ensures s.AddHomeBuyer(b).1 == None
    ensures var b' := s.AddHomeBuyer(b).0.homeBuyers[b.name];
      && b'.name == b.name && b'.vector == b.vector && b'.preferences == b.preferences
      && (forall p :: p in b'.scores <==> p in b.scores || p in b.preferences)
      && (forall p :: p in b.preferences ==> b'.scores[p] == Dot(b.vector, s.neighborhoods[p].vector))
      && (forall p :: p in b.scores && p !in b.preferences ==> b'.scores[p] == b.scores[p])
      && b'.Value() == DotSum(b.vector, b.preferences, s.neighborhoods)
  {
    var r := s.Register(b);
    ScorePreferencesSucceeds(r, b.name, b.preferences);
    ScorePreferencesFrame(r, b.name, b.preferences);
    ScorePreferencesScores(r, b.name, b.preferences);
    var b' := s.AddHomeBuyer(b).0.homeBuyers[b.name];
    ScoreSumOfDots(b.vector, b.preferences, b'.scores, s.neighborhoods);
  }

  /** A successful `add_home_buyer` appends to each neighbourhood's
      scoreboard one (name, score) pair per mention among the buyer's
      preferences: one for a preferred neighbourhood when the preferences
      do not repeat, none for the others. */
  lemma AddHomeBuyerScoreboards(s: State, b: HomeBuyer, g: string)
    requires forall p :: p in b.preferences ==> p in s.neighborhoods
    requires g in s.neighborhoods
    ensures var scores := s.AddHomeBuyer(b).0.neighborhoods[g].scores;
      var e := (b.name, Dot(b.vector, s.neighborhoods[g].vector));
      && scores == s.neighborhoods[g].scores + Repeat(e, Count(b.preferences, g))
      && (g !in b.preferences ==> scores == s.neighborhoods[g].scores)
      && ((forall i, j :: 0 <= i < j < |b.preferences| ==> b.preferences[i] != b.preferences[j]) && g in b.preferences ==>
            scores == s.neighborhoods[g].scores + [e])
  {
    var r := s.Register(b);
    ScorePreferencesScoreboards(r, b.name, b.preferences, g);
    var e := (b.name, Dot(b.vector, s.neighborhoods[g].vector));
    if g !in b.preferences {
      assert Repeat(e, 0) == [];
    }
    if (forall i, j :: 0 <= i < j < |b.preferences| ==> b.preferences[i] != b.preferences[j]) && g in b.preferences {
      CountDistinct(b.preferences, g);
      assert Repeat(e, 1) == [e];
    }
  }

  /** A failing `add_home_buyer` is not atomic: the buyer stays registered,
      and the preferences before the first unknown one are scored, exactly
      as if the list had ended there. */
  lemma AddHomeBuyerFails(s: State, b: HomeBuyer, j: nat)
    requires j < |b.preferences| && b.preferences[j] !in s.neighborhoods
    requires forall i :: 0 <= i < j ==> b.preferences[i] in s.neighborhoods
    ensures var (t, err) := s.AddHomeBuyer(b);
      && err == Some(UnknownNeighborhood(b.preferences[j]))
      && err.value.Class() == ValueError
      && b.name in t.homeBuyers
      && t == s.Register(b).ScorePreferences(b.name, b.preferences[..j]).0
  {
    ScorePreferencesFails(s.Register(b), b.name, b.preferences, j);
  }

  // ---------------------------------------------------------------------
  // sorted_neighborhoods_scores
  // ---------------------------------------------------------------------

  /** A neighbourhood's sorted board lists each buyer of its scoreboard once,
      at the position of its first (highest ranked) entry, with the score of
      its last entry in that order. When the scoreboard names each buyer
      once, the board is the scoreboard reordered: highest score first, ties
      in scoreboard order. */
  lemma SortedBoard(s: State, g: string)
    requires g in s.neighborhoods
    ensures var board := s.SortedNeighborhoodsScores()[g];
      var sorted := SortDescendingBy(s.neighborhoods[g].scores, ScoreOf);
      && KeysOf(board) == FirstOccurrences(KeysOf(sorted))
      && (forall x :: Lookup(board, x) == LastValue(sorted, x))
      && (DistinctKeys(s.neighborhoods[g].scores) ==>
            && multiset(board) == multiset(s.neighborhoods[g].scores)
            && (forall i, j :: 0 <= i < j < |board| ==> board[i].1 >= board[j].1)
            && (forall v :: WithKey(board, ScoreOf, v) == WithKey(s.neighborhoods[g].scores, ScoreOf, v)))
  {
    var scores := s.neighborhoods[g].scores;
    var sorted := SortDescendingBy(scores, ScoreOf);
    FromPairsKeys(sorted);
    forall x ensures Lookup(FromPairs(sorted), x) == LastValue(sorted, x) {
      FromPairsLookup(sorted, x);
    }
    if DistinctKeys(scores) {
      PermutationKeepsDistinctKeys(scores, sorted);
      FromDistinctPairs(sorted);
      forall v ensures WithKey(sorted, ScoreOf, v) == WithKey(scores, ScoreOf, v) {
        SortDescendingStable(scores, ScoreOf, v);
      }
    }
  }

  /** Reordering pairs keeps their keys distinct. */
  lemma PermutationKeepsDistinctKeys(a: Pairs, b: Pairs)
    requires DistinctKeys(a) && multiset(a) == multiset(b)
    ensures DistinctKeys(b)
  {
    forall i, j | 0 <= i < j < |b| ensures b[i].0 != b[j].0 {
      assert b[i] in multiset(a) && b[j] in multiset(a);
      var i' :| 0 <= i' < |a| && a[i'] == b[i];
      var j' :| 0 <= j' < |a| && a[j'] == b[j];
      if b[i] == b[j] {
        TwiceInMultiset(b, i, j);
        DistinctKeysOccursOnce(a, i');
        assert false;
      }
    }
  }

  lemma TwiceInMultiset(b: Pairs, i: nat, j: nat)
    requires i < j < |b| && b[i] == b[j]
    ensures multiset(b)[b[i]] >= 2
  {
    assert b == b[..i] + [b[i]] + b[i + 1..j] + [b[j]] + b[j + 1..];
  }

  lemma {:induction false} DistinctKeysOccursOnce(a: Pairs, i: nat)
    requires DistinctKeys(a) && i < |a|
    ensures multiset(a)[a[i]] == 1
    decreases |a|
  {
    var e := a[i];
    var t := a[1..];
    assert a == [a[0]] + t;
    DistinctKeysTail(a[0], t);
    if i == 0 {
      assert e !in t;
      assert multiset(a) == multiset{e} + multiset(t);
    } else {
      assert t[i - 1] == e;
      DistinctKeysOccursOnce(t, i - 1);
      assert a[0] != e;
      assert multiset(a) == multiset{a[0]} + multiset(t);
    }
  }
}
