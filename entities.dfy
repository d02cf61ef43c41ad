/** The two entities: `Neighborhood` with its scoreboard and `HomeBuyer`
    with its preferences and its scores. */
module Entities {
  import opened Scoring

  /** A neighbourhood: its name, its vector and its scoreboard, the
      (home buyer name, score) pairs in the order they were added. */
  datatype Neighborhood = Neighborhood(name: string, vector: Vector, scores: seq<(string, int)>)
  {
    /** `add_score`: appends one pair to the scoreboard and changes nothing else. */
    function AddScore(score: (string, int)): (n: Neighborhood)
      ensures n.name == name && n.vector == vector
      ensures n.scores == scores + [score]
    {
      this.(scores := scores + [score])
    }
  }

  /** A home buyer: its name, its vector, its preferred neighbourhood names
      from most to least preferred, and the scores computed so far, by
      neighbourhood name. */
  datatype HomeBuyer = HomeBuyer(name: string, vector: Vector, preferences: seq<string>, scores: map<string, int>)
  {
    /** `calculate_neighborhood_score`: the product of the buyer with the
        neighbourhood, which is also stored under the neighbourhood's name. */
    function CalculateNeighborhoodScore(n: Neighborhood): (r: (HomeBuyer, int))
      ensures r.1 == Dot(vector, n.vector)
      ensures r.0.name == name && r.0.vector == vector && r.0.preferences == preferences
      ensures r.0.scores.Keys == scores.Keys + {n.name} && r.0.scores[n.name] == r.1
      ensures forall p :: p in scores && p != n.name ==> r.0.scores[p] == scores[p]
    {
      var score := Dot(vector, n.vector);
      (this.(scores := scores[n.name := score]), score)
    }

    /** The `value` property: the sum of the buyer's scores over its
        preferences, 0 for a preference not scored yet. */
    function Value(): int
    {
      ScoreSum(preferences, scores)
    }
  }

  /** `scores.get(p, 0)` */
  function ScoreOrZero(scores: map<string, int>, p: string): int
  {
    if p in scores then scores[p] else 0
  }

  /** `sum(scores.get(p, 0) for p in prefs)` */
  function ScoreSum(prefs: seq<string>, scores: map<string, int>): int
    decreases |prefs|
  {
    if prefs == [] then 0 else ScoreOrZero(scores, prefs[0]) + ScoreSum(prefs[1..], scores)
  }

  /** The sum only looks at the scores of the listed preferences. */
  lemma {:induction false} ScoreSumDependsOnPreferencesOnly(prefs: seq<string>, s1: map<string, int>, s2: map<string, int>)
    requires forall p :: p in prefs ==> ScoreOrZero(s1, p) == ScoreOrZero(s2, p)
    ensures ScoreSum(prefs, s1) == ScoreSum(prefs, s2)
    decreases |prefs|
  {
    if prefs != [] {
      assert prefs[0] in prefs;
      ScoreSumDependsOnPreferencesOnly(prefs[1..], s1, s2);
    }
  }

  /** Before any score is computed the buyer's value is 0. */
  lemma {:induction false} ValueWithoutScores(b: HomeBuyer)
    requires forall p :: p in b.preferences ==> p !in b.scores
    ensures b.Value() == 0
  {
    ScoreSumDependsOnPreferencesOnly(b.preferences, b.scores, map[]);
    ScoreSumOfNothing(b.preferences);
  }

  lemma {:induction false} ScoreSumOfNothing(prefs: seq<string>)
    ensures ScoreSum(prefs, map[]) == 0
    decreases |prefs|
  {
    if prefs != [] { ScoreSumOfNothing(prefs[1..]); }
  }

  /** A buyer with a single preference, once scored against that
      neighbourhood, has the product of the two as its value. */
  lemma ValueOfSinglePreference(b: HomeBuyer, n: Neighborhood)
    requires b.preferences == [n.name]
    ensures b.CalculateNeighborhoodScore(n).0.Value() == Dot(b.vector, n.vector)
  {
    var b' := b.CalculateNeighborhoodScore(n).0;
    assert b'.preferences[1..] == [];
    assert ScoreOrZero(b'.scores, n.name) == Dot(b.vector, n.vector);
    assert b'.Value() == ScoreOrZero(b'.scores, n.name) + ScoreSum([], b'.scores);
  }
}
