/** `HomeBuyerAssigner` of src/models.py: the registry dicts and
    `assignments` as fields that its methods update in place. Each method
    is proved against the functions of `Registry`, `Allocation` and
    `Projection`. */
module Assigner {
  import opened Wrappers
  import opened Errors
  import opened Entities
  import opened OrderedDicts
  import opened Sorting
  import Text
  import Registry
  import Allocation
  import Projection

  class HomeBuyerAssigner {
    var neighborhoods: map<string, Neighborhood>
    var homeBuyers: map<string, HomeBuyer>
    /** The insertion order of the `home_buyers` dict. */
    var buyerOrder: seq<string>
    var assignments: map<string, seq<HomeBuyer>>

    /** The registry content of this assigner. */
    function State(): Registry.State
      reads this`neighborhoods, this`homeBuyers, this`buyerOrder
    {
      Registry.State(neighborhoods, homeBuyers, buyerOrder)
    }

    /** Every record is stored under its own name and `buyerOrder` lists
        each registered buyer once; every method keeps this. */
    ghost predicate Valid()
      reads this`neighborhoods, this`homeBuyers, this`buyerOrder
    {
      State().Valid()
    }

    /** The context a run of the allocation works in, with the boards it
        was given. */
    function ContextWith(boards: map<string, Pairs>): Allocation.Context
      reads this`neighborhoods, this`homeBuyers, this`buyerOrder
    {
      Allocation.Context(homeBuyers, boards, State().BuyersPerNeighborhood())
    }

    /** `__init__`: no neighbourhood, no buyer, nothing assigned. */
    constructor()
      ensures Valid() && State() == Registry.Empty() && assignments == map[]
    {
      neighborhoods := map[];
      homeBuyers := map[];
      buyerOrder := [];
      assignments := map[];
    }

    /** `add_neighborhood` */
    method AddNeighborhood(n: Neighborhood)
      modifies this`neighborhoods
      requires Valid()
      ensures Valid() && State() == old(State()).AddNeighborhood(n)
      ensures assignments == old(assignments)
    {
      neighborhoods := neighborhoods[n.name := n];
    }

    /** `add_home_buyer`: registers the buyer, then scores it against each
        preference in turn and appends the score to that neighbourhood's
        scoreboard; an unknown preference stops the loop with a ValueError
        and leaves the work done so far in place. */
    method AddHomeBuyer(b: HomeBuyer) returns (err: Option<Error>)
      modifies this`homeBuyers, this`neighborhoods, this`buyerOrder
      requires Valid()
      ensures (State(), err) == old(State()).AddHomeBuyer(b)
      ensures Valid() && assignments == old(assignments)
    {
      Registry.AddHomeBuyerRegisters(State(), b);
      if b.name !in homeBuyers {
        buyerOrder := buyerOrder + [b.name];
      }
      homeBuyers := homeBuyers[b.name := b];
      assert State() == old(State()).Register(b);
      err := ScorePreferences(b.name, b.preferences);
    }

    /** The `for` loop of `add_home_buyer` over the preferences of the
        buyer registered under `name`. */
    method ScorePreferences(name: string, prefs: seq<string>) returns (err: Option<Error>)
      modifies this`homeBuyers, this`neighborhoods
      requires name in homeBuyers
      ensures (State(), err) == old(State()).ScorePreferences(name, prefs)
    {
      ghost var target := State().ScorePreferences(name, prefs);
      var i := 0;
      assert prefs[i..] == prefs;
      while i < |prefs|
        invariant 0 <= i <= |prefs|
        invariant name in homeBuyers
        invariant target == State().ScorePreferences(name, prefs[i..])
      {
        var g := prefs[i];
        ghost var current := State();
        Registry.ScorePreferencesStep(current, name, prefs, i);
        if g !in neighborhoods {
          return Some(UnknownNeighborhood(g));
        }
        var (scored, score) := homeBuyers[name].CalculateNeighborhoodScore(neighborhoods[g]);
        homeBuyers := homeBuyers[name := scored];
        neighborhoods := neighborhoods[g := neighborhoods[g].AddScore((scored.name, score))];
        assert State() == current.ScoreOne(name, g);
        i := i + 1;
      }
      assert prefs[i..] == [];
      return None;
    }

    /** `get_first_buyers_scores_for_neighborhood` for the neighbourhood
        named `g`: the capacity left there is computed first (raising when
        `buyers_per_neighborhood` raises), then the board is scanned in
        order, collecting the entries of remaining buyers with their
        scores, until as many were collected as the capacity left. */
    method GetFirstBuyersScoresForNeighborhood(g: string, sortedScores: Pairs, remaining: seq<string>) returns (r: Result<Pairs, Error>)
      requires DistinctKeys(sortedScores)
      ensures State().BuyersPerNeighborhood().Err? ==> r == Err(State().BuyersPerNeighborhood().error)
      ensures State().BuyersPerNeighborhood().Ok? ==>
        r == Ok(Allocation.FirstBuyers(sortedScores, remaining, State().BuyersPerNeighborhood().value - |Allocation.AssignedTo(assignments, g)|))
    {
      var capacity := State().BuyersPerNeighborhood();
      if capacity.Err? {
        return Err(capacity.error);
      }
      var limit := capacity.value - |Allocation.AssignedTo(assignments, g)|;
      var first := FirstScores(sortedScores, remaining, limit);
      return Ok(first);
    }

    /** `assign_home_buyers`: clears the assignments and runs the rounds on
        the buyers in `sorted_home_buyers` order against
        `sorted_neighborhoods_scores`. On a registry whose records are
        stored under their names, every placement follows the rules, a run
        without an exception places every buyer once and, with a capacity,
        fills every neighbourhood to it. */
    method AssignHomeBuyers() returns (err: Option<Error>)
      requires Valid()
      modifies this`assignments
      ensures Valid() && State() == old(State())
      ensures var o := Allocation.AssignAll(Allocation.ContextOf(State()), State().SortedHomeBuyers());
        assignments == o.state.assignments && err == o.failure
      ensures Allocation.Placement(Allocation.ContextOf(State()), assignments)
      ensures err.None? ==> Allocation.Placed(assignments) == multiset(buyerOrder)
      ensures err.None? && State().BuyersPerNeighborhood().Ok? ==>
        forall g :: g in neighborhoods ==> |Allocation.AssignedTo(assignments, g)| == State().BuyersPerNeighborhood().value
    {
      var s := State();
      assignments := map[];
      var toAssign := s.SortedHomeBuyers();
      var boards := s.SortedNeighborhoodsScores();
      Allocation.AssignHomeBuyersOnRegistry(s, s.BuyersPerNeighborhood());
      assert ContextWith(boards) == Allocation.ContextOf(s) == Allocation.ContextOn(s, s.BuyersPerNeighborhood());
      var left;
      err, left := RecursiveHomeBuyersNeighborhoodsMatch(toAssign, boards, 0);
    }


    /** `recursive_home_buyers_neighborhoods_match`, its tail call written
        as the outer loop: a round visits the buyers remaining at its start
        from last to first, each against the live list; the preference
        index moves on after a round that admitted nobody, and the run
        stops once no buyer remains. The list passed in is consumed as in
        Python: what is left of it is returned. */
    method RecursiveHomeBuyersNeighborhoodsMatch(toAssign: seq<string>, boards: map<string, Pairs>, index: nat)
      returns (err: Option<Error>, left: seq<string>)
      requires forall x :: x in toAssign ==> x in homeBuyers
      requires forall g :: g in boards ==> DistinctKeys(boards[g])
      modifies this`assignments
      ensures var o := Allocation.Allocate(ContextWith(boards), old(assignments), toAssign, index);
        assignments == o.state.assignments && left == o.state.remaining && err == o.failure
    {
      var ctx := ContextWith(boards);
      ghost var target := Allocation.Allocate(ctx, assignments, toAssign, index);
      var remaining := toAssign;
      var k: nat := index;
      while true
        invariant ctx == ContextWith(boards)
        invariant forall x :: x in remaining ==> x in ctx.buyers
        invariant target == Allocation.Allocate(ctx, assignments, remaining, k)
        decreases |remaining|, var m := Allocation.MaxPreferences(ctx, remaining); if k <= m then m - k else 0
      {
        if remaining == [] {
          return None, remaining;
        }
        Allocation.AllocateStep(ctx, assignments, remaining, k);
        ghost var o := Allocation.Round(ctx, Allocation.RoundState(assignments, remaining, 0), remaining, k);
        ghost var m := Allocation.MaxPreferences(ctx, remaining);
        var admitted;
        err, remaining, admitted := VisitRound(ctx, boards, remaining, k);
        assert Allocation.RoundState(assignments, remaining, admitted) == o.state && err == o.failure;
        if err.Some? {
          return err, remaining;
        }
        if admitted == 0 {
          assert k < m == Allocation.MaxPreferences(ctx, remaining);
        }
        k := if admitted == 0 then k + 1 else k;
        if remaining == [] {
          return None, remaining;
        }
      }
    }

    /** One pass of the `for` loop over `reversed(home_buyers_to_assign)`:
        each buyer of the round's start, last to first, is looked up at
        preference `k`, and admitted when its score in the slice is truthy
        and the neighbourhood has room; an exception ends the pass. */
    method VisitRound(ctx: Allocation.Context, boards: map<string, Pairs>, roundStart: seq<string>, k: nat)
      returns (err: Option<Error>, remaining: seq<string>, admitted: nat)
      requires ctx == ContextWith(boards)
      requires forall x :: x in roundStart ==> x in homeBuyers
      requires forall g :: g in boards ==> DistinctKeys(boards[g])
      modifies this`assignments
      ensures ctx == ContextWith(boards)
      ensures var o := Allocation.Round(ctx, Allocation.RoundState(old(assignments), roundStart, 0), roundStart, k);
        assignments == o.state.assignments && remaining == o.state.remaining && admitted == o.state.admitted && err == o.failure
    {
      ghost var start := Allocation.RoundState(assignments, roundStart, 0);
      ghost var whole := Allocation.Round(ctx, start, roundStart, k);
      remaining := roundStart;
      admitted := 0;
      var i := |roundStart|;
      assert roundStart[..i] == roundStart;
      while i > 0
        invariant 0 <= i <= |roundStart|
        invariant ctx == ContextWith(boards)
        invariant whole == Allocation.Round(ctx, Allocation.RoundState(assignments, remaining, admitted), roundStart[..i], k)
        decreases i
      {
        var name := roundStart[i - 1];
        Allocation.RoundLast(ctx, Allocation.RoundState(assignments, remaining, admitted), roundStart, i, k);
        err, remaining, admitted := VisitBuyer(ctx, boards, name, k, remaining, admitted);
        if err.Some? {
          return;
        }
        i := i - 1;
      }
      assert roundStart[..0] == [];
      return None, remaining, admitted;
    }

    /** The body of that loop for the buyer `name`. */
    method VisitBuyer(ctx: Allocation.Context, boards: map<string, Pairs>, name: string, k: nat, remaining: seq<string>, admitted: nat)
      returns (err: Option<Error>, remaining': seq<string>, admitted': nat)
      requires ctx == ContextWith(boards)
      requires name in homeBuyers
      requires forall g :: g in boards ==> DistinctKeys(boards[g])
      modifies this`assignments
      ensures ctx == ContextWith(boards)
      ensures var o := Allocation.Visit(ctx, Allocation.RoundState(old(assignments), remaining, admitted), name, k);
        assignments == o.state.assignments && remaining' == o.state.remaining && admitted' == o.state.admitted && err == o.failure
    {
      ghost var current := Allocation.RoundState(assignments, remaining, admitted);
      remaining', admitted' := remaining, admitted;
      var b := homeBuyers[name];
      if k >= |b.preferences| {
        assert Allocation.Visit(ctx, current, name, k) == Allocation.Outcome(current, Some(PreferenceIndex(name, k)));
        return Some(PreferenceIndex(name, k)), remaining', admitted';
      }
      var g := b.preferences[k];
      var first := GetFirstBuyersScoresForNeighborhood(g, Allocation.BoardOf(ctx, g), remaining);
      if first.Err? {
        assert Allocation.Visit(ctx, current, name, k) == Allocation.Outcome(current, Some(first.error));
        return Some(first.error), remaining', admitted';
      }
      var held := Allocation.AssignedTo(assignments, g);
      Allocation.VisitOnSlice(ctx, current, name, k, first.value);
      if Allocation.Truthy(Lookup(first.value, name)) && |held| < ctx.capacity.value {
        assignments := assignments[g := held + [b]];
        remaining' := Allocation.Remove(remaining, name);
        admitted' := admitted + 1;
      }
      return None, remaining', admitted';
    }

    /** `format_results`: for every neighbourhood in name order, its name
        and each of its buyers in `sorted_assignments` order with its score,
        the lines joined by newlines. */
    method FormatResults() returns (text: string)
      ensures text == Projection.FormatResults(assignments)
    {
      text := FormatAssignments(assignments);
    }

  }

  /** The line `format_results` builds for neighbourhood `g`: the name and
      `": "`, then one entry and a space per buyer. */
  method FormatLine(g: string, buyers: seq<HomeBuyer>) returns (line: string)
    ensures line == Projection.FormatLine(g, buyers)
  {
    line := g + ": ";
    var j := 0;
    assert buyers[..j] == [];
    while j < |buyers|
      invariant 0 <= j <= |buyers|
      invariant line == Projection.FormatLine(g, buyers[..j])
    {
      ghost var done := buyers[..j];
      Projection.FormatLineAppend(g, done, buyers[j]);
      line := line + Projection.Entry(buyers[j], g) + " ";
      j := j + 1;
      assert buyers[..j] == done + [buyers[j - 1]];
    }
    assert buyers[..j] == buyers;
  }

  /** The body of `format_results`, on the assignments it reads. */
  method FormatAssignments(assignments: map<string, seq<HomeBuyer>>) returns (text: string)
    ensures text == Projection.FormatResults(assignments)
  {
    var sorted := Projection.SortedAssignments(assignments);
    var names := SortedNames(sorted.Keys);
    var lines := FormatLines(names, sorted);
    Projection.ResultLinesAre(assignments, lines);
    text := Text.Join(lines, '\n');
  }

  /** The loop of `format_results` over the neighbourhood names. */
  method FormatLines(names: seq<string>, sorted: map<string, seq<HomeBuyer>>) returns (lines: seq<string>)
    requires forall x :: x in names ==> x in sorted
    ensures |lines| == |names|
    ensures forall i :: 0 <= i < |names| ==> lines[i] == Projection.FormatLine(names[i], sorted[names[i]])
  {
    lines := [];
    var i := 0;
    while i < |names|
      invariant 0 <= i <= |names| && |lines| == i
      invariant forall k :: 0 <= k < i ==> lines[k] == Projection.FormatLine(names[k], sorted[names[k]])
    {
      var line := FormatLine(names[i], sorted[names[i]]);
      lines := lines + [line];
      i := i + 1;
    }
  }

  /** The scan followed by `OrderedDict(scores)`: the collected entries have
      distinct keys, so the dict keeps them as they are. */
  method FirstScores(sortedScores: Pairs, remaining: seq<string>, limit: int) returns (first: Pairs)
    requires DistinctKeys(sortedScores)
    ensures first == Allocation.FirstBuyers(sortedScores, remaining, limit)
  {
    var scores := CollectFirst(sortedScores, remaining, limit);
    Allocation.FirstBuyersFacts(sortedScores, remaining, limit);
    FromDistinctPairs(scores);
    first := FromPairs(scores);
  }

  /** The loop of `get_first_buyers_scores_for_neighborhood`: scans the
      board in order, collecting the entries of remaining buyers with their
      scores (`sorted_scores.get(name, 0)`), and breaks as soon as the
      count collected reaches `limit`. */
  method CollectFirst(sortedScores: Pairs, remaining: seq<string>, limit: int) returns (scores: Pairs)
    requires DistinctKeys(sortedScores)
    ensures scores == Allocation.FirstBuyers(sortedScores, remaining, limit)
  {
    ghost var whole := Allocation.FirstBuyers(sortedScores, remaining, limit);
    scores := [];
    var counter := 0;
    var i := 0;
    while i < |sortedScores|
      invariant 0 <= i <= |sortedScores|
      invariant counter == |scores|
      invariant whole == scores + Allocation.FirstBuyers(sortedScores[i..], remaining, limit - counter)
      decreases |sortedScores| - i
    {
      var name := sortedScores[i].0;
      Allocation.FirstBuyersStep(whole, sortedScores, remaining, limit, i, scores);
      if name in remaining {
        var v := Lookup(sortedScores, name);
        LookupItem(sortedScores, i);
        scores := scores + [(name, if v.Some? then v.value else 0)];
        counter := counter + 1;
      }
      if counter >= limit {
        break;
      }
      i := i + 1;
    }
    assert i == |sortedScores| ==> sortedScores[i..] == [];
  }
}
