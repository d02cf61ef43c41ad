/** models.py, the older iterative twin of the engine: the same registry,
    a `buyers_per_neighborhood` without the empty-registry guard, and
    `assign_home_buyers` as a `while` loop over rounds with a preference
    counter; plus the free functions `get_first_elements` and
    `input_parser`. The parse functions of models.py are those of the
    `Parser` class of src/utils.py under other names. */
module Legacy {
  import opened Wrappers
  import opened Errors
  import opened Entities
  import opened OrderedDicts
  import opened Text
  import Registry
  import Allocation
  import Assigner
  import Projection
  import Utils

  /** `buyers_per_neighborhood` of models.py on the two counts: the
      division comes first, so no neighbourhood is a ZeroDivisionError; a
      count of buyers that the count of neighbourhoods does not divide is a
      ValueError; otherwise the exact quotient. */
  function Capacity(buyers: nat, neighborhoods: nat): (r: Result<nat, Error>)
    ensures neighborhoods == 0 <==> r == Err(DivisionByZero)
    ensures neighborhoods != 0 && buyers % neighborhoods != 0 <==> r == Err(NotDivisible(buyers, neighborhoods, ValueError))
    ensures r.Ok? ==> r.value * neighborhoods == buyers
  {
    if neighborhoods == 0 then Err(DivisionByZero)
    else if buyers % neighborhoods != 0 then Err(NotDivisible(buyers, neighborhoods, ValueError))
    else Ok(buyers / neighborhoods)
  }

  /** The two versions give the same quotient and fail on the same counts,
      but each failure surfaces as another exception class: ZeroDivisionError
      where src/models.py raises ValueError("No neighborhoods added"), and
      ValueError where it raises ArithmeticError. */
  lemma CapacityAgainstSource(buyers: nat, neighborhoods: nat)
    ensures Capacity(buyers, neighborhoods).Ok? <==> Registry.Capacity(buyers, neighborhoods).Ok?
    ensures Capacity(buyers, neighborhoods).Ok? ==> Capacity(buyers, neighborhoods) == Registry.Capacity(buyers, neighborhoods)
    ensures Capacity(buyers, neighborhoods).Err? ==>
      Capacity(buyers, neighborhoods).error.Class() != Registry.Capacity(buyers, neighborhoods).error.Class()
  {
  }

  /** `HomeBuyerAssigner` of models.py. */
  class HomeBuyerAssigner {
    var neighborhoods: map<string, Neighborhood>
    var homeBuyers: map<string, HomeBuyer>
    /** The insertion order of the `home_buyers` dict. */
    var buyerOrder: seq<string>
    var assignments: map<string, seq<HomeBuyer>>

    /** The registry content of this assigner. */
    function State(): Registry.State
      reads this`neighborhoods, this`homeBuyers, this`buyerOrder
    {
      Registry.State(neighborhoods, homeBuyers, buyerOrder)
    }

    /** Every record is stored under its own name and `buyerOrder` lists
        each registered buyer once; every method keeps this. */
    ghost predicate Valid()
      reads this`neighborhoods, this`homeBuyers, this`buyerOrder
    {
      State().Valid()
    }

    /** `buyers_per_neighborhood` */
    function BuyersPerNeighborhood(): Result<nat, Error>
      reads this`neighborhoods, this`homeBuyers
    {
      Capacity(|homeBuyers|, |neighborhoods|)
    }

    /** The context a run of the allocation works in, with the boards it
        was given. */
    function ContextWith(boards: map<string, Pairs>): Allocation.Context
      reads this`neighborhoods, this`homeBuyers
    {
      Allocation.Context(homeBuyers, boards, BuyersPerNeighborhood())
    }

    /** `__init__`: no neighbourhood, no buyer, nothing assigned. */
    constructor()
      ensures Valid() && State() == Registry.Empty() && assignments == map[]
    {
      neighborhoods := map[];
      homeBuyers := map[];
      buyerOrder := [];
      assignments := map[];
    }

    /** `add_neighborhood` */
    method AddNeighborhood(n: Neighborhood)
      modifies this`neighborhoods
      requires Valid()
      ensures Valid() && State() == old(State()).AddNeighborhood(n)
    {
      neighborhoods := neighborhoods[n.name := n];
    }

    /** `add_home_buyer`: registers the buyer, then, preference by
        preference, computes `calculate_qualifications` against that
        neighbourhood and appends the score to its scoreboard; an unknown
        preference raises and leaves the work done so far in place. */
    method AddHomeBuyer(b: HomeBuyer) returns (err: Option<Error>)
      modifies this`homeBuyers, this`neighborhoods, this`buyerOrder
      requires Valid()
      ensures (State(), err) == old(State()).AddHomeBuyer(b)
      ensures Valid()
    {
      Registry.AddHomeBuyerRegisters(State(), b);
      if b.name !in homeBuyers {
        buyerOrder := buyerOrder + [b.name];
      }
      homeBuyers := homeBuyers[b.name := b];
      assert State() == old(State()).Register(b);
      err := ScorePreferences(b.name, b.preferences);
    }

    /** The `for` loop of `add_home_buyer` over the preferences of the
        buyer registered under `name`. */
    method ScorePreferences(name: string, prefs: seq<string>) returns (err: Option<Error>)
      modifies this`homeBuyers, this`neighborhoods
      requires name in homeBuyers
      ensures (State(), err) == old(State()).ScorePreferences(name, prefs)
    {
      ghost var target := State().ScorePreferences(name, prefs);
      var i := 0;
      assert prefs[i..] == prefs;
      while i < |prefs|
        invariant 0 <= i <= |prefs|
        invariant name in homeBuyers
        invariant target == State().ScorePreferences(name, prefs[i..])
      {
        var g := prefs[i];
        ghost var current := State();
        Registry.ScorePreferencesStep(current, name, prefs, i);
        if g !in neighborhoods {
          return Some(UnknownNeighborhood(g));
        }
        var (scored, score) := homeBuyers[name].CalculateNeighborhoodScore(neighborhoods[g]);
        homeBuyers := homeBuyers[name := scored];
        neighborhoods := neighborhoods[g := neighborhoods[g].AddScore((scored.name, score))];
        assert State() == current.ScoreOne(name, g);
        i := i + 1;
      }
      assert prefs[i..] == [];
      return None;
    }

    /** `get_first_buyers_scores_for_neighborhood` for the neighbourhood
        named `g`, as in src/models.py but with this class's capacity. */
    method GetFirstBuyersScoresForNeighborhood(g: string, sortedScores: Pairs, remaining: seq<string>) returns (r: Result<Pairs, Error>)
      requires DistinctKeys(sortedScores)
      ensures BuyersPerNeighborhood().Err? ==> r == Err(BuyersPerNeighborhood().error)
      ensures BuyersPerNeighborhood().Ok? ==>
        r == Ok(Allocation.FirstBuyers(sortedScores, remaining, BuyersPerNeighborhood().value - |Allocation.AssignedTo(assignments, g)|))
    {
      var capacity := BuyersPerNeighborhood();
      if capacity.Err? {
        return Err(capacity.error);
      }
      var limit := capacity.value - |Allocation.AssignedTo(assignments, g)|;
      var first := Assigner.FirstScores(sortedScores, remaining, limit);
      return Ok(first);
    }

    /** `assign_home_buyers`: clears the assignments, then, while buyers
        remain, runs a round over them from the last to the first against
        preference `counter`, and moves `counter` on only after a round
        that admitted nobody. It computes the same as the recursion of
        src/models.py with this class's capacity, so the guarantees proved
        for that allocation hold here too. */
    method AssignHomeBuyers() returns (err: Option<Error>)
      requires Valid()
      modifies this`assignments
      ensures Valid() && State() == old(State())
      ensures var o := Allocation.AssignAll(Allocation.ContextOn(State(), BuyersPerNeighborhood()), State().SortedHomeBuyers());
        assignments == o.state.assignments && err == o.failure
      ensures Allocation.Placement(Allocation.ContextOn(State(), BuyersPerNeighborhood()), assignments)
      ensures err.None? ==> Allocation.Placed(assignments) == multiset(buyerOrder)
      ensures err.None? && BuyersPerNeighborhood().Ok? ==>
        forall g :: g in neighborhoods ==> |Allocation.AssignedTo(assignments, g)| == BuyersPerNeighborhood().value
    {
      assignments := map[];
      var counter: nat := 0;
      var s := State();
      var toAssign := s.SortedHomeBuyers();
      var boards := s.SortedNeighborhoodsScores();
      var ctx := ContextWith(boards);
      Allocation.AssignHomeBuyersOnRegistry(s, BuyersPerNeighborhood());
      assert ctx == Allocation.ContextOn(s, BuyersPerNeighborhood());
      ghost var target := Allocation.Allocate(ctx, assignments, toAssign, counter);
      while |toAssign| > 0
        invariant ctx == ContextWith(boards)
        invariant forall x :: x in toAssign ==> x in ctx.buyers
        invariant target == Allocation.Allocate(ctx, assignments, toAssign, counter)
        decreases |toAssign|, var m := Allocation.MaxPreferences(ctx, toAssign); if counter <= m then m - counter else 0
      {
        Allocation.AllocateStep(ctx, assignments, toAssign, counter);
        ghost var o := Allocation.Round(ctx, Allocation.RoundState(assignments, toAssign, 0), toAssign, counter);
        ghost var m := Allocation.MaxPreferences(ctx, toAssign);
        var buyersAssigned;
        err, toAssign, buyersAssigned := VisitRound(ctx, boards, toAssign, counter);
        assert Allocation.RoundState(assignments, toAssign, buyersAssigned) == o.state && err == o.failure;
        if err.Some? {
          return;
        }
        if buyersAssigned == 0 {
          assert counter < m == Allocation.MaxPreferences(ctx, toAssign);
        }
        counter := if buyersAssigned == 0 then counter + 1 else counter;
      }
      return None;
    }

    /** The `for` loop of `assign_home_buyers` over
        `reversed(home_buyers_to_be_assigned)`: each buyer of the round's
        start, last to first, is looked up at preference `k` and admitted
        when its score in the slice is truthy and the neighbourhood has
        room; an exception ends the pass. */
    method VisitRound(ctx: Allocation.Context, boards: map<string, Pairs>, roundStart: seq<string>, k: nat)
      returns (err: Option<Error>, remaining: seq<string>, admitted: nat)
      requires ctx == ContextWith(boards)
      requires forall x :: x in roundStart ==> x in homeBuyers
      requires forall g :: g in boards ==> DistinctKeys(boards[g])
      modifies this`assignments
      ensures var o := Allocation.Round(ctx, Allocation.RoundState(old(assignments), roundStart, 0), roundStart, k);
        assignments == o.state.assignments && remaining == o.state.remaining && admitted == o.state.admitted && err == o.failure
    {
      ghost var whole := Allocation.Round(ctx, Allocation.RoundState(assignments, roundStart, 0), roundStart, k);
      remaining := roundStart;
      admitted := 0;
      var i := |roundStart|;
      assert roundStart[..i] == roundStart;
      while i > 0
        invariant 0 <= i <= |roundStart|
        invariant whole == Allocation.Round(ctx, Allocation.RoundState(assignments, remaining, admitted), roundStart[..i], k)
        decreases i
      {
        var name := roundStart[i - 1];
        Allocation.RoundLast(ctx, Allocation.RoundState(assignments, remaining, admitted), roundStart, i, k);
        err, remaining, admitted := VisitBuyer(ctx, boards, name, k, remaining, admitted);
        if err.Some? {
          return;
        }
        i := i - 1;
      }
      assert roundStart[..0] == [];
      return None, remaining, admitted;
    }

    /** The body of that loop for the buyer `name`. */
    method VisitBuyer(ctx: Allocation.Context, boards: map<string, Pairs>, name: string, k: nat, remaining: seq<string>, admitted: nat)
      returns (err: Option<Error>, remaining': seq<string>, admitted': nat)
      requires ctx == ContextWith(boards)
      requires name in homeBuyers
      requires forall g :: g in boards ==> DistinctKeys(boards[g])
      modifies this`assignments
      ensures var o := Allocation.Visit(ctx, Allocation.RoundState(old(assignments), remaining, admitted), name, k);
        assignments == o.state.assignments && remaining' == o.state.remaining && admitted' == o.state.admitted && err == o.failure
    {
      ghost var current := Allocation.RoundState(assignments, remaining, admitted);
      remaining', admitted' := remaining, admitted;
      var b := homeBuyers[name];
      if k >= |b.preferences| {
        assert Allocation.Visit(ctx, current, name, k) == Allocation.Outcome(current, Some(PreferenceIndex(name, k)));
        return Some(PreferenceIndex(name, k)), remaining', admitted';
      }
      var g := b.preferences[k];
      var first := GetFirstBuyersScoresForNeighborhood(g, Allocation.BoardOf(ctx, g), remaining);
      if first.Err? {
        assert Allocation.Visit(ctx, current, name, k) == Allocation.Outcome(current, Some(first.error));
        return Some(first.error), remaining', admitted';
      }
      var held := Allocation.AssignedTo(assignments, g);
      Allocation.VisitOnSlice(ctx, current, name, k, first.value);
      if Allocation.Truthy(Lookup(first.value, name)) && |held| < ctx.capacity.value {
        assignments := assignments[g := held + [b]];
        remaining' := Allocation.Remove(remaining, name);
        admitted' := admitted + 1;
      }
      return None, remaining', admitted';
    }

    /** `print_results`: the text of `format_results` in src/models.py. */
    method PrintResults() returns (text: string)
      ensures text == Projection.FormatResults(assignments)
    {
      text := Assigner.FormatAssignments(assignments);
    }
  }

  // ---------------------------------------------------------------------
  // get_first_elements
  // ---------------------------------------------------------------------

  /** The entries `get_first_elements(scores, number, wanted)` returns:
      scanning in order, an entry whose key is in `wanted` (`include` in
      models.py) is taken, and the scan stops as soon as the count taken
      equals `number`. Here
      `number` counts down what is still to take. The test follows every
      entry and is an equality, so it fires before anything is taken when
      `number` is 0 and the first key is not included, and never fires
      when `number` is negative. */
  function FirstElements(scores: Pairs, number: int, wanted: seq<string>): Pairs
    decreases |scores|
  {
    if scores == [] then []
    else
      var hit := scores[0].0 in wanted;
      var taken := if hit then [scores[0]] else [];
      var number' := if hit then number - 1 else number;
      if number' == 0 then taken
      else taken + FirstElements(scores[1..], number', wanted)
  }

  /** The entries of `scores` whose key is in `wanted` (`include` in models.py), in order. */
  function Included(scores: Pairs, wanted: seq<string>): (r: Pairs)
    ensures |r| <= |scores|
    decreases |scores|
  {
    if scores == [] then []
    else (if scores[0].0 in wanted then [scores[0]] else []) + Included(scores[1..], wanted)
  }

  /** An entry is included exactly when it is an entry of `scores` whose
      key is in `wanted` (`include` in models.py). */
  lemma {:induction false} IncludedElements(scores: Pairs, wanted: seq<string>)
    ensures forall p :: p in Included(scores, wanted) <==> p in scores && p.0 in wanted
    decreases |scores|
  {
    if scores != [] {
      IncludedElements(scores[1..], wanted);
      assert scores == [scores[0]] + scores[1..];
    }
  }

  /** With `number >= 1`: the first `number` included entries, or all of
      them when there are fewer. */
  lemma {:induction false} FirstElementsTakes(scores: Pairs, number: int, wanted: seq<string>)
    requires number >= 1
    ensures var all := Included(scores, wanted);
      FirstElements(scores, number, wanted) == if number <= |all| then all[..number] else all
    decreases |scores|
  {
    if scores != [] {
      var all := Included(scores, wanted);
      var rest := Included(scores[1..], wanted);
      if scores[0].0 in wanted {
        assert all == [scores[0]] + rest;
        if number > 1 {
          FirstElementsTakes(scores[1..], number - 1, wanted);
          if number <= |all| {
            assert all[..number] == [scores[0]] + rest[..number - 1];
          }
        } else {
          assert all[..number] == [scores[0]];
        }
      } else {
        assert all == rest;
        FirstElementsTakes(scores[1..], number, wanted);
      }
    }
  }

  /** With a negative `number` the count never equals it: every included
      entry. */
  lemma {:induction false} FirstElementsNegative(scores: Pairs, number: int, wanted: seq<string>)
    requires number < 0
    ensures FirstElements(scores, number, wanted) == Included(scores, wanted)
    decreases |scores|
  {
    if scores != [] {
      FirstElementsNegative(scores[1..], if scores[0].0 in wanted then number - 1 else number, wanted);
    }
  }

  /** With `number == 0`: nothing when the first key is not included (the
      count, still 0, equals `number` at once), and otherwise every
      included entry, since the count has passed 0 for good. */
  lemma FirstElementsZero(scores: Pairs, wanted: seq<string>)
    ensures FirstElements(scores, 0, wanted) ==
      if scores != [] && scores[0].0 !in wanted then [] else Included(scores, wanted)
  {
    if scores != [] && scores[0].0 in wanted {
      FirstElementsNegative(scores[1..], -1, wanted);
    }
  }

  /** For a positive limit, the slice of `get_first_buyers_scores_for_neighborhood`
      (which tests `>=`) is `get_first_elements` (which tests `==`). */
  lemma {:induction false} FirstBuyersAreFirstElements(board: Pairs, remaining: seq<string>, limit: int)
    requires limit >= 1
    ensures Allocation.FirstBuyers(board, remaining, limit) == FirstElements(board, limit, remaining)
    decreases |board|
  {
    if board != [] {
      var limit' := if board[0].0 in remaining then limit - 1 else limit;
      if limit' > 0 {
        FirstBuyersAreFirstElements(board[1..], remaining, limit');
      }
    }
  }

  /** One entry of the scan, after `elements` were collected: the entry
      at `i` is taken when its key is wanted, and the scan goes on past it
      unless the count then equals `number`. */
  lemma FirstElementsStep(scores: Pairs, i: nat, number: int, wanted: seq<string>, elements: Pairs)
    requires i < |scores|
    ensures var hit := scores[i].0 in wanted;
      var taken := if hit then [scores[i]] else [];
      var number' := if hit then number - 1 else number;
      && (number' == 0 ==> elements + FirstElements(scores[i..], number, wanted) == elements + taken)
      && (number' != 0 ==>
            elements + FirstElements(scores[i..], number, wanted) ==
            (elements + taken) + FirstElements(scores[i + 1..], number', wanted))
  {
    assert scores[i..][0] == scores[i] && scores[i..][1..] == scores[i + 1..];
  }

  /** `get_first_elements` */
  method GetFirstElements(scores: Pairs, number: int, wanted: seq<string>) returns (elements: Pairs)
    ensures elements == FirstElements(scores, number, wanted)
  {
    ghost var whole := FirstElements(scores, number, wanted);
    elements := [];
    var counter := 0;
    var i := 0;
    while i < |scores|
      invariant 0 <= i <= |scores|
      invariant whole == elements + FirstElements(scores[i..], number - counter, wanted)
    {
      FirstElementsStep(scores, i, number - counter, wanted, elements);
      var hit := scores[i].0 in wanted;
      elements := if hit then elements + [scores[i]] else elements;
      counter := if hit then counter + 1 else counter;
      if counter == number {
        return;
      }
      i := i + 1;
    }
    assert scores[i..] == [];
  }

  // ---------------------------------------------------------------------
  // input_parser
  // ---------------------------------------------------------------------

  /** `input_parser`: a fresh assigner of this module, then, line by line,
      an `N` line added as a neighbourhood and an `H` line as a home buyer,
      any other line skipped; the first exception ends the run. The
      registry it builds is the one `parse_to_assigner` builds. */
  method InputParser(input: string) returns (r: Result<HomeBuyerAssigner, Error>)
    ensures var (t, err) := Utils.Load(SplitLines(input), Registry.Empty());
      && (r.Ok? <==> err.None?)
      && (r.Err? ==> r.error == err.value)
      && (r.Ok? ==> fresh(r.value) && r.value.Valid() && r.value.State() == t && r.value.assignments == map[])
  {
    var assigner := new HomeBuyerAssigner();
    var lines := SplitLines(input);
    ghost var target := Utils.Load(lines, Registry.Empty());
    var i := 0;
    assert lines[i..] == lines;
    while i < |lines|
      invariant 0 <= i <= |lines|
      invariant fresh(assigner) && assigner.Valid() && assigner.assignments == map[]
      invariant target == Utils.Load(lines[i..], assigner.State())
    {
      ghost var rest := lines[i..];
      assert rest[0] == lines[i] && rest[1..] == lines[i + 1..];
      var err := LoadLineInto(assigner, lines[i]);
      if err.Some? {
        return Err(err.value);
      }
      i := i + 1;
    }
    return Ok(assigner);
  }

  /** One pass of the loop of `input_parser`, applied to `assigner`. */
  method LoadLineInto(assigner: HomeBuyerAssigner, line: string) returns (err: Option<Error>)
    requires assigner.Valid()
    modifies assigner`neighborhoods, assigner`homeBuyers, assigner`buyerOrder
    ensures assigner.Valid()
    ensures (assigner.State(), err) == Utils.LoadLine(line, old(assigner.State()))
  {
    if Utils.StartsWith(line, 'N') {
      var n := Utils.Parser.ParseToNeighborhood(line);
      if n.Err? {
        return Some(n.error);
      }
      assigner.AddNeighborhood(n.value);
      err := None;
    } else if Utils.StartsWith(line, 'H') {
      var b := Utils.Parser.ParseToHomeBuyer(line);
      if b.Err? {
        return Some(b.error);
      }
      err := assigner.AddHomeBuyer(b.value);
    } else {
      err := None;
    }
  }
}
