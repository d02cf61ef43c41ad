/** The round-based allocation of `recursive_home_buyers_neighborhoods_match`
    (src/models.py) and of the `while` loop in `assign_home_buyers`
    (models.py), as functions: one visit of one buyer, one round over the
    buyers remaining at its start, and the rounds until no buyer remains.
    The methods of the two assigner classes are proved equal to `Allocate`;
    the lemmas here say what the allocation guarantees. */
module Allocation {
  import opened Wrappers
  import opened Errors
  import opened Entities
  import opened OrderedDicts
  import Registry

  /** What stays fixed during a run: the registered buyers, the sorted
      boards of `sorted_neighborhoods_scores`, and `buyers_per_neighborhood`
      (a value or the error its evaluation raises). */
  datatype Context = Context(buyers: map<string, HomeBuyer>, boards: map<string, Pairs>, capacity: Result<nat, Error>)
  {
    /** Buyers are stored under their names; boards are `OrderedDict`s. */
    ghost predicate Valid()
    {
      && (forall x :: x in buyers ==> buyers[x].name == x)
      && (forall g :: g in boards ==> DistinctKeys(boards[g]))
    }
  }

  /** What a run changes: `assignments` by neighbourhood name, the list of
      buyers still to be assigned, and `buyers_assigned` of the current round. */
  datatype RoundState = RoundState(assignments: map<string, seq<HomeBuyer>>, remaining: seq<string>, admitted: nat)

  /** The state reached and, when the run stopped on an exception, that
      exception; what was assigned before it stays assigned. */
  datatype Outcome = Outcome(state: RoundState, failure: Option<Error>)

  /** The context `assign_home_buyers` works in over the registry `s`, with
      the outcome `capacity` of the assigner's `buyers_per_neighborhood`. */
  function ContextOn(s: Registry.State, capacity: Result<nat, Error>): (ctx: Context)
    ensures s.Valid() ==> ctx.Valid()
    ensures ctx.buyers == s.homeBuyers && ctx.boards.Keys == s.neighborhoods.Keys && ctx.capacity == capacity
  {
    Context(s.homeBuyers, s.SortedNeighborhoodsScores(), capacity)
  }

  /** The context `assign_home_buyers` of src/models.py works in. */
  function ContextOf(s: Registry.State): (ctx: Context)
    ensures s.Valid() ==> ctx.Valid()
    ensures ctx.buyers == s.homeBuyers && ctx.boards.Keys == s.neighborhoods.Keys
  {
    ContextOn(s, s.BuyersPerNeighborhood())
  }

  /** `assignments.get(g, [])` */
  function AssignedTo(assignments: map<string, seq<HomeBuyer>>, g: string): seq<HomeBuyer>
  {
    if g in assignments then assignments[g] else []
  }

  /** `sorted_neighborhoods_scores.get(g, {})` */
  function BoardOf(ctx: Context, g: string): Pairs
  {
    if g in ctx.boards then ctx.boards[g] else []
  }

  /** Python truthiness of `first_elements.get(name)`: present and not 0. */
  predicate Truthy(v: Option<int>)
  {
    v.Some? && v.value != 0
  }

  /** `list.remove(x)`: drops the first occurrence of `x`. */
  function Remove(s: seq<string>, x: string): (r: seq<string>)
    requires x in s
    ensures multiset(r) == multiset(s) - multiset{x}
    ensures |r| == |s| - 1
    ensures forall y :: y in r ==> y in s
    decreases |s|
  {
    if s[0] == x then
      assert s == [s[0]] + s[1..];
      s[1..]
    else
      assert s == [s[0]] + s[1..];
      [s[0]] + Remove(s[1..], x)
  }

  // ---------------------------------------------------------------------
  // get_first_buyers_scores_for_neighborhood
  // ---------------------------------------------------------------------

  /** The entries `get_first_buyers_scores_for_neighborhood` collects from
      `board`: scanning in order, an entry whose name is in `remaining` is
      taken, and the scan stops as soon as the number taken reaches `limit`.
      The test follows each entry, so a `limit` of 0 or less still takes the
      first entry when its buyer remains. */
  function FirstBuyers(board: Pairs, remaining: seq<string>, limit: int): (r: Pairs)
    decreases |board|
  {
    if board == [] then []
    else
      var hit := board[0].0 in remaining;
      var taken := if hit then [board[0]] else [];
      var limit' := if hit then limit - 1 else limit;
      if limit' <= 0 then taken
      else taken + FirstBuyers(board[1..], remaining, limit')
  }

  /** The slice holds entries of the board, of remaining buyers only, and
      no key twice when the board has none twice. */
  lemma {:induction false} FirstBuyersFacts(board: Pairs, remaining: seq<string>, limit: int)
    ensures var r := FirstBuyers(board, remaining, limit);
      && |r| <= |board|
      && (forall i :: 0 <= i < |r| ==> r[i] in board && r[i].0 in remaining)
      && (DistinctKeys(board) ==> DistinctKeys(r))
    decreases |board|
  {
    if board != [] {
      var hit := board[0].0 in remaining;
      var limit' := if hit then limit - 1 else limit;
      if limit' > 0 {
        var rest := FirstBuyers(board[1..], remaining, limit');
        FirstBuyersFacts(board[1..], remaining, limit');
        assert board == [board[0]] + board[1..];
        if hit {
          assert FirstBuyers(board, remaining, limit) == [board[0]] + rest;
          ConsFacts(board[0], board[1..], rest, remaining);
        } else {
          assert FirstBuyers(board, remaining, limit) == rest;
          assert forall i :: 0 <= i < |rest| ==> rest[i] in board;
          if DistinctKeys(board) {
            DistinctKeysTail(board[0], board[1..]);
          }
        }
      }
    }
  }

  /** Taking the head of a board in front of a slice of its tail keeps the
      slice's facts. */
  lemma ConsFacts(p: (string, int), tail: Pairs, rest: Pairs, remaining: seq<string>)
    requires p.0 in remaining
    requires forall i :: 0 <= i < |rest| ==> rest[i] in tail && rest[i].0 in remaining
    requires DistinctKeys([p] + tail) ==> DistinctKeys(rest)
    ensures var r := [p] + rest;
      && (forall i :: 0 <= i < |r| ==> r[i] in [p] + tail && r[i].0 in remaining)
      && (DistinctKeys([p] + tail) ==> DistinctKeys(r))
  {
    var r := [p] + rest;
    forall i | 0 <= i < |r| ensures r[i] in [p] + tail && r[i].0 in remaining {
      if i > 0 {
        assert r[i] == rest[i - 1];
      }
    }
    if DistinctKeys([p] + tail) {
      DistinctKeysTail(p, tail);
      forall i, j | 0 <= i < j < |r| ensures r[i].0 != r[j].0 {
        assert r[j] == rest[j - 1] && rest[j - 1] in tail;
        if i > 0 {
          assert r[i] == rest[i - 1];
        }
      }
    }
  }

  /** One entry of the scan: when the whole scan gives `scores` followed by
      the scan from entry `i`, the entry is taken when its buyer remains,
      and the scan goes on past it only while fewer than `limit` were
      taken. */
  lemma FirstBuyersStep(whole: Pairs, board: Pairs, remaining: seq<string>, limit: int, i: nat, scores: Pairs)
    requires i < |board|
    requires whole == scores + FirstBuyers(board[i..], remaining, limit - |scores|)
    ensures var scores' := if board[i].0 in remaining then scores + [board[i]] else scores;
      whole == scores' + (if |scores'| >= limit then [] else FirstBuyers(board[i + 1..], remaining, limit - |scores'|))
  {
    var rest := board[i..];
    assert rest[0] == board[i] && rest[1..] == board[i + 1..];
    var lim := limit - |scores|;
    FirstBuyersUnfold(rest, remaining, lim);
    if board[i].0 in remaining {
      var tail := if lim - 1 <= 0 then [] else FirstBuyers(board[i + 1..], remaining, lim - 1);
      assert FirstBuyers(rest, remaining, lim) == [board[i]] + tail;
      AppendAssoc(scores, [board[i]], tail);
      assert |scores + [board[i]]| == |scores| + 1;
    } else {
      assert FirstBuyers(rest, remaining, lim) == if lim <= 0 then [] else FirstBuyers(board[i + 1..], remaining, lim);
    }
  }

  lemma AppendAssoc(a: Pairs, b: Pairs, c: Pairs)
    ensures a + (b + c) == (a + b) + c
  {
  }

  lemma FirstBuyersUnfold(board: Pairs, remaining: seq<string>, limit: int)
    requires board != []
    ensures var hit := board[0].0 in remaining;
      var limit' := if hit then limit - 1 else limit;
      FirstBuyers(board, remaining, limit)
        == (if hit then [board[0]] else []) + (if limit' <= 0 then [] else FirstBuyers(board[1..], remaining, limit'))
  {
  }

  /** The entries of `board` whose buyer is in `remaining`, in board order. */
  function InRemaining(board: Pairs, remaining: seq<string>): Pairs
    decreases |board|
  {
    if board == [] then []
    else (if board[0].0 in remaining then [board[0]] else []) + InRemaining(board[1..], remaining)
  }

  /** The first `n` elements of `s`, or all of them when there are fewer. */
  function Take(s: Pairs, n: nat): (r: Pairs)
    ensures |r| == if n < |s| then n else |s|
  {
    if n < |s| then s[..n] else s
  }

  /** With a positive limit the slice is the first `limit` entries of the
      board whose buyers remain, in board order, with their scores. */
  lemma {:induction false} FirstBuyersWithPositiveLimit(board: Pairs, remaining: seq<string>, limit: int)
    requires limit >= 1
    ensures FirstBuyers(board, remaining, limit) == Take(InRemaining(board, remaining), limit)
    decreases |board|
  {
    if board != [] {
      var tail := InRemaining(board[1..], remaining);
      if board[0].0 in remaining {
        if limit > 1 {
          FirstBuyersWithPositiveLimit(board[1..], remaining, limit - 1);
          assert Take([board[0]] + tail, limit) == [board[0]] + Take(tail, limit - 1);
        } else {
          assert Take([board[0]] + tail, 1) == [board[0]];
        }
      } else {
        FirstBuyersWithPositiveLimit(board[1..], remaining, limit);
      }
    }
  }

  /** With a limit of 0 or less the slice is the board's first entry when
      that buyer remains, and empty otherwise. */
  lemma FirstBuyersWithoutLimit(board: Pairs, remaining: seq<string>, limit: int)
    requires limit <= 0
    ensures FirstBuyers(board, remaining, limit) == if board != [] && board[0].0 in remaining then [board[0]] else []
  {
  }

  /** A buyer found in the slice remains, and has there the score the
      board gives it. */
  lemma FirstBuyersLookup(board: Pairs, remaining: seq<string>, limit: int, x: string)
    requires DistinctKeys(board)
    requires Lookup(FirstBuyers(board, remaining, limit), x).Some?
    ensures x in remaining
    ensures Lookup(FirstBuyers(board, remaining, limit), x) == Lookup(board, x)
  {
    var first := FirstBuyers(board, remaining, limit);
    LookupFound(first, x);
    FirstBuyersFacts(board, remaining, limit);
    var i :| 0 <= i < |first| && first[i] == (x, Lookup(first, x).value);
    var j :| 0 <= j < |board| && board[j] == first[i];
    LookupItem(board, j);
  }

  // ---------------------------------------------------------------------
  // one visit, one round, the rounds
  // ---------------------------------------------------------------------

  /** The body of the `for` loop over `reversed(...)` for buyer `name` with
      preference index `k`: `preferences[k]` (IndexError past the end),
      the slice of that neighbourhood's board, and the admission test — a
      truthy score in the slice and room left under the capacity. An
      admitted buyer is appended to the neighbourhood and removed from the
      remaining list. */
  function Visit(ctx: Context, st: RoundState, name: string, k: nat): (o: Outcome)
    requires name in ctx.buyers
    ensures o.failure.Some? ==> o.state == st
    ensures o.state == st || (o.state.admitted == st.admitted + 1 && name in st.remaining && o.state.remaining == Remove(st.remaining, name))
    ensures o.failure.None? ==> k < |ctx.buyers[name].preferences|
    ensures o.failure.Some? ==>
      (ctx.capacity.Err? && o.failure.value == ctx.capacity.error)
      || (k >= |ctx.buyers[name].preferences| && o.failure.value == PreferenceIndex(name, k))
  {
    var b := ctx.buyers[name];
    if k >= |b.preferences| then Outcome(st, Some(PreferenceIndex(name, k)))
    else
      var g := b.preferences[k];
      match ctx.capacity
      case Err(e) => Outcome(st, Some(e))
      case Ok(cap) =>
        var held := AssignedTo(st.assignments, g);
        var first := FirstBuyers(BoardOf(ctx, g), st.remaining, cap - |held|);
        if Truthy(Lookup(first, name)) && |held| < cap then
          LookupFound(first, name);
          FirstBuyersFacts(BoardOf(ctx, g), st.remaining, cap - |held|);
          Outcome(RoundState(st.assignments[g := held + [b]], Remove(st.remaining, name), st.admitted + 1), None)
        else
          Outcome(st, None)
  }

  /** A visit that reached the admission test, in terms of the slice
      `first` it computed. */
  lemma VisitOnSlice(ctx: Context, st: RoundState, name: string, k: nat, first: Pairs)
    requires name in ctx.buyers && k < |ctx.buyers[name].preferences| && ctx.capacity.Ok?
    requires var g := ctx.buyers[name].preferences[k];
      first == FirstBuyers(BoardOf(ctx, g), st.remaining, ctx.capacity.value - |AssignedTo(st.assignments, g)|)
    ensures Truthy(Lookup(first, name)) ==> name in st.remaining
    ensures var g := ctx.buyers[name].preferences[k];
      var held := AssignedTo(st.assignments, g);
      Visit(ctx, st, name, k)
        == if Truthy(Lookup(first, name)) && |held| < ctx.capacity.value
           then Outcome(RoundState(st.assignments[g := held + [ctx.buyers[name]]], Remove(st.remaining, name), st.admitted + 1), None)
           else Outcome(st, None)
  {
    var g := ctx.buyers[name].preferences[k];
    if Truthy(Lookup(first, name)) {
      LookupFound(first, name);
      FirstBuyersFacts(BoardOf(ctx, g), st.remaining, ctx.capacity.value - |AssignedTo(st.assignments, g)|);
      var i :| 0 <= i < |first| && first[i] == (name, Lookup(first, name).value);
      assert first[i].0 in st.remaining;
      if |AssignedTo(st.assignments, g)| < ctx.capacity.value {
        VisitAdmitted(ctx, st, name, k, first);
        return;
      }
    }
    VisitRejected(ctx, st, name, k, first);
  }

  lemma VisitAdmitted(ctx: Context, st: RoundState, name: string, k: nat, first: Pairs)
    requires name in ctx.buyers && k < |ctx.buyers[name].preferences| && ctx.capacity.Ok?
    requires var g := ctx.buyers[name].preferences[k];
      first == FirstBuyers(BoardOf(ctx, g), st.remaining, ctx.capacity.value - |AssignedTo(st.assignments, g)|)
    requires Truthy(Lookup(first, name)) && name in st.remaining
    requires |AssignedTo(st.assignments, ctx.buyers[name].preferences[k])| < ctx.capacity.value
    ensures var g := ctx.buyers[name].preferences[k];
      Visit(ctx, st, name, k)
        == Outcome(RoundState(st.assignments[g := AssignedTo(st.assignments, g) + [ctx.buyers[name]]], Remove(st.remaining, name), st.admitted + 1), None)
  {
  }

  lemma VisitRejected(ctx: Context, st: RoundState, name: string, k: nat, first: Pairs)
    requires name in ctx.buyers && k < |ctx.buyers[name].preferences| && ctx.capacity.Ok?
    requires var g := ctx.buyers[name].preferences[k];
      first == FirstBuyers(BoardOf(ctx, g), st.remaining, ctx.capacity.value - |AssignedTo(st.assignments, g)|)
    requires !Truthy(Lookup(first, name)) || |AssignedTo(st.assignments, ctx.buyers[name].preferences[k])| >= ctx.capacity.value
    ensures Visit(ctx, st, name, k) == Outcome(st, None)
  {
  }

  /** One round: the buyers of `toVisit` (the remaining list at the start
      of the round), last to first, each against the live state, stopping at
      the first exception. Removing the visited buyer from the live list
      does not disturb the reversed iteration, so every buyer of the
      round's start is visited once. */
  function Round(ctx: Context, st: RoundState, toVisit: seq<string>, k: nat): (o: Outcome)
    requires forall x :: x in toVisit ==> x in ctx.buyers
    ensures |o.state.remaining| + o.state.admitted == |st.remaining| + st.admitted
    ensures o.state.admitted >= st.admitted
    ensures o.state.admitted == st.admitted ==> o.state == st
    ensures forall x :: x in o.state.remaining ==> x in st.remaining
    ensures o.failure.None? ==> forall x :: x in toVisit ==> k < |ctx.buyers[x].preferences|
    ensures o.failure.Some? ==>
      (ctx.capacity.Err? && o.failure.value == ctx.capacity.error)
      || (&& o.failure.value.PreferenceIndex? && o.failure.value.buyer in toVisit && o.failure.value.index == k
          && k >= |ctx.buyers[o.failure.value.buyer].preferences|)
    decreases |toVisit|
  {
    if toVisit == [] then Outcome(st, None)
    else
      var name := toVisit[|toVisit| - 1];
      var o := Visit(ctx, st, name, k);
      if o.failure.Some? then o
      else
        assert toVisit == toVisit[..|toVisit| - 1] + [name];
        Round(ctx, o.state, toVisit[..|toVisit| - 1], k)
  }

  /** The round over the first `i` buyers of `toVisit` visits the `i`-th
      one first. */
  lemma RoundLast(ctx: Context, st: RoundState, toVisit: seq<string>, i: nat, k: nat)
    requires 0 < i <= |toVisit| && forall x :: x in toVisit ==> x in ctx.buyers
    ensures forall x :: x in toVisit[..i - 1] ==> x in ctx.buyers
    ensures var o := Visit(ctx, st, toVisit[i - 1], k);
      Round(ctx, st, toVisit[..i], k) == if o.failure.Some? then o else Round(ctx, o.state, toVisit[..i - 1], k)
  {
    assert toVisit[..i][..i - 1] == toVisit[..i - 1];
    assert forall x :: x in toVisit[..i - 1] ==> x in toVisit;
  }

  /** The longest preference list among `names`. */
  function MaxPreferences(ctx: Context, names: seq<string>): (m: nat)
    requires forall x :: x in names ==> x in ctx.buyers
    ensures forall x :: x in names ==> |ctx.buyers[x].preferences| <= m
    decreases |names|
  {
    if names == [] then 0
    else
      var rest := MaxPreferences(ctx, names[1..]);
      var here := |ctx.buyers[names[0]].preferences|;
      assert forall x :: x in names ==> x == names[0] || x in names[1..];
      if here < rest then rest else here
  }

  /** The rounds from `assignments`, `remaining` and preference index `k`
      until no buyer remains: the index moves to the next preference only
      after a round that admitted nobody. A run ends because every
      remaining buyer has run out of preferences or sooner, since each round
      either shrinks the remaining list or raises the index. */
  function Allocate(ctx: Context, assignments: map<string, seq<HomeBuyer>>, remaining: seq<string>, k: nat): (o: Outcome)
    requires forall x :: x in remaining ==> x in ctx.buyers
    ensures o.failure.None? ==> o.state.remaining == []
    ensures forall x :: x in o.state.remaining ==> x in remaining
    decreases |remaining|, var m := MaxPreferences(ctx, remaining); if k <= m then m - k else 0
  {
    if remaining == [] then Outcome(RoundState(assignments, remaining, 0), None)
    else
      var start := RoundState(assignments, remaining, 0);
      var o := Round(ctx, start, remaining, k);
      if o.failure.Some? then o
      else
        assert k < |ctx.buyers[remaining[|remaining| - 1]].preferences| <= MaxPreferences(ctx, remaining);
        Allocate(ctx, o.state.assignments, o.state.remaining, if o.state.admitted == 0 then k + 1 else k)
  }

  /** One round of `Allocate` from a non-empty list, and why the run
      goes on making progress after it. */
  lemma AllocateStep(ctx: Context, assignments: map<string, seq<HomeBuyer>>, remaining: seq<string>, k: nat)
    requires remaining != [] && forall x :: x in remaining ==> x in ctx.buyers
    ensures var o := Round(ctx, RoundState(assignments, remaining, 0), remaining, k);
      && (o.failure.None? ==> forall x :: x in o.state.remaining ==> x in ctx.buyers)
      && Allocate(ctx, assignments, remaining, k)
         == (if o.failure.Some? then o else Allocate(ctx, o.state.assignments, o.state.remaining, if o.state.admitted == 0 then k + 1 else k))
      && (o.failure.None? && o.state.admitted == 0 ==> o.state.remaining == remaining && k < MaxPreferences(ctx, remaining))
      && (o.failure.None? && o.state.admitted > 0 ==> |o.state.remaining| < |remaining|)
  {
    var o := Round(ctx, RoundState(assignments, remaining, 0), remaining, k);
    if o.failure.None? {
      assert k < |ctx.buyers[remaining[|remaining| - 1]].preferences| <= MaxPreferences(ctx, remaining);
    }
  }

  /** `assign_home_buyers` on a registry: empty assignments, the buyers in
      `sorted_home_buyers` order, preference index 0. */
  function AssignAll(ctx: Context, sortedBuyers: seq<string>): (o: Outcome)
    requires forall x :: x in sortedBuyers ==> x in ctx.buyers
    ensures o.failure.None? ==> o.state.remaining == []
  {
    Allocate(ctx, map[], sortedBuyers, 0)
  }

  // ---------------------------------------------------------------------
  // what the allocation guarantees
  // ---------------------------------------------------------------------

  /** The names of a list of buyers, as a multiset. */
  ghost function Names(bs: seq<HomeBuyer>): (m: multiset<string>)
    ensures |m| == |bs|
    decreases |bs|
  {
    if bs == [] then multiset{} else Names(bs[..|bs| - 1]) + multiset{bs[|bs| - 1].name}
  }

  /** The names of the buyers assigned to the neighbourhoods in `keys`. */
  ghost function PlacedIn(assignments: map<string, seq<HomeBuyer>>, keys: set<string>): multiset<string>
    requires keys <= assignments.Keys
    decreases keys
  {
    if keys == {} then multiset{}
    else
      var g :| g in keys;
      Names(assignments[g]) + PlacedIn(assignments, keys - {g})
  }

  /** The names of every assigned buyer, over all neighbourhoods. */
  ghost function Placed(assignments: map<string, seq<HomeBuyer>>): multiset<string>
  {
    PlacedIn(assignments, assignments.Keys)
  }

  lemma {:induction false} PlacedInSplit(assignments: map<string, seq<HomeBuyer>>, keys: set<string>, g: string)
    requires keys <= assignments.Keys && g in keys
    ensures PlacedIn(assignments, keys) == Names(assignments[g]) + PlacedIn(assignments, keys - {g})
    decreases keys
  {
    var h :| h in keys && PlacedIn(assignments, keys) == Names(assignments[h]) + PlacedIn(assignments, keys - {h});
    if h != g {
      PlacedInSplit(assignments, keys - {h}, g);
      PlacedInSplit(assignments, keys - {g}, h);
      assert keys - {h} - {g} == keys - {g} - {h};
    }
  }

  /** Only the lists of the neighbourhoods in `keys` matter. */
  lemma {:induction false} PlacedInFrame(a: map<string, seq<HomeBuyer>>, b: map<string, seq<HomeBuyer>>, keys: set<string>)
    requires keys <= a.Keys && keys <= b.Keys
    requires forall g :: g in keys ==> a[g] == b[g]
    ensures PlacedIn(a, keys) == PlacedIn(b, keys)
    decreases keys
  {
    if keys != {} {
      var g :| g in keys && PlacedIn(a, keys) == Names(a[g]) + PlacedIn(a, keys - {g});
      PlacedInSplit(b, keys, g);
      PlacedInFrame(a, b, keys - {g});
    }
  }

  lemma NamesAppend(s: seq<HomeBuyer>, b: HomeBuyer)
    ensures Names(s + [b]) == Names(s) + multiset{b.name}
  {
    assert (s + [b])[..|s|] == s;
  }

  /** The buyers of one neighbourhood, present or not, and those of the rest. */
  lemma PlacedSplitOff(assignments: map<string, seq<HomeBuyer>>, g: string)
    ensures Placed(assignments) == Names(AssignedTo(assignments, g)) + PlacedIn(assignments, assignments.Keys - {g})
  {
    if g in assignments {
      PlacedInSplit(assignments, assignments.Keys, g);
    } else {
      assert assignments.Keys - {g} == assignments.Keys;
    }
  }

  /** Appending a buyer to one neighbourhood adds its name once. */
  lemma PlacedAppend(assignments: map<string, seq<HomeBuyer>>, g: string, b: HomeBuyer)
    ensures Placed(assignments[g := AssignedTo(assignments, g) + [b]]) == Placed(assignments) + multiset{b.name}
  {
    var held := AssignedTo(assignments, g);
    var a' := assignments[g := held + [b]];
    var rest := assignments.Keys - {g};
    assert a'.Keys - {g} == rest;
    PlacedInSplit(a', a'.Keys, g);
    NamesAppend(held, b);
    assert forall h :: h in rest ==> a'[h] == assignments[h];
    PlacedInFrame(a', assignments, rest);
    PlacedSplitOff(assignments, g);
    var others := PlacedIn(assignments, rest);
    assert Placed(a') == (Names(held) + multiset{b.name}) + others;
    assert Placed(assignments) == Names(held) + others;
    UnionSwap(Names(held), multiset{b.name}, others);
  }

  lemma UnionSwap(a: multiset<string>, b: multiset<string>, c: multiset<string>)
    ensures (a + b) + c == (a + c) + b
  {
  }

  /** No name occurs twice. */
  ghost predicate NoRepeats(s: seq<string>)
  {
    forall x :: multiset(s)[x] <= 1
  }

  /** Where buyers may be placed: only neighbourhoods that have a board,
      never above the capacity, and each placed buyer is the registered
      record, prefers that neighbourhood and has a non-zero score on its
      board. */
  ghost predicate Placement(ctx: Context, assignments: map<string, seq<HomeBuyer>>)
  {
    forall g :: g in assignments ==>
      && g in ctx.boards
      && ctx.capacity.Ok? && |assignments[g]| <= ctx.capacity.value
      && forall b :: b in assignments[g] ==>
           && b.name in ctx.buyers && ctx.buyers[b.name] == b
           && g in b.preferences
           && Truthy(Lookup(ctx.boards[g], b.name))
  }

  /** The invariant of a run that started from the buyers `all`: every buyer
      of `all` is either placed or remaining, and placements follow the
      rules. */
  ghost predicate Invariant(ctx: Context, st: RoundState, all: seq<string>)
  {
    && (forall x :: x in st.remaining ==> x in ctx.buyers)
    && Placement(ctx, st.assignments)
    && Placed(st.assignments) + multiset(st.remaining) == multiset(all)
  }

  /** What an admission does: the buyer's `k`-th preference `g` is a
      neighbourhood with a board on which the buyer has a non-zero score,
      it was below capacity, and it gains the buyer at the end of its list. */
  lemma VisitAdmits(ctx: Context, st: RoundState, name: string, k: nat) returns (g: string)
    requires ctx.Valid() && name in ctx.buyers
    requires Visit(ctx, st, name, k).state != st
    ensures k < |ctx.buyers[name].preferences| && g == ctx.buyers[name].preferences[k]
    ensures ctx.capacity.Ok? && |AssignedTo(st.assignments, g)| < ctx.capacity.value
    ensures g in ctx.boards && Truthy(Lookup(ctx.boards[g], name))
    ensures name in st.remaining
    ensures Visit(ctx, st, name, k).state
      == RoundState(st.assignments[g := AssignedTo(st.assignments, g) + [ctx.buyers[name]]], Remove(st.remaining, name), st.admitted + 1)
  {
    var b := ctx.buyers[name];
    g := b.preferences[k];
    var cap := ctx.capacity.value;
    var held := AssignedTo(st.assignments, g);
    var first := FirstBuyers(BoardOf(ctx, g), st.remaining, cap - |held|);
    assert Truthy(Lookup(first, name)) && |held| < cap;
    FirstBuyersLookup(BoardOf(ctx, g), st.remaining, cap - |held|, name);
  }

  /** Appending a buyer that satisfies the rules keeps the placement rules. */
  lemma AppendKeepsPlacement(ctx: Context, assignments: map<string, seq<HomeBuyer>>, g: string, b: HomeBuyer)
    requires Placement(ctx, assignments)
    requires g in ctx.boards && ctx.capacity.Ok? && |AssignedTo(assignments, g)| < ctx.capacity.value
    requires b.name in ctx.buyers && ctx.buyers[b.name] == b && g in b.preferences
    requires Truthy(Lookup(ctx.boards[g], b.name))
    ensures Placement(ctx, assignments[g := AssignedTo(assignments, g) + [b]])
  {
    var held := AssignedTo(assignments, g);
    var a': map<string, seq<HomeBuyer>> := assignments[g := held + [b]];
    forall h | h in a'
      ensures forall c: HomeBuyer :: c in a'[h] ==> c.name in ctx.buyers && ctx.buyers[c.name] == c && h in c.preferences && Truthy(Lookup(ctx.boards[h], c.name))
    {
      if h == g {
        forall c: HomeBuyer | c in a'[h]
          ensures c.name in ctx.buyers && ctx.buyers[c.name] == c && h in c.preferences && Truthy(Lookup(ctx.boards[h], c.name))
        {
          if c != b { assert c in held; }
        }
      }
    }
  }

  lemma VisitKeepsInvariant(ctx: Context, st: RoundState, name: string, k: nat, all: seq<string>)
    requires ctx.Valid() && name in ctx.buyers && Invariant(ctx, st, all)
    ensures Invariant(ctx, Visit(ctx, st, name, k).state, all)
  {
    var o := Visit(ctx, st, name, k);
    if o.state != st {
      var g := VisitAdmits(ctx, st, name, k);
      var b := ctx.buyers[name];
      AppendKeepsPlacement(ctx, st.assignments, g, b);
      PlacedAppend(st.assignments, g, b);
      assert name in multiset(st.remaining);
      assert multiset(o.state.remaining) + multiset{name} == multiset(st.remaining);
    }
  }

  lemma {:induction false} RoundKeepsInvariant(ctx: Context, st: RoundState, toVisit: seq<string>, k: nat, all: seq<string>)
    requires ctx.Valid() && Invariant(ctx, st, all)
    requires forall x :: x in toVisit ==> x in ctx.buyers
    ensures Invariant(ctx, Round(ctx, st, toVisit, k).state, all)
    decreases |toVisit|
  {
    if toVisit != [] {
      var name := toVisit[|toVisit| - 1];
      VisitKeepsInvariant(ctx, st, name, k, all);
      var o := Visit(ctx, st, name, k);
      if o.failure.None? {
        assert forall x :: x in toVisit[..|toVisit| - 1] ==> x in toVisit;
        RoundKeepsInvariant(ctx, o.state, toVisit[..|toVisit| - 1], k, all);
      }
    }
  }

  /** Every buyer in the run's remaining list has at least `k` preferences. */
  ghost predicate PreferencesLeft(ctx: Context, remaining: seq<string>, k: nat)
    requires forall x :: x in remaining ==> x in ctx.buyers
  {
    forall x :: x in remaining ==> k <= |ctx.buyers[x].preferences|
  }

  lemma {:induction false} AllocateKeepsInvariant(ctx: Context, assignments: map<string, seq<HomeBuyer>>, remaining: seq<string>, k: nat, all: seq<string>)
    requires ctx.Valid() && NoRepeats(all) && Invariant(ctx, RoundState(assignments, remaining, 0), all)
    requires PreferencesLeft(ctx, remaining, k)
    ensures var o := Allocate(ctx, assignments, remaining, k);
      && Invariant(ctx, o.state, all)
      && (o.failure.Some? ==>
            (ctx.capacity.Err? && o.failure.value == ctx.capacity.error)
            || (&& o.failure.value.PreferenceIndex?
                && o.failure.value.buyer in o.state.remaining
                && o.failure.value.index == |ctx.buyers[o.failure.value.buyer].preferences|))
    decreases |remaining|, var m := MaxPreferences(ctx, remaining); if k <= m then m - k else 0
  {
    if remaining != [] {
      var start := RoundState(assignments, remaining, 0);
      RoundKeepsInvariant(ctx, start, remaining, k, all);
      var o := Round(ctx, start, remaining, k);
      if o.failure.Some? {
        if o.failure.value.PreferenceIndex? && !(ctx.capacity.Err? && o.failure.value == ctx.capacity.error) {
          assert NoRepeats(remaining) by {
            forall x ensures multiset(remaining)[x] <= 1 {
              assert multiset(all)[x] == Placed(assignments)[x] + multiset(remaining)[x];
            }
          }
          RoundFailsAtOnce(ctx, start, remaining, k);
        }
      } else {
        assert k < |ctx.buyers[remaining[|remaining| - 1]].preferences| <= MaxPreferences(ctx, remaining);
        var k' := if o.state.admitted == 0 then k + 1 else k;
        assert PreferencesLeft(ctx, o.state.remaining, k') by {
          forall x | x in o.state.remaining ensures k' <= |ctx.buyers[x].preferences| {
            assert x in remaining;
          }
        }
        AllocateKeepsInvariant(ctx, o.state.assignments, o.state.remaining, k', all);
      }
    }
  }

  /** The front of a list without repeats has none, and lacks its last
      element. */
  lemma NoRepeatsFront(front: seq<string>, name: string)
    requires NoRepeats(front + [name])
    ensures NoRepeats(front) && name !in front
  {
    forall x ensures multiset(front)[x] <= 1 {
      assert multiset(front + [name])[x] == multiset(front)[x] + multiset([name])[x];
    }
    assert multiset(front + [name])[name] == multiset(front)[name] + 1;
  }

  /** Removing one name keeps every other. */
  lemma RemoveKeepsOthers(s: seq<string>, x: string, y: string)
    requires x in s && y in s && y != x
    ensures y in Remove(s, x)
  {
    assert y in multiset(s);
    assert multiset(Remove(s, x))[y] == multiset(s)[y];
  }

  /** A round that fails on a preference index fails on a buyer that has
      not been removed, so it is still remaining. */
  lemma {:induction false} RoundFailsAtOnce(ctx: Context, st: RoundState, toVisit: seq<string>, k: nat)
    requires forall x :: x in toVisit ==> x in ctx.buyers
    requires NoRepeats(toVisit) && forall x :: x in toVisit ==> x in st.remaining
    ensures var o := Round(ctx, st, toVisit, k);
      o.failure.Some? && o.failure.value.PreferenceIndex? && o.failure.value.buyer in toVisit ==> o.failure.value.buyer in o.state.remaining
    decreases |toVisit|
  {
    if toVisit != [] {
      var name := toVisit[|toVisit| - 1];
      var front := toVisit[..|toVisit| - 1];
      var o := Visit(ctx, st, name, k);
      if o.failure.None? {
        assert toVisit == front + [name];
        assert Round(ctx, st, toVisit, k) == Round(ctx, o.state, front, k);
        NoRepeatsFront(front, name);
        forall x | x in front ensures x in o.state.remaining {
          if o.state != st {
            RemoveKeepsOthers(st.remaining, name, x);
          }
        }
        RoundFailsAtOnce(ctx, o.state, front, k);
      }
    }
  }

  // ---------------------------------------------------------------------
  // the guarantees of a whole run
  // ---------------------------------------------------------------------

  /** A run of `assign_home_buyers` over distinct registered buyers places
      each buyer at most once, only in a neighbourhood it prefers, on whose
      board it has a non-zero score, never above the capacity; a run that
      ends without an exception places every buyer. A run that raises
      raises the capacity error or an IndexError for a buyer still
      unplaced whose preferences were all tried. */
  lemma AllocationSound(ctx: Context, buyers: seq<string>)
    requires ctx.Valid() && NoRepeats(buyers) && forall x :: x in buyers ==> x in ctx.buyers
    ensures var o := AssignAll(ctx, buyers);
      && Placement(ctx, o.state.assignments)
      && Placed(o.state.assignments) + multiset(o.state.remaining) == multiset(buyers)
      && (o.failure.None? ==> Placed(o.state.assignments) == multiset(buyers))
      && (o.failure.Some? ==>
            (ctx.capacity.Err? && o.failure.value == ctx.capacity.error)
            || (&& o.failure.value.PreferenceIndex?
                && o.failure.value.buyer in o.state.remaining
                && o.failure.value.index == |ctx.buyers[o.failure.value.buyer].preferences|))
  {
    var empty: map<string, seq<HomeBuyer>> := map[];
    assert Placed(empty) == multiset{};
    AllocateKeepsInvariant(ctx, empty, buyers, 0, buyers);
  }

  /** A placed buyer never has a score of 0 on its neighbourhood's board. */
  lemma ZeroScoreNeverPlaced(ctx: Context, buyers: seq<string>, g: string, b: HomeBuyer)
    requires ctx.Valid() && NoRepeats(buyers) && forall x :: x in buyers ==> x in ctx.buyers
    requires b in AssignedTo(AssignAll(ctx, buyers).state.assignments, g)
    ensures g in ctx.boards && Lookup(ctx.boards[g], b.name).Some?
    ensures Lookup(ctx.boards[g], b.name).value != 0
  {
    AllocationSound(ctx, buyers);
  }

  /** `c` added up `n` times. */
  function Times(c: nat, n: nat): nat
  {
    if n == 0 then 0 else Times(c, n - 1) + c
  }

  lemma {:induction false} TimesIsProduct(c: nat, n: nat)
    ensures Times(c, n) == c * n
  {
    if n > 0 {
      TimesIsProduct(c, n - 1);
      assert c * n == c * (n - 1) + c;
    }
  }

  lemma {:induction false} TimesMonotone(c: nat, m: nat, n: nat)
    requires m <= n
    ensures Times(c, m) <= Times(c, n)
    decreases n
  {
    if m < n { TimesMonotone(c, m, n - 1); }
  }

  /** How many names the neighbourhoods of `keys` hold, when none holds
      more than `cap`: at most `cap` per neighbourhood, and less by what
      neighbourhood `h` lacks. */
  lemma {:induction false} PlacedInSize(assignments: map<string, seq<HomeBuyer>>, keys: set<string>, cap: nat, h: string)
    requires keys <= assignments.Keys
    requires forall g :: g in keys ==> |assignments[g]| <= cap
    ensures |PlacedIn(assignments, keys)| + (if h in keys then cap - |assignments[h]| else 0) <= Times(cap, |keys|)
    decreases keys
  {
    if keys != {} {
      var g :| g in keys;
      if h in keys { g := h; }
      var rest := keys - {g};
      PlacedInSplit(assignments, keys, g);
      PlacedInSize(assignments, rest, cap, h);
      assert |rest| == |keys| - 1;
      assert |PlacedIn(assignments, keys)| == |assignments[g]| + |PlacedIn(assignments, rest)|;
      assert h !in rest;
    }
  }

  /** A subset is no larger than its superset, and a proper one is smaller. */
  lemma {:induction false} SubsetSize(a: set<string>, b: set<string>, x: string)
    requires a <= b
    ensures |a| <= |b|
    ensures x in b && x !in a ==> |a| < |b|
    decreases b
  {
    if a != {} {
      var y :| y in a;
      SubsetSize(a - {y}, b - {y}, x);
    } else if x in b {
      assert |b| >= 1 by { assert x in b; }
    }
  }

  /** Placements that hold as many names as the capacity times the
      neighbourhoods fill every neighbourhood. */
  lemma PlacementFills(ctx: Context, a: map<string, seq<HomeBuyer>>, cap: nat, g: string)
    requires Placement(ctx, a) && ctx.capacity == Ok(cap)
    requires |Placed(a)| == Times(cap, |ctx.boards|)
    requires g in ctx.boards
    ensures |AssignedTo(a, g)| == cap
  {
    assert forall h :: h in a.Keys ==> |a[h]| <= cap && h in ctx.boards;
    PlacedInSize(a, a.Keys, cap, g);
    SubsetSize(a.Keys, ctx.boards.Keys, g);
    if g !in a {
      TimesMonotone(cap, |a.Keys|, |ctx.boards| - 1);
    } else {
      TimesMonotone(cap, |a.Keys|, |ctx.boards|);
    }
  }

  /** When the buyers number exactly the capacity times the neighbourhoods
      and the run ends without an exception, every neighbourhood with a
      board holds exactly `buyers_per_neighborhood` buyers. */
  lemma AllocationFillsEveryNeighborhood(ctx: Context, buyers: seq<string>, cap: nat, g: string)
    requires ctx.Valid() && NoRepeats(buyers) && forall x :: x in buyers ==> x in ctx.buyers
    requires ctx.capacity == Ok(cap) && |buyers| == cap * |ctx.boards|
    requires AssignAll(ctx, buyers).failure.None?
    requires g in ctx.boards
    ensures |AssignedTo(AssignAll(ctx, buyers).state.assignments, g)| == cap
  {
    var a := AssignAll(ctx, buyers).state.assignments;
    AllocationSound(ctx, buyers);
    assert Placed(a) == multiset(buyers);
    TimesIsProduct(cap, |ctx.boards|);
    PlacementFills(ctx, a, cap, g);
  }

  /** A list without repeated indices repeats no name. */
  lemma {:induction false} DistinctNoRepeats(s: seq<string>)
    requires forall i, j :: 0 <= i < j < |s| ==> s[i] != s[j]
    ensures NoRepeats(s)
    decreases |s|
  {
    if s != [] {
      var front := s[..|s| - 1];
      var last := s[|s| - 1];
      assert s == front + [last];
      DistinctNoRepeats(front);
      assert last !in front;
      forall x ensures multiset(s)[x] <= 1 {
        assert multiset(s)[x] == multiset(front)[x] + multiset([last])[x];
      }
    }
  }

  /** A list without repeats that holds exactly the elements of `keys` is
      as long as `keys` is large. */
  lemma {:induction false} DistinctSize(s: seq<string>, keys: set<string>)
    requires forall i, j :: 0 <= i < j < |s| ==> s[i] != s[j]
    requires forall x :: x in s <==> x in keys
    ensures |s| == |keys|
    decreases |s|
  {
    if s != [] {
      var front := s[..|s| - 1];
      var last := s[|s| - 1];
      assert s == front + [last];
      assert forall x :: x in front <==> x in keys - {last};
      DistinctSize(front, keys - {last});
    }
  }

  /** `assign_home_buyers` on a registry: the buyers in
      `sorted_home_buyers` order against the sorted boards. Every placement
      follows the rules, a run that ends without an exception places every
      registered buyer once, and then, when `buyers_per_neighborhood` has
      a value, every neighbourhood holds exactly that many buyers. */
  lemma AssignHomeBuyersOnRegistry(s: Registry.State, capacity: Result<nat, Error>)
    requires s.Valid()
    requires capacity.Ok? ==> capacity.value * |s.neighborhoods| == |s.homeBuyers|
    ensures var sorted := s.SortedHomeBuyers();
      && (forall x :: x in sorted ==> x in s.homeBuyers)
      && var o := AssignAll(ContextOn(s, capacity), sorted);
      && Placement(ContextOn(s, capacity), o.state.assignments)
      && (o.failure.None? ==> Placed(o.state.assignments) == multiset(s.buyerOrder))
      && (o.failure.None? && capacity.Ok? ==>
            forall g :: g in s.neighborhoods ==> |AssignedTo(o.state.assignments, g)| == capacity.value)
  {
    var ctx := ContextOn(s, capacity);
    var sorted := s.SortedHomeBuyers();
    DistinctNoRepeats(s.buyerOrder);
    assert NoRepeats(sorted) by {
      forall x ensures multiset(sorted)[x] <= 1 { assert multiset(sorted)[x] == multiset(s.buyerOrder)[x]; }
    }
    assert forall x :: x in sorted ==> x in s.homeBuyers by {
      forall x | x in sorted ensures x in s.homeBuyers {
        assert x in multiset(sorted);
        assert x in multiset(s.buyerOrder);
      }
    }
    AllocationSound(ctx, sorted);
    var o := AssignAll(ctx, sorted);
    if o.failure.None? && ctx.capacity.Ok? {
      var cap := ctx.capacity.value;
      DistinctSize(s.buyerOrder, s.homeBuyers.Keys);
      assert |sorted| == |multiset(sorted)| == |s.homeBuyers|;
      assert |ctx.boards| == |s.neighborhoods| by { assert ctx.boards.Keys == s.neighborhoods.Keys; }
      forall g | g in s.neighborhoods ensures |AssignedTo(o.state.assignments, g)| == cap {
        AllocationFillsEveryNeighborhood(ctx, sorted, cap, g);
      }
    }
  }

}
