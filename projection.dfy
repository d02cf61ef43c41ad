/** `sorted_assignments` and the text `format_results` builds from it
    (src/models.py): each neighbourhood's buyers by descending score for
    that neighbourhood, and one line per neighbourhood in name order. */
module Projection {
  import opened Wrappers
  import opened Text
  import opened Sorting
  import opened Entities

  /** The sort key `x.scores.get(neighborhood.name, 0)` for neighbourhood `g`. */
  function ScoreFor(g: string): HomeBuyer -> int
  {
    (b: HomeBuyer) => ScoreOrZero(b.scores, g)
  }

  /** `sorted_assignments`: every neighbourhood's buyers sorted by their
      score for it, highest first, ties in assignment order. */
  function SortedAssignments(assignments: map<string, seq<HomeBuyer>>): (r: map<string, seq<HomeBuyer>>)
    ensures r.Keys == assignments.Keys
    ensures forall g :: g in r ==> multiset(r[g]) == multiset(assignments[g])
    ensures forall g :: g in r ==>
      forall i, j :: 0 <= i < j < |r[g]| ==> ScoreOrZero(r[g][i].scores, g) >= ScoreOrZero(r[g][j].scores, g)
  {
    map g | g in assignments :: SortDescendingBy(assignments[g], ScoreFor(g))
  }

  /** Buyers with equal scores keep the order in which they were assigned. */
  lemma SortedAssignmentsStable(assignments: map<string, seq<HomeBuyer>>, g: string, v: int)
    requires g in assignments
    ensures WithKey(SortedAssignments(assignments)[g], ScoreFor(g), v) == WithKey(assignments[g], ScoreFor(g), v)
  {
    SortDescendingStable(assignments[g], ScoreFor(g), v);
  }

  /** `f"{home_buyer}({score})"` for neighbourhood `g`. */
  function Entry(b: HomeBuyer, g: string): string
  {
    b.name + "(" + IntToString(ScoreOrZero(b.scores, g)) + ")"
  }

  /** The entries of a line, each followed by a space. */
  function Entries(bs: seq<HomeBuyer>, g: string): string
    decreases |bs|
  {
    if bs == [] then "" else Entry(bs[0], g) + " " + Entries(bs[1..], g)
  }

  /** The line of neighbourhood `g`: its name, a colon, a space, then its
      buyers' entries each followed by a space. */
  function FormatLine(g: string, bs: seq<HomeBuyer>): string
  {
    g + ": " + Entries(bs, g)
  }

  /** The entries of `bs`, one per buyer. */
  function EntryTokens(bs: seq<HomeBuyer>, g: string): (r: seq<string>)
    ensures |r| == |bs| && forall i :: 0 <= i < |bs| ==> r[i] == Entry(bs[i], g)
  {
    seq(|bs|, i requires 0 <= i < |bs| => Entry(bs[i], g))
  }

  /** Appending one buyer appends its entry and a space. */
  lemma {:induction false} EntriesAppend(bs: seq<HomeBuyer>, b: HomeBuyer, g: string)
    ensures Entries(bs + [b], g) == Entries(bs, g) + Entry(b, g) + " "
    decreases |bs|
  {
    if bs != [] {
      assert (bs + [b])[0] == bs[0] && (bs + [b])[1..] == bs[1..] + [b];
      EntriesAppend(bs[1..], b, g);
      ConcatAssoc(Entry(bs[0], g) + " ", Entries(bs[1..], g), Entry(b, g), " ");
    }
  }

  lemma ConcatAssoc(head: string, rest: string, e: string, sp: string)
    ensures head + (rest + e + sp) == head + rest + e + sp
  {
  }

  /** Appending one buyer appends its entry and a space to the line. */
  lemma FormatLineAppend(g: string, bs: seq<HomeBuyer>, b: HomeBuyer)
    ensures FormatLine(g, bs + [b]) == FormatLine(g, bs) + Entry(b, g) + " "
  {
    EntriesAppend(bs, b, g);
  }

  /** The entries are the space-separated tokens that close with an empty one. */
  lemma {:induction false} EntriesJoin(bs: seq<HomeBuyer>, g: string)
    ensures Entries(bs, g) == Join(EntryTokens(bs, g) + [""], ' ')
    decreases |bs|
  {
    if bs != [] {
      EntriesJoin(bs[1..], g);
      assert EntryTokens(bs, g) + [""] == [Entry(bs[0], g)] + (EntryTokens(bs[1..], g) + [""]);
    }
  }

  /** Splitting a line on spaces gives `name:`, one entry per buyer in list
      order, and the empty piece after the last space, provided no name
      holds a space. */
  lemma FormatLineTokens(g: string, bs: seq<HomeBuyer>)
    requires ' ' !in g
    requires forall i :: 0 <= i < |bs| ==> ' ' !in bs[i].name
    ensures Split(FormatLine(g, bs), ' ') == [g + ":"] + EntryTokens(bs, g) + [""]
  {
    var parts := [g + ":"] + EntryTokens(bs, g) + [""];
    EntriesJoin(bs, g);
    assert parts == [g + ":"] + (EntryTokens(bs, g) + [""]);
    assert FormatLine(g, bs) == Join(parts, ' ');
    forall i | 0 <= i < |parts| ensures ' ' !in parts[i] {
      if 1 <= i <= |bs| {
        IntToStringSeparators(ScoreOrZero(bs[i - 1].scores, g));
      }
    }
    JoinThenSplit(parts, ' ');
  }

  /** An entry splits at `(` into the buyer's name and its score followed
      by `)`, and that score reads back as the number, provided the name
      holds no `(`. */
  lemma EntryParts(b: HomeBuyer, g: string)
    requires '(' !in b.name
    ensures Split(Entry(b, g), '(') == [b.name, IntToString(ScoreOrZero(b.scores, g)) + ")"]
    ensures ParseInt(IntToString(ScoreOrZero(b.scores, g))) == Some(ScoreOrZero(b.scores, g))
  {
    var score := IntToString(ScoreOrZero(b.scores, g));
    IntToStringSeparators(ScoreOrZero(b.scores, g));
    assert Entry(b, g) == b.name + ['('] + (score + ")");
    SplitAfterPiece(b.name, score + ")", '(');
    assert '(' !in score + ")";
    SplitWithoutSeparator(score + ")", '(');
    ParseIntOfString(ScoreOrZero(b.scores, g));
  }

  /** The lines of `format_results`, in neighbourhood name order. */
  function ResultLines(assignments: map<string, seq<HomeBuyer>>): (lines: seq<string>)
    ensures |lines| == |assignments|
  {
    var sorted := SortedAssignments(assignments);
    var names := SortedNames(sorted.Keys);
    seq(|names|, i requires 0 <= i < |names| && names[i] in sorted.Keys => FormatLine(names[i], sorted[names[i]]))
  }

  /** Lines built one per neighbourhood name, in name order, are the
      lines of `format_results`. */
  lemma ResultLinesAre(assignments: map<string, seq<HomeBuyer>>, lines: seq<string>)
    requires var names := SortedNames(SortedAssignments(assignments).Keys);
      && |lines| == |names|
      && forall i :: 0 <= i < |names| ==> names[i] in SortedAssignments(assignments) && lines[i] == FormatLine(names[i], SortedAssignments(assignments)[names[i]])
    ensures lines == ResultLines(assignments)
  {
    var all := ResultLines(assignments);
    assert SortedAssignments(assignments).Keys == assignments.Keys;
    assert |all| == |lines|;
    forall i | 0 <= i < |lines| ensures all[i] == lines[i] {
    }
  }

  /** `format_results`: the lines joined by newlines. */
  function FormatResults(assignments: map<string, seq<HomeBuyer>>): string
  {
    Join(ResultLines(assignments), '\n')
  }

  /** No neighbourhood or assigned buyer name holds `c`. */
  ghost predicate NamesWithout(assignments: map<string, seq<HomeBuyer>>, c: char)
  {
    forall g :: g in assignments ==> c !in g && forall b :: b in assignments[g] ==> c !in b.name
  }

  /** Without newlines in the names, the text splits back into one line per
      neighbourhood, in strictly increasing name order, and each line
      begins with its neighbourhood's name and holds its buyers by
      descending score. Nothing assigned gives the empty text. */
  lemma FormatResultsLines(assignments: map<string, seq<HomeBuyer>>)
    requires NamesWithout(assignments, '\n')
    ensures assignments == map[] ==> FormatResults(assignments) == ""
    ensures assignments != map[] ==>
      var lines := Split(FormatResults(assignments), '\n');
      var names := SortedNames(assignments.Keys);
      && |lines| == |assignments|
      && StrictlyIncreasing(names)
      && forall i :: 0 <= i < |lines| ==>
           && names[i] in assignments
           && lines[i] == FormatLine(names[i], SortedAssignments(assignments)[names[i]])
           && lines[i][..|names[i]| + 2] == names[i] + ": "
  {
    if assignments != map[] {
      var lines := ResultLines(assignments);
      LinesWithoutNewline(assignments);
      JoinThenSplit(lines, '\n');
      ResultLinesElements(assignments);
      var names := SortedNames(assignments.Keys);
      forall i | 0 <= i < |lines|
        ensures lines[i][..|names[i]| + 2] == names[i] + ": "
      {
        FormatLinePrefix(names[i], SortedAssignments(assignments)[names[i]]);
      }
    }
  }

  /** Line `i` is the line of the `i`-th neighbourhood name. */
  lemma ResultLinesElements(assignments: map<string, seq<HomeBuyer>>)
    ensures var names := SortedNames(assignments.Keys);
      && |ResultLines(assignments)| == |names|
      && forall i :: 0 <= i < |names| ==>
           && names[i] in assignments
           && ResultLines(assignments)[i] == FormatLine(names[i], SortedAssignments(assignments)[names[i]])
  {
  }

  /** A line starts with its neighbourhood's name, a colon and a space. */
  lemma FormatLinePrefix(g: string, bs: seq<HomeBuyer>)
    ensures |FormatLine(g, bs)| >= |g| + 2 && FormatLine(g, bs)[..|g| + 2] == g + ": "
  {
    assert FormatLine(g, bs) == (g + ": ") + Entries(bs, g);
  }

  lemma LinesWithoutNewline(assignments: map<string, seq<HomeBuyer>>)
    requires NamesWithout(assignments, '\n')
    ensures forall i :: 0 <= i < |ResultLines(assignments)| ==> '\n' !in ResultLines(assignments)[i]
  {
    var lines := ResultLines(assignments);
    var names := SortedNames(assignments.Keys);
    var sorted := SortedAssignments(assignments);
    forall i | 0 <= i < |lines| ensures '\n' !in lines[i] {
      var g := names[i];
      assert g in assignments;
      assert forall b :: b in sorted[g] ==> b in multiset(assignments[g]);
      EntriesNoNewline(sorted[g], g);
      assert lines[i] == g + ": " + Entries(sorted[g], g);
    }
  }

  /** Entries hold a newline only where a buyer's name does. */
  lemma {:induction false} EntriesNoNewline(bs: seq<HomeBuyer>, g: string)
    requires forall b :: b in bs ==> '\n' !in b.name
    ensures '\n' !in Entries(bs, g)
    decreases |bs|
  {
    if bs != [] {
      IntToStringSeparators(ScoreOrZero(bs[0].scores, g));
      EntriesNoNewline(bs[1..], g);
    }
  }
}
