/** `Parser` of src/utils.py: the record lines `N name E:e W:w R:r` and
    `H name E:e W:w R:r p1>p2>...`, and the loop that feeds every record
    line of the input to one `HomeBuyerAssigner`. */
module Utils {
  import opened Wrappers
  import opened Errors
  import opened Text
  import opened Scoring
  import opened Entities
  import Registry
  import Assigner

  /** `vector.split(":")[1]`: the text between the first and the second
      `:`; `None` where Python raises IndexError. */
  function Field(token: string): (f: Option<string>)
    ensures f.Some? <==> ':' in token
    ensures f.Some? ==> ':' !in f.value
  {
    SplitHasSeparator(token, ':');
    var pieces := Split(token, ':');
    if |pieces| >= 2 then Some(pieces[1]) else None
  }

  /** `int(vector.split(":")[1])`; `None` where either step raises. */
  function FieldValue(token: string): Option<int>
  {
    match Field(token)
    case None => None
    case Some(f) => ParseInt(f)
  }

  /** The ValueError `parse_to_vectors` re-raises for a token whose value
      cannot be read: the IndexError of a token without `:` becomes "We
      require 3 vectors", the ValueError of `int` "Missing Vectors Values". */
  function TokenError(token: string, tokens: seq<string>): Error
  {
    if ':' in token then MissingVectorValues(tokens) else VectorsRequired(tokens)
  }

  /** The generator of `parse_to_vectors` from token `i` on: the values in
      order, or the error of the first token that cannot be read. */
  function ParseFrom(tokens: seq<string>, i: nat): (r: Result<seq<int>, Error>)
    requires i <= |tokens|
    ensures r.Ok? <==> forall j :: i <= j < |tokens| ==> FieldValue(tokens[j]).Some?
    ensures r.Ok? ==> |r.value| == |tokens| - i && forall j :: i <= j < |tokens| ==> FieldValue(tokens[j]) == Some(r.value[j - i])
    decreases |tokens| - i
  {
    if i == |tokens| then Ok([])
    else
      match FieldValue(tokens[i])
      case None => Err(TokenError(tokens[i], tokens))
      case Some(v) =>
        match ParseFrom(tokens, i + 1)
        case Err(e) => Err(e)
        case Ok(vs) => Ok([v] + vs)
  }

  /** The first token that cannot be read decides the error. */
  lemma {:induction false} ParseFromFails(tokens: seq<string>, k: nat, i: nat)
    requires k <= i < |tokens| && FieldValue(tokens[i]).None?
    requires forall j :: k <= j < i ==> FieldValue(tokens[j]).Some?
    ensures ParseFrom(tokens, k) == Err(TokenError(tokens[i], tokens))
    decreases i - k
  {
    if k < i {
      ParseFromFails(tokens, k + 1, i);
    }
  }

  /** A line of the input that `parse_to_assigner` dispatches on `c`. */
  predicate StartsWith(line: string, c: char)
  {
    |line| >= 1 && line[0] == c
  }

  class Parser {
    const originalInput: string

    constructor(originalInput: string)
      ensures this.originalInput == originalInput
    {
      this.originalInput := originalInput;
    }

    /** `parse_to_vectors`: one integer per token, each read from between
        the token's first and second `:`, whatever the tag before it and
        however many tokens there are. */
    static function ParseToVectors(tokens: seq<string>): (r: Result<seq<int>, Error>)
      ensures r.Ok? <==> forall i :: 0 <= i < |tokens| ==> FieldValue(tokens[i]).Some?
      ensures r.Ok? ==> |r.value| == |tokens| && forall i :: 0 <= i < |tokens| ==> FieldValue(tokens[i]) == Some(r.value[i])
      ensures r.Err? ==> r.error == VectorsRequired(tokens) || r.error == MissingVectorValues(tokens)
    {
      ParseFromErrors(tokens, 0);
      ParseFrom(tokens, 0)
    }

    /** `parse_to_neighborhood`: exactly five space-separated tokens, the
        name second and the vector from the last three; the scoreboard
        starts empty. */
    static function ParseToNeighborhood(text: string): (r: Result<Neighborhood, Error>)
      ensures var data := Split(text, ' ');
        && (|data| != 5 ==> r == Err(InvalidNeighborhoodFormat(text)))
        && (r.Ok? <==> |data| == 5 && FieldValue(data[2]).Some? && FieldValue(data[3]).Some? && FieldValue(data[4]).Some?)
        && (r.Ok? ==> r.value.name == data[1] && r.value.scores == []
                      && r.value.vector == Vector(FieldValue(data[2]).value, FieldValue(data[3]).value, FieldValue(data[4]).value))
    {
      var data := Split(text, ' ');
      if |data| != 5 then Err(InvalidNeighborhoodFormat(text))
      else
        assert data[2..] == [data[2], data[3], data[4]];
        match ParseToVectors(data[2..])
        case Err(e) => Err(e)
        case Ok(vs) =>
          Ok(Neighborhood(data[1], Vector(vs[0], vs[1], vs[2]), []))
    }

    /** `parse_to_home_buyer`: exactly six space-separated tokens, the name
        second, the vector from tokens 2-4 and the preferences from the
        last token split on `>`; no score yet. */
    static function ParseToHomeBuyer(text: string): (r: Result<HomeBuyer, Error>)
      ensures var data := Split(text, ' ');
        && (|data| != 6 ==> r == Err(InvalidHomeBuyerFormat(text)))
        && (r.Ok? <==> |data| == 6 && FieldValue(data[2]).Some? && FieldValue(data[3]).Some? && FieldValue(data[4]).Some?)
        && (r.Ok? ==> r.value.name == data[1] && r.value.scores == map[] && r.value.preferences == Split(data[5], '>')
                      && r.value.vector == Vector(FieldValue(data[2]).value, FieldValue(data[3]).value, FieldValue(data[4]).value))
    {
      var data := Split(text, ' ');
      if |data| != 6 then Err(InvalidHomeBuyerFormat(text))
      else
        assert data[2..5] == [data[2], data[3], data[4]];
        match ParseToVectors(data[2..5])
        case Err(e) => Err(e)
        case Ok(vs) =>
          Ok(HomeBuyer(data[1], Vector(vs[0], vs[1], vs[2]), Split(data[5], '>'), map[]))
    }

    /** `parse_to_assigner`: a fresh assigner, then, line by line, an `N`
        line added as a neighbourhood and an `H` line as a home buyer, any
        other line skipped; the first exception ends the run. */
    method ParseToAssigner() returns (r: Result<Assigner.HomeBuyerAssigner, Error>)
      ensures var (t, err) := Load(SplitLines(originalInput), Registry.Empty());
        && (r.Ok? <==> err.None?)
        && (r.Err? ==> r.error == err.value)
        && (r.Ok? ==> fresh(r.value) && r.value.Valid() && r.value.State() == t && r.value.assignments == map[])
    {
      var assigner := new Assigner.HomeBuyerAssigner();
      var lines := SplitLines(originalInput);
      ghost var target := Load(lines, Registry.Empty());
      var i := 0;
      assert lines[i..] == lines;
      while i < |lines|
        invariant 0 <= i <= |lines|
        invariant fresh(assigner) && assigner.Valid() && assigner.assignments == map[]
        invariant target == Load(lines[i..], assigner.State())
      {
        ghost var rest := lines[i..];
        assert rest[0] == lines[i] && rest[1..] == lines[i + 1..];
        var err := LoadLineInto(assigner, lines[i]);
        if err.Some? {
          return Err(err.value);
        }
        i := i + 1;
      }
      return Ok(assigner);
    }
  }

  /** One pass of the loop of `parse_to_assigner`, applied to `assigner`. */
  method LoadLineInto(assigner: Assigner.HomeBuyerAssigner, line: string) returns (err: Option<Error>)
    requires assigner.Valid()
    modifies assigner`neighborhoods, assigner`homeBuyers, assigner`buyerOrder
    ensures assigner.Valid()
    ensures (assigner.State(), err) == LoadLine(line, old(assigner.State()))
  {
    if StartsWith(line, 'N') {
      var n := Parser.ParseToNeighborhood(line);
      if n.Err? {
        return Some(n.error);
      }
      assigner.AddNeighborhood(n.value);
      err := None;
    } else if StartsWith(line, 'H') {
      var b := Parser.ParseToHomeBuyer(line);
      if b.Err? {
        return Some(b.error);
      }
      err := assigner.AddHomeBuyer(b.value);
    } else {
      err := None;
    }
  }

  lemma {:induction false} ParseFromErrors(tokens: seq<string>, i: nat)
    requires i <= |tokens|
    ensures ParseFrom(tokens, i).Err? ==>
      ParseFrom(tokens, i).error == VectorsRequired(tokens) || ParseFrom(tokens, i).error == MissingVectorValues(tokens)
    decreases |tokens| - i
  {
    if i < |tokens| {
      ParseFromErrors(tokens, i + 1);
    }
  }

  /** `parse_to_vectors` raises for the first token that cannot be read:
      "We require 3 vectors" when it has no `:`, "Missing Vectors Values"
      when the text after its `:` is not an integer. */
  lemma ParseToVectorsFails(tokens: seq<string>, i: nat)
    requires i < |tokens| && FieldValue(tokens[i]).None?
    requires forall j :: 0 <= j < i ==> FieldValue(tokens[j]).Some?
    ensures Parser.ParseToVectors(tokens) == Err(TokenError(tokens[i], tokens))
  {
    ParseFromFails(tokens, 0, i);
  }

  /** A token `tag:value` with a `:`-free tag and value gives back the
      value. */
  lemma FieldOfLabelled(tag: string, value: string)
    requires ':' !in tag && ':' !in value
    ensures Field(tag + ":" + value) == Some(value)
  {
    SplitAfterPiece(tag, value, ':');
    SplitWithoutSeparator(value, ':');
  }

  /** `tag:n` with `n` written by `str` reads back as `n`. */
  lemma FieldValueOfNumber(tag: string, n: int)
    requires ':' !in tag
    ensures FieldValue(tag + ":" + IntToString(n)) == Some(n)
  {
    IntToStringSeparators(n);
    FieldOfLabelled(tag, IntToString(n));
    ParseIntOfString(n);
  }

  /** The tokens `E:e`, `W:w` and `R:r` of a vector. */
  function VectorTokens(v: Vector): (ts: seq<string>)
    ensures |ts| == 3
  {
    ["E:" + IntToString(v.efficiency), "W:" + IntToString(v.water), "R:" + IntToString(v.resilience)]
  }

  /** The line `N name E:e W:w R:r` of a neighbourhood. */
  function NeighborhoodLine(name: string, v: Vector): string
  {
    Join(["N", name] + VectorTokens(v), ' ')
  }

  /** The line `H name E:e W:w R:r p1>p2>...` of a home buyer. */
  function HomeBuyerLine(name: string, v: Vector, prefs: seq<string>): string
  {
    Join(["H", name] + VectorTokens(v) + [Join(prefs, '>')], ' ')
  }

  /** The vector tokens hold no space and read back as the vector. */
  lemma VectorTokensRead(v: Vector)
    ensures forall i :: 0 <= i < 3 ==> ' ' !in VectorTokens(v)[i]
    ensures FieldValue(VectorTokens(v)[0]) == Some(v.efficiency)
    ensures FieldValue(VectorTokens(v)[1]) == Some(v.water)
    ensures FieldValue(VectorTokens(v)[2]) == Some(v.resilience)
  {
    IntToStringSeparators(v.efficiency);
    IntToStringSeparators(v.water);
    IntToStringSeparators(v.resilience);
    FieldValueOfNumber("E", v.efficiency);
    FieldValueOfNumber("W", v.water);
    FieldValueOfNumber("R", v.resilience);
    assert VectorTokens(v)[0] == "E" + ":" + IntToString(v.efficiency);
    assert VectorTokens(v)[1] == "W" + ":" + IntToString(v.water);
    assert VectorTokens(v)[2] == "R" + ":" + IntToString(v.resilience);
  }

  /** Parsing the line of a neighbourhood whose name holds no space gives
      the neighbourhood back, with an empty scoreboard. */
  lemma ParseNeighborhoodLine(name: string, v: Vector)
    requires ' ' !in name
    ensures Parser.ParseToNeighborhood(NeighborhoodLine(name, v)) == Ok(Neighborhood(name, v, []))
  {
    var parts := ["N", name] + VectorTokens(v);
    VectorTokensRead(v);
    assert forall i :: 0 <= i < |parts| ==> ' ' !in parts[i];
    JoinThenSplit(parts, ' ');
  }

  /** Parsing the line of a home buyer whose name and preferences hold no
      space, and whose preferences hold no `>`, gives the buyer back with
      no scores; a buyer needs at least one preference, since an empty
      last token splits into one empty preference. */
  lemma ParseHomeBuyerLine(name: string, v: Vector, prefs: seq<string>)
    requires ' ' !in name && prefs != []
    requires forall i :: 0 <= i < |prefs| ==> ' ' !in prefs[i] && '>' !in prefs[i]
    ensures Parser.ParseToHomeBuyer(HomeBuyerLine(name, v, prefs)) == Ok(HomeBuyer(name, v, prefs, map[]))
  {
    var parts := ["H", name] + VectorTokens(v) + [Join(prefs, '>')];
    VectorTokensRead(v);
    JoinWithout(prefs, '>', ' ');
    assert forall i :: 0 <= i < |parts| ==> ' ' !in parts[i];
    JoinThenSplit(parts, ' ');
    JoinThenSplit(prefs, '>');
  }

  // ---------------------------------------------------------------------
  // parse_to_assigner as a function of the lines
  // ---------------------------------------------------------------------

  /** What one line of the input does to the registry `s`: a line starting
      with `N` adds the neighbourhood it describes, one starting with `H`
      adds the home buyer it describes (scoring it at once), any other line
      is skipped; a line that does not parse, or a buyer preferring an
      unknown neighbourhood, raises. */
  function LoadLine(line: string, s: Registry.State): (r: (Registry.State, Option<Error>))
  {
    if StartsWith(line, 'N') then
      match Parser.ParseToNeighborhood(line)
      case Err(e) => (s, Some(e))
      case Ok(n) => (s.AddNeighborhood(n), None)
    else if StartsWith(line, 'H') then
      match Parser.ParseToHomeBuyer(line)
      case Err(e) => (s, Some(e))
      case Ok(b) => s.AddHomeBuyer(b)
    else (s, None)
  }

  /** The registry `parse_to_assigner` builds from `lines`, starting from
      `s`, and the exception that ended the run, if any; what was added
      before it stays added. */
  function Load(lines: seq<string>, s: Registry.State): (r: (Registry.State, Option<Error>))
    decreases |lines|
  {
    if lines == [] then (s, None)
    else
      var (t, err) := LoadLine(lines[0], s);
      if err.Some? then (t, err) else Load(lines[1..], t)
  }

  /** The lines `parse_to_assigner` acts on: those starting with `N` or `H`. */
  function RecordLines(lines: seq<string>): (r: seq<string>)
    ensures forall i :: 0 <= i < |r| ==> StartsWith(r[i], 'N') || StartsWith(r[i], 'H')
    decreases |lines|
  {
    if lines == [] then []
    else if StartsWith(lines[0], 'N') || StartsWith(lines[0], 'H') then [lines[0]] + RecordLines(lines[1..])
    else RecordLines(lines[1..])
  }

  /** Lines that start with neither `N` nor `H` change nothing. */
  lemma {:induction false} LoadSkipsOtherLines(lines: seq<string>, s: Registry.State)
    ensures Load(lines, s) == Load(RecordLines(lines), s)
    decreases |lines|
  {
    if lines != [] {
      var rest := RecordLines(lines[1..]);
      if StartsWith(lines[0], 'N') || StartsWith(lines[0], 'H') {
        assert ([lines[0]] + rest)[0] == lines[0] && ([lines[0]] + rest)[1..] == rest;
        forall t: Registry.State ensures Load(lines[1..], t) == Load(rest, t) {
          LoadSkipsOtherLines(lines[1..], t);
        }
      } else {
        LoadSkipsOtherLines(lines[1..], s);
      }
    }
  }

  /** The second token of every line starting with `c`. */
  function NamesOn(lines: seq<string>, c: char): set<string>
    decreases |lines|
  {
    if lines == [] then {}
    else
      var data := Split(lines[0], ' ');
      (if StartsWith(lines[0], c) && |data| >= 2 then {data[1]} else {}) + NamesOn(lines[1..], c)
  }

  /** A run without an exception registers the name of every `N` line as a
      neighbourhood and that of every `H` line as a home buyer, and nothing
      else. */
  lemma LoadRegisters(lines: seq<string>, s: Registry.State)
    ensures Load(lines, s).1.None? ==>
      && Load(lines, s).0.neighborhoods.Keys == s.neighborhoods.Keys + NamesOn(lines, 'N')
      && Load(lines, s).0.homeBuyers.Keys == s.homeBuyers.Keys + NamesOn(lines, 'H')
  {
    LoadRegistersNeighborhoods(lines, s);
    LoadRegistersHomeBuyers(lines, s);
  }

  lemma {:induction false} LoadRegistersNeighborhoods(lines: seq<string>, s: Registry.State)
    ensures Load(lines, s).1.None? ==>
      Load(lines, s).0.neighborhoods.Keys == s.neighborhoods.Keys + NamesOn(lines, 'N')
    decreases |lines|
  {
    if lines != [] {
      var line := lines[0];
      if StartsWith(line, 'N') {
        if Parser.ParseToNeighborhood(line).Ok? {
          var n := Parser.ParseToNeighborhood(line).value;
          var t := s.AddNeighborhood(n);
          LoadNeighborhoodLine(lines, s);
          LoadRegistersNeighborhoods(lines[1..], t);
          assert t.neighborhoods.Keys == s.neighborhoods.Keys + {n.name};
        }
      } else if StartsWith(line, 'H') {
        if Parser.ParseToHomeBuyer(line).Ok? {
          var b := Parser.ParseToHomeBuyer(line).value;
          LoadHomeBuyerLine(lines, s);
          var t := s.AddHomeBuyer(b).0;
          assert t.neighborhoods.Keys == s.neighborhoods.Keys;
          LoadRegistersNeighborhoods(lines[1..], t);
        }
      } else {
        LoadOtherLine(lines, s);
        LoadRegistersNeighborhoods(lines[1..], s);
      }
    }
  }

  lemma {:induction false} LoadRegistersHomeBuyers(lines: seq<string>, s: Registry.State)
    ensures Load(lines, s).1.None? ==>
      Load(lines, s).0.homeBuyers.Keys == s.homeBuyers.Keys + NamesOn(lines, 'H')
    decreases |lines|
  {
    if lines != [] {
      var line := lines[0];
      if StartsWith(line, 'N') {
        if Parser.ParseToNeighborhood(line).Ok? {
          var n := Parser.ParseToNeighborhood(line).value;
          var t := s.AddNeighborhood(n);
          LoadNeighborhoodLine(lines, s);
          LoadRegistersHomeBuyers(lines[1..], t);
          assert t.homeBuyers.Keys == s.homeBuyers.Keys;
        }
      } else if StartsWith(line, 'H') {
        if Parser.ParseToHomeBuyer(line).Ok? {
          var b := Parser.ParseToHomeBuyer(line).value;
          LoadHomeBuyerLine(lines, s);
          var t := s.AddHomeBuyer(b).0;
          assert t.homeBuyers.Keys == s.homeBuyers.Keys + {b.name};
          LoadRegistersHomeBuyers(lines[1..], t);
        }
      } else {
        LoadOtherLine(lines, s);
        LoadRegistersHomeBuyers(lines[1..], s);
      }
    }
  }

  /** The registry stays well formed, however the run ends. */
  lemma {:induction false} LoadKeepsValid(lines: seq<string>, s: Registry.State)
    requires s.Valid()
    ensures Load(lines, s).0.Valid()
    decreases |lines|
  {
    if lines != [] {
      var line := lines[0];
      if StartsWith(line, 'N') {
        if Parser.ParseToNeighborhood(line).Ok? {
          var n := Parser.ParseToNeighborhood(line).value;
          LoadNeighborhoodLine(lines, s);
          LoadKeepsValid(lines[1..], s.AddNeighborhood(n));
        }
      } else if StartsWith(line, 'H') {
        if Parser.ParseToHomeBuyer(line).Ok? {
          var b := Parser.ParseToHomeBuyer(line).value;
          Registry.AddHomeBuyerRegisters(s, b);
          LoadHomeBuyerLine(lines, s);
          LoadKeepsValid(lines[1..], s.AddHomeBuyer(b).0);
        }
      } else {
        LoadOtherLine(lines, s);
        LoadKeepsValid(lines[1..], s);
      }
    }
  }

  lemma LoadOtherLine(lines: seq<string>, s: Registry.State)
    requires lines != [] && !StartsWith(lines[0], 'N') && !StartsWith(lines[0], 'H')
    ensures Load(lines, s) == Load(lines[1..], s)
    ensures NamesOn(lines, 'N') == NamesOn(lines[1..], 'N') && NamesOn(lines, 'H') == NamesOn(lines[1..], 'H')
  {
  }

  lemma LoadNeighborhoodLine(lines: seq<string>, s: Registry.State)
    requires lines != [] && StartsWith(lines[0], 'N') && Parser.ParseToNeighborhood(lines[0]).Ok?
    ensures var n := Parser.ParseToNeighborhood(lines[0]).value;
      && Load(lines, s) == Load(lines[1..], s.AddNeighborhood(n))
      && NamesOn(lines, 'N') == {n.name} + NamesOn(lines[1..], 'N')
      && NamesOn(lines, 'H') == NamesOn(lines[1..], 'H')
  {
  }

  lemma LoadHomeBuyerLine(lines: seq<string>, s: Registry.State)
    requires lines != [] && StartsWith(lines[0], 'H') && Parser.ParseToHomeBuyer(lines[0]).Ok?
    ensures var b := Parser.ParseToHomeBuyer(lines[0]).value;
      && Load(lines, s) == (if s.AddHomeBuyer(b).1.Some? then s.AddHomeBuyer(b) else Load(lines[1..], s.AddHomeBuyer(b).0))
      && NamesOn(lines, 'H') == {b.name} + NamesOn(lines[1..], 'H')
      && NamesOn(lines, 'N') == NamesOn(lines[1..], 'N')
  {
  }
}
