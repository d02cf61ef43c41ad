# Home owners and neighbourhoods: a Dafny model of the allocation engine

The repository assigns home buyers to neighbourhoods. Every neighbourhood
and every buyer has an efficiency/water/resilience vector. A buyer's score
for a neighbourhood is the dot product of the two vectors. A buyer's
`value` is the sum of its scores over its preference list.

`HomeBuyerAssigner` (src/models.py) keeps the registry of neighbourhoods
and buyers. Registering a buyer scores it against each of its preferences
and appends `(buyer, score)` to that neighbourhood's scoreboard. The
assigner then splits the buyers evenly over the neighbourhoods in rounds:

- a shared preference index `k` starts at 0;
- each round visits the buyers still unassigned, highest `value` first;
- a buyer is admitted to `preferences[k]` when its score on that
  neighbourhood's best-first "top remaining slice" is truthy and the
  neighbourhood is below capacity;
- `k` moves on only after a round that admitted nobody.

The result is printed one line per neighbourhood, in name order.

models.py is an older copy of the same engine. Its allocation is a `while`
loop, and it adds `get_first_elements` and free-function parsers. Its
`BaseModel`, `Neighborhood` and `HomeBuyer` (models.py:5-59) compute what
those of src/models.py compute (`calculate_qualifications` is
`calculate_neighborhood_score` without the type check), and its parse
functions (models.py:170-202) are the `Parser` functions of src/utils.py;
each is modelled once, in `Scoring`, `Entities` and `Utils`.
src/utils.py parses the input text (`N name E:e W:w R:r` and
`H name E:e W:w R:r p1>p2>...` lines) into an assigner.

Modules, by file:

| file | module | models |
|---|---|---|
| `scoring.dfy` | `Scoring` | `BaseModel.vectors` and `__mul__` |
| `entities.dfy` | `Entities` | `Neighborhood` and `HomeBuyer` as values: `add_score`, `calculate_neighborhood_score`, `value` |
| `ordered_dicts.dfy` | `OrderedDicts` | `OrderedDict` as a sequence of pairs: construction from pairs, `get` |
| `sorting.dfy` | `Sorting` | Python's stable `sorted` (ascending, `reverse=True`) and sorting names |
| `text.dfy` | `Text` | `str.split`, `'\n'.join`, `str.splitlines`, `int()` and `str()` on integers, string order |
| `errors.dfy` | `Errors` | one variant per exception the core raises, with its Python class |
| `registry.dfy` | `Registry` | the registry content as a value: `add_neighborhood`, `add_home_buyer`, `buyers_per_neighborhood`, the two sorted views |
| `allocation.dfy` | `Allocation` | one visit, one round and the whole run of the allocation as functions, with what they guarantee |
| `assigner.dfy` | `Assigner` | the `HomeBuyerAssigner` class of src/models.py, with fields and methods proved against `Registry`, `Allocation` and `Projection` |
| `projection.dfy` | `Projection` | `sorted_assignments` and `format_results` |
| `utils.dfy` | `Utils` | the `Parser` class of src/utils.py |
| `legacy.dfy` | `Legacy` | models.py: its `HomeBuyerAssigner`, `get_first_elements` and `input_parser` |

The two assigner classes keep the registry in fields:

- `neighborhoods` and `homeBuyers` are maps by name;
- `buyerOrder` is the insertion order of the `home_buyers` dict, which
  decides how the stable sort by `value` breaks ties;
- `assignments` is a map from neighbourhood name to the list of buyers
  placed there.

Their methods change these fields. Loops stay loops:

- the scoring loop of `add_home_buyer`;
- the slice loop of `get_first_buyers_scores_for_neighborhood`;
- the reversed round loop;
- the `while` loop of the legacy `assign_home_buyers`;
- the line loop of the parsers.

Each method's postcondition equates its result or its new state with a
function of `Registry`, `Allocation` or `Projection`. The guarantees are
lemmas about those functions.

An exception is modelled as a value. The allocation returns an `Outcome`:
the state it reached and, when a run stopped on an exception, that
exception. Assignments made before the exception stay in place, as they
do in Python.

## Model

| member | source | states |
|---|---|---|
| Scoring.DotComponents | src/models.py:20-31 | `a * b` is `a.efficiency * b.efficiency + a.water * b.water + a.resilience * b.resilience` |
| Scoring.DotCommutes | src/models.py:20-21 | `a * b == b * a` |
| Scoring.DotSelf | src/models.py:20-21 | `m * m` is the sum of the squares of the three components |
| Entities.Neighborhood.AddScore | src/models.py:44-49 | the scoreboard gains exactly the given pair at its end; name and vector are unchanged |
| Entities.HomeBuyer.CalculateNeighborhoodScore | src/models.py:64-74 | returns the dot product, stores it under the neighbourhood's name, keeps every other score and the buyer's name, vector and preferences |
| Entities.ValueWithoutScores | src/models.py:76-82 | a buyer with no score for any preference has `value` 0 |
| Entities.ValueOfSinglePreference | src/models.py:76-82 | a buyer with one preference, once scored against it, has the product as its `value` |
| Entities.ScoreSumDependsOnPreferencesOnly | src/models.py:82 | `value` depends only on the scores of the listed preferences, an unscored preference counting 0 |
| Registry.Empty | src/models.py:93-96 | a new assigner has no neighbourhood, no buyer and no dict order, and is well formed |
| Registry.Capacity | src/models.py:98-113 | no neighbourhood ⇔ ValueError "No neighborhoods added"; a buyer count the neighbourhood count does not divide ⇔ ArithmeticError; otherwise the exact quotient |
| Registry.State.AddNeighborhood | src/models.py:115-123 | the neighbourhood is stored under its name, replacing one of the same name; other neighbourhoods and all buyers are unchanged |
| Registry.State.Register | src/models.py:134 | the buyer is stored under its name, replacing one of the same name; neighbourhoods are unchanged |
| Registry.State.ScoreOne | src/models.py:137-141 | one pass of the scoring loop changes no key set and no dict order |
| Registry.State.ScorePreferences | src/models.py:136-141 | the scoring loop changes no key set and no dict order, whether it ends normally or on an unknown preference |
| Registry.ScoreOneFacts | src/models.py:137-141 | one pass sets the buyer's score for `g`, appends exactly one (name, score) pair to `g`'s scoreboard, and changes nothing else |
| Registry.ScorePreferencesFrame | src/models.py:136-141 | scoring changes no name, vector or preference list, and no other buyer |
| Registry.ScorePreferencesSucceeds | src/models.py:136-141 | the loop ends without an exception exactly when every preference is a registered neighbourhood |
| Registry.ScorePreferencesFails | src/models.py:136-139 | at the first unknown preference the loop raises "No neighborhood called …" after scoring exactly the preferences before it |
| Registry.ScorePreferencesScores | src/models.py:136-141 | after a successful loop the buyer's score for each preference is its product with that neighbourhood, and its other scores are unchanged |
| Registry.ScorePreferencesScoreboards | src/models.py:136-141 | after a successful loop each scoreboard has gained one (buyer, score) pair per occurrence of the neighbourhood in the preferences, at its end |
| Registry.ScoreSumOfDots | src/models.py:76-82 | with every preference scored, `value` is the sum of the buyer's products with its preferred neighbourhoods |
| Registry.AddHomeBuyerRegisters | src/models.py:125-141 | `add_home_buyer` always registers the buyer (a new name at the end of the dict order, a known one in its place) and keeps the registry well formed; it fails exactly when a preference is unknown |
| Registry.AddHomeBuyerScores | src/models.py:125-141 | on success the buyer has exactly one score per preference, each the dot product with that neighbourhood, its other fields unchanged, and `value` the sum of those products |
| Registry.AddHomeBuyerScoreboards | src/models.py:136-141 | on success a preferred neighbourhood's scoreboard gains exactly one appended (name, score) pair when the preferences have no repeats, and any other scoreboard is unchanged |
| Registry.AddHomeBuyerFails | src/models.py:132-141 | an unknown preference raises ValueError naming it; the buyer stays registered and the preferences before it stay scored |
| Registry.State.SortedNeighborhoodsScores | src/models.py:143-149 | one board per neighbourhood, each without a repeated buyer name |
| Registry.SortedBoard | src/models.py:143-149 | a board keeps each buyer's first position in the score-descending order and its last value; with distinct names it is a permutation of the scoreboard, non-increasing in score and stable on ties |
| Registry.State.SortedHomeBuyers | src/models.py:151-156 | a permutation of the buyer names in dict order, non-decreasing in `value`, each a registered buyer |
| OrderedDicts.FromPairs | src/models.py:148 | `OrderedDict(pairs)` holds no key twice |
| OrderedDicts.FromPairsKeys | src/models.py:148 | its keys are the keys of the pairs, each at its first position |
| OrderedDicts.FromPairsLookup | src/models.py:148 | the value of a key is the last value paired with it |
| OrderedDicts.FromDistinctPairs | src/models.py:180 | `OrderedDict(scores)` of pairs with distinct keys is those pairs, in order |
| OrderedDicts.PutFacts | src/models.py:148 | assigning a key keeps a known key's position, appends a new key, sets its value and changes no other key |
| OrderedDicts.Lookup | src/models.py:216 | `get` finds a value exactly when the key is present |
| OrderedDicts.LookupItem | src/models.py:176 | `sorted_scores.get(home_buyer, 0)` for a key taken from the dict is that entry's value |
| Sorting.SortBy | src/models.py:156 | `sorted(..., key=...)` is a permutation in non-decreasing key order |
| Sorting.SortByStable | src/models.py:156 | elements with equal keys keep their relative order |
| Sorting.SortDescendingBy | src/models.py:148 | `sorted(..., reverse=True)` is a permutation in non-increasing key order |
| Sorting.SortDescendingStable | src/models.py:148 | with `reverse=True` too, elements with equal keys keep their relative order |
| Sorting.SortedNames | src/models.py:244 | the neighbourhood names in strictly increasing string order, each exactly once |
| Sorting.Least | src/models.py:244 | the least name of a non-empty set is in it and below every other name |
| Text.LexLessTotal | src/models.py:244 | Python's string order compares any two distinct strings |
| Text.LexLessTransitive | src/models.py:244 | Python's string order is transitive |
| Text.Split | src/utils.py:20 | `split(" ")` gives at least one piece, none containing the separator |
| Text.SplitThenJoin | src/utils.py:20 | joining the pieces of a split with the separator gives back the text |
| Text.JoinThenSplit | src/models.py:249 | splitting a join of separator-free pieces gives back the pieces |
| Text.SplitHasSeparator | src/utils.py:13 | a split has a second piece exactly when the separator occurs |
| Text.SplitLines | src/utils.py:45 | `splitlines()` gives lines free of every line boundary Python recognises |
| Text.JoinThenSplitLines | src/utils.py:45 | `'\n'.join` of lines free of line breaks, split again, gives back the lines unless the last is empty |
| Text.ParseInt | src/utils.py:13 | `int(s)` succeeds only on non-empty text |
| Text.ParseIntOfString | src/models.py:247 | `int(str(n)) == n` for every integer |
| Text.IntToStringSeparators | src/models.py:247 | `str(n)` contains no space, `:`, `>`, parenthesis or newline |
| Utils.Field | src/utils.py:13 | `split(":")[1]` exists exactly when the token holds a `:`, and holds no `:` itself |
| Utils.ParseFrom | src/utils.py:11-17 | the generator succeeds exactly when every token from `i` on has a readable field, with one value per token in order |
| Utils.ParseFromFails | src/utils.py:12-17 | the first unreadable token decides the exception |
| Utils.ParseFromErrors | src/utils.py:14-17 | every failure is one of the two re-raised ValueErrors |
| Utils.Parser.constructor | src/utils.py:7-8 | keeps the input text |
| Utils.Parser.ParseToVectors | src/utils.py:10-17 | succeeds exactly when every token has a readable field, with one integer per token in order; a failure is "We require 3 vectors" or "Missing Vectors Values"; the token count is not checked |
| Utils.ParseToVectorsFails | src/utils.py:14-17 | a token without `:` gives "We require 3 vectors" and an unreadable number "Missing Vectors Values", when it is the first bad token |
| Utils.Parser.ParseToNeighborhood | src/utils.py:19-28 | a token count other than 5 is a format ValueError; success exactly when tokens 2-4 are readable, giving name token 1, that vector and an empty scoreboard |
| Utils.Parser.ParseToHomeBuyer | src/utils.py:30-41 | a token count other than 6 is a format ValueError; success exactly when tokens 2-4 are readable, giving name token 1, that vector, token 5 split on `>` as preferences and no score |
| Utils.FieldOfLabelled | src/utils.py:13 | the field of `tag:value` is `value` whatever the tag |
| Utils.FieldValueOfNumber | src/utils.py:13 | the field of `tag:str(n)` reads back as `n` |
| Utils.VectorTokensRead | src/utils.py:13 | the tokens `E:e`, `W:w`, `R:r` read back as e, w, r |
| Utils.ParseNeighborhoodLine | src/utils.py:19-28 | `N name E:e W:w R:r` with a space-free name parses back to that neighbourhood with an empty scoreboard |
| Utils.ParseHomeBuyerLine | src/utils.py:30-41 | `H name E:e W:w R:r p1>...>pn` parses back to that buyer, preferences in order, no score |
| Utils.Parser.ParseToAssigner | src/utils.py:43-51 | fails exactly when loading the lines fails, with that exception; otherwise returns a fresh, well-formed assigner holding the loaded registry and no assignment |
| Utils.LoadLineInto | src/utils.py:47-50 | one pass of the line loop changes the assigner as one loading step does |
| Utils.LoadSkipsOtherLines | src/utils.py:46-50 | lines starting with neither `N` nor `H` change nothing |
| Utils.LoadOtherLine | src/utils.py:46-50 | loading skips a first line starting with neither letter |
| Utils.LoadNeighborhoodLine | src/utils.py:47-48 | a parsable `N` line adds its neighbourhood before the rest is loaded |
| Utils.LoadHomeBuyerLine | src/utils.py:49-50 | a parsable `H` line adds its buyer and stops on that buyer's exception |
| Utils.LoadRegisters | src/utils.py:43-51 | a successful load registers exactly the names of the `N` lines as neighbourhoods and of the `H` lines as buyers |
| Utils.LoadRegistersNeighborhoods | src/utils.py:47-48 | the neighbourhood half of that |
| Utils.LoadRegistersHomeBuyers | src/utils.py:49-50 | the buyer half of that |
| Utils.LoadKeepsValid | src/utils.py:43-51 | loading keeps the registry well formed, even when it stops on an exception |
| Allocation.ContextOn | src/models.py:186-188 | the state fixed for a run: the registered buyers, one board per neighbourhood without repeated names, and the capacity |
| Allocation.ContextOf | src/models.py:186-188 | that state with the capacity of src/models.py |
| Allocation.Remove | src/models.py:220 | `list.remove` takes out exactly one occurrence |
| Allocation.FirstBuyersFacts | src/models.py:171-180 | the slice holds board entries of remaining buyers only, no more than the board has, and no name twice |
| Allocation.FirstBuyersWithPositiveLimit | src/models.py:171-180 | with `limit >= 1` the slice is the first `limit` board entries whose buyers remain, in order and with their scores |
| Allocation.FirstBuyersWithoutLimit | src/models.py:174-179 | with `limit <= 0` the slice is the first board entry if that buyer remains, and empty otherwise |
| Allocation.FirstBuyersLookup | src/models.py:176 | a buyer found in the slice remains and has its board score there |
| Allocation.Visit | src/models.py:205-221 | a visit either admits the buyer (it was remaining, is removed, the count grows by one) or changes nothing; an exception is the capacity's or IndexError for `preferences[k]` |
| Allocation.VisitOnSlice | src/models.py:208-221 | a visit admits exactly when the buyer's score in the slice is truthy and the neighbourhood is below capacity, appending the buyer to that neighbourhood |
| Allocation.VisitAdmitted | src/models.py:215-221 | the admitting case of a visit |
| Allocation.VisitRejected | src/models.py:215-218 | the rejecting case of a visit |
| Allocation.VisitAdmits | src/models.py:215-221 | an admission goes to `preferences[k]`, which was below capacity, on whose board the buyer has a truthy score, and the buyer was remaining |
| Allocation.Round | src/models.py:203-221 | a round only removes buyers, one per admission; it changes nothing when it admits nobody; its exception is the capacity's or IndexError at index `k` for a buyer it visited |
| Allocation.RoundLast | src/models.py:204 | a round visits the last buyer of the list first, then the rest |
| Allocation.MaxPreferences | src/models.py:206 | bounds every remaining buyer's preference count |
| Allocation.Allocate | src/models.py:191-226 | a run that ends without an exception has no buyer left, and only buyers it started with ever remain |
| Allocation.AllocateStep | src/models.py:222-226 | after a round: stop on an exception, else go on with `k` moved on only if nobody was admitted; a round without admission leaves the list alone and `k` within the preferences |
| Allocation.AssignAll | src/models.py:182-189 | a run from cleared assignments that ends normally leaves no buyer unassigned |
| Allocation.AppendKeepsPlacement | src/models.py:219 | an admission below capacity, to a preferred neighbourhood with a truthy score, keeps the placement rules |
| Allocation.VisitKeepsInvariant | src/models.py:205-221 | a visit keeps every buyer either placed or remaining, and the placement rules |
| Allocation.RoundKeepsInvariant | src/models.py:203-221 | a round keeps that invariant |
| Allocation.AllocateKeepsInvariant | src/models.py:191-226 | a run keeps that invariant; its exception is the capacity's, or IndexError for a remaining buyer whose preferences ran out |
| Allocation.RoundFailsAtOnce | src/models.py:204-206 | a buyer whose preferences ran out is still remaining when the round raises |
| Allocation.AllocationSound | src/models.py:182-226 | placements never exceed the capacity and go only to a preferred neighbourhood with a truthy score; every buyer is placed once or still remaining; on normal return every buyer is placed exactly once |
| Allocation.ZeroScoreNeverPlaced | src/models.py:215-216 | a buyer placed in a neighbourhood has a non-zero score on its board |
| Allocation.PlacementFills | src/models.py:217 | when as many buyers are placed as capacity times neighbourhoods, every neighbourhood holds exactly the capacity |
| Allocation.AllocationFillsEveryNeighborhood | src/models.py:98-113 | with `capacity * neighbourhoods == buyers`, a run that ends normally fills every neighbourhood exactly to capacity |
| Allocation.AssignHomeBuyersOnRegistry | src/models.py:182-189 | on a well-formed registry: placements follow the rules; on normal return every registered buyer is placed exactly once and, with a capacity, every neighbourhood holds exactly that many |
| Assigner.HomeBuyerAssigner.constructor | src/models.py:93-96 | no neighbourhood, no buyer, no assignment |
| Assigner.HomeBuyerAssigner.AddNeighborhood | src/models.py:115-123 | the new registry is `Registry.State.AddNeighborhood` of the old; assignments unchanged |
| Assigner.HomeBuyerAssigner.AddHomeBuyer | src/models.py:125-141 | the new registry and the exception are `Registry.State.AddHomeBuyer` of the old; the registry stays well formed |
| Assigner.HomeBuyerAssigner.ScorePreferences | src/models.py:136-141 | the scoring loop computes `Registry.State.ScorePreferences` |
| Assigner.HomeBuyerAssigner.GetFirstBuyersScoresForNeighborhood | src/models.py:158-180 | the capacity's exception, or the slice `Allocation.FirstBuyers` with `limit` the capacity minus what the neighbourhood holds |
| Assigner.FirstScores | src/models.py:171-180 | the returned `OrderedDict` is the slice |
| Assigner.CollectFirst | src/models.py:171-179 | the counting loop collects the slice |
| Assigner.HomeBuyerAssigner.AssignHomeBuyers | src/models.py:182-189 | clears the assignments and computes `Allocation.AssignAll`; hence placements follow the rules, and on normal return every buyer is placed once and every neighbourhood is full |
| Assigner.HomeBuyerAssigner.RecursiveHomeBuyersNeighborhoodsMatch | src/models.py:191-226 | the recursion computes `Allocation.Allocate` from the current assignments, list and index |
| Assigner.HomeBuyerAssigner.VisitRound | src/models.py:203-221 | the reversed `for` loop computes `Allocation.Round` over the buyers at the round's start |
| Assigner.HomeBuyerAssigner.VisitBuyer | src/models.py:205-221 | one loop body computes `Allocation.Visit` |
| Assigner.HomeBuyerAssigner.FormatResults | src/models.py:238-249 | the text is `Projection.FormatResults` of the assignments |
| Assigner.FormatAssignments | src/models.py:243-249 | the lines of the sorted neighbourhoods, joined with `\n` |
| Assigner.FormatLines | src/models.py:244-248 | one line per name, in the given order |
| Assigner.FormatLine | src/models.py:245-247 | the line built by `+=` is `Projection.FormatLine` |
| Projection.SortedAssignments | src/models.py:228-236 | each neighbourhood's buyers are permuted into non-increasing order of their score for it; the neighbourhoods are unchanged |
| Projection.SortedAssignmentsStable | src/models.py:234 | buyers with equal scores keep their assignment order |
| Projection.FormatLineAppend | src/models.py:247 | appending a buyer appends `name(score) ` to the line |
| Projection.FormatLinePrefix | src/models.py:245 | every line starts with the neighbourhood name and `: ` |
| Projection.FormatLineTokens | src/models.py:245-247 | split on spaces, a line is `name:`, one `buyer(score)` token per buyer in order, and a final empty token |
| Projection.EntryParts | src/models.py:247 | an entry splits on `(` into the buyer name and the score text, which reads back as the score |
| Projection.ResultLines | src/models.py:243-248 | one line per assigned neighbourhood |
| Projection.ResultLinesElements | src/models.py:243-248 | line `i` is the line of the `i`-th neighbourhood name in string order, with its buyers sorted by score |
| Projection.LinesWithoutNewline | src/models.py:249 | with names free of newlines, no line contains one |
| Projection.FormatResultsLines | src/models.py:238-249 | no assignment gives the empty text; otherwise splitting the text on `\n` gives one line per neighbourhood, names strictly increasing, each line that neighbourhood's buyers by descending score and starting with `name: ` |
| Legacy.Capacity | models.py:72-79 | no neighbourhood ⇔ ZeroDivisionError; a buyer count the neighbourhood count does not divide ⇔ ValueError; otherwise the exact quotient |
| Legacy.CapacityAgainstSource | models.py:72-79 | the legacy capacity succeeds on the same counts with the same quotient as src/models.py, but every failure is raised as another exception class |
| Legacy.HomeBuyerAssigner.constructor | models.py:67-70 | no neighbourhood, no buyer, no assignment |
| Legacy.HomeBuyerAssigner.AddNeighborhood | models.py:81-82 | the new registry is `Registry.State.AddNeighborhood` of the old |
| Legacy.HomeBuyerAssigner.AddHomeBuyer | models.py:84-91 | the new registry and the exception are `Registry.State.AddHomeBuyer` of the old, scoring with `calculate_qualifications` (the same product, stored the same way); the registry stays well formed |
| Legacy.HomeBuyerAssigner.ScorePreferences | models.py:86-91 | the scoring loop computes `Registry.State.ScorePreferences` |
| Legacy.HomeBuyerAssigner.GetFirstBuyersScoresForNeighborhood | models.py:100-115 | the legacy capacity's exception, or the same slice with the legacy capacity |
| Legacy.HomeBuyerAssigner.AssignHomeBuyers | models.py:117-140 | the `while` loop clears the assignments and computes `Allocation.AssignAll` with the legacy capacity; hence placements follow the rules, and on normal return every buyer is placed once and every neighbourhood is full |
| Legacy.HomeBuyerAssigner.VisitRound | models.py:123-138 | the reversed `for` loop computes `Allocation.Round` |
| Legacy.HomeBuyerAssigner.VisitBuyer | models.py:125-138 | one loop body computes `Allocation.Visit` |
| Legacy.HomeBuyerAssigner.PrintResults | models.py:148-155 | `print_results` builds the text of `format_results` |
| Legacy.IncludedElements | models.py:161-164 | an entry is collected only when its key is in `include` |
| Legacy.FirstElementsTakes | models.py:158-167 | with `number >= 1`: the first `number` entries whose keys are in `include`, or all of them when fewer |
| Legacy.FirstElementsZero | models.py:158-167 | with `number == 0`: nothing when the first key is not in `include`, otherwise every included entry |
| Legacy.FirstElementsNegative | models.py:165 | with a negative `number`: every included entry |
| Legacy.FirstBuyersAreFirstElements | models.py:158-167 | for a positive limit `get_first_elements` gives the slice of `get_first_buyers_scores_for_neighborhood` |
| Legacy.GetFirstElements | models.py:158-167 | the counting loop computes `Legacy.FirstElements` |
| Legacy.InputParser | models.py:170-213 | parses each line with `parse_vectors`, `parse_neighborhood` and `parse_home_buyer` (the `Parser` functions of src/utils.py); fails exactly when loading the lines fails, with that exception; otherwise a fresh, well-formed legacy assigner holding the same registry as `parse_to_assigner` |
| Legacy.LoadLineInto | models.py:208-212 | one pass of the line loop changes the legacy assigner as one loading step does |

## Where the code and its description disagree

The model follows the code in each case.

- **Admission test.** A buyer is admitted when its score in the slice is
  truthy (src/models.py:216, models.py:135), not merely when it is in the
  slice. A buyer whose score for a neighbourhood is 0 is never admitted
  there (`Allocation.ZeroScoreNeverPlaced`). So the one-neighbourhood,
  one-buyer case ends in IndexError when that score is 0.
- **Re-registration.** Re-registering a name overwrites the old entry
  (src/models.py:123, 134); it does not fail. The old buyer's pairs stay on
  the scoreboards, so a board can name a buyer twice until
  `OrderedDict` collapses them.
- **Exceptions.** The src/models.py capacity raises ValueError (no
  neighbourhood) and ArithmeticError (not divisible). The models.py one
  raises ZeroDivisionError and ValueError. An allocation that fails keeps
  the assignments made before the exception; it does not roll back.
- **Capacity conservation.** Filling every neighbourhood exactly is proved
  for runs that end without an exception. A run can end in IndexError when
  the shared index passes a buyer's last preference.
- **Duplicate preferences.** Preference lists may repeat a name. The buyer
  then has one score for it, and the scoreboard gains one pair per
  occurrence (`Registry.AddHomeBuyerScoreboards`).
- **`get_first_elements` with `number == 0`.** The `==` test runs after
  each entry. So it fires at once, returning nothing, when the first key is
  not in `include`. Otherwise every included entry is returned.
- **`split(":")[1]`.** This is the text between the first and the second
  `:`, not everything after the first `:`.
- **Vector checks.** tests/test_utils.py:16-34 expects a three-token check
  and the messages "We require the format" and "Some Values aren't
  integers". src/utils.py:10-17 has neither: it reads any number of tokens
  and raises "We require 3 vectors" or "Missing Vectors Values".

## Left out

- File reading (`read_txt_file`, src/utils.py:54-56) and main.py: file I/O
  and printing.
- The `isinstance` checks that raise TypeError (src/models.py:70-71,
  121-122, 132-133): Dafny's types rule those inputs out.
- Float division in both capacities: modelled with integer `/` and `%` on
  the counts; the rounding of floats for counts near 2^53 is not modelled.
- Python's `int()` grammar beyond an optional sign and ASCII digits
  (surrounding whitespace, underscores, other Unicode digits).
- Exception messages: each exception is a variant carrying what its message
  shows, and the Python class it is raised as; the text itself is not
  modelled.
- Object identity: `assignments` is keyed by neighbourhood name instead of
  by `Neighborhood` object, and `defaultdict`'s insertion of an empty list
  on read is not modelled. The registry does not change during a run, so
  names and objects correspond one to one.
- Aliasing between the caller's objects and the registry's: entities are
  values, so a caller's `HomeBuyer` does not see the scores the assigner
  computes on its copy.
- Utils.Parser.ParseToAssigner: returns only the exception when a line
  fails. The half-filled assigner that Python discards with the exception
  is not returned.
- Legacy.InputParser: likewise returns only the exception when a line fails.
- Legacy.GetFirstElements: collects each entry with its own value. For an
  `OrderedDict`, `scores[key]` is that value, since keys are unique.
