# Smartcam experiment — a Dafny model of its core

This project models the computational core of the 2019 smartcam experiment.
In that experiment, simulated cameras in a bounded 2-D world follow moving
targets. A linear program assigns targets to cameras. The post-processing
script then turns the simulator's export files into resampled matrices.

One Dafny module per part of the system:

- `Resampler`, `DimensionMerger`, `HeaderParser` and `Chars` (`resampler.dfy`, `dimension_merger.dfy`,
  `header_parser.dfy`, `chars.dfy`) model the post-processor `process.py`, lines 5-136:
  - nearest-time resampling by bisection (`getClosest`, `convert`);
  - the union of two dimension dictionaries (`valueOrEmptySet`, `mergeDicts`);
  - the header scanners (`extractCoordinates`, `extractVariableNames`);
  - the body reader (`openCsv`).

  The regular expressions are written out as scanners that follow Python's
  left-to-right, first-alternative matching. A file is the sequence of its lines, terminators included.
- `AbstractLinpro` (`abstract_linpro.dfy`) models `solve`, the linear-programming formulation of the
  camera–target assignment:
  - the objective vector, with the optional fake destination;
  - the builder calls for the equality and capacity constraints;
  - the decoding of the solution vector into a map.
- `ScpLinpro` (`scp_linpro.dfy`) models the SCPSolver back end, up to the solver call:
  - the constraint-name counter;
  - the recording builder;
  - the `LinearProgram` assembled from it.
- `LinproCache` (`linpro_cache.dfy`) models the single-entry cache in front of the solver.
- `CamerasKCoverage` (`cameras_k_coverage.dfy`) models the k-coverage exporter: the fraction of targets
  seen by at least k cameras, for k from the maximum down to 1.
- `ObjectsMemory` (`objects_memory.dfy`) models the persistent memory of which camera reported which object.
- `SmartcamEnvironment` (`smartcam_environment.dfy`) models the bounded environment and its movement accumulators.
- `DistanceTraveled` (`distance_traveled.dfy`) models the exporter of the distance the nodes moved between samples.
- Support modules:
  - `Wrappers` holds `Option`;
  - `Geometry` holds the predicate that a distance function is non-negative;
  - `Decimal` holds the decimal rendering `Int.toString()`, used for the names `c1`, `c2`, ... and `3-coverage`.

The model takes the form of the source:

- Functional code becomes functions and lemmas.
- Loops over mutable state become methods, each proved against a
  specification function. Examples: the bisection loop of `getClosest`, the
  merge loop, the array fills of `solve`, the prefix-sum pass of the
  k-coverage exporter, the scan of `insert`.
- Objects whose fields change become classes with `modifies` frames: the
  name factory, the recording builder, the cache, the exporters and the environment.

## Model

| member | source | states |
|---|---|---|
| Chars.Split | process.py:136 | every token of `line.split()` is a non-empty run without whitespace |
| Chars.SplitJoin | process.py:136 | splitting words joined by single spaces, followed by a line terminator, gives back exactly those words |
| Chars.SplitWord | process.py:136 | a word followed by whitespace or the end of the text is split off as the first token |
| Chars.SplitSpace | process.py:136 | a leading space does not change the tokens |
| Chars.SplitOfWhitespace | process.py:136 | a blank text has no tokens |
| Chars.SpaceTokens | process.py:114-115 | every token found by ` (\S+)` is a non-empty run without whitespace |
| Chars.SpaceTokensJoin | process.py:113-115 | the header row ` a b c` followed by its terminator yields exactly the names `a`, `b`, `c` |
| Chars.SpaceTokensWord | process.py:114-115 | a word after a space, followed by whitespace or the end, is the next token found |
| Chars.SpaceTokensSkipsUnprefixed | process.py:114-115 | a token that no space precedes (the leading `#` of a header row) is not reported |
| Chars.SpaceTokensOfWhitespace | process.py:114-115 | a blank text has no space-prefixed tokens |
| Decimal.NatToString | src/main/kotlin/it/unibo/smartcamexperiment/linpro/SCPLinpro.kt:14 | a number renders as a non-empty string of decimal digits with no leading zero |
| Decimal.ParseNatToString | src/main/kotlin/it/unibo/smartcamexperiment/linpro/SCPLinpro.kt:14 | reading the rendered digits back gives the number (round trip) |
| Decimal.NatToStringInjective | src/main/kotlin/it/unibo/smartcamexperiment/linpro/SCPLinpro.kt:14 | different numbers have different renderings |
| Decimal.PrefixedNamesDistinct | src/main/kotlin/it/unibo/smartcamexperiment/linpro/SCPLinpro.kt:14 | names made of one prefix and different counter values differ |
| Decimal.SuffixedNamesDistinct | src/main/kotlin/it/unibo/alchemist/loader/export/CamerasKCoverage.kt:30 | names made of different levels and the suffix `-coverage` differ |
| Resampler.Distance | process.py:5-6 | the distance is non-negative, is `ref - val` or `val - ref`, and is 0 exactly when the two are equal |
| Resampler.Halve | process.py:10-12 | one bisection pass keeps `len/2 + 1` rows (strictly fewer, never fewer than 3): the last ones when the middle time is below `val`, the first ones otherwise |
| Resampler.Narrow | process.py:10-12 | the loop leaves three rows, or all rows of a shorter matrix, each taken from the input |
| Resampler.ArgMin | process.py:20 | `np.argmin` returns an index whose value is smallest, and is strictly smaller than every earlier one (first minimum) |
| Resampler.Pick | process.py:13-21 | the row picked after the loop is one of the remaining rows |
| Resampler.ChosenRow | process.py:9-21 | the row `getClosest` picks is a row of the input matrix |
| Resampler.GetClosest | process.py:9-23 | fails (`None`) exactly on an empty matrix or a column outside it; otherwise returns the row specified by `Closest` (one-row branch corrected, see "## Findings") |
| Resampler.Convert | process.py:25-26 | fails exactly when there are samples and the matrix is empty or lacks the column; otherwise gives one row per sample (one-row branch corrected, see "## Findings") |
| Resampler.ClosestIsRetimedRow | process.py:13-23 | the result is an input row of the same width whose time column is replaced by `val`, every other column unchanged (for every matrix with the one-row branch corrected; for the code as written on two rows or more, by `AsWrittenAgreesOffOneRow`) |
| Resampler.HalveKeepsNearest | process.py:10-12 | one pass keeps the matrix sorted, and for every input row it keeps a row at least as near to `val` |
| Resampler.NarrowKeepsNearest | process.py:10-12 | the bisection loop never loses the nearest distance: a row within `d` of `val` remains within the last rows |
| Resampler.PickWithin | process.py:13-21 | when some remaining row is within `d` of `val`, the picked row is within `d` too |
| Resampler.ChosenRowIsNearest | process.py:9-23 | on a matrix sorted by time, the chosen row's time is at least as near to `val` as the time of every row of the matrix |
| Resampler.ChosenRowFirstNearest | process.py:13-21 | among the rows left by the loop, the chosen one is strictly nearer than every earlier one (ties go to the first) |
| Resampler.ConvertResamples | process.py:25-26 | on a sorted matrix, every converted row carries its sample time and the data of a row nearest to it (one-row branch corrected; as written this holds on two rows or more, by `AsWrittenAgreesOffOneRow`) |
| Resampler.GetClosestAsWritten | process.py:9-23 | `getClosest` as written: a returned row has the matrix's width and `val` in the time column when it has one |
| Resampler.ConvertAsWritten | process.py:25-26 | `convert` as written: one row per sample when it succeeds, and failure for any sample on a one-row matrix |
| Resampler.AsWrittenAgreesOffOneRow | process.py:9-26 | on a matrix of other than one row, the code as written fails exactly on an empty matrix or a missing column and otherwise agrees with the corrected `Closest` and `Convert` |
| Resampler.OneRowAsWrittenDiffers | process.py:13-16 | on one row, as written another column than 0 always fails and column 0 agrees with the retimed row only when every other entry already equals `val`; the corrected result is the row with its time replaced |
| Resampler.OneRowExample | process.py:13-16 | the row `[1, 2]` queried at 5: as written column 1 fails, column 0 gives `[5, 5]` and `convert` fails; corrected, `[1, 5]`, `[5, 2]` and one converted row |
| Resampler.ResampleExample | process.py:9-23 | rows at times 0, 5, 10, 15, 20 queried at 7 give the row of time 5 retimed to 7 |
| DimensionMerger.ValueOrEmptySetRecords | process.py:28-29 | the set holds exactly the values the dictionary records under the key: a set's members, the plain value, or nothing for a missing key |
| DimensionMerger.Merged | process.py:31-53 | the merged keys are the union of both key sets and every merged value is a set |
| DimensionMerger.MergedRecords | process.py:31-53 | a merged key holds exactly the values that either dictionary records under it |
| DimensionMerger.MergeDicts | process.py:50-53 | the loop over the union of the keys builds the dictionary specified by `Merged` |
| DimensionMerger.MergedAt | process.py:52 | each merged entry is the union of the two `valueOrEmptySet`s |
| DimensionMerger.ValuesOfMerged | process.py:28-29 | `valueOrEmptySet` of a merged dictionary is the union of the two dictionaries' `valueOrEmptySet`s |
| DimensionMerger.MergedCommutes | process.py:31-53 | merging is independent of the order of the two dictionaries |
| DimensionMerger.MergedAssociates | process.py:31-53 | merging three dictionaries gives the same result in either grouping |
| DimensionMerger.AssociatesAt | process.py:31-53 | under every key, both groupings of a three-way merge hold the same values |
| DimensionMerger.MergedIdempotent | process.py:31-53 | a dictionary of sets is unchanged by merging it with itself or with the empty dictionary |
| DimensionMerger.MergedWithEmpty | process.py:28-53 | merging with the empty dictionary keeps the keys and turns each plain value into a singleton set |
| HeaderParser.RunLength | process.py:81 | the longest prefix in a character class: every character before it is in the class, and the next one is not |
| HeaderParser.DigitsFrom | process.py:81 | `\d*` matched greedily from a position: every character it covers is a digit and the next one is not |
| HeaderParser.ExponentLength | process.py:81 | the optional exponent matched greedily starts with `e` or `E` and ends with a digit when non-empty |
| HeaderParser.NumberLength | process.py:81 | a match of the numeric alternative is non-empty, fits the text and ends with a digit |
| HeaderParser.ValueLength | process.py:81 | the value group never runs past the text |
| HeaderParser.ValueLengthOfPlain | process.py:81 | a numeric literal (optional sign, digits, optional fraction with digits, optional exponent) or a word of `[a-zA-Z-_]`, followed by whitespace or the end, is read whole |
| HeaderParser.DigitsFromRun | process.py:81 | `\d*` matched greedily from a position ends exactly at the first non-digit |
| HeaderParser.NumberLengthOfParts | process.py:81 | the match is the sign and the integer digits, then the fraction when a `.` and digits follow them, then the greedy exponent |
| HeaderParser.NumberLengthOfLayout | process.py:81 | a numeric literal laid out in the text (sign, digits, fraction, exponent, then no digit) is read up to its end |
| HeaderParser.ValueLengthOfNumber | process.py:81 | a numeric literal followed by whitespace or the end is read whole by the numeric alternative |
| HeaderParser.ValueLengthOfWord | process.py:81 | a word of `[a-zA-Z-_]` followed by whitespace or the end is read whole by the textual alternative |
| HeaderParser.MatchAssignment | process.py:81 | a match consumes at least ` x = ` (4 characters) and no more than the text, and its name is a non-empty run of letters |
| HeaderParser.MatchAfterName | process.py:81 | the part of the match after the name has the same guarantees as the whole match |
| HeaderParser.MatchAssignmentSome | process.py:81 | a space, a letter run, ` = ` and a value at the start of the text are matched as exactly that name and value |
| HeaderParser.MatchRendered | process.py:81 | ` name = value` followed by whitespace or the end of the line matches as that name and value |
| HeaderParser.FindAll | process.py:84 | every pair `findall` returns has a non-empty name |
| HeaderParser.FindAllStep | process.py:84 | a match at the start of the text contributes its pair, and the scan continues after it |
| HeaderParser.FindAllOfWhitespace | process.py:84 | a blank text yields no pairs |
| HeaderParser.FindAllRender | process.py:81-84 | parsing a written header line, terminator included, gives back exactly the written (name, value) pairs, in order (round trip) |
| HeaderParser.RenderStep | process.py:84 | the first written assignment is matched first, and the scan goes on with the rest of the line |
| HeaderParser.Lift | process.py:86 | a value becomes a number exactly when `float()` accepts it, and otherwise stays the text |
| HeaderParser.ToDict | process.py:86 | the dictionary's keys are exactly the matched names |
| HeaderParser.ToDictLastWins | process.py:86 | every name is bound to the lifted value of its last occurrence on the line |
| HeaderParser.FirstScanEndUnique | process.py:83-88 | the line where the header scan stops is unique |
| HeaderParser.ExtractCoordinates | process.py:62-88 | returns the assignments of the first line that has any; `{}` when a data line comes first; `None` (the implicit return) when no line does either |
| HeaderParser.ExtractVariableNames | process.py:90-116 | returns the space-prefixed tokens of the last line before the first data line, or `[]` when the file starts with data |
| HeaderParser.BodyLines | process.py:135 | keeps exactly the lines whose first character is a digit |
| HeaderParser.BodyLinesSingle | process.py:135 | a single line is kept exactly when it starts with a digit |
| HeaderParser.BodyLinesAppend | process.py:135 | the kept lines of two concatenated files are those of the first followed by those of the second (order and multiplicity kept) |
| HeaderParser.ParseRow | process.py:136 | succeeds exactly when `float()` accepts every token, giving one number per token |
| HeaderParser.ParseRows | process.py:136 | succeeds exactly when every token of every line is numeric, and then holds the numbers line by line and token by token |
| HeaderParser.OpenCsv | process.py:118-136 | one row per data line and one number per whitespace-separated token; fails exactly when some token is not numeric |
| HeaderParser.HeaderExample | process.py:81-86 | the line ` Algorithm = ff_linpro Seed = 3` gives `{Algorithm: "ff_linpro", Seed: 3.0}` |
| AbstractLinpro.TotalDestinations | src/main/kotlin/it/unibo/smartcamexperiment/linpro/AbstractLinpro.kt:18-20 | the real destinations, plus one exactly when the sources exceed the total capacity |
| AbstractLinpro.Objective | src/main/kotlin/it/unibo/smartcamexperiment/linpro/AbstractLinpro.kt:25 | one objective coefficient per (source, destination-or-fake) pair |
| AbstractLinpro.ObjectiveLayout | src/main/kotlin/it/unibo/smartcamexperiment/linpro/AbstractLinpro.kt:25-44 | the coefficient of source `s` and real destination `d` is their cost; the fake destination's coefficient is twice the largest cost and so is never below any real cost |
| AbstractLinpro.MaxCostIsMaximum | src/main/kotlin/it/unibo/smartcamexperiment/linpro/AbstractLinpro.kt:24-34 | `maxCost` is non-negative, at least every cost, and either 0 or one of the costs |
| AbstractLinpro.CostsMaxBeforeBounds | src/main/kotlin/it/unibo/smartcamexperiment/linpro/AbstractLinpro.kt:26-34 | at every point of the cost loop, `maxCost` bounds every cost seen so far and is 0 or one of them |
| AbstractLinpro.FillCosts | src/main/kotlin/it/unibo/smartcamexperiment/linpro/AbstractLinpro.kt:24-38 | the cost loop gives an array of `sources × totalDestinations` entries, each real pair's cost in its slot and the fake slots 0, together with the largest cost |
| AbstractLinpro.FillFakeColumn | src/main/kotlin/it/unibo/smartcamexperiment/linpro/AbstractLinpro.kt:39-44 | after the fake column is filled, the array is the objective |
| AbstractLinpro.ObjectiveCoefficients | src/main/kotlin/it/unibo/smartcamexperiment/linpro/AbstractLinpro.kt:24-45 | the array built is the objective for the chosen number of destinations, and `maxCost` is the largest cost |
| AbstractLinpro.SourceRow | src/main/kotlin/it/unibo/smartcamexperiment/linpro/AbstractLinpro.kt:51-54 | a source's constraint row has one coefficient per variable |
| AbstractLinpro.SourceRowSelectsSource | src/main/kotlin/it/unibo/smartcamexperiment/linpro/AbstractLinpro.kt:50-55 | the row of source `s` is 1 exactly on the variables of `s`, and 0 elsewhere, so the equality says each source goes to exactly one destination |
| AbstractLinpro.SourceCoefficients | src/main/kotlin/it/unibo/smartcamexperiment/linpro/AbstractLinpro.kt:51-54 | the array built in the loop is the source's row |
| AbstractLinpro.DestinationRow | src/main/kotlin/it/unibo/smartcamexperiment/linpro/AbstractLinpro.kt:61-64 | a destination's constraint row has one coefficient per variable |
| AbstractLinpro.DestinationRowSelectsDestination | src/main/kotlin/it/unibo/smartcamexperiment/linpro/AbstractLinpro.kt:60-69 | the row of destination `d` is 1 exactly on the variables of `d` (one per source), and 0 elsewhere |
| AbstractLinpro.DestinationCoefficients | src/main/kotlin/it/unibo/smartcamexperiment/linpro/AbstractLinpro.kt:61-64 | the array built in the loop is the destination's row |
| AbstractLinpro.MinPerDestination | src/main/kotlin/it/unibo/smartcamexperiment/linpro/AbstractLinpro.kt:68 | the lower bound per destination is 1 when there are at least as many sources as destinations, and 0 otherwise |
| AbstractLinpro.DescribeProblem | src/main/kotlin/it/unibo/smartcamexperiment/linpro/AbstractLinpro.kt:46-84 | the builder calls are, in order, the objective, one equality per source, an upper then a lower bound per real destination, and non-negativity |
| AbstractLinpro.Decoded | src/main/kotlin/it/unibo/smartcamexperiment/linpro/AbstractLinpro.kt:85-92 | the decoded map assigns only input sources, and only to real destinations |
| AbstractLinpro.DecodeSolution | src/main/kotlin/it/unibo/smartcamexperiment/linpro/AbstractLinpro.kt:85-91 | the loop over the solution builds the map specified by `Decoded` |
| AbstractLinpro.DecodedKeys | src/main/kotlin/it/unibo/smartcamexperiment/linpro/AbstractLinpro.kt:86-90 | a source is assigned exactly when some positive entry of its own in a real destination's column exists |
| AbstractLinpro.DecodedLastWins | src/main/kotlin/it/unibo/smartcamexperiment/linpro/AbstractLinpro.kt:86-90 | a source is mapped to the destination of its last positive entry |
| AbstractLinpro.DecodeIndicator | src/main/kotlin/it/unibo/smartcamexperiment/linpro/AbstractLinpro.kt:85-92 | for a 0/1 solution with one chosen slot per source, each source maps to its chosen destination, and a source sent to the fake destination stays unassigned |
| AbstractLinpro.Solve | src/main/kotlin/it/unibo/smartcamexperiment/linpro/AbstractLinpro.kt:9-93 | the empty map when there is no source, no destination or no capacity; otherwise the program described above, with the solver's vector decoded |
| AbstractLinpro.WrapInt | src/main/kotlin/it/unibo/smartcamexperiment/linpro/AbstractLinpro.kt:18 | the 32-bit two's complement value congruent to the product, equal to it when it fits |
| AbstractLinpro.FakeDestinationOverflow | src/main/kotlin/it/unibo/smartcamexperiment/linpro/AbstractLinpro.kt:18 | with 1 source, 2 destinations and capacity 2^30, the `Int` test adds a fake destination although the capacity suffices |
| AbstractLinpro.FakeDestinationAgreesWithoutOverflow | src/main/kotlin/it/unibo/smartcamexperiment/linpro/AbstractLinpro.kt:18 | when the product fits in an `Int`, the test as written and the exact capacity test agree |
| AbstractLinpro.WideProductExact | src/main/kotlin/it/unibo/smartcamexperiment/linpro/AbstractLinpro.kt:18 | for `Int` operands the product always fits in 64 bits, so a `Long` product gives the exact test |
| ScpLinpro.ConstrainNameFactory.constructor | src/main/kotlin/it/unibo/smartcamexperiment/linpro/SCPLinpro.kt:11-12 | the counter starts at 1 with the given prefix |
| ScpLinpro.ConstrainNameFactory.Next | src/main/kotlin/it/unibo/smartcamexperiment/linpro/SCPLinpro.kt:14 | returns the prefix followed by the counter's old value, and increments the counter |
| ScpLinpro.ToConstraint | src/main/kotlin/it/unibo/smartcamexperiment/linpro/SCPLinpro.kt:39-47 | the `n`-th constraint keeps the call's coefficients and value and is named `c` followed by `n` |
| ScpLinpro.ProblemRecorder.constructor | src/main/kotlin/it/unibo/smartcamexperiment/linpro/SCPLinpro.kt:27-34 | empty objective, minimisation, no constraints and no non-negativity, with a fresh `c` factory |
| ScpLinpro.ProblemRecorder.SetObjectiveFunction | src/main/kotlin/it/unibo/smartcamexperiment/linpro/SCPLinpro.kt:35-38 | replaces the coefficients and the goal, and nothing else |
| ScpLinpro.ProblemRecorder.AddConstraint | src/main/kotlin/it/unibo/smartcamexperiment/linpro/SCPLinpro.kt:39-47 | appends one constraint named with the factory's next name, and nothing else changes |
| ScpLinpro.ProblemRecorder.AddNonNegativityConstraint | src/main/kotlin/it/unibo/smartcamexperiment/linpro/SCPLinpro.kt:48-50 | sets the non-negativity flag, and nothing else |
| ScpLinpro.ProblemRecorder.Apply | src/main/kotlin/it/unibo/smartcamexperiment/linpro/SCPLinpro.kt:28-51 | each builder call changes the fields as one step of the replay function |
| ScpLinpro.SolveLPProblem | src/main/kotlin/it/unibo/smartcamexperiment/linpro/SCPLinpro.kt:25-59 | the problem handed to the solver is the one built from the fields after replaying the builder calls |
| ScpLinpro.ReplayAppend | src/main/kotlin/it/unibo/smartcamexperiment/linpro/SCPLinpro.kt:28-51 | replaying calls in two parts is replaying them in one |
| ScpLinpro.ReplayConstraintCalls | src/main/kotlin/it/unibo/smartcamexperiment/linpro/SCPLinpro.kt:39-47 | constraint calls append their constraints in call order, numbered on from the existing ones, and leave objective and flag alone |
| ScpLinpro.ReplayNames | src/main/kotlin/it/unibo/smartcamexperiment/linpro/SCPLinpro.kt:11-15 | the `i`-th recorded constraint is named `c(i+1)`, so no two constraints share a name |
| ScpLinpro.ReplayNonNegative | src/main/kotlin/it/unibo/smartcamexperiment/linpro/SCPLinpro.kt:48-50 | the problem is non-negative exactly when some call asked for it |
| ScpLinpro.ReplayShape | src/main/kotlin/it/unibo/smartcamexperiment/linpro/SCPLinpro.kt:52-59 | objective, constraints, non-negativity give a minimisation over that objective with constraints `c1`, `c2`, ... in call order and a zero lower bound |
| ScpLinpro.ProblemOfSolve | src/main/kotlin/it/unibo/smartcamexperiment/linpro/SCPLinpro.kt:52-59 | the program of `solve` becomes a minimisation of its objective with `sources + 2 × destinations` named constraints and a zero lower bound on every variable |
| ScpLinpro.MiddleAreConstraints | src/main/kotlin/it/unibo/smartcamexperiment/linpro/AbstractLinpro.kt:50-82 | between the objective and non-negativity, `solve` only adds constraints |
| LinproCache.IdsOf | src/main/kotlin/it/unibo/smartcamexperiment/linpro/LinproCache.kt:30 | the identity set holds exactly the identities of the destinations |
| LinproCache.InputOf | src/main/kotlin/it/unibo/smartcamexperiment/linpro/LinproCache.kt:31 | the key compares the sources as a set, the destinations by identity, the capacity and the flag, and leaves out the cost |
| LinproCache.IndexOf | src/main/kotlin/it/unibo/smartcamexperiment/linpro/LinproCache.kt:38 | -1 exactly when no destination has the identity; otherwise the first position that has it |
| LinproCache.Remap | src/main/kotlin/it/unibo/smartcamexperiment/linpro/LinproCache.kt:38 | fails exactly when a cached destination has no current counterpart; otherwise the same sources, each mapped to the first current destination of the same identity |
| LinproCache.Cache.constructor | src/main/kotlin/it/unibo/smartcamexperiment/linpro/LinproCache.kt:11-12 | the empty last input and the empty last answer |
| LinproCache.Cache.Get | src/main/kotlin/it/unibo/smartcamexperiment/linpro/LinproCache.kt:19-40 | on a miss, calls `calculate` once and stores and returns its answer; on a hit, changes nothing and returns the remapped stored answer |
| LinproCache.HitSucceeds | src/main/kotlin/it/unibo/smartcamexperiment/linpro/LinproCache.kt:36-38 | a hit never fails when the stored answer uses only the cached destinations, and it keeps every destination's identity |
| LinproCache.RemapByIdentity | src/main/kotlin/it/unibo/smartcamexperiment/linpro/LinproCache.kt:38 | a hit depends only on the identities of the stored destinations |
| LinproCache.RemapStable | src/main/kotlin/it/unibo/smartcamexperiment/linpro/LinproCache.kt:38 | a second hit with the same destinations returns the answer of the first |
| LinproCache.DecodedValuesAmong | src/main/kotlin/it/unibo/smartcamexperiment/linpro/LinproCache.kt:32-38 | the solver's answers use only the destinations it was given, so a cache in front of it never fails on a hit |
| CamerasKCoverage.Flatten | src/main/kotlin/it/unibo/alchemist/loader/export/CamerasKCoverage.kt:39 | the flattened list holds exactly the targets some camera sees (nothing for no cameras) |
| CamerasKCoverage.FlattenCountsCameras | src/main/kotlin/it/unibo/alchemist/loader/export/CamerasKCoverage.kt:39-41 | when each camera lists a target at most once, a target's count in the flattened list is the number of cameras that see it |
| CamerasKCoverage.FlattenEmpty | src/main/kotlin/it/unibo/alchemist/loader/export/CamerasKCoverage.kt:39 | cameras that see nothing contribute no targets |
| CamerasKCoverage.Histogram | src/main/kotlin/it/unibo/alchemist/loader/export/CamerasKCoverage.kt:38-44 | the keys are exactly the camera counts that occur, and each maps to the number of targets seen that many times |
| CamerasKCoverage.GetOrDefault | src/main/kotlin/it/unibo/alchemist/loader/export/CamerasKCoverage.kt:47 | the stored count, or 0 for a missing key |
| CamerasKCoverage.HistogramRow | src/main/kotlin/it/unibo/alchemist/loader/export/CamerasKCoverage.kt:43-47 | the lookup at `k` gives the number of targets seen by exactly `k` cameras |
| CamerasKCoverage.Width | src/main/kotlin/it/unibo/alchemist/loader/export/CamerasKCoverage.kt:46 | the row length is at least the maximum and at least every count, and is the maximum or an occurring count |
| CamerasKCoverage.PrefixSums | src/main/kotlin/it/unibo/alchemist/loader/export/CamerasKCoverage.kt:48-50 | one running total per entry |
| CamerasKCoverage.Cumulate | src/main/kotlin/it/unibo/alchemist/loader/export/CamerasKCoverage.kt:48-50 | the in-place pass turns the array into its prefix sums |
| CamerasKCoverage.AtLeastSplit | src/main/kotlin/it/unibo/alchemist/loader/export/CamerasKCoverage.kt:48-50 | the targets seen at least `j` times are those seen exactly `j` times plus those seen at least `j+1` times |
| CamerasKCoverage.RowSums | src/main/kotlin/it/unibo/alchemist/loader/export/CamerasKCoverage.kt:47-50 | summing the histogram row from the top count down to `k - i` counts the targets seen at least `k - i` times |
| CamerasKCoverage.LevelCounts | src/main/kotlin/it/unibo/alchemist/loader/export/CamerasKCoverage.kt:46-52 | after the cumulation, the kept last entries count the targets seen at least `k - j` times |
| CamerasKCoverage.KCoverage.constructor | src/main/kotlin/it/unibo/alchemist/loader/export/CamerasKCoverage.kt:27-31 | requires a positive maximum; the names run from the maximum down to 1, and the no-target result is all NaN |
| CamerasKCoverage.KCoverage.GetNames | src/main/kotlin/it/unibo/alchemist/loader/export/CamerasKCoverage.kt:57 | the precomputed names |
| CamerasKCoverage.KCoverage.ExtractData | src/main/kotlin/it/unibo/alchemist/loader/export/CamerasKCoverage.kt:33-55 | one value per level; all NaN without targets; otherwise entry `e` is the fraction of targets seen by at least `max - e` cameras |
| CamerasKCoverage.CoverageNamesDistinct | src/main/kotlin/it/unibo/alchemist/loader/export/CamerasKCoverage.kt:30 | the names are pairwise distinct, the first is the maximum's and the last is `1-coverage` |
| CamerasKCoverage.CoverageMonotone | src/main/kotlin/it/unibo/alchemist/loader/export/CamerasKCoverage.kt:14-20 | a higher coverage level never counts more targets than a lower one |
| CamerasKCoverage.OneCoverageCountsSeen | src/main/kotlin/it/unibo/alchemist/loader/export/CamerasKCoverage.kt:48-53 | 1-coverage counts every target seen at all, and no level counts more |
| CamerasKCoverage.NothingSeen | src/main/kotlin/it/unibo/alchemist/loader/export/CamerasKCoverage.kt:38-53 | when no camera sees a target, every level is 0 |
| ObjectsMemory.Record.Remove | src/main/kotlin/it/unibo/smartcamexperiment/ObjectsMemory.kt:11-12 | keeps the time and exactly the occurrences of the node (the filter as written) |
| ObjectsMemory.Keep | src/main/kotlin/it/unibo/smartcamexperiment/ObjectsMemory.kt:12 | the kept list has as many elements as the node's occurrences, all equal to it |
| ObjectsMemory.RemoveKeepsNode | src/main/kotlin/it/unibo/smartcamexperiment/ObjectsMemory.kt:11-12 | a record listing the node still lists it after `remove` and is never empty |
| ObjectsMemory.RemoveExample | src/main/kotlin/it/unibo/smartcamexperiment/ObjectsMemory.kt:11-12 | removing 1 from the report `[1, 2]` leaves `[1]` |
| ObjectsMemory.Empty | src/main/kotlin/it/unibo/smartcamexperiment/ObjectsMemory.kt:23 | the public constructor gives two empty maps |
| ObjectsMemory.DetachStep | src/main/kotlin/it/unibo/smartcamexperiment/ObjectsMemory.kt:36-51 | an object attributed to a camera with an older record loses its attribution and is collected; that record is filtered, and dropped when it becomes empty; any other object changes nothing |
| ObjectsMemory.DetachTargets | src/main/kotlin/it/unibo/smartcamexperiment/ObjectsMemory.kt:31-51 | the loop on the two copies computes the scan specified by `Detached` |
| ObjectsMemory.DetachedFacts | src/main/kotlin/it/unibo/smartcamexperiment/ObjectsMemory.kt:36-51 | the scan adds no camera and no attribution, keeps record times, leaves records not older than `time` alone, and collects only reported targets that had an older owner |
| ObjectsMemory.Reassigned | src/main/kotlin/it/unibo/smartcamexperiment/ObjectsMemory.kt:56-57 | the new objects are attributed to `devId`; the old record's other objects lose their attribution; everything else is kept |
| ObjectsMemory.ReassignObjects | src/main/kotlin/it/unibo/smartcamexperiment/ObjectsMemory.kt:56-57 | the two loops compute `Reassigned` |
| ObjectsMemory.MergeRecord | src/main/kotlin/it/unibo/smartcamexperiment/ObjectsMemory.kt:53-62 | after the merge, the reporting camera always has a record |
| ObjectsMemory.Insert | src/main/kotlin/it/unibo/smartcamexperiment/ObjectsMemory.kt:30-65 | returns the memory specified by `Inserted`, in which the reporting camera has a record |
| ObjectsMemory.InsertKeepsNewerRecord | src/main/kotlin/it/unibo/smartcamexperiment/ObjectsMemory.kt:36-62 | a camera whose record is not older than the report keeps that record, the reporting camera included |
| ObjectsMemory.InsertFresh | src/main/kotlin/it/unibo/smartcamexperiment/ObjectsMemory.kt:53-54 | a camera without a record gets one at the report's time, holding only reported targets taken from older reports |
| ObjectsMemory.InsertKeepsUnpopulated | src/main/kotlin/it/unibo/smartcamexperiment/ObjectsMemory.kt:30-65 | starting from a memory without attributions, every insertion adds only empty records, so no object is ever attributed |
| ObjectsMemory.UnpopulatedScan | src/main/kotlin/it/unibo/smartcamexperiment/ObjectsMemory.kt:36-51 | without attributions the scan changes nothing and collects nothing |
| SmartcamEnvironment.WithinIffFarCornerInside | src/main/kotlin/it/unibo/alchemist/model/implementations/environments/SmartcamEnvironment.kt:65-66 | the boundary check holds exactly when the corner of the node's bounding square farthest from the origin is strictly inside the rectangle |
| SmartcamEnvironment.WithinBoundariesContainsNode | src/main/kotlin/it/unibo/alchemist/model/implementations/environments/SmartcamEnvironment.kt:65-66 | when the check holds, every point of the node's bounding square is strictly inside the rectangle, and the node is narrower than it in both directions |
| SmartcamEnvironment.Environment.constructor | src/main/kotlin/it/unibo/alchemist/model/implementations/environments/SmartcamEnvironment.kt:15-29 | stores the size and the camera molecule, and starts both accumulators at 0 |
| SmartcamEnvironment.Environment.MoveNodeToPosition | src/main/kotlin/it/unibo/alchemist/model/implementations/environments/SmartcamEnvironment.kt:31-45 | with both positions known, the distance moved goes to the camera accumulator for a camera and to the object accumulator otherwise; otherwise nothing changes; accumulators stay non-negative |
| SmartcamEnvironment.Environment.QueryCameraMovementsSinceLastQuery | src/main/kotlin/it/unibo/alchemist/model/implementations/environments/SmartcamEnvironment.kt:47-51 | returns the accumulated camera movement and resets it, leaving the object accumulator alone |
| SmartcamEnvironment.Environment.QueryObjectMovementsSinceLastQuery | src/main/kotlin/it/unibo/alchemist/model/implementations/environments/SmartcamEnvironment.kt:53-57 | returns the accumulated object movement and resets it, leaving the camera accumulator alone |
| SmartcamEnvironment.Environment.NodeShouldBeAdded | src/main/kotlin/it/unibo/alchemist/model/implementations/environments/SmartcamEnvironment.kt:59-60 | true exactly when the node is within the boundaries and the parent environment accepts it |
| SmartcamEnvironment.Environment.CanNodeFitPosition | src/main/kotlin/it/unibo/alchemist/model/implementations/environments/SmartcamEnvironment.kt:62-63 | true exactly when the node is within the boundaries and the parent environment lets it fit |
| DistanceTraveled.Considered | src/main/kotlin/it/unibo/alchemist/loader/export/DistanceTraveled.kt:22-25 | without a filter, all nodes; with one, exactly the nodes containing the molecule, taken from the input |
| DistanceTraveled.Contribution | src/main/kotlin/it/unibo/alchemist/loader/export/DistanceTraveled.kt:28 | the distance from the recorded position, or 0 without one |
| DistanceTraveled.Positions | src/main/kotlin/it/unibo/alchemist/loader/export/DistanceTraveled.kt:29 | records the current position of exactly the given nodes |
| DistanceTraveled.Tracker.constructor | src/main/kotlin/it/unibo/alchemist/loader/export/DistanceTraveled.kt:14-18 | stores the name and the filter, and starts with no recorded position |
| DistanceTraveled.Tracker.Default | src/main/kotlin/it/unibo/alchemist/loader/export/DistanceTraveled.kt:14-17 | the default arguments: name `distance`, no filter |
| DistanceTraveled.Tracker.GetNames | src/main/kotlin/it/unibo/alchemist/loader/export/DistanceTraveled.kt:34 | the single column is the export name |
| DistanceTraveled.Tracker.ExtractData | src/main/kotlin/it/unibo/alchemist/loader/export/DistanceTraveled.kt:20-32 | a one-element sample of the distance the considered nodes moved; afterwards exactly their positions are updated |
| DistanceTraveled.Tracker.Visit | src/main/kotlin/it/unibo/alchemist/loader/export/DistanceTraveled.kt:26-31 | the loop sums each node's share and records its position |
| DistanceTraveled.TraveledNonNegative | src/main/kotlin/it/unibo/alchemist/loader/export/DistanceTraveled.kt:26-31 | with a non-negative distance, every sample is non-negative |
| DistanceTraveled.SumIgnoresOthers | src/main/kotlin/it/unibo/alchemist/loader/export/DistanceTraveled.kt:28-29 | recording a node that does not occur later does not change the others' shares |
| DistanceTraveled.TraveledOfDistinct | src/main/kotlin/it/unibo/alchemist/loader/export/DistanceTraveled.kt:26-31 | with every node listed once, the sample is the sum of each node's distance from its recorded position |
| DistanceTraveled.FirstSampleIsZero | src/main/kotlin/it/unibo/alchemist/loader/export/DistanceTraveled.kt:18-31 | the first sample is 0, since no position has been recorded yet |

## Left out

- File I/O: a file is the sequence of its lines, each non-empty as Python yields them (the last one may lack its terminator). `open`, `readlines` and the `with` blocks are not modelled.
- Python's `float()` is a parameter `string -> Option<real>`. Its exact grammar (`inf`, `nan`, underscores, surrounding blanks) is not part of this model.
- Whitespace (`str.split`, `\s`, `\S`) is the ASCII whitespace set. Unicode whitespace is not modelled.
- Chars.IsDigit: `\d` is the ASCII digits `0`-`9`. Python 3's `re` on text also matches the other Unicode decimal digits, so a line starting with such a digit would be a data line for `DigitLeading`, `BodyLines`, `ExtractCoordinates`, `ExtractVariableNames` and `OpenCsv`, and a number for `NumberLength`. This is not modelled.
- HeaderParser.FindAllRender: the round trip is proved for values that are numeric literals or words of `[a-zA-Z-_]`. Other values (`3.`, a path with `/`) are not read back whole by the pattern, and `MatchRendered`, `RenderStep` and `ValueLengthOfPlain` make no claim about them.
- Floating point: `Double` values are real numbers and the NaN export value is a separate constructor. Rounding, `floor` on doubles and NaN comparisons are not modelled.
- The script body of process.py after line 136 (loading runs into xarray, plotting) is not part of this model.
- Resampler.GetClosest: the exceptions `IndexError` and `ValueError` are folded into `None`. `Rectangular` is required because numpy matrices are always rectangular. The one-row branch is the corrected one (see "## Findings"); `GetClosestAsWritten` models the code as written.
- Resampler.ClosestIsRetimedRow: proved for the corrected `Closest`. For the code as written it holds only on matrices of two rows or more (`AsWrittenAgreesOffOneRow`); a one-row matrix loses its row (`OneRowAsWrittenDiffers`).
- Resampler.ConvertResamples: proved for the corrected `Convert`. As written, `convert` fails on a one-row matrix for any sample (`ConvertAsWritten`).
- Resampler.Convert: `np.matrix([])` for no samples is a 1 x 0 matrix; the model gives the empty sequence of rows.
- The linear-program solver itself (SCPSolver's `solve`, ApacheLinpro) is not modelled. `Solve` takes the vector the solver returns as a parameter.
- AbstractLinpro.Solve: requires that vector to have one entry per variable, as the solver's answer does.
- AbstractLinpro.Solve: the builder lambda is modelled as the sequence of calls it makes.
- The product `sources.size * totalDestinations` that sizes the arrays is not checked for `Int` overflow. Only the product in the fake-destination test is, under "## Findings".
- ScpLinpro.ConstrainNameFactory.Next: the counter is unbounded. Wrap-around after 2^31 - 1 names is not modelled.
- LinproCache: the destinations are compared through an identity function given as a parameter, standing for `equals`/`hashCode` of the nodes.
- LinproCache: `LinkedListSet` is modelled as the list of destinations plus its set of identities. Its de-duplication of equal destinations is not modelled, so `indexOf` finds the first equal destination.
- LinproCache.Cache.Get: the `fair` flag only takes part in the comparison, as in the source. The cost function is ignored, as the source documents.
- CachedCameraTargetAssignmentProblem and the other callers of the cache and of `solve` are not part of this model.
- Opaque simulator types: nodes, molecules, device identities and targets are type parameters. `contains`, `getPosition`, `getDistanceTo` and the node's visible targets are parameters.
- CamerasKCoverage.KCoverage.ExtractData: the target count and the cameras' visible-target lists are parameters. The molecule tests that classify nodes are not modelled.
- CamerasKCoverage.KCoverage.ExtractData: without targets the source returns the one `DoubleArray` it allocated at construction, so a caller that writes into it changes every later such result. The model returns the value `resultWithNoTargets` and does not capture this aliasing.
- SmartcamEnvironment.Environment.MoveNodeToPosition: the positions before and after the parent environment's move are parameters. The parent class's move, `nodeShouldBeAdded` and `canNodeFitPosition` are given as their results.
- DistanceTraveled: the weak-key map is an ordinary map. Removal of collected nodes is not modelled.
- ObjectsMemory.Insert: `Tuple.toAnyTargets` is not modelled. The targets are passed as a list.
- ObjectsMemory: `remove` is modelled as written (it keeps the node). The class is marked unfinished in the source and has no caller, so no corrected version is substituted. `RemoveKeepsNode` states the consequence.

## Findings

| source | as written | input that shows it | evidently intended | confidence | as-written member | corrected member |
|---|---|---|---|---|---|---|
| src/main/kotlin/it/unibo/smartcamexperiment/linpro/AbstractLinpro.kt:18 | `sources.size > maxSourcesPerDestination * destinations.size` is computed in 32-bit `Int` and can wrap to a negative number | 1 source, 2 destinations, `maxSourcesPerDestination` = 2^30: the product wraps to -2^31, so a fake destination is added although the destinations can take every source | compare against the exact (or `Long`) product, adding a fake destination only when the sources exceed the real capacity | not executed | AbstractLinpro.FakeDestinationOverflow | AbstractLinpro.TotalDestinations |
| process.py:13-16 | on a one-row numpy matrix, `sortedMatrix[0].copy()` is a 1 x N matrix, so `result[column] = val` sets a whole row: column 0 overwrites every entry with `val`, any other column raises `IndexError`; `convert` (line 26) then builds a three-dimensional `np.matrix` and raises `ValueError` | the matrix `[[1, 2]]` queried at 5: column 1 raises, column 0 gives `[5, 5]`, and `convert(0, [5], ...)` raises | the row with only its time column replaced, as the other branch does through `.A1` (line 21) | not executed | Resampler.OneRowExample | Resampler.ClosestIsRetimedRow |
