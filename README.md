# Column statistics and relational operators

A model of the core of a small teaching database. It has two independent
parts.

- **Column statistics** (`src/db/ColumnStats.cpp`). `ColumnStats` is an
  equi-width histogram over the integer domain `[min, max]`:
  - it has `buckets` counters, each covering `bucketWidth = (max-min+1)/buckets` values;
  - `addValue` counts a value in its bucket;
  - `estimateCardinality` estimates how many counted values satisfy `EQ`,
    `NE`, `LT`, `LE`, `GT` or `GE` against a constant.
- **Relational operators** (`src/db/Query.cpp`). `projection`, `filter`,
  `aggregate` and `join` read the tuples of an input file and append tuples
  to an output file. `evaluatePredicate` is the comparison they share.

## How the model is built

- **Modules.**
  - `Common`: the predicate operators, the error values, `Option` and `Result`.
  - `ColumnStatistics`: ColumnStats.cpp.
  - `Fields`: the variant field value and its order.
  - `Tuples`: tuples, schemas, `index_of` and the file class.
  - `Query`: `evaluatePredicate`, `projection`, `filter` and `join`.
  - `Grouping`: the ordered map that `aggregate` builds.
  - `Aggregation`: `aggregate`.
- **`ColumnStats`.**
  - It is a class. The parameters are `const` fields; `histogram` (a `seq<nat>`) and `totalCount` are `var` fields.
  - The constructor and `AddValue` update them in place. `Valid()` keeps the invariant `Sum(histogram) == totalCount` together with the constructor's width formula, and that a histogram of width 0 is empty (`Estimable`).
  - The estimator is specified by the pure function `Estimate` over a `Stats` snapshot of the object. The method `EstimateCardinality` runs the accumulator loop of `LT` and the recursive composition of the other operators, and it is proved equal to `Estimate`.
  - Estimates are naturals. The additions and subtractions that compose `LE`, `GT`, `GE` and `NE` are taken modulo 2^64, as in the code, so those four results are below 2^64. `EQ`, `LT` and `totalCount` are unbounded naturals, since the counters are (see "## Left out").
- **Operators.**
  - Each operator is a method over `DbFile` objects. `insertTuple` appends to the output's `tuples`.
  - Each method is proved against a function (`ProjectionRun`, `FilterRun`, `AggregateRun`, `JoinRun`). That function gives the tuples appended and how the call ends: `Done`, or `Failed(error)` for the exception the code throws.
  - An unknown field name is `UnknownField`. `to_double` of a string is `InvalidArgument("Non-numeric type")`.
  - The code resolves field names at different times:
    - `aggregate` and `join` resolve them before reading any tuple, so an unknown name fails even on an empty input;
    - `projection` and `filter` resolve them tuple by tuple, so an empty input never fails.
- **`field_t`.** It is a closed variant: `IntField | DoubleField | StringField`.
  - It is ordered as `std::variant` orders: by alternative index first, then by payload. Strings compare lexicographically by character code.
  - A default-constructed `field_t{}` is `IntField(0)`.
- **The `std::map` of groups.** It is a list of groups in strictly ascending key order.
  - `PushBack` is `groups[key].push_back(v)`.
  - Its lemmas give `PushBack` the behaviour of a map update: the keys gain `key`, the values of `key` gain `v` at the end, and no other key changes.
  - Iterating the list is iterating the map in key order.

## What the code does that one might not expect

- **`bucketWidth` can be 0.** It is a truncated quotient, so it is 0 when
  `buckets > max-min+1` (`WidthPositiveIff`), and the constructor accepts
  that. Such a histogram still ignores values outside `[min, max]`, and it
  estimates 0 for every operator while it is empty. Counting a value inside
  `[min, max]` divides by zero, so `AddValue` requires `bucketWidth > 0` for
  exactly those values. A width-0 histogram therefore stays empty
  (`Estimable`, kept by `Valid()`), and `estimateCardinality` never reaches
  its own division by zero.
- **`GT` can wrap.** At `v == max`, `LT` returns `totalCount` while `EQ` can
  be positive. `LE` then exceeds `totalCount`, and `GT = totalCount - LE`
  wraps in `size_t` (`GtWrapsAtMax`, `GtWrapExample`), so `GE` is modulo 2^64.
  Away from `v == max` the composition is exact, and
  `EQ + LT + GT == totalCount` (`GtExactAwayFromMax`).
- **`LT` is not monotone in general.** `bucketStart` comes from the
  unclamped bucket index, but the summation uses the clamped one. In the
  tail past the last full bucket the fraction therefore restarts
  (`LtDropsInTail`). `LT` is nondecreasing when `buckets` divides
  `max-min+1` (`LtMonotoneWhenAligned`).
- **`projection` can fail.** It writes one tuple per input tuple only when
  every name is known. On a non-empty input an unknown name fails before
  anything is written.
- **`filter` can skip an unknown name.** The predicate loop breaks at the
  first false predicate, so a later predicate's name is never looked up for
  that tuple. A tuple fails only when it reaches an unknown name with every
  earlier predicate true (`MatchesFailsExactly`), and filter fails exactly
  when some tuple does (`FilterFailsExactly`). With the predicates `a < 5`
  and `z == 0` on a schema without `z`, a tuple with `a = 10` is dropped
  without error (`ShortCircuitExample`).
- **SUM of strings.** `SUM` skips strings without clearing its all-integers
  flag, so a group of strings sums to the int `0` (`SumOfStrings`).
- **MIN and MAX of one value.** `MIN` and `MAX` of a single value return it
  unchanged, even when it is a string, because no comparison converts it.

## Model

| member | source | states |
|---|---|---|
| ColumnStatistics.ColumnStats.constructor | src/db/ColumnStats.cpp:7-13 | buckets, min and max are stored, the width is (max-min+1) truncated by buckets, every counter and the total start at zero, and the sum invariant holds |
| ColumnStatistics.ColumnStats.Create | src/db/ColumnStats.cpp:7-11 | construction fails with invalid_argument "Invalid histogram parameters." exactly when min >= max or buckets == 0, and otherwise yields a fresh valid histogram with the constructor's state |
| ColumnStatistics.WidthPositiveIff | src/db/ColumnStats.cpp:12 | the width is at least 1 exactly when buckets <= max-min+1 |
| ColumnStatistics.ColumnStats.AddValue | src/db/ColumnStats.cpp:15-22 | a value outside [min, max] changes nothing; a value inside adds one to exactly bucket min((v-min)/width, buckets-1) and to totalCount, leaves every other bucket alone, and keeps sum(histogram) == totalCount |
| ColumnStatistics.SumIncrement | src/db/ColumnStats.cpp:20-21 | adding one to one counter adds one to the sum of the histogram |
| ColumnStatistics.SumOfZeros | src/db/ColumnStats.cpp:8 | the zero-initialised histogram sums to zero |
| ColumnStatistics.CountKeepsEstimable | src/db/ColumnStats.cpp:20-21 | counting a value in a bucket of a histogram of positive width keeps the invariant that a width-0 histogram is empty and the sum equals totalCount |
| ColumnStatistics.BucketIndex | src/db/ColumnStats.cpp:27-33 | the estimator's bucket is the truncated quotient (v-min)/width clamped into [0, buckets-1] |
| ColumnStatistics.BucketStart | src/db/ColumnStats.cpp:28 | definition: bucketStart is min plus the unclamped index times the width; its meaning is given by `Offset` |
| ColumnStatistics.Offset | src/db/ColumnStats.cpp:45 | v minus the unclamped bucketStart is (v-min) mod width, below the width |
| ColumnStatistics.InsertionBucketIsQueryBucket | src/db/ColumnStats.cpp:18-19 | for a value in the domain, the estimator's clamped bucket is the one addValue increments |
| ColumnStatistics.Estimate | src/db/ColumnStats.cpp:24-64 | definition of estimateCardinality on a state: 0 when totalCount is 0, EQ and LT directly, LE, GT, GE and NE composed in size_t arithmetic; its properties are the lemmas below |
| ColumnStatistics.EqEstimate | src/db/ColumnStats.cpp:35-38 | definition of EQ: 0 outside [min, max], otherwise the clamped bucket's share; stated by `EqEstimateSpec` |
| ColumnStatistics.Share | src/db/ColumnStats.cpp:37 | definition: a bucket count divided by the width, truncated; bounded by `ShareAtMost` |
| ColumnStatistics.LtEstimate | src/db/ColumnStats.cpp:39-48 | definition of LT: 0 below min, totalCount from max on, otherwise the full buckets below plus the interpolated part; stated by `LtEstimateSpec` |
| ColumnStatistics.Interpolate | src/db/ColumnStats.cpp:45-46 | definition: count times offset over width, computed exactly and truncated; `InterpolatePlusShare` and `InterpolateMonotone` bound it |
| ColumnStatistics.ColumnStats.EstimateCardinality | src/db/ColumnStats.cpp:24-64 | the accumulator loop for LT and the recursive composition of LE, GT, GE and NE return exactly the estimate Estimate gives for the current state |
| ColumnStatistics.ColumnStats.SumBelow | src/db/ColumnStats.cpp:42-44 | the accumulator loop of LT adds up exactly the counts of the buckets below the clamped index |
| ColumnStatistics.EmptyHistogramEstimatesZero | src/db/ColumnStats.cpp:25-26 | with totalCount == 0 every operator estimates 0 |
| ColumnStatistics.EqEstimateSpec | src/db/ColumnStats.cpp:35-38 | EQ is 0 outside [min, max], otherwise the clamped bucket's count divided by the width, truncated; it never exceeds that count or totalCount |
| ColumnStatistics.LtEstimateSpec | src/db/ColumnStats.cpp:39-48 | LT is 0 below min and totalCount from max on; inside, it is the sum of the buckets below the clamped bucket plus that bucket's count times offset/width, truncated; it never exceeds totalCount |
| ColumnStatistics.LtPlusEqBound | src/db/ColumnStats.cpp:35-48 | away from v == max, LT + EQ is at most totalCount |
| ColumnStatistics.ComposedEstimates | src/db/ColumnStats.cpp:49-60 | LE == LT + EQ, NE == totalCount - EQ, GT is totalCount - LE in size_t arithmetic, and GE == totalCount - LT |
| ColumnStatistics.GtExactAwayFromMax | src/db/ColumnStats.cpp:49-58 | for v != max and any totalCount below 2^64, LE <= totalCount, GT == totalCount - LE exactly, GE == GT + EQ, and EQ + LT + GT == totalCount |
| ColumnStatistics.GtWrapsAtMax | src/db/ColumnStats.cpp:51-54 | at v == max with EQ > 0, GT wraps to 2^64 - EQ, which exceeds totalCount |
| ColumnStatistics.GtWrapExample | src/db/ColumnStats.cpp:53-54 | a one-bucket histogram of width 2 holding two values has EQ(1) = 1, LT(1) = 2 and GT(1) = 2^64 - 1 |
| ColumnStatistics.AlignedIndex | src/db/ColumnStats.cpp:27-33 | when the buckets cover the domain exactly, no index inside it is clamped, and v-min is index times width plus offset |
| ColumnStatistics.LtMonotoneInDomain | src/db/ColumnStats.cpp:39-48 | with aligned buckets, LT's sum plus interpolation is nondecreasing between min and max |
| ColumnStatistics.LtMonotoneWhenAligned | src/db/ColumnStats.cpp:39-48 | with aligned buckets, LT is nondecreasing in v over all integers |
| ColumnStatistics.LtDropsInTail | src/db/ColumnStats.cpp:43-46 | three buckets of width 2 over [0, 7] holding two values in the last bucket give LT(5) = 1 but LT(6) = 0 |
| ColumnStatistics.SizeSub | src/db/ColumnStats.cpp:54 | size_t subtraction is exact when it does not underflow and is 2^64 + a - b when it does |
| ColumnStatistics.SizeAdd | src/db/ColumnStats.cpp:50-52 | size_t addition is exact below 2^64 |
| Fields.Less | src/db/Query.cpp:29 | definition of field_t <: by alternative index, then by payload, strings lexicographically; `Trichotomy` and `LessTransitive` make it a strict total order |
| Fields.LessEq | src/db/Query.cpp:30 | definition of field_t <=: by alternative index, then by payload; `LessEqIsLessOrEqual` ties it to < and == |
| Fields.ToDouble | src/db/Query.cpp:55-64 | to_double converts ints and doubles and fails exactly on strings |
| Fields.Trichotomy | src/db/Query.cpp:29-32 | the order on field values used by < and > is a strict total order |
| Fields.LessTransitive | src/db/Query.cpp:29-32 | the order on field values is transitive |
| Fields.LessEqIsLessOrEqual | src/db/Query.cpp:30 | <= on field values is < or == |
| Tuples.IndexOf | src/db/Query.cpp:16 | index_of finds the first position of a name and fails with UnknownField exactly when the schema lacks it |
| Tuples.Resolve | src/db/Query.cpp:15-18 | looking the names up in turn succeeds exactly when every name is known, giving each name's position, and otherwise reports the first unknown name |
| Tuples.Pick | src/db/Query.cpp:15-19 | the projected tuple has one field per position, each the input field at that position |
| Tuples.DbFile.InsertTuple | src/db/Query.cpp:20 | insertTuple appends the tuple to the file |
| Query.EvaluatePredicate | src/db/Query.cpp:24-35 | definition of evaluatePredicate: the operator's comparison on the variant order; `PredicateRelations` relates the six |
| Query.PredicateRelations | src/db/Query.cpp:24-35 | NE is the negation of EQ, LE is LT or EQ, GE is the negation of LT, GT is the negation of LE |
| Query.ProjectionRun | src/db/Query.cpp:9-22 | definition of what projection appends and how it ends; stated by `ProjectionContract` |
| Query.PickAll | src/db/Query.cpp:13-21 | one projected tuple per input tuple, in order |
| Query.ProjectionContract | src/db/Query.cpp:9-22 | projection fails exactly when the input is non-empty and a name is unknown, writing nothing and naming the first unknown name; otherwise it writes one tuple per input tuple, in order, whose field j is the input field at index_of(names[j]) |
| Query.ProjectTuple | src/db/Query.cpp:14-19 | the inner loop collects the fields the names select, or fails with the first unknown name |
| Query.Projection | src/db/Query.cpp:9-22 | projection appends exactly what ProjectionRun gives and ends as it says |
| Query.Matches | src/db/Query.cpp:41-49 | definition of the short-circuit predicate loop for one tuple; `MatchesDecidesConjunction` says what it decides |
| Query.MatchesDecidesConjunction | src/db/Query.cpp:41-49 | the short-circuit predicate loop accepts a tuple exactly when it satisfies every predicate, cannot fail once every name is known, and fails only with an unknown predicate name |
| Query.MatchesFailsExactly | src/db/Query.cpp:42-48 | the predicate loop fails exactly when it reaches a predicate with an unknown name after every earlier predicate was known and true, and then with that name |
| Query.EvaluatePredicates | src/db/Query.cpp:41-49 | the loop with break computes the short-circuit result for one tuple |
| Query.FilterRun | src/db/Query.cpp:37-53 | definition of what filter appends, tuple by tuple, and how it ends; stated by the filter lemmas below |
| Query.FilterKeepsOrder | src/db/Query.cpp:40-52 | filter's output is an order-preserving subsequence of its input, tuples unchanged |
| Query.FilterRowsSatisfy | src/db/Query.cpp:45-51 | every tuple filter writes satisfies every predicate |
| Query.FilterKeepsSatisfying | src/db/Query.cpp:40-52 | when filter completes it has written every input tuple that satisfies every predicate |
| Query.FilterFailsOnlyOnUnknownName | src/db/Query.cpp:39-49 | with every name known filter completes; if it fails it has written nothing and some name is unknown; an empty input never fails |
| Query.FilterFailsExactly | src/db/Query.cpp:40-52 | filter fails exactly when the predicate loop fails on some input tuple |
| Query.FilterFailsAtFirst | src/db/Query.cpp:40-52 | when the first failing tuple is tuples[k], filter fails with that tuple's error having written exactly the selection of the tuples before it |
| Query.ShortCircuitExample | src/db/Query.cpp:42-48 | with schema (a), tuple (10) and predicates a < 5, z == 0, filter completes writing nothing, since z is never looked up |
| Query.FilterIsSelection | src/db/Query.cpp:40-52 | when filter completes, it has written exactly the input tuples that satisfy every predicate, each copy of a repeated tuple included, in input order |
| Query.SelectWithoutPredicates | src/db/Query.cpp:41-51 | with no predicate every tuple is selected |
| Query.FilterWithoutPredicates | src/db/Query.cpp:40-51 | with an empty predicate list filter completes and writes exactly the whole input |
| Query.FilterFailureIsFinal | src/db/Query.cpp:40-52 | once a prefix of the input fails, filter stops there |
| Query.Filter | src/db/Query.cpp:37-53 | filter appends exactly what FilterRun gives and ends as it says |
| Query.Joined | src/db/Query.cpp:171-177 | definition of a joined tuple: all left fields, then the right fields less position r when duplicates are skipped; stated by `JoinedShape` |
| Query.MatchRow | src/db/Query.cpp:168-181 | definition of the inner loop's output for one left tuple; stated by `MatchRowMembers` |
| Query.CrossMatches | src/db/Query.cpp:166-183 | definition of the nested loops' output; stated by `CrossMatchesMembers` and `CrossMatchesAppend` |
| Query.JoinRun | src/db/Query.cpp:154-184 | definition of what join appends: both names resolve first, then the nested loops; stated by `JoinWithoutMatches` and `EquiJoinExample` |
| Query.MatchRowMembers | src/db/Query.cpp:168-181 | one left tuple contributes exactly its joins with the right tuples the predicate holds for |
| Query.CrossMatchesMembers | src/db/Query.cpp:166-183 | the join output holds exactly the joined tuples of the pairs the predicate holds for |
| Query.CrossMatchesAppend | src/db/Query.cpp:166-183 | the output for a left input split in two is the output for the first part followed by that for the second, so earlier left tuples' joins come first |
| Query.JoinedShape | src/db/Query.cpp:171-177 | a joined tuple is the left tuple followed by the right one, less the right join field under EQ; it has all left fields plus all right fields, one fewer under EQ, and under EQ the right tuple can be rebuilt from it |
| Query.JoinWithoutMatches | src/db/Query.cpp:160-183 | with both names known, join cannot fail, and it writes nothing when no pair matches |
| Query.EquiJoinExample | src/db/Query.cpp:154-184 | an equi-join of [(1,"a"),(2,"b")] with [(1,"x"),(3,"y")] writes exactly (1,"a","x") |
| Query.JoinFields | src/db/Query.cpp:171-177 | the two field loops build the joined tuple, skipping right index r when duplicates are skipped |
| Query.JoinRow | src/db/Query.cpp:168-182 | the inner loop over the right tuples appends exactly the joins of one left tuple that MatchRow gives |
| Query.Join | src/db/Query.cpp:154-184 | join appends exactly what JoinRun gives and ends as it says |
| Grouping.PushBack | src/db/Query.cpp:80 | definition of groups[key].push_back(v) on the ordered list of groups; its map behaviour is stated by the four lemmas below |
| Grouping.PushBackKeys | src/db/Query.cpp:80 | groups[key].push_back adds key to the keys of the map |
| Grouping.PushBackSorted | src/db/Query.cpp:80 | push_back keeps the keys in strictly ascending order |
| Grouping.PushBackLookup | src/db/Query.cpp:80 | push_back appends v to the values of key and changes no other key's values |
| Grouping.PushBackSize | src/db/Query.cpp:80 | push_back adds a group exactly when the key is new and never leaves a group empty |
| Grouping.LookupAt | src/db/Query.cpp:84 | iterating the map visits each key with its own values |
| Grouping.SortedKeysCount | src/db/Query.cpp:84 | the map holds one group per key |
| Aggregation.AllIntegers | src/db/Query.cpp:88-98 | the all_integers flag stays set exactly when no value is a double |
| Aggregation.IntSum | src/db/Query.cpp:89-95 | definition of int_sum: the sum of the int values; related to the whole total by `SumIsNumericTotal` |
| Aggregation.DoubleSum | src/db/Query.cpp:96-99 | definition of double_sum: the sum of the double values; `SumWithoutDoubles` says when it stays zero |
| Aggregation.SumResult | src/db/Query.cpp:103-106 | definition of SUM's result: the int sum when all_integers holds, otherwise int_sum + double_sum as a double; stated by `SumIsNumericTotal` |
| Aggregation.SumIsNumericTotal | src/db/Query.cpp:87-107 | SUM is the int total when no value is a double, and otherwise the double equal to the arithmetic sum of all numeric values |
| Aggregation.SumWithoutDoubles | src/db/Query.cpp:89-99 | without a double, double_sum stays zero |
| Aggregation.SumSkipsStrings | src/db/Query.cpp:92-100 | a string value leaves SUM's result and its type unchanged |
| Aggregation.SumOfStrings | src/db/Query.cpp:88-105 | a group holding only strings sums to the int 0 |
| Aggregation.DoubleTotal | src/db/Query.cpp:121-123 | accumulate of to_double succeeds exactly when no value is a string, with the numeric total, and otherwise throws to_double's error |
| Aggregation.AverageIsMean | src/db/Query.cpp:120-126 | AVG is the numeric total divided by the group size, as a double |
| Aggregation.MaxIndex | src/db/Query.cpp:110-114 | max_element yields a position in the group, or to_double's error; a single value is chosen without comparison |
| Aggregation.MinIndex | src/db/Query.cpp:128-132 | min_element yields a position in the group, or to_double's error; a single value is chosen without comparison |
| Aggregation.MaxIndexIsFirstGreatest | src/db/Query.cpp:110-114 | with every value numeric, MAX picks a greatest value, the first of them |
| Aggregation.MinIndexIsFirstLeast | src/db/Query.cpp:128-132 | with every value numeric, MIN picks a least value, the first of them |
| Aggregation.MaxIndexFailsOnString | src/db/Query.cpp:110-114 | among two or more values one string makes MAX throw |
| Aggregation.MinIndexFailsOnString | src/db/Query.cpp:128-132 | among two or more values one string makes MIN throw |
| Aggregation.GroupResult | src/db/Query.cpp:85-142 | definition of the switch on the operation for one group; stated by `GroupResultFails`, `AverageIsMean` and the SUM, MIN and MAX lemmas |
| Aggregation.GroupResultFails | src/db/Query.cpp:85-142 | a group's aggregate fails exactly when AVG meets a string, or MIN or MAX meets a string among two or more values, always with "Non-numeric type"; MIN and MAX of one value return it |
| Aggregation.AggregateGroup | src/db/Query.cpp:85-142 | the switch on the operation, with the SUM loop over the int and double accumulators, computes the group's result or error |
| Aggregation.GroupIndex | src/db/Query.cpp:72-74 | the group field resolves when there is one, failing with UnknownField when it is unknown |
| Aggregation.BuildGroups | src/db/Query.cpp:76-81 | definition of the grouping loop as push_back per tuple; stated by `BuildGroupsSpec` |
| Aggregation.GroupTuples | src/db/Query.cpp:76-81 | the grouping loop builds the map BuildGroups describes |
| Aggregation.BuildGroupsSpec | src/db/Query.cpp:76-81 | the map holds one non-empty group per key occurring in the input, keys strictly ascending, each with that key's values in input order |
| Aggregation.UngroupedIsOneGroup | src/db/Query.cpp:77-80 | without a group field every tuple falls into the single group of field_t{}, holding the whole column |
| Aggregation.EmitRun | src/db/Query.cpp:84-150 | definition of the emission loop over the groups in map order; stated by `EmitRunSpec` |
| Aggregation.EmitRunSpec | src/db/Query.cpp:84-150 | emission writes the rows of a prefix of the groups: all of them when it completes, otherwise those before the first group that throws, failing with that group's error |
| Aggregation.EmitFailureIsFinal | src/db/Query.cpp:84-150 | once a group throws, emission stops there |
| Aggregation.EmitGroups | src/db/Query.cpp:84-150 | the emission loop appends exactly the rows EmitRun gives and ends as it says |
| Aggregation.AggregateRun | src/db/Query.cpp:67-151 | definition of what aggregate appends: both names resolve first, then grouping and emission; stated by the aggregate lemmas below |
| Aggregation.AggregateChecksNamesFirst | src/db/Query.cpp:70-74 | an unknown aggregated field, and then an unknown group field, fail before any tuple is read, writing nothing even on an empty input |
| Aggregation.AggregateEmptyInput | src/db/Query.cpp:76-84 | with the names known, an empty input writes no tuple at all, even for COUNT |
| Aggregation.AggregateFailsOnlyOnNonNumeric | src/db/Query.cpp:85-142 | with the names known, aggregate fails only for AVG, MIN or MAX, with "Non-numeric type" |
| Aggregation.AggregateGrouped | src/db/Query.cpp:67-151 | with a group field: at most one tuple [key, result] per distinct input key, all of them when aggregate completes, keys strictly ascending, each result the aggregate of that key's values in input order |
| Aggregation.AggregateUngrouped | src/db/Query.cpp:67-151 | without a group field a non-empty input writes the single tuple [result] over the whole column, or fails writing nothing |
| Aggregation.CountWithoutGroup | src/db/Query.cpp:138-141 | COUNT without a group field over a non-empty input writes the single tuple [number of input tuples] |
| Aggregation.Aggregate | src/db/Query.cpp:67-151 | aggregate appends exactly what AggregateRun gives and ends as it says |

## Left out

- The internals of `DbFile`, `Tuple` and `TupleDesc` (storage, pages, iterators) are not part of this model. A file is its sequence of tuples, a schema is its sequence of field names, and `insertTuple` appends. The header that declares them is not part of this model.
- Tuples.IndexOf: the declaration of `index_of` is not part of this model. It is taken to return the first position of the name and to throw for an unknown name, modelled as `UnknownField`.
- `get_field` out of range is not modelled. Every tuple of a file is assumed to have one field per schema position (`DbFile.Valid`), and each operator requires it of its input.
- The operators require distinct input and output files, so writing into a file while reading it is not modelled.
- Query.JoinFields: it requires the tuples to have `l_td.size()` and `r_td.size()` fields, which the code's loops over the schema sizes assume.
- Floating point is exact. A `double` payload is a real number, so `SUM`'s double additions, `AVG`'s total and quotient, and `to_double` carry no IEEE rounding. The fraction of `LT` (ColumnStats.cpp:45-46) is computed exactly and truncated, instead of being rounded to a double first.
- 32-bit `int` overflow is not modelled: not in `int_sum` (Query.cpp:89), not in the `int` cast of `COUNT` (Query.cpp:140), and not in `v - min`, `max - min + 1` or `min + bucketIndex * bucketWidth` in ColumnStats.cpp.
- ColumnStatistics.ColumnStats.AddValue: does not model the `size_t` wrap of `histogram[bucketIndex]++` and `totalCount++`, which would need 2^64 insertions; the counters are unbounded naturals.
- ColumnStatistics.ColumnStats.AddValue: requires `bucketWidth > 0` when `v` lies in `[min, max]`, because the code then divides by `bucketWidth` (ColumnStats.cpp:18), which is undefined behaviour when it is 0 (see `WidthPositiveIff`). Values outside `[min, max]` are accepted at any width.
- ColumnStatistics.ComposedEstimates: requires `totalCount < 2^63`, because at `v == max` `LE` is `totalCount + EQ`, and that `size_t` addition must not itself wrap.
- ColumnStatistics.GtWrapsAtMax: requires `totalCount < 2^63` for the same reason: `LE` at `v == max` must not wrap before `GT` does.
- The `default:` branch of `estimateCardinality` (ColumnStats.cpp:61-62) and the trailing `return false` of `evaluatePredicate` (Query.cpp:34) are not modelled: they cannot be reached with the closed set of six operators.
- The empty-group branches of `MAX` and `MIN` (Query.cpp:115-116, 133-134) and `AVG`'s division by an empty size are not modelled: once built, a group holds at least one value (`BuildGroupsSpec`).
- The order of `std::variant` across alternatives is taken to be int < double < string, and `field_t{}` to be `IntField(0)`. Strings compare by character code.
- Exceptions are values: the operators return `Failed(error)` and keep the tuples written before the throw.
- Within one comparison of `max_element` or `min_element`, the order in which the two `to_double` calls run is not modelled. Either call throws the same error.
