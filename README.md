# Windowed fit-factor analysis

This project models the batch analysis of a particle-counter logger. A
respirator fit test logs two sensors: one in the breathing area inside the
mask and one in the ambient air. Each sensor produces a table of
concentrations indexed by time. An analysis configuration ("metadata") lists
graphs. Each graph has a title, a time window, and named events at offsets
from the window start. For every pair of consecutive events, the analysis
computes a *fit factor*: the ambient concentration summed over the interval
between the two events, divided by the breathing-area concentration summed
over the same interval. The results are collected into a table of records.
A harmonic mean (`hmff`) averages fit factors conservatively.

The model is in Dafny, in five modules:

- `Values` (`values.dfy`): `Option`, `Result`, and `Quotient`. A `Quotient`
  is the outcome of a floating-point division: a real value, or
  `DivisionByZero` for the infinity or NaN that IEEE division gives when the
  divisor is zero.
- `Frames` (`frames.dfy`): tables as rows of a timestamp plus numeric cells.
  A missing (NaN) cell is a column absent from the row. Also holds `between`
  and column sums, which skip missing cells.
- `FitFactor` (`fit_factor.dfy`): `get_fit_factor_between_two_events`.
- `FitFactors` (`fit_factors.dfy`): `get_fit_factors`, written as methods
  with loops:
  - `GetFitFactors` loops over the data objects.
  - `AppendObjectRecords` loops over the graphs of one object.
  - `AppendGraphRecords` loops over the event pairs of one graph.

  Each is proved equal to a specification function (`FitFactorRecords`,
  `GraphsRecords`, `GraphRecords`). Lemmas about those functions give:
  - the number of records;
  - their order;
  - the content of each record;
  - when the run fails.
- `HarmonicMean` (`harmonic_mean.dfy`): `hmff` over a column of optional
  reals, with its bounds: between the minimum and the maximum, equal to a
  constant column's value, and at most the arithmetic mean.

Three conventions hold throughout:

- A column label that a table lacks is a pandas `KeyError`. Here it is the
  error `MissingColumn(label)`, and it stops `get_fit_factors`. The
  breathing-area column is looked up first, so its absence is reported when
  both are missing.
- A record is a `map<string, Value>`, as the dictionary literal at
  utilities.py:125-138 builds it. When the caller's title key is `"event"`
  or `"fit_factor"`, a later entry overwrites the title, as it does in
  Python.
- Timestamps are integers. The window bounds are strings that pandas parses
  back into datetimes (utilities.py:109-119); here they are the same
  integers.

A present value of 0 does not raise. pandas makes `1 / 0` infinite, so the
reciprocal sum is infinite and `numerator / denominator` is 0
(utilities.py:10-13). `Hmff` returns `Finite(0.0)` in that case.

## Model

| member | source | states |
|---|---|---|
| Values.Divide | utilities.py:98 | the quotient is a real number exactly when the divisor is non-zero; otherwise it is the IEEE infinity/NaN outcome |
| Values.DivideExact | utilities.py:98 | a finite quotient multiplied by the divisor gives back the dividend |
| Frames.Filter | utilities.py:74-77 | the mask keeps at most the input rows, and every kept row has `lo < time < hi` |
| Frames.Between | utilities.py:73-77 | `between` keeps the table's columns, and every row it returns lies strictly inside `(start, end)` |
| Frames.BetweenIsSubsequence | utilities.py:73-77 | `between` returns a subsequence of its input: order kept, no row added or altered |
| Frames.FilterIsSubsequence | utilities.py:74-77 | the boolean mask yields a subsequence of the rows |
| Frames.BetweenExact | utilities.py:73-77 | each row appears in the result as often as in the input when `start < time < end`, and never otherwise (a row stamped `start` or `end` is dropped) |
| Frames.FilterExact | utilities.py:74-77 | the multiset form of the same, for the mask over the rows |
| Frames.FilterTwice | utilities.py:74-77 | slicing to one window and then another is slicing once to their intersection |
| Frames.SumOfBetween | utilities.py:88-91 | summing a column of the slice equals summing it over the rows strictly inside the interval, skipping missing cells |
| Frames.SumInEmptyWindow | utilities.py:88-91 | an interval with `hi <= lo` contains no row, so its sum is 0 |
| FitFactor.FitFactorBetween | utilities.py:79-98 | a missing column is an error (breathing column reported first); otherwise the result is ambient sum / breathing sum over the open interval `(start + td[i], start + td[i+1])`, finite exactly when the breathing sum is non-zero |
| FitFactor.SwapGivesReciprocal | utilities.py:88-98 | swapping the two tables and columns gives the reciprocal fit factor, since both sums use the same bounds |
| FitFactor.EmptyInterval | utilities.py:88-98 | if `td[i+1] <= td[i]` the interval is empty and the result is a division by zero |
| FitFactor.ClippedFitFactor | utilities.py:88-119 | on tables first clipped to the graph window, a row counts only if it lies strictly inside both the window and the event interval |
| FitFactor.ClippedSum | utilities.py:88-119 | the sum over the event interval of a window-clipped table is the sum over the intersection of the two intervals |
| FitFactors.MakeRecord | utilities.py:125-138 | the record has exactly the keys title, `event` and `fit_factor`; `event` and `fit_factor` hold the event name and the quotient; the title survives unless its key collides |
| FitFactors.Then | utilities.py:103-138 | two stages succeed together, and then their records are the first stage's followed by the second's; otherwise the first stage's error wins, else the second's |
| FitFactors.GetFitFactors | utilities.py:100-140 | the nested loops return exactly `FitFactorRecords`: all records in order, or the first missing-column error |
| FitFactors.AppendObjectRecords | utilities.py:103-138 | the loop over graphs appends the records of every graph of one object, or stops at its error |
| FitFactors.ClippedFactor | utilities.py:109-137 | clipping both tables to the graph window and then computing the fit factor of pair `i` gives the missing-column error, or the ambient sum over the breathing sum taken over the rows strictly inside both the window and the event interval of the unclipped tables |
| FitFactors.GraphFactors | utilities.py:109-137 | one fit factor per pair of consecutive events, and factor `i` is that reference fit factor of pair `i` |
| FitFactors.AppendGraphRecords | utilities.py:108-138 | clipping both tables and looping over `range(len(events) - 1)` appends one record per pair, or stops at the first error |
| FitFactors.PairStep | utilities.py:123-138 | one more successful pair appends exactly its record |
| FitFactors.GraphsStep | utilities.py:108-138 | one more successful graph appends exactly its records |
| FitFactors.ObjectsStep | utilities.py:103-138 | one more successful object appends exactly its records |
| FitFactors.GraphAborts | utilities.py:123-138 | the first failing pair's error is the graph's result |
| FitFactors.GraphsAbort | utilities.py:108-138 | the first failing graph's error is the object's result |
| FitFactors.ObjectsAbort | utilities.py:103-138 | the first failing object's error is the whole result |
| FitFactors.PairErrorPersists | utilities.py:123-138 | once a pair fails, later pairs do not change the error |
| FitFactors.GraphsErrorPersists | utilities.py:108-138 | once a graph fails, later graphs do not change the error |
| FitFactors.ObjectsErrorPersists | utilities.py:103-138 | once an object fails, later objects do not change the error |
| FitFactors.PairRecordsLength | utilities.py:123-138 | a successful graph has one record per pair |
| FitFactors.GraphsRecordsLength | utilities.py:108-138 | an object yields `max(0, len(events) - 1)` records per graph, summed over its graphs |
| FitFactors.RecordsCount | utilities.py:100-140 | the result has one record per adjacent event pair, summed over every graph of every object; graphs with 0 or 1 events contribute none |
| FitFactors.PairRecordsUniform | utilities.py:123-138 | pairs that all fail with one error, or all succeed, give that error exactly when the graph has a pair |
| FitFactors.GraphRecordsError | utilities.py:108-138 | a graph fails exactly when it has a pair and a column is missing, with the breathing column reported first |
| FitFactors.GraphsRecordsError | utilities.py:108-138 | an object fails exactly when it has a pair in some graph and a column is missing |
| FitFactors.RecordsErrorIff | utilities.py:100-140 | the run fails exactly when some object has an adjacent pair and lacks one of the two columns |
| FitFactors.FirstFailure | utilities.py:100-140 | the error reported is the one of the first failing object |
| FitFactors.PairRecordAt | utilities.py:123-138 | record `i` of a graph is built from pair `i`'s fit factor and the name of the earlier event `events[i]` |
| FitFactors.GraphsRecordAt | utilities.py:108-138 | graph `j`'s record `i` sits after the records of the graphs before `j` |
| FitFactors.GraphsRecordInInit | utilities.py:108-138 | appending a graph does not move earlier records |
| FitFactors.GraphsRecordInLast | utilities.py:108-138 | the last graph's records follow all earlier ones |
| FitFactors.RecordAt | utilities.py:100-140 | object `k`'s records sit after the records of the objects before `k` |
| FitFactors.RecordInInit | utilities.py:103-138 | appending an object does not move earlier records |
| FitFactors.RecordInLast | utilities.py:103-138 | the last object's records follow all earlier ones |
| FitFactors.RecordInGraph | utilities.py:100-140 | the record at position `Offset(k, j, i)` is record `i` of graph `j` of object `k` |
| FitFactors.RecordOfFactor | utilities.py:100-140 | the record at `Offset(k, j, i)` carries graph `j`'s title, the name of `events[i]`, and pair `i`'s fit factor |
| FitFactors.FitFactorRecordAt | utilities.py:100-140 | the same record's fit factor is the ambient sum over the breathing sum, both over the rows strictly inside the window and the event interval |
| FitFactors.GraphPairsPrefix | utilities.py:108-123 | the pair count of the first `j + 1` graphs adds graph `j`'s pairs |
| FitFactors.GraphPairsMonotone | utilities.py:108-123 | more graphs never give fewer pairs |
| FitFactors.TotalPairsPrefix | utilities.py:103-123 | the pair count of the first `k + 1` objects adds object `k`'s pairs |
| FitFactors.TotalPairsMonotone | utilities.py:103-123 | more objects never give fewer pairs |
| FitFactors.OffsetsOrdered | utilities.py:103-138 | records are ordered by object, then graph, then event pair, and every position lies inside the result |
| FitFactors.OffsetBeforeNextObject | utilities.py:103-138 | every record of object `k` precedes those of object `k + 1` |
| FitFactors.OffsetInside | utilities.py:103-138 | every (object, graph, pair) position lies inside the result |
| FitFactors.TwoWindowsThreeRecords | utilities.py:100-140 | windows with events `[0, 10]` and `[0, 5, 15]` give three records, named `start`, `start`, `middle`, in that order |
| HarmonicMean.Hmff | utilities.py:5-13 | a present zero gives 0; otherwise the result is finite exactly when the reciprocal sum is non-zero, and then `hmff * sum(1/x) = count` |
| HarmonicMean.CountAppend | utilities.py:11 | the count of present values is additive over concatenation |
| HarmonicMean.SumReciprocalsAppend | utilities.py:10 | the reciprocal sum is additive over concatenation |
| HarmonicMean.NoPresentZeroAppend | utilities.py:10 | a concatenation has no present zero exactly when neither part has one |
| HarmonicMean.HmffIgnoresMissing | utilities.py:10-13 | inserting a missing entry anywhere leaves `hmff` unchanged |
| HarmonicMean.ReciprocalSumAtMost | utilities.py:10-11 | with every present value at least `lo > 0`, `lo * sum(1/x) <= count` |
| HarmonicMean.ReciprocalSumAtLeast | utilities.py:10-11 | with every present value positive and at most `hi`, `count <= hi * sum(1/x)` |
| HarmonicMean.ReciprocalSumWithin | utilities.py:10-11 | for values in `[lo, hi]` with `lo > 0` and some present, the reciprocal sum is positive and bracketed by `count / hi` and `count / lo` |
| HarmonicMean.HmffWithin | utilities.py:5-13 | for present values in `[lo, hi]` with `lo > 0`, `hmff` is defined and lies in `[lo, hi]`, in particular between the minimum and the maximum |
| HarmonicMean.ConstantReciprocalSum | utilities.py:10-11 | when every present value is `v != 0`, `v * sum(1/x) = count` |
| HarmonicMean.HmffConstant | utilities.py:5-13 | when every present value is the same non-zero `v`, `hmff` is `v` |
| HarmonicMean.CrossSumBound | utilities.py:10-11 | for positive values and `y > 0`, `y * sum(1/x) + sum(x) / y >= 2 * count` |
| HarmonicMean.ReciprocalSumPositive | utilities.py:10 | for positive values the reciprocal sum is non-negative, and positive when some value is present |
| HarmonicMean.HmffPositive | utilities.py:5-13 | for positive values with one present, `hmff` is a positive real with `hmff * sum(1/x) = count` |
| HarmonicMean.HmffAtMostMean | utilities.py:5-13 | for positive values with one present, `hmff` never exceeds the arithmetic mean (the conservative average) |

## Left out

- Floating point: sums and quotients are exact reals. Rounding is not modelled. Every infinity or NaN from a zero divisor is one `DivisionByZero` value, so its sign is not kept.
- Values.Divide: a zero divisor never raises in the source, so it is a result value rather than a precondition; callers are not required to avoid it.
- HarmonicMean.Hmff: an infinite reciprocal from a present zero is modelled only as far as it makes the result 0; a column holding values whose reciprocals are infinite of both signs (a NaN result under IEEE) is not distinguished.
- HarmonicMean.HmffAtMostMean: states `hmff * count <= sum` rather than `hmff <= sum / count`; the two are equivalent for the positive count it requires.
- HarmonicMean.CountPresent is a real number rather than an integer, because `hmff` uses it only as a numerator.
- Timestamps are integers; pandas' parsing of the string window bounds and its datetime comparisons are not modelled.
- `pd.DataFrame(collection)` (utilities.py:140): the result is the list of records; building a frame from it is not modelled.
- `read_csv` and `read_2_sensors` (utilities.py:52-71): CSV parsing, time-zone strings and file reads. Tables are taken as given.
- `bar_plot_exposure_reduction_factors`, `plot_one_graph`, `plot` (utilities.py:16-49, 142-248): rendering and image loading only.
- collect_data.py is not part of this model: it is serial-port I/O and CSV rewriting.
- mv.py is not part of this model: it runs `mv` and `git` as external processes.
