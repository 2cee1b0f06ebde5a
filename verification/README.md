# likelihood-machine in Dafny

A model of the deterministic core of *likelihood-machine*, a Python package
for testing theories against binned detector data through response
matrices. The model has three parts.

- **Binning primitives** (`binning.py`):
  - phase spaces are sets of variable names, with product, quotient, subset comparisons and a string form that `from_string` parses back;
  - bins hold a value that can be filled and combined arithmetically;
  - rectangular bins are boxes with a per-side choice of whether their edges belong to them;
  - a binning looks up the first bin that contains an event.
- **Response-matrix normalisation** (`migration.py`): each response column is divided by its truth-bin total when that total is positive, and the result is optionally reshaped in C order.
- **The likelihood engine** (`likelihood.py`), all of it around the numerics:
  - the efficiency reduction of the response matrices and truth vectors, proved lossless;
  - the outer broadcast of `log_probability` over data, response and truth batches, with the `-inf` sanitising;
  - the collapse of systematic toy axes;
  - the truth-limit policy of `log_likelihood`;
  - the deterministic helpers of `max_log_probability`: bounds, start values, step sizes, the reflection into bounds, and the choice of objective and optimiser;
  - the super-hypothesis of `absolute_max_log_likelihood`;
  - the guards of `CompositeHypothesis` and `JeffreysPrior`;
  - the counting behind `likelihood_p_value` and the preference of `plr`.

Floating-point values are exact reals. The infinities and NaN that numpy
produces are modelled by the extended reals `XReals.XReal`, and
log-likelihoods by its subtype `LogL`, which is finite or `-inf`. Python
exceptions become `Failure` values of `Wrappers.Result`. The Poisson
log-pmf, the log-mean-exp of the marginal mode, the Fisher-matrix
log-determinant and the random draws are parameters of the functions that
use them.

Modules, one file each:

- `Wrappers` (wrappers.dfy) and `XReals` (xreal.dfy) hold the shared types.
- `Arrays` (arrays.dfy) holds sums, counts, masks and C-order arrays.
- `PhaseSpaces`, `Bins` and `Binnings` model binning.py.
- `Migration` models migration.py.
- `Reduction`, `Broadcast`, `Systematics`, `Machine`, `Optimizer`, `Hypotheses` and `Ratios` model likelihood.py.

## Model

| member | source | states |
|---|---|---|
| PhaseSpaces.Mul | binning.py:64-65 | a variable is in `a * b` exactly when it is in `a` or in `b` |
| PhaseSpaces.Div | binning.py:67-68 | a variable is in `a / b` exactly when it is in `a` and not in `b` |
| PhaseSpaces.EqNeComplementary | binning.py:46-50 | `!=` is the negation of `==`, and `==` holds exactly for equal variable sets |
| PhaseSpaces.StrictOrder | binning.py:52-62 | `<` is `<=` without `>=`; `>` and `>=` are the mirrored `<` and `<=`; no space is strictly smaller or larger than itself; `<=` both ways means equal |
| PhaseSpaces.DivUndoesMul | binning.py:64-68 | `(x * y) / y == x / y`, the quotient is a sub-space of `x`, and for disjoint spaces `(x * y) / y == x` |
| PhaseSpaces.MatchGroup | binning.py:76-77 | the regular expression captures the unique non-empty, newline-free text between `('` and `')`, with an optional final newline; no match otherwise |
| PhaseSpaces.FindSeparator | binning.py:78 | the separator `' X '` occurs at the returned position and at no earlier one; None when it occurs nowhere |
| PhaseSpaces.FromString | binning.py:73-79 | AttributeError exactly when the pattern does not match; otherwise the variables are exactly the pieces between separators |
| PhaseSpaces.SplitJoin | binning.py:70-78 | splitting the joined form of quote-free names gives the names back, in order |
| PhaseSpaces.FromStringRoundTrip | binning.py:70-79 | `from_string(str(ps)) == ps` for every iteration order of the set, when the names hold no quote or newline and the joined text is not empty |
| PhaseSpaces.EmptyDoesNotRoundTrip | binning.py:70-79 | the empty phase space prints as `('')`, and parsing that raises AttributeError |
| Bins.NewBin | binning.py:84-101 | a missing phase space and unknown keyword arguments raise ValueError, in that order; success keeps the phase space, and the value defaults to 0 |
| Bins.Fill | binning.py:108-114 | the value grows by exactly the weight, or by the sum of a list of weights; the phase space is kept |
| Bins.FillDefaults | binning.py:108-114 | the default fill adds 1, an empty list adds nothing, and a one-element list fills like its element |
| Bins.FillConcatenation | binning.py:108-114 | filling a concatenated list equals filling its two parts one after the other |
| Bins.FillEachIsFill | binning.py:108-114 | filling the weights one at a time equals filling the list at once |
| Bins.Div | binning.py:135-138 | division fails with ZeroDivisionError exactly when the right value is zero |
| Bins.ArithmeticInverses | binning.py:120-138 | results keep the left operand's phase space; `+` and `-` undo each other; `+` commutes on values; `*` and `/` undo each other for a non-zero right value |
| Bins.NewRectangularBin | binning.py:146-178 | construction raises ValueError for missing edges, then for an unknown keyword, then for an edge variable outside the phase space or an upper edge below its lower edge, and otherwise succeeds with the given edges, flags and value on the given phase space or, when none is given, on the edge variables |
| Bins.EventInBin | binning.py:180-205 | the early-exit loop answers true exactly when the event names every edge variable and lies within every edge pair under the bin's inclusion flags; false only when some named variable is outside; KeyError only when a variable is missing, and never when all are named |
| Bins.DefaultFlagsHalfOpen | binning.py:157-158 | with the default flags a finite variable is inside exactly when `lo <= x < hi`, an overflow edge `(lo, inf)` admits exactly `lo <= x`, and a NaN value passes any edges |
| Bins.Center | binning.py:207-212 | the centre has a coordinate for exactly the edge variables: twice it is the sum of finite edges, it is `inf` for `(lo, inf)` and `-inf` for `(-inf, hi)`, NaN for `(-inf, inf)`, and otherwise between its edges |
| Bins.CenterInside | binning.py:207-212 | a box of positive extent in every variable contains its centre, whatever its flags |
| Binnings.NewBinning | binning.py:220-244 | the failures come in the constructor's order: missing phase space, missing bins, a bin on another phase space, unknown keywords; success exactly when none applies |
| Binnings.GetEventBinNumber | binning.py:246-259 | returns the smallest index of a bin containing the event, and None only when no bin contains it; a KeyError comes only from a bin the event does not cover, after every earlier bin has answered that it does not contain the event; an event naming every edge variable gets an answer, None exactly when no bin contains it |
| Binnings.GetEventBin | binning.py:261-271 | returns the first bin containing the event, None only when there is none, and a KeyError only from a bin the event does not cover that every earlier bin precedes without containing the event; an event naming every edge variable gets an answer, None exactly when no bin contains it |
| Migration.Divisor | migration.py:75 | every column is divided by a positive number |
| Migration.NormalizeColumns | migration.py:73-75 | entry `(i, j)` is the response over `N_t[j]` when `N_t[j] > 0`, and the response unchanged otherwise; the shape is kept |
| Migration.NormalizeNonNegative | migration.py:73-75 | non-negative responses give a non-negative matrix, whatever the truth totals |
| Migration.RowReconstruction | migration.py:73-75 | a normalised row dotted with the truth totals gives the row's total response, when every non-zero column has a positive total |
| Migration.MatrixReconstruction | migration.py:61-75 | `M.dot(N_t)` reproduces each reco total, under the same condition |
| Migration.ResponseMatrixAsArray | migration.py:58-80 | the shape is `(n_reco, n_truth)` or the requested one; reshaping fails exactly when the requested shape has a different element count |
| Migration.ResponseMatrixRowMajor | migration.py:77-78 | normalised entry `(i, j)` sits at flat position `i * n_truth + j` |
| Reduction.EfficiencyMask | likelihood.py:232-236 | a truth bin is kept exactly when some toy's efficiency for it exceeds the threshold; an empty stack of matrices raises ValueError |
| Reduction.ReduceResponse | likelihood.py:238 | every toy keeps the masked columns of every row; the batch shape and reco size are kept |
| Reduction.ReducedColumns | likelihood.py:238 | reduced column `k` is the `k`-th kept column of the full matrix, so kept columns stay in their order |
| Reduction.ReductionLossless | likelihood.py:226-238 | with a threshold of at most 0 and non-negative entries, `reduced_R . t[eff] == R . t` for every toy and reco bin |
| Reduction.ReduceTruth | likelihood.py:376-388 | the batch shape and order are kept, and every vector keeps its efficient entries, `n_eff` of them |
| Reduction.Embed | likelihood.py:628-629 | the embedded vector has the full length and is zero in every inefficient bin |
| Reduction.ReduceEmbed | likelihood.py:626-635 | reducing the embedding of a vector of efficient values gives that vector back |
| Reduction.EmbedReduce | likelihood.py:626-635 | embedding the reduction of a vector that is zero outside the mask gives the vector back |
| Reduction.EmbedIsIdentityColumns | likelihood.py:628-629 | the embedding is the product with the kept columns of the identity matrix |
| Broadcast.TileAt | likelihood.py:263-264 | position `(c, i)` of the appended copies holds `v[i]` |
| Broadcast.RepeatAt | likelihood.py:265-268 | position `(i, c)` of the prepended copies holds `v[i]` |
| Broadcast.TileRepeatTranspose | likelihood.py:243-270 | the two modes lay out the same copies, transposed |
| Broadcast.SelectTiled | likelihood.py:381-386 | boolean indexing of stacked blocks with the tiled mask keeps, block by block, the masked entries |
| Broadcast.ReduceTruthByMask | likelihood.py:376-388 | indexing the flat truth array with the efficiency mask tiled over the batch gives the flat storage of `ReduceTruth`'s vectors |
| Broadcast.CellFinite | likelihood.py:332-334 | a cell is finite exactly when every bin's log-probability is, and then it is their real sum; otherwise it is `-inf`, never NaN |
| Broadcast.ImpossibleBin | likelihood.py:332-334 | a data bin with events where the expectation is zero makes the cell `-inf` |
| Broadcast.LogProbability | likelihood.py:301-336 | the result has shape data batch + response batch + truth batch, and its storage fits the shape |
| Broadcast.LogProbabilityAt | likelihood.py:301-336 | entry `(a, b, c)` is the cell of data vector `a`, matrix `b` and truth vector `c` (whose meaning `CellFinite` states), at its C-order position, and depends on nothing else |
| Broadcast.PrefixPeriods | likelihood.py:278-295 | only a response array of more than four axes and a truth array of more than three axes get an ellipsis |
| Broadcast.TranslateAsWrittenFails | likelihood.py:273-296 | the written einsum subscripts are rejected exactly when both arrays get an ellipsis |
| Broadcast.EinsumCounterexample | likelihood.py:321-324 | a one-vector data batch, a 1x1 matrix stack and a 1x1x1 truth batch hit the rejected subscripts, while the corrected model has a result of shape `(1, 1, 1, 1, 1, 1)` |
| Systematics.PyIndex | likelihood.py:344-345 | an index is valid exactly when `-n <= i < n`, and a negative index counts from the end |
| Systematics.ResolveIndex | likelihood.py:344-345 | a multi-index resolves exactly when every entry is valid for its axis, to an in-range index |
| Systematics.PickToy | likelihood.py:342-345 | the leading entries of a tuple, one per toy axis, select the same toy for every entry; an out-of-range entry raises IndexError |
| Systematics.PickTrailing | likelihood.py:342-345 | the entries of a tuple beyond the toy axes index the trailing non-toy axes, and every row keeps the block they select; more entries than axes, or one out of range, raise IndexError; no further entries keep every row whole |
| Systematics.PickTuple | likelihood.py:342-345 | a tuple succeeds exactly when its toy entries are in range and its further entries are in range for the trailing axes, no more of them than there are axes; entry `(p, j)` is the picked toy's value at entry `j` of the selected block |
| Systematics.PickPerEntry | likelihood.py:346-353 | each entry's own tuple, of which only the first toy-rank entries are read, selects that entry's toy; a mismatched shape, a tuple shorter than the toy rank or an out-of-range index raises IndexError |
| Systematics.Profile | likelihood.py:354-356 | each entry is at least every toy's value and equal to one of them; an empty toy axis raises ValueError |
| Systematics.Collapse | likelihood.py:339-363 | the branches are tried in the source's order: tuple, array, profile or maximum, marginal or average; None and unknown names raise ValueError; only a tuple consumes trailing axes, exactly those its further entries index |
| Systematics.ProfileDominatesPick | likelihood.py:342-356 | the profile of every entry is at least the value a tuple picks for it, at the entry its further indices select |
| Systematics.NegativeIndexWraps | likelihood.py:342-345 | a negative tuple index picks the same toy as its non-negative counterpart |
| Machine.NewMachine | likelihood.py:185-214 | missing truth limits become `inf`; construction fails only for an empty stack of matrices; the result satisfies the machine invariant |
| Machine.ValidReady | likelihood.py:213-214 | a constructed machine has at least one matrix, and its reduced matrices have `n_eff` columns and the original batch shape |
| Machine.ReducedLogLikelihood | likelihood.py:365-374 | without a mode or without toy axes the result is `log_probability` unchanged; otherwise it has shape data batch + the truth axes the mode leaves, and succeeds exactly when the collapse does |
| Machine.PickedAt | likelihood.py:339-374 | with a tuple, entry `(a, j)` of the collapsed likelihood is the cell of data vector `a`, the matrix its toy entries name, and truth vector `j` of the block its further entries name, all of them in range |
| Machine.ProfileAt | likelihood.py:339-374 | in the profile or maximum mode, entry `(a, c)` is the best cell for `a` and `c`: at least every matrix's cell and equal to one of them |
| Machine.FirstInVector | likelihood.py:409-411 | returns the first bin whose truth value exceeds its limit; None exactly when there is none |
| Machine.FirstViolation | likelihood.py:409-411 | returns the first offending vector in C order and its first offending bin; None exactly when no value exceeds its limit |
| Machine.FirstViolationNone | likelihood.py:409 | the search finds nothing exactly when every truth value is within its limit |
| Machine.LogLikelihood | likelihood.py:390-423 | within the limits, the result is the reduced likelihood of the reduced truth vectors; otherwise 'raise' gives RuntimeError with the first offending bin, 'prohibit' gives `-inf`, and any other policy gives ValueError |
| Machine.CellLossless | likelihood.py:226-238 | each reduced cell equals the full-problem cell, under the lossless conditions |
| Machine.LogLikelihoodLossless | likelihood.py:390-423 | with a threshold of at most 0, non-negative responses and truth within limits, `log_likelihood(t, None)` equals `log_probability` on the full, unreduced problem |
| Machine.SampleCount | likelihood.py:700-709 | `N` fake data sets are drawn for each matrix of `resp`: every matrix of the stack without a generator index, every matrix of the sub-stack a generator index shorter than the toy rank selects, and one matrix otherwise |
| Machine.SubStacksSplitSamples | likelihood.py:700-709 | the sub-stacks a generator index of a given length selects split the stack: their draws, one sub-stack per possible index, add up to the draws without a generator index |
| Machine.P0 | likelihood.py:697-698 | without a collapse, `p0` keeps the data's cell for every matrix, in the toy shape; with one it is a single value |
| Machine.P0Uncollapsed | likelihood.py:365-374 | with no mode or a single matrix, the reduced likelihood of one data vector succeeds with one cell per matrix, in the batch shape |
| Machine.P0Picked | likelihood.py:697-698 | a tuple gives `p0` exactly when it names exactly the toy axes, in range, and then `p0` is the data's cell under the picked matrix |
| Machine.P0Profile | likelihood.py:697-698 | in the profile mode `p0` is the best cell over the matrices |
| Machine.FakeLikelihoods | likelihood.py:711-717 | one log-likelihood per fake data set, equal to its cell for a single matrix; stacked matrices without a mode raise ValueError |
| Machine.FakeLikelihoodsProfile | likelihood.py:711-717 | in the profile mode each fake data set's likelihood is its best cell over the matrices |
| Machine.FakeLikelihoodsPicked | likelihood.py:711-717 | a tuple succeeds exactly when it names exactly the toy axes, in range, and then each fake data set gets its cell under the picked matrix |
| Machine.PValueInputs | likelihood.py:694-717 | the errors come in the source's order: `p0`'s, then IndexError for a generator index out of range, then the collapse of the fake likelihoods, where stacked matrices without a mode raise ValueError; one likelihood per fake data set, and plain cells for a single matrix |
| Machine.PValueInputsProfile | likelihood.py:694-717 | in the profile mode `p0` and every fake data set's likelihood are their best cells over the matrices |
| Machine.PValueInputsPicked | likelihood.py:694-717 | a tuple succeeds exactly when it names exactly the toy axes, in range, and the generator index is valid; then the data and every fake data set are compared under the picked matrix |
| Machine.PValueAsWritten | likelihood.py:719-723 | the count of fake data sets at most as likely as the data, divided by `N`; ZeroDivisionError exactly when `N == 0` |
| Machine.PValue | likelihood.py:719-723 | the same count divided by the number of fake data sets, always in `[0, 1]`; ZeroDivisionError exactly when there are none |
| Machine.LikelihoodPValueAsWritten | likelihood.py:654-723 | `likelihood_p_value` as written: the errors of the p-value inputs are passed on unchanged, and otherwise the result is the count of fake data sets no more likely than the data, divided by `N`, with ZeroDivisionError exactly when `N` is zero |
| Machine.LikelihoodPValue | likelihood.py:654-723 | `likelihood_p_value` dividing by the samples drawn: the errors of the p-value inputs are passed on unchanged, and otherwise the result is the count of fake data sets no more likely than the data over the number drawn, a probability in `[0, 1]`, with ZeroDivisionError exactly when none is drawn |
| Machine.PValueAgreesWithoutStack | likelihood.py:700-723 | with a single matrix, or a generator index naming every toy axis, both p-values agree |
| Machine.PValueAsWrittenExceedsOne | likelihood.py:700-723 | two stacked matrices and `N = 1` draw two data sets, and the written p-value can be 2 |
| Machine.PValueAsWrittenShortGenerator | likelihood.py:700-723 | a `(2, 3)` stack, the generator index `(0,)` and `N = 1` draw three data sets, and the written p-value can be 3 |
| Optimizer.Limit | likelihood.py:466-477 | a missing lower bound becomes `-inf` and a missing upper bound `inf`; given bounds are kept |
| Optimizer.LimitAllowed | likelihood.py:466-479 | the converted limits describe the same interval as the bounds |
| Optimizer.StartValue | likelihood.py:489-505 | the midpoint of two bounds, else the one given bound, else 0 |
| Optimizer.StepValue | likelihood.py:510-515 | half the range of two bounds, else 1 |
| Optimizer.StartWithinBounds | likelihood.py:489-515 | the start value is within consistent bounds, and one step from it reaches either bound |
| Optimizer.FloorMod | likelihood.py:529-530 | numpy's `%` lies in `[0, d)` for a positive finite divisor, leaves a same-signed dividend unchanged for an infinite one, and is NaN for a zero divisor |
| Optimizer.ReflectInBounds | likelihood.py:528-530 | with finite limits `lo < hi` every proposal is folded into `[lo, hi]` |
| Optimizer.ReflectKeepsAllowed | likelihood.py:528-530 | a proposal within the limits is left alone |
| Optimizer.ReflectMirror | likelihood.py:528-530 | with one infinite limit the fold mirrors the proposal at the finite limit |
| Optimizer.ReflectAboveLower | likelihood.py:528-530 | with only a lower limit every proposal ends up at or above it |
| Optimizer.ReflectDegenerate | likelihood.py:528-530 | equal limits turn any proposal off that point into NaN |
| Optimizer.StepOne | likelihood.py:522-532 | one step of a parameter with finite limits `lo < hi` stays within `[lo, hi]` |
| Optimizer.StepFun | likelihood.py:522-532 | `step_fun` keeps every parameter with finite limits within them |
| Optimizer.StepWithinLimits | likelihood.py:522-532 | a move that stays within the limits is taken unchanged |
| Optimizer.Configure | likelihood.py:455-551 | an unknown mode raises ValueError, missing bounds TypeError, an empty bounds list IndexError (the transposed empty array has no second row), and an unknown method ValueError, in that order; basin hopping starts at the start values with the step values, `T = n`, 100 iterations and L-BFGS-B |
| Optimizer.ArgMax | likelihood.py:553-555 | returns the first position of the largest log-probability; an empty array fails |
| Optimizer.ProbabilityFromObjective | likelihood.py:553 | `P = -fun` recovers the maximum, and `fun` is `inf` exactly when every log-probability is `-inf` |
| Hypotheses.NewCompositeHypothesis | likelihood.py:57-63 | TypeError exactly when both the limits and the priors are None; otherwise every argument is kept |
| Hypotheses.Wrap | likelihood.py:559-566 | the wrapper keeps limits, priors and names, and translates to the reduced truth vector |
| Hypotheses.SuperHypothesis | likelihood.py:625-630 | one bound per efficient truth bin, and the translation is the embedding into the full truth vector |
| Hypotheses.SuperHypothesisWrapsToIdentity | likelihood.py:626-630 | wrapping the super-hypothesis gives the identity on vectors of efficient truth values |
| Hypotheses.SuperHypothesisPlan | likelihood.py:626-632 | basin hopping for the super-hypothesis is planned exactly when some truth bin is efficient, and then starts at zero with unit steps; without an efficient bin the empty bounds raise IndexError |
| Hypotheses.SuperHypothesisStepNonNegative | likelihood.py:627-632 | every reflected step under the bounds `(0, None)` is non-negative |
| Hypotheses.SuperHypothesisResult | likelihood.py:634-635 | the reported truth vector has full length, reduces back to the optimum and is zero in the inefficient bins |
| Hypotheses.NewJeffreysPrior | likelihood.py:114-131 | no limits raise IndexError; missing bounds become infinities; a total limit of None or 0 means no limit; a dx of None or `[]` becomes `1e-3` per parameter |
| Hypotheses.EvaluatePrior | likelihood.py:166-180 | `-inf` outside the bounds or above the total truth limit; otherwise half the log-determinant for the selected toy, or IndexError for an invalid toy index |
| Hypotheses.PriorZeroOutsideBounds | likelihood.py:170-171 | a value outside one of the original bounds has prior `-inf` |
| Hypotheses.PriorUnguarded | likelihood.py:166-180 | without any limits the guards never fire, and the prior is the Fisher term |
| Ratios.Plr | likelihood.py:996 | the PLR sample has one entry per pairing of the two likelihood samples |
| Ratios.PlrAt | likelihood.py:996 | entry `j * len(L0) + i` is `L1[j] - L0[i]` |
| Ratios.PlrAntisymmetric | likelihood.py:985-987 | `PLR(H0, H1)` is the negation of `PLR(H1, H0)` under the transposed pairing, including NaN |
| Ratios.Preference | likelihood.py:997 | the fraction of positive ratios, in `[0, 1]`; ZeroDivisionError exactly when either sample is empty |
| Ratios.MirroredCounts | likelihood.py:985-988 | the positive ratios of `PLR(H0, H1)` are as many as the negative ratios of `PLR(H1, H0)` |
| Ratios.UntiedDecided | likelihood.py:996 | without ties between the samples every ratio is positive or negative |
| Ratios.PreferenceComplement | likelihood.py:985-988 | the two preferences add up to at most 1, and to exactly 1 when no pairing is tied |

## Left out

- The Poisson log-pmf, `exp`, `log`, the log-mean-exp of the marginal mode, `slogdet` and the finite-difference Fisher matrix are floating-point numerics. They are function parameters (`Broadcast.LogPmf`, `Systematics.LogMeanExp`, `Hypotheses.FisherLogDet`).
- Finite floating-point rounding and overflow are not modelled: values are exact reals. Infinities and NaN are modelled as `XReals.XReal`, in bin edges, event values and log-likelihoods.
- The scipy optimisers and the `kwargs` overrides are foreign code. `Optimizer.Configure` stops at the plan handed to them, and the optimum is an input of `Optimizer.ArgMax` and `Optimizer.ProbabilityFromObjective`.
- Random sampling is not modelled: the fake data sets of `likelihood_p_value` and the normal draws of `step_fun` are parameters.
- `max_log_likelihood`'s call into `max_log_probability` is left out because it only delegates to the optimiser. `absolute_max_log_likelihood` is modelled through its super-hypothesis.
- `max_likelihood_p_value`, `max_likelihood_ratio_p_value`, `mcmc`, `generate_random_data_sample` and the plotting methods wrap optimisers, samplers and plotting.
- `plr` takes the two likelihood samples as inputs. Computing them is `log_likelihood`, which is modelled separately.
- `ResponseMatrix` filling, CSV input, reset and getters are left out: they are I/O, and they delegate to binning methods that are not part of this model.
- Python's set iteration order in `PhaseSpace.__str__` is not modelled: `PhaseSpaces.ToString` takes any enumeration of the set.
- Bins.NewRectangularBin: a bad edge is one ValueError, whichever edge is checked first, because the source's message depends on dict iteration order.
- Bins.EventInBin: the order in which the edge variables are checked is left open, as dict order is not part of the model. So when one variable is missing and another is outside, the answer may be KeyError or false; the source's answer depends on the edges' insertion order.
- Systematics.PickToy: a tuple index must name every toy axis. A shorter tuple selects a sub-array of toys in numpy and is not modelled.
- Systematics.PickPerEntry: the index array must hold one tuple for every non-toy entry. numpy's broadcasting of smaller index arrays is not modelled.
- Systematics.Collapse: the modelled array has exactly three groups of axes (non-toy, toy, non-toy). An array with the toy axes elsewhere cannot arise from the modelled callers.
- Migration.ResponseMatrixAsArray: a requested shape containing `-1` is not modelled.
- Hypotheses.NewJeffreysPrior: only None and the empty list count as a missing `dx`. numpy raises ValueError for the truth value of a longer array, and that is not modelled.
- Machine.PValueInputs: only one data vector is handled (the data batch shape is `()`). The generator index is only checked, not used, because the fake data sets are inputs. The model accepts an index that also names reco or truth entries in range, because numpy accepts the indexing; the source then samples from a matrix without its reco axis and fails once the fake data no longer have `n_reco` entries, unless the sizes happen to coincide. That failure is not modelled. An index array is applied to the fake likelihoods as one tuple per fake data set. In the source the same `systematics` array collapses both `p0`, whose non-toy shape is `()`, and the fake likelihoods, whose non-toy shape is `(M,)`, so no index array fits both shapes.
- Machine.LogLikelihood: the truth vectors must have the machine's number of truth bins. numpy's error for a mismatch is not modelled.

## Findings

| source | as written | input that shows it | evidently intended | confidence | as-written member | corrected member |
|---|---|---|---|---|---|---|
| likelihood.py:278-296 | `_translate` gives both the extended response array and the truth array an ellipsis, so the einsum output holds two of them, which numpy rejects with ValueError | a data batch of shape `(1, n_reco)`, response matrices of shape `(1, 1, n_reco, n_truth)` and truth vectors of shape `(1, 1, 1, n_truth)` | an array of shape data batch + response batch + truth batch, as for fewer axes | medium, not executed | Broadcast.TranslateAsWrittenFails, Broadcast.EinsumCounterexample | Broadcast.LogProbability, Broadcast.LogProbabilityAt |
| likelihood.py:700-723 | with stacked response matrices and no generator index, or one shorter than the toy rank, `N` fake data sets are drawn per matrix of `resp`, but the count is divided by `N`, so the p-value can exceed 1 | two stacked matrices, `N = 1`, and both fake data sets at most as likely as the data: the result is 2.0; or a `(2, 3)` stack with the generator index `(0,)`: the result can be 3.0 | the fraction of the drawn data sets, a probability in `[0, 1]` | medium, not executed | Machine.LikelihoodPValueAsWritten, Machine.PValueAsWrittenExceedsOne, Machine.PValueAsWrittenShortGenerator | Machine.LikelihoodPValue, Machine.PValue |
