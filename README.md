# UniversalGP core, modelled in Dafny

This project models five small pieces of UniversalGP, a Gaussian-process and
logistic-regression library for fairness-aware classification:

- `util.dfy` (module `Util`) covers `universalgp/util/util.py`:
  - `init_list` is a method that fills a nested list leaf by leaf;
  - the exact arithmetic helpers are `ceil_divide`, `diag_mul` and `mat_square`;
  - the lower-triangular packing is `tri_vec_shape` and `vec_to_tri`.
- `logistic_regression.dfy` (module `LogisticRegression`) covers
  `universalgp/inf/logistic_regression.py`:
  - the baseline loss of `LogReg` and its `call`;
  - the re-weighted training loss of `FairLogReg`, which gathers rows from a
    log-debiasing tensor;
  - the `EqOddsLogReg` override.
- `sensitive_from_numpy.dfy` (module `SensitiveFromNumpy`) covers
  `universalgp/datasets/sensitive_from_numpy.py`:
  - the inducing inputs picked by stride;
  - the normaliser's branch choice and its per-column division;
  - the entry values each normaliser produces, on the training and the test inputs;
  - the shape fields of the dataset.
- `train_helper.dfy` (module `TrainHelper`) covers
  `universalgp/util/train_helper.py`:
  - model assembly in `construct_from_flags`;
  - the branches and the flag-file text of `post_training`.
- `maize.dfy` (module `Maize`) covers `datasets/maize.py`: the leave-one-out
  split at row 5, and the IndexError for a file that `np.loadtxt` squeezes
  to one dimension.
- `base.dfy` (module `Base`) holds the shared vocabulary:
  - the Python exceptions and a `Result` type;
  - two-dimensional arrays;
  - sums;
  - Python slicing and floor division.

Error paths are modelled as `Err` values carrying the exception the source
raises, for example:

- an empty `dims` in `init_list` gives `IndexError`;
- a non-triangular width in `vec_to_tri` gives `AssertionError`;
- a zero `num_inducing` gives `ZeroDivisionError`;
- an unknown registry name gives `AttributeError`;
- a missing flag gives `KeyError`.

TensorFlow's transcendental functions are inputs of the model, as function
values:

- `log_sigmoid`, `sigmoid` and `reduce_logsumexp`;
- numpy's `sqrt`;
- scipy's `zscore`.

Arithmetic is over exact `real`s.

An all-zero debiasing tensor does not reproduce the baseline loss. The fair
loss takes a logsumexp over ŷ, so with a zero tensor
each example scores logsumexp(log σ(-x), log σ(x)) = log 1 = 0, whatever its
label and group. `LogisticRegression.ZeroDebiasIgnoresLabels` and
`LogisticRegression.ZeroDebiasLossIsL2` state this.

## Model

| member | source | states |
|---|---|---|
| Util.FillList | universalgp/util/util.py:13-22 | Filling a list of shape `dims` in place returns exactly the specification tree `Filled(dims, init, calls)`. Call number `calls + k` goes to the k-th leaf in row-major order. The call counter advances by the number of leaves. |
| Util.InitList | universalgp/util/util.py:6-27 | An empty `dims` fails with IndexError, because `fill_list` reads `dims[0]`. Otherwise the result is the filled tree of shape `dims`. |
| Util.EmptyListShape | universalgp/util/util.py:7-11 | `empty_list(dims)` is nested `len(dims)` deep, and every list at depth k has `range(dims[k])` elements. |
| Util.FilledShape | universalgp/util/util.py:6-27 | The result of `init_list` is nested `len(dims)` deep, and every list at depth k has length `dims[k]` (0 for a negative entry). |
| Util.FilledAt | universalgp/util/util.py:14-22 | The leaf at index path p holds `init`, or the value of call number `FlatIndex(dims, p)`: row-major position = call order. |
| Util.FlatIndexBound | universalgp/util/util.py:15-22 | The call number of every leaf lies below the number of leaves. |
| Util.FlatIndexInjective | universalgp/util/util.py:15-22 | Distinct leaves get distinct call numbers, so a callable `init` gives every leaf its own result. |
| Util.InitListLeaves | universalgp/util/util.py:15-19 | With a plain `init` every leaf equals it. With a callable, leaf p is the result of call number `FlatIndex(dims, p)`, its row-major position, which is below the number of leaves; two distinct leaves have distinct call numbers, so they come from two distinct calls. |
| Util.SetAtIsolated | universalgp/util/util.py:11 | Assigning one leaf of a shaped list sets that leaf and leaves every other leaf unchanged: sibling sublists are separate copies, not aliases. |
| Util.CeilDivide | universalgp/util/util.py:30-31 | A zero divisor raises. For a positive divisor, the floor of the true-division result is ⌈dividend/divisor⌉, the least k with k·divisor ≥ dividend. |
| Util.CeilQuotient | universalgp/util/util.py:30-31 | The floor of the real quotient (a + b - 1) / b is the integer quotient. |
| Util.Transpose | universalgp/util/util.py:38-39 | `tf.transpose` swaps rows and columns: entry (j, i) of the result is entry (i, j) of the input. |
| Util.DiagMul | universalgp/util/util.py:38-39 | `diag_mul(A, B)` has one value per row of A; `DiagMulIsDiagonal` states each value. |
| Util.DiagMulIsDiagonal | universalgp/util/util.py:38-39 | `diag_mul(A, B)[i]` is the i-th diagonal entry of the matrix product A·B. |
| Util.MatSquare | universalgp/util/util.py:50-51 | `mat_square(M)` is a square matrix whose side is the number of rows of M; `MatSquareEntry` states its entries. |
| Util.MatSquareEntry | universalgp/util/util.py:50-51 | Entry (i, j) of `mat_square(M)` is the dot product of rows i and j of M. |
| Util.MatSquareSymmetric | universalgp/util/util.py:50-51 | `mat_square(M)` = M·Mᵀ is symmetric, and its diagonal is non-negative. |
| Util.DotSymmetric | universalgp/util/util.py:50-51 | The dot product is symmetric. |
| Util.TriVecShape | universalgp/util/util.py:54-55 | `tri_vec_shape(N)` is a one-element list holding N(N+1)/2. Python's `//` is exact here because N(N+1) is even. |
| Util.TriVecShapeCountsPositions | universalgp/util/util.py:54-55 | The packed length equals the number of lower-triangle positions of an N×N matrix. |
| Util.TrilIndices | universalgp/util/util.py:67 | `np.tril_indices(N)` lists N(N+1)/2 positions (i, j), each with j ≤ i < N. |
| Util.TrilIndicesAt | universalgp/util/util.py:67 | Position (i, j) with j ≤ i sits at index i(i+1)/2 + j, which is row-major lower-triangle order. |
| Util.TrilIndicesInverse | universalgp/util/util.py:67 | Every index k is i(i+1)/2 + j for the position (i, j) stored there. |
| Util.CellSumUnique | universalgp/util/util.py:69-70 | For `scatter_nd`, a cell named by exactly one index receives that update. A cell named by none stays zero. |
| Util.ScatterNd | universalgp/util/util.py:69-70 | `scatter_nd` into shape [N, N] yields an N×N matrix. |
| Util.TriMatrix | universalgp/util/util.py:69-70 | `vec_to_tri_vector` scatters one packed vector into an N×N matrix; `TriMatrixCell` states its cells. |
| Util.TriMatrixCell | universalgp/util/util.py:67-72 | The unpacked matrix holds `v[i(i+1)/2 + j]` at (i, j) for j ≤ i and zero above the diagonal. |
| Util.TriRoot | universalgp/util/util.py:65 | N = ⌊½√(8M+1) − ½⌋ is the largest N with N(N+1)/2 ≤ M. |
| Util.TriRootOfTriangle | universalgp/util/util.py:65-66 | For a triangle number M = N(N+1)/2 the computed N is exactly that N. |
| Util.VecToTri | universalgp/util/util.py:58-72 | A failure is the AssertionError of the triangle check. On success there is one matrix per input row, and N(N+1) = 2M. |
| Util.VecToTriAccepts | universalgp/util/util.py:64-66 | `vec_to_tri` accepts a width M exactly when M is a triangle number. |
| Util.VecToTriCell | universalgp/util/util.py:67-72 | Each output matrix is N×N. It holds `vector[i(i+1)/2 + j]` at (i, j) for j ≤ i and zero above the diagonal. |
| Util.TriToVec | universalgp/util/util.py:67 | Reading the lower triangle row by row gives N(N+1)/2 values. |
| Util.TriRoundTrip | universalgp/util/util.py:67-72 | Reading back the lower triangle of the unpacked matrix returns the packed vector, so every packed entry lands in its own cell. |
| Util.TriMatrixRoundTrip | universalgp/util/util.py:67-72 | Packing a lower-triangular matrix and unpacking it again restores that matrix. |
| Util.VecToTriAsWritten | universalgp/util/util.py:64-67 | As written, `vec_to_tri` fails with NameError on every input, because `np` is not imported. |
| Util.VecToTriAsWrittenRejectsValidInput | universalgp/util/util.py:64-67 | For the 1×1 input [[x]], the as-written function fails, while the corrected one unpacks it to [[[x]]]. |
| LogisticRegression.NegMean | universalgp/inf/logistic_regression.py:41 | `-reduce_mean` of an empty batch is NaN. Otherwise the value times the batch size is minus the sum. |
| LogisticRegression.BaseInference | universalgp/inf/logistic_regression.py:34-42 | `LogReg.inference`: the negated mean log conditional probability plus the L2 term. It has no contract of its own; `BaselineLoss` states what it returns. |
| LogisticRegression.BaselineLoss | universalgp/inf/logistic_regression.py:34-42 | `loss` = `regr_loss` + `l2_loss`. `regr_loss` times the batch size is minus the summed log conditional probabilities. An empty batch gives NaN. |
| LogisticRegression.LogCondProbOfLabel | universalgp/inf/logistic_regression.py:39 | A label of 1 scores log σ(x) and a label of 0 scores log σ(-x). |
| LogisticRegression.Call | universalgp/inf/logistic_regression.py:48-50 | `call` returns σ of each logit, paired with zeros of the same shape. |
| LogisticRegression.EvaluationUsesBaseline | universalgp/inf/logistic_regression.py:61-64 | Outside training, every model returns exactly the `LogReg` result. |
| LogisticRegression.FairValues | universalgp/inf/logistic_regression.py:65-81 | Example k reads row `log_debias[y_k][s_k]`, indexed by true label and then group. It adds log σ(-x_k) to the ŷ=0 entry and log σ(x_k) to the ŷ=1 entry, and reduces with logsumexp. |
| LogisticRegression.FairTrainingLosses | universalgp/inf/logistic_regression.py:65-84 | The training branch of `FairLogReg.inference` for a given tensor. It has no contract of its own; `FairValues`, `FairTrainingLoss` and `ZeroDebiasLossIsL2` state what it returns. |
| LogisticRegression.FairTrainingLoss | universalgp/inf/logistic_regression.py:61-84 | Training fails exactly when some (y, s) is not an index of the tensor, as `gather_nd` does on a CPU. Otherwise `regr_loss` times the batch size is minus the sum of the per-example values, and `loss` adds the same L2 term. |
| LogisticRegression.LogDebiasingParameters | universalgp/inf/logistic_regression.py:86-93 | `_log_debiasing_parameters`: the target-rate tensor for `FairLogReg`, the target-TPR tensor for `EqOddsLogReg`. It has no contract of its own; `EqOddsSwapsSource` states the consequence. |
| LogisticRegression.Inference | universalgp/inf/logistic_regression.py:34-93 | `inference` dispatched on the model class and `is_train`. It has no contract of its own; `EvaluationUsesBaseline`, `EqOddsSwapsSource` and `BatchOrderIrrelevant` state what it returns. |
| LogisticRegression.EqOddsSwapsSource | universalgp/inf/logistic_regression.py:86-93 | `EqOddsLogReg` is `FairLogReg` given the target-TPR tensor in place of the target-rate one. |
| LogisticRegression.ZeroDebiasIgnoresLabels | universalgp/inf/logistic_regression.py:70-82 | With an all-zero tensor, two batches with the same logits get the same fair loss, whatever their labels and groups. |
| LogisticRegression.ZeroDebiasLossIsL2 | universalgp/inf/logistic_regression.py:70-84 | Under the identity logsumexp(log σ(-x), log σ(x)) = 0, the fair loss with an all-zero tensor is `regr_loss` = 0 and `loss` = `l2_loss`. |
| LogisticRegression.BatchOrderIrrelevant | universalgp/inf/logistic_regression.py:41 | Reordering the batch leaves every model's result unchanged, in training and in evaluation, errors included. |
| LogisticRegression.SumMapPermutation | universalgp/inf/logistic_regression.py:82 | The mean reduction does not depend on the order of the examples. |
| SensitiveFromNumpy.StrideCountBounds | universalgp/datasets/sensitive_from_numpy.py:67-69 | Position k exists in `a[::d]` exactly when k·d is an index of `a`. |
| SensitiveFromNumpy.StrideSlice | universalgp/datasets/sensitive_from_numpy.py:67-69 | `a[::step]` has ⌈len(a)/abs(step)⌉ elements. Element k is `a[k·step]` for a positive step, and `a[len(a)-1+k·step]` for a negative one. |
| SensitiveFromNumpy.StrideSelectsMultiples | universalgp/datasets/sensitive_from_numpy.py:67-69 | With a positive stride, a row is selected exactly when its index is a multiple of the stride. |
| SensitiveFromNumpy.InducingCount | universalgp/datasets/sensitive_from_numpy.py:65-69 | For 0 < m ≤ n the stride n // m is at least 1, and it selects at least m rows. |
| SensitiveFromNumpy.ConcatColumns | universalgp/datasets/sensitive_from_numpy.py:67-68 | Concatenating along the last axis fails when the row counts differ. Otherwise it joins row i of each array, and the widths add. |
| SensitiveFromNumpy.InducingInputs | universalgp/datasets/sensitive_from_numpy.py:52-69 | Whenever inducing inputs are returned, their width is the input width, plus the sensitive width under `s_as_input`. |
| SensitiveFromNumpy.InducingInputsZeroDivision | universalgp/datasets/sensitive_from_numpy.py:64-69 | The result is a division by zero exactly when `min(num_train, max_num_inducing)` is 0. |
| SensitiveFromNumpy.InducingInputsSelection | universalgp/datasets/sensitive_from_numpy.py:64-69 | Row k of the inducing inputs is training row k·stride, followed by the sensitive row of that index under `s_as_input`. There are ⌈n/stride⌉ ≥ `num_inducing` rows. The width is the input width, plus the sensitive width under `s_as_input`. A mismatched sensitive row count is the only remaining failure. |
| SensitiveFromNumpy.InducingInputsNegative | universalgp/datasets/sensitive_from_numpy.py:64-69 | A negative `max_num_inducing` is used as it is. Without training rows the stride is 0, an invalid slice step (ValueError). Otherwise the stride `num_train // max` is negative, and row k of the inducing inputs is training row `num_train - 1 + k·stride`, counting back from the last row; there are ⌈num_train / abs(stride)⌉ of them. |
| SensitiveFromNumpy.EntriesMembers | universalgp/datasets/sensitive_from_numpy.py:81 | The flattened array holds exactly the entries of the array, which is what `min()` and `max()` scan. |
| SensitiveFromNumpy.SeqMin | universalgp/datasets/sensitive_from_numpy.py:81 | `min()` is an entry that bounds all others from below. |
| SensitiveFromNumpy.SeqMax | universalgp/datasets/sensitive_from_numpy.py:81-82 | `max()` is an entry that bounds all others from above. |
| SensitiveFromNumpy.ColumnMax | universalgp/datasets/sensitive_from_numpy.py:82 | `np.amax(base, axis=0)` gives, for each column, an entry of that column that bounds the column from above. |
| SensitiveFromNumpy.ClampedStd | universalgp/datasets/sensitive_from_numpy.py:75-76 | After `std[std < 1e-7] = 1.`, every standard deviation is at least 1e-7. |
| SensitiveFromNumpy.GetNormalizer | universalgp/datasets/sensitive_from_numpy.py:72-90 | A returned normaliser never divides by zero. `NormalizerBranch` and `NormalizedEntries` state which normaliser it is and what it computes. |
| SensitiveFromNumpy.Apply | universalgp/datasets/sensitive_from_numpy.py:78-89 | Normalising keeps the shape of the array. `NormalizedEntries` states the entry values. |
| SensitiveFromNumpy.NormalizerBranch | universalgp/datasets/sensitive_from_numpy.py:74-90 | The standardiser is chosen when asked. Otherwise the max-normaliser is chosen exactly when all entries are ≥ 0, some entry is 0 and some entry exceeds 10 (global min 0, global max > 10); failing that, nothing is done. An array without entries fails. |
| SensitiveFromNumpy.NormalizedEntries | universalgp/datasets/sensitive_from_numpy.py:72-90 | For any array of the training width (the training or the test inputs), entry (i, j) becomes `(x - mean_j) / std_j` when standardising, with the mean and clamped std of training column j. When max-normalising, the normaliser holds the training column maxima and entry (i, j) becomes `x / max_j` where `max_j` > 1e-7 and stays `x` elsewhere. The identity leaves every entry as it is. |
| SensitiveFromNumpy.MaxNormalizedUnitRange | universalgp/datasets/sensitive_from_numpy.py:81-86 | The max-normaliser holds the training column maxima. It maps each training entry of a column whose maximum exceeds 1e-7 into [0, 1], and leaves entries of other columns unchanged. |
| SensitiveFromNumpy.SumCentredOnMean | universalgp/datasets/sensitive_from_numpy.py:75-80 | Any column shifted by its own mean and divided by a non-zero scale sums to 0, whatever the scale. |
| SensitiveFromNumpy.StandardizedColumnsCentred | universalgp/datasets/sensitive_from_numpy.py:75-80 | The standardiser built from the training inputs turns every training column into one that sums to 0. |
| SensitiveFromNumpy.SensitiveFromNumpy | universalgp/datasets/sensitive_from_numpy.py:15-49 | `sensitive_from_numpy` after loading: normalise both splits, pick the inducing inputs, fill the dataset. It has no contract of its own; `DatasetFields` and `DatasetInputDim` state what it returns. |
| SensitiveFromNumpy.DatasetFields | universalgp/datasets/sensitive_from_numpy.py:25-44 | The normaliser comes from `xtrain` alone and is applied to both splits. Outputs and sensitive attributes pass through unchanged. `num_train` is the number of `xtrain` rows, `output_dim` the width of `ytrain`, and `input_dim` the width of the inducing inputs. |
| SensitiveFromNumpy.DatasetInputDim | universalgp/datasets/sensitive_from_numpy.py:30-35 | For every `num_inducing`, including a negative one, a built dataset has `input_dim` equal to the input width, plus the sensitive width exactly when `s_as_input` is set. |
| Base.FloorDiv | universalgp/datasets/sensitive_from_numpy.py:67 | Python's `//` rounds toward negative infinity for either sign of the divisor. |
| Base.Slice | datasets/maize.py:18-21 | `a[lo:hi]` clamps both bounds to the length and reads `a[lo + k]` at position k. |
| Base.SliceFrom | datasets/maize.py:18-19 | `a[lo:]` clamps to the length and reads `a[lo + k]` at position k. |
| TrainHelper.Lookup | universalgp/util/train_helper.py:23-28 | `flags[key]` succeeds exactly when the key is present, and returns a value stored under it. A missing key raises KeyError(key). |
| TrainHelper.Show | universalgp/util/train_helper.py:43 | The text an f-string gives a flag value: strings as they are, `True`/`False`, decimal integers, `None`, and the stored text of a float. It has no contract of its own; it is the `v` of each `--k=v` line. |
| TrainHelper.NameFlag | universalgp/util/train_helper.py:23-28 | The name given to `getattr` is the flag's string value. A non-string value is a TypeError. |
| TrainHelper.GetAttr | universalgp/util/train_helper.py:23-28 | `getattr(module, name)` succeeds exactly when the module defines the name. |
| TrainHelper.ConstructFromFlags | universalgp/util/train_helper.py:10-28 | `construct_from_flags`, with each `getattr` and `flags[...]` able to fail. It has no contract of its own; `ConstructResolves`, `MissingCovFails`, `ConstructedModel` and `HyperParamLayout` state what it returns. |
| TrainHelper.ConstructResolves | universalgp/util/train_helper.py:23-28 | Construction succeeds exactly when every name resolves: `cov` (read only when `output_dim` > 0), the likelihood, `inf`, `optimizer`, and the `lr` key. |
| TrainHelper.MissingCovFails | universalgp/util/train_helper.py:23 | A missing `cov` flag raises KeyError('cov') whenever `output_dim` > 0. |
| TrainHelper.ConstructedModel | universalgp/util/train_helper.py:23-28 | There are `max(output_dim, 0)` kernels, each built from `(input_dim, flags)`. The inference object receives the kernels, the likelihood, `num_train`, the inducing inputs and the flags. The optimizer gets `flags['lr']`. The hyper-parameters are the likelihood's followed by the kernels'. |
| TrainHelper.HyperParamLayout | universalgp/util/train_helper.py:25 | The likelihood's parameters come first. Parameter j of kernel k then sits at len(likelihood params) + k·len(kernel params) + j. |
| TrainHelper.ConcatRepeatedLength | universalgp/util/train_helper.py:25 | `sum` of n lists of length m has length n·m. |
| TrainHelper.ConcatRepeatedAt | universalgp/util/train_helper.py:25 | In `sum` of n copies of a list p, entry k·len(p) + j is p[j]. |
| TrainHelper.Kept | universalgp/util/train_helper.py:43 | An entry is kept exactly when it is a flag and its key is neither `h` nor starts with `help`. |
| TrainHelper.KeptAppend | universalgp/util/train_helper.py:43 | Filtering distributes over concatenation, so kept entries stay in dictionary order. |
| TrainHelper.SplitAppend | universalgp/util/train_helper.py:44 | Splitting a line, a separator and more text yields that line first. |
| TrainHelper.SplitJoin | universalgp/util/train_helper.py:44 | Splitting `sep.join(lines)` at `sep` gives the lines back, provided there is at least one line and no line holds the separator. |
| TrainHelper.FlagText | universalgp/util/train_helper.py:42-44 | The text written to the flag file. It has no contract of its own; `FlagTextLines` states its lines. |
| TrainHelper.FlagTextLines | universalgp/util/train_helper.py:42-44 | The flag file has one `--k=v` line per kept key, in order, with no trailing newline. Reading it back line by line gives exactly those lines. |
| TrainHelper.PostTraining | universalgp/util/train_helper.py:30-49 | `post_training` as the sequence of its writes, saves and plots, and the exception that stopped it. It has no contract of its own; `FlagFileWrittenFirst` and `PostTrainingBranches` state what it does. |
| TrainHelper.SaveAndPlot | universalgp/util/train_helper.py:45-49 | The saving and plotting part of `post_training`. It has no contract of its own; `PostTrainingBranches` states what it does. |
| TrainHelper.FlagFileWrittenFirst | universalgp/util/train_helper.py:41-44 | The first effect is writing `flag_<model_name>.txt`. It goes to `out_dir` when `save_dir` is truthy and to the current directory otherwise. |
| TrainHelper.PostTrainingBranches | universalgp/util/train_helper.py:45-49 | After the flag file, predictions are saved exactly when `preds_path` is truthy: under the same directory for a relative `preds_path`, at the path itself for an absolute one (pathlib's `/` drops the directory). Then a plot is made exactly when `plot` is truthy. No error occurs. |
| Maize.LeaveOneOut | datasets/maize.py:18-21 | The training and test parts together have as many rows as the input, and the test part has at most one. `LeaveOneOutRows` states which rows they are. |
| Maize.LeaveOneOutRows | datasets/maize.py:17-21 | With more than 5 rows, the training part has one row fewer, the test part is row 5, and training row k is original row k (k < 5) or k + 1. Otherwise the training part is everything and the test part is empty. |
| Maize.LeaveOneOutOmitsOnlyHeldOut | datasets/maize.py:18-19 | Every original row except row 5 appears in the training part. |
| Maize.LeaveOneOutRecovers | datasets/maize.py:18-20 | `xtrain[:5] ++ xtest ++ xtrain[5:]` is the original, for any number of rows. |
| Maize.MaizeYield | datasets/maize.py:13-15 | `maize_yield` fails with IndexError exactly when the file has at most one row or at most one column, which `np.loadtxt` squeezes to a one-dimensional array that `data[:, 1:]` cannot index. |
| Maize.MaizeSplit | datasets/maize.py:15-21 | Whenever the dataset is built: inputs are the columns after the first, and outputs the z-scored first column. Both are split at the same row, so `xtrain[k]` and `ytrain[k]` come from the same original row. With n ≥ 6 rows, the training part has n−1 rows and the test point is row 5. With 2 ≤ n ≤ 5 the test part is empty. |
| Maize.MaizeFields | datasets/maize.py:23-29 | The inducing inputs are `xtrain`, `num_train` is `len(ytrain)`, and the dimensions are the constants 8 and 1. |

## Left out

- The file reads and writes are left out:
  - `np.load`, `np.loadtxt`, `open`/`write`, `np.savez_compressed` and the plot functions perform I/O;
  - their inputs are parameters;
  - `post_training` records its writes as effects;
  - `savez_compressed` appends `.npz`, which is not modelled.
- TensorFlow machinery is left out:
  - the `Dense` layer and its L2 regularisers, whose loss is the input `l2`, with the logit of each example given;
  - `construct_input`, `tf.data` and `to_tf_dataset`;
  - the `map_fn` wrapper of `vec_to_tri` (only its per-row semantics are modelled).
- Float arithmetic is exact over `real`:
  - float32 rounding and the float32 cast in `maize_yield` are not modelled;
  - `int(np.floor(0.5 * np.sqrt(8M + 1) - 0.5))` is modelled as the exact integer triangular root.
- Transcendental functions are uninterpreted:
  - `log_sigmoid`, `sigmoid`, `reduce_logsumexp`, the standard deviation's `sqrt` and `zscore` are inputs;
  - `logsumexp` and `log_cholesky_det` in util.py are not part of this model;
  - `get_flags` and the module-level `DEFINE_*` flag registrations are not part of this model either.
- Code outside these files is taken as input:
  - `debiasing_params_target_rate`, `debiasing_params_target_tpr`, `sensitive_prediction` and `construct_input` live in `inf_vi_ybar`, which is not part of this model;
  - the debiasing tensors are inputs, and `LogReg.prediction` is not modelled;
  - the `cov`, `lik`, `inf`, `tf.train` and `plot` modules are registries mapping names to constructors, not their contents.
- LogisticRegression.BaseInference: models one output dimension, with a logit and an integer label per example. It leaves out TensorFlow's `squeeze` of a batch of one into a scalar and the `int32` truncation of non-integer labels.
- SensitiveFromNumpy.Apply: numpy would broadcast a width of 1. The model reports a ValueError for every width mismatch instead.
- SensitiveFromNumpy.GetNormalizer: for a standardiser built from zero rows, numpy returns NaN statistics with a warning. The model reports that as the error `NaNStatistics`.
- SensitiveFromNumpy.InducingInputsSelection: covers a positive `max_num_inducing`. A negative one is stated by `InducingInputsNegative`.
- SensitiveFromNumpy.InducingInputsNegative: states the selected rows without `s_as_input` only. With it, the same stride is applied to the sensitive rows, as `InducingInputs` computes, but no lemma states the result.
- LogisticRegression.FairTrainingLoss: follows the CPU kernel of `tf.gather_nd`, which raises on an out-of-range (y, s) index. On a GPU (the default `device_name` is `gpu0`, util.py:94) the kernel gathers zeros for such an index instead and training goes on; the model does not capture that.
- TrainHelper.PostTrainingBranches: a path is absolute when it starts with `/` (POSIX); Windows drive letters are not modelled.
- SensitiveFromNumpy.DatasetFields: does not model the `Dataset` fields that are constants or wrappers: `lik`, `metric`, and the `tf.data` datasets.
- TrainHelper.Show: float flag values carry their printed text, because Python's float formatting is not modelled.
- TrainHelper.ConstructedModel: in Python each kernel is a distinct object. The model has values, so object identity is not represented.
- Util.VecToTri: the static-shape read `vectors.shape[1].value` is taken to be known. An unknown dimension is not modelled.
- Util.InitList: Python's `callable(init)` is modelled by the two cases of `Init`. Non-integer dimensions, which raise TypeError, are not modelled.
- Util.InitListLeaves: with a non-callable `init`, util.py:19 stores the same object in every leaf. For a mutable `init` (a list, say), changing that object in place through one leaf changes every leaf. The model holds values and has no object identity, so it does not capture this aliasing.
- Util.SetAtIsolated: assigning a leaf (`l[i][j] = x`) is isolated because util.py:11 builds a fresh sublist for each entry. The lemma holds by value semantics, so it would hold even if the sublists were shared; it does not show that they are not.
- Util.DiagMulIsDiagonal: takes the shapes that make `mat1 * transpose(mat2)` well defined. Broadcasting of other shapes is not modelled.

## Findings

| source | as written | input that shows it | evidently intended | confidence | as-written member | corrected member |
|---|---|---|---|---|---|---|
| universalgp/util/util.py:65-67 | `vec_to_tri` calls `np.floor`, `np.sqrt`, `np.stack` and `np.tril_indices`, but util.py imports only `copy` and `tensorflow`, so line 65 raises NameError | any input, for example the 1×1 array [[x]] | numpy imported: the row is unpacked into the lower triangle, [[x]] ↦ [[[x]]] | high; not executed | Util.VecToTriAsWrittenRejectsValidInput | Util.VecToTri |
