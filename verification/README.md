# Ivy core, modelled in Dafny

Ivy is a Python framework that puts one array API over several deep-learning
engines. Much of its code is glue: it validates arguments, rearranges
shapes, paddings and layouts, and then calls an engine's native kernel. This
project models that glue for a handful of backends and frontends. It proves
what the glue promises. The native kernels stay abstract: each one is a
function-typed parameter.

The modelled parts, one Dafny module each:

- `PaddleManipulation` (`paddle_manipulation.dfy`), `TfManipulation`
  (`tf_manipulation.dfy`) and their shared reference module
  `ManipulationSpec` (`manipulation_spec.dfy`). These cover the paddle and
  tensorflow backends' experimental manipulation functions:
  - pad-width canonicalisation and the native-pad eligibility checks;
  - `take_along_axis` index handling;
  - `unique_consecutive` runs;
  - `fill_diagonal` positions;
  - `atleast_*d`, the `top_k` clamp, `broadcast_shapes` and `expand`.
- `PaddleLayers` (`paddle_layers.dfy`): the paddle backend's
  `max_pool1d/2d/3d` layout, depth-pooling and dilation glue, the
  unsupported stubs, the `fft` argument checks and dtype promotion, and
  `stft` framing.
- `Losses` (`losses.dfy`): the engine-independent losses `l1_loss`,
  `huber_loss`, `smooth_l1_loss`, `soft_margin_loss`, `kl_div` and
  `log_poisson_loss`, with their reduction dispatch.
- `TorchPooling` (`torch_pooling.dfy`): the torch frontend's pooling
  wrappers. This covers argument broadcasting, the avg_pool SAME/VALID
  choice, stride defaults and the lp_pool scaling rule.
- `PaddleFft` (`paddle_fft.dfy`): the paddle frontend's `fftshift`,
  `ifftshift`, `hfft`/`irfft` default length, `irfft` term assembly,
  `rfftfreq`, and the frontend `fft` default axis.
- `Criterion` (`criterion.dfy`): the sklearn-frontend tree criteria. It
  models `ClassificationCriterion` and `RegressionCriterion` as classes
  whose 2-D and 1-D sum buffers are Dafny arrays, the `_move_sums_*`
  helpers, `Gini.node_impurity`, `impurity_improvement` and
  `MAE.init_missing`.
- `PaddleTensor` (`paddle_tensor.dfy`): the paddle frontend `Tensor` as a
  class with a mutable wrapped array. This covers `reshape`, `clip`,
  `clip_`, `squeeze_`, `__setitem__`, `__iter__`, the `*_` in-place
  methods, and `dim`/`ndim`/`dtype`.
- `ControlFlow` (`control_flow.dfy`): the torch backend's `if_else` and
  `while_loop`.
- `Common` (`common.dfy`): the error kinds, dtypes, Python-style indexing,
  sums and products, and integer wrap-around. Every other module uses it.

### How the model represents the source

- Errors are values. A `Result` carries the Python exception kind that the
  source raises (`TypeError`, `ValueError`, `IndexError`, `IvyException`,
  ...).
- Arrays are represented by what the glue looks at. That is the shape, the
  flattened elements, or a single line along the axis being worked on.
- Engine primitives are parameters: `argsort`, `unique`, `roll`, the
  native pools, exp/log, the tensor kernels, and `test_fn`/`body_fn`.
- Code that updates state in place is imperative Dafny with loop
  invariants. This covers the criterion buffers, the `Tensor` wrapper, the
  `fill_diagonal` and `while_loop` loops, the `stft` length search and
  framing loops, and `expand`'s unknown-dimension loop.
- Where one behaviour is shared by the two backends, a single reference
  definition is kept. Each backend is proved against it, and lemmas state
  where the backends agree and where they do not.

### Where the documentation and the code disagree

The model follows the code in every case below.

- Error kinds for stubs and unsupported pools:
  - The paddle `max_pool*` functions raise `NotImplementedError` for
    dilation > 1.
  - The `avg_pool*`, `dct`, `ifft`, `embedding` and `interpolate` stubs
    raise `IvyNotImplementedException`.
  - These are two different kinds, not one. `UnsupportedIsNotDilationError`
    states this.
- Several docstring examples in `losses.py` do not match the formulas:
  - For `l1_loss([1,2,3],[0.5,2.5,2])` with "mean", the code gives 2/3.
  - The `huber_loss` example's last element does not match the code.
  - `soft_margin_loss` with "none" documents an array, but the code
    returns the scalar mean.
  - The model states what the code computes. `L1Examples`,
    `SmoothL1Example` and `SoftMarginLoss` show this.

## Model

| member | source | states |
|---|---|---|
| PaddleManipulation.ToPaddlePadding | ivy/functional/backends/paddle/experimental/manipulation.py:179-186 | A scalar p becomes 2·ndim copies of p. Per-axis pairs become a flat list, last axis first, each axis as (before, after). A list holding any bare number (a flat pair on ndim ≥ 1 included) is a TypeError, exactly when the flatten would subscript an int. |
| PaddleManipulation.ReversedItemsLastAxisFirst | ivy/functional/backends/paddle/experimental/manipulation.py:185 | The reverse of the flattened per-pair reversals equals the last-axis-first (before, after) listing. |
| PaddleManipulation.PaddlePaddingOfPairs | ivy/functional/backends/paddle/experimental/manipulation.py:185 | Well-formed pairs are accepted. The result has length 2·(number of pairs), and the pairs are listed last axis first. |
| PaddleManipulation.ToPaddlePaddingIntended | ivy/functional/backends/paddle/experimental/manipulation.py:183-185 | Corrected canonicalisation: a flat pair [a, b] gives (a, b) for every axis (length 2·ndim). Every other input behaves as the source does. |
| PaddleManipulation.FlatPairRejected | ivy/functional/backends/paddle/experimental/manipulation.py:183-185 | As written, `[a, b]` on a rank ≥ 1 input is always a TypeError, while the corrected version accepts it. |
| PaddleManipulation.CheckPaddlePad | ivy/functional/backends/paddle/experimental/manipulation.py:156-176 | The native pad is eligible iff the constant is numeric and one of these holds: mode "constant"; "edge"/"wrap" within the rank limit; "reflect" with even reflect type, rank within the limit, and every pad strictly smaller than its axis. Only the reflect path can raise an error. |
| PaddleManipulation.PadHandler | ivy/functional/backends/paddle/experimental/manipulation.py:151-153 | The partial handler caps the rank at 3. Non-constant modes on rank > 3 are never native; edge/wrap on rank ≤ 3 with a number always are. |
| PaddleManipulation.PaddleReflectEligibleOnTf | ivy/functional/backends/paddle/experimental/manipulation.py:156-176 | Whatever paddle accepts for even reflection, tensorflow's check accepts as well. |
| PaddleManipulation.PaddleMode | ivy/functional/backends/paddle/experimental/manipulation.py:136 | "edge" is renamed "replicate" and "wrap" is renamed "circular". Every other mode passes through. |
| PaddleManipulation.PaddleModeInjective | ivy/functional/backends/paddle/experimental/manipulation.py:136 | Different modes among constant/reflect/edge/wrap are never mapped to the same paddle mode. |
| PaddleManipulation.PaddlePad | ivy/functional/backends/paddle/experimental/manipulation.py:110-148 | It succeeds iff `_to_paddle_padding` accepts the pad widths; otherwise it is that TypeError. On success the native call gets those pads, the renamed mode, and an NC… data format of rank ndim + 2. A scalar pad always succeeds with 2·ndim pads. |
| PaddleManipulation.PaddlePadIntended | ivy/functional/backends/paddle/experimental/manipulation.py:110-148 | With the corrected canonicalisation, a flat pair [a, b] succeeds with (a, b) for every axis and the renamed mode. Every other input gives what `pad` gives. |
| PaddleManipulation.PadFlatPairRankOne | ivy/functional/backends/paddle/experimental/manipulation.py:183-185 | As written, `pad` with [1, 2] on a rank-1 input is a TypeError. The corrected version passes the pads [1, 2]. |
| PaddleManipulation.TakeAlongAxis | ivy/functional/backends/paddle/experimental/manipulation.py:512-578 | A rank mismatch is an IvyException, checked first. An unknown mode is then a ValueError. Clip mode reads the axis length (IndexError for an axis out of range) and clamps every index into [0, n−1]. Fill/drop mode picks the dtype sentinel first (TypeError for bool) and only then reads the axis length (IndexError). It gathers the element for an index in [0, n) and the sentinel otherwise. Indices pass an int64 wrap. |
| PaddleManipulation.SentinelGather | ivy/functional/backends/paddle/experimental/manipulation.py:551-559 | Each gathered entry is the line's element when its index is in [0, n), and the appended sentinel otherwise: the -1 mark is moved to position n, where the sentinel sits. |
| PaddleManipulation.TakeAlongAxisBackendsAgree | ivy/functional/backends/paddle/experimental/manipulation.py:526-559 | When every index fits in int32, paddle and tensorflow give the same result. |
| PaddleManipulation.UniqueConsecutive | ivy/functional/backends/paddle/experimental/manipulation.py:645-702 | Runs are split where adjacent slices differ by more than 1e-50. The counts are positive, sum to the length and number the runs. The inverse indices are the run numbers. The inverse is reshaped only to a non-empty original shape. |
| PaddleManipulation.IntegralGap | ivy/functional/backends/paddle/experimental/manipulation.py:665 | Distinct integral values are further apart than the tolerance. |
| PaddleManipulation.UniqueBackendsAgreeOnIntegers | ivy/functional/backends/paddle/experimental/manipulation.py:645-702 | On integral data, paddle's tolerance split and tensorflow's exact split give the same counts and inverse. |
| PaddleManipulation.ZeroDimInverseShapes | ivy/functional/backends/paddle/experimental/manipulation.py:696-697 | For a 0-d input, paddle leaves the inverse flat ([1]) because its empty shape list is falsy, while tensorflow reshapes to the empty shape. |
| PaddleManipulation.FillDiagonal | ivy/functional/backends/paddle/experimental/manipulation.py:708-736 | The strided write loop produces exactly the reference `FilledDiagonal`: v at positions i·step below the end, and everything else unchanged. |
| PaddleManipulation.Promote1 | ivy/functional/backends/paddle/experimental/manipulation.py:431-444 | The result has rank ≥ 1 with the same data and size. A rank ≥ 1 array is unchanged. |
| PaddleManipulation.Promote2 | ivy/functional/backends/paddle/experimental/manipulation.py:463-476 | The result has rank ≥ 2 with the same data and size. Lower ranks get leading 1s. |
| PaddleManipulation.Promote3 | ivy/functional/backends/paddle/experimental/manipulation.py:483-501 | The result has rank ≥ 3. A 1-D array of length n becomes [1, n, 1], and a 2-D one gets a trailing 1. |
| PaddleManipulation.PromotionsCompose | ivy/functional/backends/paddle/experimental/manipulation.py:431-501 | Promoting to 2-D after 1-D, or to 3-D after 2-D, equals promoting directly. |
| PaddleManipulation.AtLeast1d | ivy/functional/backends/paddle/experimental/manipulation.py:431-444 | One array gives a single result; several arrays give a list, each promoted. |
| PaddleManipulation.AtLeast2d | ivy/functional/backends/paddle/experimental/manipulation.py:463-476 | The same as AtLeast1d, with Promote2. |
| PaddleManipulation.AtLeast3d | ivy/functional/backends/paddle/experimental/manipulation.py:483-501 | The same as AtLeast1d, with Promote3. |
| PaddleManipulation.TopK | ivy/functional/backends/paddle/experimental/manipulation.py:290-310 | A 1-D input accepts only axis −1 or 0, and any other axis is the IndexError. It returns max(0, min(k, n)) indices, each within range, with the matching values. When unsorted, the indices come in ascending order. |
| PaddleManipulation.TopKSmallest | ivy/functional/backends/paddle/experimental/manipulation.py:290-310 | With largest off, no position left out is smaller than a kept one. When sorted, the kept values ascend. |
| TfManipulation.ToTfPadding | ivy/functional/backends/tensorflow/experimental/manipulation.py:328-333 | A scalar becomes ndim pairs (p, p). A flat two-number list becomes 2·ndim entries repeating it. Any other list is unchanged. |
| TfManipulation.AllPadsWithinStep | ivy/functional/backends/tensorflow/experimental/manipulation.py:309-322 | The pads from axis `from` onwards fit iff the pair at `from` fits and the rest do. |
| TfManipulation.CheckPads | ivy/functional/backends/tensorflow/experimental/manipulation.py:309-322 | It returns Ok(true) exactly when every pair is within its axis (strictly smaller for reflect, at most the size for symmetric). |
| TfManipulation.CheckTfPad | ivy/functional/backends/tensorflow/experimental/manipulation.py:302-325 | The native pad is eligible iff the constant is numeric and one of these holds: mode is "constant"; or reflect/symmetric with even reflect type and every pad within its axis. Any other mode is refused. |
| TfManipulation.ReflectEligibleImpliesSymmetric | ivy/functional/backends/tensorflow/experimental/manipulation.py:302-325 | Pads that qualify for reflect also qualify for symmetric. |
| TfManipulation.TakeAlongAxis | ivy/functional/backends/tensorflow/experimental/manipulation.py:196-238 | It raises the same errors in the same order as paddle: a rank mismatch (IvyException), then an unknown mode (ValueError). Clip mode reads the axis length (IndexError) and clamps into [0, n−1]. Fill/drop mode picks the sentinel first (TypeError for bool), then reads the axis length (IndexError), and reads the sentinel for indices outside the axis. Indices wrap as int32. |
| TfManipulation.SentinelGather | ivy/functional/backends/tensorflow/experimental/manipulation.py:233-238 | Each gathered entry is the line's element when its index is in [0, n), and the appended sentinel otherwise, which the index -1 reaches from the end. |
| TfManipulation.UniqueConsecutive | ivy/functional/backends/tensorflow/experimental/manipulation.py:376-426 | Runs are split on exact inequality of slices. It has the same counts and inverse facts as paddle. With axis None, the inverse takes the input shape, even when that shape is empty. |
| TfManipulation.MultiplesExtend | ivy/functional/backends/tensorflow/experimental/manipulation.py:446-447 | Adding the next multiple keeps the collected indices equal to the multiples of step below the new bound. |
| TfManipulation.MultiplesCut | ivy/functional/backends/tensorflow/experimental/manipulation.py:446-447 | After the loop stops at the end, the collected indices are exactly the multiples of step below it. |
| TfManipulation.FillDiagonal | ivy/functional/backends/tensorflow/experimental/manipulation.py:429-451 | The index-collecting loop and the scatter produce exactly the reference `FilledDiagonal`. |
| TfManipulation.ScatterUpdate | ivy/functional/backends/tensorflow/experimental/manipulation.py:448-449 | Positions listed in the indices hold v, and every other position keeps its value. |
| TfManipulation.TopK | ivy/functional/backends/tensorflow/experimental/manipulation.py:87-115 | A 1-D input accepts only axis −1 or 0. It returns max(0, min(k, n)) in-range indices with the matching values, and when unsorted the indices come in ascending order. |
| TfManipulation.TopKLargest | ivy/functional/backends/tensorflow/experimental/manipulation.py:87-115 | With largest on, no position left out is larger than a kept one. When sorted, the kept values descend. |
| TfManipulation.BroadcastShapes | ivy/functional/backends/tensorflow/experimental/manipulation.py:253-263 | No shapes is an IndexError. One shape comes back as a one-element list. Two or more shapes give exactly what folding the native pairwise broadcast over them gives: its shape on success, its error, unchanged, on failure. |
| TfManipulation.FoldBroadcast | ivy/functional/backends/tensorflow/experimental/manipulation.py:256-260 | A failure of the accumulated shape, or no shapes left, returns it unchanged. A pairwise broadcast that never fails makes the fold succeed. Any failure comes from the accumulated shape or from one pairwise broadcast with a remaining shape. |
| TfManipulation.BroadcastPair | ivy/functional/backends/tensorflow/experimental/manipulation.py:257-260 | A broadcast of two shapes has the rank of the longer one, and its only failure is a broadcast error. |
| TfManipulation.BroadcastShapesSame | ivy/functional/backends/tensorflow/experimental/manipulation.py:253-263 | Broadcasting n ≥ 2 copies of one shape gives that shape. |
| TfManipulation.FoldBroadcastSame | ivy/functional/backends/tensorflow/experimental/manipulation.py:257-260 | Folding copies of one shape into that shape gives the shape back. |
| TfManipulation.FoldBroadcastRank | ivy/functional/backends/tensorflow/experimental/manipulation.py:256-260 | Folding NumPy's rule gives a rank no smaller than the accumulated shape's or any folded shape's, and equal to one of them; any failure is a broadcast error. |
| TfManipulation.BroadcastShapesNumPy | ivy/functional/backends/tensorflow/experimental/manipulation.py:253-263 | Under NumPy's rule the result is an IndexError exactly when no shape is given, any other failure is a broadcast error, and two or more shapes broadcast to the largest of their ranks. |
| TfManipulation.Expand | ivy/functional/backends/tensorflow/experimental/manipulation.py:336-350 | Each non-negative dimension is kept. Each negative one is replaced, in order, by the element count divided by the product of the positive entries of the shape as it stands at that point. |
| TfManipulation.ExpandSingleUnknown | ivy/functional/backends/tensorflow/experimental/manipulation.py:344-349 | With a single unknown dimension, that entry is the element count over the product of the known positive entries, and every other entry is kept. |
| ManipulationSpec.FillValue | ivy/functional/backends/tensorflow/experimental/manipulation.py:221-237 | The fill/drop sentinel is NaN for float/complex, the maximum for unsigned, −max−1 for signed. A bool dtype is a TypeError. |
| ManipulationSpec.FillValueIsExtreme | ivy/functional/backends/paddle/experimental/manipulation.py:538-559 | For signed dtypes the sentinel is the dtype minimum; for unsigned ones it is the maximum. |
| ManipulationSpec.ClipIndex | ivy/functional/backends/paddle/experimental/manipulation.py:534-537 | The clamped index lies in [0, n−1], and an in-range index is unchanged. |
| ManipulationSpec.SelectTopK | ivy/functional/backends/paddle/experimental/manipulation.py:300-310 | It keeps the first max(0, min(k, n)) positions of the ranking, in ranking order when sorted. When unsorted, it keeps the same positions as a permutation re-sorted into ascending order. The values are gathered from the kept positions. |
| ManipulationSpec.SelectTopKRanks | ivy/functional/backends/tensorflow/experimental/manipulation.py:97-115 | Kept positions rank at least as high as every position left out. When sorted, they are in rank order. |
| ManipulationSpec.SplitIndicesExact | ivy/functional/backends/tensorflow/experimental/manipulation.py:398-406 | p is a split point iff slices p−1 and p differ. |
| ManipulationSpec.RunCountsPositive | ivy/functional/backends/paddle/experimental/manipulation.py:655-701 | Every run of a non-empty input has a positive count. |
| ManipulationSpec.RunCountsSum | ivy/functional/backends/paddle/experimental/manipulation.py:655-701 | The counts add up to the input length. |
| ManipulationSpec.InverseIsRunIds | ivy/functional/backends/paddle/experimental/manipulation.py:655-701 | `repeat_interleave(range(len(counts)), counts)` gives each position its run number. |
| ManipulationSpec.SplitBySizesPartitions | ivy/functional/backends/paddle/experimental/manipulation.py:671-686 | Splitting by the run sizes and concatenating gives back the input. |
| ManipulationSpec.ConsecutiveRuns | ivy/functional/backends/tensorflow/experimental/manipulation.py:376-426 | The shared core: counts sum to the length, are positive, their number is the last run id + 1, and the inverse is the run ids. |
| ManipulationSpec.DiagonalOfMatrix | ivy/functional/backends/paddle/experimental/manipulation.py:715-735 | On a rows×cols matrix without wrap, position r·cols + c is written iff r == c. |
| PaddleLayers.PermuteInverse | ivy/functional/backends/paddle/experimental/layers.py:89-92 | Applying a permutation and then its inverse gives back the input. |
| PaddleLayers.LayoutRoundTrip | ivy/functional/backends/paddle/experimental/layers.py:55-92 | Channel-last to channel-first and back is the identity in both orders, and the depth swap is its own inverse. |
| PaddleLayers.ReorderIfFull | ivy/functional/backends/paddle/experimental/layers.py:55-65 | A kernel, stride or padding list of length dims + 2 is reordered like the input. Any other list is unchanged. |
| PaddleLayers.PoolArgs | ivy/functional/backends/paddle/experimental/layers.py:55-84 | The input is what EnterLayout makes of it: permuted to channel-first when channel-last, then axes 1 and 2 swapped under depth pooling. Without depth pooling, channel-last input has the channel axis moved to position 1 and channel-first input is unchanged. Named padding is kept, and pad pairs are flattened (reordered first when there is one per dimension). |
| PaddleLayers.EnterLayout | ivy/functional/backends/paddle/experimental/layers.py:55-70 | Channel-last without depth pooling moves the channel axis to position 1. Channel-first with depth pooling swaps axes 1 and 2, and channel-first without it is unchanged. |
| PaddleLayers.ExitLayout | ivy/functional/backends/paddle/experimental/layers.py:89-92 | Channel-last without depth pooling moves the channel axis back to the end. Channel-first with depth pooling swaps axes 1 and 2 back, and channel-first without it is unchanged. |
| PaddleLayers.MaxPool | ivy/functional/backends/paddle/experimental/layers.py:38-93 | It fails iff any dilation entry exceeds 1 (NotImplementedError) or the dilation is empty (the ValueError of `max`). A success is the native pool's output taken out of depth pooling and back to the caller's layout, and keeps the input rank. |
| PaddleLayers.MaxPoolLayoutRoundTrip | ivy/functional/backends/paddle/experimental/layers.py:89-92 | With a shape-preserving pool and no depth pooling, the entry and exit permutations cancel and the output shape is the input's. |
| PaddleLayers.ExitUndoesEntry | ivy/functional/backends/paddle/experimental/layers.py:89-92 | The exit transposes (depth swap back, then channel-last) undo the entry transposes for every layout and depth-pooling choice. |
| PaddleLayers.MaxPoolReturnsNativeResult | ivy/functional/backends/paddle/experimental/layers.py:55-93 | For any native pool, a successful result put back through the entry layout is exactly the native output: nothing is lost or reordered on the way out. |
| PaddleLayers.EntryUndoesExit | ivy/functional/backends/paddle/experimental/layers.py:55-92 | The entry transposes undo the exit transposes for every layout and depth-pooling choice. |
| PaddleLayers.CallUnsupported | ivy/functional/backends/paddle/experimental/layers.py:240-252 | Every stub raises IvyNotImplementedException, whatever the input. |
| PaddleLayers.UnsupportedIsNotDilationError | ivy/functional/backends/paddle/experimental/layers.py:74-78 | The dilation error of max_pool and the stubs' error are different kinds. |
| PaddleLayers.FftDType | ivy/functional/backends/paddle/experimental/layers.py:333-336 | int64, float64 and complex128 promote to complex128. Every other dtype promotes to complex64. |
| PaddleLayers.Fft | ivy/functional/backends/paddle/experimental/layers.py:300-338 | The checks run in source order. A non-int dim is an IvyValueError. Without n, an out-of-range dim fails first as the IndexError of reading the default n. Then come the dim range, a non-int n (TypeError), n ≤ 1 and an unknown norm. A success carries the dim, n > 1 (defaulting to the axis length), the norm and the promoted dtype. |
| PaddleLayers.FftRejectsFloatDim | ivy/functional/backends/paddle/experimental/layers.py:309-312 | A float dim is always an IvyValueError. |
| PaddleLayers.DefaultFftLength | ivy/functional/backends/paddle/experimental/layers.py:560-563 | The doubling loop returns the least power of two that is at least frame_length. |
| PaddleLayers.CheckStftArgs | ivy/functional/backends/paddle/experimental/layers.py:523-551 | frame_length and frame_step must be positive ints, and so must fft_length when it is given. Otherwise the result is IvyValueError. |
| PaddleLayers.NumFrames | ivy/functional/backends/paddle/experimental/layers.py:567-576 | Without pad_end, the count is the number of step offsets at which a frame fits: (count − 1)·step ≤ samples − frame_length < count·step. With pad_end it is the ceiling of samples / step. |
| PaddleLayers.EndPadding | ivy/functional/backends/paddle/experimental/layers.py:570-572 | No padding without pad_end. With it, the padded signal reaches the end of the last frame, exactly so whenever the padding is positive. |
| PaddleLayers.PadEndFrames | ivy/functional/backends/paddle/experimental/layers.py:567-576 | With pad_end, the frame count is ceil(samples / step), and the end padding makes the last frame fit. |
| PaddleLayers.FramesFit | ivy/functional/backends/paddle/experimental/layers.py:567-596 | Every frame the loop reads lies inside the padded signal. |
| PaddleLayers.Windowed | ivy/functional/backends/paddle/experimental/layers.py:580-589 | Windowing keeps the frame length. |
| PaddleLayers.StftRow | ivy/functional/backends/paddle/experimental/layers.py:585-596 | One frame's spectrum keeps fft_length // 2 + 1 bins. |
| PaddleLayers.Stft1D | ivy/functional/backends/paddle/experimental/layers.py:559-599 | The framing loop yields max(0, frames) rows, and row i is the spectrum of the frame starting at i·step. When there are frames, an fft_length below frame_length is the native pad's error and an fft_length of 1 is the backend fft's IvyValueError. |
| PaddleLayers.Stft | ivy/functional/backends/paddle/experimental/layers.py:511-613 | Invalid arguments give IvyValueError. Otherwise, with n the given fft_length or the smallest power of two not below frame_length, it succeeds exactly when there is no frame or frame_length ≤ n and n > 1. On success there is one row per frame, and row i is the spectrum of frame i of the end-padded signal (StftRow). |
| Losses.Mean | ivy/functional/ivy/experimental/losses.py:91-96 | The mean of no elements is NaN. Otherwise it is the sum over the count. |
| Losses.Reduce | ivy/functional/ivy/experimental/losses.py:147-154 | "sum" totals, "mean" averages, and any other string returns the elementwise loss. |
| Losses.L1Elements | ivy/functional/ivy/experimental/losses.py:147 | Each element is ≥ 0, and it is 0 exactly when input equals target. |
| Losses.L1Loss | ivy/functional/ivy/experimental/losses.py:104-154 | The result is the reduction of the elementwise loss: the sum, the mean (NaN when empty), or the elementwise loss itself. A reduced value is never negative. |
| Losses.L1SumZeroIff | ivy/functional/ivy/experimental/losses.py:147-154 | The summed L1 loss is 0 iff input equals target. |
| Losses.L1Examples | ivy/functional/ivy/experimental/losses.py:142-145 | The documented 0.5 example holds. The second example is 2/3, as the code computes. |
| Losses.HuberElement | ivy/functional/ivy/experimental/losses.py:209-212 | Each element lies between 0 and delta·\|d\| (for delta ≥ 0) and never exceeds 0.5·d². |
| Losses.HuberBranchesMeet | ivy/functional/ivy/experimental/losses.py:209-212 | At \|d\| = delta the quadratic and the linear branches agree. |
| Losses.HuberLoss | ivy/functional/ivy/experimental/losses.py:162-219 | The result is the reduction of the elementwise Huber terms. The elementwise loss is bounded by 0.5·d², and a reduced loss is non-negative for delta ≥ 0. |
| Losses.HuberElements | ivy/functional/ivy/experimental/losses.py:209-212 | One Huber term per position, of the difference true − pred. |
| Losses.SmoothL1Element | ivy/functional/ivy/experimental/losses.py:332-342 | Each element lies between \|x−y\|−0.5·beta and \|x−y\|, and it is never negative. |
| Losses.SmoothL1Elements | ivy/functional/ivy/experimental/losses.py:338-342 | One smooth-L1 term per position. |
| Losses.SmoothL1Loss | ivy/functional/ivy/experimental/losses.py:344-349 | The result is None iff the reduction is not mean/sum/none; otherwise it is the reduced elementwise loss. |
| Losses.SmoothL1BelowCutoffIsL1 | ivy/functional/ivy/experimental/losses.py:332-334 | For beta < 1e-5, smooth L1 equals L1 under every known reduction. |
| Losses.HuberIsScaledSmoothL1 | ivy/functional/ivy/experimental/losses.py:209-212 | For beta ≥ 1e-5, Huber with delta = beta equals beta times smooth L1. |
| Losses.SmoothL1Example | ivy/functional/ivy/experimental/losses.py:265-268 | smooth_l1_loss([1,2,3],[6,2,3]) with beta 1 and "mean" is 1.5. |
| Losses.SoftMarginValue | ivy/functional/ivy/experimental/losses.py:403-404 | The loss is NaN exactly for an empty input. |
| Losses.SoftMarginLoss | ivy/functional/ivy/experimental/losses.py:403-410 | Every reduction returns the same scalar mean. |
| Losses.KlDiv | ivy/functional/ivy/experimental/losses.py:468-479 | The rows are KlRows. "sum" totals them, "mean" averages them, "batchmean" divides the total by size[0] (NaN when it is 0), and anything else returns the rows. |
| Losses.KlBatchmeanIsScaledMean | ivy/functional/ivy/experimental/losses.py:468-477 | When there are m rows per entry of the first axis, "batchmean" is m times the mean; for a 2-d input (m = 1) it equals "mean". |
| Losses.KlTerms | ivy/functional/ivy/experimental/losses.py:470 | Each term is input·log(input / target), with the engine's log and division. |
| Losses.KlRows | ivy/functional/ivy/experimental/losses.py:470 | Row i is the sum of its terms over the last axis. With exact division and log(1) = 0, a positive row measured against itself gives 0. |
| Losses.KlDivSelfIsZero | ivy/functional/ivy/experimental/losses.py:468-479 | The divergence of a positive distribution from itself is 0 in every row. So the reduced value is 0 under `sum`, under `mean` when there is at least one row, and under `batchmean` when size[0] > 0. |
| Losses.ZeroRowsReduceToZero | ivy/functional/ivy/experimental/losses.py:472-477 | Rows that are all 0 reduce to 0 under "sum", under "mean" when there is at least one row, and under "batchmean" when size[0] > 0. |
| Losses.LogPoissonLoss | ivy/functional/ivy/experimental/losses.py:76-96 | A length mismatch escapes as AssertionError, iff the lengths differ. Otherwise the result is the reduction of the elementwise loss. |
| Losses.LogPoissonElement | ivy/functional/ivy/experimental/losses.py:84-90 | exp(pred) − pred·true. With compute_full_loss and a target outside [0, 1], the Stirling term true·log(true) − true + 0.5·log(2π·true) is added. |
| Losses.LogPoissonElements | ivy/functional/ivy/experimental/losses.py:84-90 | One log Poisson term per position. |
| Losses.LogPoissonFullOnUnitTargets | ivy/functional/ivy/experimental/losses.py:84-90 | When every target lies in [0, 1], the Stirling term is masked out and the full loss equals the plain one. |
| TorchPooling.PoolRank | ivy/functional/frontends/torch/nn/functional/pooling_functions.py:17 | "1d"/"2d"/"3d" give 1/2/3. Any other key is a KeyError. |
| TorchPooling.BroadcastPoolingHelper | ivy/functional/frontends/torch/nn/functional/pooling_functions.py:16-30 | An int or a one-element sequence is repeated d times, and a d-sequence is kept. Any other length is a ValueError. |
| TorchPooling.BroadcastIdempotent | ivy/functional/frontends/torch/nn/functional/pooling_functions.py:16-30 | Broadcasting a broadcast argument changes nothing. |
| TorchPooling.BroadcastIntAsSingleton | ivy/functional/frontends/torch/nn/functional/pooling_functions.py:19-23 | i and [i] broadcast alike. |
| TorchPooling.CeilHalf | ivy/functional/frontends/torch/nn/functional/pooling_functions.py:92 | The result is the least c with 2c ≥ m. |
| TorchPooling.CeilHalfOfPredecessor | ivy/functional/frontends/torch/nn/functional/pooling_functions.py:92 | ceil((k−1)/2) = k // 2 for every integer k. |
| TorchPooling.AvgPool | ivy/functional/frontends/torch/nn/functional/pooling_functions.py:75-105 | The stride defaults to the unbroadcast kernel, and the kernel is broadcast. Broadcast failures are ValueError. The padding is SAME or VALID, and the layout is channel-first. |
| TorchPooling.AvgPoolSameIffHalfKernel | ivy/functional/frontends/torch/nn/functional/pooling_functions.py:91-96 | SAME is chosen iff every broadcast pad equals its kernel // 2. |
| TorchPooling.MaxPool | ivy/functional/frontends/torch/nn/functional/pooling_functions.py:231-301 | The stride defaults to the kernel, the other arguments pass through unchanged, and the layout is the channel-first format of the pool's rank: NCW, NCHW or NCDHW. |
| TorchPooling.KernelMul | ivy/functional/frontends/torch/nn/functional/pooling_functions.py:192-195 | An int is kept, and a non-empty sequence gives its product. An empty sequence is a TypeError (reduce without an initial value). |
| TorchPooling.LpExponent | ivy/functional/frontends/torch/nn/functional/pooling_functions.py:205 | The exponent is 1/norm_type, or 1 when norm_type is 0. |
| TorchPooling.LpPool | ivy/functional/frontends/torch/nn/functional/pooling_functions.py:186-228 | It succeeds iff kernel_mul exists and avg_pool succeeds. lp_pool1d computes kernel_mul before pooling, so a bad kernel is its TypeError first. lp_pool2d pools first, so avg_pool's error comes first. A success has VALID padding, the stride default, the kernel product, the exponent and the NCW/NCHW layout. |
| TorchPooling.LpPoolWindowIsNorm | ivy/functional/frontends/torch/nn/functional/pooling_functions.py:197-206 | On a full VALID window, the average times kernel_mul is the sum, so each output is (Σ xᵖ)^(1/p). |
| PaddleFft.RollAdd | ivy/functional/frontends/paddle/fft.py:44 | Rolling by a and then by b is rolling by a + b. |
| PaddleFft.FftShiftShifts | ivy/functional/frontends/paddle/fft.py:36-42 | The shift is n // 2 for each axis: all axes, one int axis, or a list. An axis out of range is an IndexError. For a list, the shifts are handed to the engine's concat of Python ints, and its error (if any) is the result. |
| PaddleFft.IfftShiftShifts | ivy/functional/frontends/paddle/fft.py:96-102 | The shift is −(n // 2) for all axes or an int axis, and (−n) // 2 for a list of axes. Errors are as for fftshift. |
| PaddleFft.IfftShiftShiftsIntended | ivy/functional/frontends/paddle/fft.py:96-102 | Corrected: on every branch the shifts are the exact negations of fftshift's, and when the engine's concat depends only on the list's length it succeeds exactly where fftshift does. |
| PaddleFft.ShiftsBy | ivy/functional/frontends/paddle/fft.py:36-42 | The three branches: all axes give one pair per axis; an int axis gives one pair, or IndexError when out of range; a list is an IndexError when any axis is out of range, and otherwise succeeds iff the engine's concat of the listed shifts does, with its error otherwise. |
| PaddleFft.Roll | ivy/functional/frontends/paddle/fft.py:44 | The roll keeps the length, and element i lands at position (i + shift) mod n. |
| PaddleFft.RollAllIsOneRoll | ivy/functional/frontends/paddle/fft.py:44 | A sequence of rolls on one axis is one roll by their total. |
| PaddleFft.FftShift1D | ivy/functional/frontends/paddle/fft.py:33-46 | It fails iff the shifts fail, with their error. Otherwise it is one roll by the total of the shifts. |
| PaddleFft.IfftShift1D | ivy/functional/frontends/paddle/fft.py:93-106 | It fails iff the as-written shifts fail, with their error. Otherwise it is one roll by the total of the shifts. |
| PaddleFft.IfftShift1DIntended | ivy/functional/frontends/paddle/fft.py:93-106 | The corrected ifftshift: it fails iff the corrected shifts fail. Otherwise it is one roll by their total. |
| PaddleFft.IfftShiftRoundTrip | ivy/functional/frontends/paddle/fft.py:96-100 | With axes None or an int, whenever fftshift succeeds, ifftshift undoes it. |
| PaddleFft.IfftShiftIntendedRoundTrip | ivy/functional/frontends/paddle/fft.py:101-102 | When the engine's concat depends only on the list's length, the corrected ifftshift undoes every fftshift that succeeds, whatever the form of axes. |
| PaddleFft.IfftShiftListOddLength | ivy/functional/frontends/paddle/fft.py:101-102 | As written, on an engine that concatenates the ints, fftshift then ifftshift over axes [0] turns [0, 1, 2] into [1, 2, 0]. On one that raises, each call raises the engine's error. |
| PaddleFft.DefaultInverseLength | ivy/functional/frontends/paddle/fft.py:115-116 | The default n is 2·(len − 1) of the axis. It is an IndexError for an axis out of range and a TypeError for a float axis. |
| PaddleFft.FrontendFft | ivy/functional/frontends/paddle/fft.py:14-16 | The input is cast to complex128 and passed to the backend fft. |
| PaddleFft.FrontendFftDefaultAxisRejected | ivy/functional/frontends/paddle/fft.py:14 | The default axis −1.0 is a float, which the backend rejects with IvyValueError. |
| PaddleFft.IrfftTerms | ivy/functional/frontends/paddle/fft.py:118-120 | Terms 0 .. n // 2 are x's terms, or the fill-mode sentinel where x has none. After them come the conjugates mirrored around n // 2, for 2·(n // 2) terms; a negative or small n gives max(0, n // 2 + 1) terms. |
| PaddleFft.RfftFreq | ivy/functional/frontends/paddle/fft.py:128-133 | There are n // 2 + 1 entries, and entry i times n·d is i. When n·d is 0 the result is a ZeroDivisionError. |
| Criterion.ClassWeightsPartitionTotal | ivy/functional/frontends/sklearn/tree/_criterion.py:357-371 | For one output, the class weights over a labelled range add up to the total weight. |
| Criterion.ClassWeightSplit | ivy/functional/frontends/sklearn/tree/_criterion.py:440-452 | A class weight over [a, c) is the sum of its weights over [a, b) and [b, c). |
| Criterion.TotalWeightSplit | ivy/functional/frontends/sklearn/tree/_criterion.py:360-371 | The total weight over [a, c) is the sum of those over [a, b) and [b, c). |
| Criterion.FillZero | ivy/functional/frontends/sklearn/tree/_criterion.py:434-437 | Every buffer entry becomes 0. |
| Criterion.AccumulateClassWeights | ivy/functional/frontends/sklearn/tree/_criterion.py:357-371 | Each [k, c] grows by the weight of class c in output k over the range, and the returned total is the range weight. |
| Criterion.ClassificationCriterion.constructor | ivy/functional/frontends/sklearn/tree/_criterion.py:314-345 | max_n_classes is the maximum of n_classes. The zeroed sum buffers hold n_outputs × max_n_classes entries, and the positions and weights start at 0. missing_go_to_left starts false; n_missing, and the node's y, sample_weight and sample_indices, are not yet set. |
| Criterion.ClassificationCriterion.SetNode | ivy/functional/frontends/sklearn/tree/_criterion.py:348-355 | The node's samples, weights and range are recorded (so they are now set), n_node_samples = end − start, and weighted_n_node_samples restarts at 0. |
| Criterion.ClassificationCriterion.LeftRow | ivy/functional/frontends/sklearn/tree/_criterion.py:450 | Row k of sum_left, as a value. |
| Criterion.ClassificationCriterion.Init | ivy/functional/frontends/sklearn/tree/_criterion.py:347-374 | sum_total[k][c] is the weight of class c in output k. weighted_n_node_samples is the total weight. Each row of sum_total sums to it. |
| Criterion.ClassificationCriterion.InitMissing | ivy/functional/frontends/sklearn/tree/_criterion.py:381-400 | It sets n_missing. When it is 0, nothing else changes. Otherwise sum_missing and weighted_n_missing are the class weights and the total over the last n_missing positions. |
| Criterion.ClassificationCriterion.Update | ivy/functional/frontends/sklearn/tree/_criterion.py:426-478 | Before init_missing has set n_missing, or before init has set sample_indices, it is an AttributeError that changes nothing. Otherwise the forward branch zeroes sum_left and adds the moved samples' class weights, weighted_n_left accumulates, weighted_n_right = node − left, and sum_right = total − left. The reverse branch fails in reverse_reset with TypeError. With no outputs it instead sweeps back, and weighted_n_left drops by the weight of positions [new_pos, end − n_missing). |
| Criterion.ClassificationCriterion.ReverseResetFirstRow | ivy/functional/frontends/sklearn/tree/_criterion.py:414-424 | The first output row of sum_right + sum_left equals sum_total, and the other rows are untouched. |
| Criterion.ClassificationCriterion.SweepBack | ivy/functional/frontends/sklearn/tree/_criterion.py:456-468 | The backward loop lowers weighted_n_left by exactly the total weight of positions [new_pos, end_non_missing). |
| Criterion.ClassificationCriterion.UpdateForwardIntended | ivy/functional/frontends/sklearn/tree/_criterion.py:439-452 | Corrected update: sum_left accumulates like weighted_n_left, and every left row keeps summing to weighted_n_left. |
| Criterion.ClassificationCriterion.TotalCounts | ivy/functional/frontends/sklearn/tree/_criterion.py:690-694 | sum_total as n_outputs rows of max_n_classes values. |
| Criterion.ClassificationCriterion.GiniNodeImpurity | ivy/functional/frontends/sklearn/tree/_criterion.py:686-696 | An error happens iff n_outputs is 0, or W is 0 and some output has no classes, and it is a ZeroDivisionError. For W ≠ 0 the result is (1/n_outputs)·Σ_k(1 − Σ_c count²/W²). For W = 0 with classes in every output it is NaN. |
| Criterion.SubtractInto | ivy/functional/frontends/sklearn/tree/_criterion.py:473-475 | dst[k, c] = a[k, c] − b[k, c] everywhere. |
| Criterion.MoveSumsClassification | ivy/functional/frontends/sklearn/tree/_criterion.py:1000-1027 | sum_1 + sum_2 = sum_total entrywise. sum_1 holds sum_missing when missing values go there, and 0 otherwise. The weights split the node weight the same way, and with no outputs they are left as they were. |
| Criterion.GiniPureNodeIsZero | ivy/functional/frontends/sklearn/tree/_criterion.py:686-696 | When each output's weight sits in one class, the Gini impurity is 0. |
| Criterion.GiniNonNegative | ivy/functional/frontends/sklearn/tree/_criterion.py:686-696 | With non-negative counts that sum to W > 0 per output, the impurity is ≥ 0. |
| Criterion.RowSumShift | ivy/functional/frontends/sklearn/tree/_criterion.py:448-452 | Adding a range's class weights to a row raises its row sum by the range weight. |
| Criterion.ImpurityImprovement | ivy/functional/frontends/sklearn/tree/_criterion.py:170-205 | The result is (W_node/W)·(parent − (W_r/W_node)·right − (W_l/W_node)·left). A zero W or W_node is a ZeroDivisionError. |
| Criterion.NoImprovementWithoutPurerChildren | ivy/functional/frontends/sklearn/tree/_criterion.py:201-205 | When both children are as impure as the parent and the child weights add up to the node, the improvement is 0. |
| Criterion.MaeInitMissing | ivy/functional/frontends/sklearn/tree/_criterion.py:885-887 | Any non-zero n_missing is a ValueError. |
| Criterion.UpdateTwiceShowsDrift | ivy/functional/frontends/sklearn/tree/_criterion.py:434-452 | As written, update(1) then update(2) leaves a left row total of 1.0 against weighted_n_left 2.0. |
| Criterion.UpdateTwiceIntended | ivy/functional/frontends/sklearn/tree/_criterion.py:439-452 | With the corrected update, both are 2.0. |
| Criterion.UnweightedTotalIsCount | ivy/functional/frontends/sklearn/tree/_criterion.py:547-550 | Without sample weights, the total weight is the number of samples. |
| Criterion.WeightedTargetSumSplit | ivy/functional/frontends/sklearn/tree/_criterion.py:544-556 | A target sum over [a, c) splits at any b in between. |
| Criterion.WeightedSquareSumNonNeg | ivy/functional/frontends/sklearn/tree/_criterion.py:544-556 | With non-negative weights, sq_sum_total is non-negative. |
| Criterion.AccumulateTargetSums | ivy/functional/frontends/sklearn/tree/_criterion.py:544-556 | Each sum[k] grows by Σw·y[i,k]. The returned weight is Σw and the returned square sum is Σw·y². |
| Criterion.AddSample | ivy/functional/frontends/sklearn/tree/_criterion.py:547-556 | One sample adds w·y[i,k] to each sum and returns its weight and its weighted square sum. |
| Criterion.RegressionCriterion.constructor | ivy/functional/frontends/sklearn/tree/_criterion.py:501-526 | Zeroed per-output sums, with positions and weights at 0. |
| Criterion.RegressionCriterion.SetNode | ivy/functional/frontends/sklearn/tree/_criterion.py:536-544 | The node's samples, weights and range are recorded, and weighted_n_node_samples and sq_sum_total restart at 0. |
| Criterion.RegressionCriterion.Init | ivy/functional/frontends/sklearn/tree/_criterion.py:528-559 | sum_total[k] = Σw·y[i,k], sq_sum_total = Σw·y², and weighted_n_node_samples = Σw over the node. |
| Criterion.RegressionCriterion.MoveSums | ivy/functional/frontends/sklearn/tree/_criterion.py:656-682 | The method copy gives the same split as the module-level helper. |
| Criterion.MoveSumsRegression | ivy/functional/frontends/sklearn/tree/_criterion.py:1030-1056 | sum_1 + sum_2 = sum_total per output. sum_1 holds sum_missing or 0, and the weights split the node weight. |
| PaddleTensor.ZerosLike | ivy/functional/frontends/paddle/tensor/tensor.py:173-177 | The result has the same shape and dtype, with every element 0. |
| PaddleTensor.ZeroClears | ivy/functional/frontends/paddle/tensor/tensor.py:173-177 | zero_ keeps the shape and clears every element, and applying it twice is the same as applying it once. |
| PaddleTensor.MinimumScalar | ivy/functional/frontends/paddle/tensor/tensor.py:238-239 | Each element is at most both m and the original, and equal to one of them. |
| PaddleTensor.MaximumScalar | ivy/functional/frontends/paddle/tensor/tensor.py:240-241 | Each element is at least both m and the original, and equal to one of them. |
| PaddleTensor.Clip | ivy/functional/frontends/paddle/tensor/tensor.py:229-244 | Both bounds None is an IvyException. Only max gives minimum, only min gives maximum, and both give the engine's clip. |
| PaddleTensor.OneSidedClipBounds | ivy/functional/frontends/paddle/tensor/tensor.py:238-241 | A one-sided clip bounds every element on that side, keeps the shape, and is idempotent. |
| PaddleTensor.Reshape | ivy/functional/frontends/paddle/tensor/tensor.py:83-94 | Positional args together with a non-empty shape= is a TypeError. Otherwise shape= wins, then a leading tuple/list, then the args tuple, and with neither there is no shape. |
| PaddleTensor.ReshapeTupleOrList | ivy/functional/frontends/paddle/tensor/tensor.py:86-91 | A shape given as one positional sequence or as shape= names the same target. |
| PaddleTensor.Tensor.constructor | ivy/functional/frontends/paddle/tensor/tensor.py:12-20 | An engine array is wrapped as it is. Nested data becomes an array of the given or inferred dtype. dtype, place and stop_gradient are recorded. |
| PaddleTensor.Tensor.Dtype | ivy/functional/frontends/paddle/tensor/tensor.py:40-42 | dtype is the wrapped array's dtype, not the constructor argument. |
| PaddleTensor.Tensor.Dim | ivy/functional/frontends/paddle/tensor/tensor.py:96-97 | dim() is the rank of the wrapped array. |
| PaddleTensor.Tensor.NDim | ivy/functional/frontends/paddle/tensor/tensor.py:48-50 | ndim equals dim(). |
| PaddleTensor.Tensor.SetItem | ivy/functional/frontends/paddle/tensor/tensor.py:69-72 | Item assignment always raises IvyException. |
| PaddleTensor.Tensor.Iter | ivy/functional/frontends/paddle/tensor/tensor.py:74-78 | A 0-d tensor is a TypeError. Otherwise the iteration yields shape[0] items, item i being self[i]. |
| PaddleTensor.Tensor.ApplyInPlace | ivy/functional/frontends/paddle/tensor/tensor.py:112-114 | Each `*_` method (ceil_, lerp_, sqrt_, zero_, exp_, subtract_, floor_, add_, unsqueeze_, remainder_, rsqrt_) stores the out-of-place result and returns self. |
| PaddleTensor.OutOfPlace | ivy/functional/frontends/paddle/tensor/tensor.py:112-300 | zero_ gives zeros of the same shape and dtype. rsqrt_ is the reciprocal of sqrt. unsqueeze_ is expand_dims on the axis, and lerp_ is the engine's lerp. The other methods call their engine kernel. |
| PaddleTensor.Tensor.ClipInPlace | ivy/functional/frontends/paddle/tensor/tensor.py:249-264 | It makes the same checks and computes the same values as clip, stores them, and returns self. An error leaves the array unchanged. |
| PaddleTensor.Tensor.SqueezeInPlace | ivy/functional/frontends/paddle/tensor/tensor.py:309-318 | An int axis naming a dimension longer than 1 leaves the tensor unchanged, and so does a 0-d tensor. An axis outside the shape is an IndexError. Otherwise the array becomes its squeeze. It returns self. |
| ControlFlow.IfElse | ivy/functional/backends/torch/control_flow_ops.py:1-13 | A bool condition with any variables is a TypeError, because the wrapping lambda takes no keyword arguments. Otherwise exactly one branch is called with the variables: body_fn when the condition decides true, orelse_fn otherwise. |
| ControlFlow.CallCond | ivy/functional/backends/torch/control_flow_ops.py:3-9 | A bool with variables is a TypeError. Otherwise the truth value is the bool, the predicate applied to the variables, or bool() of the object. |
| ControlFlow.Decide | ivy/functional/backends/torch/control_flow_ops.py:3-9 | The intended truth value: a bool is itself, a predicate is applied to the variables, and any other object gives its bool(). |
| ControlFlow.IfElseIntended | ivy/functional/backends/torch/control_flow_ops.py:1-13 | A bool is a constant predicate: the function never fails, and it agrees with if_else wherever that succeeds. |
| ControlFlow.BoolCondWithVarsFails | ivy/functional/backends/torch/control_flow_ops.py:3-7 | As written, `if_else(True, f, g, {"x": 1})` is a TypeError, while the intended version calls f. |
| ControlFlow.BoolCondIsConstantPredicate | ivy/functional/backends/torch/control_flow_ops.py:3-5 | Intended: a bool b behaves as the predicate returning b and as an object with truth value b. As written, the same holds with no variables. |
| ControlFlow.NegatedConditionSwapsBranches | ivy/functional/backends/torch/control_flow_ops.py:6-13 | Negating a predicate and swapping the branches gives the same result. |
| ControlFlow.AsTuple | ivy/functional/backends/torch/control_flow_ops.py:20-21 | A non-tuple body result is wrapped as a 1-tuple, and a tuple is kept. |
| ControlFlow.Iterate | ivy/functional/backends/torch/control_flow_ops.py:16-22 | A finished loop's values fail the test, and a test false at the start returns the start values. |
| ControlFlow.IterateFuelMonotone | ivy/functional/backends/torch/control_flow_ops.py:18-19 | Once the loop has stopped within some number of rounds, more rounds give the same result. |
| ControlFlow.WhileLoop | ivy/functional/backends/torch/control_flow_ops.py:16-22 | The loop computes `Iterate`. Its result fails the test, and when the test is false on vars it returns vars without calling the body. |

## Left out

- Native kernels are not modelled; they are parameters. This covers paddle/tensorflow `pad`, the native `max_pool*`, `fft`/`ifft`, `argsort`, `unique_all`/`UniqueV2`, `broadcast_shape`, `roll`, `gather`, and the engine kernels behind the `Tensor` methods. So are `_validate_max_pool_params` and `_depth_max_pooling_helper`: those helpers are not part of this model, so the depth-pooling decision is a parameter.
- In the losses, exp, log, log1p and the division inside kl_div are not interpreted. They are parameters, because floating point is out of scope. The model keeps the formula structure and the reduction dispatch of log_poisson_loss, kl_div and soft_margin_loss. Infinities are not represented, so a term such as 0·log(0) is not the NaN it is in floating point.
- Losses: the elementwise operands of l1, huber, smooth_l1, soft_margin and kl_div are taken after broadcasting, as equal-length flattened sequences (kl_div as equal-shaped rows). Broadcasting unequal shapes, such as a length-1 target against a length-3 input, is not modelled, so those members require equal lengths. log_poisson_loss's own shape assertion is modelled.
- Losses.KlDiv: takes the input as its rows over the last axis, with every leading axis flattened (a 1-D input is one row), and takes size[0] as a separate parameter. The model does not tie size[0] to the row count. A 0-d input, which the source's sum over axis −1 rejects, is left out, and so is `out=`.
- Losses.LogPoissonLoss: models a 1-D input with the default axis −1. Other axes and `out=` are left out.
- The Bessel `i0` series in the paddle manipulation file is floating-point numerics and is left out.
- The dtype capability decorators and the float32/complex cast round trips around native calls are left out. They do not change the modelled values.
- Randomness and aliasing are left out: dropout, `out=` and `inplace_update`.
- `concat_from_sequence`, `moveaxis`, `flipud`/`fliplr`, `rot90`, the `*split` and `*stack` functions, and paddle's `broadcast_shapes`/`expand` are not part of this model. The activation modules and the container losses are not part of it either: they forward to the engine.
- PaddleManipulation.TakeAlongAxis: models one line along the axis and the validation on shapes, not the full n-dimensional gather.
- TfManipulation.TakeAlongAxis: models one line along the axis and the validation on shapes, not the full n-dimensional gather.
- PaddleManipulation.UniqueConsecutive: treats the slices along the axis as opaque vectors, and the unique values come from a parameter.
- PaddleManipulation.FillDiagonal: works on the flattened array as a sequence rather than updating the engine array in place.
- TfManipulation.FillDiagonal: works on the flattened array as a sequence rather than updating the engine array in place.
- PaddleLayers.MaxPool: represents the tensor by its shape. The output shape of the native pool is a parameter.
- PaddleLayers.Stft: models one signal row. The nested `stft_helper` over batch rows and the final `astype` are left out. The `astype` cannot complete on supported input, because `dtype` is bound only for real types while the decorator admits only complex ones.
- PaddleFft.FftShift1D: models a 1-D input, where every valid axis names the same axis. A multi-axis roll is a composition of these.
- PaddleFft.IfftShift1D: models a 1-D input, for the same reason.
- PaddleFft.ShiftsBy: `ivy.concat` of a list of Python ints is the engine's business. The model takes its outcome as a parameter: `None` when it joins the ints, or the error it raises.
- PaddleFft.IrfftTerms: models a 1-D input. The fill-mode sentinel that `take_along_axis` puts past the end of x is a parameter. The inverse transform itself is a native call.
- ControlFlow.WhileLoop: takes a round bound (fuel) in place of possible nontermination. It returns None when the bound runs out. It also does not distinguish a list from a tuple of values.
- ControlFlow.IfElse: a callable that raises, or a `bool()` that raises, is not modelled.
- PaddleManipulation.TopK: models a 1-D input. For higher ranks the axis range grows and the selection runs along the chosen axis.
- TfManipulation.TopK: models a 1-D input, for the same reason.
- PaddleManipulation.SelectTopK: the engine's `sort` of the kept indices is a parameter; the model asks only that it return an ascending permutation.
- TorchPooling.LpPool: the engine's `avg_pool` is a parameter that either succeeds or raises. The pooled values and the final `pow` and `astype` are not modelled.
- Criterion.ClassificationCriterion.GiniNodeImpurity: NaN stands for the value that W = 0 gives. The model does not say whether the engine yields nan or an infinity for particular counts.
- Criterion.ClassificationCriterion.Init: stops where the source calls `reset`. That call fails whenever n_outputs > 0, in one of two ways; with no outputs it returns 0. While `init_missing` has not yet set `n_missing`, `_move_sums_classification` reads it and raises AttributeError, for n_outputs > 0. Once it is set, the helper indexes `weighted_n_left[0]` on a float and raises TypeError.
- Criterion.ClassificationCriterion.Update: reports the reverse branch's TypeError after `ReverseResetFirstRow`, and the AttributeError when `n_missing` or `sample_indices` is unset.
- Criterion.MoveSumsClassification: assumes `n_missing` has been set. Before `init_missing` the source's read of `criterion.n_missing` raises AttributeError, for n_outputs > 0.
- Criterion.MoveSumsRegression: assumes `n_missing` has been set. Before `init_missing` the source's read raises AttributeError.
- Criterion.RegressionCriterion.constructor: sets `n_missing` to 0, where the source's `__init__` leaves it unset. Of the modelled regression members only `MoveSums` reads it (`_criterion.py:666`), and before `init_missing` that read raises AttributeError.
- Criterion: the unresolved `_utils` import is not modelled. `missing_go_to_left` is set to 0 by the classification `__init__` (`_criterion.py:318`), and the model keeps it false. The regression class never sets it.
- Criterion: labels are `int(y[i, k])` of a float in the source, and the model takes integer labels. A label of max_n_classes or more (an IndexError in the source) is excluded by the precondition that labels lie in range.
- Criterion.RegressionCriterion: `update`, `init_missing`, `reset` and `reverse_reset` are not modelled. `reset` and `reverse_reset` read `missing_go_to_left`, which the class never sets, so both raise AttributeError. `init` ends with `reset`, and `update`'s reverse branch calls `reverse_reset` (`_criterion.py:630`).
- Criterion: `Entropy`, `Poisson`, `MSE`, `FriedmanMSE`, MAE's medians, `children_impurity`, `node_value` and `proxy_impurity_improvement` are left out. They are floating-point numerics or depend on the unresolved import.
- Criterion: `init_sum_missing` is modelled as the zeroed `sum_missing` buffer that the constructor allocates.
- PaddleTensor.Tensor.Iter: the source yields lazily, so its TypeError arises at the first `next`. The model reports it at the call.
- PaddleTensor.Clip: assumes the assertion helper raises IvyException when both bounds are None.

## Findings

| source | as written | input that shows it | evidently intended | confidence | as-written member | corrected member |
|---|---|---|---|---|---|---|
| ivy/functional/backends/paddle/experimental/manipulation.py:183-185 | A flat `[a, b]` pad width is repeated ndim times, and each element is then sliced as a pair. The elements are ints, so the slice raises TypeError. | `_to_paddle_padding([1, 2], 1)` | `[a, b]` means the pair (a, b) for every axis, giving 2·ndim pads | not executed | PaddleManipulation.FlatPairRejected | PaddleManipulation.ToPaddlePaddingIntended |
| ivy/functional/frontends/paddle/fft.py:101-102 | For a list of axes, ifftshift shifts by `-shape[ax] // 2`, which is (−n) // 2. For odd n that is one less than −(n // 2). | on an engine whose `concat` joins a list of ints, fftshift then ifftshift of `[0, 1, 2]` with `axes=[0]` gives `[1, 2, 0]`; on one that raises, both calls raise | ifftshift inverts fftshift on every branch | not executed | PaddleFft.IfftShiftListOddLength | PaddleFft.IfftShiftIntendedRoundTrip |
| ivy/functional/frontends/sklearn/tree/_criterion.py:434-452 | `update` zeroes `sum_left` on every call but keeps accumulating `weighted_n_left`. After two forward moves, the left class counts cover only the last move. | one output, labels 0, 1, 0, unweighted, after `init` (whose failing `reset` the caller catches) and `init_missing(0)`: `update(1)` then `update(2)` gives a left row total of 1.0 against `weighted_n_left` 2.0 | `sum_left` accumulates like `weighted_n_left`, as in the criterion's sklearn original | not executed | Criterion.UpdateTwiceShowsDrift | Criterion.ClassificationCriterion.UpdateForwardIntended |
| ivy/functional/backends/torch/control_flow_ops.py:3-7 | A bool condition is wrapped as `lambda *_: v`, which takes no keyword arguments, and is then called as `cond(**vars)`. | `if_else(True, f, g, {"x": 1})` raises TypeError | a bool is a constant predicate that accepts the variables | not executed | ControlFlow.BoolCondWithVarsFails | ControlFlow.IfElseIntended |
