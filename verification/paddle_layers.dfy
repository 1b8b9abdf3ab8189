/** The paddle backend's experimental layers
    (ivy/functional/backends/paddle/experimental/layers.py): the layout glue
    of max pooling, the unsupported operations, the validation chain of
    `fft` and the framing of `stft`. Tensors appear through their shapes;
    the native pooling, FFT, and the parameter validation imported from
    `ivy.functional.ivy.layers` are parameters. */
module PaddleLayers {
  import opened Common
  import opened ManipulationSpec

  // ---------------------------------------------------------------------
  // layout permutations

  /** `[s[i] for i in perm]`, and `transpose(x, perm)` on a shape. */
  function Permute<T>(s: seq<T>, perm: seq<int>): (r: seq<T>)
    requires forall i :: 0 <= i < |perm| ==> 0 <= perm[i] < |s|
    ensures |r| == |perm| && forall i :: 0 <= i < |perm| ==> r[i] == s[perm[i]]
  {
    seq(|perm|, i requires 0 <= i < |perm| => s[perm[i]])
  }

  /** Channel-last to channel-first: (0,2,1), [0,3,1,2], (0,4,1,2,3). */
  function ToChannelFirst(dims: nat): (p: seq<int>)
    requires 1 <= dims <= 3
    ensures |p| == dims + 2 && forall i :: 0 <= i < |p| ==> 0 <= p[i] < dims + 2
    ensures p[0] == 0 && p[1] == dims + 1 && forall i :: 2 <= i < dims + 2 ==> p[i] == i - 1
  {
    if dims == 1 then [0, 2, 1] else if dims == 2 then [0, 3, 1, 2] else [0, 4, 1, 2, 3]
  }

  /** Channel-first back to channel-last: (0,2,1), [0,2,3,1], [0,2,3,4,1]. */
  function FromChannelFirst(dims: nat): (p: seq<int>)
    requires 1 <= dims <= 3
    ensures |p| == dims + 2 && forall i :: 0 <= i < |p| ==> 0 <= p[i] < dims + 2
    ensures p[0] == 0 && p[dims + 1] == 1 && forall i :: 1 <= i <= dims ==> p[i] == i + 1
  {
    if dims == 1 then [0, 2, 1] else if dims == 2 then [0, 2, 3, 1] else [0, 2, 3, 4, 1]
  }

  /** The depth-pooling swap of axes 1 and 2: `(0, 2, 1, *range(3, dims + 2))`
      on entry, (0,2,1), [0,2,1,3], [0,2,1,3,4] on exit. */
  function DepthSwap(dims: nat): (p: seq<int>)
    requires 1 <= dims <= 3
    ensures |p| == dims + 2 && forall i :: 0 <= i < |p| ==> 0 <= p[i] < dims + 2
    ensures p[0] == 0 && p[1] == 2 && p[2] == 1 && forall i :: 3 <= i < dims + 2 ==> p[i] == i
  {
    if dims == 1 then [0, 2, 1] else if dims == 2 then [0, 2, 1, 3] else [0, 2, 1, 3, 4]
  }

  /** Applying p and then q gives back s when q undoes p position by position. */
  lemma PermuteInverse<T>(s: seq<T>, p: seq<int>, q: seq<int>)
    requires |p| == |s| && |q| == |s|
    requires forall i :: 0 <= i < |p| ==> 0 <= p[i] < |s|
    requires forall i :: 0 <= i < |q| ==> 0 <= q[i] < |p| && p[q[i]] == i
    ensures Permute(Permute(s, p), q) == s
  {
  }

  /** The exit permutations undo the entry ones: leaving depth pooling and
      then channel-first order restores every axis of a channel-last input. */
  lemma LayoutRoundTrip<T>(dims: nat, s: seq<T>)
    requires 1 <= dims <= 3 && |s| == dims + 2
    ensures Permute(Permute(s, ToChannelFirst(dims)), FromChannelFirst(dims)) == s
    ensures Permute(Permute(s, DepthSwap(dims)), DepthSwap(dims)) == s
    ensures Permute(Permute(s, FromChannelFirst(dims)), ToChannelFirst(dims)) == s
  {
    PermuteInverse(s, ToChannelFirst(dims), FromChannelFirst(dims));
    PermuteInverse(s, DepthSwap(dims), DepthSwap(dims));
    PermuteInverse(s, FromChannelFirst(dims), ToChannelFirst(dims));
  }

  // ---------------------------------------------------------------------
  // max_pool1d / max_pool2d / max_pool3d

  /** A pooling `padding`: a name such as "SAME", or one pair per axis. */
  datatype PoolPadding = Named(name: string) | Pairs(pairs: seq<seq<int>>) | Flat(pads: seq<int>)

  /** What the native pool is handed. */
  datatype PoolCall = PoolCall(input: seq<nat>, kernel: seq<int>, strides: seq<int>,
                               padding: PoolPadding, depthPooling: bool)

  /** The data format that marks a channel-last input. */
  function ChannelLastFormat(dims: nat): string {
    if dims == 1 then "NWC" else if dims == 2 then "NHWC" else "NDHWC"
  }

  /** Reorder a kernel or strides list only when it has one entry per axis. */
  function ReorderIfFull(s: seq<int>, dims: nat): (r: seq<int>)
    requires 1 <= dims <= 3
    ensures |s| == dims + 2 ==> r == Permute(s, ToChannelFirst(dims))
    ensures |s| != dims + 2 ==> r == s
  {
    if |s| == dims + 2 then Permute(s, ToChannelFirst(dims)) else s
  }

  /** The arguments of the native pool: a channel-last input and any
      per-axis kernel, strides or padding list are put in channel-first
      order; the depth helper may then swap axes 1 and 2; padding pairs are
      flattened row-major. */
  function PoolArgs(dims: nat, x: seq<nat>, kernel: seq<int>, strides: seq<int>, padding: PoolPadding,
                    dataFormat: string,
                    depthHelper: (seq<nat>, seq<int>, seq<int>, nat) -> (seq<int>, seq<int>, bool)): (r: PoolCall)
    requires 1 <= dims <= 3 && |x| == dims + 2
    ensures |r.input| == |x|
    ensures r.input == EnterLayout(dims, x, dataFormat == ChannelLastFormat(dims), r.depthPooling)
    ensures dataFormat == ChannelLastFormat(dims) && !r.depthPooling ==>
      r.input[0] == x[0] && r.input[1] == x[dims + 1] && forall i :: 2 <= i < dims + 2 ==> r.input[i] == x[i - 1]
    ensures dataFormat != ChannelLastFormat(dims) && !r.depthPooling ==> r.input == x
    ensures padding.Named? ==> r.padding == padding
    ensures padding.Pairs? && |padding.pairs| != dims + 2 ==> r.padding == Flat(Flatten(padding.pairs))
    ensures padding.Pairs? && |padding.pairs| == dims + 2 && dataFormat == ChannelLastFormat(dims) ==>
      r.padding == Flat(Flatten(Permute(padding.pairs, ToChannelFirst(dims))))
  {
    var cl := dataFormat == ChannelLastFormat(dims);
    var x1 := if cl then Permute(x, ToChannelFirst(dims)) else x;
    var k1 := if cl then ReorderIfFull(kernel, dims) else kernel;
    var s1 := if cl then ReorderIfFull(strides, dims) else strides;
    var p1 := if cl && padding.Pairs? && |padding.pairs| == dims + 2
              then Pairs(Permute(padding.pairs, ToChannelFirst(dims))) else padding;
    var (k2, s2, depth) := depthHelper(x1, k1, s1, dims);
    var x2 := EnterLayout(dims, x, cl, depth);
    var flat := match p1
      case Pairs(ps) => Flat(Flatten(ps))
      case _ => p1;
    PoolCall(x2, k2, s2, flat, depth)
  }

  /** `max_pool1d/2d/3d` from the validated arguments: any dilation above 1
      is NotImplementedError (after the layout work, before the native
      pool); the native result leaves depth pooling and channel-first order
      through the inverse permutations. */
  function MaxPool(dims: nat, x: seq<nat>, kernel: seq<int>, strides: seq<int>, padding: PoolPadding,
                   dilation: seq<int>, dataFormat: string,
                   depthHelper: (seq<nat>, seq<int>, seq<int>, nat) -> (seq<int>, seq<int>, bool),
                   pool: PoolCall -> seq<nat>): (r: Result<seq<nat>>)
    requires 1 <= dims <= 3 && |x| == dims + 2
    requires forall c :: |pool(c)| == |c.input|
    ensures r.Err? <==> |dilation| == 0 || exists i :: 0 <= i < |dilation| && dilation[i] > 1
    ensures r.Err? && |dilation| > 0 ==> r.error == NotImplemented
    ensures r.Ok? ==> |r.value| == |x|
    ensures r.Ok? ==>
      var call := PoolArgs(dims, x, kernel, strides, padding, dataFormat, depthHelper);
      r.value == ExitLayout(dims, pool(call), dataFormat == ChannelLastFormat(dims), call.depthPooling)
  {
    var call := PoolArgs(dims, x, kernel, strides, padding, dataFormat, depthHelper);
    if |dilation| == 0 then Err(ValueError)  // max() of an empty sequence
    else if exists i :: 0 <= i < |dilation| && dilation[i] > 1 then Err(NotImplemented)
    else
      Ok(ExitLayout(dims, pool(call), dataFormat == ChannelLastFormat(dims), call.depthPooling))
  }

  /** The input as the native pool sees it: channel-first, then with axes 1
      and 2 swapped under depth pooling. */
  function EnterLayout<T>(dims: nat, x: seq<T>, channelLast: bool, depth: bool): (r: seq<T>)
    requires 1 <= dims <= 3 && |x| == dims + 2
    ensures |r| == |x|
    ensures channelLast && !depth ==>
      r[0] == x[0] && r[1] == x[dims + 1] && forall i :: 2 <= i < dims + 2 ==> r[i] == x[i - 1]
    ensures !channelLast && depth ==>
      r[0] == x[0] && r[1] == x[2] && r[2] == x[1] && forall i :: 3 <= i < dims + 2 ==> r[i] == x[i]
    ensures !channelLast && !depth ==> r == x
  {
    var x1 := if channelLast then Permute(x, ToChannelFirst(dims)) else x;
    if depth then Permute(x1, DepthSwap(dims)) else x1
  }

  /** The native result brought back: axes 1 and 2 swapped back after
      depth pooling, then channel-last again. */
  function ExitLayout<T>(dims: nat, y: seq<T>, channelLast: bool, depth: bool): (r: seq<T>)
    requires 1 <= dims <= 3 && |y| == dims + 2
    ensures |r| == |y|
    ensures channelLast && !depth ==>
      r[0] == y[0] && r[dims + 1] == y[1] && forall i :: 1 <= i <= dims ==> r[i] == y[i + 1]
    ensures !channelLast && depth ==>
      r[0] == y[0] && r[1] == y[2] && r[2] == y[1] && forall i :: 3 <= i < dims + 2 ==> r[i] == y[i]
    ensures !channelLast && !depth ==> r == y
  {
    var y1 := if depth then Permute(y, DepthSwap(dims)) else y;
    if channelLast then Permute(y1, FromChannelFirst(dims)) else y1
  }

  /** A pool that keeps its input shape gives back the caller's shape in the
      caller's layout, whatever the layout and the depth decision. */
  lemma MaxPoolLayoutRoundTrip(dims: nat, x: seq<nat>, kernel: seq<int>, strides: seq<int>, padding: PoolPadding,
                               dilation: seq<int>, dataFormat: string,
                               depthHelper: (seq<nat>, seq<int>, seq<int>, nat) -> (seq<int>, seq<int>, bool),
                               pool: PoolCall -> seq<nat>)
    requires 1 <= dims <= 3 && |x| == dims + 2
    requires forall c :: pool(c) == c.input
    requires |dilation| > 0 && forall i :: 0 <= i < |dilation| ==> dilation[i] <= 1
    ensures MaxPool(dims, x, kernel, strides, padding, dilation, dataFormat, depthHelper, pool) == Ok(x)
  {
    var call := PoolArgs(dims, x, kernel, strides, padding, dataFormat, depthHelper);
    ExitUndoesEntry(dims, x, dataFormat == ChannelLastFormat(dims), call.depthPooling);
    assert !exists i :: 0 <= i < |dilation| && dilation[i] > 1;
  }

  /** Whatever the native pool computes, max pooling hands it back in the
      caller's layout: putting the result through the entry layout again
      gives exactly the native result. */
  lemma MaxPoolReturnsNativeResult(dims: nat, x: seq<nat>, kernel: seq<int>, strides: seq<int>,
                                   padding: PoolPadding, dilation: seq<int>, dataFormat: string,
                                   depthHelper: (seq<nat>, seq<int>, seq<int>, nat) -> (seq<int>, seq<int>, bool),
                                   pool: PoolCall -> seq<nat>)
    requires 1 <= dims <= 3 && |x| == dims + 2
    requires forall c :: |pool(c)| == |c.input|
    ensures var r := MaxPool(dims, x, kernel, strides, padding, dilation, dataFormat, depthHelper, pool);
      var call := PoolArgs(dims, x, kernel, strides, padding, dataFormat, depthHelper);
      r.Ok? ==> EnterLayout(dims, r.value, dataFormat == ChannelLastFormat(dims), call.depthPooling) == pool(call)
  {
    var call := PoolArgs(dims, x, kernel, strides, padding, dataFormat, depthHelper);
    EntryUndoesExit(dims, pool(call), dataFormat == ChannelLastFormat(dims), call.depthPooling);
  }

  /** Entering channel-first order and depth pooling undoes leaving them. */
  lemma EntryUndoesExit<T>(dims: nat, y: seq<T>, channelLast: bool, depth: bool)
    requires 1 <= dims <= 3 && |y| == dims + 2
    ensures EnterLayout(dims, ExitLayout(dims, y, channelLast, depth), channelLast, depth) == y
  {
    var y1 := if depth then Permute(y, DepthSwap(dims)) else y;
    LayoutRoundTrip(dims, y);
    LayoutRoundTrip(dims, y1);
  }

  /** Leaving depth pooling and then channel-first order undoes entering
      them, for each of the four layout decisions. */
  lemma ExitUndoesEntry<T>(dims: nat, x: seq<T>, channelLast: bool, depth: bool)
    requires 1 <= dims <= 3 && |x| == dims + 2
    ensures ExitLayout(dims, EnterLayout(dims, x, channelLast, depth), channelLast, depth) == x
  {
    var x1 := if channelLast then Permute(x, ToChannelFirst(dims)) else x;
    LayoutRoundTrip(dims, x);
    LayoutRoundTrip(dims, x1);
  }

  // ---------------------------------------------------------------------
  // unsupported operations

  /** The operations the backend declares but does not implement. */
  datatype Unsupported = AvgPool1d | AvgPool2d | AvgPool3d | Dct | Ifft | Embedding | Interpolate

  /** Each of them raises IvyNotImplementedException on every input. */
  function CallUnsupported(op: Unsupported): (r: Result<seq<real>>)
    ensures r.Err? && r.error == IvyNotImplemented
  {
    Err(IvyNotImplemented)
  }

  /** The unsupported operations and dilated max pooling fail with different
      exception classes. */
  lemma UnsupportedIsNotDilationError(op: Unsupported, dims: nat, x: seq<nat>, kernel: seq<int>,
                                      strides: seq<int>, padding: PoolPadding, dilation: seq<int>,
                                      dataFormat: string,
                                      depthHelper: (seq<nat>, seq<int>, seq<int>, nat) -> (seq<int>, seq<int>, bool),
                                      pool: PoolCall -> seq<nat>)
    requires 1 <= dims <= 3 && |x| == dims + 2
    requires forall c :: |pool(c)| == |c.input|
    requires exists i :: 0 <= i < |dilation| && dilation[i] > 1
    ensures MaxPool(dims, x, kernel, strides, padding, dilation, dataFormat, depthHelper, pool).Err?
    ensures CallUnsupported(op).error != MaxPool(dims, x, kernel, strides, padding, dilation, dataFormat, depthHelper, pool).error
  {
  }

  // ---------------------------------------------------------------------
  // fft

  /** A Python argument that should be an int: an int, a float such as -1.0,
      or another object (a tuple, a string). */
  datatype PyNum = PInt(i: int) | PFloat(f: real) | POther

  /** What `paddle.fft.fft` is called with. */
  datatype FftCall = FftCall(n: int, dim: int, norm: string, dtype: DType)

  predicate ValidNorm(norm: string) {
    norm == "backward" || norm == "ortho" || norm == "forward"
  }

  /** `fft`'s dtype promotion: int64, float64 and complex128 become
      complex128, everything else complex64. */
  function FftDType(d: DType): (r: DType)
    ensures r == Complex128 <==> d == Int64 || d == Float64 || d == Complex128
    ensures r == Complex64 || r == Complex128
  {
    if d == Int64 || d == Float64 || d == Complex128 then Complex128 else Complex64
  }

  /** `fft`: the checks in the order the code makes them. `n` defaults to
      `x.shape[dim]`, read before the range check on dim, so an out-of-range
      dim without n is an IndexError of that read. */
  function Fft(shape: seq<nat>, dtype: DType, dim: PyNum, norm: string, n: Option<PyNum>): (r: Result<FftCall>)
    ensures !dim.PInt? ==> r == Err(IvyValueError)
    ensures dim.PInt? && n.None? && !(-|shape| <= dim.i < |shape|) ==> r == Err(IndexError)
    ensures dim.PInt? && n.Some? && !(-|shape| <= dim.i < |shape|) ==> r == Err(IvyValueError)
    ensures dim.PInt? && n.Some? && -|shape| <= dim.i < |shape| && !n.value.PInt? ==> r == Err(TypeError)
    ensures r.Ok? <==>
      dim.PInt? && -|shape| <= dim.i < |shape| &&
      (if n.None? then PyIndex(shape, dim.i).value > 1 else n.value.PInt? && n.value.i > 1) &&
      ValidNorm(norm)
    ensures r.Ok? ==> r.value.dim == dim.i && r.value.n > 1 && r.value.norm == norm && r.value.dtype == FftDType(dtype)
    ensures r.Ok? && n.None? ==> r.value.n == PyIndex(shape, dim.i).value
  {
    if !dim.PInt? then Err(IvyValueError)
    else
      var d := dim.i;
      var nArg: Result<PyNum> :=
        if n.Some? then Ok(n.value)
        else match PyIndex(shape, d) { case Ok(len) => Ok(PInt(len)) case Err(e) => Err(e) };
      match nArg
      case Err(e) => Err(e)
      case Ok(nv) =>
        if d < -|shape| || d >= |shape| then Err(IvyValueError)
        else if !nv.PInt? then Err(TypeError)
        else if nv.i <= 1 then Err(IvyValueError)
        else if !ValidNorm(norm) then Err(IvyValueError)
        else Ok(FftCall(nv.i, d, norm, FftDType(dtype)))
  }

  /** A float axis such as the frontend default -1.0 is always rejected. */
  lemma FftRejectsFloatDim(shape: seq<nat>, dtype: DType, f: real, norm: string, n: Option<PyNum>)
    ensures Fft(shape, dtype, PFloat(f), norm, n) == Err(IvyValueError)
  {
  }

  // ---------------------------------------------------------------------
  // stft

  /** n is a power of two. */
  predicate IsPow2(n: int)
    decreases n
  {
    n == 1 || (n > 1 && n % 2 == 0 && IsPow2(n / 2))
  }

  lemma {:induction false} Pow2Double(n: int)
    requires IsPow2(n)
    ensures IsPow2(2 * n)
  {
    assert (2 * n) / 2 == n;
  }

  /** Between two powers of two, the smaller is at most half the larger. */
  lemma {:induction false} Pow2Gap(p: int, q: int)
    requires IsPow2(p) && IsPow2(q) && p < q
    ensures 2 * p <= q
    decreases q
  {
    if p != 1 {
      Pow2Gap(p / 2, q / 2);
    }
  }

  /** n is the smallest power of two not below bound. */
  predicate SmallestPow2AtLeast(n: int, bound: int) {
    IsPow2(n) && n >= bound && forall p :: IsPow2(p) && p >= bound ==> n <= p
  }

  /** The default `fft_length`: doubling from 1 while below `frame_length`,
      i.e. the smallest power of two not below it. */
  method DefaultFftLength(frameLength: int) returns (n: int)
    ensures IsPow2(n) && n >= frameLength
    ensures forall p :: IsPow2(p) && p >= frameLength ==> n <= p
  {
    n := 1;
    while n < frameLength
      invariant IsPow2(n)
      invariant n == 1 || n / 2 < frameLength
      decreases frameLength - n
    {
      Pow2Double(n);
      assert (2 * n) / 2 == n;
      n := n * 2;
    }
    forall p | IsPow2(p) && p >= frameLength ensures n <= p {
      if p < n {
        Pow2Gap(p, n);
      }
    }
  }

  /** The validated arguments of `stft`. */
  datatype StftArgs = StftArgs(frameLength: int, frameStep: int, fftLength: Option<int>)

  /** The checks of `stft`, in order: frame_length, frame_step, then
      fft_length when given; each must be an int of at least 1. */
  function CheckStftArgs(frameLength: PyNum, frameStep: PyNum, fftLength: Option<PyNum>): (r: Result<StftArgs>)
    ensures r.Err? ==> r.error == IvyValueError
    ensures r.Ok? <==>
      frameLength.PInt? && frameLength.i >= 1 && frameStep.PInt? && frameStep.i >= 1 &&
      (fftLength.Some? ==> fftLength.value.PInt? && fftLength.value.i >= 1)
    ensures r.Ok? ==> r.value.frameLength == frameLength.i && r.value.frameStep == frameStep.i
    ensures r.Ok? ==> (r.value.fftLength.Some? <==> fftLength.Some?)
    ensures r.Ok? && fftLength.Some? ==> r.value.fftLength.value == fftLength.value.i
  {
    if !frameLength.PInt? || frameLength.i < 1 then Err(IvyValueError)
    else if !frameStep.PInt? || frameStep.i < 1 then Err(IvyValueError)
    else if fftLength.Some? && (!fftLength.value.PInt? || fftLength.value.i < 1) then Err(IvyValueError)
    else Ok(StftArgs(frameLength.i, frameStep.i,
                     if fftLength.Some? then Some(fftLength.value.i) else None))
  }

  /** The number of frames: `-(-samples // step)` (the ceiling) with
      `pad_end`, `1 + (samples - frame_length) // step` without; a
      negative count gives no frame. */
  function NumFrames(samples: nat, frameLength: int, frameStep: int, padEnd: bool): (r: int)
    requires frameStep >= 1
    ensures !padEnd ==> (r - 1) * frameStep <= samples - frameLength < r * frameStep
  {
    var s: int := samples;
    if padEnd then -((-s) / frameStep)
    else
      var q := (s - frameLength) / frameStep;
      assert s - frameLength == q * frameStep + (s - frameLength) % frameStep;
      1 + q
  }

  /** `max(0, frame_length + step·(frames - 1) - samples)` with `pad_end`. */
  function EndPadding(samples: nat, frameLength: int, frameStep: int, padEnd: bool): (r: nat)
    requires frameStep >= 1
    ensures !padEnd ==> r == 0
    ensures padEnd ==> samples + r >= frameLength + frameStep * (NumFrames(samples, frameLength, frameStep, true) - 1)
    ensures padEnd && r > 0 ==> samples + r == frameLength + frameStep * (NumFrames(samples, frameLength, frameStep, true) - 1)
  {
    if padEnd then Max(0, frameLength + frameStep * (NumFrames(samples, frameLength, frameStep, true) - 1) - samples)
    else 0
  }

  /** With `pad_end` every sample starts a frame within its step, and the
      count is the ceiling of samples / step. */
  lemma PadEndFrames(samples: nat, frameStep: int)
    requires frameStep >= 1
    ensures var f := NumFrames(samples, 1, frameStep, true);
      f >= 0 && (samples > 0 ==> (f - 1) * frameStep < samples <= f * frameStep) && (samples == 0 ==> f == 0)
  {
    var s: int := samples;
    var q := (-s) / frameStep;
    var m := (-s) % frameStep;
    assert -s == q * frameStep + m;
    var f := -q;
    assert samples == f * frameStep - m;
    if samples > 0 {
      assert f * frameStep >= samples;
      if f <= 0 { MulMono(f, 0, frameStep); }
      assert (f - 1) * frameStep == f * frameStep - frameStep;
    } else {
      if f >= 1 { MulMono(1, f, frameStep); }
      if f <= -1 { MulMono(f, -1, frameStep); }
    }
  }

  /** Every frame lies inside the (padded) signal: frame i spans
      [i·step, i·step + frame_length). */
  lemma {:induction false} FramesFit(samples: nat, frameLength: int, frameStep: int, padEnd: bool, i: int)
    requires frameLength >= 1 && frameStep >= 1
    requires 0 <= i < NumFrames(samples, frameLength, frameStep, padEnd)
    ensures i * frameStep + frameLength <= samples + EndPadding(samples, frameLength, frameStep, padEnd)
  {
    var f := NumFrames(samples, frameLength, frameStep, padEnd);
    MulMono(i, f - 1, frameStep);
    if !padEnd {
      var q := (samples - frameLength) / frameStep;
      assert samples - frameLength == q * frameStep + (samples - frameLength) % frameStep;
      assert f - 1 == q;
    }
  }

  /** The frame after windowing: unchanged without a window function, the
      elementwise product with the window otherwise. */
  function Windowed(frame: seq<real>, window: Option<seq<real>>): (r: seq<real>)
    requires window.Some? ==> |window.value| == |frame|
    ensures |r| == |frame|
  {
    if window.None? then frame
    else seq(|frame|, i requires 0 <= i < |frame| => frame[i] * window.value[i])
  }

  /** One spectrum row of `stft`: frame i of the padded signal, windowed,
      zero-padded to `fft_length`, transformed, cut to the first
      `fft_length // 2 + 1` bins. */
  function StftRow<T>(padded: seq<real>, i: nat, frameLength: nat, frameStep: nat, fftLength: nat,
                      window: Option<seq<real>>, fft: seq<real> -> seq<T>): (r: seq<T>)
    requires i * frameStep + frameLength <= |padded|
    requires window.Some? ==> |window.value| == frameLength
    requires 1 <= frameLength <= fftLength
    requires forall s :: |fft(s)| == |s|
    ensures |r| == fftLength / 2 + 1
  {
    var frame := padded[i * frameStep .. i * frameStep + frameLength];
    var w := Windowed(frame, window) + Repeat(0.0, fftLength - frameLength);
    fft(w)[..fftLength / 2 + 1]
  }

  /** `stft_1D` on one signal row once `fft_length` is known: frame count,
      end padding, then one spectrum row per frame appended in a loop. Each
      frame is padded by `fft_length - frame_length`, which the model
      reports as NativeError when negative, and then goes through the
      backend `fft` above with dim -1, which needs more than one point. */
  method Stft1D<T>(signal: seq<real>, frameLength: int, frameStep: int, fftLength: int, padEnd: bool,
                   window: Option<seq<real>>, fft: seq<real> -> seq<T>) returns (r: Result<seq<seq<T>>>)
    requires frameLength >= 1 && frameStep >= 1 && fftLength >= 1
    requires window.Some? ==> |window.value| == frameLength
    requires forall s :: |fft(s)| == |s|
    ensures var frames := NumFrames(|signal|, frameLength, frameStep, padEnd);
      r.Ok? <==> frames <= 0 || (frameLength <= fftLength && fftLength > 1)
    ensures var frames := NumFrames(|signal|, frameLength, frameStep, padEnd);
      frames > 0 && fftLength < frameLength ==> r == Err(NativeError)
    ensures var frames := NumFrames(|signal|, frameLength, frameStep, padEnd);
      frames > 0 && frameLength <= fftLength <= 1 ==> r == Err(IvyValueError)
    ensures r.Ok? ==> |r.value| == Max(0, NumFrames(|signal|, frameLength, frameStep, padEnd))
    ensures r.Ok? ==> forall i :: 0 <= i < |r.value| ==>
      var padded := signal + Repeat(0.0, EndPadding(|signal|, frameLength, frameStep, padEnd));
      i * frameStep + frameLength <= |padded| && frameLength <= fftLength &&
      r.value[i] == StftRow(padded, i, frameLength, frameStep, fftLength, window, fft)
    ensures StftOutcome(r, signal, frameLength, frameStep, fftLength, padEnd, window, fft)
  {
    var padded := signal + Repeat(0.0, EndPadding(|signal|, frameLength, frameStep, padEnd));
    var frames := NumFrames(|signal|, frameLength, frameStep, padEnd);
    var rows: seq<seq<T>> := [];
    var i := 0;
    while i < frames
      invariant 0 <= i <= Max(0, frames)
      invariant i > 0 ==> frameLength <= fftLength && fftLength > 1
      invariant |rows| == i
      invariant RowsAreFrames(padded, rows, frameLength, frameStep, fftLength, window, fft)
    {
      if fftLength < frameLength {
        return Err(NativeError);
      }
      FramesFit(|signal|, frameLength, frameStep, padEnd, i);
      var call := Fft([fftLength], Float32, PInt(-1), "backward", None);
      if call.Err? {
        return Err(call.error);
      }
      AppendFrameRow(padded, rows, frameLength, frameStep, fftLength, window, fft);
      rows := rows + [StftRow(padded, i, frameLength, frameStep, fftLength, window, fft)];
      i := i + 1;
    }
    assert |rows| == Max(0, frames);
    assert frames > 0 ==> frameLength <= fftLength && fftLength > 1;
    return Ok(rows);
  }

  /** Row k of `rows` is the spectrum of frame k of `padded`. */
  ghost predicate RowsAreFrames<T>(padded: seq<real>, rows: seq<seq<T>>, frameLength: nat, frameStep: nat,
                                   fftLength: nat, window: Option<seq<real>>, fft: seq<real> -> seq<T>)
    requires frameLength >= 1
    requires window.Some? ==> |window.value| == frameLength
    requires forall s :: |fft(s)| == |s|
  {
    forall k :: 0 <= k < |rows| ==>
      k * frameStep + frameLength <= |padded| && frameLength <= fftLength &&
      rows[k] == StftRow(padded, k, frameLength, frameStep, fftLength, window, fft)
  }

  /** Appending the spectrum of the next frame keeps the rows in step with
      the frames. */
  lemma AppendFrameRow<T>(padded: seq<real>, rows: seq<seq<T>>, frameLength: nat, frameStep: nat,
                          fftLength: nat, window: Option<seq<real>>, fft: seq<real> -> seq<T>)
    requires 1 <= frameLength <= fftLength
    requires window.Some? ==> |window.value| == frameLength
    requires forall s :: |fft(s)| == |s|
    requires |rows| * frameStep + frameLength <= |padded|
    requires RowsAreFrames(padded, rows, frameLength, frameStep, fftLength, window, fft)
    ensures RowsAreFrames(padded, rows + [StftRow(padded, |rows|, frameLength, frameStep, fftLength, window, fft)],
                          frameLength, frameStep, fftLength, window, fft)
  {
    var rows' := rows + [StftRow(padded, |rows|, frameLength, frameStep, fftLength, window, fft)];
    forall k | 0 <= k < |rows'|
      ensures k * frameStep + frameLength <= |padded| && frameLength <= fftLength &&
        rows'[k] == StftRow(padded, k, frameLength, frameStep, fftLength, window, fft)
    {
      if k < |rows| {
        assert rows'[k] == rows[k];
      }
    }
  }

  /** What framing a signal with an `fft_length` of n yields: success
      exactly when there is no frame or each frame fits into n > 1 points,
      and then one spectrum row per frame of the end-padded signal. */
  ghost predicate StftOutcome<T>(r: Result<seq<seq<T>>>, signal: seq<real>, frameLength: int, frameStep: int,
                                 n: int, padEnd: bool, window: Option<seq<real>>, fft: seq<real> -> seq<T>)
    requires frameLength >= 1 && frameStep >= 1 && n >= 1
    requires window.Some? ==> |window.value| == frameLength
    requires forall s :: |fft(s)| == |s|
  {
    var frames := NumFrames(|signal|, frameLength, frameStep, padEnd);
    var padded := signal + Repeat(0.0, EndPadding(|signal|, frameLength, frameStep, padEnd));
    (r.Ok? <==> frames <= 0 || (frameLength <= n && n > 1)) &&
    (r.Ok? ==> |r.value| == Max(0, frames) && RowsAreFrames(padded, r.value, frameLength, frameStep, n, window, fft))
  }

  /** `stft` on one signal row: validate, default `fft_length` to the
      smallest power of two not below `frame_length`, then frame. Every row
      keeps `fft_length // 2 + 1` bins. */
  method Stft<T>(signal: seq<real>, frameLength: PyNum, frameStep: PyNum, fftLength: Option<PyNum>,
                 padEnd: bool, window: Option<seq<real>>, fft: seq<real> -> seq<T>) returns (r: Result<seq<seq<T>>>)
    requires window.Some? && frameLength.PInt? ==> |window.value| == frameLength.i
    requires forall s :: |fft(s)| == |s|
    ensures CheckStftArgs(frameLength, frameStep, fftLength).Err? ==> r == Err(IvyValueError)
    ensures CheckStftArgs(frameLength, frameStep, fftLength).Ok? && fftLength.Some? ==>
      StftOutcome(r, signal, frameLength.i, frameStep.i, fftLength.value.i, padEnd, window, fft)
    ensures CheckStftArgs(frameLength, frameStep, fftLength).Ok? && fftLength.None? ==>
      exists n :: SmallestPow2AtLeast(n, frameLength.i) &&
        StftOutcome(r, signal, frameLength.i, frameStep.i, n, padEnd, window, fft)
    ensures r.Ok? ==> |r.value| == Max(0, NumFrames(|signal|, frameLength.i, frameStep.i, padEnd))
    ensures r.Ok? && fftLength.Some? ==>
      forall i :: 0 <= i < |r.value| ==> |r.value[i]| == fftLength.value.i / 2 + 1
    ensures r.Ok? && fftLength.None? ==>
      exists n :: SmallestPow2AtLeast(n, frameLength.i) &&
        forall i :: 0 <= i < |r.value| ==> |r.value[i]| == n / 2 + 1
  {
    var args := CheckStftArgs(frameLength, frameStep, fftLength);
    if args.Err? {
      r := Err(args.error);
    } else if args.value.fftLength.Some? {
      var a := args.value;
      r := Stft1D(signal, a.frameLength, a.frameStep, a.fftLength.value, padEnd, window, fft);
    } else {
      var a := args.value;
      var n := DefaultFftLength(a.frameLength);
      r := Stft1D(signal, a.frameLength, a.frameStep, n, padEnd, window, fft);
      assert SmallestPow2AtLeast(n, frameLength.i);
    }
  }
}
