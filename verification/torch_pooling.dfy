/** The torch frontend's pooling wrappers: how an int / 1-tuple / d-tuple
    argument is broadcast, how avg_pool chooses between the two padding
    names, the stride default, the channel-first layouts, and the lp_pool
    scaling rule. The pooling itself is the engine's. */
module TorchPooling {
  import opened Common

  /** A kernel, stride or padding argument: a bare int or a sequence. */
  datatype PoolArg = IntArg(i: int) | SeqArg(s: seq<int>)

  /** `{"1d": 1, "2d": 2, "3d": 3}[pool_dims]` */
  function PoolRank(poolDims: string): (r: Result<nat>)
    ensures r.Ok? <==> poolDims == "1d" || poolDims == "2d" || poolDims == "3d"
    ensures r.Ok? ==> 1 <= r.value <= 3
    ensures r.Err? ==> r.error == KeyError
  {
    if poolDims == "1d" then Ok(1)
    else if poolDims == "2d" then Ok(2)
    else if poolDims == "3d" then Ok(3)
    else Err(KeyError)
  }

  /** `_broadcast_pooling_helper`: an int becomes a d-tuple of it, a
      one-element sequence is repeated d times, a d-element sequence comes
      back unchanged, and any other length is a ValueError. */
  function BroadcastPoolingHelper(x: PoolArg, poolDims: string): (r: Result<seq<int>>)
    ensures r.Ok? ==> PoolRank(poolDims).Ok? && |r.value| == PoolRank(poolDims).value
    ensures x.IntArg? && PoolRank(poolDims).Ok? ==> r == Ok(Repeat(x.i, PoolRank(poolDims).value))
    ensures x.SeqArg? && |x.s| == 1 && PoolRank(poolDims).Ok? ==> r == Ok(Repeat(x.s[0], PoolRank(poolDims).value))
    ensures x.SeqArg? && PoolRank(poolDims).Ok? && |x.s| == PoolRank(poolDims).value ==> r == Ok(x.s)
    ensures r.Err? <==>
      PoolRank(poolDims).Err? || (x.SeqArg? && |x.s| != 1 && |x.s| != PoolRank(poolDims).value)
    ensures PoolRank(poolDims).Ok? && r.Err? ==> r.error == ValueError
  {
    var d :- PoolRank(poolDims);
    match x
    case IntArg(i) => Ok(Repeat(i, d))
    case SeqArg(s) =>
      if |s| == 1 then
        assert d == 1 ==> Repeat(s[0], d) == s;
        Ok(Repeat(s[0], d))
      else if |s| == d then Ok(s)
      else Err(ValueError)
  }

  /** A broadcast argument is a fixed point of the helper. */
  lemma BroadcastIdempotent(x: PoolArg, poolDims: string)
    requires BroadcastPoolingHelper(x, poolDims).Ok?
    ensures BroadcastPoolingHelper(SeqArg(BroadcastPoolingHelper(x, poolDims).value), poolDims)
         == BroadcastPoolingHelper(x, poolDims)
  {
    var d := PoolRank(poolDims).value;
    var r := BroadcastPoolingHelper(x, poolDims).value;
    if d == 1 {
      assert r == [r[0]];
      assert Repeat(r[0], 1) == r;
    }
  }

  /** A bare int and the one-element sequence holding it broadcast alike. */
  lemma BroadcastIntAsSingleton(i: int, poolDims: string)
    ensures BroadcastPoolingHelper(IntArg(i), poolDims) == BroadcastPoolingHelper(SeqArg([i]), poolDims)
  {
  }

  /** ceil(m / 2) for an integer m: the least c with 2c >= m. */
  function CeilHalf(m: int): (c: int)
    ensures 2 * c >= m && 2 * (c - 1) < m
  {
    (m + 1) / 2
  }

  /** ceil((k - 1) / 2) is k // 2 for every integer kernel size k. */
  lemma CeilHalfOfPredecessor(k: int)
    ensures CeilHalf(k - 1) == k / 2
  {
    DivModUnique(k, 2, CeilHalf(k - 1), k - 2 * CeilHalf(k - 1));
  }

  /** `all(pad == ceil((kernel - 1) / 2) for kernel, pad in zip(...))`;
      zip stops at the shorter argument. */
  predicate AllHalfKernelPads(kernel: seq<int>, padding: seq<int>) {
    forall i :: 0 <= i < |kernel| && i < |padding| ==> padding[i] == CeilHalf(kernel[i] - 1)
  }

  function ChannelFirstFormat(d: nat): string {
    if d == 1 then "NCW" else if d == 2 then "NCHW" else "NCDHW"
  }

  /** What an avg_pool wrapper hands to the engine. */
  datatype AvgPoolCall = AvgPoolCall(kernel: seq<int>, stride: PoolArg, padding: string, dataFormat: string)

  /** `avg_pool1d/2d/3d`: the stride defaults to the (unbroadcast) kernel
      size, the kernel and then the padding are broadcast, and the padding
      becomes "SAME" exactly when every pad is ceil((k - 1) / 2). */
  function AvgPool(poolDims: string, kernel: PoolArg, stride: Option<PoolArg>, padding: PoolArg): (r: Result<AvgPoolCall>)
    requires PoolRank(poolDims).Ok?
    ensures r.Ok? <==> BroadcastPoolingHelper(kernel, poolDims).Ok? && BroadcastPoolingHelper(padding, poolDims).Ok?
    ensures r.Err? ==> r.error == ValueError
    ensures r.Ok? ==> r.value.kernel == BroadcastPoolingHelper(kernel, poolDims).value
    ensures r.Ok? ==> r.value.stride == if stride.Some? then stride.value else kernel
    ensures r.Ok? ==> r.value.dataFormat == ChannelFirstFormat(PoolRank(poolDims).value)
    ensures r.Ok? ==> (r.value.padding == "SAME" || r.value.padding == "VALID")
  {
    var s := if stride.None? then kernel else stride.value;
    var k :- BroadcastPoolingHelper(kernel, poolDims);
    var p :- BroadcastPoolingHelper(padding, poolDims);
    Ok(AvgPoolCall(k, s, if AllHalfKernelPads(k, p) then "SAME" else "VALID",
                   ChannelFirstFormat(PoolRank(poolDims).value)))
  }

  /** avg_pool pads "SAME" exactly when each broadcast pad is half its
      broadcast kernel size, rounded down. */
  lemma AvgPoolSameIffHalfKernel(poolDims: string, kernel: PoolArg, stride: Option<PoolArg>, padding: PoolArg)
    requires PoolRank(poolDims).Ok?
    requires AvgPool(poolDims, kernel, stride, padding).Ok?
    ensures var k := BroadcastPoolingHelper(kernel, poolDims).value;
            var p := BroadcastPoolingHelper(padding, poolDims).value;
            AvgPool(poolDims, kernel, stride, padding).value.padding == "SAME"
            <==> forall i :: 0 <= i < |k| ==> p[i] == k[i] / 2
  {
    var k := BroadcastPoolingHelper(kernel, poolDims).value;
    forall i | 0 <= i < |k| {
      CeilHalfOfPredecessor(k[i]);
    }
  }

  /** What the max_pool wrappers hand to the engine. */
  datatype MaxPoolCall = MaxPoolCall(kernel: PoolArg, stride: PoolArg, padding: PoolArg, dilation: PoolArg,
                                     dataFormat: string)

  /** `max_pool1d/2d/3d`: only the stride default and the layout. */
  function MaxPool(poolDims: string, kernel: PoolArg, stride: Option<PoolArg>, padding: PoolArg,
                   dilation: PoolArg): (r: MaxPoolCall)
    requires PoolRank(poolDims).Ok?
    ensures r.stride == (if stride.Some? then stride.value else kernel)
    ensures r.kernel == kernel && r.padding == padding && r.dilation == dilation
    ensures r.dataFormat == ChannelFirstFormat(PoolRank(poolDims).value)
    ensures |r.dataFormat| == PoolRank(poolDims).value + 2 && r.dataFormat[..2] == "NC"
  {
    MaxPoolCall(kernel, if stride.None? then kernel else stride.value, padding, dilation,
                ChannelFirstFormat(PoolRank(poolDims).value))
  }

  /** `reduce(lambda x, y: x * y, kernel_size)`, or the int itself; reduce
      without an initial value rejects an empty sequence with TypeError. */
  function KernelMul(kernel: PoolArg): (r: Result<int>)
    ensures r.Err? <==> kernel.SeqArg? && |kernel.s| == 0
    ensures r.Err? ==> r.error == TypeError
    ensures kernel.IntArg? ==> r == Ok(kernel.i)
    ensures kernel.SeqArg? && |kernel.s| > 0 ==> r == Ok(Prod(kernel.s))
  {
    match kernel
    case IntArg(i) => Ok(i)
    case SeqArg(s) => if |s| == 0 then Err(TypeError) else Ok(Prod(s))
  }

  /** `1.0 / norm_type if norm_type != 0 else 1.0` */
  function LpExponent(normType: real): (p: real)
    ensures normType != 0.0 ==> p * normType == 1.0
    ensures normType == 0.0 ==> p == 1.0
  {
    if normType != 0.0 then 1.0 / normType else 1.0
  }

  datatype LpPoolCall = LpPoolCall(kernel: PoolArg, stride: PoolArg, padding: string, dataFormat: string,
                                   kernelMul: int, exponent: real)

  /** `lp_pool1d/2d`: "VALID" padding, the stride default, the kernel
      product and the exponent. `avgPool` is the engine's `avg_pool` on the
      powered input: `Some(e)` when it raises `e`. lp_pool1d takes the
      kernel product before pooling, lp_pool2d after it, so the two report
      different errors for a bad kernel. */
  function LpPool(poolDims: string, normType: real, kernel: PoolArg, stride: Option<PoolArg>,
                  avgPool: Option<Error>): (r: Result<LpPoolCall>)
    requires poolDims == "1d" || poolDims == "2d"
    ensures r.Ok? <==> KernelMul(kernel).Ok? && avgPool.None?
    ensures poolDims == "1d" && KernelMul(kernel).Err? ==> r == Err(TypeError)
    ensures poolDims == "1d" && KernelMul(kernel).Ok? && avgPool.Some? ==> r == Err(avgPool.value)
    ensures poolDims == "2d" && avgPool.Some? ==> r == Err(avgPool.value)
    ensures poolDims == "2d" && avgPool.None? && KernelMul(kernel).Err? ==> r == Err(TypeError)
    ensures r.Ok? ==> r.value.padding == "VALID" && r.value.kernelMul == KernelMul(kernel).value
    ensures r.Ok? ==> r.value.stride == (if stride.Some? then stride.value else kernel)
    ensures r.Ok? ==> r.value.exponent == LpExponent(normType)
    ensures r.Ok? ==> r.value.dataFormat == ChannelFirstFormat(PoolRank(poolDims).value)
  {
    if poolDims == "1d" then
      var m :- KernelMul(kernel);
      var _ :- Pooled(avgPool);
      Ok(LpPoolCall(kernel, if stride.None? then kernel else stride.value, "VALID",
                    ChannelFirstFormat(PoolRank(poolDims).value), m, LpExponent(normType)))
    else
      var _ :- Pooled(avgPool);
      var m :- KernelMul(kernel);
      Ok(LpPoolCall(kernel, if stride.None? then kernel else stride.value, "VALID",
                    ChannelFirstFormat(PoolRank(poolDims).value), m, LpExponent(normType)))
  }

  /** The outcome of an engine call that returns nothing the model keeps. */
  function Pooled(outcome: Option<Error>): (r: Result<bool>)
    ensures r.Ok? <==> outcome.None?
    ensures r.Err? ==> r.error == outcome.value
  {
    match outcome
    case None => Ok(true)
    case Some(e) => Err(e)
  }

  /** One output element of lp_pool: pow(avg_pool(pow(x, p)) * kernel_mul,
      exponent) over one VALID window. */
  function LpPoolWindow(window: seq<real>, normType: real, kernelMul: int, pow: (real, real) -> real): real
    requires |window| > 0
  {
    var powered := seq(|window|, i requires 0 <= i < |window| => pow(window[i], normType));
    pow(Sum(powered) / |window| as real * kernelMul as real, LpExponent(normType))
  }

  /** When the window holds kernel_mul elements, as a VALID window does,
      multiplying the average back by kernel_mul recovers the sum, so each
      output is the norm_type-norm (sum of powers)^(1/norm_type). */
  lemma LpPoolWindowIsNorm(window: seq<real>, normType: real, pow: (real, real) -> real)
    requires |window| > 0
    ensures LpPoolWindow(window, normType, |window|, pow)
         == pow(Sum(seq(|window|, i requires 0 <= i < |window| => pow(window[i], normType))), LpExponent(normType))
  {
    var powered := seq(|window|, i requires 0 <= i < |window| => pow(window[i], normType));
    var n := |window| as real;
    assert Sum(powered) / n * n == Sum(powered);
  }
}
