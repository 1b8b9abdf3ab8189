/** The paddle frontend's `Tensor`: a mutable wrapper around an engine
    array. Out-of-place methods build a new wrapper; the `*_` methods
    compute the same value and store it in this wrapper's array, returning
    the wrapper itself. The engine's numerical kernels are parameters. */
module PaddleTensor {
  import opened Common

  /** An engine array: its shape, its elements in row-major order, and its
      dtype. */
  datatype IvyArray = IvyArray(shape: seq<nat>, data: seq<real>, dtype: DType)

  /** What the constructor may be given: an engine array, or nested
      numbers that the engine turns into one. */
  datatype ArrayLike = Native(a: IvyArray) | Nested(shape: seq<nat>, data: seq<real>)

  /** A positional argument of `reshape`: an int or a tuple/list. */
  datatype PyArg = IntArg(i: int) | SeqArg(s: seq<int>)

  /** The shape `reshape` hands on: the `shape=` keyword or a leading
      tuple/list, the positional tuple itself, or no shape at all. */
  datatype ReshapeTarget = ShapeSeq(s: seq<int>) | ArgsTuple(args: seq<PyArg>) | NoShape

  /** The `axis` argument of `squeeze_`: None, an int, or a list. */
  datatype SqueezeAxis = NoAxis | IntAxis(i: int) | AxisList(axes: seq<int>)

  /** The engine kernels the in-place methods call. */
  datatype Engine = Engine(
    ceil: IvyArray -> IvyArray,
    floor: IvyArray -> IvyArray,
    sqrt: IvyArray -> IvyArray,
    exp: IvyArray -> IvyArray,
    reciprocal: IvyArray -> IvyArray,
    lerp: (IvyArray, IvyArray, IvyArray) -> IvyArray,
    subtract: (IvyArray, IvyArray) -> IvyArray,
    add: (IvyArray, IvyArray) -> IvyArray,
    remainder: (IvyArray, IvyArray) -> IvyArray,
    expandDims: (IvyArray, Option<int>) -> IvyArray,
    squeeze: (IvyArray, SqueezeAxis) -> IvyArray,
    clip: (IvyArray, real, real) -> IvyArray)

  /** The `*_` methods, each named after its out-of-place counterpart. */
  datatype InPlaceOp =
    | Ceil | Floor | Sqrt | Rsqrt | Exp | Zero
    | Lerp(y: IvyArray, weight: IvyArray)
    | Subtract(y: IvyArray) | Add(y: IvyArray) | Remainder(y: IvyArray)
    | Unsqueeze(axis: Option<int>)

  /** `ivy.zeros_like`: same shape and dtype, every element 0. */
  function ZerosLike(x: IvyArray): (r: IvyArray)
    ensures r.shape == x.shape && r.dtype == x.dtype && |r.data| == |x.data|
    ensures forall i :: 0 <= i < |r.data| ==> r.data[i] == 0.0
  {
    IvyArray(x.shape, seq(|x.data|, _ => 0.0), x.dtype)
  }

  /** The out-of-place result whose array each `*_` method stores. */
  function OutOfPlace(op: InPlaceOp, e: Engine, x: IvyArray): (r: IvyArray)
    ensures op.Zero? ==> r.shape == x.shape && r.dtype == x.dtype && |r.data| == |x.data|
    ensures op.Zero? ==> forall i :: 0 <= i < |r.data| ==> r.data[i] == 0.0
    ensures op.Rsqrt? ==> r == e.reciprocal(e.sqrt(x))
    ensures op.Unsqueeze? ==> r == e.expandDims(x, op.axis)
    ensures op.Lerp? ==> r == e.lerp(x, op.y, op.weight)
  {
    match op
    case Ceil => e.ceil(x)
    case Floor => e.floor(x)
    case Sqrt => e.sqrt(x)
    case Rsqrt => e.reciprocal(e.sqrt(x))
    case Exp => e.exp(x)
    case Zero => ZerosLike(x)
    case Lerp(y, w) => e.lerp(x, y, w)
    case Subtract(y) => e.subtract(x, y)
    case Add(y) => e.add(x, y)
    case Remainder(y) => e.remainder(x, y)
    case Unsqueeze(axis) => e.expandDims(x, axis)
  }

  /** `zero_` keeps the shape and dtype and clears every element, and doing
      it twice is doing it once. */
  lemma ZeroClears(e: Engine, x: IvyArray)
    ensures OutOfPlace(Zero, e, x).shape == x.shape && OutOfPlace(Zero, e, x).dtype == x.dtype
    ensures forall i :: 0 <= i < |OutOfPlace(Zero, e, x).data| ==> OutOfPlace(Zero, e, x).data[i] == 0.0
    ensures OutOfPlace(Zero, e, OutOfPlace(Zero, e, x)) == OutOfPlace(Zero, e, x)
  {
  }

  /** `ivy.minimum(x, m)` against a scalar, element by element. */
  function MinimumScalar(x: IvyArray, m: real): (r: IvyArray)
    ensures r.shape == x.shape && r.dtype == x.dtype && |r.data| == |x.data|
    ensures forall i :: 0 <= i < |r.data| ==> r.data[i] <= m && r.data[i] <= x.data[i]
    ensures forall i :: 0 <= i < |r.data| ==> (r.data[i] == m || r.data[i] == x.data[i])
  {
    IvyArray(x.shape, seq(|x.data|, i requires 0 <= i < |x.data| => if x.data[i] <= m then x.data[i] else m), x.dtype)
  }

  /** `ivy.maximum(x, m)` against a scalar, element by element. */
  function MaximumScalar(x: IvyArray, m: real): (r: IvyArray)
    ensures r.shape == x.shape && r.dtype == x.dtype && |r.data| == |x.data|
    ensures forall i :: 0 <= i < |r.data| ==> r.data[i] >= m && r.data[i] >= x.data[i]
    ensures forall i :: 0 <= i < |r.data| ==> (r.data[i] == m || r.data[i] == x.data[i])
  {
    IvyArray(x.shape, seq(|x.data|, i requires 0 <= i < |x.data| => if x.data[i] >= m then x.data[i] else m), x.dtype)
  }

  /** `Tensor.clip`: at least one bound must be given; with only `max` it
      is an elementwise minimum, with only `min` an elementwise maximum,
      and with both the engine's clip. */
  function Clip(e: Engine, x: IvyArray, min: Option<real>, max: Option<real>): (r: Result<IvyArray>)
    ensures r.Err? <==> min.None? && max.None?
    ensures r.Err? ==> r.error == IvyException
    ensures min.None? && max.Some? ==> r == Ok(MinimumScalar(x, max.value))
    ensures min.Some? && max.None? ==> r == Ok(MaximumScalar(x, min.value))
    ensures min.Some? && max.Some? ==> r == Ok(e.clip(x, min.value, max.value))
  {
    if min.None? && max.None? then Err(IvyException)
    else if min.None? then Ok(MinimumScalar(x, max.value))
    else if max.None? then Ok(MaximumScalar(x, min.value))
    else Ok(e.clip(x, min.value, max.value))
  }

  /** A one-sided clip bounds every element on that side, keeps the shape,
      and is idempotent. */
  lemma OneSidedClipBounds(e: Engine, x: IvyArray, min: Option<real>, max: Option<real>)
    requires min.None? != max.None?
    ensures Clip(e, x, min, max).Ok?
    ensures Clip(e, x, min, max).value.shape == x.shape
    ensures max.Some? ==> forall i :: 0 <= i < |Clip(e, x, min, max).value.data| ==>
      Clip(e, x, min, max).value.data[i] <= max.value
    ensures min.Some? ==> forall i :: 0 <= i < |Clip(e, x, min, max).value.data| ==>
      Clip(e, x, min, max).value.data[i] >= min.value
    ensures Clip(e, Clip(e, x, min, max).value, min, max) == Clip(e, x, min, max)
  {
    var once := Clip(e, x, min, max).value;
    if max.Some? {
      assert MinimumScalar(once, max.value).data == once.data;
    } else {
      assert MaximumScalar(once, min.value).data == once.data;
    }
  }

  /** `Tensor.reshape(*args, shape=None)`: giving both positional
      arguments and a non-empty `shape=` is a TypeError; otherwise `shape=`
      wins when present, then a leading tuple/list, then the positional
      tuple itself. An empty `shape=()` is falsy, so it does not clash with
      positional arguments, yet it is still the shape used. */
  function Reshape(args: seq<PyArg>, shape: Option<seq<int>>): (r: Result<ReshapeTarget>)
    ensures r.Err? <==> |args| > 0 && shape.Some? && |shape.value| > 0
    ensures r.Err? ==> r.error == TypeError
    ensures r.Ok? && shape.Some? ==> r.value == ShapeSeq(shape.value)
    ensures r.Ok? && shape.None? && |args| > 0 && args[0].SeqArg? ==> r.value == ShapeSeq(args[0].s)
    ensures r.Ok? && shape.None? && |args| > 0 && args[0].IntArg? ==> r.value == ArgsTuple(args)
    ensures r.Ok? && r.value == NoShape <==> shape.None? && |args| == 0
  {
    if |args| > 0 && shape.Some? && |shape.value| > 0 then Err(TypeError)
    else if shape.Some? then Ok(ShapeSeq(shape.value))
    else if |args| > 0 then
      (if args[0].SeqArg? then Ok(ShapeSeq(args[0].s)) else Ok(ArgsTuple(args)))
    else Ok(NoShape)
  }

  /** The tuple and the spread spelling of a shape agree whenever the
      keyword is left out: `t.reshape((2, 3))` and `t.reshape([2, 3])` name
      the same shape. */
  lemma ReshapeTupleOrList(s: seq<int>)
    ensures Reshape([SeqArg(s)], None) == Ok(ShapeSeq(s))
    ensures Reshape([], Some(s)) == Ok(ShapeSeq(s))
  {
  }

  class Tensor {
    var ivyArray: IvyArray
    const ctorDtype: Option<DType>
    const place: string
    const stopGradient: bool

    /** `__init__`: an engine array is wrapped as it is, whatever `dtype`
        says; nested numbers become an engine array of `dtype`, or of the
        dtype the engine infers when none is given. */
    constructor (source: ArrayLike, dtype: Option<DType>, place: string, stopGradient: bool, inferred: DType)
      ensures source.Native? ==> ivyArray == source.a
      ensures source.Nested? ==> ivyArray.shape == source.shape && ivyArray.data == source.data
      ensures source.Nested? ==> ivyArray.dtype == if dtype.Some? then dtype.value else inferred
      ensures ctorDtype == dtype && this.place == place && this.stopGradient == stopGradient
    {
      ivyArray := match source
        case Native(a) => a
        case Nested(shape, data) => IvyArray(shape, data, if dtype.Some? then dtype.value else inferred);
      ctorDtype := dtype;
      this.place := place;
      this.stopGradient := stopGradient;
    }

    /** The `dtype` property: the wrapped array's dtype. */
    function Dtype(): (d: DType)
      reads this
      ensures d == ivyArray.dtype
    {
      ivyArray.dtype
    }

    /** `dim()`: the wrapped array's number of dimensions. */
    function Dim(): (n: nat)
      reads this
      ensures n == |ivyArray.shape|
    {
      |ivyArray.shape|
    }

    /** The `ndim` property, which calls `dim()`. */
    function NDim(): (n: nat)
      reads this
      ensures n == Dim()
    {
      Dim()
    }

    /** `__setitem__`: item assignment is always refused and nothing
        changes. */
    method SetItem(item: int, value: IvyArray) returns (r: Result<Tensor>)
      ensures r == Err(IvyException)
    {
      r := Err(IvyException);
    }

    /** `__iter__`: a 0-d tensor cannot be iterated; any other yields
        self[0], ..., self[shape[0] - 1]. */
    function Iter(getItem: (IvyArray, int) -> IvyArray): (r: Result<seq<IvyArray>>)
      reads this
      ensures r.Err? <==> NDim() == 0
      ensures r.Err? ==> r.error == TypeError
      ensures r.Ok? ==> |r.value| == ivyArray.shape[0]
      ensures r.Ok? ==> forall i :: 0 <= i < |r.value| ==> r.value[i] == getItem(ivyArray, i)
    {
      var a := ivyArray;
      if NDim() == 0 then Err(TypeError)
      else Ok(seq(a.shape[0], i => getItem(a, i)))
    }

    /** Every `*_` method: the wrapped array becomes the out-of-place
        result, and the tensor itself is returned. */
    method ApplyInPlace(op: InPlaceOp, e: Engine) returns (self: Tensor)
      modifies this
      ensures self == this
      ensures ivyArray == OutOfPlace(op, e, old(ivyArray))
    {
      ivyArray := OutOfPlace(op, e, ivyArray);
      self := this;
    }

    /** `clip_`: the same checks and values as `clip`, stored in place. */
    method ClipInPlace(e: Engine, min: Option<real>, max: Option<real>) returns (r: Result<Tensor>)
      modifies this
      ensures r.Err? <==> Clip(e, old(ivyArray), min, max).Err?
      ensures r.Err? ==> r.error == IvyException && ivyArray == old(ivyArray)
      ensures r.Ok? ==> r.value == this && ivyArray == Clip(e, old(ivyArray), min, max).value
    {
      if min.None? && max.None? {
        return Err(IvyException);
      }
      if min.None? {
        ivyArray := MinimumScalar(ivyArray, max.value);
      } else if max.None? {
        ivyArray := MaximumScalar(ivyArray, min.value);
      } else {
        ivyArray := e.clip(ivyArray, min.value, max.value);
      }
      r := Ok(this);
    }

    /** `squeeze_`: an int axis naming a dimension longer than 1 leaves the
        tensor as it is (an axis outside the shape is an IndexError), and so
        does a 0-d tensor; otherwise the array is replaced by its squeeze. */
    method SqueezeInPlace(e: Engine, axis: SqueezeAxis) returns (r: Result<Tensor>)
      modifies this
      ensures r.Ok? ==> r.value == this
      ensures r.Err? <==> axis.IntAxis? && |old(ivyArray.shape)| > 0 && PyIndex(old(ivyArray.shape), axis.i).Err?
      ensures r.Err? ==> r.error == IndexError && ivyArray == old(ivyArray)
      ensures r.Ok? && axis.IntAxis? && |old(ivyArray.shape)| > 0 && PyIndex(old(ivyArray.shape), axis.i).value > 1
        ==> ivyArray == old(ivyArray)
      ensures r.Ok? && |old(ivyArray.shape)| == 0 ==> ivyArray == old(ivyArray)
      ensures r.Ok? && |old(ivyArray.shape)| > 0 &&
        !(axis.IntAxis? && PyIndex(old(ivyArray.shape), axis.i).value > 1)
        ==> ivyArray == e.squeeze(old(ivyArray), axis)
    {
      if axis.IntAxis? && NDim() > 0 {
        var size := PyIndex(ivyArray.shape, axis.i);
        if size.Err? {
          return Err(IndexError);
        }
        if size.value > 1 {
          return Ok(this);
        }
      }
      if |ivyArray.shape| == 0 {
        return Ok(this);
      }
      ivyArray := e.squeeze(ivyArray, axis);
      r := Ok(this);
    }
  }
}
