/** The tensorflow backend's experimental manipulation kernels
    (ivy/functional/backends/tensorflow/experimental/manipulation.py): the
    index and shape glue around the native tf calls, which stay parameters. */
module TfManipulation {
  import opened Common
  import opened ManipulationSpec

  // ---------------------------------------------------------------------
  // padding

  /** One item of a `pad_width` list: a number, or a list of numbers. */
  datatype PadEntry = Num(n: int) | Items(xs: seq<int>)

  /** A `pad_width` argument: a single number or a list of items. */
  datatype PadWidth = Number(p: int) | PadList(entries: seq<PadEntry>)

  /** `_to_tf_padding`: a number p becomes ndim pairs [p, p]; a two-item list
      whose first item is a number is list-repeated ndim times, giving a FLAT
      list of 2·ndim numbers rather than pairs; anything else is unchanged. */
  function ToTfPadding(pw: PadWidth, ndim: nat): (r: PadWidth)
    ensures r.PadList?
    ensures pw.Number? ==> |r.entries| == ndim
    ensures pw.Number? ==> forall i :: 0 <= i < ndim ==> r.entries[i] == Items([pw.p, pw.p])
    ensures pw.PadList? && |pw.entries| == 2 && pw.entries[0].Num? ==> |r.entries| == 2 * ndim
    ensures pw.PadList? && |pw.entries| == 2 && pw.entries[0].Num? ==>
      forall i :: 0 <= i < 2 * ndim ==> r.entries[i] == pw.entries[i % 2]
    ensures pw.PadList? && !(|pw.entries| == 2 && pw.entries[0].Num?) ==> r == pw
  {
    match pw
    case Number(p) => PadList(Repeat(Items([p, p]), ndim))
    case PadList(e) =>
      if |e| == 2 && e[0].Num? then
        var r := PadList(RepeatList(e, ndim));
        assert forall i :: 0 <= i < 2 * ndim ==> r.entries[i] == e[i % 2] by {
          forall i | 0 <= i < 2 * ndim ensures r.entries[i] == e[i % 2] {
            RepeatListAt(e, ndim, i);
          }
        }
        r
      else pw
  }

  predicate Within(pad: int, size: int, strict: bool) {
    if strict then pad < size else pad <= size
  }

  /** Every axis i from `from` on has a pair whose two pads are within its size. */
  predicate AllPadsWithin(entries: seq<PadEntry>, shape: seq<nat>, strict: bool, from: nat) {
    forall i :: from <= i < |shape| ==> PairWithin(entries, shape, strict, i)
  }

  /** Axis i has a pair `[before, after, ...]` whose two pads are within its size. */
  predicate PairWithin(entries: seq<PadEntry>, shape: seq<nat>, strict: bool, i: nat)
    requires i < |shape|
  {
    i < |entries| && entries[i].Items? && |entries[i].xs| >= 2
    && Within(entries[i].xs[0], shape[i], strict) && Within(entries[i].xs[1], shape[i], strict)
  }

  lemma AllPadsWithinStep(entries: seq<PadEntry>, shape: seq<nat>, strict: bool, from: nat)
    requires from < |shape|
    ensures AllPadsWithin(entries, shape, strict, from) <==>
      (PairWithin(entries, shape, strict, from) && AllPadsWithin(entries, shape, strict, from + 1))
  {
    if AllPadsWithin(entries, shape, strict, from) {
      assert PairWithin(entries, shape, strict, from);
    }
  }

  /** `all(pad_width[i][0] < s and pad_width[i][1] < s for i, s in enumerate(shape))`
      (`<=` when not strict), evaluated left to right: the first axis whose
      pair is missing or is a bare number raises IndexError / TypeError, the
      first pad outside its axis answers False. */
  function CheckPads(entries: seq<PadEntry>, shape: seq<nat>, strict: bool, from: nat): (r: Result<bool>)
    ensures r == Ok(true) <==> AllPadsWithin(entries, shape, strict, from)
    decreases |shape| - from
  {
    if from >= |shape| then Ok(true)
    else
      AllPadsWithinStep(entries, shape, strict, from);
      if from >= |entries| then Err(IndexError)
    else match entries[from]
      case Num(_) => Err(TypeError)
      case Items(xs) =>
        if |xs| == 0 then Err(IndexError)
        else if !Within(xs[0], shape[from], strict) then Ok(false)
        else if |xs| == 1 then Err(IndexError)
        else if !Within(xs[1], shape[from], strict) then Ok(false)
        else CheckPads(entries, shape, strict, from + 1)
  }

  /** `_check_tf_pad`: may the native tf pad serve this call? */
  function CheckTfPad(shape: seq<nat>, pw: PadWidth, mode: string, constantIsNumber: bool,
                      reflectType: string): (r: Result<bool>)
    ensures r == Ok(true) <==>
      constantIsNumber &&
      (mode == "constant" ||
       (reflectType == "even" &&
        ((mode == "reflect" && AllPadsWithin(ToTfPadding(pw, |shape|).entries, shape, true, 0)) ||
         (mode == "symmetric" && AllPadsWithin(ToTfPadding(pw, |shape|).entries, shape, false, 0)))))
    ensures !constantIsNumber ==> r == Ok(false)
    ensures constantIsNumber && mode == "constant" ==> r == Ok(true)
    ensures mode != "constant" && mode != "reflect" && mode != "symmetric" ==> r == Ok(false)
  {
    var p := ToTfPadding(pw, |shape|);
    if !constantIsNumber then Ok(false)
    else if mode == "constant" then Ok(true)
    else if reflectType != "even" then Ok(false)
    else if mode == "reflect" then CheckPads(p.entries, shape, true, 0)
    else if mode == "symmetric" then CheckPads(p.entries, shape, false, 0)
    else Ok(false)
  }

  /** Reflect-padding is only eligible when it is eligible as symmetric
      padding too, since a pad below the axis size is also at most the size. */
  lemma ReflectEligibleImpliesSymmetric(shape: seq<nat>, pw: PadWidth, constantIsNumber: bool)
    ensures CheckTfPad(shape, pw, "reflect", constantIsNumber, "even") == Ok(true) ==>
            CheckTfPad(shape, pw, "symmetric", constantIsNumber, "even") == Ok(true)
  {
    var e := ToTfPadding(pw, |shape|).entries;
    if AllPadsWithin(e, shape, true, 0) {
      forall i | 0 <= i < |shape| ensures PairWithin(e, shape, false, i) {
        assert PairWithin(e, shape, true, i);
      }
    }
  }

  // ---------------------------------------------------------------------
  // take_along_axis

  /** The data line along the axis has the axis length, whenever the axis
      names a dimension. */
  predicate LineFits(shape: seq<nat>, axis: int, line: seq<Scalar>) {
    var a := PyIndex(shape, NormAxis(axis, |shape|));
    a.Ok? ==> |line| == a.value
  }

  /** `take_along_axis` on one line along the axis: `line` holds the values
      of `arr` along the axis, `indices` the indices to gather along it. The
      indices are cast to int32 before anything else happens to them. Clip
      mode reads the axis length first; fill and drop mode pick the dtype's
      sentinel first, so a bool array fails with TypeError even when the axis
      is out of range. */
  function TakeAlongAxis(arrShape: seq<nat>, idxShape: seq<nat>, axis: int, mode: string,
                         dtype: DType, line: seq<Scalar>, indices: seq<int>): (r: Result<seq<Scalar>>)
    requires LineFits(arrShape, axis, line)
    ensures |arrShape| != |idxShape| ==> r == Err(IvyException)
    ensures |arrShape| == |idxShape| && !ValidTakeMode(mode) ==> r == Err(ValueError)
    ensures (|arrShape| == |idxShape| && (mode == "fill" || mode == "drop") && dtype == Bool) ==>
      r == Err(TypeError)
    ensures (|arrShape| == |idxShape| && (mode == "clip" || ((mode == "fill" || mode == "drop") && dtype != Bool))
             && PyIndex(arrShape, NormAxis(axis, |arrShape|)).Err?) ==> r == Err(IndexError)
    ensures r.Ok? ==> |r.value| == |indices|
    ensures (|arrShape| == |idxShape| && mode == "clip" && |line| >= 1
             && PyIndex(arrShape, NormAxis(axis, |arrShape|)).Ok?) ==>
      r.Ok? && forall j :: 0 <= j < |indices| ==>
        r.value[j] == line[ClipIndex(WrapSigned(indices[j], HALF32), |line|)]
    ensures (|arrShape| == |idxShape| && (mode == "fill" || mode == "drop") && dtype != Bool
             && PyIndex(arrShape, NormAxis(axis, |arrShape|)).Ok?) ==>
      r.Ok? && forall j :: 0 <= j < |indices| ==>
        var i := WrapSigned(indices[j], HALF32);
        r.value[j] == if 0 <= i < |line| then line[i] else FillValue(dtype).value
  {
    if |arrShape| != |idxShape| then Err(IvyException)
    else
      var idx := seq(|indices|, j requires 0 <= j < |indices| => WrapSigned(indices[j], HALF32));
      if !ValidTakeMode(mode) then Err(ValueError)
      else if mode == "clip" then
        var n :- PyIndex(arrShape, NormAxis(axis, |arrShape|));
        GatherLine(line, seq(|idx|, j requires 0 <= j < |idx| => ClipIndex(idx[j], n)))
      else
        // the sentinel is chosen before the axis length is read
        var fill :- FillValue(dtype);
        var n :- PyIndex(arrShape, NormAxis(axis, |arrShape|));
        Ok(SentinelGather(line, fill, idx))
  }

  /** The fill and drop path of `take_along_axis`: the sentinel `fill` is
      appended to the line and every index outside [0, |line|) becomes -1,
      which picks the sentinel. */
  function SentinelGather(line: seq<Scalar>, fill: Scalar, idx: seq<int>): (r: seq<Scalar>)
    ensures |r| == |idx|
    ensures forall j :: 0 <= j < |idx| ==> r[j] == if 0 <= idx[j] < |line| then line[idx[j]] else fill
  {
    var n := |line|;
    var remapped := seq(|idx|, j requires 0 <= j < |idx| => if idx[j] < 0 || idx[j] >= n then -1 else idx[j]);
    var g := GatherLine(line + [fill], remapped);
    assert g.Ok?;
    g.value
  }

  // ---------------------------------------------------------------------
  // unique_consecutive

  /** Two slices differ when any of their entries differ (`diff != 0`). */
  predicate ExactDiffer(a: seq<real>, b: seq<real>) {
    a != b
  }

  /** `unique_consecutive`: `x` holds the slices along the axis (when `axis`
      is None, the flattened elements as one-element slices, and
      `flattenedFrom` the original shape). `unique` is the native UniqueV2
      applied to one sub-array. */
  function UniqueConsecutive(x: seq<seq<real>>, flattenedFrom: Option<seq<nat>>,
                             unique: seq<seq<real>> -> seq<seq<real>>): (r: UniqueResult<seq<real>>)
    ensures SumInt(r.counts) == |x|
    ensures |x| > 0 ==> forall k :: 0 <= k < |r.counts| ==> r.counts[k] >= 1
    ensures |x| == 0 ==> r.counts == [0]
    ensures r.inverse == RunIds(x, ExactDiffer)
    ensures |x| > 0 ==> |r.counts| == r.inverse[|x| - 1] + 1
    ensures r.inverseShape == if flattenedFrom.Some? then flattenedFrom.value else [|x|]
  {
    // a TensorShape is truthy whenever its rank is known, even for a 0-d input
    var inverseShape := if flattenedFrom.Some? then flattenedFrom.value else [|x|];
    ConsecutiveRuns(x, ExactDiffer, unique, inverseShape)
  }

  // ---------------------------------------------------------------------
  // fill_diagonal

  /** `tensor_scatter_nd_update(a, indices, [v] * len(indices))` */
  function ScatterUpdate(a: seq<real>, indices: seq<int>, v: real): (r: seq<real>)
    ensures |r| == |a|
    ensures forall j :: 0 <= j < |a| && j in indices ==> r[j] == v
    ensures forall j :: 0 <= j < |a| && j !in indices ==> r[j] == a[j]
  {
    seq(|a|, j requires 0 <= j < |a| => if j in indices then v else a[j])
  }

  /** Appending the next multiple of step keeps `indices` the multiples
      below the loop counter. */
  lemma {:induction false} MultiplesExtend(indices: seq<int>, i: int, step: int)
    requires step >= 1 && i >= 0 && i % step == 0
    requires forall j :: j in indices <==> 0 <= j < i && j % step == 0
    ensures (i + step) % step == 0
    ensures forall j :: j in indices + [i] <==> 0 <= j < i + step && j % step == 0
  {
    NextMultiple(i, step);
  }

  /** When the counter first passes `end`, the collected multiples are
      exactly those below `end`. */
  lemma {:induction false} MultiplesCut(indices: seq<int>, i: int, step: int, end: int)
    requires step >= 1 && i >= 0 && i % step == 0 && i >= end
    requires i == 0 || i - step < end
    requires forall j :: j in indices <==> 0 <= j < i && j % step == 0
    ensures forall j :: j in indices <==> 0 <= j < end && j % step == 0
  {
    NoMultipleInTail(i, step, end);
  }

  /** `fill_diagonal`: build `[[i] for i in range(0, end, step)]`, then
      scatter v into the flattened tensor at those positions. */
  method FillDiagonal(shape: seq<nat>, a: seq<real>, v: real, wrap: bool) returns (r: seq<real>)
    requires |a| == Prod(shape)
    ensures r == FilledDiagonal(shape, wrap, a, v)
  {
    var step := DiagonalStep(shape);
    var end := DiagonalEnd(shape, wrap);
    var indices: seq<int> := [];
    var i := 0;
    while i < end
      invariant i >= 0 && i % step == 0
      invariant i == 0 || i - step < end
      invariant forall j :: j in indices <==> 0 <= j < i && j % step == 0
    {
      MultiplesExtend(indices, i, step);
      indices := indices + [i];
      i := i + step;
    }
    MultiplesCut(indices, i, step, end);
    r := ScatterUpdate(a, indices, v);
  }

  // ---------------------------------------------------------------------
  // top_k

  /** `top_k` on a 1-D tensor: rank by `argsort(-x)` when `largest`, by
      `argsort(x)` otherwise; `argsort` and `sort` are the native calls. The
      axis must name the single dimension. */
  function TopK(x: seq<real>, k: int, axis: int, largest: bool, sorted: bool,
                argsort: seq<real> -> seq<int>, sortIdx: seq<int> -> seq<int>): (r: Result<TopK>)
    requires forall s :: |argsort(s)| == |s|
    requires forall s, i :: 0 <= i < |s| ==> 0 <= argsort(s)[i] < |s|
    requires forall s :: multiset(sortIdx(s)) == multiset(s)
    requires forall s :: Ascending(sortIdx(s))
    ensures r.Ok? <==> -1 <= axis <= 0
    ensures r.Ok? ==> |r.value.indices| == Max(0, Min(k, |x|)) && |r.value.values| == |r.value.indices|
    ensures r.Ok? ==> forall j :: 0 <= j < |r.value.indices| ==>
      0 <= r.value.indices[j] < |x| && r.value.values[j] == x[r.value.indices[j]]
    ensures r.Ok? && !sorted ==> Ascending(r.value.indices)
  {
    match PyIndex([|x|], axis)
    case Err(e) => Err(e)
    case Ok(_) =>
      var order := if largest then argsort(Negate(x)) else argsort(x);
      assert |order| == |x|;
      Ok(SelectTopK(x, order, k, sorted, sortIdx))
  }

  /** With a true argsort, `top_k(largest=True)` keeps values no smaller than
      any value it leaves out, in descending order when `sorted`. */
  lemma TopKLargest(x: seq<real>, k: int, sorted: bool,
                    argsort: seq<real> -> seq<int>, sortIdx: seq<int> -> seq<int>)
    requires forall s :: IsArgsort(s, argsort(s))
    requires forall s :: |argsort(s)| == |s|
    requires forall s, i :: 0 <= i < |s| ==> 0 <= argsort(s)[i] < |s|
    requires forall s :: multiset(sortIdx(s)) == multiset(s)
    requires forall s :: Ascending(sortIdx(s))
    ensures var r := TopK(x, k, -1, true, sorted, argsort, sortIdx);
      r.Ok? &&
      (forall i, j :: 0 <= i < |x| && i !in r.value.indices && 0 <= j < |r.value.values| ==>
        x[i] <= r.value.values[j]) &&
      (sorted ==> forall j1, j2 :: 0 <= j1 < j2 < |r.value.values| ==> r.value.values[j2] <= r.value.values[j1])
  {
    assert IsArgsort(Negate(x), argsort(Negate(x)));
    SelectTopKRanks(x, Negate(x), argsort(Negate(x)), k, sorted, sortIdx);
  }

  // ---------------------------------------------------------------------
  // broadcast_shapes

  /** What `broadcast_shapes` returns: a broadcast shape, or (for a single
      argument) a list holding that argument. */
  datatype BroadcastOut = Shape(dims: seq<int>) | ListOfShapes(shapes: seq<seq<int>>)

  /** The pairwise fold: the first failure is the result, and a pairwise
      broadcast that never fails makes the fold succeed. */
  function FoldBroadcast(acc: Result<seq<int>>, rest: seq<seq<int>>,
                         bcast: (seq<int>, seq<int>) -> Result<seq<int>>): (r: Result<seq<int>>)
    ensures acc.Err? || rest == [] ==> r == acc
    ensures acc.Ok? && (forall a, b :: bcast(a, b).Ok?) ==> r.Ok?
    ensures r.Err? ==> acc.Err? || exists i, a :: 0 <= i < |rest| && bcast(a, rest[i]) == r
    decreases |rest|
  {
    if rest == [] || acc.Err? then acc
    else FoldBroadcast(bcast(acc.value, rest[0]), rest[1..], bcast)
  }

  /** `broadcast_shapes`: with two or more shapes, fold the native pairwise
      `broadcast_dynamic_shape` over them; with one shape, return `[shape]`
      (a list holding it, not the shape); with none, `shapes[0]` is an
      IndexError. A failure of the native broadcast is raised as it is. */
  function BroadcastShapes(shapes: seq<seq<int>>,
                           bcast: (seq<int>, seq<int>) -> Result<seq<int>>): (r: Result<BroadcastOut>)
    ensures |shapes| == 0 ==> r == Err(IndexError)
    ensures |shapes| == 1 ==> r == Ok(ListOfShapes([shapes[0]]))
    ensures |shapes| >= 2 ==>
      var folded := FoldBroadcast(bcast(shapes[0], shapes[1]), shapes[2..], bcast);
      (r.Ok? <==> folded.Ok?) &&
      (folded.Ok? ==> r.value == Shape(folded.value)) &&
      (folded.Err? ==> r.error == folded.error)
  {
    if |shapes| == 0 then Err(IndexError)
    else if |shapes| == 1 then Ok(ListOfShapes([shapes[0]]))
    else
      match FoldBroadcast(bcast(shapes[0], shapes[1]), shapes[2..], bcast)
      case Ok(s) => Ok(Shape(s))
      case Err(e) => Err(e)
  }

  /** NumPy's broadcasting rule for two shapes, aligned at the last axis:
      equal sizes stay, a size 1 yields to the other, anything else fails. */
  function BroadcastPair(s1: seq<int>, s2: seq<int>): (r: Result<seq<int>>)
    ensures r.Ok? ==> |r.value| == Max(|s1|, |s2|)
    ensures r.Err? ==> r.error == BroadcastError
    decreases |s1| + |s2|
  {
    if s1 == [] then Ok(s2)
    else if s2 == [] then Ok(s1)
    else
      var a, b := s1[|s1| - 1], s2[|s2| - 1];
      match BroadcastPair(s1[..|s1| - 1], s2[..|s2| - 1])
      case Err(e) => Err(e)
      case Ok(front) =>
        if a == b || b == 1 then Ok(front + [a])
        else if a == 1 then Ok(front + [b])
        else Err(BroadcastError)
  }

  lemma {:induction false} BroadcastPairSame(s: seq<int>)
    ensures BroadcastPair(s, s) == Ok(s)
    decreases |s|
  {
    if s != [] {
      var front := s[..|s| - 1];
      BroadcastPairSame(front);
      assert BroadcastPair(s, s) == Ok(front + [s[|s| - 1]]);
      assert s == front + [s[|s| - 1]];
    }
  }

  lemma {:induction false} FoldBroadcastSame(s: seq<int>, rest: seq<seq<int>>)
    requires forall i :: 0 <= i < |rest| ==> rest[i] == s
    ensures FoldBroadcast(Ok(s), rest, BroadcastPair) == Ok(s)
    decreases |rest|
  {
    if rest != [] {
      BroadcastPairSame(s);
      FoldBroadcastSame(s, rest[1..]);
    }
  }

  /** Under NumPy's rule, broadcasting several copies of one shape gives that
      shape back. */
  lemma BroadcastShapesSame(s: seq<int>, n: nat)
    requires n >= 2
    ensures BroadcastShapes(Repeat(s, n), BroadcastPair) == Ok(Shape(s))
  {
    BroadcastPairSame(s);
    FoldBroadcastSame(s, Repeat(s, n)[2..]);
  }

  /** Folding NumPy's rule gives the largest rank met: no smaller than the
      accumulated shape or any shape folded in, and equal to one of them. */
  lemma {:induction false} FoldBroadcastRank(acc: seq<int>, rest: seq<seq<int>>)
    ensures FoldBroadcast(Ok(acc), rest, BroadcastPair).Ok? ==>
      var dims := FoldBroadcast(Ok(acc), rest, BroadcastPair).value;
      |dims| >= |acc| && (forall i :: 0 <= i < |rest| ==> |dims| >= |rest[i]|) &&
      (|dims| == |acc| || exists i :: 0 <= i < |rest| && |dims| == |rest[i]|)
    ensures FoldBroadcast(Ok(acc), rest, BroadcastPair).Err? ==>
      FoldBroadcast(Ok(acc), rest, BroadcastPair).error == BroadcastError
    decreases |rest|
  {
    if rest != [] {
      var step := BroadcastPair(acc, rest[0]);
      if step.Ok? {
        FoldBroadcastRank(step.value, rest[1..]);
        var r := FoldBroadcast(step, rest[1..], BroadcastPair);
        if r.Ok? {
          forall i | 1 <= i < |rest| ensures |r.value| >= |rest[i]| {
            assert rest[i] == rest[1..][i - 1];
          }
          if |r.value| != |step.value| {
            var j :| 0 <= j < |rest[1..]| && |r.value| == |rest[1..][j]|;
            assert rest[1..][j] == rest[j + 1];
          }
        }
      }
    }
  }

  /** Under NumPy's rule, `broadcast_shapes` raises IndexError exactly for
      no shapes, any other failure is a broadcast error, and two or more
      shapes broadcast to the largest of their ranks. */
  lemma BroadcastShapesNumPy(shapes: seq<seq<int>>)
    ensures BroadcastShapes(shapes, BroadcastPair) == Err(IndexError) <==> |shapes| == 0
    ensures |shapes| >= 1 && BroadcastShapes(shapes, BroadcastPair).Err? ==>
      BroadcastShapes(shapes, BroadcastPair).error == BroadcastError
    ensures |shapes| >= 2 && BroadcastShapes(shapes, BroadcastPair).Ok? ==>
      var dims := BroadcastShapes(shapes, BroadcastPair).value.dims;
      (forall i :: 0 <= i < |shapes| ==> |dims| >= |shapes[i]|) &&
      exists i :: 0 <= i < |shapes| && |dims| == |shapes[i]|
  {
    if |shapes| >= 2 {
      var rest := shapes[1..];
      assert rest[0] == shapes[1] && rest[1..] == shapes[2..];
      var folded := FoldBroadcast(Ok(shapes[0]), rest, BroadcastPair);
      assert folded == FoldBroadcast(BroadcastPair(shapes[0], shapes[1]), shapes[2..], BroadcastPair);
      FoldBroadcastRank(shapes[0], rest);
      if folded.Ok? {
        forall i | 1 <= i < |shapes| ensures |folded.value| >= |shapes[i]| {
          assert shapes[i] == rest[i - 1];
        }
        if |folded.value| != |shapes[0]| {
          var j :| 0 <= j < |rest| && |folded.value| == |rest[j]|;
          assert rest[j] == shapes[j + 1];
        }
      }
    }
  }

  // ---------------------------------------------------------------------
  // expand

  /** The product of the positive entries of a shape (1 when there are none). */
  function PositiveProd(s: seq<real>): (r: real)
    ensures r > 0.0
  {
    if s == [] then 1.0
    else
      var rest := PositiveProd(s[1..]);
      if s[0] > 0.0 then
        assert s[0] * rest > 0.0 by { PositiveMul(s[0], rest); }
        s[0] * rest
      else rest
  }

  lemma PositiveMul(a: real, b: real)
    requires a > 0.0 && b > 0.0
    ensures a * b > 0.0
  {
  }

  function AsReals(s: seq<int>): (r: seq<real>)
    ensures |r| == |s| && forall i :: 0 <= i < |s| ==> r[i] == s[i] as real
  {
    seq(|s|, i requires 0 <= i < |s| => s[i] as real)
  }

  /** `expand`: every negative entry of the target shape is replaced, in
      order, by the element count divided (true division) by the product of
      the positive entries of the shape as it stands at that moment, which
      includes the entries replaced before it. */
  method Expand(numElements: nat, shape: seq<int>) returns (r: seq<real>)
    ensures |r| == |shape|
    ensures forall i :: 0 <= i < |shape| && shape[i] >= 0 ==> r[i] == shape[i] as real
    ensures forall i :: 0 <= i < |shape| && shape[i] < 0 ==>
      r[i] == numElements as real / PositiveProd(r[..i] + AsReals(shape)[i..])
  {
    r := AsReals(shape);
    var i := 0;
    while i < |shape|
      invariant 0 <= i <= |shape| && |r| == |shape|
      invariant r[i..] == AsReals(shape)[i..]
      invariant ExpandedUpTo(numElements, shape, r, i)
    {
      var next := r;
      if shape[i] < 0 {
        next := r[i := numElements as real / PositiveProd(r)];
      }
      ExpandStep(numElements, shape, r, i, next);
      r := next;
      i := i + 1;
    }
  }

  /** What `expand` makes of entry `k` when the entries before it are those
      of `r`: a known size is kept, an unknown one becomes the element count
      over the positive product of the shape as it stands. */
  ghost function ExpandedEntry(numElements: nat, shape: seq<int>, r: seq<real>, k: nat): real
    requires k < |shape| == |r|
  {
    if shape[k] >= 0 then shape[k] as real
    else numElements as real / PositiveProd(r[..k] + AsReals(shape)[k..])
  }

  /** The entries of `r` before `i` are what `expand` makes of them. */
  ghost predicate ExpandedUpTo(numElements: nat, shape: seq<int>, r: seq<real>, i: nat)
    requires i <= |shape| == |r|
  {
    forall k :: 0 <= k < i ==> r[k] == ExpandedEntry(numElements, shape, r, k)
  }

  /** One round of the `expand` loop keeps the entries before it and
      settles entry `i`. */
  lemma ExpandStep(numElements: nat, shape: seq<int>, r: seq<real>, i: nat, next: seq<real>)
    requires i < |shape| == |r|
    requires r[i..] == AsReals(shape)[i..]
    requires ExpandedUpTo(numElements, shape, r, i)
    requires shape[i] < 0 ==> next == r[i := numElements as real / PositiveProd(r)]
    requires shape[i] >= 0 ==> next == r
    ensures |next| == |shape| && next[i + 1..] == AsReals(shape)[i + 1..]
    ensures ExpandedUpTo(numElements, shape, next, i + 1)
  {
    var reals := AsReals(shape);
    assert r[i] == reals[i];
    assert next[i + 1..] == r[i + 1..] == reals[i + 1..];
    assert next[..i] == r[..i];
    ExpandedPrefixKept(numElements, shape, r, next, i);
    if shape[i] < 0 {
      assert next[..i] + reals[i..] == r;
    }
    assert next[i] == ExpandedEntry(numElements, shape, next, i);
  }

  /** Entries before `i` depend only on the prefix before `i`. */
  lemma ExpandedPrefixKept(numElements: nat, shape: seq<int>, r: seq<real>, next: seq<real>, i: nat)
    requires i <= |shape| == |r| == |next|
    requires next[..i] == r[..i]
    requires ExpandedUpTo(numElements, shape, r, i)
    ensures ExpandedUpTo(numElements, shape, next, i)
  {
    forall k | 0 <= k < i
      ensures next[k] == ExpandedEntry(numElements, shape, next, k)
    {
      assert next[k] == next[..i][k];
      assert next[..k] == r[..k];
    }
  }

  /** With a single unknown (negative) entry and every other entry known,
      the unknown becomes the element count over the product of the others. */
  lemma ExpandSingleUnknown(numElements: nat, shape: seq<int>, u: nat, r: seq<real>)
    requires u < |shape| && shape[u] < 0
    requires forall i :: 0 <= i < |shape| && i != u ==> shape[i] >= 0
    requires |r| == |shape|
    requires forall i :: 0 <= i < |shape| && shape[i] >= 0 ==> r[i] == shape[i] as real
    requires forall i :: 0 <= i < |shape| && shape[i] < 0 ==>
      r[i] == numElements as real / PositiveProd(r[..i] + AsReals(shape)[i..])
    ensures r[u] == numElements as real / PositiveProd(AsReals(shape))
    ensures forall i :: 0 <= i < |shape| && i != u ==> r[i] == shape[i] as real
  {
    assert r[..u] + AsReals(shape)[u..] == AsReals(shape);
  }
}
