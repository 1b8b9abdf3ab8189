/** The paddle backend's experimental manipulation kernels
    (ivy/functional/backends/paddle/experimental/manipulation.py): padding
    canonicalisation, the fast-path predicate, the index remapping of
    `take_along_axis`, the runs of `unique_consecutive`, the diagonal mask of
    `fill_diagonal`, the `atleast_*d` promotions and the ranking of `top_k`.
    Native paddle calls stay parameters. */
module PaddleManipulation {
  import opened Common
  import opened ManipulationSpec
  import opened TfManipulation

  // ---------------------------------------------------------------------
  // padding

  /** A `pad_width` of exactly two items whose first item is a number. */
  predicate IsFlatPair(pw: PadWidth) {
    pw.PadList? && |pw.entries| == 2 && pw.entries[0].Num?
  }

  predicate HasNumber(e: seq<PadEntry>) {
    exists i :: 0 <= i < |e| && e[i].Num?
  }

  /** The per-axis pads listed last axis first, each in its own order. */
  function LastAxisFirst(e: seq<PadEntry>): seq<int>
    requires !HasNumber(e)
  {
    Flatten(Reverse(seq(|e|, i requires 0 <= i < |e| => e[i].xs)))
  }

  /** `_to_paddle_padding`: a number p becomes 2·ndim copies of p; a list
      has each item reversed, flattened, and the whole result reversed
      again. A two-item list starting with a number is first list-repeated
      (unless ndim is 1), which leaves bare numbers as items, and reversing
      a bare number is a TypeError. */
  function ToPaddlePadding(pw: PadWidth, ndim: nat): (r: Result<seq<int>>)
    ensures pw.Number? ==>
      r.Ok? && |r.value| == 2 * ndim && forall i :: 0 <= i < 2 * ndim ==> r.value[i] == pw.p
    ensures r.Err? ==> r.error == TypeError
    ensures r.Err? <==> pw.PadList? && HasNumber(pw.entries) && !(IsFlatPair(pw) && ndim == 0)
    ensures pw.PadList? && !HasNumber(pw.entries) ==> r == Ok(LastAxisFirst(pw.entries))
  {
    match pw
    case Number(p) => Ok(Repeat(p, 2 * ndim))
    case PadList(e) =>
      var e2 := if |e| == 2 && e[0].Num? && ndim != 1 then RepeatList(e, ndim) else e;
      if exists i :: 0 <= i < |e2| && e2[i].Num? then
        Err(TypeError)
      else
        assert |e| == 2 && e[0].Num? && ndim != 1 ==> ndim == 0 by {
          if |e| == 2 && e[0].Num? && ndim != 1 && ndim != 0 {
            RepeatListAt(e, ndim, 0);
          }
        }
        var flat := Reverse(Flatten(seq(|e2|, i requires 0 <= i < |e2| => Reverse(e2[i].xs))));
        assert flat == LastAxisFirst(e2) by { ReversedItemsLastAxisFirst(e2); }
        Ok(flat)
  }

  /** Reversing every item, flattening and reversing the whole gives the
      items in reverse order, each in its own order. */
  lemma {:induction false} ReversedItemsLastAxisFirst(e: seq<PadEntry>)
    requires !HasNumber(e)
    ensures Reverse(Flatten(seq(|e|, i requires 0 <= i < |e| => Reverse(e[i].xs)))) == LastAxisFirst(e)
    decreases |e|
  {
    var revs := seq(|e|, i requires 0 <= i < |e| => Reverse(e[i].xs));
    var items := seq(|e|, i requires 0 <= i < |e| => e[i].xs);
    if e != [] {
      var init := e[..|e| - 1];
      var t := e[|e| - 1].xs;
      assert !HasNumber(init) by {
        forall i | 0 <= i < |init| ensures !init[i].Num? { assert init[i] == e[i]; }
      }
      ReversedItemsLastAxisFirst(init);
      assert revs[..|e| - 1] == seq(|init|, i requires 0 <= i < |init| => Reverse(init[i].xs));
      assert Flatten(revs) == Flatten(revs[..|e| - 1]) + Reverse(t);
      ReverseAppend(Flatten(revs[..|e| - 1]), Reverse(t));
      ReverseReverse(t);
      assert Reverse(items) == [t] + Reverse(seq(|init|, i requires 0 <= i < |init| => init[i].xs));
      FlattenCons(t, Reverse(seq(|init|, i requires 0 <= i < |init| => init[i].xs)));
    }
  }

  /** Per-axis pairs [[b0, a0], …, [b(n-1), a(n-1)]] become
      b(n-1), a(n-1), …, b0, a0: the last axis first, each as (before, after). */
  lemma {:induction false} PaddlePaddingOfPairs(e: seq<PadEntry>, ndim: nat)
    requires forall i :: 0 <= i < |e| ==> e[i].Items? && |e[i].xs| == 2
    ensures ToPaddlePadding(PadList(e), ndim).Ok?
    ensures var r := ToPaddlePadding(PadList(e), ndim).value;
      |r| == 2 * |e| &&
      forall k :: 0 <= k < |e| ==>
        r[2 * k] == e[|e| - 1 - k].xs[0] && r[2 * k + 1] == e[|e| - 1 - k].xs[1]
  {
    assert !HasNumber(e);
    LastAxisFirstOfPairs(e);
  }

  lemma LastAxisFirstOfPairs(e: seq<PadEntry>)
    requires forall i :: 0 <= i < |e| ==> e[i].Items? && |e[i].xs| == 2
    ensures !HasNumber(e)
    ensures var r := LastAxisFirst(e);
      |r| == 2 * |e| &&
      forall k :: 0 <= k < |e| ==>
        r[2 * k] == e[|e| - 1 - k].xs[0] && r[2 * k + 1] == e[|e| - 1 - k].xs[1]
  {
    var rev := Reverse(seq(|e|, i requires 0 <= i < |e| => e[i].xs));
    forall k | 0 <= k < |rev|
      ensures rev[k] == e[|e| - 1 - k].xs && |rev[k]| == 2
    {
    }
    FlattenPairs(rev);
  }

  /** The same canonicalisation with a flat pair [a, b] read as the pair
      (a, b) for every axis. */
  function ToPaddlePaddingIntended(pw: PadWidth, ndim: nat): (r: Result<seq<int>>)
    ensures IsFlatPair(pw) && pw.entries[1].Num? ==>
      r.Ok? && |r.value| == 2 * ndim &&
      forall k :: 0 <= k < ndim ==> r.value[2 * k] == pw.entries[0].n && r.value[2 * k + 1] == pw.entries[1].n
    ensures !(IsFlatPair(pw) && pw.entries[1].Num?) ==> r == ToPaddlePadding(pw, ndim)
  {
    if IsFlatPair(pw) && pw.entries[1].Num? then
      var pairs := Repeat(Items([pw.entries[0].n, pw.entries[1].n]), ndim);
      PaddlePaddingOfPairs(pairs, ndim);
      ToPaddlePadding(PadList(pairs), ndim)
    else
      ToPaddlePadding(pw, ndim)
  }

  /** As written, a flat two-number `pad_width` on an input of rank one or
      more always raises TypeError. */
  lemma FlatPairRejected(a: int, b: int, ndim: nat)
    requires ndim >= 1
    ensures ToPaddlePadding(PadList([Num(a), Num(b)]), ndim) == Err(TypeError)
    ensures ToPaddlePaddingIntended(PadList([Num(a), Num(b)]), ndim).Ok?
  {
    assert HasNumber([Num(a), Num(b)]) by { assert [Num(a), Num(b)][0].Num?; }
  }

  /** `_check_paddle_pad`: the native pad serves constant mode with a numeric
      constant; reflect mode only with reflect_type "even" and every pad
      strictly inside its axis, and edge/wrap always, provided the rank is at
      most `ndimLimit`. The pads are read through `_to_tf_padding`, and the
      rank test is evaluated after the pad test. */
  function CheckPaddlePad(mode: string, reflectType: string, pw: PadWidth, shape: seq<nat>,
                          constantIsNumber: bool, ndimLimit: int): (r: Result<bool>)
    ensures r == Ok(true) <==>
      constantIsNumber &&
      (mode == "constant" ||
       (((mode == "reflect" && reflectType == "even" &&
          AllPadsWithin(ToTfPadding(pw, |shape|).entries, shape, true, 0))
         || mode == "edge" || mode == "wrap")
        && |shape| <= ndimLimit))
    ensures !constantIsNumber ==> r == Ok(false)
    ensures constantIsNumber && (mode == "edge" || mode == "wrap") ==> r == Ok(|shape| <= ndimLimit)
    ensures r.Err? ==> mode == "reflect" && reflectType == "even"
  {
    var p := ToTfPadding(pw, |shape|);
    if !constantIsNumber then Ok(false)
    else if mode == "constant" then Ok(true)
    else
      var reflectOk: Result<bool> :=
        if mode == "reflect" && reflectType == "even" then CheckPads(p.entries, shape, true, 0) else Ok(false);
      match reflectOk
      case Err(e) => Err(e)
      case Ok(b) => Ok((b || mode == "edge" || mode == "wrap") && |shape| <= ndimLimit)
  }

  /** `pad.partial_mixed_handler`: the fast-path test with a rank limit of 3. */
  function PadHandler(mode: string, reflectType: string, pw: PadWidth, shape: seq<nat>,
                      constantIsNumber: bool): (r: Result<bool>)
    ensures |shape| > 3 && mode != "constant" ==> r != Ok(true)
    ensures |shape| <= 3 && constantIsNumber && (mode == "edge" || mode == "wrap") ==> r == Ok(true)
  {
    CheckPaddlePad(mode, reflectType, pw, shape, constantIsNumber, 3)
  }

  /** Whatever paddle's reflect fast path accepts, tensorflow's accepts too. */
  lemma PaddleReflectEligibleOnTf(pw: PadWidth, shape: seq<nat>, constantIsNumber: bool, ndimLimit: int)
    requires CheckPaddlePad("reflect", "even", pw, shape, constantIsNumber, ndimLimit) == Ok(true)
    ensures CheckTfPad(shape, pw, "reflect", constantIsNumber, "even") == Ok(true)
  {
  }

  /** The arguments `pad` hands to `paddle.nn.functional.pad`. */
  datatype PadCall = PadCall(pads: seq<int>, mode: string, dataFormat: string)

  /** ivy's mode names in paddle's vocabulary. */
  function PaddleMode(mode: string): (r: string)
    ensures mode == "edge" ==> r == "replicate"
    ensures mode == "wrap" ==> r == "circular"
    ensures mode != "edge" && mode != "wrap" ==> r == mode
  {
    if mode == "edge" then "replicate" else if mode == "wrap" then "circular" else mode
  }

  /** The data format `pad` names: the input is unsqueezed twice before the
      native call, so the format names rank + 2 axes for ranks 1 to 3. */
  function PadFormat(ndim: nat): (r: string)
    ensures 1 <= ndim <= 3 ==> |r| == ndim + 2
  {
    if ndim == 1 then "NCL" else if ndim == 2 then "NCHW" else "NCDHW"
  }

  /** `pad`: paddle padding from `_to_paddle_padding` as written, renamed
      mode, and a data format chosen by rank. */
  function PaddlePad(pw: PadWidth, ndim: nat, mode: string): (r: Result<PadCall>)
    ensures r.Ok? <==> ToPaddlePadding(pw, ndim).Ok?
    ensures r.Err? ==> r.error == TypeError
    ensures r.Ok? ==> r.value.pads == ToPaddlePadding(pw, ndim).value
    ensures r.Ok? ==> r.value.mode == PaddleMode(mode)
    ensures r.Ok? && 1 <= ndim <= 3 ==> |r.value.dataFormat| == ndim + 2
    ensures pw.Number? ==> r.Ok? && |r.value.pads| == 2 * ndim
  {
    var pads :- ToPaddlePadding(pw, ndim);
    Ok(PadCall(pads, PaddleMode(mode), PadFormat(ndim)))
  }

  /** `pad` with the corrected canonicalisation: it agrees with `pad` except
      on a flat pair [a, b], which it reads as (a, b) on every axis. */
  function PaddlePadIntended(pw: PadWidth, ndim: nat, mode: string): (r: Result<PadCall>)
    ensures !(IsFlatPair(pw) && pw.entries[1].Num?) ==> r == PaddlePad(pw, ndim, mode)
    ensures IsFlatPair(pw) && pw.entries[1].Num? ==>
      r.Ok? && r.value.mode == PaddleMode(mode) && |r.value.pads| == 2 * ndim &&
      forall k :: 0 <= k < ndim ==>
        r.value.pads[2 * k] == pw.entries[0].n && r.value.pads[2 * k + 1] == pw.entries[1].n
  {
    var pads :- ToPaddlePaddingIntended(pw, ndim);
    Ok(PadCall(pads, PaddleMode(mode), PadFormat(ndim)))
  }

  /** As written, `pad` rejects a flat pair on a rank-1 input, which the
      corrected canonicalisation accepts. */
  lemma PadFlatPairRankOne(mode: string)
    ensures PaddlePad(PadList([Num(1), Num(2)]), 1, mode) == Err(TypeError)
    ensures PaddlePadIntended(PadList([Num(1), Num(2)]), 1, mode).Ok?
    ensures PaddlePadIntended(PadList([Num(1), Num(2)]), 1, mode).value.pads == [1, 2]
  {
    FlatPairRejected(1, 2, 1);
  }

  /** The four ivy modes reach paddle under four distinct names. */
  lemma PaddleModeInjective(m1: string, m2: string)
    requires m1 in ["constant", "edge", "reflect", "wrap"] && m2 in ["constant", "edge", "reflect", "wrap"]
    requires PaddleMode(m1) == PaddleMode(m2)
    ensures m1 == m2
  {
  }

  // ---------------------------------------------------------------------
  // take_along_axis

  /** `take_along_axis` on one line along the axis (as in the tensorflow
      model). The indices are cast to int64; clip mode reads the axis length n
      and clamps them into [0, n - 1]; fill and drop mode pick the dtype's
      sentinel (a TypeError for bool) before reading n, then send every index
      outside [0, n) to -1, append a sentinel column at position n, and turn
      the negative indices into `(n + 1) + i`, i.e. into n. */
  function TakeAlongAxis(arrShape: seq<nat>, idxShape: seq<nat>, axis: int, mode: string,
                         dtype: DType, line: seq<Scalar>, indices: seq<int>): (r: Result<seq<Scalar>>)
    requires LineFits(arrShape, axis, line)
    ensures |arrShape| != |idxShape| ==> r == Err(IvyException)
    ensures |arrShape| == |idxShape| && !ValidTakeMode(mode) ==> r == Err(ValueError)
    ensures (|arrShape| == |idxShape| && (mode == "fill" || mode == "drop") && dtype == Bool) ==>
      r == Err(TypeError)
    ensures (|arrShape| == |idxShape| && (mode == "clip" || ((mode == "fill" || mode == "drop") && dtype != Bool))
             && PyIndex(arrShape, NormAxis(axis, |arrShape|)).Err?) ==> r == Err(IndexError)
    ensures r.Ok? ==> |r.value| == |indices|
    ensures (|arrShape| == |idxShape| && mode == "clip" && |line| >= 1
             && PyIndex(arrShape, NormAxis(axis, |arrShape|)).Ok?) ==>
      r.Ok? && forall j :: 0 <= j < |indices| ==>
        r.value[j] == line[ClipIndex(WrapSigned(indices[j], HALF64), |line|)]
    ensures (|arrShape| == |idxShape| && (mode == "fill" || mode == "drop") && dtype != Bool
             && PyIndex(arrShape, NormAxis(axis, |arrShape|)).Ok?) ==>
      r.Ok? && forall j :: 0 <= j < |indices| ==>
        var i := WrapSigned(indices[j], HALF64);
        r.value[j] == if 0 <= i < |line| then line[i] else FillValue(dtype).value
  {
    if |arrShape| != |idxShape| then Err(IvyException)
    else
      var idx := seq(|indices|, j requires 0 <= j < |indices| => WrapSigned(indices[j], HALF64));
      if !ValidTakeMode(mode) then Err(ValueError)
      else if mode == "clip" then
        var n :- PyIndex(arrShape, NormAxis(axis, |arrShape|));
        GatherLine(line, seq(|idx|, j requires 0 <= j < |idx| => ClipIndex(idx[j], n)))
      else
        // the sentinel is chosen before the axis length is read
        var fill :- FillValue(dtype);
        var n :- PyIndex(arrShape, NormAxis(axis, |arrShape|));
        Ok(SentinelGather(line, fill, idx))
  }

  /** The fill and drop path of `take_along_axis`: indices outside
      [0, |line|) go to -1, the sentinel `fill` is appended at position
      |line|, and -1 becomes `(|line| + 1) - 1`, the sentinel's position. */
  function SentinelGather(line: seq<Scalar>, fill: Scalar, idx: seq<int>): (r: seq<Scalar>)
    ensures |r| == |idx|
    ensures forall j :: 0 <= j < |idx| ==> r[j] == if 0 <= idx[j] < |line| then line[idx[j]] else fill
  {
    var n := |line|;
    var outside := seq(|idx|, j requires 0 <= j < |idx| => if idx[j] < 0 || idx[j] >= n then -1 else idx[j]);
    var shifted := seq(|outside|, j requires 0 <= j < |outside| => if outside[j] < 0 then (n + 1) + outside[j] else outside[j]);
    var g := GatherLine(line + [fill], shifted);
    assert g.Ok?;
    g.value
  }

  /** For indices that fit in 32 bits, the paddle and tensorflow kernels
      agree on every input: same errors, same gathered values. */
  lemma TakeAlongAxisBackendsAgree(arrShape: seq<nat>, idxShape: seq<nat>, axis: int, mode: string,
                                   dtype: DType, line: seq<Scalar>, indices: seq<int>)
    requires LineFits(arrShape, axis, line)
    requires forall j :: 0 <= j < |indices| ==> -HALF32 <= indices[j] < HALF32
    ensures TakeAlongAxis(arrShape, idxShape, axis, mode, dtype, line, indices)
         == TfManipulation.TakeAlongAxis(arrShape, idxShape, axis, mode, dtype, line, indices)
  {
    var r1 := TakeAlongAxis(arrShape, idxShape, axis, mode, dtype, line, indices);
    var r2 := TfManipulation.TakeAlongAxis(arrShape, idxShape, axis, mode, dtype, line, indices);
    var i64 := seq(|indices|, j requires 0 <= j < |indices| => WrapSigned(indices[j], HALF64));
    var i32 := seq(|indices|, j requires 0 <= j < |indices| => WrapSigned(indices[j], HALF32));
    assert i64 == i32;
    if |arrShape| == |idxShape| && ValidTakeMode(mode) && PyIndex(arrShape, NormAxis(axis, |arrShape|)).Ok?
       && mode != "clip" && dtype != Bool {
      assert r1.Ok? && r2.Ok?;
      assert r1.value == r2.value;
    }
  }

  // ---------------------------------------------------------------------
  // unique_consecutive

  /** The tolerance below which paddle treats two entries as equal. */
  const TOLERANCE: real := 0.00000000000000000000000000000000000000000000000001

  /** Two slices differ when some entry of `paddle.diff` exceeds 1e-50 in
      absolute value (`any` over the other axes). */
  predicate PaddleDiffer(a: seq<real>, b: seq<real>) {
    exists j :: 0 <= j < |a| && j < |b| && AbsR(b[j] - a[j]) > TOLERANCE
  }

  /** `unique_consecutive` as in the tensorflow model, but with the 1e-50
      tolerance, and with the inverse reshaped only when the recorded shape
      is a non-empty list (a 0-d input keeps its flat inverse). */
  function UniqueConsecutive(x: seq<seq<real>>, flattenedFrom: Option<seq<nat>>,
                             unique: seq<seq<real>> -> seq<seq<real>>): (r: UniqueResult<seq<real>>)
    ensures SumInt(r.counts) == |x|
    ensures |x| > 0 ==> forall k :: 0 <= k < |r.counts| ==> r.counts[k] >= 1
    ensures |x| == 0 ==> r.counts == [0]
    ensures r.inverse == RunIds(x, PaddleDiffer)
    ensures |x| > 0 ==> |r.counts| == r.inverse[|x| - 1] + 1
    ensures r.inverseShape == if flattenedFrom.Some? && flattenedFrom.value != [] then flattenedFrom.value else [|x|]
  {
    var inverseShape := if flattenedFrom.Some? && flattenedFrom.value != [] then flattenedFrom.value else [|x|];
    ConsecutiveRuns(x, PaddleDiffer, unique, inverseShape)
  }

  predicate Integral(v: real) { v == v.Floor as real }

  lemma IntegralGap(u: real, v: real)
    requires Integral(u) && Integral(v) && u != v
    ensures AbsR(v - u) > TOLERANCE
  {
    var d := v.Floor - u.Floor;
    assert v - u == d as real;
    assert d != 0;
  }

  /** On integer-valued slices of one common length, the tolerance changes
      nothing: paddle and tensorflow find the same runs, counts and output. */
  lemma UniqueBackendsAgreeOnIntegers(x: seq<seq<real>>, flattenedFrom: Option<seq<nat>>,
                                      unique: seq<seq<real>> -> seq<seq<real>>)
    requires forall i, j :: 0 <= i < |x| && 0 <= j < |x| ==> |x[i]| == |x[j]|
    requires forall i, j :: 0 <= i < |x| && 0 <= j < |x[i]| ==> Integral(x[i][j])
    ensures var p := UniqueConsecutive(x, flattenedFrom, unique);
            var t := TfManipulation.UniqueConsecutive(x, flattenedFrom, unique);
            p.output == t.output && p.counts == t.counts && p.inverse == t.inverse
  {
    forall q | 1 <= q < |x| ensures PaddleDiffer(x[q - 1], x[q]) == ExactDiffer(x[q - 1], x[q]) {
      var a, b := x[q - 1], x[q];
      if a != b {
        assert |a| == |b|;
        var j :| 0 <= j < |a| && a[j] != b[j];
        IntegralGap(a[j], b[j]);
      }
    }
    ConsecutiveRunsCongruent(x, PaddleDiffer, ExactDiffer, unique, [|x|]);
  }

  /** For a 0-d input the backends disagree on the inverse's shape:
      tensorflow reshapes it to the 0-d shape, paddle keeps it flat. */
  lemma ZeroDimInverseShapes(x: seq<seq<real>>, unique: seq<seq<real>> -> seq<seq<real>>)
    requires |x| == 1
    ensures UniqueConsecutive(x, Some([]), unique).inverseShape == [1]
    ensures TfManipulation.UniqueConsecutive(x, Some([]), unique).inverseShape == []
  {
  }

  // ---------------------------------------------------------------------
  // fill_diagonal

  /** `fill_diagonal`: OR `arange(0, max_end) == i` into a boolean mask for
      every i in `arange(0, end, step)`, then `where(mask, v, a)`. */
  method FillDiagonal(shape: seq<nat>, a: seq<real>, v: real, wrap: bool) returns (r: seq<real>)
    requires |a| == Prod(shape)
    ensures r == FilledDiagonal(shape, wrap, a, v)
  {
    var step := DiagonalStep(shape);
    var end := DiagonalEnd(shape, wrap);
    var w: seq<bool> := Repeat(false, |a|);
    var i := 0;
    while i < end
      invariant i >= 0 && i % step == 0
      invariant i == 0 || i - step < end
      invariant |w| == |a|
      invariant forall j :: 0 <= j < |a| ==> (w[j] <==> j < i && j % step == 0)
    {
      NextMultiple(i, step);
      w := seq(|a|, j requires 0 <= j < |a| => w[j] || j == i);
      i := i + step;
    }
    NoMultipleInTail(i, step, end);
    r := seq(|a|, j requires 0 <= j < |a| => if w[j] then v else a[j]);
  }

  // ---------------------------------------------------------------------
  // atleast_1d / atleast_2d / atleast_3d

  /** A tensor by its shape and its flattened data. */
  datatype Arr = Arr(shape: seq<nat>, data: seq<real>)

  /** What `atleast_*d` returns: the single promoted tensor when given one
      argument, the list of them otherwise. */
  datatype AtLeastOut = Single(arr: Arr) | Many(arrs: seq<Arr>)

  /** `expand_dims(ary, axis=0)` below rank 1. */
  function Promote1(a: Arr): (r: Arr)
    ensures r.data == a.data && |r.shape| >= 1 && Prod(r.shape) == Prod(a.shape)
    ensures |a.shape| >= 1 ==> r == a
  {
    if |a.shape| < 1 then Arr([1], a.data) else a
  }

  /** `expand_dims(ary, axis=range(2 - ndim))` below rank 2: leading unit axes. */
  function Promote2(a: Arr): (r: Arr)
    ensures r.data == a.data && |r.shape| >= 2 && Prod(r.shape) == Prod(a.shape)
    ensures |a.shape| < 2 ==> r.shape == Repeat(1, 2 - |a.shape|) + a.shape
    ensures |a.shape| >= 2 ==> r == a
  {
    if |a.shape| == 0 then Arr([1, 1], a.data)
    else if |a.shape| == 1 then Arr([1] + a.shape, a.data)
    else a
  }

  /** `reshape((1, 1, 1))`, `ary[None, :, None]`, `ary[:, :, None]` below rank 3. */
  function Promote3(a: Arr): (r: Arr)
    ensures r.data == a.data && |r.shape| >= 3 && Prod(r.shape) == Prod(a.shape)
    ensures |a.shape| == 1 ==> r.shape == [1, a.shape[0], 1]
    ensures |a.shape| == 2 ==> r.shape == a.shape + [1]
    ensures |a.shape| >= 3 ==> r == a
  {
    if |a.shape| == 0 then Arr([1, 1, 1], a.data)
    else if |a.shape| == 1 then
      assert Prod([1, a.shape[0], 1]) == Prod([a.shape[0], 1]);
      Arr([1, a.shape[0], 1], a.data)
    else if |a.shape| == 2 then
      ProdAppend(a.shape, [1]);
      Arr(a.shape + [1], a.data)
    else a
  }

  /** Promoting to rank 2 first changes nothing about promoting to rank 3,
      and promoting to rank 1 first changes nothing about rank 2. */
  lemma PromotionsCompose(a: Arr)
    ensures Promote2(Promote1(a)) == Promote2(a)
    ensures Promote3(Promote2(a)) == Promote3(a)
  {
  }

  method AtLeast1d(arys: seq<Arr>) returns (r: AtLeastOut)
    ensures |arys| == 1 ==> r == Single(Promote1(arys[0]))
    ensures |arys| != 1 ==>
      r.Many? && |r.arrs| == |arys| && forall k :: 0 <= k < |arys| ==> r.arrs[k] == Promote1(arys[k])
  {
    var res: seq<Arr> := [];
    for i := 0 to |arys|
      invariant |res| == i && forall k :: 0 <= k < i ==> res[k] == Promote1(arys[k])
    {
      res := res + [Promote1(arys[i])];
    }
    if |res| == 1 { r := Single(res[0]); } else { r := Many(res); }
  }

  method AtLeast2d(arys: seq<Arr>) returns (r: AtLeastOut)
    ensures |arys| == 1 ==> r == Single(Promote2(arys[0]))
    ensures |arys| != 1 ==>
      r.Many? && |r.arrs| == |arys| && forall k :: 0 <= k < |arys| ==> r.arrs[k] == Promote2(arys[k])
  {
    var res: seq<Arr> := [];
    for i := 0 to |arys|
      invariant |res| == i && forall k :: 0 <= k < i ==> res[k] == Promote2(arys[k])
    {
      res := res + [Promote2(arys[i])];
    }
    if |res| == 1 { r := Single(res[0]); } else { r := Many(res); }
  }

  method AtLeast3d(arys: seq<Arr>) returns (r: AtLeastOut)
    ensures |arys| == 1 ==> r == Single(Promote3(arys[0]))
    ensures |arys| != 1 ==>
      r.Many? && |r.arrs| == |arys| && forall k :: 0 <= k < |arys| ==> r.arrs[k] == Promote3(arys[k])
  {
    var res: seq<Arr> := [];
    for i := 0 to |arys|
      invariant |res| == i && forall k :: 0 <= k < i ==> res[k] == Promote3(arys[k])
    {
      res := res + [Promote3(arys[i])];
    }
    if |res| == 1 { r := Single(res[0]); } else { r := Many(res); }
  }

  // ---------------------------------------------------------------------
  // top_k

  /** `top_k` on a 1-D tensor: `argsort(x, descending=largest)` is the
      native call, and the values are read back with the in-range indices. */
  function TopK(x: seq<real>, k: int, axis: int, largest: bool, sorted: bool,
                argsort: (seq<real>, bool) -> seq<int>, sortIdx: seq<int> -> seq<int>): (r: Result<TopK>)
    requires forall s, d :: |argsort(s, d)| == |s|
    requires forall s, d, i :: 0 <= i < |s| ==> 0 <= argsort(s, d)[i] < |s|
    requires forall s :: multiset(sortIdx(s)) == multiset(s)
    requires forall s :: Ascending(sortIdx(s))
    ensures r.Ok? <==> -1 <= axis <= 0
    ensures r.Ok? ==> |r.value.indices| == Max(0, Min(k, |x|)) && |r.value.values| == |r.value.indices|
    ensures r.Ok? ==> forall j :: 0 <= j < |r.value.indices| ==>
      0 <= r.value.indices[j] < |x| && r.value.values[j] == x[r.value.indices[j]]
    ensures r.Ok? && !sorted ==> Ascending(r.value.indices)
  {
    match PyIndex([|x|], axis)
    case Err(e) => Err(e)
    case Ok(_) =>
      var order := argsort(x, largest);
      assert |order| == |x|;
      Ok(SelectTopK(x, order, k, sorted, sortIdx))
  }

  /** With a true ascending argsort, `top_k(largest=False)` keeps values no
      larger than any value it leaves out, ascending when `sorted`. */
  lemma TopKSmallest(x: seq<real>, k: int, sorted: bool,
                     argsort: (seq<real>, bool) -> seq<int>, sortIdx: seq<int> -> seq<int>)
    requires forall s :: IsArgsort(s, argsort(s, false))
    requires forall s, d :: |argsort(s, d)| == |s|
    requires forall s, d, i :: 0 <= i < |s| ==> 0 <= argsort(s, d)[i] < |s|
    requires forall s :: multiset(sortIdx(s)) == multiset(s)
    requires forall s :: Ascending(sortIdx(s))
    ensures var r := TopK(x, k, -1, false, sorted, argsort, sortIdx);
      r.Ok? &&
      (forall i, j :: 0 <= i < |x| && i !in r.value.indices && 0 <= j < |r.value.values| ==>
        r.value.values[j] <= x[i]) &&
      (sorted ==> forall j1, j2 :: 0 <= j1 < j2 < |r.value.values| ==> r.value.values[j1] <= r.value.values[j2])
  {
    assert IsArgsort(x, argsort(x, false));
    SelectTopKRanks(x, x, argsort(x, false), k, sorted, sortIdx);
  }
}
