/** The element-wise loss definitions of the functional API and their
    reduction dispatch, over exact reals. Tensors are flattened to one
    sequence of elements (kl_div keeps its rows); exp, log and log1p are
    parameters because their values come from the engine. */
module Losses {
  import opened Common

  /** What a loss returns: a reduced 0-d value (possibly NaN, the mean of
      nothing) or the unreduced element-wise array. */
  datatype LossOut = Reduced(v: Scalar) | Unreduced(xs: seq<real>)

  /** `ivy.mean` over every element: NaN for an empty array. */
  function Mean(s: seq<real>): (r: Scalar)
    ensures r.NaN? <==> |s| == 0
    ensures |s| > 0 ==> r == RealVal(Sum(s) / |s| as real)
  {
    if |s| == 0 then NaN else RealVal(Sum(s) / |s| as real)
  }

  /** The dispatch shared by l1, huber, soft_margin and log_poisson: "sum",
      "mean", and anything else (including "none") returns the array. */
  function Reduce(loss: seq<real>, reduction: string): (r: LossOut)
    ensures r.Unreduced? <==> reduction != "sum" && reduction != "mean"
    ensures r.Unreduced? ==> r.xs == loss
    ensures reduction == "sum" ==> r == Reduced(RealVal(Sum(loss)))
    ensures reduction == "mean" ==> r == Reduced(Mean(loss))
  {
    if reduction == "sum" then Reduced(RealVal(Sum(loss)))
    else if reduction == "mean" then Reduced(Mean(loss))
    else Unreduced(loss)
  }

  lemma {:induction false} SumNonNeg(s: seq<real>)
    requires forall i :: 0 <= i < |s| ==> s[i] >= 0.0
    ensures Sum(s) >= 0.0
  {
    if s != [] { SumNonNeg(s[..|s| - 1]); }
  }

  /** A sum of non-negative terms vanishes exactly when every term does. */
  lemma {:induction false} SumZeroIff(s: seq<real>)
    requires forall i :: 0 <= i < |s| ==> s[i] >= 0.0
    ensures Sum(s) == 0.0 <==> forall i :: 0 <= i < |s| ==> s[i] == 0.0
  {
    if s != [] {
      SumZeroIff(s[..|s| - 1]);
      SumNonNeg(s[..|s| - 1]);
    }
  }

  lemma {:induction false} SumOfZeros(s: seq<real>)
    requires forall i :: 0 <= i < |s| ==> s[i] == 0.0
    ensures Sum(s) == 0.0
  {
    if s != [] { SumOfZeros(s[..|s| - 1]); }
  }

  // ---------------------------------------------------------------- l1_loss

  function L1Elements(input: seq<real>, target: seq<real>): (r: seq<real>)
    requires |input| == |target|
    ensures |r| == |input|
    ensures forall i :: 0 <= i < |r| ==> r[i] >= 0.0
    ensures forall i :: 0 <= i < |r| ==> (r[i] == 0.0 <==> input[i] == target[i])
  {
    seq(|input|, i requires 0 <= i < |input| => AbsR(target[i] - input[i]))
  }

  /** `l1_loss`: |target - input| element-wise, then the reduction. */
  function L1Loss(input: seq<real>, target: seq<real>, reduction: string): (r: LossOut)
    requires |input| == |target|
    ensures r == Reduce(L1Elements(input, target), reduction)
    ensures r.Unreduced? ==> r.xs == L1Elements(input, target)
    ensures r.Reduced? && r.v.RealVal? ==> r.v.r >= 0.0
  {
    var loss := L1Elements(input, target);
    SumNonNeg(loss);
    Reduce(loss, reduction)
  }

  /** The summed L1 loss is zero exactly when prediction and target agree. */
  lemma L1SumZeroIff(input: seq<real>, target: seq<real>)
    requires |input| == |target|
    ensures L1Loss(input, target, "sum") == Reduced(RealVal(0.0)) <==> input == target
  {
    var loss := L1Elements(input, target);
    SumZeroIff(loss);
    if Sum(loss) == 0.0 {
      assert forall i :: 0 <= i < |input| ==> input[i] == target[i];
    }
  }

  /** The 2x2 example, flattened: [[1,2],[3,4]] against [[0.5,1.5],[2.5,3.5]]
      gives 0.5; the three-element example gives 2/3. */
  lemma L1Examples()
    ensures L1Loss([1.0, 2.0, 3.0, 4.0], [0.5, 1.5, 2.5, 3.5], "mean") == Reduced(RealVal(0.5))
    ensures L1Loss([1.0, 2.0, 3.0], [0.5, 2.5, 2.0], "mean") == Reduced(RealVal(2.0 / 3.0))
  {
    var a := L1Elements([1.0, 2.0, 3.0, 4.0], [0.5, 1.5, 2.5, 3.5]);
    assert a == [0.5, 0.5, 0.5, 0.5];
    assert Sum(a) == 2.0 by {
      var p := [0.5, 0.5, 0.5];
      assert a[..3] == p && p[..2] == [0.5, 0.5] && [0.5, 0.5][..1] == [0.5] && [0.5][..0] == [];
      assert Sum([0.5, 0.5]) == 1.0;
      assert Sum(p) == 1.5;
    }
    var b := L1Elements([1.0, 2.0, 3.0], [0.5, 2.5, 2.0]);
    assert b == [0.5, 0.5, 1.0];
    assert Sum(b) == 2.0 by {
      assert b[..2] == [0.5, 0.5] && b[..2][..1] == [0.5];
      assert [0.5][..0] == [];
    }
  }

  // ------------------------------------------------------------- huber_loss

  /** One element of `huber_loss`: quadratic up to delta (inclusive), linear
      beyond it. */
  function HuberElement(d: real, delta: real): (r: real)
    ensures delta >= 0.0 ==> 0.0 <= r <= delta * AbsR(d)
    ensures r <= 0.5 * d * d
  {
    var a := AbsR(d);
    assert a * a == d * d;
    if a <= delta then
      assert delta >= 0.0 ==> 0.5 * a * a <= delta * a by {
        if delta >= 0.0 { MulLeq(a, 2.0 * delta, a); }
      }
      0.5 * a * a
    else
      assert 0.5 * a * a - delta * (a - 0.5 * delta) == 0.5 * (a - delta) * (a - delta);
      assert delta >= 0.0 ==> delta * (a - 0.5 * delta) >= 0.0 by {
        if delta >= 0.0 { MulNonNeg(delta, a - 0.5 * delta); }
      }
      delta * (a - 0.5 * delta)
  }

  lemma MulNonNeg(x: real, y: real)
    requires x >= 0.0 && y >= 0.0
    ensures x * y >= 0.0
  {
  }

  lemma MulLeq(x: real, y: real, z: real)
    requires x <= y && z >= 0.0
    ensures x * z <= y * z
  {
  }

  /** `huber_loss(true, pred, delta, reduction)` */
  function HuberLoss(truth: seq<real>, pred: seq<real>, delta: real, reduction: string): (r: LossOut)
    requires |truth| == |pred|
    ensures r.Unreduced? ==> |r.xs| == |truth|
    ensures r.Unreduced? ==> forall i :: 0 <= i < |truth| ==> r.xs[i] <= 0.5 * (truth[i] - pred[i]) * (truth[i] - pred[i])
    ensures delta >= 0.0 && r.Reduced? && r.v.RealVal? ==> r.v.r >= 0.0
    ensures r == Reduce(HuberElements(truth, pred, delta), reduction)
  {
    var loss := HuberElements(truth, pred, delta);
    SumNonNeg(if delta >= 0.0 then loss else []);
    Reduce(loss, reduction)
  }

  function HuberElements(truth: seq<real>, pred: seq<real>, delta: real): (r: seq<real>)
    requires |truth| == |pred|
    ensures |r| == |truth| && forall i :: 0 <= i < |r| ==> r[i] == HuberElement(truth[i] - pred[i], delta)
  {
    seq(|truth|, i requires 0 <= i < |truth| => HuberElement(truth[i] - pred[i], delta))
  }

  /** The two branches meet at |d| = delta, so moving the boundary from the
      quadratic side to the linear side changes nothing. */
  lemma HuberBranchesMeet(d: real, delta: real)
    requires AbsR(d) == delta
    ensures HuberElement(d, delta) == delta * (AbsR(d) - 0.5 * delta)
  {
    assert HuberElement(d, delta) == 0.5 * AbsR(d) * AbsR(d);
  }

  // --------------------------------------------------------- smooth_l1_loss

  /** Below this beta the smooth L1 loss is the plain L1 loss. */
  const BETA_CUTOFF: real := 0.00001

  /** One element of `smooth_l1_loss`, for n = |input - target|. */
  function SmoothL1Element(x: real, y: real, beta: real): (r: real)
    ensures r <= AbsR(x - y)
    ensures r >= 0.0
    ensures beta >= 0.0 ==> r >= AbsR(x - y) - 0.5 * beta
  {
    var n := AbsR(x - y);
    if beta < BETA_CUTOFF then n
    else if n < beta then
      assert 0.5 * n * n / beta <= n by {
        MulLeq(n, 2.0 * beta, n);
        assert n * n <= 2.0 * beta * n;
      }
      assert n - 0.5 * beta <= 0.5 * n * n / beta by {
        assert 0.5 * n * n / beta - (n - 0.5 * beta) == 0.5 * (n - beta) * (n - beta) / beta;
        MulNonNeg((n - beta) * (n - beta), 1.0 / beta);
      }
      0.5 * n * n / beta
    else n - 0.5 * beta
  }

  function SmoothL1Elements(input: seq<real>, target: seq<real>, beta: real): (r: seq<real>)
    requires |input| == |target|
    ensures |r| == |input| && forall i :: 0 <= i < |r| ==> r[i] == SmoothL1Element(input[i], target[i], beta)
  {
    seq(|input|, i requires 0 <= i < |input| => SmoothL1Element(input[i], target[i], beta))
  }

  /** `smooth_l1_loss`: the dispatch has no fallback, so any reduction other
      than "mean", "sum" and "none" returns None. */
  function SmoothL1Loss(input: seq<real>, target: seq<real>, beta: real, reduction: string): (r: Option<LossOut>)
    requires |input| == |target|
    ensures r.None? <==> reduction != "mean" && reduction != "sum" && reduction != "none"
    ensures r.Some? ==> r.value == Reduce(SmoothL1Elements(input, target, beta), reduction)
  {
    var loss := SmoothL1Elements(input, target, beta);
    if reduction == "mean" then Some(Reduced(Mean(loss)))
    else if reduction == "sum" then Some(Reduced(RealVal(Sum(loss))))
    else if reduction == "none" then Some(Unreduced(loss))
    else None
  }

  /** Below the cutoff, smooth L1 is exactly the L1 loss for every reduction
      it accepts. */
  lemma SmoothL1BelowCutoffIsL1(input: seq<real>, target: seq<real>, beta: real, reduction: string)
    requires |input| == |target| && beta < BETA_CUTOFF
    requires reduction == "mean" || reduction == "sum" || reduction == "none"
    ensures SmoothL1Loss(input, target, beta, reduction) == Some(L1Loss(input, target, reduction))
  {
    var s := SmoothL1Elements(input, target, beta);
    var l := L1Elements(input, target);
    forall i | 0 <= i < |s| ensures s[i] == l[i] {
      assert AbsR(input[i] - target[i]) == AbsR(target[i] - input[i]);
    }
    assert s == l;
  }

  /** With delta = beta above the cutoff, the Huber element is beta times the
      smooth L1 element: the strict and inclusive boundaries agree because
      the branches meet. */
  lemma HuberIsScaledSmoothL1(x: real, y: real, beta: real)
    requires beta >= BETA_CUTOFF
    ensures HuberElement(x - y, beta) == beta * SmoothL1Element(x, y, beta)
  {
    var n := AbsR(x - y);
    if n < beta {
      assert beta * (0.5 * n * n / beta) == 0.5 * n * n;
    } else if n == beta {
      HuberBranchesMeet(x - y, beta);
    }
  }

  /** `smooth_l1_loss([1,2,3], [6,2,3], beta=1.0)` with the default "mean". */
  lemma SmoothL1Example()
    ensures SmoothL1Loss([1.0, 2.0, 3.0], [6.0, 2.0, 3.0], 1.0, "mean") == Some(Reduced(RealVal(1.5)))
  {
    var s := SmoothL1Elements([1.0, 2.0, 3.0], [6.0, 2.0, 3.0], 1.0);
    assert s == [4.5, 0.0, 0.0];
    assert Sum(s) == 4.5 by {
      assert s[..2] == [4.5, 0.0] && s[..2][..1] == [4.5];
      assert [4.5][..0] == [];
    }
  }

  // ------------------------------------------------------- soft_margin_loss

  /** sum(log1p(exp(-input * target))) / input.size, a 0-d value (NaN for an
      empty input, 0/0). */
  function SoftMarginValue(input: seq<real>, target: seq<real>, exp: real -> real, log1p: real -> real): (r: Scalar)
    requires |input| == |target|
    ensures r.NaN? <==> |input| == 0
  {
    var terms := seq(|input|, i requires 0 <= i < |input| => log1p(exp(-input[i] * target[i])));
    if |input| == 0 then NaN else RealVal(Sum(terms) / |input| as real)
  }

  /** `soft_margin_loss`: the loss is already a 0-d value before the
      dispatch, and summing or averaging a 0-d array returns it, so every
      reduction gives the same scalar. */
  function SoftMarginLoss(input: seq<real>, target: seq<real>, reduction: string,
                          exp: real -> real, log1p: real -> real): (r: LossOut)
    requires |input| == |target|
    ensures r == Reduced(SoftMarginValue(input, target, exp, log1p))
  {
    var loss := SoftMarginValue(input, target, exp, log1p);
    if reduction == "sum" then Reduced(loss)
    else if reduction == "mean" then Reduced(loss)
    else Reduced(loss)
  }

  // ----------------------------------------------------------------- kl_div

  /** Engine division agrees with real division away from a zero divisor. */
  ghost predicate IsDivision(div: (real, real) -> real) {
    forall a, b :: b != 0.0 ==> div(a, b) == a / b
  }

  /** The terms of one row: input * log(input / target), element-wise. */
  function KlTerms(p: seq<real>, q: seq<real>, log: real -> real, div: (real, real) -> real): (r: seq<real>)
    requires |p| == |q|
    ensures |r| == |p| && forall j :: 0 <= j < |r| ==> r[j] == p[j] * log(div(p[j], q[j]))
  {
    seq(|p|, j requires 0 <= j < |p| => p[j] * log(div(p[j], q[j])))
  }

  /** The per-row values: the sum over the last axis of the terms. A
      positive row measured against itself contributes 0 when the engine
      divides exactly and log(1) is 0. */
  function KlRows(input: seq<seq<real>>, target: seq<seq<real>>, log: real -> real,
                  div: (real, real) -> real): (r: seq<real>)
    requires |input| == |target| && forall i :: 0 <= i < |input| ==> |input[i]| == |target[i]|
    ensures |r| == |input|
    ensures forall i :: 0 <= i < |r| ==> r[i] == Sum(KlTerms(input[i], target[i], log, div))
    ensures IsDivision(div) && log(1.0) == 0.0 ==>
      forall i :: 0 <= i < |r| && (forall j :: 0 <= j < |input[i]| ==> input[i][j] > 0.0 && target[i][j] == input[i][j]) ==>
        r[i] == 0.0
  {
    var r := seq(|input|, i requires 0 <= i < |input| => Sum(KlTerms(input[i], target[i], log, div)));
    assert IsDivision(div) && log(1.0) == 0.0 ==>
      forall i :: 0 <= i < |r| && (forall j :: 0 <= j < |input[i]| ==> input[i][j] > 0.0 && target[i][j] == input[i][j]) ==>
        r[i] == 0.0 by {
      forall i | IsDivision(div) && log(1.0) == 0.0 && 0 <= i < |r| &&
                 (forall j :: 0 <= j < |input[i]| ==> input[i][j] > 0.0 && target[i][j] == input[i][j])
        ensures r[i] == 0.0
      {
        var terms := KlTerms(input[i], target[i], log, div);
        forall j | 0 <= j < |terms| ensures terms[j] == 0.0 {
          var x := input[i][j];
          assert x > 0.0 && div(x, x) == x / x;
          assert x / x == 1.0;
        }
        SumOfZeros(terms);
      }
    }
    r
  }

  /** `kl_div`: "sum" totals the rows, "mean" averages them, "batchmean"
      divides the total by size0, anything else returns the rows. The input
      is given by its rows over the last axis, every leading axis flattened:
      a 1-d input is one row, a (B, M, K) input B·M rows. size0 is
      `size[0]`, the input's first dimension, which is the row count only
      for a 2-d input. A size0 of 0 means the input holds no element, so
      its total is 0 and 0 / 0 is NaN. */
  function KlDiv(input: seq<seq<real>>, target: seq<seq<real>>, size0: nat, reduction: string,
                 log: real -> real, div: (real, real) -> real): (r: LossOut)
    requires |input| == |target| && forall i :: 0 <= i < |input| ==> |input[i]| == |target[i]|
    ensures r.Unreduced? <==> reduction != "sum" && reduction != "mean" && reduction != "batchmean"
    ensures r.Unreduced? ==> r.xs == KlRows(input, target, log, div)
    ensures reduction == "sum" ==> r == Reduced(RealVal(Sum(KlRows(input, target, log, div))))
    ensures reduction == "mean" ==> r == Reduced(Mean(KlRows(input, target, log, div)))
    ensures reduction == "batchmean" ==> r.Reduced? && (r.v.NaN? <==> size0 == 0)
    ensures reduction == "batchmean" && size0 > 0 ==>
      r == Reduced(RealVal(Sum(KlRows(input, target, log, div)) / size0 as real))
  {
    var loss := KlRows(input, target, log, div);
    if reduction == "sum" then Reduced(RealVal(Sum(loss)))
    else if reduction == "mean" then Reduced(Mean(loss))
    else if reduction == "batchmean" then
      Reduced(if size0 == 0 then NaN else RealVal(Sum(loss) / size0 as real))
    else Unreduced(loss)
  }

  /** "batchmean" is the mean scaled by the number of rows per entry of the
      first axis: the mean itself for a 2-d input (size0 rows), M times the
      mean for a (B, M, K) input. */
  lemma KlBatchmeanIsScaledMean(input: seq<seq<real>>, target: seq<seq<real>>, size0: nat, m: nat,
                                log: real -> real, div: (real, real) -> real)
    requires |input| == |target| && forall i :: 0 <= i < |input| ==> |input[i]| == |target[i]|
    requires size0 > 0 && m > 0 && |input| == m * size0
    ensures KlDiv(input, target, size0, "batchmean", log, div) ==
      Reduced(RealVal(m as real * Mean(KlRows(input, target, log, div)).r))
    ensures m == 1 ==> KlDiv(input, target, size0, "batchmean", log, div) == KlDiv(input, target, size0, "mean", log, div)
  {
    var total := Sum(KlRows(input, target, log, div));
    var n := |input| as real;
    assert n == m as real * size0 as real;
    assert m as real * (total / n) == total / size0 as real by {
      assert total / n * n == total;
      assert total / size0 as real * size0 as real == total;
      assert m as real * (total / n) * size0 as real == total;
    }
  }

  /** The divergence of a positive distribution from itself is zero under
      every reduction that yields a number. */
  lemma KlDivSelfIsZero(p: seq<seq<real>>, size0: nat, reduction: string, log: real -> real,
                        div: (real, real) -> real)
    requires IsDivision(div) && log(1.0) == 0.0
    requires forall i, j :: 0 <= i < |p| && 0 <= j < |p[i]| ==> p[i][j] > 0.0
    ensures forall k :: 0 <= k < |p| ==> KlRows(p, p, log, div)[k] == 0.0
    ensures reduction == "sum" || (reduction == "mean" && |p| > 0) || (reduction == "batchmean" && size0 > 0) ==>
      KlDiv(p, p, size0, reduction, log, div) == Reduced(RealVal(0.0))
  {
    var rows := KlRows(p, p, log, div);
    forall k | 0 <= k < |p| ensures rows[k] == 0.0 {
      assert forall j :: 0 <= j < |p[k]| ==> p[k][j] > 0.0 && p[k][j] == p[k][j];
    }
    ZeroRowsReduceToZero(p, p, size0, reduction, log, div);
  }

  /** Rows that are all 0 reduce to 0 under every reduction that yields a
      number. */
  lemma ZeroRowsReduceToZero(input: seq<seq<real>>, target: seq<seq<real>>, size0: nat, reduction: string,
                             log: real -> real, div: (real, real) -> real)
    requires |input| == |target| && forall i :: 0 <= i < |input| ==> |input[i]| == |target[i]|
    requires forall k :: 0 <= k < |input| ==> KlRows(input, target, log, div)[k] == 0.0
    ensures reduction == "sum" || (reduction == "mean" && |input| > 0) || (reduction == "batchmean" && size0 > 0) ==>
      KlDiv(input, target, size0, reduction, log, div) == Reduced(RealVal(0.0))
  {
    var rows := KlRows(input, target, log, div);
    SumOfZeros(rows);
  }

  // ------------------------------------------------------- log_poisson_loss

  const PI: real := 3.141592653589793

  /** exp(pred) - pred * true, plus, with compute_full_loss, the Stirling
      term wherever true lies outside [0, 1]. */
  function LogPoissonElement(t: real, p: real, full: bool, exp: real -> real, log: real -> real): (r: real)
    ensures !full || 0.0 <= t <= 1.0 ==> r == exp(p) - p * t
    ensures full && !(0.0 <= t <= 1.0) ==> r == exp(p) - p * t + (t * log(t) - t + 0.5 * log(2.0 * PI * t))
  {
    var loss := exp(p) - p * t;
    if full then
      loss + (if 0.0 <= t <= 1.0 then 0.0 else t * log(t) - t + 0.5 * log(2.0 * PI * t))
    else loss
  }

  /** The element-wise log Poisson loss of equal-length inputs. */
  function LogPoissonElements(truth: seq<real>, pred: seq<real>, full: bool,
                              exp: real -> real, log: real -> real): (r: seq<real>)
    requires |truth| == |pred|
    ensures |r| == |truth| && forall i :: 0 <= i < |r| ==> r[i] == LogPoissonElement(truth[i], pred[i], full, exp, log)
  {
    seq(|truth|, i requires 0 <= i < |truth| => LogPoissonElement(truth[i], pred[i], full, exp, log))
  }

  /** `log_poisson_loss` on a 1-d input with the default axis -1, which is
      the input's only axis. The shape assertion is only guarded against
      ValueError, so a mismatch escapes as an AssertionError. */
  function LogPoissonLoss(truth: seq<real>, pred: seq<real>, full: bool, reduction: string,
                          exp: real -> real, log: real -> real): (r: Result<LossOut>)
    ensures r.Err? <==> |truth| != |pred|
    ensures r.Err? ==> r.error == AssertionError
    ensures r.Ok? ==> r.value == Reduce(LogPoissonElements(truth, pred, full, exp, log), reduction)
  {
    if |truth| != |pred| then Err(AssertionError)
    else Ok(Reduce(LogPoissonElements(truth, pred, full, exp, log), reduction))
  }

  /** When every target lies in [0, 1] the Stirling term is masked out
      everywhere, so the full and the plain loss agree. */
  lemma LogPoissonFullOnUnitTargets(truth: seq<real>, pred: seq<real>, reduction: string,
                                    exp: real -> real, log: real -> real)
    requires forall i :: 0 <= i < |truth| ==> 0.0 <= truth[i] <= 1.0
    ensures LogPoissonLoss(truth, pred, true, reduction, exp, log) == LogPoissonLoss(truth, pred, false, reduction, exp, log)
  {
    if |truth| == |pred| {
      assert LogPoissonElements(truth, pred, true, exp, log) == LogPoissonElements(truth, pred, false, exp, log);
    }
  }
}
