/** The paddle frontend's FFT helpers: the shift amounts of fftshift and
    ifftshift, applied as rotations along one axis, the default transform
    lengths, the assembly of irfft's Hermitian spectrum and the length of
    rfftfreq. The transforms themselves and the roll over several axes of an
    N-d tensor are the engine's; rotations are modelled on one axis. */
module PaddleFft {
  import opened Common
  import PaddleLayers

  // ------------------------------------------------------------- rotations

  /** i mod n, in [0, n). */
  function Wrap(i: int, n: int): (r: int)
    requires n > 0
    ensures 0 <= r < n
  {
    i % n
  }

  /** `ivy.roll(s, shift)` on one axis: position j receives the element
      shift places before it, cyclically, so element i lands at
      (i + shift) mod n. */
  function Roll<T>(s: seq<T>, shift: int): (r: seq<T>)
    ensures |r| == |s|
    ensures forall i :: 0 <= i < |s| ==> r[Wrap(i + shift, |s|)] == s[i]
  {
    var r := seq(|s|, j requires 0 <= j < |s| => s[Wrap(j - shift, |s|)]);
    assert forall i :: 0 <= i < |s| ==> r[Wrap(i + shift, |s|)] == s[i] by {
      forall i | 0 <= i < |s| ensures r[Wrap(i + shift, |s|)] == s[i] {
        var k := Wrap(i + shift, |s|);
        assert r[k] == s[Wrap(k - shift, |s|)];
        ModShift(i + shift, -shift, |s|);
        ModOfSmall(i, |s|);
      }
    }
    r
  }

  lemma RollAt<T>(s: seq<T>, shift: int, j: int)
    requires 0 <= j < |s|
    ensures Roll(s, shift)[j] == s[Wrap(j - shift, |s|)]
  {
  }

  /** Adding a multiple of n does not change a residue. */
  lemma ModShift(y: int, a: int, n: int)
    requires n > 0
    ensures ((y % n) + a) % n == (y + a) % n
  {
    var q := y / n;
    var m := (y + a) % n;
    assert (y + a) == ((y + a) / n) * n + m;
    DivModUnique((y % n) + a, n, (y + a) / n - q, m);
  }

  /** Rolling twice rolls by the sum. */
  lemma RollAdd<T>(s: seq<T>, a: int, b: int)
    ensures Roll(Roll(s, a), b) == Roll(s, a + b)
  {
    var n := |s|;
    if n > 0 {
      var x := Roll(s, a);
      forall j | 0 <= j < n ensures Roll(x, b)[j] == Roll(s, a + b)[j] {
        RollAddAt(s, a, b, j);
      }
    }
  }

  lemma RollAddAt<T>(s: seq<T>, a: int, b: int, j: int)
    requires 0 <= j < |s|
    ensures Roll(Roll(s, a), b)[j] == Roll(s, a + b)[j]
  {
    var n := |s|;
    var k := Wrap(j - b, n);
    RollAt(Roll(s, a), b, j);
    RollAt(s, a, k);
    RollAt(s, a + b, j);
    assert Wrap(k - a, n) == Wrap(j - (a + b), n) by {
      ModShift(j - b, -a, n);
    }
  }

  /** A roll by a multiple of the length is the identity. */
  lemma RollMultiple<T>(s: seq<T>, k: int)
    requires |s| == 0 || k % |s| == 0
    ensures Roll(s, k) == s
  {
    var n := |s|;
    if n > 0 {
      forall j | 0 <= j < n ensures Roll(s, k)[j] == s[j] {
        RollAt(s, k, j);
        assert k == (k / n) * n;
        DivModUnique(j - k, n, -(k / n), j);
      }
    }
  }

  // ----------------------------------------------------------- shift amounts

  /** The `axes` argument: None, one int, or a list of ints. */
  datatype Axes = AllAxes | OneAxis(axis: int) | AxisList(axes: seq<int>)

  /** One `(axis, shift)` pair handed to `ivy.roll`. */
  datatype AxisShift = AxisShift(axis: int, shift: int)

  /** `ivy.concat` applied to a Python list of ints, as the active engine
      runs it: `Some(e)` when the engine raises `e` (concatenating
      zero-dimensional values), `None` when it yields those ints, in order,
      as a 1-d array. */
  type IntConcat = seq<int> -> Option<Error>

  /** `n // 2` */
  function HalfDown(n: int): int { n / 2 }

  /** `-(n // 2)` */
  function NegHalfDown(n: int): int { -(n / 2) }

  /** `-n // 2`, which Python reads as `(-n) // 2` */
  function HalfOfNeg(n: int): int { (-n) / 2 }

  /** The roll amounts of `fftshift`: half of each axis length, rounded
      down; `shape[axis]` raises IndexError for an axis out of range, and a
      list of axes goes through the engine's concatenation. */
  function FftShiftShifts(shape: seq<nat>, axes: Axes, concat: IntConcat): (r: Result<seq<AxisShift>>)
    ensures axes.AllAxes? ==> (r.Ok? && |r.value| == |shape| &&
      forall i :: 0 <= i < |shape| ==> r.value[i] == AxisShift(i, shape[i] / 2))
    ensures r.Ok? ==> forall i :: 0 <= i < |r.value| ==>
      -|shape| <= r.value[i].axis < |shape| && r.value[i].shift == PyIndex(shape, r.value[i].axis).value / 2
    ensures r.Err? ==> r.error == IndexError || (axes.AxisList? && Some(r.error) in ConcatOutcomes(concat, shape, axes.axes, HalfDown))
  {
    ShiftsBy(shape, axes, HalfDown, HalfDown, concat)
  }

  /** The roll amounts of `ifftshift` as written: -(n // 2) for None or an
      int axis, but `-shape[ax] // 2`, that is (-n) // 2, for a list. */
  function IfftShiftShifts(shape: seq<nat>, axes: Axes, concat: IntConcat): (r: Result<seq<AxisShift>>)
    ensures axes.AllAxes? ==> (r.Ok? && |r.value| == |shape| &&
      forall i :: 0 <= i < |shape| ==> r.value[i] == AxisShift(i, -(shape[i] as int / 2)))
    ensures axes.AxisList? && r.Ok? ==> forall i :: 0 <= i < |r.value| ==>
      -|shape| <= r.value[i].axis < |shape| &&
      r.value[i].shift == (-(PyIndex(shape, r.value[i].axis).value as int)) / 2
    ensures r.Err? ==> r.error == IndexError || (axes.AxisList? && Some(r.error) in ConcatOutcomes(concat, shape, axes.axes, HalfOfNeg))
  {
    ShiftsBy(shape, axes, NegHalfDown, HalfOfNeg, concat)
  }

  /** The roll amounts `ifftshift` evidently intends: -(n // 2) in every
      branch. It fails exactly where fftshift does when the engine's
      concatenation does not depend on the values it joins. */
  function IfftShiftShiftsIntended(shape: seq<nat>, axes: Axes, concat: IntConcat): (r: Result<seq<AxisShift>>)
    ensures UniformConcat(concat) ==> (r.Ok? <==> FftShiftShifts(shape, axes, concat).Ok?)
    ensures r.Ok? && FftShiftShifts(shape, axes, concat).Ok? ==>
      (|r.value| == |FftShiftShifts(shape, axes, concat).value| &&
      forall i :: 0 <= i < |r.value| ==>
        (r.value[i].axis == FftShiftShifts(shape, axes, concat).value[i].axis &&
         r.value[i].shift == -FftShiftShifts(shape, axes, concat).value[i].shift))
  {
    ShiftsBy(shape, axes, NegHalfDown, NegHalfDown, concat)
  }

  /** An engine whose concatenation of a list of ints succeeds or fails by
      the list's length alone. */
  ghost predicate UniformConcat(concat: IntConcat) {
    forall a: seq<int>, b: seq<int> :: |a| == |b| ==> concat(a) == concat(b)
  }

  /** The shifts a list of axes asks for, before the engine joins them. */
  function ListedShifts(shape: seq<nat>, axes: seq<int>, listed: int -> int): (r: seq<int>)
    requires forall i :: 0 <= i < |axes| ==> -|shape| <= axes[i] < |shape|
    ensures |r| == |axes|
  {
    seq(|axes|, i requires 0 <= i < |axes| => listed(PyIndex(shape, axes[i]).value))
  }

  /** What the engine's concatenation reports for a list of axes: the set
      holding its outcome when every axis is in range, else nothing. */
  ghost function ConcatOutcomes(concat: IntConcat, shape: seq<nat>, axes: seq<int>, listed: int -> int): set<Option<Error>>
  {
    if forall i :: 0 <= i < |axes| ==> -|shape| <= axes[i] < |shape| then {concat(ListedShifts(shape, axes, listed))} else {}
  }

  /** The three branches, with `single` the shift for None or an int axis
      and `listed` the shift inside the list comprehension, whose values
      the engine then concatenates. */
  function ShiftsBy(shape: seq<nat>, axes: Axes, single: int -> int, listed: int -> int,
                    concat: IntConcat): (r: Result<seq<AxisShift>>)
    ensures axes.AllAxes? ==> (r.Ok? && |r.value| == |shape| &&
      forall i :: 0 <= i < |shape| ==> r.value[i] == AxisShift(i, single(shape[i])))
    ensures axes.OneAxis? ==> (r.Ok? <==> -|shape| <= axes.axis < |shape|)
    ensures axes.OneAxis? && r.Ok? ==> r.value == [AxisShift(axes.axis, single(PyIndex(shape, axes.axis).value))]
    ensures axes.AxisList? && !(forall i :: 0 <= i < |axes.axes| ==> -|shape| <= axes.axes[i] < |shape|) ==>
      r == Err(IndexError)
    ensures axes.AxisList? && (forall i :: 0 <= i < |axes.axes| ==> -|shape| <= axes.axes[i] < |shape|) ==>
      (r.Ok? <==> concat(ListedShifts(shape, axes.axes, listed)).None?) &&
      (r.Err? ==> Some(r.error) == concat(ListedShifts(shape, axes.axes, listed)))
    ensures axes.AxisList? && r.Ok? ==> |r.value| == |axes.axes| && forall i :: 0 <= i < |r.value| ==>
      r.value[i] == AxisShift(axes.axes[i], listed(PyIndex(shape, axes.axes[i]).value))
    ensures r.Ok? ==> forall i :: 0 <= i < |r.value| ==> -|shape| <= r.value[i].axis < |shape|
    ensures r.Err? ==> r.error == IndexError || (axes.AxisList? && Some(r.error) in ConcatOutcomes(concat, shape, axes.axes, listed))
  {
    match axes
    case AllAxes => Ok(seq(|shape|, i requires 0 <= i < |shape| => AxisShift(i, single(shape[i]))))
    case OneAxis(a) =>
      var n :- PyIndex(shape, a);
      Ok([AxisShift(a, single(n))])
    case AxisList(as_) =>
      if forall i :: 0 <= i < |as_| ==> -|shape| <= as_[i] < |shape| then
        var values := ListedShifts(shape, as_, listed);
        match concat(values)
        case Some(e) => Err(e)
        case None => Ok(seq(|as_|, i requires 0 <= i < |as_| => AxisShift(as_[i], values[i])))
      else Err(IndexError)
  }

  /** Rolling a one-dimensional signal by each pair in turn; on a 1-d
      input every valid axis names the same axis, and repeated axes add up
      as in `ivy.roll`. */
  function RollAll<T>(s: seq<T>, shifts: seq<AxisShift>): (r: seq<T>)
    ensures |r| == |s|
    decreases |shifts|
  {
    if shifts == [] then s else RollAll(Roll(s, shifts[0].shift), shifts[1..])
  }

  function TotalShift(shifts: seq<AxisShift>): int {
    if shifts == [] then 0 else shifts[0].shift + TotalShift(shifts[1..])
  }

  lemma {:induction false} RollAllIsOneRoll<T>(s: seq<T>, shifts: seq<AxisShift>)
    ensures RollAll(s, shifts) == Roll(s, TotalShift(shifts))
    decreases |shifts|
  {
    if shifts == [] {
      RollMultiple(s, 0);
    } else {
      RollAllIsOneRoll(Roll(s, shifts[0].shift), shifts[1..]);
      RollAdd(s, shifts[0].shift, TotalShift(shifts[1..]));
    }
  }

  function FftShift1D<T>(s: seq<T>, axes: Axes, concat: IntConcat): (r: Result<seq<T>>)
    ensures r.Ok? <==> FftShiftShifts([|s|], axes, concat).Ok?
    ensures r.Err? ==> r.error == FftShiftShifts([|s|], axes, concat).error
    ensures r.Ok? ==> r.value == Roll(s, TotalShift(FftShiftShifts([|s|], axes, concat).value))
  {
    var shifts :- FftShiftShifts([|s|], axes, concat);
    RollAllIsOneRoll(s, shifts);
    Ok(RollAll(s, shifts))
  }

  function IfftShift1D<T>(s: seq<T>, axes: Axes, concat: IntConcat): (r: Result<seq<T>>)
    ensures r.Ok? <==> IfftShiftShifts([|s|], axes, concat).Ok?
    ensures r.Err? ==> r.error == IfftShiftShifts([|s|], axes, concat).error
    ensures r.Ok? ==> r.value == Roll(s, TotalShift(IfftShiftShifts([|s|], axes, concat).value))
  {
    var shifts :- IfftShiftShifts([|s|], axes, concat);
    RollAllIsOneRoll(s, shifts);
    Ok(RollAll(s, shifts))
  }

  function IfftShift1DIntended<T>(s: seq<T>, axes: Axes, concat: IntConcat): (r: Result<seq<T>>)
    ensures r.Ok? <==> IfftShiftShiftsIntended([|s|], axes, concat).Ok?
    ensures r.Err? ==> r.error == IfftShiftShiftsIntended([|s|], axes, concat).error
    ensures r.Ok? ==> r.value == Roll(s, TotalShift(IfftShiftShiftsIntended([|s|], axes, concat).value))
  {
    var shifts :- IfftShiftShiftsIntended([|s|], axes, concat);
    RollAllIsOneRoll(s, shifts);
    Ok(RollAll(s, shifts))
  }

  lemma {:induction false} TotalShiftNegated(a: seq<AxisShift>, b: seq<AxisShift>)
    requires |a| == |b| && forall i :: 0 <= i < |a| ==> b[i].shift == -a[i].shift
    ensures TotalShift(b) == -TotalShift(a)
  {
    if a != [] { TotalShiftNegated(a[1..], b[1..]); }
  }

  /** The intended ifftshift undoes fftshift for every form of `axes`, on
      an engine whose concatenation depends only on the list's length. */
  lemma IfftShiftIntendedRoundTrip<T>(s: seq<T>, axes: Axes, concat: IntConcat)
    requires UniformConcat(concat)
    requires FftShift1D(s, axes, concat).Ok?
    ensures IfftShift1DIntended(FftShift1D(s, axes, concat).value, axes, concat) == Ok(s)
  {
    var f := FftShiftShifts([|s|], axes, concat).value;
    var g := IfftShiftShiftsIntended([|s|], axes, concat).value;
    TotalShiftNegated(f, g);
    RollAdd(s, TotalShift(f), TotalShift(g));
    RollMultiple(s, 0);
  }

  /** As written, ifftshift with None or an int axis undoes fftshift. */
  lemma IfftShiftRoundTrip<T>(s: seq<T>, axes: Axes, concat: IntConcat)
    requires axes.AllAxes? || axes.OneAxis?
    requires FftShift1D(s, axes, concat).Ok?
    ensures IfftShift1D(FftShift1D(s, axes, concat).value, axes, concat) == Ok(s)
  {
    var f := FftShiftShifts([|s|], axes, concat).value;
    var g := IfftShiftShifts([|s|], axes, concat).value;
    assert IfftShiftShifts([|s|], axes, concat) == IfftShiftShiftsIntended([|s|], axes, concat);
    TotalShiftNegated(f, g);
    RollAdd(s, TotalShift(f), TotalShift(g));
    RollMultiple(s, 0);
  }

  /** As written, the list branch of ifftshift never undoes fftshift on an
      odd axis: where the engine joins the listed ints, fftshift then
      ifftshift over axes [0] turns [0, 1, 2] into [1, 2, 0]; where it
      raises, both calls raise. */
  lemma IfftShiftListOddLength(concat: IntConcat)
    ensures FftShift1D([0, 1, 2], AxisList([0]), concat) ==
      if concat([1]).Some? then Err(concat([1]).value) else Ok([2, 0, 1])
    ensures IfftShift1D([2, 0, 1], AxisList([0]), concat) ==
      if concat([-2]).Some? then Err(concat([-2]).value) else Ok([1, 2, 0])
  {
    FftShiftOfThree(concat);
    IfftShiftOfThree(concat);
  }

  /** fftshift over axes [0] asks the engine to join [1], then rolls
      [0, 1, 2] by one place. */
  lemma FftShiftOfThree(concat: IntConcat)
    ensures FftShift1D([0, 1, 2], AxisList([0]), concat) ==
      if concat([1]).Some? then Err(concat([1]).value) else Ok([2, 0, 1])
  {
    assert [|[0, 1, 2]|] == [3];
    ListShiftsOfThree(HalfDown, 1, concat);
    if concat([1]).None? {
      assert TotalShift([AxisShift(0, 1)]) == 1;
      RollThree([0, 1, 2], 1, [2, 0, 1]);
    }
  }

  /** ifftshift over axes [0], as written, asks the engine to join [-2],
      then rolls a length-3 axis back by two places. */
  lemma IfftShiftOfThree(concat: IntConcat)
    ensures IfftShift1D([2, 0, 1], AxisList([0]), concat) ==
      if concat([-2]).Some? then Err(concat([-2]).value) else Ok([1, 2, 0])
  {
    assert [|[2, 0, 1]|] == [3];
    ListShiftsOfThree(HalfOfNeg, -2, concat);
    if concat([-2]).None? {
      assert TotalShift([AxisShift(0, -2)]) == -2;
      RollThree([2, 0, 1], -2, [1, 2, 0]);
    }
  }

  /** The list branch over axes [0] of a length-3 axis whose listed shift
      is `v`. */
  lemma ListShiftsOfThree(listed: int -> int, v: int, concat: IntConcat)
    requires listed(3) == v
    ensures ShiftsBy([3], AxisList([0]), HalfDown, listed, concat) ==
      if concat([v]).Some? then Err(concat([v]).value) else Ok([AxisShift(0, v)])
    ensures ShiftsBy([3], AxisList([0]), NegHalfDown, listed, concat) ==
      if concat([v]).Some? then Err(concat([v]).value) else Ok([AxisShift(0, v)])
  {
    var shape: seq<nat> := [3];
    assert PyIndex(shape, 0) == Ok(3);
    assert ListedShifts(shape, [0], listed)[0] == v;
    assert ListedShifts(shape, [0], listed) == [v];
    if concat([v]).None? {
      var f := ShiftsBy(shape, AxisList([0]), HalfDown, listed, concat);
      assert f.Ok? && |f.value| == 1 && f.value[0] == AxisShift(0, v);
      assert f.value == [AxisShift(0, v)];
      var g := ShiftsBy(shape, AxisList([0]), NegHalfDown, listed, concat);
      assert g.Ok? && |g.value| == 1 && g.value[0] == AxisShift(0, v);
      assert g.value == [AxisShift(0, v)];
    }
  }

  /** A roll of a three-element sequence, checked position by position. */
  lemma RollThree(s: seq<int>, shift: int, t: seq<int>)
    requires |s| == 3 && |t| == 3
    requires forall j :: 0 <= j < 3 ==> t[j] == s[Wrap(j - shift, 3)]
    ensures Roll(s, shift) == t
  {
    forall j | 0 <= j < 3 ensures Roll(s, shift)[j] == t[j] {
      RollAt(s, shift, j);
    }
  }

  // ---------------------------------------------------- transform lengths

  /** `hfft`/`irfft` with n None: 2 * (x.shape[axis] - 1). A float axis
      (irfft's default -1.0) cannot index a shape: TypeError. */
  function DefaultInverseLength(shape: seq<nat>, axis: PaddleLayers.PyNum): (r: Result<int>)
    ensures axis.PInt? && -|shape| <= axis.i < |shape| ==> r == Ok(2 * (PyIndex(shape, axis.i).value as int - 1))
    ensures axis.PInt? && !(-|shape| <= axis.i < |shape|) ==> r == Err(IndexError)
    ensures !axis.PInt? ==> r == Err(TypeError)
    ensures r.Ok? ==> r.value % 2 == 0 && r.value >= -2
  {
    if !axis.PInt? then Err(TypeError)
    else
      var len :- PyIndex(shape, axis.i);
      Ok(2 * (len as int - 1))
  }

  /** The frontend `fft`/`ifft`: a cast to complex128, then the backend
      call with the frontend's axis. */
  function FrontendFft(shape: seq<nat>, n: Option<PaddleLayers.PyNum>, axis: PaddleLayers.PyNum,
                       norm: string): (r: Result<PaddleLayers.FftCall>)
    ensures r.Ok? ==> r.value.dtype == Complex128
  {
    PaddleLayers.Fft(shape, Complex128, axis, norm, n)
  }

  /** The frontend default axis -1.0 is a float, which the paddle backend
      rejects whatever the input. */
  lemma FrontendFftDefaultAxisRejected(shape: seq<nat>, n: Option<PaddleLayers.PyNum>, norm: string)
    ensures FrontendFft(shape, n, PaddleLayers.PFloat(-1.0), norm) == Err(IvyValueError)
  {
    PaddleLayers.FftRejectsFloatDim(shape, Complex128, -1.0, norm, n);
  }

  // ------------------------------------------------------- irfft spectrum

  /** irfft's spectrum on a 1-d input: `take_along_axis` in its default
      fill mode reads positions 0 .. n // 2, putting the engine's sentinel
      `fill` wherever x has no such term; then come the conjugates of
      terms n // 2 - 1 down to 1. A negative n (an empty x with n None)
      reads nothing. */
  function IrfftTerms<C>(x: seq<C>, n: int, fill: C, conj: C -> C): (r: seq<C>)
    ensures |r| == if n / 2 >= 1 then 2 * (n / 2) else Max(0, n / 2 + 1)
    ensures forall k :: 0 <= k <= n / 2 ==> r[k] == if k < |x| then x[k] else fill
    ensures forall m :: 0 <= n / 2 < m < |r| ==> r[m] == conj(r[2 * (n / 2) - m])
  {
    var pos := seq(Max(0, n / 2 + 1), k requires 0 <= k => if k < |x| then x[k] else fill);
    var inner := if |pos| >= 2 then pos[1..|pos| - 1] else [];
    var neg := seq(|inner|, j requires 0 <= j < |inner| => conj(Reverse(inner)[j]));
    var r := pos + neg;
    forall m | 0 <= n / 2 < m < |r| ensures r[m] == conj(r[2 * (n / 2) - m]) {
      var j := m - (n / 2 + 1);
      assert r[m] == neg[j];
      assert Reverse(inner)[j] == inner[|inner| - 1 - j];
      assert inner[|inner| - 1 - j] == pos[n / 2 - 1 - j];
    }
    r
  }

  // ------------------------------------------------------------ rfftfreq

  /** `rfftfreq(n, d)`: n // 2 + 1 sample frequencies i / (n * d); the
      `dtype` argument is overwritten by the default dtype, so it does not
      appear. A zero n * d divides by zero. */
  function RfftFreq(n: int, d: real): (r: Result<seq<real>>)
    ensures r.Err? <==> n as real * d == 0.0
    ensures r.Err? ==> r.error == ZeroDivisionError
    ensures r.Ok? ==> |r.value| == Max(0, n / 2 + 1)
    ensures r.Ok? ==> forall i :: 0 <= i < |r.value| ==> r.value[i] * (n as real * d) == i as real
  {
    if n as real * d == 0.0 then Err(ZeroDivisionError)
    else
      var val := 1.0 / (n as real * d);
      Ok(seq(Max(0, n / 2 + 1), i => i as real * val))
  }
}
