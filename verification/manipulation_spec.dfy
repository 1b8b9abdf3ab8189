/** Reference definitions that the paddle and tensorflow manipulation kernels
    are both proved against: the fill value of `take_along_axis`, the runs of
    `unique_consecutive` and the flat positions `fill_diagonal` writes. */
module ManipulationSpec {
  import opened Common

  // ---------------------------------------------------------------------
  // take_along_axis

  /** The modes `take_along_axis` accepts. */
  predicate ValidTakeMode(mode: string) {
    mode == "clip" || mode == "fill" || mode == "drop"
  }

  /** `axis += ndim` when the axis is negative. */
  function NormAxis(axis: int, ndim: nat): int {
    if axis < 0 then axis + ndim else axis
  }

  /** The value that fill/drop mode reads for an index outside the axis:
      NaN for float and complex dtypes, the dtype maximum for unsigned ones,
      `-max - 1` for signed ones; any other dtype is a TypeError. */
  function FillValue(d: DType): (r: Result<Scalar>)
    ensures r.Err? <==> d == Bool
    ensures r.Err? ==> r.error == TypeError
  {
    if IsFloatOrComplex(d) then Ok(NaN)
    else if IsUnsigned(d) then Ok(IntVal(IntMax(d)))
    else if IsSigned(d) then Ok(IntVal(-IntMax(d) - 1))
    else Err(TypeError)
  }

  /** The sentinel is the extreme value of the integer dtype: its maximum when
      unsigned, its minimum `-2^(bits-1)` when signed. */
  lemma FillValueIsExtreme(d: DType)
    ensures IsFloatOrComplex(d) ==> FillValue(d) == Ok(NaN)
    ensures IsUnsigned(d) ==> FillValue(d) == Ok(IntVal(IntMax(d)))
    ensures IsSigned(d) ==> FillValue(d) == Ok(IntVal(IntMin(d)))
  {
  }

  /** Clip mode: `clip(i, 0, n - 1)`, i.e. `min(max(i, 0), n - 1)`. */
  function ClipIndex(i: int, n: int): (r: int)
    ensures n >= 1 ==> 0 <= r < n
    ensures 0 <= i < n ==> r == i
  {
    Min(Max(i, 0), n - 1)
  }

  /** The native gather along one line: each index reads `line[i]`, a
      negative index counting from the end; an index outside the line is an
      IndexError. */
  function GatherLine(line: seq<Scalar>, idx: seq<int>): (r: Result<seq<Scalar>>)
    ensures r.Ok? <==> forall j :: 0 <= j < |idx| ==> -|line| <= idx[j] < |line|
    ensures r.Ok? ==> |r.value| == |idx|
    ensures r.Ok? ==> forall j :: 0 <= j < |idx| ==> Ok(r.value[j]) == PyIndex(line, idx[j])
  {
    if forall j :: 0 <= j < |idx| ==> -|line| <= idx[j] < |line| then
      Ok(seq(|idx|, j requires 0 <= j < |idx| => PyIndex(line, idx[j]).value))
    else
      Err(IndexError)
  }

  // ---------------------------------------------------------------------
  // top_k

  /** An argsort of `key`: a permutation of range(|key|) listing key in
      ascending order. */
  predicate IsArgsort(key: seq<real>, a: seq<int>) {
    |a| == |key|
    && (forall i :: 0 <= i < |a| ==> 0 <= a[i] < |key|)
    && (forall v :: 0 <= v < |key| ==> v in a)
    && (forall i, j :: 0 <= i < j < |a| ==> key[a[i]] <= key[a[j]])
  }

  /** `-x` */
  function Negate(x: seq<real>): (r: seq<real>)
    ensures |r| == |x| && forall i :: 0 <= i < |x| ==> r[i] == -x[i]
  {
    seq(|x|, i requires 0 <= i < |x| => -x[i])
  }

  datatype TopK = TopK(values: seq<real>, indices: seq<int>)

  /** The entries are in ascending order (what `sort` returns). */
  predicate Ascending(s: seq<int>) {
    forall i, j :: 0 <= i < j < |s| ==> s[i] <= s[j]
  }

  /** The tail both backends share once a ranking `order` of the positions is
      known: keep its first `min(k, n)` entries (none for a negative k, as
      `arange(k)` is then empty), re-sort them ascending when `sorted` is off
      (`sortIdx` is the engine's `sort`: a permutation into ascending order),
      and gather the values at the kept positions. */
  function SelectTopK(x: seq<real>, order: seq<int>, k: int, sorted: bool,
                      sortIdx: seq<int> -> seq<int>): (r: TopK)
    requires |order| == |x|
    requires forall i :: 0 <= i < |order| ==> 0 <= order[i] < |x|
    requires forall s :: multiset(sortIdx(s)) == multiset(s)
    requires forall s :: Ascending(sortIdx(s))
    ensures |r.indices| == Max(0, Min(k, |x|)) && |r.values| == |r.indices|
    ensures forall j :: 0 <= j < |r.indices| ==> 0 <= r.indices[j] < |x| && r.values[j] == x[r.indices[j]]
    ensures sorted ==> r.indices == order[..Max(0, Min(k, |x|))]
    ensures multiset(r.indices) == multiset(order[..Max(0, Min(k, |x|))])
    ensures !sorted ==> Ascending(r.indices)
  {
    var m := Max(0, Min(k, |x|));
    var kept := order[..m];
    var idx := if sorted then kept else sortIdx(kept);
    assert |idx| == m by {
      assert |multiset(idx)| == |multiset(kept)|;
    }
    assert forall j :: 0 <= j < |idx| ==> 0 <= idx[j] < |x| by {
      forall j | 0 <= j < |idx| ensures 0 <= idx[j] < |x| {
        assert idx[j] in multiset(idx);
        assert idx[j] in kept;
      }
    }
    TopK(seq(m, j requires 0 <= j < m => x[idx[j]]), idx)
  }

  /** When `order` is an argsort of `key`, the kept positions rank first: no
      position left out has a smaller key than a kept one, and with `sorted`
      the kept keys come in ascending order. */
  lemma {:induction false} SelectTopKRanks(x: seq<real>, key: seq<real>, order: seq<int>, k: int,
                                           sorted: bool, sortIdx: seq<int> -> seq<int>)
    requires |key| == |x| && IsArgsort(key, order)
    requires forall s :: multiset(sortIdx(s)) == multiset(s)
    requires forall s :: Ascending(sortIdx(s))
    ensures var r := SelectTopK(x, order, k, sorted, sortIdx);
      forall i, j :: 0 <= i < |x| && i !in r.indices && 0 <= j < |r.indices| ==> key[r.indices[j]] <= key[i]
    ensures var r := SelectTopK(x, order, k, sorted, sortIdx);
      sorted ==> forall j1, j2 :: 0 <= j1 < j2 < |r.indices| ==> key[r.indices[j1]] <= key[r.indices[j2]]
  {
    var r := SelectTopK(x, order, k, sorted, sortIdx);
    var m := Max(0, Min(k, |x|));
    forall i, j | 0 <= i < |x| && i !in r.indices && 0 <= j < |r.indices|
      ensures key[r.indices[j]] <= key[i]
    {
      assert i !in multiset(order[..m]);
      assert r.indices[j] in multiset(order[..m]);
      KeptRanksFirst(key, order, m, i, r.indices[j]);
    }
  }

  /** A position among the first m of an argsort has a key no larger than
      any position outside them. */
  lemma KeptRanksFirst(key: seq<real>, order: seq<int>, m: int, i: int, v: int)
    requires IsArgsort(key, order) && 0 <= m <= |order|
    requires 0 <= i < |key| && i !in multiset(order[..m])
    requires v in multiset(order[..m])
    ensures key[v] <= key[i]
  {
    assert i in order;
    var p :| 0 <= p < |order| && order[p] == i;
    assert forall q :: 0 <= q < m ==> order[..m][q] != i;
    assert v in order[..m];
    var q :| 0 <= q < m && order[..m][q] == v;
    assert q < p;
  }

  // ---------------------------------------------------------------------
  // unique_consecutive

  /** The three results of `unique_consecutive`; `inverseShape` is the shape
      the inverse indices are reshaped to. */
  datatype UniqueResult<T> =
    UniqueResult(output: seq<T>, inverse: seq<int>, inverseShape: seq<int>, counts: seq<int>)

  /** The split positions: every p in [1, |x|) where slice p differs from
      slice p - 1 (`where(any(diff(x) ...)) + 1`), in increasing order. */
  function SplitIndices<T>(x: seq<T>, differ: (T, T) -> bool): (r: seq<int>)
    ensures forall i :: 0 <= i < |r| ==> 1 <= r[i] < |x|
    ensures forall i, j :: 0 <= i < j < |r| ==> r[i] < r[j]
    decreases |x|
  {
    if |x| <= 1 then []
    else SplitIndices(x[..|x| - 1], differ) + (if differ(x[|x| - 2], x[|x| - 1]) then [|x| - 1] else [])
  }

  /** Position p is a split position exactly when slice p differs from slice p - 1. */
  lemma {:induction false} SplitIndicesExact<T>(x: seq<T>, differ: (T, T) -> bool, p: int)
    requires 1 <= p < |x|
    ensures p in SplitIndices(x, differ) <==> differ(x[p - 1], x[p])
    decreases |x|
  {
    var x' := x[..|x| - 1];
    if p < |x| - 1 {
      SplitIndicesExact(x', differ, p);
      assert x'[p - 1] == x[p - 1] && x'[p] == x[p];
    }
  }

  /** The sub-array sizes: the first split position, the gaps between split
      positions, and what is left after the last one; `[n]` with no split. */
  function SplitSizes(sp: seq<int>, n: int): (r: seq<int>)
    ensures |r| == |sp| + 1
  {
    if |sp| > 0 then
      [sp[0]] + seq(|sp| - 1, i requires 0 <= i < |sp| - 1 => sp[i + 1] - sp[i]) + [n - sp[|sp| - 1]]
    else
      [n]
  }

  /** The `counts` result: the lengths of the sub-arrays. */
  function RunCounts<T>(x: seq<T>, differ: (T, T) -> bool): seq<int>
  {
    SplitSizes(SplitIndices(x, differ), |x|)
  }

  /** `repeat_interleave(vals, counts)`: vals[k] repeated counts[k] times, in order. */
  function RepeatInterleave(vals: seq<int>, counts: seq<int>): (r: seq<int>)
    requires |vals| == |counts|
    requires forall k :: 0 <= k < |counts| ==> counts[k] >= 0
    ensures |r| == SumInt(counts)
  {
    if counts == [] then []
    else
      RepeatInterleave(vals[..|vals| - 1], counts[..|counts| - 1])
      + Repeat(vals[|vals| - 1], counts[|counts| - 1])
  }

  /** Reference definition of the inverse indices: position p belongs to run
      number RunIds(x)[p]; the run number starts at 0 and goes up by one
      exactly where slice p differs from slice p - 1. */
  function RunIds<T>(x: seq<T>, differ: (T, T) -> bool): (r: seq<int>)
    ensures |r| == |x|
    ensures |x| > 0 ==> r[0] == 0
    decreases |x|
  {
    if |x| == 0 then []
    else if |x| == 1 then [0]
    else
      var q := RunIds(x[..|x| - 1], differ);
      q + [q[|x| - 2] + (if differ(x[|x| - 2], x[|x| - 1]) then 1 else 0)]
  }

  /** The run number goes up by one exactly where slice p differs from slice p - 1. */
  lemma {:induction false} RunIdsStep<T>(x: seq<T>, differ: (T, T) -> bool, p: int)
    requires 1 <= p < |x|
    ensures RunIds(x, differ)[p] == RunIds(x, differ)[p - 1] + (if differ(x[p - 1], x[p]) then 1 else 0)
    decreases |x|
  {
    var x' := x[..|x| - 1];
    if p < |x| - 1 {
      RunIdsStep(x', differ, p);
      assert x'[p - 1] == x[p - 1] && x'[p] == x[p];
    }
  }

  lemma {:induction false} SplitIndicesSnoc<T>(x: seq<T>, differ: (T, T) -> bool)
    requires |x| >= 2
    ensures SplitIndices(x, differ) ==
      SplitIndices(x[..|x| - 1], differ) + (if differ(x[|x| - 2], x[|x| - 1]) then [|x| - 1] else [])
  {
  }

  lemma {:induction false} SplitSizesNewRun(sp: seq<int>, n: int)
    requires |sp| > 0 ==> sp[|sp| - 1] < n - 1
    ensures SplitSizes(sp + [n - 1], n) == SplitSizes(sp, n - 1) + [1]
  {
    if |sp| > 0 {
      var a := SplitSizes(sp + [n - 1], n);
      var b := SplitSizes(sp, n - 1) + [1];
      assert |a| == |b|;
      forall i | 0 <= i < |a| ensures a[i] == b[i] {
        if 1 <= i < |sp| {
          assert a[i] == (sp + [n - 1])[i] - (sp + [n - 1])[i - 1];
        }
      }
    }
  }

  lemma {:induction false} SplitSizesSameRun(sp: seq<int>, n: int, c: seq<int>, c': seq<int>)
    requires c == SplitSizes(sp, n) && c' == SplitSizes(sp, n - 1)
    ensures |c'| >= 1 && c == c'[..|c'| - 1] + [c'[|c'| - 1] + 1]
  {
  }

  lemma {:induction false} RunIdsSnoc<T>(x: seq<T>, differ: (T, T) -> bool)
    requires |x| >= 2
    ensures RunIds(x, differ) == RunIds(x[..|x| - 1], differ) + [RunIds(x, differ)[|x| - 1]]
  {
  }

  /** A slice that differs from its predecessor opens a run of length one. */
  lemma {:induction false} RunCountsNewRun<T>(x: seq<T>, differ: (T, T) -> bool)
    requires |x| >= 2
    requires differ(x[|x| - 2], x[|x| - 1])
    ensures RunCounts(x, differ) == RunCounts(x[..|x| - 1], differ) + [1]
  {
    var x' := x[..|x| - 1];
    var sp' := SplitIndices(x', differ);
    SplitIndicesSnoc(x, differ);
    assert SplitIndices(x, differ) == sp' + [|x| - 1];
    assert |sp'| > 0 ==> sp'[|sp'| - 1] < |x| - 1;
    SplitSizesNewRun(sp', |x|);
  }

  /** A slice equal to its predecessor lengthens the last run by one. */
  lemma {:induction false} RunCountsSameRun<T>(x: seq<T>, differ: (T, T) -> bool)
    requires |x| >= 2
    requires !differ(x[|x| - 2], x[|x| - 1])
    ensures var c' := RunCounts(x[..|x| - 1], differ);
      RunCounts(x, differ) == c'[..|c'| - 1] + [c'[|c'| - 1] + 1]
  {
    var sp := SplitIndices(x[..|x| - 1], differ);
    SplitIndicesSameRun(x, differ);
    SplitSizesSameRun(sp, |x|, SplitSizes(sp, |x|), SplitSizes(sp, |x| - 1));
  }

  /** A slice equal to its predecessor adds no split position, so the
      counts are the prefix's split sizes measured over the longer axis. */
  lemma SplitIndicesSameRun<T>(x: seq<T>, differ: (T, T) -> bool)
    requires |x| >= 2
    requires !differ(x[|x| - 2], x[|x| - 1])
    ensures RunCounts(x, differ) == SplitSizes(SplitIndices(x[..|x| - 1], differ), |x|)
  {
    var sp := SplitIndices(x[..|x| - 1], differ);
    SplitIndicesSnoc(x, differ);
    assert sp + [] == sp;
    assert SplitIndices(x, differ) == sp;
  }

  /** On an empty axis the only count is 0. */
  lemma {:induction false} RunCountsEmpty<T>(x: seq<T>, differ: (T, T) -> bool)
    requires |x| == 0
    ensures RunCounts(x, differ) == [0]
  {
  }

  /** On a non-empty axis every count is positive: runs are never empty. */
  lemma {:induction false} RunCountsPositive<T>(x: seq<T>, differ: (T, T) -> bool)
    requires |x| >= 1
    ensures forall k :: 0 <= k < |RunCounts(x, differ)| ==> RunCounts(x, differ)[k] >= 1
    decreases |x|
  {
    if |x| >= 2 {
      RunCountsPositive(x[..|x| - 1], differ);
      if differ(x[|x| - 2], x[|x| - 1]) {
        RunCountsNewRun(x, differ);
      } else {
        RunCountsSameRun(x, differ);
      }
    }
  }

  /** Counts are never negative. */
  lemma {:induction false} RunCountsNonNeg<T>(x: seq<T>, differ: (T, T) -> bool)
    ensures forall k :: 0 <= k < |RunCounts(x, differ)| ==> RunCounts(x, differ)[k] >= 0
  {
    if |x| == 0 {
      RunCountsEmpty(x, differ);
    } else {
      RunCountsPositive(x, differ);
    }
  }

  /** The counts add up to the axis length. */
  lemma {:induction false} RunCountsSum<T>(x: seq<T>, differ: (T, T) -> bool)
    ensures SumInt(RunCounts(x, differ)) == |x|
    decreases |x|
  {
    if |x| == 0 {
      RunCountsEmpty(x, differ);
    } else if |x| >= 2 {
      var c' := RunCounts(x[..|x| - 1], differ);
      RunCountsSum(x[..|x| - 1], differ);
      if differ(x[|x| - 2], x[|x| - 1]) {
        RunCountsNewRun(x, differ);
        SumIntAppend(c', [1]);
      } else {
        RunCountsSameRun(x, differ);
        var init := c'[..|c'| - 1];
        assert c' == init + [c'[|c'| - 1]];
        SumIntAppend(init, [c'[|c'| - 1]]);
        SumIntAppend(init, [c'[|c'| - 1] + 1]);
      }
    }
  }

  /** There is one count per run: the last run number plus one. */
  lemma {:induction false} RunCountsLength<T>(x: seq<T>, differ: (T, T) -> bool)
    requires |x| >= 1
    ensures |RunCounts(x, differ)| == RunIds(x, differ)[|x| - 1] + 1
    decreases |x|
  {
    if |x| >= 2 {
      RunCountsLength(x[..|x| - 1], differ);
      RunIdsSnoc(x, differ);
      if differ(x[|x| - 2], x[|x| - 1]) {
        RunCountsNewRun(x, differ);
      } else {
        RunCountsSameRun(x, differ);
      }
    }
  }

  lemma {:induction false} RepeatInterleaveSnoc(vals: seq<int>, counts: seq<int>, v: int, k: nat)
    requires |vals| == |counts|
    requires forall i :: 0 <= i < |counts| ==> counts[i] >= 0
    ensures RepeatInterleave(vals + [v], counts + [k]) == RepeatInterleave(vals, counts) + Repeat(v, k)
  {
    assert (vals + [v])[..|vals|] == vals;
    assert (counts + [k])[..|counts|] == counts;
  }

  /** Appending a run of one more value extends the interleaving by that value. */
  lemma {:induction false} RepeatInterleaveNewRun(c: seq<int>)
    requires forall k :: 0 <= k < |c| ==> c[k] >= 0
    ensures RepeatInterleave(Range(|c| + 1), c + [1]) == RepeatInterleave(Range(|c|), c) + [|c|]
  {
    assert Range(|c| + 1) == Range(|c|) + [|c|];
    RepeatInterleaveSnoc(Range(|c|), c, |c|, 1);
  }

  /** Lengthening the last run repeats the last value once more. */
  lemma {:induction false} RepeatInterleaveSameRun(c: seq<int>)
    requires |c| >= 1
    requires forall k :: 0 <= k < |c| ==> c[k] >= 0
    ensures RepeatInterleave(Range(|c|), c[..|c| - 1] + [c[|c| - 1] + 1])
         == RepeatInterleave(Range(|c|), c) + [|c| - 1]
  {
    var m := |c|;
    var last := c[m - 1];
    var init := c[..m - 1];
    assert c == init + [last];
    assert Range(m) == Range(m - 1) + [m - 1];
    RepeatInterleaveSnoc(Range(m - 1), init, m - 1, last + 1);
    RepeatInterleaveSnoc(Range(m - 1), init, m - 1, last);
    assert Repeat(m - 1, last + 1) == Repeat(m - 1, last) + [m - 1];
  }

  /** `repeat_interleave(range(len(counts)), counts)` gives every position the
      number of its run: the inverse indices equal the reference RunIds. */
  lemma {:induction false} InverseIsRunIds<T>(x: seq<T>, differ: (T, T) -> bool)
    ensures forall k :: 0 <= k < |RunCounts(x, differ)| ==> RunCounts(x, differ)[k] >= 0
    ensures RepeatInterleave(Range(|RunCounts(x, differ)|), RunCounts(x, differ)) == RunIds(x, differ)
    decreases |x|
  {
    if |x| <= 1 {
      InverseOfOneRun(x, differ);
    } else {
      InverseIsRunIds(x[..|x| - 1], differ);
      InverseIsRunIdsStep(x, differ);
    }
  }

  /** An axis of length 0 or 1 has the single count |x| and inverse [0] or []. */
  lemma InverseOfOneRun<T>(x: seq<T>, differ: (T, T) -> bool)
    requires |x| <= 1
    ensures RunCounts(x, differ) == [|x|]
    ensures RepeatInterleave(Range(1), [|x|]) == RunIds(x, differ)
  {
    assert Range(1) == [] + [0];
    RepeatInterleaveSnoc([], [], 0, |x|);
  }

  /** The inductive step of InverseIsRunIds: one more slice either opens a
      run or lengthens the last one, on both sides of the equation. */
  lemma InverseIsRunIdsStep<T>(x: seq<T>, differ: (T, T) -> bool)
    requires |x| >= 2
    requires var c' := RunCounts(x[..|x| - 1], differ);
      (forall k :: 0 <= k < |c'| ==> c'[k] >= 0) &&
      RepeatInterleave(Range(|c'|), c') == RunIds(x[..|x| - 1], differ)
    ensures forall k :: 0 <= k < |RunCounts(x, differ)| ==> RunCounts(x, differ)[k] >= 0
    ensures RepeatInterleave(Range(|RunCounts(x, differ)|), RunCounts(x, differ)) == RunIds(x, differ)
  {
    RunCountsNonNeg(x, differ);
    RunCountsLength(x[..|x| - 1], differ);
    if differ(x[|x| - 2], x[|x| - 1]) {
      InverseNewRun(x, differ);
    } else {
      InverseSameRun(x, differ);
    }
  }

  lemma InverseNewRun<T>(x: seq<T>, differ: (T, T) -> bool)
    requires |x| >= 2 && differ(x[|x| - 2], x[|x| - 1])
    requires var c' := RunCounts(x[..|x| - 1], differ);
      (forall k :: 0 <= k < |c'| ==> c'[k] >= 0) &&
      RepeatInterleave(Range(|c'|), c') == RunIds(x[..|x| - 1], differ) &&
      |c'| == RunIds(x[..|x| - 1], differ)[|x| - 2] + 1
    ensures RunCounts(x, differ) == RunCounts(x[..|x| - 1], differ) + [1]
    ensures RepeatInterleave(Range(|RunCounts(x, differ)|), RunCounts(x, differ)) == RunIds(x, differ)
  {
    var c' := RunCounts(x[..|x| - 1], differ);
    RunCountsNewRun(x, differ);
    RepeatInterleaveNewRun(c');
  }

  lemma InverseSameRun<T>(x: seq<T>, differ: (T, T) -> bool)
    requires |x| >= 2 && !differ(x[|x| - 2], x[|x| - 1])
    requires var c' := RunCounts(x[..|x| - 1], differ);
      (forall k :: 0 <= k < |c'| ==> c'[k] >= 0) &&
      RepeatInterleave(Range(|c'|), c') == RunIds(x[..|x| - 1], differ) &&
      |c'| == RunIds(x[..|x| - 1], differ)[|x| - 2] + 1
    ensures RepeatInterleave(Range(|RunCounts(x, differ)|), RunCounts(x, differ)) == RunIds(x, differ)
  {
    var c' := RunCounts(x[..|x| - 1], differ);
    RunCountsSameRun(x, differ);
    RepeatInterleaveSameRun(c');
  }

  /** Everything the kernels need about the runs, in one place. */
  lemma RunFacts<T>(x: seq<T>, differ: (T, T) -> bool)
    ensures forall k :: 0 <= k < |RunCounts(x, differ)| ==> RunCounts(x, differ)[k] >= 0
    ensures SumInt(RunCounts(x, differ)) == |x|
    ensures |x| == 0 ==> RunCounts(x, differ) == [0]
    ensures |x| > 0 ==> forall k :: 0 <= k < |RunCounts(x, differ)| ==> RunCounts(x, differ)[k] >= 1
    ensures |x| > 0 ==> |RunCounts(x, differ)| == RunIds(x, differ)[|x| - 1] + 1
    ensures RepeatInterleave(Range(|RunCounts(x, differ)|), RunCounts(x, differ)) == RunIds(x, differ)
  {
    RunCountsNonNeg(x, differ);
    RunCountsSum(x, differ);
    InverseIsRunIds(x, differ);
    if |x| > 0 {
      RunCountsPositive(x, differ);
      RunCountsLength(x, differ);
    } else {
      RunCountsEmpty(x, differ);
    }
  }

  /** Run numbering depends only on which adjacent slices differ: two split
      relations that agree on every adjacent pair give the same runs. */
  lemma {:induction false} RunIdsCongruent<T>(x: seq<T>, d1: (T, T) -> bool, d2: (T, T) -> bool)
    requires forall p :: 1 <= p < |x| ==> d1(x[p - 1], x[p]) == d2(x[p - 1], x[p])
    ensures RunIds(x, d1) == RunIds(x, d2)
    decreases |x|
  {
    if |x| > 1 {
      var y := x[..|x| - 1];
      forall p | 1 <= p < |y| ensures d1(y[p - 1], y[p]) == d2(y[p - 1], y[p]) {
        assert y[p - 1] == x[p - 1] && y[p] == x[p];
      }
      RunIdsCongruent(y, d1, d2);
      assert d1(x[|x| - 2], x[|x| - 1]) == d2(x[|x| - 2], x[|x| - 1]);
    }
  }

  lemma {:induction false} SplitIndicesCongruent<T>(x: seq<T>, d1: (T, T) -> bool, d2: (T, T) -> bool)
    requires forall p :: 1 <= p < |x| ==> d1(x[p - 1], x[p]) == d2(x[p - 1], x[p])
    ensures SplitIndices(x, d1) == SplitIndices(x, d2)
    decreases |x|
  {
    if |x| > 1 {
      var y := x[..|x| - 1];
      forall p | 1 <= p < |y| ensures d1(y[p - 1], y[p]) == d2(y[p - 1], y[p]) {
        assert y[p - 1] == x[p - 1] && y[p] == x[p];
      }
      SplitIndicesCongruent(y, d1, d2);
      assert d1(x[|x| - 2], x[|x| - 1]) == d2(x[|x| - 2], x[|x| - 1]);
    }
  }

  /** The computation both backends share once the split relation is fixed:
      split x at the split positions, apply the native `unique` to every
      sub-array and concatenate, count the sub-array lengths, and number every
      position by its sub-array with `repeat_interleave`. */
  function ConsecutiveRuns<T>(x: seq<T>, differ: (T, T) -> bool, unique: seq<T> -> seq<T>,
                              inverseShape: seq<int>): (r: UniqueResult<T>)
    ensures SumInt(r.counts) == |x|
    ensures |x| > 0 ==> forall k :: 0 <= k < |r.counts| ==> r.counts[k] >= 1
    ensures |x| == 0 ==> r.counts == [0]
    ensures r.inverse == RunIds(x, differ)
    ensures |x| > 0 ==> |r.counts| == r.inverse[|x| - 1] + 1
    ensures r.inverseShape == inverseShape
  {
    var counts := RunCounts(x, differ);
    RunFacts(x, differ);
    var subs := SplitBySizes(x, counts);
    var inverse := RepeatInterleave(Range(|counts|), counts);
    UniqueResult(UniqueEach(subs, unique), inverse, inverseShape, counts)
  }

  /** The native `unique` applied to every sub-array, concatenated. */
  function UniqueEach<T>(subs: seq<seq<T>>, unique: seq<T> -> seq<T>): seq<T> {
    Flatten(seq(|subs|, i requires 0 <= i < |subs| => unique(subs[i])))
  }

  /** Two split relations that agree on every adjacent pair give the same
      output, counts and inverse indices. */
  lemma ConsecutiveRunsCongruent<T>(x: seq<T>, d1: (T, T) -> bool, d2: (T, T) -> bool,
                                    unique: seq<T> -> seq<T>, inverseShape: seq<int>)
    requires forall p :: 1 <= p < |x| ==> d1(x[p - 1], x[p]) == d2(x[p - 1], x[p])
    ensures ConsecutiveRuns(x, d1, unique, inverseShape) == ConsecutiveRuns(x, d2, unique, inverseShape)
  {
    SplitIndicesCongruent(x, d1, d2);
  }

  lemma {:induction false} SumIntNonNeg(c: seq<int>)
    requires forall k :: 0 <= k < |c| ==> c[k] >= 0
    ensures SumInt(c) >= 0
  {
    if c != [] {
      SumIntNonNeg(c[..|c| - 1]);
    }
  }

  /** `split(x, sizes)`: consecutive sub-arrays of the given sizes. */
  function SplitBySizes<T>(x: seq<T>, sizes: seq<int>): (r: seq<seq<T>>)
    requires forall k :: 0 <= k < |sizes| ==> sizes[k] >= 0
    requires SumInt(sizes) == |x|
    ensures |r| == |sizes|
    ensures forall k :: 0 <= k < |r| ==> |r[k]| == sizes[k]
    decreases |sizes|
  {
    if sizes == [] then []
    else
      var init := sizes[..|sizes| - 1];
      SumIntNonNeg(init);
      var cut := |x| - sizes[|sizes| - 1];
      SplitBySizes(x[..cut], init) + [x[cut..]]
  }

  /** The concatenation of a sequence of sequences. */
  function Flatten<T>(ss: seq<seq<T>>): seq<T>
  {
    if ss == [] then [] else Flatten(ss[..|ss| - 1]) + ss[|ss| - 1]
  }

  lemma {:induction false} FlattenCons<T>(t: seq<T>, ss: seq<seq<T>>)
    ensures Flatten([t] + ss) == t + Flatten(ss)
    decreases |ss|
  {
    if ss == [] {
      assert [t] + ss == [t];
      assert Flatten([t]) == Flatten([t][..0]) + t;
    } else {
      var init := ss[..|ss| - 1];
      FlattenCons(t, init);
      assert ([t] + ss)[..|ss|] == [t] + init;
    }
  }

  /** Flattening a list of pairs lists them row-major: item k of pair i
      lands at position 2·i + k. */
  lemma {:induction false} FlattenPairs(ss: seq<seq<int>>)
    requires forall i :: 0 <= i < |ss| ==> |ss[i]| == 2
    ensures |Flatten(ss)| == 2 * |ss|
    ensures forall k :: 0 <= k < |ss| ==> Flatten(ss)[2 * k] == ss[k][0] && Flatten(ss)[2 * k + 1] == ss[k][1]
    decreases |ss|
  {
    if ss != [] {
      FlattenPairs(ss[..|ss| - 1]);
    }
  }

  /** The sub-arrays partition x: concatenated in order they give x back. */
  lemma {:induction false} SplitBySizesPartitions<T>(x: seq<T>, sizes: seq<int>)
    requires forall k :: 0 <= k < |sizes| ==> sizes[k] >= 0
    requires SumInt(sizes) == |x|
    ensures Flatten(SplitBySizes(x, sizes)) == x
    decreases |sizes|
  {
    if sizes != [] {
      var init := sizes[..|sizes| - 1];
      SumIntNonNeg(init);
      var cut := |x| - sizes[|sizes| - 1];
      SplitBySizesPartitions(x[..cut], init);
      var r := SplitBySizes(x, sizes);
      assert r[..|r| - 1] == SplitBySizes(x[..cut], init);
      assert x == x[..cut] + x[cut..];
    }
  }

  // ---------------------------------------------------------------------
  // fill_diagonal

  /** `sum(cumprod(s))` */
  function CumprodSum(s: seq<nat>): (r: int)
    ensures r >= 0
  {
    if s == [] then 0
    else
      ProdNonNeg(s);
      CumprodSum(s[..|s| - 1]) + Prod(s)
  }

  /** The stride between two written flat positions: `cols + 1` for a matrix,
      `1 + sum(cumprod(shape[:-1]))` otherwise. */
  function DiagonalStep(shape: seq<nat>): (r: int)
    ensures r >= 1
  {
    if |shape| == 2 then shape[1] + 1
    else if |shape| == 0 then 1
    else 1 + CumprodSum(shape[..|shape| - 1])
  }

  /** The exclusive end of the written positions: `cols * cols` for a matrix
      without `wrap`, the total size otherwise, never past the total size. */
  function DiagonalEnd(shape: seq<nat>, wrap: bool): int
  {
    var total := Prod(shape);
    var e := if |shape| == 2 && !wrap then shape[1] * shape[1] else total;
    Min(e, total)
  }

  /** Flat position j is overwritten: one of `range(0, end, step)`. */
  predicate OnDiagonal(shape: seq<nat>, wrap: bool, j: int) {
    0 <= j < DiagonalEnd(shape, wrap) && j % DiagonalStep(shape) == 0
  }

  /** The flattened result of `fill_diagonal`: v at the diagonal positions,
      the old entry everywhere else. */
  function FilledDiagonal(shape: seq<nat>, wrap: bool, a: seq<real>, v: real): (r: seq<real>)
    ensures |r| == |a|
  {
    seq(|a|, j requires 0 <= j < |a| => if OnDiagonal(shape, wrap, j) then v else a[j])
  }

  lemma NoMultipleBetween(i: int, j: int, step: int)
    requires step >= 1 && i >= 0 && i % step == 0 && i < j < i + step
    ensures j % step != 0
  {
    DivModUnique(j, step, i / step, j - i);
  }

  /** `range(0, end, step)` moves from one multiple of step to the next,
      skipping no multiple on the way. */
  lemma {:induction false} NextMultiple(i: int, step: int)
    requires step >= 1 && i >= 0 && i % step == 0
    ensures (i + step) % step == 0
    ensures forall j :: i < j < i + step ==> j % step != 0
  {
    DivModUnique(i + step, step, i / step + 1, 0);
    forall j | i < j < i + step ensures j % step != 0 {
      NoMultipleBetween(i, j, step);
    }
  }

  /** When `range(0, end, step)` stops at its first multiple i >= end, no
      non-negative multiple of step lies in [end, i). */
  lemma {:induction false} NoMultipleInTail(i: int, step: int, end: int)
    requires step >= 1 && i >= 0 && i % step == 0 && i >= end
    requires i == 0 || i - step < end
    ensures forall j :: 0 <= j && end <= j < i ==> j % step != 0
  {
    if i > 0 {
      DivModUnique(i - step, step, i / step - 1, 0);
      forall j | 0 <= j && end <= j < i ensures j % step != 0 {
        if j > i - step {
          NoMultipleBetween(i - step, j, step);
        }
      }
    }
  }

  lemma MatrixGeometry(rows: nat, cols: nat)
    ensures Prod([rows, cols]) == rows * cols
    ensures DiagonalStep([rows, cols]) == cols + 1
    ensures DiagonalEnd([rows, cols], false) == Min(cols * cols, rows * cols)
  {
    assert Prod([rows, cols]) == rows * Prod([cols]);
    assert Prod([cols]) == cols * Prod([]);
  }

  /** Entry (r, r) of a matrix is overwritten. */
  lemma {:induction false} DiagonalEntryWritten(rows: nat, cols: nat, r: nat)
    requires r < rows && r < cols
    ensures OnDiagonal([rows, cols], false, r * cols + r)
  {
    MatrixGeometry(rows, cols);
    var j := r * cols + r;
    assert j == r * (cols + 1) + 0;
    DivModUnique(j, cols + 1, r, 0);
    MulMono(r, cols - 1, cols);
    assert (cols - 1) * cols + cols == cols * cols;
    MulMono(r, rows - 1, cols);
    assert (rows - 1) * cols + cols == rows * cols;
  }

  /** An overwritten entry (r, c) of a matrix lies on its diagonal. */
  lemma {:induction false} WrittenEntryOnDiagonal(rows: nat, cols: nat, r: nat, c: nat)
    requires r < rows && c < cols
    requires OnDiagonal([rows, cols], false, r * cols + c)
    ensures r == c
  {
    MatrixGeometry(rows, cols);
    var j := r * cols + c;
    var t := j / (cols + 1);
    StepMultipleBelowSquare(cols, j);
    DivModUnique(j, cols, t, t);
    DivModUnique(j, cols, r, c);
  }

  /** A multiple t·(cols + 1) below cols² has t < cols, so it is the flat
      position of entry (t, t). */
  lemma StepMultipleBelowSquare(cols: nat, j: int)
    requires 0 <= j < cols * cols && j % (cols + 1) == 0
    ensures var t := j / (cols + 1); 0 <= t < cols && j == t * cols + t
  {
    var step := cols + 1;
    var t := j / step;
    assert j == t * step by {
      assert j == t * step + j % step;
    }
    assert cols * step == cols * cols + cols;
    if t >= cols {
      MulMono(cols, t, step);
      assert false;
    }
    assert t * step == t * cols + t;
  }

  /** For a rows x cols matrix without `wrap`, the overwritten entries are
      exactly those in row r and column c with r == c. */
  lemma DiagonalOfMatrix(rows: nat, cols: nat, r: nat, c: nat)
    requires r < rows && c < cols
    ensures OnDiagonal([rows, cols], false, r * cols + c) <==> r == c
  {
    if r == c {
      DiagonalEntryWritten(rows, cols, r);
    }
    if OnDiagonal([rows, cols], false, r * cols + c) {
      WrittenEntryOnDiagonal(rows, cols, r, c);
    }
  }
}
