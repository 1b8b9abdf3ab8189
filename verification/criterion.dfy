/** The split-quality accumulators of the sklearn tree frontend. A criterion
    holds per-output (and, for classification, per-class) weight sums in
    buffers that its methods update in place: the node's totals, the left
    and right children's sums, and the sums of the samples whose feature
    value is missing. Samples are addressed through `sampleIndices`, and
    the node is the index range [start, end). */
module Criterion {
  import opened Common

  // -------------------------------------------------- sample-level spec

  /** `w = sample_weight[i]`, or 1.0 without weights. */
  function SampleWeight(sw: Option<seq<real>>, i: int): real {
    if sw.Some? && 0 <= i < |sw.value| then sw.value[i] else 1.0
  }

  /** The weight of the sample at node position p. */
  function Weight(sw: Option<seq<real>>, idx: seq<int>, p: int): real {
    SampleWeight(sw, if 0 <= p < |idx| then idx[p] else -1)
  }

  /** The class label `int(y[i, k])` of the sample at position p. */
  function Label(y: seq<seq<int>>, idx: seq<int>, p: int, k: int): int {
    if 0 <= p < |idx| && 0 <= idx[p] < |y| && 0 <= k < |y[idx[p]]| then y[idx[p]][k] else -1
  }

  /** Positions [from, to) address samples that exist, carry nOutputs labels
      in [0, nClasses), and have a weight when weights are given. */
  predicate LabelledRange(y: seq<seq<int>>, sw: Option<seq<real>>, idx: seq<int>, lo: int, hi: int,
                          nOutputs: nat, nClasses: nat) {
    0 <= lo <= hi <= |idx| &&
    forall p :: lo <= p < hi ==>
      0 <= idx[p] < |y| && |y[idx[p]]| >= nOutputs && (sw.Some? ==> idx[p] < |sw.value|) &&
      forall k :: 0 <= k < nOutputs ==> 0 <= y[idx[p]][k] < nClasses
  }

  lemma LabelledSubrange(y: seq<seq<int>>, sw: Option<seq<real>>, idx: seq<int>, lo: int, hi: int,
                         nOutputs: nat, nClasses: nat, a: int, b: int)
    requires LabelledRange(y, sw, idx, lo, hi, nOutputs, nClasses)
    requires lo <= a <= b <= hi
    ensures LabelledRange(y, sw, idx, a, b, nOutputs, nClasses)
  {
  }

  /** The total weight of positions [from, to). */
  function TotalWeight(sw: Option<seq<real>>, idx: seq<int>, lo: int, hi: int): real
    decreases hi - lo
  {
    if hi <= lo then 0.0 else TotalWeight(sw, idx, lo, hi - 1) + Weight(sw, idx, hi - 1)
  }

  /** The weight of the positions in [from, to) whose output k has class c. */
  function ClassWeight(y: seq<seq<int>>, sw: Option<seq<real>>, idx: seq<int>, lo: int, hi: int,
                       k: int, c: int): real
    decreases hi - lo
  {
    if hi <= lo then 0.0
    else
      var w := if Label(y, idx, hi - 1, k) == c then Weight(sw, idx, hi - 1) else 0.0;
      ClassWeight(y, sw, idx, lo, hi - 1, k, c) + w
  }

  /** The class weights of output k over classes [0, n). */
  function ClassRowSum(y: seq<seq<int>>, sw: Option<seq<real>>, idx: seq<int>, lo: int, hi: int,
                       k: int, n: nat): real
  {
    if n == 0 then 0.0 else ClassRowSum(y, sw, idx, lo, hi, k, n - 1) + ClassWeight(y, sw, idx, lo, hi, k, n - 1)
  }

  /** The weight of the positions whose output k has a class below n. */
  function WeightBelow(y: seq<seq<int>>, sw: Option<seq<real>>, idx: seq<int>, lo: int, hi: int,
                       k: int, n: nat): real
    decreases hi - lo
  {
    if hi <= lo then 0.0
    else
      var w := if 0 <= Label(y, idx, hi - 1, k) < n then Weight(sw, idx, hi - 1) else 0.0;
      WeightBelow(y, sw, idx, lo, hi - 1, k, n) + w
  }

  lemma {:induction false} WeightBelowStep(y: seq<seq<int>>, sw: Option<seq<real>>, idx: seq<int>, lo: int, hi: int,
                                          k: int, n: nat)
    ensures WeightBelow(y, sw, idx, lo, hi, k, n + 1)
         == WeightBelow(y, sw, idx, lo, hi, k, n) + ClassWeight(y, sw, idx, lo, hi, k, n)
    decreases hi - lo
  {
    if hi > lo {
      WeightBelowStep(y, sw, idx, lo, hi - 1, k, n);
    }
  }

  lemma {:induction false} ClassRowSumIsWeightBelow(y: seq<seq<int>>, sw: Option<seq<real>>, idx: seq<int>,
                                                    lo: int, hi: int, k: int, n: nat)
    ensures ClassRowSum(y, sw, idx, lo, hi, k, n) == WeightBelow(y, sw, idx, lo, hi, k, n)
  {
    if n == 0 {
      WeightBelowZero(y, sw, idx, lo, hi, k);
    } else {
      ClassRowSumIsWeightBelow(y, sw, idx, lo, hi, k, n - 1);
      WeightBelowStep(y, sw, idx, lo, hi, k, n - 1);
    }
  }

  lemma {:induction false} WeightBelowZero(y: seq<seq<int>>, sw: Option<seq<real>>, idx: seq<int>,
                                           lo: int, hi: int, k: int)
    ensures WeightBelow(y, sw, idx, lo, hi, k, 0) == 0.0
    decreases hi - lo
  {
    if hi > lo { WeightBelowZero(y, sw, idx, lo, hi - 1, k); }
  }

  lemma {:induction false} WeightBelowAll(y: seq<seq<int>>, sw: Option<seq<real>>, idx: seq<int>,
                                          lo: int, hi: int, nOutputs: nat, nClasses: nat, k: int)
    requires LabelledRange(y, sw, idx, lo, hi, nOutputs, nClasses) && 0 <= k < nOutputs
    ensures WeightBelow(y, sw, idx, lo, hi, k, nClasses) == TotalWeight(sw, idx, lo, hi)
    decreases hi - lo
  {
    if hi > lo {
      WeightBelowAll(y, sw, idx, lo, hi - 1, nOutputs, nClasses, k);
    }
  }

  /** Every output distributes the whole node weight over its classes: the
      class weights of one output add up to the total weight. */
  lemma ClassWeightsPartitionTotal(y: seq<seq<int>>, sw: Option<seq<real>>, idx: seq<int>,
                                   lo: int, hi: int, nOutputs: nat, nClasses: nat, k: int)
    requires LabelledRange(y, sw, idx, lo, hi, nOutputs, nClasses) && 0 <= k < nOutputs
    ensures ClassRowSum(y, sw, idx, lo, hi, k, nClasses) == TotalWeight(sw, idx, lo, hi)
  {
    ClassRowSumIsWeightBelow(y, sw, idx, lo, hi, k, nClasses);
    WeightBelowAll(y, sw, idx, lo, hi, nOutputs, nClasses, k);
  }

  /** Class weights over adjacent ranges add up. */
  lemma {:induction false} ClassWeightSplit(y: seq<seq<int>>, sw: Option<seq<real>>, idx: seq<int>,
                                            a: int, b: int, c_: int, k: int, c: int)
    requires a <= b <= c_
    ensures ClassWeight(y, sw, idx, a, c_, k, c) == ClassWeight(y, sw, idx, a, b, k, c) + ClassWeight(y, sw, idx, b, c_, k, c)
    decreases c_ - b
  {
    if c_ > b {
      ClassWeightSplit(y, sw, idx, a, b, c_ - 1, k, c);
    }
  }

  lemma {:induction false} TotalWeightSplit(sw: Option<seq<real>>, idx: seq<int>, a: int, b: int, c_: int)
    requires a <= b <= c_
    ensures TotalWeight(sw, idx, a, c_) == TotalWeight(sw, idx, a, b) + TotalWeight(sw, idx, b, c_)
    decreases c_ - b
  {
    if c_ > b {
      TotalWeightSplit(sw, idx, a, b, c_ - 1);
    }
  }

  // ------------------------------------------------------ buffer helpers

  /** `m[:, :] = 0.0` */
  method FillZero(m: array2<real>)
    modifies m
    ensures forall k, c :: 0 <= k < m.Length0 && 0 <= c < m.Length1 ==> m[k, c] == 0.0
  {
    var k := 0;
    while k < m.Length0
      invariant 0 <= k <= m.Length0
      invariant forall k', c :: 0 <= k' < k && 0 <= c < m.Length1 ==> m[k', c] == 0.0
    {
      var c := 0;
      while c < m.Length1
        invariant 0 <= c <= m.Length1
        invariant forall k', c' :: 0 <= k' < k && 0 <= c' < m.Length1 ==> m[k', c'] == 0.0
        invariant forall c' :: 0 <= c' < c ==> m[k, c'] == 0.0
      {
        m[k, c] := 0.0;
        c := c + 1;
      }
      k := k + 1;
    }
  }

  /** The sample loop shared by `init`, `init_missing` and `update`: for each
      position p in [from, to), add its weight to m[k, int(y[i, k])] for
      every output k, and return the weight added. */
  method AccumulateClassWeights(m: array2<real>, y: seq<seq<int>>, sw: Option<seq<real>>, idx: seq<int>,
                                lo: int, hi: int) returns (added: real)
    requires LabelledRange(y, sw, idx, lo, hi, m.Length0, m.Length1)
    modifies m
    ensures added == TotalWeight(sw, idx, lo, hi)
    ensures forall k, c :: 0 <= k < m.Length0 && 0 <= c < m.Length1 ==>
      m[k, c] == old(m[k, c]) + ClassWeight(y, sw, idx, lo, hi, k, c)
  {
    added := 0.0;
    var p := lo;
    while p < hi
      invariant lo <= p <= hi
      invariant added == TotalWeight(sw, idx, lo, p)
      invariant forall k, c :: 0 <= k < m.Length0 && 0 <= c < m.Length1 ==>
        m[k, c] == old(m[k, c]) + ClassWeight(y, sw, idx, lo, p, k, c)
    {
      var i := idx[p];
      var w := 1.0;
      if sw.Some? {
        w := sw.value[i];
      }
      var k := 0;
      while k < m.Length0
        invariant 0 <= k <= m.Length0
        invariant forall k', c :: 0 <= k' < k && 0 <= c < m.Length1 ==>
          m[k', c] == old(m[k', c]) + ClassWeight(y, sw, idx, lo, p + 1, k', c)
        invariant forall k', c :: k <= k' < m.Length0 && 0 <= c < m.Length1 ==>
          m[k', c] == old(m[k', c]) + ClassWeight(y, sw, idx, lo, p, k', c)
      {
        var c := y[i][k];
        m[k, c] := m[k, c] + w;
        k := k + 1;
      }
      added := added + w;
      p := p + 1;
    }
  }

  // --------------------------------------------- ClassificationCriterion

  class ClassificationCriterion {
    const nOutputs: nat
    const nClasses: seq<nat>
    const maxNClasses: nat
    const sumTotal: array2<real>
    const sumLeft: array2<real>
    const sumRight: array2<real>
    const sumMissing: array2<real>

    var y: seq<seq<int>>
    var sampleWeight: Option<seq<real>>
    var sampleIndices: seq<int>
    var start: int
    var end: int
    var pos: int
    var nNodeSamples: int
    var nMissing: nat
    /** Whether `init_missing` has set n_missing: `__init__` leaves it unset,
        and reading it before then raises AttributeError. */
    var missingRecorded: bool
    /** Whether `init` has set y, sample_weight and sample_indices:
        `__init__` leaves them unset, and reading them before then raises
        AttributeError. */
    var nodeRecorded: bool
    var missingGoToLeft: bool
    var weightedNSamples: real
    var weightedNNodeSamples: real
    var weightedNLeft: real
    var weightedNRight: real
    var weightedNMissing: real

    /** Every buffer is nOutputs x maxNClasses, the four are distinct, and
        the node range addresses labelled samples. */
    ghost predicate Valid()
      reads this
    {
      |nClasses| == nOutputs &&
      (forall k :: 0 <= k < nOutputs ==> nClasses[k] <= maxNClasses) &&
      sumTotal.Length0 == nOutputs && sumTotal.Length1 == maxNClasses &&
      sumLeft.Length0 == nOutputs && sumLeft.Length1 == maxNClasses &&
      sumRight.Length0 == nOutputs && sumRight.Length1 == maxNClasses &&
      sumMissing.Length0 == nOutputs && sumMissing.Length1 == maxNClasses &&
      sumTotal != sumLeft && sumTotal != sumRight && sumTotal != sumMissing &&
      sumLeft != sumRight && sumLeft != sumMissing && sumRight != sumMissing &&
      LabelledRange(y, sampleWeight, sampleIndices, start, end, nOutputs, maxNClasses)
    }

    /** `__init__`: record each output's class count and their maximum, and
        allocate zeroed buffers (sum_missing is the buffer `init_sum_missing`
        allocates). */
    constructor (nOutputs: nat, nClasses: seq<nat>)
      requires |nClasses| >= nOutputs
      ensures Valid()
      ensures this.nOutputs == nOutputs && this.nClasses == nClasses[..nOutputs]
      ensures forall k :: 0 <= k < nOutputs ==> nClasses[k] <= maxNClasses
      ensures nOutputs == 0 ==> maxNClasses == 0
      ensures nOutputs > 0 ==> exists k :: 0 <= k < nOutputs && nClasses[k] == maxNClasses
      ensures start == 0 && pos == 0 && end == 0 && nMissing == 0 && !missingRecorded && !missingGoToLeft
      ensures !nodeRecorded
      ensures weightedNNodeSamples == 0.0 && weightedNLeft == 0.0 && weightedNRight == 0.0 && weightedNMissing == 0.0
      ensures fresh(sumTotal) && fresh(sumLeft) && fresh(sumRight) && fresh(sumMissing)
      ensures forall k, c :: 0 <= k < nOutputs && 0 <= c < maxNClasses ==>
        sumTotal[k, c] == 0.0 && sumLeft[k, c] == 0.0 && sumRight[k, c] == 0.0 && sumMissing[k, c] == 0.0
      ensures LeftBalanced()
    {
      var m := 0;
      var k := 0;
      while k < nOutputs
        invariant 0 <= k <= nOutputs
        invariant forall k' :: 0 <= k' < k ==> nClasses[k'] <= m
        invariant k == 0 ==> m == 0
        invariant k > 0 ==> exists k' :: 0 <= k' < k && nClasses[k'] == m
      {
        if nClasses[k] > m {
          m := nClasses[k];
        }
        k := k + 1;
      }
      this.nOutputs := nOutputs;
      this.nClasses := nClasses[..nOutputs];
      maxNClasses := m;
      sumTotal := new real[nOutputs, m]((_, _) => 0.0);
      sumLeft := new real[nOutputs, m]((_, _) => 0.0);
      sumRight := new real[nOutputs, m]((_, _) => 0.0);
      sumMissing := new real[nOutputs, m]((_, _) => 0.0);
      y := [];
      sampleWeight := None;
      sampleIndices := [];
      start := 0;
      end := 0;
      pos := 0;
      nNodeSamples := 0;
      nMissing := 0;
      missingRecorded := false;
      nodeRecorded := false;
      missingGoToLeft := false;
      weightedNSamples := 0.0;
      weightedNNodeSamples := 0.0;
      weightedNLeft := 0.0;
      weightedNRight := 0.0;
      weightedNMissing := 0.0;
      new;
      forall k | 0 <= k < nOutputs
        ensures RowSum(LeftRow(k), maxNClasses) == weightedNLeft
      {
        RowSumOfZeros(LeftRow(k), maxNClasses);
      }
    }

    /** Output k's row of sum_left as values. */
    function LeftRow(k: int): (row: seq<real>)
      reads this, sumLeft
      requires Valid() && 0 <= k < nOutputs
      ensures |row| == maxNClasses && forall c :: 0 <= c < maxNClasses ==> row[c] == sumLeft[k, c]
    {
      seq(maxNClasses, c requires 0 <= c < maxNClasses reads sumLeft => sumLeft[k, c])
    }

    /** Every output's row of sum_left adds up to weighted_n_left: the left
        child holds the same samples whichever way it is counted. */
    ghost predicate LeftBalanced()
      reads this, sumLeft
      requires Valid()
    {
      forall k :: 0 <= k < nOutputs ==> RowSum(LeftRow(k), maxNClasses) == weightedNLeft
    }

    /** `init`, up to its closing `reset()` call: sum_total[k, c] becomes
        the weight of the node's samples of class c, and
        weighted_n_node_samples the node's total weight. */
    method Init(y: seq<seq<int>>, sampleWeight: Option<seq<real>>, weightedNSamples: real,
                sampleIndices: seq<int>, start: int, end: int)
      requires Valid()
      requires LabelledRange(y, sampleWeight, sampleIndices, start, end, nOutputs, maxNClasses)
      modifies this`y, this`sampleWeight, this`sampleIndices, this`nodeRecorded, this`start, this`end
      modifies this`nNodeSamples, this`weightedNSamples, this`weightedNNodeSamples, sumTotal
      ensures Valid() && nodeRecorded
      ensures this.y == y && this.sampleWeight == sampleWeight && this.sampleIndices == sampleIndices
      ensures this.start == start && this.end == end && nNodeSamples == end - start
      ensures this.weightedNSamples == weightedNSamples
      ensures forall k, c :: 0 <= k < nOutputs && 0 <= c < maxNClasses ==>
        sumTotal[k, c] == ClassWeight(y, sampleWeight, sampleIndices, start, end, k, c)
      ensures weightedNNodeSamples == TotalWeight(sampleWeight, sampleIndices, start, end)
      ensures old(LeftBalanced()) ==> LeftBalanced()
    {
      SetNode(y, sampleWeight, sampleIndices, start, end, weightedNSamples);
      label Set:
      ghost var wasBalanced := LeftBalanced();
      FillZero(sumTotal);
      var added := AccumulateClassWeights(sumTotal, y, sampleWeight, sampleIndices, start, end);
      weightedNNodeSamples := weightedNNodeSamples + added;
      if wasBalanced {
        forall k | 0 <= k < nOutputs
          ensures RowSum(LeftRow(k), maxNClasses) == weightedNLeft
        {
          assert LeftRow(k) == old@Set(LeftRow(k));
        }
      }
    }

    /** The field assignments that open `init`: the node's samples, its
        range and the weights start over. */
    method SetNode(y: seq<seq<int>>, sampleWeight: Option<seq<real>>, sampleIndices: seq<int>,
                   start: int, end: int, weightedNSamples: real)
      requires Valid()
      requires LabelledRange(y, sampleWeight, sampleIndices, start, end, nOutputs, maxNClasses)
      modifies this`y, this`sampleWeight, this`sampleIndices, this`nodeRecorded, this`start, this`end
      modifies this`nNodeSamples, this`weightedNSamples, this`weightedNNodeSamples
      ensures Valid() && nodeRecorded
      ensures this.y == y && this.sampleWeight == sampleWeight && this.sampleIndices == sampleIndices
      ensures this.start == start && this.end == end && nNodeSamples == end - start
      ensures this.weightedNSamples == weightedNSamples && weightedNNodeSamples == 0.0
      ensures old(LeftBalanced()) ==> LeftBalanced()
    {
      ghost var wasBalanced := LeftBalanced();
      this.y := y;
      this.sampleWeight := sampleWeight;
      this.sampleIndices := sampleIndices;
      nodeRecorded := true;
      this.start := start;
      this.end := end;
      nNodeSamples := end - start;
      this.weightedNSamples := weightedNSamples;
      weightedNNodeSamples := 0.0;
      if wasBalanced {
        forall k | 0 <= k < nOutputs
          ensures RowSum(LeftRow(k), maxNClasses) == weightedNLeft
        {
          assert LeftRow(k) == old(LeftRow(k));
        }
      }
    }

    /** `init_missing`: record n_missing; when it is non-zero, rebuild
        sum_missing and weighted_n_missing from the last n_missing positions
        of the node. */
    method InitMissing(nMissing: nat)
      requires Valid() && nMissing <= end - start
      modifies this`nMissing, this`missingRecorded, this`weightedNMissing, sumMissing
      ensures Valid() && this.nMissing == nMissing && missingRecorded
      ensures nMissing == 0 ==> weightedNMissing == old(weightedNMissing)
      ensures nMissing == 0 ==> forall k, c :: 0 <= k < nOutputs && 0 <= c < maxNClasses ==> sumMissing[k, c] == old(sumMissing[k, c])
      ensures nMissing > 0 ==> weightedNMissing == TotalWeight(sampleWeight, sampleIndices, end - nMissing, end)
      ensures nMissing > 0 ==> forall k, c :: 0 <= k < nOutputs && 0 <= c < maxNClasses ==>
        sumMissing[k, c] == ClassWeight(y, sampleWeight, sampleIndices, end - nMissing, end, k, c)
      ensures old(LeftBalanced()) ==> LeftBalanced()
    {
      this.nMissing := nMissing;
      missingRecorded := true;
      if nMissing != 0 {
        FillZero(sumMissing);
        weightedNMissing := 0.0;
        LabelledSubrange(y, sampleWeight, sampleIndices, start, end, nOutputs, maxNClasses, end - nMissing, end);
        var added := AccumulateClassWeights(sumMissing, y, sampleWeight, sampleIndices, end - nMissing, end);
        weightedNMissing := weightedNMissing + added;
      }
      forall k | 0 <= k < nOutputs
        ensures LeftRow(k) == old(LeftRow(k))
      {
      }
    }

    /** `update(new_pos)` as written. It first reads n_missing and then
        sample_indices, so before `init_missing`, or before `init`, it
        raises AttributeError and changes nothing.
        Otherwise both child buffers are zeroed first.
        Moving right, the weights of [pos, new_pos) are added to sum_left and
        to weighted_n_left, which is not zeroed, so sum_left covers only the
        positions just moved while weighted_n_left keeps everything before.
        Moving left, `reverse_reset` hands float fields to a helper that
        assigns through `[0]`, which raises TypeError once the helper has
        written the first row (with no outputs the helper does nothing and
        the backward sweep runs). */
    method Update(newPos: int) returns (r: Result<int>)
      requires Valid() && start <= pos <= newPos <= end - nMissing
      modifies this`pos, this`weightedNLeft, this`weightedNRight, sumLeft, sumRight
      ensures Valid()
      ensures !missingRecorded || !nodeRecorded ==>
        r == Err(AttributeError) && pos == old(pos) &&
        weightedNLeft == old(weightedNLeft) && weightedNRight == old(weightedNRight) &&
        forall k, c :: 0 <= k < nOutputs && 0 <= c < maxNClasses ==>
          sumLeft[k, c] == old(sumLeft[k, c]) && sumRight[k, c] == old(sumRight[k, c])
      ensures r.Err? <==> !missingRecorded || !nodeRecorded || (newPos - old(pos) > end - nMissing - newPos && nOutputs > 0)
      ensures missingRecorded && nodeRecorded && r.Err? ==> r.error == TypeError && pos == end
      ensures r.Ok? ==> r.value == 0 && pos == newPos
      ensures r.Ok? ==> weightedNRight == weightedNNodeSamples - weightedNLeft
      ensures r.Ok? ==> forall k, c :: 0 <= k < nOutputs && 0 <= c < maxNClasses ==>
        sumRight[k, c] == sumTotal[k, c] - sumLeft[k, c]
      ensures missingRecorded && nodeRecorded && newPos - old(pos) <= end - nMissing - newPos ==>
        weightedNLeft == old(weightedNLeft) + TotalWeight(sampleWeight, sampleIndices, old(pos), newPos) &&
        forall k, c :: 0 <= k < nOutputs && 0 <= c < maxNClasses ==>
          sumLeft[k, c] == ClassWeight(y, sampleWeight, sampleIndices, old(pos), newPos, k, c)
      ensures missingRecorded && nodeRecorded && newPos - old(pos) > end - nMissing - newPos && nOutputs == 0 ==>
        weightedNLeft == old(weightedNLeft) - TotalWeight(sampleWeight, sampleIndices, newPos, end - nMissing)
    {
      if !missingRecorded {
        r := Err(AttributeError);
        return;
      }
      var endNonMissing := end - nMissing;
      if !nodeRecorded {
        r := Err(AttributeError);
        return;
      }
      FillZero(sumLeft);
      FillZero(sumRight);
      LabelledSubrange(y, sampleWeight, sampleIndices, start, end, nOutputs, maxNClasses, pos, newPos);
      if newPos - pos <= endNonMissing - newPos {
        var added := AccumulateClassWeights(sumLeft, y, sampleWeight, sampleIndices, pos, newPos);
        weightedNLeft := weightedNLeft + added;
      } else {
        pos := end;
        if nOutputs > 0 {
          ReverseResetFirstRow();
          r := Err(TypeError);
          return;
        }
        SweepBack(newPos, endNonMissing);
      }
      weightedNRight := weightedNNodeSamples - weightedNLeft;
      SubtractInto(sumRight, sumTotal, sumLeft);
      pos := newPos;
      r := Ok(0);
    }

    /** The backward loop of `update`: the weight of each position from
        end_non_missing - 1 down to new_pos leaves weighted_n_left. */
    method SweepBack(newPos: int, endNonMissing: int)
      requires newPos <= endNonMissing
      modifies this`weightedNLeft
      ensures weightedNLeft == old(weightedNLeft) - TotalWeight(sampleWeight, sampleIndices, newPos, endNonMissing)
    {
      var p := endNonMissing - 1;
      while p >= newPos
        invariant newPos - 1 <= p < endNonMissing
        invariant weightedNLeft == old(weightedNLeft) - TotalWeight(sampleWeight, sampleIndices, p + 1, endNonMissing)
      {
        var w := Weight(sampleWeight, sampleIndices, p);
        weightedNLeft := weightedNLeft - w;
        TotalWeightSplit(sampleWeight, sampleIndices, p, p + 1, endNonMissing);
        p := p - 1;
      }
    }

    /** What `reverse_reset` manages before it fails: pos = end, and the
        first output's row of the helper's sum_1 (sum_right) and sum_2
        (sum_left) is written. */
    method ReverseResetFirstRow()
      requires Valid() && nOutputs > 0
      modifies sumLeft, sumRight
      ensures Valid()
      ensures forall c :: 0 <= c < maxNClasses ==>
        sumRight[0, c] + sumLeft[0, c] == sumTotal[0, c]
      ensures forall k, c :: 1 <= k < nOutputs && 0 <= c < maxNClasses ==>
        sumLeft[k, c] == old(sumLeft[k, c]) && sumRight[k, c] == old(sumRight[k, c])
    {
      var c := 0;
      while c < maxNClasses
        invariant 0 <= c <= maxNClasses
        invariant forall c' :: 0 <= c' < c ==> sumRight[0, c'] + sumLeft[0, c'] == sumTotal[0, c']
        invariant forall k, c' :: 1 <= k < nOutputs && 0 <= c' < maxNClasses ==>
          sumLeft[k, c'] == old(sumLeft[k, c']) && sumRight[k, c'] == old(sumRight[k, c'])
      {
        if nMissing != 0 && !missingGoToLeft {
          sumRight[0, c] := sumMissing[0, c];
          sumLeft[0, c] := sumTotal[0, c] - sumMissing[0, c];
        } else {
          sumRight[0, c] := 0.0;
          sumLeft[0, c] := sumTotal[0, c];
        }
        c := c + 1;
      }
    }

    /** `update` with the evident intent of the sklearn original: sum_left
        is not zeroed, so it accumulates like weighted_n_left. */
    method UpdateForwardIntended(newPos: int)
      requires Valid() && start <= pos <= newPos <= end - nMissing
      requires newPos - pos <= end - nMissing - newPos
      requires LeftBalanced()
      modifies this`pos, this`weightedNLeft, this`weightedNRight, sumLeft, sumRight
      ensures Valid() && pos == newPos && LeftBalanced()
      ensures weightedNLeft == old(weightedNLeft) + TotalWeight(sampleWeight, sampleIndices, old(pos), newPos)
      ensures weightedNRight == weightedNNodeSamples - weightedNLeft
      ensures forall k, c :: 0 <= k < nOutputs && 0 <= c < maxNClasses ==>
        sumLeft[k, c] == old(sumLeft[k, c]) + ClassWeight(y, sampleWeight, sampleIndices, old(pos), newPos, k, c)
      ensures forall k, c :: 0 <= k < nOutputs && 0 <= c < maxNClasses ==>
        sumRight[k, c] == sumTotal[k, c] - sumLeft[k, c]
    {
      var pos0 := pos;
      LabelledSubrange(y, sampleWeight, sampleIndices, start, end, nOutputs, maxNClasses, pos, newPos);
      var added := AccumulateClassWeights(sumLeft, y, sampleWeight, sampleIndices, pos, newPos);
      weightedNLeft := weightedNLeft + added;
      weightedNRight := weightedNNodeSamples - weightedNLeft;
      SubtractInto(sumRight, sumTotal, sumLeft);
      pos := newPos;
      forall k | 0 <= k < nOutputs
        ensures RowSum(LeftRow(k), maxNClasses) == weightedNLeft
      {
        RowSumShift(LeftRow(k), old(LeftRow(k)), y, sampleWeight, sampleIndices, pos0, newPos, k, maxNClasses);
        ClassWeightsPartitionTotal(y, sampleWeight, sampleIndices, pos0, newPos, nOutputs, maxNClasses, k);
      }
    }

    /** The class counts of sum_total as values. */
    function TotalCounts(): (rows: seq<seq<real>>)
      reads this, sumTotal
      requires Valid()
      ensures |rows| == nOutputs && forall k :: 0 <= k < nOutputs ==> |rows[k]| == maxNClasses
    {
      seq(nOutputs, k requires 0 <= k < nOutputs reads sumTotal =>
        seq(maxNClasses, c requires 0 <= c < maxNClasses reads sumTotal => sumTotal[k, c]))
    }

    /** `Gini.node_impurity`: (1 / n_outputs) * sum over outputs of
        1 - sum_c count^2 / W^2, with W = weighted_n_node_samples. The
        counts are 0-d float64 ivy arrays, so for an output with classes
        the division by W^2 is an array division: W = 0 gives no exception
        but a value that is not a number. An output without classes keeps
        the Python float 0.0, and 0.0 / 0.0 raises ZeroDivisionError, as does
        the final division by n_outputs = 0. */
    method GiniNodeImpurity() returns (r: Result<Scalar>)
      requires Valid()
      ensures r.Err? <==>
        nOutputs == 0 || (weightedNNodeSamples == 0.0 && exists k :: 0 <= k < nOutputs && nClasses[k] == 0)
      ensures r.Err? ==> r.error == ZeroDivisionError
      ensures nOutputs > 0 && weightedNNodeSamples != 0.0 ==>
        r == Ok(RealVal(Gini(TotalCounts(), nClasses, weightedNNodeSamples)))
      ensures r.Ok? && weightedNNodeSamples == 0.0 ==> r == Ok(NaN)
    {
      var rows := TotalCounts();
      var w := weightedNNodeSamples;
      var gini := 0.0;
      var k := 0;
      while k < nOutputs
        invariant 0 <= k <= nOutputs
        invariant w != 0.0 ==> gini == GiniSum(rows, nClasses, w, k)
        invariant w == 0.0 ==> forall j :: 0 <= j < k ==> nClasses[j] != 0
      {
        assert nClasses[k] <= maxNClasses;
        var sqCount := 0.0;
        var c := 0;
        while c < nClasses[k]
          invariant 0 <= c <= nClasses[k]
          invariant sqCount == SquareSum(rows[k], c)
        {
          var countK := sumTotal[k, c];
          sqCount := sqCount + countK * countK;
          c := c + 1;
        }
        if w == 0.0 {
          if nClasses[k] == 0 {
            return Err(ZeroDivisionError);
          }
        } else {
          gini := gini + (1.0 - sqCount / Sq(w));
        }
        k := k + 1;
      }
      if nOutputs == 0 {
        return Err(ZeroDivisionError);
      }
      if w == 0.0 {
        return Ok(NaN);
      }
      r := Ok(RealVal(gini / nOutputs as real));
    }
  }

  /** `dst[k, c] = a[k, c] - b[k, c]` for every entry. */
  method SubtractInto(dst: array2<real>, a: array2<real>, b: array2<real>)
    requires dst != a && dst != b
    requires a.Length0 == dst.Length0 && b.Length0 == dst.Length0
    requires a.Length1 == dst.Length1 && b.Length1 == dst.Length1
    modifies dst
    ensures forall k, c :: 0 <= k < dst.Length0 && 0 <= c < dst.Length1 ==> dst[k, c] == a[k, c] - b[k, c]
  {
    var k := 0;
    while k < dst.Length0
      invariant 0 <= k <= dst.Length0
      invariant forall k', c :: 0 <= k' < k && 0 <= c < dst.Length1 ==> dst[k', c] == a[k', c] - b[k', c]
    {
      var c := 0;
      while c < dst.Length1
        invariant 0 <= c <= dst.Length1
        invariant forall k', c' :: 0 <= k' < k && 0 <= c' < dst.Length1 ==> dst[k', c'] == a[k', c'] - b[k', c']
        invariant forall c' :: 0 <= c' < c ==> dst[k, c'] == a[k, c'] - b[k, c']
      {
        dst[k, c] := a[k, c] - b[k, c];
        c := c + 1;
      }
      k := k + 1;
    }
  }

  /** `_move_sums_classification(criterion, sum_1, sum_2, weighted_n_1,
      weighted_n_2, put_missing_in_1)`, with the weights as one-element
      arrays. Missing samples go to sum_1 when there are any and
      put_missing_in_1 holds, otherwise sum_1 is empty; sum_2 gets the rest.
      The weights are written inside the loop over outputs, so with no
      outputs they stay as they were. */
  method MoveSumsClassification(cr: ClassificationCriterion, sum1: array2<real>, sum2: array2<real>,
                                weightedN1: array<real>, weightedN2: array<real>, putMissingIn1: bool)
    requires cr.Valid()
    requires sum1.Length0 == cr.nOutputs && sum1.Length1 == cr.maxNClasses
    requires sum2.Length0 == cr.nOutputs && sum2.Length1 == cr.maxNClasses
    requires sum1 != sum2 && sum1 != cr.sumTotal && sum1 != cr.sumMissing && sum2 != cr.sumTotal && sum2 != cr.sumMissing
    requires weightedN1.Length >= 1 && weightedN2.Length >= 1 && weightedN1 != weightedN2
    modifies sum1, sum2, weightedN1, weightedN2
    ensures forall k, c :: 0 <= k < cr.nOutputs && 0 <= c < cr.maxNClasses ==>
      sum1[k, c] + sum2[k, c] == cr.sumTotal[k, c]
    ensures forall k, c :: 0 <= k < cr.nOutputs && 0 <= c < cr.maxNClasses ==>
      sum1[k, c] == if cr.nMissing != 0 && putMissingIn1 then cr.sumMissing[k, c] else 0.0
    ensures cr.nOutputs > 0 ==> weightedN1[0] + weightedN2[0] == cr.weightedNNodeSamples
    ensures cr.nOutputs > 0 ==>
      weightedN1[0] == if cr.nMissing != 0 && putMissingIn1 then cr.weightedNMissing else 0.0
    ensures cr.nOutputs == 0 ==> weightedN1[0] == old(weightedN1[0]) && weightedN2[0] == old(weightedN2[0])
  {
    var toFirst := cr.nMissing != 0 && putMissingIn1;
    var k := 0;
    while k < cr.nOutputs
      invariant 0 <= k <= cr.nOutputs
      invariant forall k', c :: 0 <= k' < k && 0 <= c < cr.maxNClasses ==>
        sum1[k', c] + sum2[k', c] == cr.sumTotal[k', c] &&
        sum1[k', c] == if toFirst then cr.sumMissing[k', c] else 0.0
      invariant k > 0 ==> (weightedN1[0] + weightedN2[0] == cr.weightedNNodeSamples &&
                           weightedN1[0] == if toFirst then cr.weightedNMissing else 0.0)
      invariant k == 0 ==> weightedN1[0] == old(weightedN1[0]) && weightedN2[0] == old(weightedN2[0])
    {
      var c := 0;
      while c < cr.maxNClasses
        invariant 0 <= c <= cr.maxNClasses
        invariant forall k', c' :: 0 <= k' < k && 0 <= c' < cr.maxNClasses ==>
          sum1[k', c'] + sum2[k', c'] == cr.sumTotal[k', c'] &&
          sum1[k', c'] == if toFirst then cr.sumMissing[k', c'] else 0.0
        invariant forall c' :: 0 <= c' < c ==>
          sum1[k, c'] + sum2[k, c'] == cr.sumTotal[k, c'] &&
          sum1[k, c'] == if toFirst then cr.sumMissing[k, c'] else 0.0
      {
        if toFirst {
          sum1[k, c] := cr.sumMissing[k, c];
          sum2[k, c] := cr.sumTotal[k, c] - cr.sumMissing[k, c];
        } else {
          sum1[k, c] := 0.0;
          sum2[k, c] := cr.sumTotal[k, c];
        }
        c := c + 1;
      }
      if toFirst {
        weightedN1[0] := cr.weightedNMissing;
        weightedN2[0] := cr.weightedNNodeSamples - cr.weightedNMissing;
      } else {
        weightedN1[0] := 0.0;
        weightedN2[0] := cr.weightedNNodeSamples;
      }
      k := k + 1;
    }
  }

  // ------------------------------------------------------------- Gini

  /** sum of row[c]^2 for c < n */
  function SquareSum(row: seq<real>, n: int): real
    requires 0 <= n <= |row|
  {
    if n == 0 then 0.0 else SquareSum(row, n - 1) + row[n - 1] * row[n - 1]
  }

  /** w * w, the squared node weight of the Gini denominator. */
  function Sq(w: real): (s: real)
    ensures w != 0.0 ==> s > 0.0
  {
    SqPos(w, w * w);
    w * w
  }

  lemma SqPos(w: real, s: real)
    requires s == w * w
    ensures w != 0.0 ==> s > 0.0
  {
    if w > 0.0 {
      MulPos(w, w, s);
    } else if w < 0.0 {
      assert s == (-w) * (-w);
      MulPos(-w, -w, s);
    }
  }

  lemma MulPos(a: real, b: real, s: real)
    requires a > 0.0 && b > 0.0 && s == a * b
    ensures s > 0.0
  {
  }

  lemma DivSelf(x: real)
    requires x != 0.0
    ensures x / x == 1.0
  {
  }

  /** sum over outputs k < m of 1 - SquareSum(rows[k], nClasses[k]) / w^2 */
  function GiniSum(rows: seq<seq<real>>, nClasses: seq<nat>, w: real, m: int): real
    requires 0 <= m <= |rows| && |nClasses| == |rows|
    requires forall k :: 0 <= k < |rows| ==> nClasses[k] <= |rows[k]|
    requires w != 0.0
  {
    if m == 0 then 0.0
    else GiniSum(rows, nClasses, w, m - 1) + (1.0 - SquareSum(rows[m - 1], nClasses[m - 1]) / Sq(w))
  }

  function Gini(rows: seq<seq<real>>, nClasses: seq<nat>, w: real): real
    requires |nClasses| == |rows| > 0
    requires forall k :: 0 <= k < |rows| ==> nClasses[k] <= |rows[k]|
    requires w != 0.0
  {
    GiniSum(rows, nClasses, w, |rows|) / |rows| as real
  }

  /** The output's weight sits in class c0 alone. */
  predicate PureRow(row: seq<real>, n: nat, w: real)
    requires n <= |row|
  {
    exists c0 :: 0 <= c0 < n && row[c0] == w && forall c :: 0 <= c < n && c != c0 ==> row[c] == 0.0
  }

  lemma {:induction false} SquareSumPure(row: seq<real>, n: nat, c0: int, w: real)
    requires n <= |row| && 0 <= c0 < |row| && row[c0] == w
    requires forall c :: 0 <= c < n && c != c0 ==> row[c] == 0.0
    ensures SquareSum(row, n) == if c0 < n then Sq(w) else 0.0
  {
    if n > 0 {
      SquareSumPure(row, n - 1, c0, w);
    }
  }

  lemma {:induction false} GiniSumPure(rows: seq<seq<real>>, nClasses: seq<nat>, w: real, m: int)
    requires 0 <= m <= |rows| && |nClasses| == |rows| && w != 0.0
    requires forall k :: 0 <= k < |rows| ==> nClasses[k] <= |rows[k]|
    requires forall k :: 0 <= k < |rows| ==> PureRow(rows[k], nClasses[k], w)
    ensures GiniSum(rows, nClasses, w, m) == 0.0
  {
    if m > 0 {
      GiniSumPure(rows, nClasses, w, m - 1);
      var row, n := rows[m - 1], nClasses[m - 1];
      assert PureRow(row, n, w);
      var c0 :| 0 <= c0 < n && row[c0] == w && forall c :: 0 <= c < n && c != c0 ==> row[c] == 0.0;
      SquareSumPure(row, n, c0, w);
      DivSelf(Sq(w));
    }
  }

  /** A node whose every output puts all its weight in one class has Gini
      impurity zero. */
  lemma GiniPureNodeIsZero(rows: seq<seq<real>>, nClasses: seq<nat>, w: real)
    requires |nClasses| == |rows| > 0 && w != 0.0
    requires forall k :: 0 <= k < |rows| ==> nClasses[k] <= |rows[k]|
    requires forall k :: 0 <= k < |rows| ==> PureRow(rows[k], nClasses[k], w)
    ensures Gini(rows, nClasses, w) == 0.0
  {
    GiniSumPure(rows, nClasses, w, |rows|);
  }

  /** sum of row[c] for c < n */
  function RowSum(row: seq<real>, n: int): real
    requires 0 <= n <= |row|
  {
    if n == 0 then 0.0 else RowSum(row, n - 1) + row[n - 1]
  }

  lemma {:induction false} RowSumOfZeros(row: seq<real>, n: int)
    requires 0 <= n <= |row| && forall c :: 0 <= c < n ==> row[c] == 0.0
    ensures RowSum(row, n) == 0.0
  {
    if n > 0 {
      RowSumOfZeros(row, n - 1);
    }
  }

  /** Adding each class's weight over [lo, hi) to a row adds the row's
      class total. */
  lemma {:induction false} RowSumShift(after: seq<real>, before: seq<real>, y: seq<seq<int>>, sw: Option<seq<real>>,
                                       idx: seq<int>, lo: int, hi: int, k: int, n: nat)
    requires n <= |after| && n <= |before|
    requires forall c :: 0 <= c < n ==> after[c] == before[c] + ClassWeight(y, sw, idx, lo, hi, k, c)
    ensures RowSum(after, n) == RowSum(before, n) + ClassRowSum(y, sw, idx, lo, hi, k, n)
  {
    if n > 0 {
      RowSumShift(after, before, y, sw, idx, lo, hi, k, n - 1);
    }
  }

  /** For non-negative counts, the sum of squares is at most the square of
      the sum. */
  lemma {:induction false} SquareSumBound(row: seq<real>, n: int)
    requires 0 <= n <= |row| && forall c :: 0 <= c < n ==> row[c] >= 0.0
    ensures 0.0 <= RowSum(row, n) && SquareSum(row, n) <= RowSum(row, n) * RowSum(row, n)
  {
    if n > 0 {
      SquareSumBound(row, n - 1);
      var s := RowSum(row, n - 1);
      var x := row[n - 1];
      assert (s + x) * (s + x) == s * s + 2.0 * s * x + x * x;
      assert s * x >= 0.0;
    }
  }

  lemma {:induction false} GiniSumNonNeg(rows: seq<seq<real>>, nClasses: seq<nat>, w: real, m: int)
    requires 0 <= m <= |rows| && |nClasses| == |rows| && w != 0.0
    requires forall k :: 0 <= k < |rows| ==> nClasses[k] <= |rows[k]|
    requires forall k, c :: 0 <= k < |rows| && 0 <= c < nClasses[k] ==> rows[k][c] >= 0.0
    requires forall k :: 0 <= k < |rows| ==> RowSum(rows[k], nClasses[k]) == w
    ensures GiniSum(rows, nClasses, w, m) >= 0.0
  {
    if m > 0 {
      GiniSumNonNeg(rows, nClasses, w, m - 1);
      SquareSumBound(rows[m - 1], nClasses[m - 1]);
      assert RowSum(rows[m - 1], nClasses[m - 1]) == w;
      assert SquareSum(rows[m - 1], nClasses[m - 1]) <= Sq(w);
      DivAtMostOne(SquareSum(rows[m - 1], nClasses[m - 1]), Sq(w));
    }
  }

  lemma DivAtMostOne(x: real, y: real)
    requires 0.0 < y && x <= y
    ensures x / y <= 1.0
  {
    assert x / y * y == x;
  }

  /** When every output's non-negative class counts add up to the node
      weight, the Gini impurity is not negative. */
  lemma GiniNonNegative(rows: seq<seq<real>>, nClasses: seq<nat>, w: real)
    requires |nClasses| == |rows| > 0 && w != 0.0
    requires forall k :: 0 <= k < |rows| ==> nClasses[k] <= |rows[k]|
    requires forall k, c :: 0 <= k < |rows| && 0 <= c < nClasses[k] ==> rows[k][c] >= 0.0
    requires forall k :: 0 <= k < |rows| ==> RowSum(rows[k], nClasses[k]) == w
    ensures Gini(rows, nClasses, w) >= 0.0
  {
    GiniSumNonNeg(rows, nClasses, w, |rows|);
  }

  // ------------------------------------------------- impurity_improvement

  /** `Criterion.impurity_improvement`:
      (W_node / W) * (parent - (W_right / W_node) * right - (W_left / W_node) * left). */
  function ImpurityImprovement(weightedNSamples: real, weightedNNodeSamples: real, weightedNLeft: real,
                               weightedNRight: real, parent: real, left: real, right: real): (r: Result<real>)
    ensures r.Err? <==> weightedNSamples == 0.0 || weightedNNodeSamples == 0.0
    ensures r.Ok? ==>
      (r.value * weightedNSamples == weightedNNodeSamples * parent - weightedNRight * right - weightedNLeft * left)
  {
    if weightedNSamples == 0.0 || weightedNNodeSamples == 0.0 then Err(ZeroDivisionError)
    else
      var n := weightedNNodeSamples;
      var v := (n / weightedNSamples) * (parent - (weightedNRight / n) * right - (weightedNLeft / n) * left);
      assert v * weightedNSamples == n * (parent - (weightedNRight / n) * right - (weightedNLeft / n) * left);
      Ok(v)
  }

  /** A split whose children are exactly as impure as the parent, with the
      children's weights adding up to the node's, improves nothing. */
  lemma NoImprovementWithoutPurerChildren(weightedNSamples: real, weightedNNodeSamples: real,
                                          weightedNLeft: real, weightedNRight: real, impurity: real)
    requires weightedNSamples != 0.0 && weightedNNodeSamples != 0.0
    requires weightedNLeft + weightedNRight == weightedNNodeSamples
    ensures ImpurityImprovement(weightedNSamples, weightedNNodeSamples, weightedNLeft, weightedNRight,
                                impurity, impurity, impurity) == Ok(0.0)
  {
    var r := ImpurityImprovement(weightedNSamples, weightedNNodeSamples, weightedNLeft, weightedNRight,
                                 impurity, impurity, impurity);
    assert r.value * weightedNSamples == 0.0;
  }

  // ---------------------------------------------------------------- MAE

  /** `MAE.init_missing`: missing values are refused outright. */
  function MaeInitMissing(nMissing: int): (r: Result<int>)
    ensures r.Err? <==> nMissing != 0
    ensures r.Err? ==> r.error == ValueError
  {
    if nMissing != 0 then Err(ValueError) else Ok(nMissing)
  }

  // ------------------------------------------------- update's left sums

  /** A criterion with one output and two classes, initialised on the three
      unweighted samples labelled 0, 1, 0, with no missing values. */
  method DemoCriterion() returns (cr: ClassificationCriterion)
    ensures fresh(cr) && fresh(cr.sumLeft) && fresh(cr.sumRight) && cr.Valid() && cr.LeftBalanced()
    ensures cr.nOutputs == 1 && cr.maxNClasses == 2 && cr.nMissing == 0 && cr.missingRecorded
    ensures cr.nodeRecorded
    ensures cr.y == [[0], [1], [0]] && cr.sampleWeight == None && cr.sampleIndices == [0, 1, 2]
    ensures cr.start == 0 && cr.pos == 0 && cr.end == 3 && cr.weightedNLeft == 0.0
    ensures cr.sumLeft[0, 0] == 0.0 && cr.sumLeft[0, 1] == 0.0
  {
    cr := new ClassificationCriterion(1, [2]);
    assert cr.maxNClasses == 2;
    assert LabelledRange([[0], [1], [0]], None, [0, 1, 2], 0, 3, 1, 2);
    cr.Init([[0], [1], [0]], None, 3.0, [0, 1, 2], 0, 3);
    cr.InitMissing(0);
  }

  /** One output, two classes, three samples labelled 0, 1, 0, unweighted:
      `update(1)` then `update(2)` as written leaves sum_left holding only
      the second sample (row total 1.0) while weighted_n_left counts both
      (2.0). */
  method UpdateTwiceShowsDrift() returns (leftRowSum: real, weightedLeft: real)
    ensures leftRowSum == 1.0 && weightedLeft == 2.0
  {
    DemoWeights();
    var cr := DemoCriterion();
    var r1 := cr.Update(1);
    var r2 := cr.Update(2);
    leftRowSum := cr.sumLeft[0, 0] + cr.sumLeft[0, 1];
    weightedLeft := cr.weightedNLeft;
  }

  /** The same two moves with the accumulating update: the left row total
      and weighted_n_left agree. */
  method UpdateTwiceIntended() returns (leftRowSum: real, weightedLeft: real)
    ensures leftRowSum == 2.0 && weightedLeft == 2.0
  {
    DemoWeights();
    var cr := DemoCriterion();
    cr.UpdateForwardIntended(1);
    cr.UpdateForwardIntended(2);
    leftRowSum := cr.sumLeft[0, 0] + cr.sumLeft[0, 1];
    weightedLeft := cr.weightedNLeft;
  }

  /** The class weights of the three unweighted samples labelled 0, 1, 0
      that the two examples above sweep. */
  lemma DemoWeights()
    ensures TotalWeight(None, [0, 1, 2], 0, 1) == 1.0 && TotalWeight(None, [0, 1, 2], 1, 2) == 1.0
    ensures ClassWeight([[0], [1], [0]], None, [0, 1, 2], 0, 1, 0, 0) == 1.0
    ensures ClassWeight([[0], [1], [0]], None, [0, 1, 2], 0, 1, 0, 1) == 0.0
    ensures ClassWeight([[0], [1], [0]], None, [0, 1, 2], 1, 2, 0, 0) == 0.0
    ensures ClassWeight([[0], [1], [0]], None, [0, 1, 2], 1, 2, 0, 1) == 1.0
  {
    assert Label([[0], [1], [0]], [0, 1, 2], 0, 0) == 0;
    assert Label([[0], [1], [0]], [0, 1, 2], 1, 0) == 1;
  }

  // ------------------------------------------------ RegressionCriterion

  /** The target `y[i, k]` of the sample at position p. */
  function Target(y: seq<seq<real>>, idx: seq<int>, p: int, k: int): real {
    if 0 <= p < |idx| && 0 <= idx[p] < |y| && 0 <= k < |y[idx[p]]| then y[idx[p]][k] else 0.0
  }

  /** Positions [lo, hi) address samples with nOutputs targets and, when
      weights are given, a weight. */
  predicate TargetRange(y: seq<seq<real>>, sw: Option<seq<real>>, idx: seq<int>, lo: int, hi: int, nOutputs: nat) {
    0 <= lo <= hi <= |idx| &&
    forall p :: lo <= p < hi ==>
      0 <= idx[p] < |y| && |y[idx[p]]| >= nOutputs && (sw.Some? ==> idx[p] < |sw.value|)
  }

  /** sum over [lo, hi) of w * y[i, k] */
  function WeightedTargetSum(y: seq<seq<real>>, sw: Option<seq<real>>, idx: seq<int>, lo: int, hi: int, k: int): real
    decreases hi - lo
  {
    if hi <= lo then 0.0
    else WeightedTargetSum(y, sw, idx, lo, hi - 1, k) + Weight(sw, idx, hi - 1) * Target(y, idx, hi - 1, k)
  }

  /** sum over outputs k < n of (w * y[i, k]) * y[i, k] for the sample at p */
  function SampleSquareSum(y: seq<seq<real>>, sw: Option<seq<real>>, idx: seq<int>, p: int, n: int): real
    decreases n
  {
    if n <= 0 then 0.0
    else
      var t := Target(y, idx, p, n - 1);
      SampleSquareSum(y, sw, idx, p, n - 1) + Weight(sw, idx, p) * t * t
  }

  /** sum over [lo, hi) and outputs k < n of (w * y[i, k]) * y[i, k] */
  function WeightedSquareSum(y: seq<seq<real>>, sw: Option<seq<real>>, idx: seq<int>, lo: int, hi: int, n: int): real
    decreases hi - lo
  {
    if hi <= lo then 0.0
    else WeightedSquareSum(y, sw, idx, lo, hi - 1, n) + SampleSquareSum(y, sw, idx, hi - 1, n)
  }

  /** Without sample weights every sample weighs 1.0, so the weighted node
      size is the sample count. */
  lemma {:induction false} UnweightedTotalIsCount(idx: seq<int>, lo: int, hi: int)
    requires lo <= hi
    ensures TotalWeight(None, idx, lo, hi) == (hi - lo) as real
    decreases hi - lo
  {
    if hi > lo {
      UnweightedTotalIsCount(idx, lo, hi - 1);
    }
  }

  /** Weighted target sums over adjacent ranges add up, so the node's sum
      is the missing samples' sum plus the rest. */
  lemma {:induction false} WeightedTargetSumSplit(y: seq<seq<real>>, sw: Option<seq<real>>, idx: seq<int>,
                                                  a: int, b: int, c_: int, k: int)
    requires a <= b <= c_
    ensures WeightedTargetSum(y, sw, idx, a, c_, k) == WeightedTargetSum(y, sw, idx, a, b, k) + WeightedTargetSum(y, sw, idx, b, c_, k)
    decreases c_ - b
  {
    if c_ > b {
      WeightedTargetSumSplit(y, sw, idx, a, b, c_ - 1, k);
    }
  }

  /** With non-negative weights the weighted sum of squares is not negative. */
  lemma {:induction false} WeightedSquareSumNonNeg(y: seq<seq<real>>, sw: Option<seq<real>>, idx: seq<int>,
                                                   lo: int, hi: int, n: int)
    requires forall p :: lo <= p < hi ==> Weight(sw, idx, p) >= 0.0
    ensures WeightedSquareSum(y, sw, idx, lo, hi, n) >= 0.0
    decreases hi - lo
  {
    if hi > lo {
      WeightedSquareSumNonNeg(y, sw, idx, lo, hi - 1, n);
      SampleSquareSumNonNeg(y, sw, idx, hi - 1, n);
    }
  }

  lemma {:induction false} SampleSquareSumNonNeg(y: seq<seq<real>>, sw: Option<seq<real>>, idx: seq<int>, p: int, n: int)
    requires Weight(sw, idx, p) >= 0.0
    ensures SampleSquareSum(y, sw, idx, p, n) >= 0.0
    decreases n
  {
    if n > 0 {
      SampleSquareSumNonNeg(y, sw, idx, p, n - 1);
      var t := Target(y, idx, p, n - 1);
      WeightedSquareNonNeg(Weight(sw, idx, p), t, Weight(sw, idx, p) * t * t);
    }
  }

  lemma WeightedSquareNonNeg(w: real, t: real, s: real)
    requires w >= 0.0 && s == w * t * t
    ensures s >= 0.0
  {
    if t < 0.0 {
      assert s == w * (-t) * (-t);
    }
  }

  /** The sample loop of the regression `init`: for each position p in
      [lo, hi) add w * y[i, k] to sums[k] for every output k, and return the
      weight added and the weighted squares added. */
  method AccumulateTargetSums(sums: array<real>, y: seq<seq<real>>, sw: Option<seq<real>>, idx: seq<int>,
                              lo: int, hi: int) returns (added: real, sq: real)
    requires TargetRange(y, sw, idx, lo, hi, sums.Length)
    modifies sums
    ensures added == TotalWeight(sw, idx, lo, hi)
    ensures sq == WeightedSquareSum(y, sw, idx, lo, hi, sums.Length)
    ensures forall k :: 0 <= k < sums.Length ==> sums[k] == old(sums[k]) + WeightedTargetSum(y, sw, idx, lo, hi, k)
  {
    added, sq := 0.0, 0.0;
    var p := lo;
    while p < hi
      invariant lo <= p <= hi
      invariant added == TotalWeight(sw, idx, lo, p)
      invariant sq == WeightedSquareSum(y, sw, idx, lo, p, sums.Length)
      invariant forall k :: 0 <= k < sums.Length ==> sums[k] == old(sums[k]) + WeightedTargetSum(y, sw, idx, lo, p, k)
    {
      label Before:
      var w, sqAdded := AddSample(sums, y, sw, idx, p);
      forall k | 0 <= k < sums.Length
        ensures sums[k] == old(sums[k]) + WeightedTargetSum(y, sw, idx, lo, p + 1, k)
      {
        TargetSumStep(y, sw, idx, lo, p, k, old(sums[k]), old@Before(sums[k]), sums[k]);
      }
      added := added + w;
      sq := sq + sqAdded;
      p := p + 1;
    }
  }

  /** Adding sample p's term to a running sum over [lo, p) gives the sum
      over [lo, p + 1). */
  lemma TargetSumStep(y: seq<seq<real>>, sw: Option<seq<real>>, idx: seq<int>, lo: int, p: int, k: int,
                      base: real, before: real, after: real)
    requires lo <= p
    requires before == base + WeightedTargetSum(y, sw, idx, lo, p, k)
    requires after == before + Weight(sw, idx, p) * Target(y, idx, p, k)
    ensures after == base + WeightedTargetSum(y, sw, idx, lo, p + 1, k)
  {
  }

  /** One sample of that loop: sums[k] += w * y[i, k] for every output. */
  method AddSample(sums: array<real>, y: seq<seq<real>>, sw: Option<seq<real>>, idx: seq<int>, p: int)
    returns (w: real, sq: real)
    requires 0 <= p < |idx| && 0 <= idx[p] < |y| && |y[idx[p]]| >= sums.Length
    requires sw.Some? ==> idx[p] < |sw.value|
    modifies sums
    ensures w == Weight(sw, idx, p)
    ensures sq == SampleSquareSum(y, sw, idx, p, sums.Length)
    ensures forall k :: 0 <= k < sums.Length ==> sums[k] == old(sums[k]) + w * Target(y, idx, p, k)
  {
    var i := idx[p];
    w := if sw.Some? then sw.value[i] else 1.0;
    sq := 0.0;
    var k := 0;
    while k < sums.Length
      invariant 0 <= k <= sums.Length
      invariant sq == SampleSquareSum(y, sw, idx, p, k)
      invariant forall k' :: 0 <= k' < k ==> sums[k'] == old(sums[k']) + w * Target(y, idx, p, k')
      invariant forall k' :: k <= k' < sums.Length ==> sums[k'] == old(sums[k'])
    {
      var yik := y[i][k];
      var wyik := w * yik;
      sums[k] := sums[k] + wyik;
      sq := sq + wyik * yik;
      k := k + 1;
    }
  }

  class RegressionCriterion {
    const nOutputs: nat
    const nSamples: int
    const sumTotal: array<real>
    const sumLeft: array<real>
    const sumRight: array<real>
    const sumMissing: array<real>

    var y: seq<seq<real>>
    var sampleWeight: Option<seq<real>>
    var sampleIndices: seq<int>
    var start: int
    var end: int
    var pos: int
    var nNodeSamples: int
    var nMissing: nat
    var weightedNSamples: real
    var weightedNNodeSamples: real
    var weightedNLeft: real
    var weightedNRight: real
    var weightedNMissing: real
    var sqSumTotal: real

    /** The four per-output buffers have nOutputs entries and are distinct,
        and the node range addresses samples with targets. */
    ghost predicate Valid()
      reads this
    {
      sumTotal.Length == nOutputs && sumLeft.Length == nOutputs &&
      sumRight.Length == nOutputs && sumMissing.Length == nOutputs &&
      sumTotal != sumLeft && sumTotal != sumRight && sumTotal != sumMissing &&
      sumLeft != sumRight && sumLeft != sumMissing && sumRight != sumMissing &&
      TargetRange(y, sampleWeight, sampleIndices, start, end, nOutputs)
    }

    /** `__init__`: zeroed per-output buffers (sum_missing being the one
        `init_sum_missing` allocates) and zero weights. */
    constructor (nOutputs: nat, nSamples: int)
      ensures Valid() && this.nOutputs == nOutputs && this.nSamples == nSamples
      ensures start == 0 && pos == 0 && end == 0 && nMissing == 0
      ensures weightedNNodeSamples == 0.0 && weightedNLeft == 0.0 && weightedNRight == 0.0
      ensures weightedNMissing == 0.0 && sqSumTotal == 0.0
      ensures forall k :: 0 <= k < nOutputs ==> sumTotal[k] == 0.0 && sumLeft[k] == 0.0 && sumRight[k] == 0.0
      ensures fresh(sumTotal) && fresh(sumLeft) && fresh(sumRight) && fresh(sumMissing)
    {
      this.nOutputs := nOutputs;
      this.nSamples := nSamples;
      sumTotal := new real[nOutputs](_ => 0.0);
      sumLeft := new real[nOutputs](_ => 0.0);
      sumRight := new real[nOutputs](_ => 0.0);
      sumMissing := new real[nOutputs](_ => 0.0);
      y := [];
      sampleWeight := None;
      sampleIndices := [];
      start := 0;
      end := 0;
      pos := 0;
      nNodeSamples := 0;
      nMissing := 0;
      weightedNSamples := 0.0;
      weightedNNodeSamples := 0.0;
      weightedNLeft := 0.0;
      weightedNRight := 0.0;
      weightedNMissing := 0.0;
      sqSumTotal := 0.0;
    }

    /** `init`, up to its closing `reset()` call: sum_total[k] becomes the
        weighted sum of output k's targets over the node, sq_sum_total the
        weighted sum of squared targets over every output, and
        weighted_n_node_samples the node's total weight. */
    method Init(y: seq<seq<real>>, sampleWeight: Option<seq<real>>, weightedNSamples: real,
                sampleIndices: seq<int>, start: int, end: int)
      requires Valid()
      requires TargetRange(y, sampleWeight, sampleIndices, start, end, nOutputs)
      modifies this`y, this`sampleWeight, this`sampleIndices, this`start, this`end, this`nNodeSamples
      modifies this`weightedNSamples, this`weightedNNodeSamples, this`sqSumTotal, sumTotal
      ensures Valid()
      ensures this.y == y && this.sampleWeight == sampleWeight && this.sampleIndices == sampleIndices
      ensures this.start == start && this.end == end && nNodeSamples == end - start
      ensures this.weightedNSamples == weightedNSamples
      ensures forall k :: 0 <= k < nOutputs ==> sumTotal[k] == WeightedTargetSum(y, sampleWeight, sampleIndices, start, end, k)
      ensures sqSumTotal == WeightedSquareSum(y, sampleWeight, sampleIndices, start, end, nOutputs)
      ensures weightedNNodeSamples == TotalWeight(sampleWeight, sampleIndices, start, end)
    {
      SetNode(y, sampleWeight, sampleIndices, start, end, weightedNSamples);
      forall k | 0 <= k < sumTotal.Length {
        sumTotal[k] := 0.0;
      }
      var added, sq := AccumulateTargetSums(sumTotal, y, sampleWeight, sampleIndices, start, end);
      weightedNNodeSamples := weightedNNodeSamples + added;
      sqSumTotal := sqSumTotal + sq;
    }

    /** The field assignments that open `init`: the node's samples, its
        range and the weights start over. */
    method SetNode(y: seq<seq<real>>, sampleWeight: Option<seq<real>>, sampleIndices: seq<int>,
                   start: int, end: int, weightedNSamples: real)
      requires Valid()
      requires TargetRange(y, sampleWeight, sampleIndices, start, end, nOutputs)
      modifies this`y, this`sampleWeight, this`sampleIndices, this`start, this`end, this`nNodeSamples
      modifies this`weightedNSamples, this`weightedNNodeSamples, this`sqSumTotal
      ensures Valid()
      ensures this.y == y && this.sampleWeight == sampleWeight && this.sampleIndices == sampleIndices
      ensures this.start == start && this.end == end && nNodeSamples == end - start
      ensures this.weightedNSamples == weightedNSamples && weightedNNodeSamples == 0.0 && sqSumTotal == 0.0
    {
      this.y := y;
      this.sampleWeight := sampleWeight;
      this.sampleIndices := sampleIndices;
      this.start := start;
      this.end := end;
      nNodeSamples := end - start;
      this.weightedNSamples := weightedNSamples;
      weightedNNodeSamples := 0.0;
      sqSumTotal := 0.0;
    }

    /** The `_move_sums_regression` method, which applies the module-level
        rule to this criterion. */
    method MoveSums(sum1: array<real>, sum2: array<real>, weightedN1: array<real>, weightedN2: array<real>,
                    putMissingIn1: bool)
      requires Valid()
      requires sum1.Length == nOutputs && sum2.Length == nOutputs
      requires sum1 != sum2 && sum1 != sumTotal && sum1 != sumMissing && sum2 != sumTotal && sum2 != sumMissing
      requires weightedN1.Length >= 1 && weightedN2.Length >= 1 && weightedN1 != weightedN2
      requires {weightedN1, weightedN2} !! {sum1, sum2, sumTotal, sumMissing}
      modifies sum1, sum2, weightedN1, weightedN2
      ensures forall k :: 0 <= k < nOutputs ==> sum1[k] + sum2[k] == sumTotal[k]
      ensures forall k :: 0 <= k < nOutputs ==>
        sum1[k] == if nMissing != 0 && putMissingIn1 then sumMissing[k] else 0.0
      ensures weightedN1[0] + weightedN2[0] == weightedNNodeSamples
      ensures weightedN1[0] == if nMissing != 0 && putMissingIn1 then weightedNMissing else 0.0
    {
      MoveSumsRegression(this, sum1, sum2, weightedN1, weightedN2, putMissingIn1);
    }
  }

  /** `_move_sums_regression`: as for classification, on per-output
      vectors, except that the weights are written whatever the number of
      outputs and sum_2 is computed from sum_1 afterwards. */
  method MoveSumsRegression(cr: RegressionCriterion, sum1: array<real>, sum2: array<real>,
                            weightedN1: array<real>, weightedN2: array<real>, putMissingIn1: bool)
    requires cr.Valid()
    requires sum1.Length == cr.nOutputs && sum2.Length == cr.nOutputs
    requires sum1 != sum2 && sum1 != cr.sumTotal && sum1 != cr.sumMissing && sum2 != cr.sumTotal && sum2 != cr.sumMissing
    requires weightedN1.Length >= 1 && weightedN2.Length >= 1 && weightedN1 != weightedN2
    requires {weightedN1, weightedN2} !! {sum1, sum2, cr.sumTotal, cr.sumMissing}
    modifies sum1, sum2, weightedN1, weightedN2
    ensures forall k :: 0 <= k < cr.nOutputs ==> sum1[k] + sum2[k] == cr.sumTotal[k]
    ensures forall k :: 0 <= k < cr.nOutputs ==>
      sum1[k] == if cr.nMissing != 0 && putMissingIn1 then cr.sumMissing[k] else 0.0
    ensures weightedN1[0] + weightedN2[0] == cr.weightedNNodeSamples
    ensures weightedN1[0] == if cr.nMissing != 0 && putMissingIn1 then cr.weightedNMissing else 0.0
  {
    var hasMissing := cr.nMissing != 0;
    var k := 0;
    if hasMissing && putMissingIn1 {
      while k < cr.nOutputs
        modifies sum1
        invariant 0 <= k <= cr.nOutputs
        invariant forall k' :: 0 <= k' < k ==> sum1[k'] == cr.sumMissing[k']
      {
        sum1[k] := cr.sumMissing[k];
        k := k + 1;
      }
      weightedN1[0] := cr.weightedNMissing;
      weightedN2[0] := cr.weightedNNodeSamples - cr.weightedNMissing;
    } else {
      while k < cr.nOutputs
        modifies sum1
        invariant 0 <= k <= cr.nOutputs
        invariant forall k' :: 0 <= k' < k ==> sum1[k'] == 0.0
      {
        sum1[k] := 0.0;
        k := k + 1;
      }
      weightedN1[0] := 0.0;
      weightedN2[0] := cr.weightedNNodeSamples;
    }
    k := 0;
    while k < cr.nOutputs
      modifies sum2
      invariant 0 <= k <= cr.nOutputs
      invariant forall k' :: 0 <= k' < cr.nOutputs ==>
        sum1[k'] == if hasMissing && putMissingIn1 then cr.sumMissing[k'] else 0.0
      invariant forall k' :: 0 <= k' < k ==> sum2[k'] == cr.sumTotal[k'] - sum1[k']
    {
      sum2[k] := cr.sumTotal[k] - sum1[k];
      k := k + 1;
    }
  }
}
