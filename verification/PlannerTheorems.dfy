/** What every plan guarantees, proved from the planner's contract alone. */
module PlannerTheorems {
  import opened Prelude
  import opened Planner

  predicate Owns(s: Stage, layer: int) { s.layerStart <= layer < s.layerEnd }

  /** Bytes given to the first n stages. */
  function StageBytes(stages: seq<Stage>, n: nat): int
    requires n <= |stages|
  {
    if n == 0 then 0 else StageBytes(stages, n - 1) + stages[n - 1].tensorBytes
  }

  lemma {:induction false} StageOf(selected: seq<Candidate>, layerBytes: seq<int>, stages: seq<Stage>, i: nat)
    requires IsPlan(selected, layerBytes, stages) && i < |selected|
    ensures stages[i].layerStart < stages[i].layerEnd <= |layerBytes|
    ensures stages[i].layerStart == (if i == 0 then 0 else stages[i - 1].layerEnd)
    ensures stages[i].tensorBytes == SumBytes(layerBytes, stages[i].layerStart, stages[i].layerEnd)
    ensures i == |selected| - 1 ==> stages[i].layerEnd == |layerBytes|
    ensures stages[i].index == i && stages[i].nodeId == selected[i].nodeId
    ensures stages[i].nextNodeId == (if i < |selected| - 1 then stages[i + 1].nodeId else "")
  {
    assert StageFits(selected, layerBytes, stages, i);
    if i < |selected| - 1 {
      assert StageFits(selected, layerBytes, stages, i + 1);
    }
  }

  lemma {:induction false} StagesAreOrdered(
    selected: seq<Candidate>, layerBytes: seq<int>, stages: seq<Stage>, i: nat, j: nat)
    requires IsPlan(selected, layerBytes, stages) && i < j < |selected|
    ensures stages[i].layerEnd <= stages[j].layerStart
    decreases j
  {
    StageOf(selected, layerBytes, stages, j);
    if i < j - 1 {
      StagesAreOrdered(selected, layerBytes, stages, i, j - 1);
      StageOf(selected, layerBytes, stages, j - 1);
    }
  }

  /** The stage, among the first n, that holds a layer below the n-th cut. */
  lemma {:induction false} OwnerExists(
    selected: seq<Candidate>, layerBytes: seq<int>, stages: seq<Stage>, n: nat, layer: nat) returns (i: nat)
    requires IsPlan(selected, layerBytes, stages) && 0 < n <= |selected| && layer < stages[n - 1].layerEnd
    ensures i < n && Owns(stages[i], layer)
  {
    StageOf(selected, layerBytes, stages, n - 1);
    if stages[n - 1].layerStart <= layer {
      return n - 1;
    }
    i := OwnerExists(selected, layerBytes, stages, n - 1, layer);
  }

  ghost predicate OnlyOwner(stages: seq<Stage>, i: int, layer: int) {
    0 <= i < |stages| && Owns(stages[i], layer)
    && forall j :: 0 <= j < |stages| && Owns(stages[j], layer) ==> j == i
  }

  ghost predicate OwnedOnce(stages: seq<Stage>, layer: int) {
    exists i :: OnlyOwner(stages, i, layer)
  }

  /** Every layer is owned by one stage and by no other. */
  ghost predicate CoversOnce(stages: seq<Stage>, layers: nat) {
    forall layer :: 0 <= layer < layers ==> OwnedOnce(stages, layer)
  }

  lemma {:induction false} PlanCoversOnce(selected: seq<Candidate>, layerBytes: seq<int>, stages: seq<Stage>)
    requires IsPlan(selected, layerBytes, stages) && |selected| > 0
    ensures CoversOnce(stages, |layerBytes|)
  {
    StageOf(selected, layerBytes, stages, |selected| - 1);
    forall layer | 0 <= layer < |layerBytes| ensures OwnedOnce(stages, layer) {
      var i := OwnerExists(selected, layerBytes, stages, |selected|, layer);
      forall j | 0 <= j < |stages| && Owns(stages[j], layer) ensures j == i {
        if i < j {
          StagesAreOrdered(selected, layerBytes, stages, i, j);
        } else if j < i {
          StagesAreOrdered(selected, layerBytes, stages, j, i);
        }
      }
      assert OnlyOwner(stages, i, layer);
    }
  }

  lemma {:induction false} PrefixBytes(selected: seq<Candidate>, layerBytes: seq<int>, stages: seq<Stage>, n: nat)
    requires IsPlan(selected, layerBytes, stages) && 0 < n <= |selected|
    ensures stages[n - 1].layerEnd <= |layerBytes|
    ensures StageBytes(stages, n) == SumBytes(layerBytes, 0, stages[n - 1].layerEnd)
  {
    StageOf(selected, layerBytes, stages, n - 1);
    if n > 1 {
      PrefixBytes(selected, layerBytes, stages, n - 1);
      SumBytesSplit(layerBytes, 0, stages[n - 1].layerStart, stages[n - 1].layerEnd);
    } else {
      assert StageBytes(stages, 0) == 0;
    }
  }

  lemma {:induction false} PlanOfOutcome(
    usable: seq<Candidate>, layerBytes: seq<int>, minNodes: int, maxNodes: int, stages: seq<Stage>)
    requires IsOutcome(usable, layerBytes, minNodes, maxNodes, Ok(stages))
    ensures EffectiveMin(minNodes) <= |stages| <= EffectiveMax(maxNodes, |layerBytes|)
    ensures 2 <= |stages| <= |usable|
    ensures IsPlan(usable[..|stages|], layerBytes, stages)
  {
  }

  /** Non-empty ranges that start at layer 0, follow each other and end at the last layer. */
  ghost predicate Contiguous(stages: seq<Stage>, layers: nat) {
    && |stages| > 0 && stages[0].layerStart == 0 && stages[|stages| - 1].layerEnd == layers
    && (forall i :: 0 <= i < |stages| ==> stages[i].layerStart < stages[i].layerEnd)
    && (forall i :: 0 < i < |stages| ==> stages[i].layerStart == stages[i - 1].layerEnd)
  }

  /** Stage i runs on the i-th best node and names the next stage's node, the last one none. */
  ghost predicate Chained(stages: seq<Stage>, usable: seq<Candidate>) {
    && 0 < |stages| <= |usable| && stages[|stages| - 1].nextNodeId == ""
    && (forall i :: 0 <= i < |stages| ==> stages[i].index == i && stages[i].nodeId == usable[i].nodeId)
    && (forall i :: 0 <= i < |stages| - 1 ==> stages[i].nextNodeId == stages[i + 1].nodeId)
  }

  lemma {:induction false} PlanIsChained(selected: seq<Candidate>, layerBytes: seq<int>, stages: seq<Stage>)
    requires IsPlan(selected, layerBytes, stages) && |selected| > 0
    ensures Contiguous(stages, |layerBytes|) && Chained(stages, selected)
  {
    forall i | 0 <= i < |stages|
      ensures stages[i].layerStart < stages[i].layerEnd && stages[i].index == i
      ensures stages[i].layerStart == (if i == 0 then 0 else stages[i - 1].layerEnd)
      ensures stages[i].nodeId == selected[i].nodeId
      ensures stages[i].nextNodeId == (if i < |stages| - 1 then stages[i + 1].nodeId else "")
    {
      StageOf(selected, layerBytes, stages, i);
    }
    StageOf(selected, layerBytes, stages, 0);
    StageOf(selected, layerBytes, stages, |stages| - 1);
  }

  /**
   * A successful plan is a partition: between the effective minimum and maximum of non-empty,
   * contiguous, chained stages that hold every layer once and whose bytes add up to the model.
   */
  lemma {:induction false} PlanIsPartition(
    usable: seq<Candidate>, layerBytes: seq<int>, minNodes: int, maxNodes: int, stages: seq<Stage>)
    requires IsOutcome(usable, layerBytes, minNodes, maxNodes, Ok(stages))
    ensures EffectiveMin(minNodes) <= |stages| <= EffectiveMax(maxNodes, |layerBytes|)
    ensures Contiguous(stages, |layerBytes|) && Chained(stages, usable)
    ensures CoversOnce(stages, |layerBytes|)
    ensures StageBytes(stages, |stages|) == SumBytes(layerBytes, 0, |layerBytes|)
  {
    PlanOfOutcome(usable, layerBytes, minNodes, maxNodes, stages);
    var selected := usable[..|stages|];
    PlanCoversOnce(selected, layerBytes, stages);
    PrefixBytes(selected, layerBytes, stages, |stages|);
    PlanIsChained(selected, layerBytes, stages);
  }

  /** Whatever the order of the candidates, the ranges of a plan follow each other and hold all bytes. */
  lemma {:induction false} PlanAddsUp(
    candidates: seq<Candidate>, layerBytes: seq<int>, minNodes: int, maxNodes: int, stages: seq<Stage>)
    requires IsPlanOf(candidates, layerBytes, minNodes, maxNodes, Ok(stages))
    ensures Contiguous(stages, |layerBytes|) && StageBytes(stages, |stages|) == SumBytes(layerBytes, 0, |layerBytes|)
  {
    var usable :| IsSortOf(usable, candidates) && IsOutcome(usable, layerBytes, minNodes, maxNodes, Ok(stages));
    PlanIsPartition(usable, layerBytes, minNodes, maxNodes, stages);
  }

  // ---------------------------------------------------------------- one plan per input

  /** Each stage is determined by the one before it. */
  lemma {:induction false} StageIsDetermined(
    selected: seq<Candidate>, layerBytes: seq<int>, p: seq<Stage>, q: seq<Stage>, i: nat)
    requires i < |selected| == |p| == |q|
    requires StageFits(selected, layerBytes, p, i) && StageFits(selected, layerBytes, q, i)
    requires i > 0 ==> p[i - 1] == q[i - 1]
    ensures p[i] == q[i]
  {
    var start := p[i].layerStart;
    if i < |selected| - 1 {
      NearestEndIsUnique(layerBytes, start, Target(layerBytes, start, i, selected),
                         |layerBytes| - (|selected| - i - 1), p[i].layerEnd, q[i].layerEnd);
    }
  }

  lemma {:induction false} PlansAgree(
    selected: seq<Candidate>, layerBytes: seq<int>, p: seq<Stage>, q: seq<Stage>, i: nat)
    requires IsPlan(selected, layerBytes, p) && IsPlan(selected, layerBytes, q) && i < |selected|
    ensures p[i] == q[i]
  {
    if i > 0 {
      PlansAgree(selected, layerBytes, p, q, i - 1);
    }
    StageIsDetermined(selected, layerBytes, p, q, i);
  }

  lemma {:induction false} GroupSizeIsUnique(
    usable: seq<Candidate>, layerBytes: seq<int>, lo: int, hi: int, j: nat, k: nat)
    requires GroupSize(usable, layerBytes, lo, hi, j) && GroupSize(usable, layerBytes, lo, hi, k)
    requires NonNegative(layerBytes)
    ensures j == k
  {
    SumBytesGrows(layerBytes, 0, 0, |layerBytes|);
  }

  lemma {:induction false} OutcomeIsUnique(
    usable: seq<Candidate>, layerBytes: seq<int>, minNodes: int, maxNodes: int, r: Outcome, r': Outcome)
    requires IsOutcome(usable, layerBytes, minNodes, maxNodes, r)
    requires IsOutcome(usable, layerBytes, minNodes, maxNodes, r')
    ensures r == r'
  {
    if r.Ok? {
      var lo, hi := EffectiveMin(minNodes), EffectiveMax(maxNodes, |layerBytes|);
      GroupSizeIsUnique(usable, layerBytes, lo, hi, |r.value|, |r'.value|);
      forall i | 0 <= i < |r.value| ensures r.value[i] == r'.value[i] {
        PlansAgree(usable[..|r.value|], layerBytes, r.value, r'.value, i);
      }
      assert r.value == r'.value;
    }
  }

  /** With distinct node IDs the plan does not depend on the order of the candidates. */
  lemma {:induction false} PlanIgnoresCandidateOrder(
    c: seq<Candidate>, c': seq<Candidate>, layerBytes: seq<int>, minNodes: int, maxNodes: int, r: Outcome, r': Outcome)
    requires multiset(c) == multiset(c') && DistinctIds(c)
    requires IsPlanOf(c, layerBytes, minNodes, maxNodes, r) && IsPlanOf(c', layerBytes, minNodes, maxNodes, r')
    ensures r == r'
  {
    var usable :| IsSortOf(usable, c) && IsOutcome(usable, layerBytes, minNodes, maxNodes, r);
    var usable' :| IsSortOf(usable', c') && IsOutcome(usable', layerBytes, minNodes, maxNodes, r');
    DistinctIdsArePermutable(c, usable);
    SortIsUnique(usable, usable');
    OutcomeIsUnique(usable, layerBytes, minNodes, maxNodes, r, r');
  }

  // ---------------------------------------------------------------- memory

  /** If bytes fit the combined weight w in MiB, a proportional share of them fits its part of it. */
  lemma {:induction false} ShareFits(bytes: int, part: int, w: int)
    requires 0 <= bytes <= w * MIB && 0 <= part && 0 < w
    ensures bytes * part / w <= part * MIB
  {
  }

  /** The first stage's target never exceeds the memory its node offered. */
  lemma {:induction false} FirstTargetFitsItsNode(
    usable: seq<Candidate>, layerBytes: seq<int>, minNodes: int, maxNodes: int, stages: seq<Stage>)
    requires IsOutcome(usable, layerBytes, minNodes, maxNodes, Ok(stages))
    requires SumBytes(layerBytes, 0, |layerBytes|) > 0
    ensures Target(layerBytes, 0, 0, usable[..|stages|]) <= Weight(usable[0]) * MIB
  {
    var k, bytes := |stages|, SumBytes(layerBytes, 0, |layerBytes|);
    SumWeightsOfPrefix(usable, k, 0, k);
    ShareFits(bytes, Weight(usable[0]), SumWeights(usable, 0, k));
  }

  /** The best allowed prefix decides: the plan fails for memory exactly when even that cannot hold the model. */
  lemma {:induction false} MemoryFailureIsExact(
    usable: seq<Candidate>, layerBytes: seq<int>, minNodes: int, maxNodes: int, r: Outcome)
    requires IsOutcome(usable, layerBytes, minNodes, maxNodes, r)
    requires |layerBytes| >= 2 && NonNegative(layerBytes)
    requires EffectiveMin(minNodes) <= EffectiveMax(maxNodes, |layerBytes|) && EffectiveMin(minNodes) <= |usable|
    ensures (r.Err? && r.error.InsufficientMemory?) <==>
            forall k: nat :: EffectiveMin(minNodes) <= k <= EffectiveMax(maxNodes, |layerBytes|) && k <= |usable| ==>
              SumWeights(usable, 0, k) * MIB < SumBytes(layerBytes, 0, |layerBytes|)
    ensures r.Err? ==> r.error.InsufficientMemory?
  {
    var hi := Min(EffectiveMax(maxNodes, |layerBytes|), |usable|);
    SumBytesGrows(layerBytes, 0, 0, |layerBytes|);
    if r.Err? {
      forall k: nat | EffectiveMin(minNodes) <= k <= EffectiveMax(maxNodes, |layerBytes|) && k <= |usable|
        ensures SumWeights(usable, 0, k) * MIB < SumBytes(layerBytes, 0, |layerBytes|)
      {
        SumWeightsGrows(usable, 0, k, hi);
      }
    } else {
      var k := |r.value|;
      assert SumWeights(usable, 0, k) >= 0;
      assert SumBytes(layerBytes, 0, |layerBytes|) <= SumWeights(usable, 0, k) * MIB;
    }
  }

  // ---------------------------------------------------------------- in plain terms

  /** Neither more loaded nor, at the same load, smaller, nor, at the same size too, later in the alphabet. */
  predicate NoBetter(a: Candidate, b: Candidate) {
    && a.load >= b.load
    && (a.load == b.load ==> a.capacity <= b.capacity)
    && (a.load == b.load && a.capacity == b.capacity ==> !StringLess(a.nodeId, b.nodeId))
  }

  /** What the limits come to: at least two nodes, and no more than there are layers. */
  predicate WithinLimits(n: int, layers: nat, minNodes: int, maxNodes: int) {
    2 <= n <= layers && minNodes <= n && (maxNodes > 0 ==> n <= maxNodes)
  }

  /**
   * Who gets the stages: the candidates in an order in which no later one is better, as many as the
   * limits and the model's size in MiB ask for and no more, or as many as allowed when it has no size.
   */
  lemma {:induction false} PlanTakesTheBest(
    candidates: seq<Candidate>, layerBytes: seq<int>, minNodes: int, maxNodes: int, stages: seq<Stage>)
    returns (usable: seq<Candidate>)
    requires IsPlanOf(candidates, layerBytes, minNodes, maxNodes, Ok(stages))
    ensures multiset(usable) == multiset(candidates) && |stages| <= |usable|
    ensures forall i :: 0 <= i < |stages| ==>
              && stages[i].nodeId == usable[i].nodeId && stages[i].endpoint == usable[i].endpoint
              && stages[i].budgetMB == usable[i].capacity
    ensures forall i, j :: 0 <= i < j < |usable| ==> NoBetter(usable[j], usable[i])
    ensures WithinLimits(|stages|, |layerBytes|, minNodes, maxNodes)
    ensures var bytes := SumBytes(layerBytes, 0, |layerBytes|);
            && (bytes > 0 ==> bytes <= SumWeights(usable, 0, |stages|) * MIB)
            && (forall k :: 0 <= k < |stages| && WithinLimits(k, |layerBytes|, minNodes, maxNodes) && bytes > 0 ==>
                  SumWeights(usable, 0, k) * MIB < bytes)
            && (forall k :: |stages| < k <= |usable| && WithinLimits(k, |layerBytes|, minNodes, maxNodes) ==> bytes > 0)
  {
    usable :| IsSortOf(usable, candidates) && IsOutcome(usable, layerBytes, minNodes, maxNodes, Ok(stages));
    var us := usable;
    SumBytesGrows(layerBytes, 0, 0, |layerBytes|);
    forall i | 0 <= i < |stages|
      ensures stages[i].nodeId == us[i].nodeId && stages[i].endpoint == us[i].endpoint
      ensures stages[i].budgetMB == us[i].capacity
    {
      assert StageFits(us[..|stages|], layerBytes, stages, i);
    }
  }

  /** When a plan fails, and how, in the order of the checks. */
  lemma {:induction false} PlanFailsExactly(
    candidates: seq<Candidate>, layerBytes: seq<int>, minNodes: int, maxNodes: int, r: Outcome)
    requires IsPlanOf(candidates, layerBytes, minNodes, maxNodes, r)
    ensures r == Err(TooFewLayers) <==> |layerBytes| < 2
    ensures |layerBytes| >= 2 ==>
              (r == Err(MaxBelowMin) <==> forall n :: !WithinLimits(n, |layerBytes|, minNodes, maxNodes))
    ensures |layerBytes| >= 2 && r != Err(MaxBelowMin) ==>
              (r == Err(NegativeLayer) <==> exists i :: 0 <= i < |layerBytes| && layerBytes[i] < 0)
    ensures |layerBytes| >= 2 && r != Err(MaxBelowMin) && r != Err(NegativeLayer) ==>
              (r == Err(TooFewNodes(Max(minNodes, 2))) <==> |candidates| < 2 || |candidates| < minNodes)
    ensures r.Err? && r.error.TooFewNodes? ==> r.error.needed == Max(minNodes, 2)
  {
    var usable :| IsSortOf(usable, candidates) && IsOutcome(usable, layerBytes, minNodes, maxNodes, r);
    assert |usable| == |multiset(usable)| == |multiset(candidates)| == |candidates|;
    var lo, hi := EffectiveMin(minNodes), EffectiveMax(maxNodes, |layerBytes|);
    assert |layerBytes| >= 2 && lo <= hi ==> WithinLimits(lo, |layerBytes|, minNodes, maxNodes);
  }

  lemma {:induction false} QuotientBounds(a: int, b: int)
    requires b > 0
    ensures a / b * b <= a < a / b * b + b
  {
  }

  /** A stage's target is its node's share of the bytes still to be placed, rounded down. */
  lemma {:induction false} TargetIsProportional(layerBytes: seq<int>, start: nat, index: nat, selected: seq<Candidate>)
    requires start <= |layerBytes| && index < |selected|
    ensures var bytes, total := SumBytes(layerBytes, start, |layerBytes|), SumWeights(selected, index, |selected|);
            var target, part := Target(layerBytes, start, index, selected), bytes * Max(selected[index].capacity, 1);
            target * total <= part < target * total + total
  {
    var bytes, total := SumBytes(layerBytes, start, |layerBytes|), SumWeights(selected, index, |selected|);
    QuotientBounds(bytes * Max(selected[index].capacity, 1), total);
  }

  // ---------------------------------------------------------------- evenly split models

  lemma {:induction false} EvenSum(layerBytes: seq<int>, each: int, n: nat)
    requires n <= |layerBytes| && forall i :: 0 <= i < n ==> layerBytes[i] == each
    ensures SumBytes(layerBytes, 0, n) == each * n
  {
    if n > 0 {
      EvenSum(layerBytes, each, n - 1);
      assert each * n == each * (n - 1) + each;
    }
  }

  /**
   * The layers of a model of which only the total size is known: all equal but the last, which carries
   * the remainder of the division as well.
   */
  ghost predicate IsSpread(layerBytes: seq<int>, layers: int, modelSize: int) {
    && |layerBytes| == layers && NonNegative(layerBytes)
    && (forall i, j :: 0 <= i < j < layers - 1 ==> layerBytes[i] == layerBytes[j])
    && (layers > 0 ==>
          && layerBytes[0] <= layerBytes[layers - 1] < layerBytes[0] + layers
          && SumBytes(layerBytes, 0, layers) == Max(modelSize, 0))
  }

  lemma {:induction false} SumOfSpread(layerBytes: seq<int>, layers: nat, modelSize: int)
    requires layers > 0 && IsSpread(layerBytes, layers, modelSize)
    ensures Max(modelSize, 0) == layerBytes[0] * layers + (layerBytes[layers - 1] - layerBytes[0])
  {
    EvenSum(layerBytes, layerBytes[0], layers - 1);
    assert layerBytes[0] * layers == layerBytes[0] * (layers - 1) + layerBytes[0];
  }

  /** A model has one spread. */
  lemma {:induction false} SpreadIsUnique(a: seq<int>, b: seq<int>, layers: int, modelSize: int)
    requires IsSpread(a, layers, modelSize) && IsSpread(b, layers, modelSize)
    ensures a == b
  {
    if layers > 0 {
      SumOfSpread(a, layers, modelSize);
      SumOfSpread(b, layers, modelSize);
      QuotientIsUnique(layers, a[0], a[layers - 1] - a[0], b[0], b[layers - 1] - b[0]);
    }
  }

  lemma {:induction false} EvenShare(size: int, n: nat)
    requires size > 0 && n > 0
    ensures size / n >= 0 && 0 <= size - size / n * n < n
    ensures size / n * (n - 1) + size / n + (size - size / n * n) == size
  {
    var q := size / n;
    assert q * n == q * (n - 1) + q;
  }

  /** The model size in equal layers, with the remainder on the last one. */
  method SpreadEvenly(layers: nat, modelSize: int) returns (layerBytes: seq<int>)
    ensures IsSpread(layerBytes, layers, modelSize)
  {
    var perLayer, rest := 0, 0;
    if layers > 0 && modelSize > 0 {
      perLayer := modelSize / layers;
      rest := modelSize - perLayer * layers;
      EvenShare(modelSize, layers);
    }
    layerBytes := seq(layers, _ => perLayer);
    if layers > 0 {
      layerBytes := layerBytes[layers - 1 := perLayer + rest];
      EvenSum(layerBytes, perLayer, layers - 1);
    }
  }

  /** Plan: PlanLayers for such a model. */
  method PlanEvenly(candidates: seq<Candidate>, layers: nat, modelSize: int, minNodes: int, maxNodes: int)
    returns (r: Outcome)
    ensures exists layerBytes ::
              IsSpread(layerBytes, layers, modelSize) && IsPlanOf(candidates, layerBytes, minNodes, maxNodes, r)
  {
    var spread := SpreadEvenly(layers, modelSize);
    r := PlanLayers(candidates, spread, minNodes, maxNodes);
  }
}
