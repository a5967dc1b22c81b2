/**
 * The layer planner: ranks the candidate nodes, takes the least sufficient prefix of them and
 * cuts the model's layers into one contiguous range per chosen node.
 */
module Planner {
  import opened Prelude

  datatype Candidate = Candidate(nodeId: string, endpoint: string, capacity: int, load: real)

  datatype Stage = Stage(
    index: nat, nodeId: string, endpoint: string, layerStart: nat, layerEnd: nat,
    budgetMB: int, tensorBytes: int, nextNodeId: string)

  datatype PlanError =
    | TooFewLayers
    | MaxBelowMin
    | NegativeLayer
    | TooFewNodes(needed: int)
    | InsufficientMemory(totalMB: int, neededMB: int)

  type Outcome = Result<seq<Stage>, PlanError>

  const MIB: int := 0x10_0000

  // ---------------------------------------------------------------- sums

  /** Bytes of the layers lo, ..., hi - 1. */
  function SumBytes(layerBytes: seq<int>, lo: nat, hi: nat): int
    requires lo <= hi <= |layerBytes|
    decreases hi
  {
    if hi == lo then 0 else SumBytes(layerBytes, lo, hi - 1) + layerBytes[hi - 1]
  }

  /** What a candidate counts for: at least one MiB. */
  function Weight(c: Candidate): (w: int)
    ensures w >= 1 && w >= c.capacity && (w == 1 || w == c.capacity)
  {
    Max(c.capacity, 1)
  }

  /** Combined weight of the candidates lo, ..., hi - 1; it strictly grows with every candidate. */
  function SumWeights(cs: seq<Candidate>, lo: nat, hi: nat): (w: int)
    requires lo <= hi <= |cs|
    ensures w >= hi - lo
    decreases hi
  {
    if hi == lo then 0 else SumWeights(cs, lo, hi - 1) + Weight(cs[hi - 1])
  }

  ghost predicate NonNegative(layerBytes: seq<int>) {
    forall i :: 0 <= i < |layerBytes| ==> layerBytes[i] >= 0
  }

  /** One layer or one candidate by itself. */
  lemma {:induction false} SumOfOne(layerBytes: seq<int>, cs: seq<Candidate>, i: nat)
    requires i < |layerBytes| && i < |cs|
    ensures SumBytes(layerBytes, i, i + 1) == layerBytes[i] && SumBytes(layerBytes, i, i) == 0
    ensures SumWeights(cs, i, i + 1) == (if cs[i].capacity > 1 then cs[i].capacity else 1) && SumWeights(cs, i, i) == 0
  {
  }

  lemma {:induction false} SumBytesSplit(layerBytes: seq<int>, lo: nat, mid: nat, hi: nat)
    requires lo <= mid <= hi <= |layerBytes|
    ensures SumBytes(layerBytes, lo, hi) == SumBytes(layerBytes, lo, mid) + SumBytes(layerBytes, mid, hi)
    decreases hi
  {
    if mid < hi {
      SumBytesSplit(layerBytes, lo, mid, hi - 1);
    }
  }

  lemma {:induction false} SumBytesGrows(layerBytes: seq<int>, lo: nat, mid: nat, hi: nat)
    requires lo <= mid <= hi <= |layerBytes| && NonNegative(layerBytes)
    ensures 0 <= SumBytes(layerBytes, lo, mid) <= SumBytes(layerBytes, lo, hi)
    decreases hi
  {
    if mid < hi {
      SumBytesGrows(layerBytes, lo, mid, hi - 1);
    } else if lo < mid {
      SumBytesGrows(layerBytes, lo, mid - 1, mid - 1);
    }
  }

  lemma {:induction false} SumWeightsSplit(cs: seq<Candidate>, lo: nat, mid: nat, hi: nat)
    requires lo <= mid <= hi <= |cs|
    ensures SumWeights(cs, lo, hi) == SumWeights(cs, lo, mid) + SumWeights(cs, mid, hi)
    decreases hi
  {
    if mid < hi {
      SumWeightsSplit(cs, lo, mid, hi - 1);
    }
  }

  lemma {:induction false} SumWeightsOfPrefix(cs: seq<Candidate>, k: nat, lo: nat, hi: nat)
    requires lo <= hi <= k <= |cs|
    ensures SumWeights(cs[..k], lo, hi) == SumWeights(cs, lo, hi)
    decreases hi
  {
    if lo < hi {
      SumWeightsOfPrefix(cs, k, lo, hi - 1);
    }
  }

  lemma {:induction false} SumWeightsGrows(cs: seq<Candidate>, lo: nat, mid: nat, hi: nat)
    requires lo <= mid <= hi <= |cs|
    ensures SumWeights(cs, lo, mid) <= SumWeights(cs, lo, hi)
    decreases hi
  {
    if mid < hi {
      SumWeightsGrows(cs, lo, mid, hi - 1);
    }
  }

  // ---------------------------------------------------------------- ranking

  /** The sort key: lower load, then greater capacity, then smaller node ID. */
  predicate Before(a: Candidate, b: Candidate) {
    if a.load != b.load then a.load < b.load
    else if a.capacity != b.capacity then a.capacity > b.capacity
    else StringLess(a.nodeId, b.nodeId)
  }

  ghost predicate Ranked(cs: seq<Candidate>) {
    forall i, j :: 0 <= i < j < |cs| ==> !Before(cs[j], cs[i])
  }

  /** usable is some result of sorting candidates: the sort need not be stable. */
  ghost predicate IsSortOf(usable: seq<Candidate>, candidates: seq<Candidate>) {
    multiset(usable) == multiset(candidates) && Ranked(usable)
  }

  /** Different entries carry different node IDs. */
  ghost predicate DistinctIds(cs: seq<Candidate>) {
    forall i, j :: 0 <= i < j < |cs| ==> cs[i].nodeId != cs[j].nodeId
  }

  lemma {:induction false} NotAfterIsTransitive(a: Candidate, b: Candidate, c: Candidate)
    requires !Before(b, a) && !Before(c, b)
    ensures !Before(c, a)
  {
    StringLessIsTotal(a.nodeId, b.nodeId);
    StringLessIsTotal(b.nodeId, c.nodeId);
    if StringLess(c.nodeId, a.nodeId) && StringLess(a.nodeId, b.nodeId) {
      StringLessIsTransitive(c.nodeId, a.nodeId, b.nodeId);
    }
  }

  /** Where c belongs: behind everything it does not beat, in front of everything it beats. */
  lemma {:induction false} InsertKeepsRank(ranked: seq<Candidate>, c: Candidate, i: nat)
    requires Ranked(ranked) && i <= |ranked|
    requires i > 0 ==> !Before(c, ranked[i - 1])
    requires forall j :: i <= j < |ranked| ==> Before(c, ranked[j])
    ensures Ranked(ranked[..i] + [c] + ranked[i..])
  {
    forall j | 0 <= j < i ensures !Before(c, ranked[j]) {
      if j < i - 1 {
        NotAfterIsTransitive(ranked[j], ranked[i - 1], c);
      }
    }
    forall j | i <= j < |ranked| ensures !Before(ranked[j], c) {
      StringLessIsTotal(c.nodeId, ranked[j].nodeId);
    }
  }

  method Insert(ranked: seq<Candidate>, c: Candidate) returns (r: seq<Candidate>)
    requires Ranked(ranked)
    ensures IsSortOf(r, ranked + [c])
  {
    var i := |ranked|;
    while i > 0 && Before(c, ranked[i - 1])
      invariant 0 <= i <= |ranked|
      invariant forall j :: i <= j < |ranked| ==> Before(c, ranked[j])
    {
      i := i - 1;
    }
    r := ranked[..i] + [c] + ranked[i..];
    assert ranked == ranked[..i] + ranked[i..];
    InsertKeepsRank(ranked, c, i);
  }

  method SortCandidates(candidates: seq<Candidate>) returns (usable: seq<Candidate>)
    ensures IsSortOf(usable, candidates)
  {
    usable := [];
    for i := 0 to |candidates|
      invariant IsSortOf(usable, candidates[..i])
    {
      assert candidates[..i + 1] == candidates[..i] + [candidates[i]];
      usable := Insert(usable, candidates[i]);
    }
    assert candidates[..|candidates|] == candidates;
  }

  lemma {:induction false} MemberOfPermutation<T>(a: seq<T>, b: seq<T>, x: T)
    requires multiset(a) == multiset(b) && x in a
    ensures x in b
  {
    assert x in multiset(a);
  }

  /** The head of a ranking is determined by its entries. */
  lemma {:induction false} SameHead(a: seq<Candidate>, b: seq<Candidate>)
    requires Ranked(a) && Ranked(b) && multiset(a) == multiset(b) && a != [] && b != []
    requires forall x, y :: x in a && y in a && x.nodeId == y.nodeId ==> x == y
    ensures a[0] == b[0]
  {
    MemberOfPermutation(a, b, a[0]);
    MemberOfPermutation(b, a, b[0]);
    var i :| 0 <= i < |a| && a[i] == b[0];
    var j :| 0 <= j < |b| && b[j] == a[0];
    StringLessIsTotal(a[0].nodeId, b[0].nodeId);
  }

  lemma {:induction false} SameTail<T>(a: seq<T>, b: seq<T>)
    requires multiset(a) == multiset(b) && a != [] && b != [] && a[0] == b[0]
    ensures multiset(a[1..]) == multiset(b[1..])
  {
    assert a == [a[0]] + a[1..] && b == [b[0]] + b[1..];
    assert multiset(a[1..]) == multiset(a) - multiset{a[0]};
    assert multiset(b[1..]) == multiset(b) - multiset{b[0]};
  }

  /** Ranking has one result when equal IDs mean equal candidates. */
  lemma {:induction false} SortIsUnique(a: seq<Candidate>, b: seq<Candidate>)
    requires Ranked(a) && Ranked(b) && multiset(a) == multiset(b)
    requires forall x, y :: x in a && y in a && x.nodeId == y.nodeId ==> x == y
    ensures a == b
  {
    assert |multiset(a)| == |a| && |multiset(b)| == |b|;
    if a != [] {
      SameHead(a, b);
      SameTail(a, b);
      SortIsUnique(a[1..], b[1..]);
      assert a == [a[0]] + a[1..] && b == [b[0]] + b[1..];
    }
  }

  /** Distinct IDs survive any reordering, as an injection from IDs to entries. */
  lemma {:induction false} DistinctIdsArePermutable(a: seq<Candidate>, b: seq<Candidate>)
    requires DistinctIds(a) && multiset(a) == multiset(b)
    ensures forall x, y :: x in b && y in b && x.nodeId == y.nodeId ==> x == y
  {
    forall x, y | x in b && y in b && x.nodeId == y.nodeId ensures x == y {
      MemberOfPermutation(b, a, x);
      MemberOfPermutation(b, a, y);
    }
  }

  // ---------------------------------------------------------------- one cut

  /** The share of the remaining bytes that is proportional to the stage's weight, rounded down. */
  function Target(layerBytes: seq<int>, start: nat, index: nat, selected: seq<Candidate>): int
    requires start <= |layerBytes| && index < |selected|
  {
    SumBytes(layerBytes, start, |layerBytes|) * Weight(selected[index])
      / SumWeights(selected, index, |selected|)
  }

  function Distance(layerBytes: seq<int>, start: nat, end: nat, target: int): int
    requires start <= end <= |layerBytes|
  {
    Abs(SumBytes(layerBytes, start, end) - target)
  }

  /**
   * end is the best of ALL allowed ends start < f <= maxEnd: none brings the stage's bytes closer to
   * the target. Among equally good ends it is the last one that still starts its final layer below
   * the target, so there is exactly one such end.
   */
  ghost predicate NearestEnd(layerBytes: seq<int>, start: nat, target: int, maxEnd: int, end: nat) {
    && start < end <= maxEnd <= |layerBytes|
    && (forall f :: start < f <= maxEnd ==>
          Distance(layerBytes, start, end, target) <= Distance(layerBytes, start, f, target))
    && (end > start + 1 ==> SumBytes(layerBytes, start, end - 1) < target)
    && (forall f ::
          end < f <= maxEnd && Distance(layerBytes, start, f, target) == Distance(layerBytes, start, end, target) ==>
            SumBytes(layerBytes, start, f - 1) >= target)
  }

  lemma {:induction false} NearestEndIsUnique(
    layerBytes: seq<int>, start: nat, target: int, maxEnd: int, e1: nat, e2: nat)
    requires NearestEnd(layerBytes, start, target, maxEnd, e1)
    requires NearestEnd(layerBytes, start, target, maxEnd, e2)
    ensures e1 == e2
  {
    assert Distance(layerBytes, start, e1, target) == Distance(layerBytes, start, e2, target);
  }

  /** A stage of several layers overshoots its target by at most half of its last layer. */
  lemma {:induction false} OvershootIsBounded(layerBytes: seq<int>, start: nat, target: int, maxEnd: int, end: nat)
    requires NearestEnd(layerBytes, start, target, maxEnd, end) && end > start + 1
    ensures 2 * (SumBytes(layerBytes, start, end) - target) <= layerBytes[end - 1]
  {
    assert Distance(layerBytes, start, end, target) <= Distance(layerBytes, start, end - 1, target);
  }

  method SumRemainingWeights(selected: seq<Candidate>, index: nat) returns (total: int)
    requires index <= |selected|
    ensures total == SumWeights(selected, index, |selected|)
  {
    total := 0;
    for i := index to |selected|
      invariant total == SumWeights(selected, index, i)
    {
      total := total + Max(selected[i].capacity, 1);
    }
  }

  method SumLayers(layerBytes: seq<int>, lo: nat, hi: nat) returns (total: int)
    requires lo <= hi <= |layerBytes|
    ensures total == SumBytes(layerBytes, lo, hi)
  {
    total := 0;
    for i := lo to hi
      invariant total == SumBytes(layerBytes, lo, i)
    {
      total := total + layerBytes[i];
    }
  }

  /** What the greedy walk knows on reaching end: every earlier end is below the target and no better. */
  ghost predicate Approaching(layerBytes: seq<int>, start: nat, target: int, end: nat)
    requires start < end <= |layerBytes|
  {
    forall f :: start < f < end ==>
      && SumBytes(layerBytes, start, f) < target
      && Distance(layerBytes, start, end, target) <= Distance(layerBytes, start, f, target)
  }

  /** A local stop is a global optimum, because byte sums only grow. */
  lemma {:induction false} StopIsOptimal(layerBytes: seq<int>, start: nat, target: int, maxEnd: int, end: nat)
    requires NonNegative(layerBytes) && start < end <= maxEnd <= |layerBytes|
    requires Approaching(layerBytes, start, target, end)
    requires end == maxEnd || SumBytes(layerBytes, start, end) >= target
             || Distance(layerBytes, start, end + 1, target) > Distance(layerBytes, start, end, target)
    ensures NearestEnd(layerBytes, start, target, maxEnd, end)
  {
    forall f | end < f <= maxEnd
      ensures Distance(layerBytes, start, end, target) <= Distance(layerBytes, start, f, target)
      ensures Distance(layerBytes, start, f, target) == Distance(layerBytes, start, end, target) ==>
                SumBytes(layerBytes, start, f - 1) >= target
    {
      SumBytesGrows(layerBytes, start, end, f - 1);
      SumBytesGrows(layerBytes, start, end + 1, f);
      SumBytesGrows(layerBytes, start, end, end + 1);
    }
  }

  /** The greedy walk: it stops at the first end that is past the target or about to get worse. */
  method WalkToTarget(layerBytes: seq<int>, start: nat, target: int, maxEnd: int) returns (end: nat)
    requires NonNegative(layerBytes) && start < maxEnd <= |layerBytes|
    ensures NearestEnd(layerBytes, start, target, maxEnd, end)
  {
    var taken := layerBytes[start];
    end := start + 1;
    assert SumBytes(layerBytes, start, start) == 0;
    while end < maxEnd
      invariant start < end <= maxEnd
      invariant taken == SumBytes(layerBytes, start, end)
      invariant Approaching(layerBytes, start, target, end)
    {
      var next := taken + layerBytes[end];
      if taken >= target || Abs(next - target) > Abs(taken - target) {
        break;
      }
      taken := next;
      end := end + 1;
    }
    StopIsOptimal(layerBytes, start, target, maxEnd, end);
  }

  method ChooseLayerEnd(layerBytes: seq<int>, start: nat, index: nat, selected: seq<Candidate>)
    returns (end: nat)
    requires NonNegative(layerBytes) && index < |selected|
    requires start + (|selected| - index) <= |layerBytes|
    ensures index == |selected| - 1 ==> end == |layerBytes|
    ensures index < |selected| - 1 ==>
              NearestEnd(layerBytes, start, Target(layerBytes, start, index, selected),
                         |layerBytes| - (|selected| - index - 1), end)
  {
    if index == |selected| - 1 {
      return |layerBytes|;
    }
    var remainingCapacity := SumRemainingWeights(selected, index);
    var remainingBytes := SumLayers(layerBytes, start, |layerBytes|);
    var target := remainingBytes * Max(selected[index].capacity, 1) / remainingCapacity;
    end := WalkToTarget(layerBytes, start, target, |layerBytes| - (|selected| - index - 1));
  }

  // ---------------------------------------------------------------- the whole plan

  function EffectiveMin(minNodes: int): int { if minNodes < 2 then 2 else minNodes }

  function EffectiveMax(maxNodes: int, layers: nat): int {
    if maxNodes <= 0 || maxNodes > layers then layers else maxNodes
  }

  /** Bytes rounded up to whole MiB. */
  function NeededMB(bytes: int): int { (bytes + MIB - 1) / MIB }

  /** Stage i of a plan over the chosen nodes, apart from its link to the next node. */
  ghost predicate CutFits(selected: seq<Candidate>, layerBytes: seq<int>, stages: seq<Stage>, i: nat)
    requires i < |stages| <= |selected|
  {
    var s := stages[i];
    && s.index == i && s.nodeId == selected[i].nodeId && s.endpoint == selected[i].endpoint
    && s.budgetMB == selected[i].capacity
    && s.layerStart == (if i == 0 then 0 else stages[i - 1].layerEnd)
    && s.layerStart < s.layerEnd <= |layerBytes|
    && s.tensorBytes == SumBytes(layerBytes, s.layerStart, s.layerEnd)
    && (i == |selected| - 1 ==> s.layerEnd == |layerBytes|)
    && (i < |selected| - 1 ==>
          NearestEnd(layerBytes, s.layerStart, Target(layerBytes, s.layerStart, i, selected),
                     |layerBytes| - (|selected| - i - 1), s.layerEnd))
  }

  ghost predicate StageFits(selected: seq<Candidate>, layerBytes: seq<int>, stages: seq<Stage>, i: nat)
    requires i < |selected| == |stages|
  {
    && CutFits(selected, layerBytes, stages, i)
    && stages[i].nextNodeId == (if i < |selected| - 1 then selected[i + 1].nodeId else "")
  }

  ghost predicate IsPlan(selected: seq<Candidate>, layerBytes: seq<int>, stages: seq<Stage>) {
    |stages| == |selected| && forall i :: 0 <= i < |selected| ==> StageFits(selected, layerBytes, stages, i)
  }

  /** How many of the ranked candidates the plan takes. */
  ghost predicate GroupSize(usable: seq<Candidate>, layerBytes: seq<int>, lo: int, hi: int, k: nat) {
    var bytes := SumBytes(layerBytes, 0, |layerBytes|);
    && 2 <= lo <= k <= Min(hi, |usable|)
    && (bytes == 0 ==> k == Min(hi, |usable|))
    && (bytes > 0 ==>
          && NeededMB(bytes) <= SumWeights(usable, 0, k)
          && forall j :: lo <= j < k ==> SumWeights(usable, 0, j) < NeededMB(bytes))
  }

  /** Everything PlanLayers promises, for a ranking usable of its candidates. */
  ghost predicate IsOutcome(
    usable: seq<Candidate>, layerBytes: seq<int>, minNodes: int, maxNodes: int, r: Outcome)
  {
    var lo, hi := EffectiveMin(minNodes), EffectiveMax(maxNodes, |layerBytes|);
    var bytes := SumBytes(layerBytes, 0, |layerBytes|);
    if |layerBytes| < 2 then r == Err(TooFewLayers)
    else if hi < lo then r == Err(MaxBelowMin)
    else if !NonNegative(layerBytes) then r == Err(NegativeLayer)
    else if |usable| < lo then r == Err(TooFewNodes(lo))
    else
      var best := SumWeights(usable, 0, Min(hi, |usable|));
      if bytes > 0 && best < NeededMB(bytes) then r == Err(InsufficientMemory(best, NeededMB(bytes)))
      else
        && r.Ok?
        && GroupSize(usable, layerBytes, lo, hi, |r.value|)
        && IsPlan(usable[..|r.value|], layerBytes, r.value)
  }

  method CountNodes(usable: seq<Candidate>, bytes: int, lo: int, hi: int) returns (count: nat, total: int)
    requires 2 <= lo <= hi && lo <= |usable| && bytes > 0
    ensures lo <= count <= Min(hi, |usable|)
    ensures total == SumWeights(usable, 0, count)
    ensures forall j :: lo <= j < count ==> SumWeights(usable, 0, j) < NeededMB(bytes)
    ensures total < NeededMB(bytes) ==> count == Min(hi, |usable|)
  {
    var needed := (bytes + MIB - 1) / MIB;
    count, total := 0, 0;
    while count < |usable| && count < hi
      invariant 0 <= count <= Min(hi, |usable|)
      invariant total == SumWeights(usable, 0, count)
      invariant forall j :: lo <= j <= count ==> SumWeights(usable, 0, j) < needed
    {
      total := total + Max(usable[count].capacity, 1);
      count := count + 1;
      if count >= lo && total >= needed {
        break;
      }
    }
  }

  /** CutFits looks at two stages only, and not at their links. */
  lemma {:induction false} CutFitsCarries(
    selected: seq<Candidate>, layerBytes: seq<int>, a: seq<Stage>, b: seq<Stage>, i: nat)
    requires i < |a| <= |b| <= |selected| && CutFits(selected, layerBytes, a, i)
    requires a[i] == b[i].(nextNodeId := a[i].nextNodeId)
    requires i > 0 ==> a[i - 1].layerEnd == b[i - 1].layerEnd
    ensures CutFits(selected, layerBytes, b, i)
  {
  }

  lemma {:induction false} NodeOfCut(selected: seq<Candidate>, layerBytes: seq<int>, cuts: seq<Stage>, i: nat)
    requires i < |cuts| <= |selected| && CutFits(selected, layerBytes, cuts, i)
    ensures cuts[i].nodeId == selected[i].nodeId
  {
  }

  method CutLayers(selected: seq<Candidate>, layerBytes: seq<int>) returns (stages: seq<Stage>)
    requires NonNegative(layerBytes) && 1 <= |selected| <= |layerBytes|
    ensures |stages| == |selected|
    ensures forall j :: 0 <= j < |selected| ==> CutFits(selected, layerBytes, stages, j)
    ensures forall j :: 0 <= j < |selected| ==> stages[j].nextNodeId == ""
  {
    stages := [];
    var start := 0;
    for i := 0 to |selected|
      invariant |stages| == i
      invariant start == (if i == 0 then 0 else stages[i - 1].layerEnd)
      invariant i < |selected| ==> start + (|selected| - i) <= |layerBytes|
      invariant forall j :: 0 <= j < i ==> CutFits(selected, layerBytes, stages, j)
      invariant forall j :: 0 <= j < i ==> stages[j].nextNodeId == ""
    {
      var end := ChooseLayerEnd(layerBytes, start, i, selected);
      var taken := SumLayers(layerBytes, start, end);
      ghost var before := stages;
      stages := stages + [Stage(i, selected[i].nodeId, selected[i].endpoint, start, end,
                                selected[i].capacity, taken, "")];
      start := end;
      forall j | 0 <= j < i ensures CutFits(selected, layerBytes, stages, j) {
        CutFitsCarries(selected, layerBytes, before, stages, j);
      }
    }
  }

  method LinkStages(selected: seq<Candidate>, layerBytes: seq<int>, cuts: seq<Stage>) returns (stages: seq<Stage>)
    requires 1 <= |selected| == |cuts|
    requires forall j :: 0 <= j < |selected| ==> CutFits(selected, layerBytes, cuts, j)
    requires forall j :: 0 <= j < |selected| ==> cuts[j].nextNodeId == ""
    ensures IsPlan(selected, layerBytes, stages)
  {
    stages := cuts;
    for i := 0 to |selected| - 1
      invariant |stages| == |selected|
      invariant forall j :: 0 <= j < |selected| ==>
                  stages[j] == cuts[j].(nextNodeId := if j < i then selected[j + 1].nodeId else "")
    {
      NodeOfCut(selected, layerBytes, cuts, i + 1);
      stages := stages[i := stages[i].(nextNodeId := stages[i + 1].nodeId)];
    }
    forall j | 0 <= j < |selected| ensures StageFits(selected, layerBytes, stages, j) {
      CutFitsCarries(selected, layerBytes, cuts, stages, j);
    }
  }

  /** PlanLayers behind the sort. */
  method PlanRanked(usable: seq<Candidate>, layerBytes: seq<int>, minNodes: int, maxNodes: int) returns (r: Outcome)
    ensures IsOutcome(usable, layerBytes, minNodes, maxNodes, r)
  {
    var layers := |layerBytes|;
    if layers < 2 {
      return Err(TooFewLayers);
    }
    var lo, hi := minNodes, maxNodes;
    if lo < 2 {
      lo := 2;
    }
    if hi <= 0 || hi > layers {
      hi := layers;
    }
    if hi < lo {
      return Err(MaxBelowMin);
    }
    var modelSize := 0;
    for i := 0 to layers
      invariant modelSize == SumBytes(layerBytes, 0, i)
      invariant forall j :: 0 <= j < i ==> layerBytes[j] >= 0
    {
      if layerBytes[i] < 0 {
        return Err(NegativeLayer);
      }
      modelSize := modelSize + layerBytes[i];
    }
    SumBytesGrows(layerBytes, 0, 0, layers);
    if |usable| < lo {
      return Err(TooFewNodes(lo));
    }
    var count := Min(hi, |usable|);
    if modelSize > 0 {
      var total;
      count, total := CountNodes(usable, modelSize, lo, hi);
      SumWeightsGrows(usable, 0, count, Min(hi, |usable|));
      if total < NeededMB(modelSize) {
        return Err(InsufficientMemory(total, NeededMB(modelSize)));
      }
    }
    var cuts := CutLayers(usable[..count], layerBytes);
    var stages := LinkStages(usable[..count], layerBytes, cuts);
    r := Ok(stages);
  }

  /** The outcome for the candidates in whatever order they are given. */
  ghost predicate IsPlanOf(candidates: seq<Candidate>, layerBytes: seq<int>, minNodes: int, maxNodes: int, r: Outcome) {
    exists usable :: IsSortOf(usable, candidates) && IsOutcome(usable, layerBytes, minNodes, maxNodes, r)
  }

  method PlanLayers(candidates: seq<Candidate>, layerBytes: seq<int>, minNodes: int, maxNodes: int) returns (r: Outcome)
    ensures IsPlanOf(candidates, layerBytes, minNodes, maxNodes, r)
  {
    var usable := SortCandidates(candidates);
    r := PlanRanked(usable, layerBytes, minNodes, maxNodes);
  }
}
