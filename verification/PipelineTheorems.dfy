/** What the session and its stages guarantee over every run, with any failures and interference. */
module PipelineTheorems {
  import opened Prelude
  import opened TensorWire
  import opened Pipeline
  import Planner
  import PlannerTheorems

  // ---------------------------------------------------------------- a run that succeeds is right

  /** The stages hold the layers from, ..., to - 1 between them, in order and without gaps. */
  predicate Spans(stages: seq<StageState>, j: nat, from: int, to: int)
    requires j <= |stages|
    decreases |stages| - j
  {
    if j == |stages| then from == to
    else stages[j].layerStart == from && from <= stages[j].layerEnd && Spans(stages, j + 1, stages[j].layerEnd, to)
  }

  predicate SameRange(a: StageState, b: StageState) {
    a.layerStart == b.layerStart && a.layerEnd == b.layerEnd && a.hiddenSize == b.hiddenSize
  }

  /** Nothing that happens changes the layers or the width of a stage. */
  predicate SameShape(a: seq<StageState>, b: seq<StageState>) {
    && |a| == |b|
    && forall i :: 0 <= i < |a| ==> SameRange(a[i], b[i])
  }

  lemma {:induction false} ShapeIsTransitive(a: seq<StageState>, b: seq<StageState>, c: seq<StageState>)
    requires SameShape(a, b) && SameShape(b, c)
    ensures SameShape(a, c)
  {
  }

  lemma {:induction false} EnvKeepsShape(fp: Floats, m: SessionState, es: seq<Env>)
    ensures SameShape(EnvSteps(fp, m, es).stages, m.stages)
    decreases |es|
  {
    if es != [] {
      assert SameShape(EnvStep(fp, m, es[0]).stages, m.stages);
      EnvKeepsShape(fp, EnvStep(fp, m, es[0]), es[1..]);
      ShapeIsTransitive(EnvSteps(fp, m, es).stages, EnvStep(fp, m, es[0]).stages, m.stages);
    }
  }

  lemma {:induction false} CallKeepsShape(fp: Floats, m: SessionState, j: nat, f: Frame, fault: Fault)
    requires j < |m.stages|
    ensures SameShape(Call(fp, m, j, f, fault).0.stages, m.stages)
  {
  }

  lemma {:induction false} SpansCarries(a: seq<StageState>, b: seq<StageState>, j: nat, from: int, to: int)
    requires SameShape(a, b) && j <= |a| && Spans(b, j, from, to)
    ensures Spans(a, j, from, to)
    decreases |a| - j
  {
    if j < |a| {
      assert SameRange(a[j], b[j]);
      SpansCarries(a, b, j + 1, b[j].layerEnd, to);
    }
  }

  lemma {:induction false} SpansEnds(stages: seq<StageState>, j: nat, from: int, to: int)
    requires j <= |stages| && Spans(stages, j, from, to)
    ensures from <= to
    decreases |stages| - j
  {
    if j < |stages| {
      SpansEnds(stages, j + 1, stages[j].layerEnd, to);
    }
  }

  lemma {:induction false} RunFromIsExact(
    fp: Floats, m: SessionState, j: nat, f: Frame, turns: seq<Turn>, from: int, to: int)
    requires j <= |m.stages| == |turns| && Spans(m.stages, j, from, to)
    requires RunFrom(fp, m, j, f, turns).1.Ok?
    ensures RunFrom(fp, m, j, f, turns).1.value == Layers(fp, from, to, f.position, f.values)
    decreases |m.stages| - j
  {
    if j < |m.stages| {
      var m1 := EnvSteps(fp, m, turns[j].before);
      var (m2, r) := Call(fp, m1, j, f, turns[j].fault);
      EnvKeepsShape(fp, m, turns[j].before);
      CallKeepsShape(fp, m1, j, f, turns[j].fault);
      ShapeIsTransitive(m2.stages, m1.stages, m.stages);
      var mid := m.stages[j].layerEnd;
      assert SameRange(m1.stages[j], m.stages[j]);
      SpansCarries(m2.stages, m.stages, j + 1, mid, to);
      SpansEnds(m.stages, j + 1, mid, to);
      RunFromIsExact(fp, m2, j + 1, r.value, turns, mid, to);
      LayersCompose(fp, from, mid, to, f.position, f.values);
    }
  }

  /**
   * Whatever fails, arrives late or interferes: a run that returns values returns, bit for bit, what
   * one process executing all the layers would have computed.
   */
  lemma {:induction false} RunEqualsSingleProcess(
    fp: Floats, m: SessionState, position: Uint32, activation: seq<Uint32>, turns: seq<Turn>, layers: int)
    requires |m.stages| == |turns| && Spans(m.stages, 0, 0, layers)
    requires RunSession(fp, m, position, activation, turns).1.Ok?
    ensures RunSession(fp, m, position, activation, turns).1.value == Layers(fp, 0, layers, position, activation)
  {
    RunFromIsExact(fp, m, 0, Frame(m.id, m.next, position, activation), turns, 0, layers);
  }

  /** Runtimes built from a plan span the model. */
  lemma {:induction false} PlanSpans(plan: seq<Planner.Stage>, layers: nat, stages: seq<StageState>, j: nat)
    requires PlannerTheorems.Contiguous(plan, layers) && |stages| == |plan| && j <= |plan|
    requires forall i :: 0 <= i < |plan| ==>
               stages[i].layerStart == plan[i].layerStart && stages[i].layerEnd == plan[i].layerEnd
    ensures Spans(stages, j, if j == 0 then 0 else plan[j - 1].layerEnd, layers)
    decreases |plan| - j
  {
    if j < |plan| {
      PlanSpans(plan, layers, stages, j + 1);
    }
  }

  /** From plan to result: the split pipeline of any plan equals single-process execution. */
  lemma {:induction false} PlannedRunEqualsSingleProcess(
    usable: seq<Planner.Candidate>, layerBytes: seq<int>, minNodes: int, maxNodes: int, plan: seq<Planner.Stage>,
    fp: Floats, m: SessionState, position: Uint32, activation: seq<Uint32>, turns: seq<Turn>)
    requires Planner.IsOutcome(usable, layerBytes, minNodes, maxNodes, Ok(plan))
    requires |m.stages| == |plan| == |turns|
    requires forall i :: 0 <= i < |plan| ==>
               m.stages[i].layerStart == plan[i].layerStart && m.stages[i].layerEnd == plan[i].layerEnd
    requires RunSession(fp, m, position, activation, turns).1.Ok?
    ensures RunSession(fp, m, position, activation, turns).1.value
         == Layers(fp, 0, |layerBytes|, position, activation)
  {
    PlannerTheorems.PlanIsPartition(usable, layerBytes, minNodes, maxNodes, plan);
    PlanSpans(plan, |layerBytes|, m.stages, 0);
    RunEqualsSingleProcess(fp, m, position, activation, turns, |layerBytes|);
  }

  // ---------------------------------------------------------------- every frame once and in order

  /** The sequence numbers executed for one session. */
  function Executed(log: seq<(Uint64, Uint64)>, id: Uint64): seq<Uint64>
    decreases |log|
  {
    if log == [] then []
    else
      var rest := Executed(log[..|log| - 1], id);
      if log[|log| - 1].0 == id then rest + [log[|log| - 1].1] else rest
  }

  /** The stage has executed 0, 1, 2, ... of this session, each once, and expects the next one. */
  ghost predicate InOrder(s: StageState, id: Uint64) {
    var done := Executed(s.log, id);
    && Expected(s, id) == |done| % TWO64
    && forall k :: 0 <= k < |done| ==> done[k] == k % TWO64
  }

  ghost predicate AllInOrder(s: StageState) {
    forall id: Uint64 :: InOrder(s, id)
  }

  lemma {:induction false} NextOfCount(n: nat)
    ensures Next(n % TWO64) == (n + 1) % TWO64
  {
  }

  /** Whatever frame arrives, a stage keeps every session in order. */
  lemma {:induction false} ProcessKeepsOrder(fp: Floats, s: StageState, f: Frame, fails: bool)
    requires AllInOrder(s)
    ensures AllInOrder(ProcessFrame(fp, s, f, fails).0)
  {
    var t := ProcessFrame(fp, s, f, fails).0;
    if t != s {
      forall id: Uint64 ensures InOrder(t, id) {
        assert InOrder(s, id);
        assert t.log[..|t.log| - 1] == s.log;
        NextOfCount(|Executed(s.log, id)|);
      }
    }
  }

  // ---------------------------------------------------------------- failures

  /** The first p stages have already executed the sequence number that the session will send next. */
  ghost predicate Shape(m: SessionState, p: nat) {
    && p <= |m.stages|
    && (forall j :: 0 <= j < p ==> Expected(m.stages[j], m.id) == m.next + 1)
    && (forall j :: p <= j < |m.stages| ==> Expected(m.stages[j], m.id) == m.next)
  }

  ghost predicate LostFits(m: SessionState, p: nat, j: nat, f: Frame) {
    j < |m.stages| && f.sessionId == m.id && f.sequence <= m.next && (f.sequence == m.next ==> j <= p)
  }

  /** Consistent, as long as the 64-bit sequence number has not wrapped. */
  ghost predicate Consistent(m: SessionState, p: nat) {
    && m.rounds == m.next < TWO64 - 1
    && Shape(m, p)
    && (forall k :: 0 <= k < |m.lost| ==> LostFits(m, p, m.lost[k].0, m.lost[k].1))
  }

  /** Another session's frame does not touch this session's counters. */
  lemma {:induction false} ForeignIsInvisible(fp: Floats, s: StageState, f: Frame, fails: bool, id: Uint64)
    requires f.sessionId != id
    ensures Expected(ProcessFrame(fp, s, f, fails).0, id) == Expected(s, id)
  {
  }

  /** A late frame is either stale, and refused, or executed by the first stage that is not ahead. */
  lemma {:induction false} LateKeeps(fp: Floats, m: SessionState, k: nat, fails: bool, p: nat) returns (q: nat)
    requires Consistent(m, p) && k < |m.lost| && m.lost[k].0 < |m.stages|
    ensures Consistent(EnvStep(fp, m, Late(k, fails)), q) && p <= q
  {
    var (j, f) := m.lost[k];
    assert LostFits(m, p, j, f);
    var ran := ProcessFrame(fp, m.stages[j], f, fails).1.Ok?;
    assert ran ==> j == p && f.sequence == m.next;
    q := if ran then p + 1 else p;
    var m' := EnvStep(fp, m, Late(k, fails));
    forall i | 0 <= i < |m'.lost| ensures LostFits(m', q, m'.lost[i].0, m'.lost[i].1) {
      assert m'.lost[i] == m.lost[if i < k then i else i + 1];
    }
  }

  lemma {:induction false} EnvStepKeeps(fp: Floats, m: SessionState, e: Env, p: nat) returns (q: nat)
    requires Consistent(m, p)
    ensures Consistent(EnvStep(fp, m, e), q) && p <= q
  {
    q := p;
    match e {
      case Late(k, fails) =>
        if k < |m.lost| && m.lost[k].0 < |m.stages| {
          q := LateKeeps(fp, m, k, fails, p);
        }
      case Drop(k) =>
      case Foreign(j, f, fails) =>
        if j < |m.stages| && f.sessionId != m.id {
          ForeignIsInvisible(fp, m.stages[j], f, fails, m.id);
        }
    }
  }

  lemma {:induction false} EnvStepsKeep(fp: Floats, m: SessionState, es: seq<Env>, p: nat) returns (q: nat)
    requires Consistent(m, p)
    ensures Consistent(EnvSteps(fp, m, es), q) && p <= q
    decreases |es|
  {
    q := p;
    if es != [] {
      q := EnvStepKeeps(fp, m, es[0], p);
      q := EnvStepsKeep(fp, EnvStep(fp, m, es[0]), es[1..], q);
    }
  }

  /** The frame that the session is sending. */
  predicate Current(m: SessionState, f: Frame) { f.sessionId == m.id && f.sequence == m.next }

  lemma {:induction false} CallKeeps(
    fp: Floats, m: SessionState, j: nat, f: Frame, fault: Fault, p: nat)
    returns (q: nat)
    requires Consistent(m, p) && j < |m.stages| && j <= p && Current(m, f)
    ensures Consistent(Call(fp, m, j, f, fault).0, q) && p <= q
    ensures Call(fp, m, j, f, fault).1.Ok? ==> p == j && q == j + 1 && Current(m, Call(fp, m, j, f, fault).1.value)
  {
    var reached := !fault.Unreachable? && !fault.GaveUp?;
    q := if reached && ProcessFrame(fp, m.stages[j], f, fault.Backend?).1.Ok? then p + 1 else p;
  }

  /**
   * A run keeps the prefix shape: after a failure the prefix has at most grown, after a success the
   * session and all its stages agree again.
   */
  lemma {:induction false} RunFromKeeps(fp: Floats, m: SessionState, j: nat, f: Frame, turns: seq<Turn>, p: nat)
    returns (q: nat)
    requires Consistent(m, p) && j <= |m.stages| == |turns| && j <= p && Current(m, f) && m.next + 1 < TWO64 - 1
    ensures Consistent(RunFrom(fp, m, j, f, turns).0, q)
    ensures if RunFrom(fp, m, j, f, turns).1.Ok? then q == 0 else p <= q
    decreases |m.stages| - j
  {
    if j == |m.stages| {
      q := 0;
    } else {
      var m1 := EnvSteps(fp, m, turns[j].before);
      q := EnvStepsKeep(fp, m, turns[j].before, p);
      q := CallKeeps(fp, m1, j, f, turns[j].fault, q);
      var (m2, r) := Call(fp, m1, j, f, turns[j].fault);
      if r.Ok? {
        q := RunFromKeeps(fp, m2, j + 1, r.value, turns, q);
      }
    }
  }

  /**
   * How many stages may be ahead after a run that stopped at stage k for the given cause: the k before
   * it, and the stage itself if it answered for another frame, or perhaps if its answer did not come.
   */
  predicate MayBeAhead(q: nat, k: nat, cause: StageError) {
    match cause
    case Mismatched => q == k + 1
    case TimedOut => q == k || q == k + 1
    case _ => q == k
  }

  lemma {:induction false} FailedCallTells(fp: Floats, m: SessionState, j: nat, f: Frame, fault: Fault)
    returns (q: nat)
    requires Consistent(m, j) && j < |m.stages| && Current(m, f) && Call(fp, m, j, f, fault).1.Err?
    ensures var (m', r) := Call(fp, m, j, f, fault); Consistent(m', q) && MayBeAhead(q, j, r.error)
    ensures fault.ReplyLost? && |f.values| == m.stages[j].hiddenSize ==> q == j + 1
  {
    var (m', r) := Call(fp, m, j, f, fault);
    var ran := ProcessFrame(fp, m.stages[j], f, false).1.Ok?;
    q := if r.error.Mismatched? || (fault.ReplyLost? && ran) then j + 1 else j;
    if q == j {
      assert m'.stages == m.stages;
    }
  }

  /**
   * With nothing else going on, the stage named in the error tells which stages are ahead: all before
   * it, itself too if it answered for another frame, and perhaps itself if its answer did not come.
   */
  lemma {:induction false} FailureTellsPrefix(
    fp: Floats, m: SessionState, j: nat, f: Frame, faults: seq<Fault>, k: nat, cause: StageError)
    returns (q: nat)
    requires Consistent(m, j) && j <= |m.stages| == |faults| && Current(m, f)
    requires RunFrom(fp, m, j, f, Alone(faults)).1 == Err(StageFailed(k, cause))
    ensures j <= k < |m.stages| && Consistent(RunFrom(fp, m, j, f, Alone(faults)).0, q) && MayBeAhead(q, k, cause)
    decreases |m.stages| - j
  {
    q := j;
    if j < |m.stages| {
      RunFromAlone(fp, m, j, f, faults);
      var (m', r) := Call(fp, m, j, f, faults[j]);
      if r.Ok? {
        q := CallKeeps(fp, m, j, f, faults[j], j);
        q := FailureTellsPrefix(fp, m', j + 1, r.value, faults, k, cause);
      } else {
        q := FailedCallTells(fp, m, j, f, faults[j]);
      }
    }
  }

  /** With a non-empty prefix, a run fails at stage 0 and changes nothing there. */
  lemma {:induction false} StuckRunFails(
    fp: Floats, m: SessionState, position: Uint32, activation: seq<Uint32>, turns: seq<Turn>, p: nat)
    requires Consistent(m, p) && p > 0 && |m.stages| == |turns|
    ensures var (m', r) := RunSession(fp, m, position, activation, turns);
            && r.Err? && (r.error.BadSession? || r.error.stage == 0) && m'.next == m.next
            && (m' == m || m'.stages == EnvSteps(fp, m, turns[0].before).stages)
            && (turns[0].before == [] && turns[0].fault != GaveUp ==> m' == m)
  {
    if m.id != 0 && |m.stages| >= 2 && |activation| != 0 {
      var q := EnvStepsKeep(fp, m, turns[0].before, p);
      var m1 := EnvSteps(fp, m, turns[0].before);
      assert Expected(m1.stages[0], m.id) == m.next + 1;
      assert m1.stages[0 := m1.stages[0]] == m1.stages;
    }
  }

  // ---------------------------------------------------------------- whole histories

  datatype Event = Attempt(position: Uint32, activation: seq<Uint32>, turns: seq<Turn>) | Elsewhere(env: Env)

  predicate Fits(m: SessionState, es: seq<Event>) {
    forall i :: 0 <= i < |es| ==> es[i].Attempt? ==> |es[i].turns| == |m.stages|
  }

  function Step(fp: Floats, m: SessionState, e: Event): (r: (SessionState, Option<RunResult>))
    requires e.Attempt? ==> |e.turns| == |m.stages|
    ensures |r.0.stages| == |m.stages|
  {
    match e
    case Attempt(position, activation, turns) =>
      var (m', r) := RunSession(fp, m, position, activation, turns);
      (m', Some(r))
    case Elsewhere(env) => (EnvStep(fp, m, env), None)
  }

  /** The final state and the results of all attempts. */
  function History(fp: Floats, m: SessionState, es: seq<Event>): (SessionState, seq<RunResult>)
    requires Fits(m, es)
    decreases |es|
  {
    if es == [] then (m, [])
    else
      var (m1, r) := Step(fp, m, es[0]);
      assert Fits(m1, es[1..]);
      var (m2, rs) := History(fp, m1, es[1..]);
      (m2, (if r.Some? then [r.value] else []) + rs)
  }

  lemma {:induction false} StepKeeps(fp: Floats, m: SessionState, e: Event, p: nat) returns (q: nat)
    requires Consistent(m, p) && (e.Attempt? ==> |e.turns| == |m.stages|) && m.next + 1 < TWO64 - 1
    ensures Consistent(Step(fp, m, e).0, q) && Step(fp, m, e).0.next <= m.next + 1
    ensures p > 0 ==> q > 0 && Step(fp, m, e).0.next == m.next
    ensures p > 0 && e.Attempt? ==> Step(fp, m, e).1.value.Err?
  {
    match e {
      case Attempt(position, activation, turns) =>
        q := p;
        if p > 0 {
          StuckRunFails(fp, m, position, activation, turns, p);
        }
        if m.id != 0 && |m.stages| >= 2 && |activation| != 0 {
          q := RunFromKeeps(fp, m, 0, Frame(m.id, m.next, position, activation), turns, p);
        }
      case Elsewhere(env) =>
        q := EnvStepKeeps(fp, m, env, p);
    }
  }

  lemma {:induction false} RoundsNeverFall(fp: Floats, m: SessionState, es: seq<Event>)
    requires Fits(m, es)
    ensures m.rounds <= History(fp, m, es).0.rounds
    decreases |es|
  {
    if es != [] {
      RoundsNeverFall(fp, Step(fp, m, es[0]).0, es[1..]);
    }
  }

  /**
   * In every history of fewer than 2^64 - 2 successful runs, some prefix of the stages is one frame
   * ahead and the rest agree with the session. Failed runs and other events are not counted.
   */
  lemma {:induction false} HistoryKeepsPrefix(fp: Floats, m: SessionState, es: seq<Event>, p: nat) returns (q: nat)
    requires Consistent(m, p) && Fits(m, es) && History(fp, m, es).0.rounds + 1 < TWO64 - 1
    ensures Consistent(History(fp, m, es).0, q)
    decreases |es|
  {
    q := p;
    if es != [] {
      RoundsNeverFall(fp, m, es);
      RoundsNeverFall(fp, Step(fp, m, es[0]).0, es[1..]);
      q := StepKeeps(fp, m, es[0], p);
      q := HistoryKeepsPrefix(fp, Step(fp, m, es[0]).0, es[1..], q);
    }
  }

  /** Once a failed run has advanced a stage, every later attempt fails and the session never moves again. */
  lemma {:induction false} StuckForever(fp: Floats, m: SessionState, es: seq<Event>, p: nat)
    requires Consistent(m, p) && p > 0 && Fits(m, es) && m.next + 1 < TWO64 - 1
    ensures History(fp, m, es).0.next == m.next
    ensures forall i :: 0 <= i < |History(fp, m, es).1| ==> History(fp, m, es).1[i].Err?
    decreases |es|
  {
    if es != [] {
      var q := StepKeeps(fp, m, es[0], p);
      StuckForever(fp, Step(fp, m, es[0]).0, es[1..], q);
    }
  }

  // ---------------------------------------------------------------- order, over whole histories

  ghost predicate StagesInOrder(m: SessionState) {
    forall j :: 0 <= j < |m.stages| ==> AllInOrder(m.stages[j])
  }

  lemma {:induction false} EnvStepKeepsOrder(fp: Floats, m: SessionState, e: Env)
    requires StagesInOrder(m)
    ensures StagesInOrder(EnvStep(fp, m, e))
  {
    match e {
      case Late(k, fails) =>
        if k < |m.lost| && m.lost[k].0 < |m.stages| {
          ProcessKeepsOrder(fp, m.stages[m.lost[k].0], m.lost[k].1, fails);
        }
      case Drop(k) =>
      case Foreign(j, f, fails) =>
        if j < |m.stages| {
          ProcessKeepsOrder(fp, m.stages[j], f, fails);
        }
    }
  }

  lemma {:induction false} EnvKeepsOrder(fp: Floats, m: SessionState, es: seq<Env>)
    requires StagesInOrder(m)
    ensures StagesInOrder(EnvSteps(fp, m, es))
    decreases |es|
  {
    if es != [] {
      EnvStepKeepsOrder(fp, m, es[0]);
      EnvKeepsOrder(fp, EnvStep(fp, m, es[0]), es[1..]);
    }
  }

  lemma {:induction false} RunKeepsOrder(fp: Floats, m: SessionState, j: nat, f: Frame, turns: seq<Turn>)
    requires StagesInOrder(m) && j <= |m.stages| == |turns|
    ensures StagesInOrder(RunFrom(fp, m, j, f, turns).0)
    decreases |m.stages| - j
  {
    if j < |m.stages| {
      EnvKeepsOrder(fp, m, turns[j].before);
      var m1 := EnvSteps(fp, m, turns[j].before);
      ProcessKeepsOrder(fp, m1.stages[j], f, turns[j].fault.Backend?);
      var (m2, r) := Call(fp, m1, j, f, turns[j].fault);
      assert StagesInOrder(m2);
      if r.Ok? {
        RunKeepsOrder(fp, m2, j + 1, r.value, turns);
      }
    }
  }

  /** In every history each stage executes 0, 1, 2, ... of each session, in order and each once. */
  lemma {:induction false} HistoryKeepsOrder(fp: Floats, m: SessionState, es: seq<Event>)
    requires StagesInOrder(m) && Fits(m, es)
    ensures StagesInOrder(History(fp, m, es).0)
    decreases |es|
  {
    if es != [] {
      match es[0] {
        case Attempt(position, activation, turns) =>
          RunKeepsOrder(fp, m, 0, Frame(m.id, m.next, position, activation), turns);
        case Elsewhere(env) =>
          EnvStepKeepsOrder(fp, m, env);
      }
      HistoryKeepsOrder(fp, Step(fp, m, es[0]).0, es[1..]);
    }
  }

  /** A new session over new stages. */
  predicate IsFresh(m: SessionState) {
    && m.next == 0 && m.rounds == 0 && m.lost == []
    && forall j :: 0 <= j < |m.stages| ==> m.stages[j].sequence == map[] && m.stages[j].log == []
  }

  /** New stages and a new session start in order and in agreement. */
  lemma {:induction false} FreshSessionIsConsistent(m: SessionState)
    requires IsFresh(m)
    ensures Consistent(m, 0) && StagesInOrder(m)
  {
  }

  /**
   * So, in every history of a new session: each stage has executed 0, 1, 2, ... of every session, in
   * order and each once, and up to 2^64 - 3 successful runs some prefix of the stages is one ahead.
   */
  lemma {:induction false} EveryHistoryIsOrderly(fp: Floats, m: SessionState, es: seq<Event>) returns (q: nat)
    requires IsFresh(m) && Fits(m, es)
    ensures StagesInOrder(History(fp, m, es).0)
    ensures History(fp, m, es).0.rounds + 1 < TWO64 - 1 ==> Consistent(History(fp, m, es).0, q)
  {
    q := 0;
    FreshSessionIsConsistent(m);
    HistoryKeepsOrder(fp, m, es);
    if History(fp, m, es).0.rounds + 1 < TWO64 - 1 {
      q := HistoryKeepsPrefix(fp, m, es, 0);
    }
  }

  // ---------------------------------------------------------------- when a run succeeds

  predicate Quiet(turns: seq<Turn>) {
    forall i :: 0 <= i < |turns| ==> turns[i] == Turn([], NoFault)
  }

  predicate WidthsFrom(m: SessionState, j: nat, width: nat) {
    forall i :: j <= i < |m.stages| ==> m.stages[i].hiddenSize == width
  }

  lemma {:induction false} QuietRunFrom(fp: Floats, m: SessionState, j: nat, f: Frame, turns: seq<Turn>)
    requires Consistent(m, j) && j <= |m.stages| == |turns| && Current(m, f) && Quiet(turns)
    ensures RunFrom(fp, m, j, f, turns).1.Ok? <==> WidthsFrom(m, j, |f.values|)
    decreases |m.stages| - j
  {
    if j < |m.stages| {
      assert EnvSteps(fp, m, []) == m;
      var (m2, r) := Call(fp, m, j, f, NoFault);
      if r.Ok? {
        var q := CallKeeps(fp, m, j, f, NoFault, j);
        assert forall i :: j < i < |m.stages| ==> m2.stages[i] == m.stages[i];
        QuietRunFrom(fp, m2, j + 1, r.value, turns);
      } else {
        assert m.stages[j].hiddenSize != |f.values|;
      }
    }
  }

  /**
   * Undisturbed, a run succeeds exactly when the session is usable, no stage is ahead of it and every
   * stage has the width of the activation.
   */
  lemma {:induction false} QuietRunSucceedsExactly(
    fp: Floats, m: SessionState, position: Uint32, activation: seq<Uint32>, turns: seq<Turn>, p: nat)
    requires Consistent(m, p) && |m.stages| == |turns| && Quiet(turns)
    ensures RunSession(fp, m, position, activation, turns).1.Ok? <==>
            m.id != 0 && |m.stages| >= 2 && |activation| > 0 && p == 0 && WidthsFrom(m, 0, |activation|)
  {
    if p > 0 {
      StuckRunFails(fp, m, position, activation, turns, p);
    } else {
      QuietRunFrom(fp, m, 0, Frame(m.id, m.next, position, activation), turns);
    }
  }

  predicate QuietAttempts(m: SessionState, width: nat, es: seq<Event>) {
    forall i :: 0 <= i < |es| ==>
      es[i].Attempt? && Quiet(es[i].turns) && |es[i].turns| == |m.stages| && |es[i].activation| == width
  }

  lemma {:induction false} RunKeepsShape(fp: Floats, m: SessionState, j: nat, f: Frame, turns: seq<Turn>)
    requires j <= |m.stages| == |turns|
    ensures SameShape(RunFrom(fp, m, j, f, turns).0.stages, m.stages)
    decreases |m.stages| - j
  {
    if j < |m.stages| {
      var m1 := EnvSteps(fp, m, turns[j].before);
      EnvKeepsShape(fp, m, turns[j].before);
      CallKeepsShape(fp, m1, j, f, turns[j].fault);
      var (m2, r) := Call(fp, m1, j, f, turns[j].fault);
      ShapeIsTransitive(m2.stages, m1.stages, m.stages);
      if r.Ok? {
        RunKeepsShape(fp, m2, j + 1, r.value, turns);
        ShapeIsTransitive(RunFrom(fp, m, j, f, turns).0.stages, m2.stages, m.stages);
      }
    }
  }

  // ---------------------------------------------------------------- what a session survives

  /** A frame given up on that its stage would still execute. */
  predicate CanStillRun(m: SessionState, j: nat, f: Frame) {
    j < |m.stages| && f.sequence == m.next && |f.values| == m.stages[j].hiddenSize
  }

  predicate IsPending(m: SessionState) {
    exists i :: 0 <= i < |m.lost| && CanStillRun(m, m.lost[i].0, m.lost[i].1)
  }

  lemma {:induction false} RefusedFrameChangesNothing(fp: Floats, m: SessionState, j: nat, f: Frame, fails: bool)
    requires Consistent(m, 0) && LostFits(m, 0, j, f) && !CanStillRun(m, j, f)
    ensures WithStage(m, j, ProcessFrame(fp, m.stages[j], f, fails).0) == m
  {
    assert m.stages[j := m.stages[j]] == m.stages;
  }

  lemma {:induction false} ForgettingStaysIdle(m: SessionState, k: nat)
    requires Consistent(m, 0) && !IsPending(m) && k < |m.lost|
    ensures var m' := m.(lost := m.lost[..k] + m.lost[k + 1..]); Consistent(m', 0) && !IsPending(m')
  {
    var m' := m.(lost := m.lost[..k] + m.lost[k + 1..]);
    forall i | 0 <= i < |m'.lost|
      ensures LostFits(m', 0, m'.lost[i].0, m'.lost[i].1) && !CanStillRun(m', m'.lost[i].0, m'.lost[i].1)
    {
      var l := if i < k then i else i + 1;
      assert m'.lost[i] == m.lost[l];
      assert !CanStillRun(m, m.lost[l].0, m.lost[l].1);
    }
  }

  lemma {:induction false} ForeignStaysIdle(fp: Floats, m: SessionState, j: nat, f: Frame, fails: bool)
    requires Consistent(m, 0) && !IsPending(m) && j < |m.stages| && f.sessionId != m.id
    ensures var m' := WithStage(m, j, ProcessFrame(fp, m.stages[j], f, fails).0); Consistent(m', 0) && !IsPending(m')
  {
    var m' := WithStage(m, j, ProcessFrame(fp, m.stages[j], f, fails).0);
    ForeignIsInvisible(fp, m.stages[j], f, fails, m.id);
    forall i | 0 <= i < |m'.lost| ensures !CanStillRun(m', m'.lost[i].0, m'.lost[i].1) {
      assert !CanStillRun(m, m.lost[i].0, m.lost[i].1);
    }
  }

  /** Without such a frame, nothing that happens elsewhere puts a stage ahead. */
  lemma {:induction false} EnvStaysIdle(fp: Floats, m: SessionState, es: seq<Env>)
    requires Consistent(m, 0) && !IsPending(m)
    ensures var m' := EnvSteps(fp, m, es); Consistent(m', 0) && !IsPending(m')
    decreases |es|
  {
    if es != [] {
      match es[0] {
        case Late(k, fails) =>
          if k < |m.lost| && m.lost[k].0 < |m.stages| {
            assert !CanStillRun(m, m.lost[k].0, m.lost[k].1);
            RefusedFrameChangesNothing(fp, m, m.lost[k].0, m.lost[k].1, fails);
            ForgettingStaysIdle(m, k);
          }
        case Drop(k) =>
          if k < |m.lost| {
            ForgettingStaysIdle(m, k);
          }
        case Foreign(j, f, fails) =>
          if j < |m.stages| && f.sessionId != m.id {
            ForeignStaysIdle(fp, m, j, f, fails);
          }
      }
      EnvStaysIdle(fp, EnvStep(fp, m, es[0]), es[1..]);
    }
  }

  /** The next undisturbed run succeeds, whatever happens elsewhere before it. */
  ghost predicate Survives(
    fp: Floats, m: SessionState, position: Uint32, activation: seq<Uint32>, turns: seq<Turn>)
    requires |m.stages| == |turns|
  {
    forall es: seq<Env> :: RunSession(fp, EnvSteps(fp, m, es), position, activation, turns).1.Ok?
  }

  /** It fails, whatever happens elsewhere before it. */
  ghost predicate IsStranded(
    fp: Floats, m: SessionState, position: Uint32, activation: seq<Uint32>, turns: seq<Turn>)
    requires |m.stages| == |turns|
  {
    forall es: seq<Env> :: RunSession(fp, EnvSteps(fp, m, es), position, activation, turns).1.Err?
  }

  /** A session that can be used, undisturbed, with an activation of the stages' width. */
  predicate IsUsable(m: SessionState, activation: seq<Uint32>, turns: seq<Turn>) {
    && m.id != 0 && |m.stages| >= 2 && |m.stages| == |turns| && Quiet(turns)
    && |activation| > 0 && WidthsFrom(m, 0, |activation|)
  }

  lemma {:induction false} AheadIsStranded(
    fp: Floats, m: SessionState, position: Uint32, activation: seq<Uint32>, turns: seq<Turn>, p: nat)
    requires Consistent(m, p) && p > 0 && |m.stages| == |turns|
    ensures IsStranded(fp, m, position, activation, turns)
  {
    forall es: seq<Env> ensures RunSession(fp, EnvSteps(fp, m, es), position, activation, turns).1.Err? {
      var q := EnvStepsKeep(fp, m, es, p);
      StuckRunFails(fp, EnvSteps(fp, m, es), position, activation, turns, q);
    }
  }

  lemma {:induction false} IdleSurvives(
    fp: Floats, m: SessionState, position: Uint32, activation: seq<Uint32>, turns: seq<Turn>)
    requires Consistent(m, 0) && !IsPending(m) && IsUsable(m, activation, turns)
    ensures Survives(fp, m, position, activation, turns)
  {
    forall es: seq<Env> ensures RunSession(fp, EnvSteps(fp, m, es), position, activation, turns).1.Ok? {
      var m' := EnvSteps(fp, m, es);
      EnvStaysIdle(fp, m, es);
      EnvKeepsShape(fp, m, es);
      forall i | 0 <= i < |m'.stages| ensures m'.stages[i].hiddenSize == |activation| {
        assert SameRange(m'.stages[i], m.stages[i]);
      }
      QuietRunSucceedsExactly(fp, m', position, activation, turns, 0);
    }
  }

  /** A frame that still arrives puts the first stage ahead. */
  lemma {:induction false} PendingFrameStrands(fp: Floats, m: SessionState, i: nat)
    requires Consistent(m, 0) && i < |m.lost| && CanStillRun(m, m.lost[i].0, m.lost[i].1)
    ensures Consistent(EnvSteps(fp, m, [Late(i, false)]), 1)
  {
    var (j, f) := m.lost[i];
    assert LostFits(m, 0, j, f);
    var q := LateKeeps(fp, m, i, false, 0);
    var m' := EnvStep(fp, m, Late(i, false));
    assert Expected(m'.stages[0], m.id) == m.next + 1;
    assert q > 0;
    assert |m.stages| > 1 ==> Expected(m'.stages[1], m.id) == m.next;
    assert q == 1;
    assert [Late(i, false)][1..] == [];
    assert EnvSteps(fp, m', []) == m';
  }

  /**
   * What a session survives, exactly: the next undisturbed run of a usable session succeeds whatever
   * happens before it, if and only if no stage is ahead and no frame given up on can still run.
   */
  lemma {:induction false} SurvivalIsExact(
    fp: Floats, m: SessionState, position: Uint32, activation: seq<Uint32>, turns: seq<Turn>, p: nat)
    requires Consistent(m, p) && IsUsable(m, activation, turns)
    ensures Survives(fp, m, position, activation, turns) <==> p == 0 && !IsPending(m)
  {
    if p > 0 {
      AheadIsStranded(fp, m, position, activation, turns, p);
      assert RunSession(fp, EnvSteps(fp, m, []), position, activation, turns).1.Err?;
    } else if IsPending(m) {
      var i :| 0 <= i < |m.lost| && CanStillRun(m, m.lost[i].0, m.lost[i].1);
      PendingFrameStrands(fp, m, i);
      StuckRunFails(fp, EnvSteps(fp, m, [Late(i, false)]), position, activation, turns, 1);
    } else {
      IdleSurvives(fp, m, position, activation, turns);
    }
  }

  /** A call that fails without putting its stage ahead, and is not given up on, leaves nothing behind. */
  lemma {:induction false} PlainFailureChangesNothing(fp: Floats, m: SessionState, f: Frame, fault: Fault)
    requires |m.stages| > 0
    requires var r := Call(fp, m, 0, f, fault).1; r.Err? && !r.error.Mismatched? && !r.error.TimedOut?
    ensures Call(fp, m, 0, f, fault).0 == m
  {
    assert m.stages[0 := m.stages[0]] == m.stages;
  }

  /** A run that stops at stage 0 made one call. */
  lemma {:induction false} StoppedAtFirst(
    fp: Floats, m: SessionState, f: Frame, faults: seq<Fault>, cause: StageError)
    requires Consistent(m, 0) && 0 < |m.stages| == |faults| && Current(m, f)
    requires RunFrom(fp, m, 0, f, Alone(faults)).1 == Err(StageFailed(0, cause))
    ensures Call(fp, m, 0, f, faults[0]).1 == Err(cause)
    ensures RunFrom(fp, m, 0, f, Alone(faults)).0 == Call(fp, m, 0, f, faults[0]).0
  {
    RunFromAlone(fp, m, 0, f, faults);
    var (m', r) := Call(fp, m, 0, f, faults[0]);
    if r.Ok? {
      FailureNamesStage(fp, m', 1, r.value, Alone(faults));
    }
  }

  /**
   * What the error of a failed run says about that: behind stage 0, or over a reply to another frame,
   * the session is stranded for good; at stage 0 for any other cause it survives, except that an answer
   * that did not come leaves it open, and then SurvivalIsExact decides.
   */
  lemma {:induction false} ErrorTellsSurvival(
    fp: Floats, m: SessionState, position: Uint32, activation: seq<Uint32>, faults: seq<Fault>,
    k: nat, cause: StageError, again: seq<Uint32>, turns: seq<Turn>)
    requires Consistent(m, 0) && !IsPending(m) && |m.stages| == |faults| && IsUsable(m, again, turns)
    requires RunSession(fp, m, position, activation, Alone(faults)).1 == Err(StageFailed(k, cause))
    ensures var m' := RunSession(fp, m, position, activation, Alone(faults)).0;
            && (k > 0 || cause.Mismatched? ==> IsStranded(fp, m', position, again, turns))
            && (k == 0 && !cause.Mismatched? && !cause.TimedOut? ==> Survives(fp, m', position, again, turns))
  {
    var f := Frame(m.id, m.next, position, activation);
    var m' := RunSession(fp, m, position, activation, Alone(faults)).0;
    var q := FailureTellsPrefix(fp, m, 0, f, faults, k, cause);
    if q > 0 {
      AheadIsStranded(fp, m', position, again, turns, q);
    }
    if k == 0 && !cause.Mismatched? && !cause.TimedOut? {
      RunFromAlone(fp, m, 0, f, faults);
      StoppedAtFirst(fp, m, f, faults, cause);
      PlainFailureChangesNothing(fp, m, f, faults[0]);
      IdleSurvives(fp, m, position, again, turns);
    }
  }

  /** It happens: a session in agreement whose second stage cannot be reached is stranded by its next run. */
  lemma {:induction false} UnreachableStageStrandsSession(
    fp: Floats, m: SessionState, position: Uint32, activation: seq<Uint32>, turns: seq<Turn>)
    requires Consistent(m, 0) && |m.stages| == 2 && IsUsable(m, activation, turns)
    ensures var (m', r) := RunSession(fp, m, position, activation, Alone([NoFault, Unreachable]));
            && r == Err(StageFailed(1, Unavailable)) && Consistent(m', 1)
            && IsStranded(fp, m', position, activation, turns)
  {
    var faults, f := [NoFault, Unreachable], Frame(m.id, m.next, position, activation);
    RunFromAlone(fp, m, 0, f, faults);
    var (m1, r) := Call(fp, m, 0, f, NoFault);
    RunFromAlone(fp, m1, 1, r.value, faults);
    var q := FailureTellsPrefix(fp, m, 0, f, faults, 1, Unavailable);
    AheadIsStranded(
      fp, RunSession(fp, m, position, activation, Alone(faults)).0, position, activation, turns, 1);
  }

  /** So does a reply of stage 0 that is lost: the failure is at stage 0, and yet the session is stranded. */
  lemma {:induction false} LostReplyStrandsSession(
    fp: Floats, m: SessionState, position: Uint32, activation: seq<Uint32>, turns: seq<Turn>)
    requires Consistent(m, 0) && |m.stages| == 2 && IsUsable(m, activation, turns)
    ensures var (m', r) := RunSession(fp, m, position, activation, Alone([ReplyLost, NoFault]));
            && r == Err(StageFailed(0, TimedOut)) && Consistent(m', 1)
            && IsStranded(fp, m', position, activation, turns)
  {
    var faults, f := [ReplyLost, NoFault], Frame(m.id, m.next, position, activation);
    RunFromAlone(fp, m, 0, f, faults);
    var q := FailedCallTells(fp, m, 0, f, ReplyLost);
    AheadIsStranded(
      fp, RunSession(fp, m, position, activation, Alone(faults)).0, position, activation, turns, 1);
  }

  /** And so does a frame given up on that arrives after the run has failed. */
  lemma {:induction false} LateFrameStrandsSession(
    fp: Floats, m: SessionState, position: Uint32, activation: seq<Uint32>, turns: seq<Turn>)
    requires Consistent(m, 0) && m.lost == [] && |m.stages| == 2 && IsUsable(m, activation, turns)
    ensures var (m', r) := RunSession(fp, m, position, activation, Alone([GaveUp, NoFault]));
            && r == Err(StageFailed(0, TimedOut)) && Consistent(m', 0) && IsPending(m')
            && Consistent(EnvSteps(fp, m', [Late(0, false)]), 1)
            && IsStranded(fp, EnvSteps(fp, m', [Late(0, false)]), position, activation, turns)
  {
    var faults, f := [GaveUp, NoFault], Frame(m.id, m.next, position, activation);
    RunFromAlone(fp, m, 0, f, faults);
    var m' := RunSession(fp, m, position, activation, Alone(faults)).0;
    var q := FailedCallTells(fp, m, 0, f, GaveUp);
    assert m'.lost == [(0, f)] && CanStillRun(m', m'.lost[0].0, m'.lost[0].1);
    assert Consistent(m', 0);
    PendingFrameStrands(fp, m', 0);
    AheadIsStranded(fp, EnvSteps(fp, m', [Late(0, false)]), position, activation, turns, 1);
  }

  /** Undisturbed attempts on a usable session all succeed, each with the single-process result. */
  lemma {:induction false} QuietHistoryIsExact(fp: Floats, m: SessionState, es: seq<Event>, width: nat, layers: int)
    requires Consistent(m, 0) && m.next + |es| < TWO64 - 1 && m.id != 0 && |m.stages| >= 2 && width > 0
    requires WidthsFrom(m, 0, width) && Spans(m.stages, 0, 0, layers) && QuietAttempts(m, width, es)
    ensures Fits(m, es) && |History(fp, m, es).1| == |es|
    ensures forall i :: 0 <= i < |es| ==>
              History(fp, m, es).1[i] == Ok(Layers(fp, 0, layers, es[i].position, es[i].activation))
    decreases |es|
  {
    assert Fits(m, es);
    if es != [] {
      var Attempt(position, activation, turns) := es[0];
      var f := Frame(m.id, m.next, position, activation);
      QuietRunSucceedsExactly(fp, m, position, activation, turns, 0);
      RunEqualsSingleProcess(fp, m, position, activation, turns, layers);
      var q := RunFromKeeps(fp, m, 0, f, turns, 0);
      RunKeepsShape(fp, m, 0, f, turns);
      var m1 := RunFrom(fp, m, 0, f, turns).0;
      SpansCarries(m1.stages, m.stages, 0, 0, layers);
      forall i | 0 <= i < |m1.stages| ensures m1.stages[i].hiddenSize == width {
        assert SameRange(m1.stages[i], m.stages[i]);
      }
      QuietHistoryIsExact(fp, m1, es[1..], width, layers);
      forall i | 0 < i < |es|
        ensures History(fp, m, es).1[i] == Ok(Layers(fp, 0, layers, es[i].position, es[i].activation))
      {
        assert es[i] == es[1..][i - 1];
      }
    }
  }
}
