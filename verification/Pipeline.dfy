/**
 * Stage runtimes and the session that drives them. Float32 arithmetic is any set of functions on
 * 32-bit patterns: the claims only need that every stage applies the same operations.
 */
module Pipeline {
  import opened Prelude
  import opened TensorWire

  /** The float32 operations and constants that the deterministic backend uses. */
  datatype Floats = Floats(
    mul: (Uint32, Uint32) -> Uint32, add: (Uint32, Uint32) -> Uint32, ofInt: int -> Uint32,
    gain: Uint32, milli: Uint32, tenMicro: Uint32, micro: Uint32)

  // ---------------------------------------------------------------- the backend

  function Bias(fp: Floats, layer: int, position: Uint32): Uint32 {
    fp.add(fp.mul(fp.ofInt(layer + 1), fp.milli), fp.mul(fp.ofInt(position), fp.tenMicro))
  }

  function Cell(fp: Floats, bias: Uint32, i: nat, v: Uint32): Uint32 {
    fp.add(fp.add(fp.mul(v, fp.gain), bias), fp.mul(fp.ofInt(i), fp.micro))
  }

  function Layer(fp: Floats, layer: int, position: Uint32, values: seq<Uint32>): (r: seq<Uint32>)
    ensures |r| == |values|
  {
    seq(|values|, i requires 0 <= i < |values| => Cell(fp, Bias(fp, layer, position), i, values[i]))
  }

  /** The layers start, ..., end - 1 in order. */
  function Layers(fp: Floats, start: int, end: int, position: Uint32, values: seq<Uint32>): (r: seq<Uint32>)
    ensures |r| == |values|
    decreases end - start
  {
    if end <= start then values
    else Layer(fp, end - 1, position, Layers(fp, start, end - 1, position, values))
  }

  lemma {:induction false} LayersCompose(
    fp: Floats, start: int, mid: int, end: int, position: Uint32, values: seq<Uint32>)
    requires start <= mid <= end
    ensures Layers(fp, mid, end, position, Layers(fp, start, mid, position, values))
         == Layers(fp, start, end, position, values)
    decreases end - mid
  {
    if mid < end {
      LayersCompose(fp, start, mid, end - 1, position, values);
    }
  }

  /** A range of no layer changes nothing, and one of a single layer is that layer. */
  lemma {:induction false} SmallRanges(fp: Floats, start: int, position: Uint32, values: seq<Uint32>)
    ensures Layers(fp, start, start, position, values) == values
    ensures Layers(fp, start, start + 1, position, values) == Layer(fp, start, position, values)
  {
  }

  method ExecuteLayer(fp: Floats, layer: int, position: Uint32, values: array<Uint32>)
    modifies values
    ensures values[..] == Layer(fp, layer, position, old(values[..]))
    ensures forall i :: 0 <= i < values.Length ==>
              var bias := fp.add(fp.mul(fp.ofInt(layer + 1), fp.milli), fp.mul(fp.ofInt(position), fp.tenMicro));
              values[i] == fp.add(fp.add(fp.mul(old(values[i]), fp.gain), bias), fp.mul(fp.ofInt(i), fp.micro))
  {
    var bias := Bias(fp, layer, position);
    for i := 0 to values.Length
      invariant forall j :: 0 <= j < i ==> values[j] == Cell(fp, bias, j, old(values[j]))
      invariant forall j :: i <= j < values.Length ==> values[j] == old(values[j])
    {
      values[i] := fp.add(fp.add(fp.mul(values[i], fp.gain), bias), fp.mul(fp.ofInt(i), fp.micro));
    }
  }

  /** DeterministicBackend.Execute rewrites the values in place, layer by layer. */
  method Execute(fp: Floats, start: int, end: int, position: Uint32, values: array<Uint32>)
    modifies values
    ensures values[..] == Layers(fp, start, end, position, old(values[..]))
  {
    var layer := start;
    while layer < end
      invariant start <= layer && (layer <= end || layer == start)
      invariant values[..] == Layers(fp, start, layer, position, old(values[..]))
    {
      ExecuteLayer(fp, layer, position, values);
      layer := layer + 1;
    }
  }

  // ---------------------------------------------------------------- one stage

  datatype StageError =
    | WidthMismatch
    | OutOfOrder(expected: Uint64)
    | BackendFailed
    | Unavailable
    | TimedOut
    | Mismatched

  function Next(n: Uint64): Uint64 { (n + 1) % TWO64 }

  /** log records, in order, the session and sequence number of every frame executed. */
  datatype StageState = StageState(
    layerStart: int, layerEnd: int, hiddenSize: nat, sequence: map<Uint64, Uint64>, log: seq<(Uint64, Uint64)>)

  function Expected(s: StageState, id: Uint64): Uint64 { if id in s.sequence then s.sequence[id] else 0 }

  function ProcessFrame(fp: Floats, s: StageState, f: Frame, fails: bool): (StageState, Result<Frame, StageError>) {
    if |f.values| != s.hiddenSize then (s, Err(WidthMismatch))
    else if f.sequence != Expected(s, f.sessionId) then (s, Err(OutOfOrder(Expected(s, f.sessionId))))
    else if fails then (s, Err(BackendFailed))
    else
      (s.(sequence := s.sequence[f.sessionId := Next(f.sequence)], log := s.log + [(f.sessionId, f.sequence)]),
       Ok(f.(values := Layers(fp, s.layerStart, s.layerEnd, f.position, f.values))))
  }

  class Runtime {
    const layerStart: int
    const layerEnd: int
    const hiddenSize: nat
    var sequence: map<Uint64, Uint64>
    ghost var log: seq<(Uint64, Uint64)>

    ghost function State(): StageState
      reads this
    {
      StageState(layerStart, layerEnd, hiddenSize, sequence, log)
    }

    constructor (layerStart: int, layerEnd: int, hiddenSize: nat)
      ensures State() == StageState(layerStart, layerEnd, hiddenSize, map[], [])
    {
      this.layerStart, this.layerEnd, this.hiddenSize := layerStart, layerEnd, hiddenSize;
      sequence, log := map[], [];
    }

    /** fails says whether the backend reports an error for this frame. */
    method Process(fp: Floats, f: Frame, fails: bool) returns (r: Result<Frame, StageError>)
      modifies this`sequence, this`log
      ensures (State(), r) == ProcessFrame(fp, old(State()), f, fails)
      ensures var expected := if f.sessionId in old(sequence) then old(sequence)[f.sessionId] else 0;
              && (r.Ok? <==> |f.values| == hiddenSize && f.sequence == expected && !fails)
              && (r == Err(WidthMismatch) <==> |f.values| != hiddenSize)
              && (|f.values| == hiddenSize && f.sequence != expected ==> r == Err(OutOfOrder(expected)))
              && sequence == if r.Ok? then old(sequence)[f.sessionId := (expected + 1) % TWO64] else old(sequence)
      ensures r.Ok? ==> r.value == f.(values := Layers(fp, layerStart, layerEnd, f.position, f.values))
    {
      if |f.values| != hiddenSize {
        return Err(WidthMismatch);
      }
      var expected: Uint64 := if f.sessionId in sequence then sequence[f.sessionId] else 0;
      if f.sequence != expected {
        return Err(OutOfOrder(expected));
      }
      var values := new Uint32[|f.values|](i requires 0 <= i < |f.values| => f.values[i]);
      assert values[..] == f.values;
      if fails {
        return Err(BackendFailed);
      }
      Execute(fp, layerStart, layerEnd, f.position, values);
      sequence := sequence[f.sessionId := (expected + 1) % TWO64];
      log := log + [(f.sessionId, f.sequence)];
      return Ok(f.(values := values[..]));
    }
  }

  // ---------------------------------------------------------------- the session

  /**
   * A session, its stages and the frames of calls it has given up on, which a stage may still
   * receive. rounds counts the completed runs.
   */
  datatype SessionState = SessionState(
    id: Uint64, next: Uint64, stages: seq<StageState>, lost: seq<(nat, Frame)>, rounds: nat)

  /**
   * What happens to one call of a stage. GaveUp is a frame that may still arrive later, or never;
   * ReplyLost a frame that the stage got, and whose reply did not come back; Misanswered a reply that may
   * belong to another frame.
   */
  datatype Fault = NoFault | Unreachable | Backend | GaveUp | ReplyLost | Misanswered(reply: Frame)

  /** What happens elsewhere: a lost frame arrives late or never, or another session uses a stage. */
  datatype Env = Late(k: nat, fails: bool) | Drop(k: nat) | Foreign(stage: nat, frame: Frame, fails: bool)

  /** What happens before and during the call of one stage. */
  datatype Turn = Turn(before: seq<Env>, fault: Fault)

  function WithStage(m: SessionState, j: nat, s: StageState): SessionState
    requires j < |m.stages|
  {
    m.(stages := m.stages[j := s])
  }

  /** The client's check of a reply; one that passes it is the stage's own answer to the frame. */
  predicate Answers(reply: Frame, f: Frame) {
    reply.sessionId == f.sessionId && reply.sequence == f.sequence && reply.position == f.position
  }

  function Call(fp: Floats, m: SessionState, j: nat, f: Frame, fault: Fault): (SessionState, Result<Frame, StageError>)
    requires j < |m.stages|
  {
    match fault
    case Unreachable => (m, Err(Unavailable))
    case GaveUp => (m.(lost := m.lost + [(j, f)]), Err(TimedOut))
    case ReplyLost => (WithStage(m, j, ProcessFrame(fp, m.stages[j], f, false).0), Err(TimedOut))
    case Misanswered(reply) =>
      var (s, r) := ProcessFrame(fp, m.stages[j], f, false);
      (WithStage(m, j, s), if r.Ok? && !Answers(reply, f) then Err(Mismatched) else r)
    case _ =>
      var (s, r) := ProcessFrame(fp, m.stages[j], f, fault.Backend?);
      (WithStage(m, j, s), r)
  }

  function EnvStep(fp: Floats, m: SessionState, e: Env): (m': SessionState)
    ensures |m'.stages| == |m.stages| && m'.id == m.id && m'.next == m.next && m'.rounds == m.rounds
  {
    match e
    case Late(k, fails) =>
      if k < |m.lost| && m.lost[k].0 < |m.stages| then
        var (j, f) := m.lost[k];
        WithStage(m, j, ProcessFrame(fp, m.stages[j], f, fails).0).(lost := m.lost[..k] + m.lost[k + 1..])
      else m
    case Drop(k) => if k < |m.lost| then m.(lost := m.lost[..k] + m.lost[k + 1..]) else m
    case Foreign(j, f, fails) =>
      if j < |m.stages| && f.sessionId != m.id then WithStage(m, j, ProcessFrame(fp, m.stages[j], f, fails).0) else m
  }

  function EnvSteps(fp: Floats, m: SessionState, es: seq<Env>): (m': SessionState)
    ensures |m'.stages| == |m.stages| && m'.id == m.id && m'.next == m.next && m'.rounds == m.rounds
    decreases |es|
  {
    if es == [] then m else EnvSteps(fp, EnvStep(fp, m, es[0]), es[1..])
  }

  /** A failed run names the stage it stopped at. */
  datatype RunError = BadSession | StageFailed(stage: nat, cause: StageError)

  type RunResult = Result<seq<Uint32>, RunError>

  /** Session.Run from stage j on. */
  function RunFrom(fp: Floats, m: SessionState, j: nat, f: Frame, turns: seq<Turn>): (r: (SessionState, RunResult))
    requires j <= |m.stages| == |turns|
    ensures |r.0.stages| == |m.stages| && r.0.id == m.id
    ensures r.1.Err? ==> r.0.next == m.next && r.0.rounds == m.rounds
    ensures r.1.Ok? ==> r.0.next == Next(m.next) && r.0.rounds == m.rounds + 1
    decreases |m.stages| - j
  {
    if j == |m.stages| then (m.(next := Next(m.next), rounds := m.rounds + 1), Ok(f.values))
    else
      var m1 := EnvSteps(fp, m, turns[j].before);
      var (m2, r) := Call(fp, m1, j, f, turns[j].fault);
      if r.Err? then (m2, Err(StageFailed(j, r.error))) else RunFrom(fp, m2, j + 1, r.value, turns)
  }

  /** A run that fails from stage j on names that stage or a later one. */
  lemma {:induction false} FailureNamesStage(fp: Floats, m: SessionState, j: nat, f: Frame, turns: seq<Turn>)
    requires j <= |m.stages| == |turns|
    ensures var r := RunFrom(fp, m, j, f, turns).1;
            r.Err? ==> r.error.StageFailed? && j <= r.error.stage < |m.stages|
    decreases |m.stages| - j
  {
    if j < |m.stages| {
      var m1 := EnvSteps(fp, m, turns[j].before);
      var (m2, r) := Call(fp, m1, j, f, turns[j].fault);
      if r.Ok? {
        FailureNamesStage(fp, m2, j + 1, r.value, turns);
      }
    }
  }

  function RunSession(fp: Floats, m: SessionState, position: Uint32, activation: seq<Uint32>, turns: seq<Turn>)
    : (SessionState, RunResult)
    requires |m.stages| == |turns|
  {
    if m.id == 0 || |m.stages| < 2 || |activation| == 0 then (m, Err(BadSession))
    else RunFrom(fp, m, 0, Frame(m.id, m.next, position, activation), turns)
  }

  /** Faults without anything else happening in between. */
  function Alone(faults: seq<Fault>): (turns: seq<Turn>)
    ensures |turns| == |faults|
  {
    seq(|faults|, i requires 0 <= i < |faults| => Turn([], faults[i]))
  }

  lemma {:induction false} RunFromAlone(fp: Floats, m: SessionState, j: nat, f: Frame, faults: seq<Fault>)
    requires j < |m.stages| == |faults|
    ensures var (m', r) := Call(fp, m, j, f, faults[j]);
            RunFrom(fp, m, j, f, Alone(faults)) ==
            if r.Err? then (m', Err(StageFailed(j, r.error))) else RunFrom(fp, m', j + 1, r.value, Alone(faults))
  {
  }

  /** What is left of a run, from stage j on, comes to goal. */
  ghost predicate Leads(
    fp: Floats, m: SessionState, j: nat, f: Frame, faults: seq<Fault>, goal: (SessionState, RunResult))
  {
    j <= |m.stages| == |faults| && RunFrom(fp, m, j, f, Alone(faults)) == goal
  }

  class Session {
    const id: Uint64
    const stages: seq<Runtime>
    var next: Uint64
    ghost var lost: seq<(nat, Frame)>
    ghost var rounds: nat

    ghost predicate Distinct() {
      forall i, j :: 0 <= i < j < |stages| ==> stages[i] != stages[j]
    }

    ghost function StageStates(): (s: seq<StageState>)
      reads stages
      ensures |s| == |stages|
      ensures forall i :: 0 <= i < |stages| ==> s[i] == stages[i].State()
    {
      seq(|stages|, i requires 0 <= i < |stages| reads stages => stages[i].State())
    }

    ghost function State(): SessionState
      reads this, stages
    {
      SessionState(id, next, StageStates(), lost, rounds)
    }

    constructor (id: Uint64, stages: seq<Runtime>)
      ensures this.id == id && this.stages == stages
      ensures State() == SessionState(id, 0, StageStates(), [], 0)
    {
      this.id, this.stages, next, lost, rounds := id, stages, 0, [], 0;
    }

    method CallStage(fp: Floats, j: nat, f: Frame, fault: Fault) returns (r: Result<Frame, StageError>)
      requires Distinct() && j < |stages|
      modifies this`lost, stages[j]
      ensures (State(), r) == Call(fp, old(State()), j, f, fault)
      ensures fault.Unreachable? ==> r == Err(Unavailable) && State() == old(State())
      ensures fault.GaveUp? || fault.ReplyLost? ==> r == Err(TimedOut)
      ensures fault.GaveUp? ==> StageStates() == old(StageStates()) && lost == old(lost) + [(j, f)]
    {
      match fault
      case Unreachable =>
        return Err(Unavailable);
      case GaveUp =>
        lost := lost + [(j, f)];
        return Err(TimedOut);
      case ReplyLost =>
        r := stages[j].Process(fp, f, false);
        assert StageStates() == old(StageStates())[j := stages[j].State()];
        return Err(TimedOut);
      case Misanswered(reply) =>
        r := stages[j].Process(fp, f, false);
        assert StageStates() == old(StageStates())[j := stages[j].State()];
        if r.Ok? && (reply.sessionId != f.sessionId || reply.sequence != f.sequence || reply.position != f.position) {
          r := Err(Mismatched);
        }
      case _ =>
        r := stages[j].Process(fp, f, fault == Backend);
        assert StageStates() == old(StageStates())[j := stages[j].State()];
    }

    /** One turn of Run's loop: either the run ends here or the rest of it is still to do. */
    method CallNext(fp: Floats, j: nat, frame: Frame, faults: seq<Fault>, ghost goal: (SessionState, RunResult))
      returns (output: Result<Frame, StageError>)
      requires Distinct() && j < |stages| == |faults| && Leads(fp, State(), j, frame, faults, goal)
      modifies this`lost, stages[j]
      ensures if output.Err? then (State(), Err(StageFailed(j, output.error))) == goal
              else Leads(fp, State(), j + 1, output.value, faults, goal)
    {
      RunFromAlone(fp, State(), j, frame, faults);
      output := CallStage(fp, j, frame, faults[j]);
    }

    method Complete(fp: Floats, frame: Frame, ghost faults: seq<Fault>, ghost goal: (SessionState, RunResult))
      requires Leads(fp, State(), |stages|, frame, faults, goal)
      modifies this`next, this`rounds
      ensures (State(), Ok(frame.values)) == goal
    {
      next := (next + 1) % TWO64;
      rounds := rounds + 1;
    }

    /** The stage loop of Run and the step of the counter behind it. */
    method RunStages(fp: Floats, first: Frame, faults: seq<Fault>, ghost goal: (SessionState, RunResult))
      returns (r: RunResult)
      requires Distinct() && |faults| == |stages| && Leads(fp, State(), 0, first, faults, goal)
      modifies this`next, this`lost, this`rounds, stages
      ensures (State(), r) == goal
    {
      var frame := first;
      for j := 0 to |stages|
        invariant Leads(fp, State(), j, frame, faults, goal)
      {
        var output := CallNext(fp, j, frame, faults, goal);
        if output.Err? {
          return Err(StageFailed(j, output.error));
        }
        frame := output.value;
      }
      Complete(fp, frame, faults, goal);
      return Ok(frame.values);
    }

    /** The activation is only read: the frame carries a copy of it. */
    method Run(fp: Floats, position: Uint32, activation: array<Uint32>, faults: seq<Fault>)
      returns (r: RunResult)
      requires Distinct() && |faults| == |stages|
      modifies this`next, this`lost, this`rounds, stages
      ensures (State(), r) == RunSession(fp, old(State()), position, old(activation[..]), Alone(faults))
      ensures activation[..] == old(activation[..])
      ensures r == Err(BadSession) <==> id == 0 || |stages| < 2 || activation.Length == 0
      ensures next == if r.Ok? then (old(next) + 1) % TWO64 else old(next)
    {
      if id == 0 || |stages| < 2 || activation.Length == 0 {
        return Err(BadSession);
      }
      var frame := Frame(id, next, position, activation[..]);
      FailureNamesStage(fp, State(), 0, frame, Alone(faults));
      r := RunStages(fp, frame, faults, RunFrom(fp, State(), 0, frame, Alone(faults)));
    }
  }
}
