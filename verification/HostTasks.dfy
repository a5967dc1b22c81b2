/**
 * The host's admission of chats: a compare-and-swap retry loop on one atomic counter. Each step below
 * is one atomic action of one request; requests interleave freely.
 */
module HostTasks {
  import opened Prelude
  import Control
  import ControlServer

  /** Where a request is: about to load the counter, holding a loaded value, or inside its chat. */
  datatype Pc = Start | Loaded(seen: int) | InChat

  datatype Host = Host(maxConcurrency: int, activeTasks: int, requests: map<nat, Pc>)

  datatype Action = Arrive(t: nat) | Load(t: nat) | CompareAndSwap(t: nat) | Finish(t: nat)

  /** New: a limit below one counts as one. */
  function NewHost(configured: int): Host {
    Host(if configured <= 0 then 1 else configured, 0, map[])
  }

  predicate At(h: Host, t: nat, pc: Pc) { t in h.requests && h.requests[t] == pc }

  /** Actions that are not enabled change nothing; a refused or finished request leaves. */
  function Act(h: Host, a: Action): Host {
    match a
    case Arrive(t) => if t in h.requests then h else h.(requests := h.requests[t := Start])
    case Load(t) => if At(h, t, Start) then h.(requests := h.requests[t := Loaded(h.activeTasks)]) else h
    case CompareAndSwap(t) =>
      if t !in h.requests || !h.requests[t].Loaded? then h
      else
        var seen := h.requests[t].seen;
        if seen >= h.maxConcurrency then h.(requests := h.requests - {t})
        else if h.activeTasks == seen then h.(activeTasks := seen + 1, requests := h.requests[t := InChat])
        else h.(requests := h.requests[t := Start])
    case Finish(t) =>
      if At(h, t, InChat) then h.(activeTasks := h.activeTasks - 1, requests := h.requests - {t}) else h
  }

  function Run(h: Host, acts: seq<Action>): Host
    decreases |acts|
  {
    if acts == [] then h else Run(Act(h, acts[0]), acts[1..])
  }

  function Chats(h: Host): set<nat> { set t | t in h.requests && h.requests[t].InChat? }

  /** The counter is exact and within the limit. */
  predicate Exact(h: Host) { h.activeTasks == |Chats(h)| && h.activeTasks <= h.maxConcurrency && h.maxConcurrency >= 1 }

  lemma {:induction false} ChatsAfter(h: Host, t: nat, pc: Pc)
    ensures var after := Chats(h.(requests := h.requests[t := pc]));
            after == if pc.InChat? then Chats(h) + {t} else Chats(h) - {t}
    ensures Chats(h.(requests := h.requests - {t})) == Chats(h) - {t}
  {
  }

  lemma {:induction false} ActKeepsExact(h: Host, a: Action)
    requires Exact(h)
    ensures Exact(Act(h, a)) && Act(h, a).maxConcurrency == h.maxConcurrency
  {
    ChatsAfter(h, a.t, Start);
    ChatsAfter(h, a.t, Loaded(h.activeTasks));
    ChatsAfter(h, a.t, InChat);
    assert a.t !in Chats(h) ==> Chats(h) - {a.t} == Chats(h);
  }

  /** Under every interleaving the counter equals the number of chats in flight and stays within the limit. */
  lemma {:induction false} ActiveTasksAreExact(h: Host, acts: seq<Action>)
    requires Exact(h)
    ensures Exact(Run(h, acts)) && Run(h, acts).maxConcurrency == h.maxConcurrency
    decreases |acts|
  {
    if acts != [] {
      ActKeepsExact(h, acts[0]);
      ActiveTasksAreExact(Act(h, acts[0]), acts[1..]);
    }
  }

  lemma {:induction false} NewHostIsExact(configured: int)
    ensures Exact(NewHost(configured))
  {
  }

  lemma {:induction false} ThreeActions(h: Host, a: Action, b: Action, c: Action)
    ensures Run(h, [a, b, c]) == Act(Act(Act(h, a), b), c)
  {
    assert [a, b, c][1..] == [b, c] && [b, c][1..] == [c] && [c][1..] == [];
    assert Run(Act(Act(Act(h, a), b), c), []) == Act(Act(Act(h, a), b), c);
    assert Run(Act(Act(h, a), b), [c]) == Act(Act(Act(h, a), b), c);
    assert Run(Act(h, a), [b, c]) == Act(Act(Act(h, a), b), c);
  }

  /**
   * In every state that can arise, a new request that is not interfered with gets its chat exactly when
   * fewer chats are in flight than the limit, and finishing gives the place back.
   */
  lemma {:induction false} AdmissionIsExact(configured: int, acts: seq<Action>, t: nat)
    requires t !in Run(NewHost(configured), acts).requests
    ensures var h := Run(NewHost(configured), acts);
            var after := Run(h, [Arrive(t), Load(t), CompareAndSwap(t)]);
            && (At(after, t, InChat) <==> |Chats(h)| < Max(configured, 1))
            && (At(after, t, InChat) ==>
                  after.activeTasks == h.activeTasks + 1 && Act(after, Finish(t)).activeTasks == h.activeTasks)
            && (!At(after, t, InChat) ==> after == h)
  {
    NewHostIsExact(configured);
    ActiveTasksAreExact(NewHost(configured), acts);
    var h := Run(NewHost(configured), acts);
    ThreeActions(h, Arrive(t), Load(t), CompareAndSwap(t));
    assert h.requests[t := Start][t := Loaded(h.activeTasks)] - {t} == h.requests;
  }

  /** A swap fails only if somebody else's came between, and then the request starts over. */
  lemma {:induction false} LostRaceStartsOver(h: Host, t: nat, seen: int)
    requires At(h, t, Loaded(seen)) && seen < h.maxConcurrency
    ensures At(Act(h, CompareAndSwap(t)), t, InChat) <==> h.activeTasks == seen
    ensures h.activeTasks != seen ==> Act(h, CompareAndSwap(t)) == h.(requests := h.requests[t := Start])
  {
  }

  /**
   * The registration a host sends at any time, whatever its chats are doing: Control accepts it with
   * the limit and the count unchanged whenever its other fields are in order.
   */
  lemma {:induction false} RegistrationsAreInRange(configured: int, acts: seq<Action>, req: Control.Node, now: int)
    requires var h := Run(NewHost(configured), acts);
             req.maxConcurrency == h.maxConcurrency && req.activeTasks == h.activeTasks
    requires req.id != "" && req.endpoint != "" && (req.models != [] || req.acceptsUploads)
    requires req.scope == "local" || req.scope == "remote"
    requires req.distributedReady ==> req.stageEndpoint != ""
    ensures ControlServer.Accepted(req, true, now) == Ok(req.(lastSeen := now))
  {
    NewHostIsExact(configured);
    ActiveTasksAreExact(NewHost(configured), acts);
  }
}
