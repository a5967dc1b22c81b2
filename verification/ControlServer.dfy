/** The control plane's server object: one method per lock-held region. */
module ControlServer {
  import opened Prelude
  import opened Planner
  import opened PlannerTheorems
  import opened Control

  /** The node a registration request is stored as, or why it is refused. */
  function Accepted(req: Node, authorized: bool, now: int): Result<Node, ControlError> {
    var scope := if req.scope == "" then "remote" else req.scope;
    var limit := if req.maxConcurrency <= 0 then 1 else req.maxConcurrency;
    if req.id == "" || req.endpoint == "" || (req.models == [] && !req.acceptsUploads) then Err(BadRequest)
    else if !authorized then Err(Unauthorized)
    else if scope != "local" && scope != "remote" then Err(BadRequest)
    else if req.activeTasks < 0 || req.activeTasks > limit then Err(BadRequest)
    else if req.distributedReady && req.stageEndpoint == "" then Err(BadRequest)
    else Ok(req.(scope := scope, maxConcurrency := limit, lastSeen := now))
  }

  const NOBODY: Node := Node("", "", [], [], 0, 0, false, false, false, "", 1, 0, false, "", 0)

  /** A request names a model, describes an uploaded one fully, and asks for a known scope or none. */
  predicate IsWellFormed(model: string, digest: string, size: int, format: string, scope: string) {
    && model != "" && (digest == "" || (|digest| == 64 && size > 0 && format == "gguf"))
    && (scope == "" || scope == "local" || scope == "remote")
  }

  // ---------------------------------------------------------------- groups

  predicate ValidGroupRequest(req: GroupRequest) {
    && ValidModel(req.model, req.digest, req.size, req.format) && ValidScope(req.scope)
    && req.layerCount >= 2 && req.minNodes >= 0 && req.maxNodes >= 0
  }

  function MinNodes(req: GroupRequest): int { if req.minNodes == 0 then 2 else req.minNodes }

  function MaxNodes(req: GroupRequest): int { if req.maxNodes == 0 then MinNodes(req) else req.maxNodes }

  predicate LayersMatch(req: GroupRequest) { |req.layerBytes| == 0 || |req.layerBytes| == req.layerCount }

  /** The planner's outcome for the layers the request asks for. */
  ghost predicate IsGroupPlan(req: GroupRequest, cs: seq<Candidate>, r: Outcome) {
    exists layerBytes :: LayersFor(req, layerBytes) && IsPlanOf(cs, layerBytes, MinNodes(req), MaxNodes(req), r)
  }

  /** The planner's outcome for the request over all the nodes that are eligible for it. */
  ghost predicate IsGroupOutcome(s: State, req: GroupRequest, now: int, r: Outcome)
    requires Registered(s.nodes)
  {
    exists cs :: AreCandidates(s, req, now, cs) && IsGroupPlan(req, cs, r)
  }

  function Nonces(nonceAt: nat -> string, n: nat): (ids: seq<string>)
    ensures |ids| == n
  {
    seq(n, i requires 0 <= i < n => nonceAt(i))
  }

  datatype GroupReply = GroupReply(stages: seq<Stage>, ids: seq<string>, expires: int)

  /** What a creation answers, given the planner's outcome and which identifiers and tokens could be had. */
  function Answer(plan: Outcome, groupId: Option<string>, issueNow: int, nonceAt: nat -> string, failAt: Option<nat>)
    : Result<GroupReply, ControlError>
  {
    if plan.Err? then Err(PlanFailed(plan.error))
    else if groupId.None? || (failAt.Some? && failAt.value < |plan.value|) then Err(IssueFailed)
    else Ok(GroupReply(plan.value, Nonces(nonceAt, |plan.value|), issueNow + RESERVATION_TTL))
  }

  ghost predicate ListedIfEligible(s: State, req: GroupRequest, now: int, cs: seq<Candidate>, k: string) {
    k in s.nodes && GroupEligible(s, s.nodes[k], req, now) ==> Listed(cs, k)
  }

  /** The candidates among the nodes under the keys done so far. */
  ghost predicate Collected(s: State, req: GroupRequest, now: int, cs: seq<Candidate>, done: set<string>)
    requires Registered(s.nodes)
  {
    && DistinctIds(cs)
    && (forall i :: 0 <= i < |cs| ==> IsCandidate(s, req, now, cs[i]))
    && (forall i :: 0 <= i < |cs| ==> cs[i].nodeId in done)
    && (forall k :: k in done ==> ListedIfEligible(s, req, now, cs, k))
  }

  lemma {:induction false} CollectedAll(s: State, req: GroupRequest, now: int, cs: seq<Candidate>)
    requires Registered(s.nodes) && Collected(s, req, now, cs, s.nodes.Keys)
    ensures AreCandidates(s, req, now, cs)
  {
  }

  lemma {:induction false} ListedStays(cs: seq<Candidate>, c: Candidate, k: string)
    ensures Listed(cs, k) ==> Listed(cs + [c], k)
    ensures Listed(cs + [c], c.nodeId)
  {
    if Listed(cs, k) {
      var i :| 0 <= i < |cs| && cs[i].nodeId == k;
      assert (cs + [c])[i].nodeId == k;
    }
    assert (cs + [c])[|cs|].nodeId == c.nodeId;
  }

  lemma {:induction false} CollectedExtends(
    s: State, req: GroupRequest, now: int, cs: seq<Candidate>, done: set<string>, key: string, after: seq<Candidate>)
    requires Registered(s.nodes) && Collected(s, req, now, cs, done) && key in s.nodes && key !in done
    requires NodeFits(key, s.nodes[key])
    requires var n := s.nodes[key];
             after == if GroupEligible(s, n, req, now)
                      then cs + [Candidate(n.id, n.stageEndpoint, MemoryCapacity(n), Load(s, n))] else cs
    ensures Collected(s, req, now, after, done + {key})
  {
    forall k | k in done + {key} ensures ListedIfEligible(s, req, now, after, k) {
      assert k in done ==> ListedIfEligible(s, req, now, cs, k);
      if |after| > |cs| {
        ListedStays(cs, after[|cs|], k);
      }
    }
  }

  /** None of the identifiers is in use yet. */
  ghost predicate Unused(reservations: map<string, Reservation>, ids: seq<string>) {
    forall i :: 0 <= i < |ids| ==> ids[i] !in reservations
  }

  lemma {:induction false} IdSetAppend(ids: seq<string>, id: string)
    ensures IdSet(ids + [id]) == IdSet(ids) + {id}
  {
  }

  /** Undoing the reservations made so far removes their identifiers and nothing else. */
  lemma {:induction false} ReserveIsUndone(
    reservations: map<string, Reservation>, ids: seq<string>, nodeIds: seq<string>, expires: int, n: nat)
    requires n <= |ids| && n <= |nodeIds|
    ensures Reserve(reservations, ids, nodeIds, expires, n) - IdSet(ids[..n]) == reservations - IdSet(ids[..n])
  {
    if n > 0 {
      ReserveIsUndone(reservations, ids, nodeIds, expires, n - 1);
      assert ids[..n] == ids[..n - 1] + [ids[n - 1]];
      IdSetAppend(ids[..n - 1], ids[n - 1]);
      var before := Reserve(reservations, ids, nodeIds, expires, n - 1);
      assert before[ids[n - 1] := Reservation(nodeIds[n - 1], expires)] - IdSet(ids[..n])
          == before - IdSet(ids[..n - 1]) - {ids[n - 1]};
      assert reservations - IdSet(ids[..n]) == reservations - IdSet(ids[..n - 1]) - {ids[n - 1]};
    }
  }

  /** A state without some reservations. */
  function Undo(s: State, ids: seq<string>): State { s.(reservations := s.reservations - IdSet(ids)) }

  /** The state a creation leaves: the new group, or the old state without what had been reserved so far. */
  ghost predicate Created(
    swept: State, plan: Outcome, groupId: Option<string>, nonceAt: nat -> string, failAt: Option<nat>,
    r: Result<GroupReply, ControlError>, after: State)
  {
    if r.Ok? then
      && groupId.Some? && |r.value.ids| == |r.value.stages|
      && after == AddGroup(swept, groupId.value, r.value.ids, NodeIds(r.value.stages), r.value.expires)
    else if plan.Err? || groupId.None? then after == swept
    else failAt.Some? && after == Undo(swept, Nonces(nonceAt, failAt.value))
  }

  /** A failed creation leaves exactly what the sweep left if and only if its nonces were unused. */
  lemma {:induction false} FailedCreationIsUndone(
    swept: State, plan: Outcome, groupId: Option<string>, nonceAt: nat -> string, failAt: Option<nat>,
    r: Result<GroupReply, ControlError>, after: State)
    requires Created(swept, plan, groupId, nonceAt, failAt, r, after) && r.Err?
    ensures after == swept <==>
            plan.Err? || groupId.None? || Unused(swept.reservations, Nonces(nonceAt, failAt.value))
  {
    if plan.Ok? && groupId.Some? {
      var ids := Nonces(nonceAt, failAt.value);
      if Unused(swept.reservations, ids) {
        assert after.reservations == swept.reservations;
      } else {
        var i :| 0 <= i < |ids| && ids[i] in swept.reservations;
        assert ids[i] in IdSet(ids) && ids[i] !in after.reservations;
      }
    }
  }

  /** What the token issuer refuses to sign. */
  lemma {:induction false} ClaimsAreCheckedExactly(groupId: string, index: int, layerStart: int, layerEnd: int)
    ensures StageClaimsValid(groupId, index, layerStart, layerEnd) <==>
            |groupId| > 0 && 0 <= index && 0 <= layerStart < layerEnd
  {
  }

  ghost predicate ClaimsValid(groupId: string, stages: seq<Stage>) {
    forall i :: 0 <= i < |stages| ==> StageClaimsValid(groupId, i, stages[i].layerStart, stages[i].layerEnd)
  }

  /** A planned range always passes IssueStage's check. */
  lemma {:induction false} PlannedStagesAreValid(
    s: State, req: GroupRequest, now: int, stages: seq<Stage>, groupId: string)
    requires Registered(s.nodes) && IsGroupOutcome(s, req, now, Ok(stages)) && groupId != ""
    ensures ClaimsValid(groupId, stages)
    ensures forall i :: 0 <= i < |stages| ==> stages[i].layerStart < stages[i].layerEnd
  {
    var cs :| AreCandidates(s, req, now, cs) && IsGroupPlan(req, cs, Ok(stages));
    var layerBytes :|
      LayersFor(req, layerBytes) && IsPlanOf(cs, layerBytes, MinNodes(req), MaxNodes(req), Ok(stages));
    PlanAddsUp(cs, layerBytes, MinNodes(req), MaxNodes(req), stages);
  }

  lemma {:induction false} ExtendOne(before: map<string, Reservation>, ids: set<string>, id: string, expires: int)
    ensures var m := Extend(before, ids, expires);
            Extend(before, ids + {id}, expires) == if id in m then m[id := m[id].(expiresAt := expires)] else m
  {
  }

  /** Everything about a lease but the node's remaining capacity. */
  predicate Suits(n: Node, req: LeaseRequest, now: int) {
    && n.available && n.runtimeReady && (if req.digest != "" then n.acceptsUploads else req.model in n.models)
    && now - n.lastSeen < STALE_AFTER && HasVram(n, req.minVramMB)
    && (req.nodeId == "" || n.id == req.nodeId) && (req.scope == "" || n.scope == req.scope)
    && n.id !in req.excluded
  }

  ghost predicate Beats(s: State, req: LeaseRequest, now: int, best: Node, k: string)
    requires Registered(s.nodes) && best.maxConcurrency >= 1 && k in s.nodes
  {
    k != best.id && Eligible(s, s.nodes[k], req, now) ==>
      s.nodes[k].maxConcurrency >= 1 && Preferred(s, best, s.nodes[k])
  }

  /** selected is the outcome of comparing the nodes under the keys done so far. */
  ghost predicate Chosen(s: State, done: set<string>, req: LeaseRequest, now: int, selected: Node)
    requires Registered(s.nodes) && selected.maxConcurrency >= 1
  {
    if selected.id == "" then forall k :: k in done && k in s.nodes ==> !Eligible(s, s.nodes[k], req, now)
    else
      && selected.id in s.nodes && s.nodes[selected.id] == selected && Eligible(s, selected, req, now)
      && forall k :: k in done && k in s.nodes ==> Beats(s, req, now, selected, k)
  }

  /** One more node is compared with the best so far. */
  lemma {:induction false} ChosenExtends(
    s: State, done: set<string>, key: string, req: LeaseRequest, now: int, before: Node, after: Node)
    requires Registered(s.nodes) && before.maxConcurrency >= 1 && key in s.nodes && s.nodes[key].maxConcurrency >= 1
    requires Chosen(s, done, req, now, before)
    requires after == if Eligible(s, s.nodes[key], req, now) && (before.id == "" || Preferred(s, s.nodes[key], before))
                      then s.nodes[key] else before
    ensures after.maxConcurrency >= 1 && Chosen(s, done + {key}, req, now, after)
  {
    assert NodeFits(key, s.nodes[key]);
    if after.id != "" {
      forall k | k in done + {key} && k in s.nodes ensures Beats(s, req, now, after, k) {
        assert NodeFits(k, s.nodes[k]);
        PreferenceIsStrictOrder(s, after, before, s.nodes[k]);
        PreferenceIsStrictOrder(s, s.nodes[key], before, before);
        assert k in done && before.id != "" ==> Beats(s, req, now, before, k);
      }
    }
  }

  lemma {:induction false} ChosenIsBest(s: State, req: LeaseRequest, now: int, selected: Node)
    requires Registered(s.nodes) && selected.maxConcurrency >= 1 && Chosen(s, s.nodes.Keys, req, now, selected)
    ensures selected.id == "" <==> NoneEligible(s, req, now)
    ensures selected.id != "" ==> IsBest(s, req, now, selected)
  {
  }

  // ---------------------------------------------------------------- the server

  /** The checks of register and the defaults it fills in. */
  method CheckRegistration(req: Node, authorized: bool, now: int) returns (r: Result<Node, ControlError>)
    ensures r == Accepted(req, authorized, now)
    ensures r.Ok? ==> r.value.id == req.id && NodeFits(req.id, r.value)
    ensures r == Err(BadRequest) || r == Err(Unauthorized) || r.Ok?
    ensures r == Err(Unauthorized) ==> !authorized
    ensures r.Ok? <==>
            && authorized && req.id != "" && req.endpoint != "" && (req.models != [] || req.acceptsUploads)
            && (req.scope == "" || req.scope == "local" || req.scope == "remote")
            && 0 <= req.activeTasks
            && (req.activeTasks <= req.maxConcurrency || (req.activeTasks <= 1 && req.maxConcurrency <= 0))
            && (req.distributedReady ==> req.stageEndpoint != "")
    ensures r.Ok? ==>
              && r.value.lastSeen == now && r.value.scope == (if req.scope == "" then "remote" else req.scope)
              && r.value.maxConcurrency == (if req.maxConcurrency >= 1 then req.maxConcurrency else 1)
              && r.value == req.(lastSeen := r.value.lastSeen, scope := r.value.scope,
                                 maxConcurrency := r.value.maxConcurrency)
  {
    if req.id == "" || req.endpoint == "" || (|req.models| == 0 && !req.acceptsUploads) {
      return Err(BadRequest);
    }
    if !authorized {
      return Err(Unauthorized);
    }
    var scope := req.scope;
    if scope == "" {
      scope := "remote";
    }
    if scope != "local" && scope != "remote" {
      return Err(BadRequest);
    }
    var limit := req.maxConcurrency;
    if limit <= 0 {
      limit := 1;
    }
    if req.activeTasks < 0 || req.activeTasks > limit {
      return Err(BadRequest);
    }
    if req.distributedReady && req.stageEndpoint == "" {
      return Err(BadRequest);
    }
    return Ok(req.(scope := scope, maxConcurrency := limit, lastSeen := now));
  }

  class Server {
    const ttl: int
    var nodes: map<string, Node>
    var reservations: map<string, Reservation>
    var groups: map<string, Group>

    ghost function State(): State
      reads this
    {
      Control.State(nodes, reservations, groups)
    }

    ghost predicate Valid()
      reads this
    {
      Registered(nodes)
    }

    constructor (ttl: int)
      ensures Valid() && State() == Control.State(map[], map[], map[]) && this.ttl == ttl
    {
      this.ttl, nodes, reservations, groups := ttl, map[], map[], map[];
    }

    method Register(req: Node, authorized: bool, now: int) returns (r: Result<Node, ControlError>)
      requires Valid()
      modifies this`nodes
      ensures Valid() && r == Accepted(req, authorized, now)
      ensures nodes == if r.Ok? then old(nodes)[req.id := r.value] else old(nodes)
    {
      r := CheckRegistration(req, authorized, now);
      if r.Ok? {
        nodes := nodes[r.value.id := r.value];
      }
    }

    method ExpireLeases(now: int)
      modifies this`reservations
      ensures reservations ==
              map id | id in old(reservations) && old(reservations)[id].expiresAt > now :: old(reservations)[id]
    {
      var left := reservations.Keys;
      while left != {}
        invariant left <= old(reservations).Keys
        invariant reservations ==
                  map id | id in old(reservations) && (id in left || old(reservations)[id].expiresAt > now) ::
                    old(reservations)[id]
        decreases |left|
      {
        var id :| id in left;
        if reservations[id].expiresAt <= now {
          reservations := reservations - {id};
        }
        left := left - {id};
      }
    }

    method ExpireGroups(now: int)
      modifies this`groups
      ensures groups == map g | g in old(groups) && old(groups)[g].expiresAt > now :: old(groups)[g]
    {
      var left := groups.Keys;
      while left != {}
        invariant left <= old(groups).Keys
        invariant groups == map g | g in old(groups) && (g in left || old(groups)[g].expiresAt > now) :: old(groups)[g]
        decreases |left|
      {
        var g :| g in left;
        if groups[g].expiresAt <= now {
          groups := groups - {g};
        }
        left := left - {g};
      }
    }

    method ExpireReservations(now: int)
      modifies this`reservations, this`groups
      ensures State() == Sweep(old(State()), now)
      ensures IsSwept(old(State()), now, State(), {}, {})
    {
      ExpireLeases(now);
      ExpireGroups(now);
    }

    method ReservedForNode(nodeId: string) returns (count: nat)
      ensures count == ReservedFor(reservations, nodeId)
    {
      count := 0;
      var left := reservations.Keys;
      ghost var counted: set<string> := {};
      while left != {}
        invariant left <= reservations.Keys
        invariant counted == HeldBy(reservations, nodeId) - left && count == |counted|
        decreases |left|
      {
        var id :| id in left;
        if reservations[id].nodeId == nodeId {
          count := count + 1;
          counted := counted + {id};
        }
        left := left - {id};
      }
      assert counted == HeldBy(reservations, nodeId);
    }

    /** One turn of the selection loop. */
    method Compare(req: LeaseRequest, now: int, node: Node, selected: Node, selectedLoad: real)
      returns (next: Node, nextLoad: real)
      requires node.maxConcurrency >= 1 && selected.maxConcurrency >= 1
      requires selected.id != "" ==> selectedLoad == Load(State(), selected)
      ensures next == if Eligible(State(), node, req, now) && (selected.id == "" || Preferred(State(), node, selected))
                      then node else selected
      ensures next.id != "" ==> nextLoad == Load(State(), next)
    {
      next, nextLoad := selected, selectedLoad;
      var reserved := ReservedForNode(node.id);
      var active := Max(node.activeTasks, reserved);
      if Suits(node, req, now) && active < node.maxConcurrency {
        var load := active as real / node.maxConcurrency as real;
        var vram, selectedVram := AvailableVram(node.gpuFreeMB), AvailableVram(selected.gpuFreeMB);
        if selected.id == "" || load < selectedLoad || (load == selectedLoad && vram > selectedVram)
           || (load == selectedLoad && vram == selectedVram && StringLess(node.id, selected.id)) {
          next, nextLoad := node, load;
        }
      }
    }

    /** The selection loop of createLease, in whatever order the nodes come. */
    method SelectNode(req: LeaseRequest, now: int) returns (selected: Node)
      requires Valid()
      ensures selected.maxConcurrency >= 1
      ensures selected.id == "" <==> NoneEligible(State(), req, now)
      ensures selected.id != "" ==> IsBest(State(), req, now, selected)
    {
      ghost var s := State();
      selected := NOBODY;
      var selectedLoad := 2.0;
      var left := nodes.Keys;
      while left != {}
        invariant left <= nodes.Keys && selected.maxConcurrency >= 1
        invariant Chosen(s, nodes.Keys - left, req, now, selected)
        invariant selected.id != "" ==> selectedLoad == Load(s, selected)
        decreases |left|
      {
        var key :| key in left;
        assert NodeFits(key, nodes[key]);
        ghost var before := selected;
        selected, selectedLoad := Compare(req, now, nodes[key], selected, selectedLoad);
        ChosenExtends(s, nodes.Keys - left, key, req, now, before, selected);
        assert nodes.Keys - (left - {key}) == nodes.Keys - left + {key};
        left := left - {key};
      }
      assert nodes.Keys - {} == nodes.Keys;
      ChosenIsBest(s, req, now, selected);
    }

    method GrantLease(req: LeaseRequest, now: int, issuedAt: int, reservedAt: int, issued: Option<string>)
      returns (r: Result<(string, Node), ControlError>)
      requires Valid()
      modifies this`reservations, this`groups
      ensures Valid() && nodes == old(nodes)
      ensures !ValidModel(req.model, req.digest, req.size, req.format) || !ValidScope(req.scope) ==>
                r == Err(BadRequest) && State() == old(State())
      ensures ValidModel(req.model, req.digest, req.size, req.format) && ValidScope(req.scope) ==>
                var swept := Sweep(old(State()), now);
                && (r == Err(NoHost) <==> NoneEligible(swept, req, now))
                && (r.Err? ==> State() == swept && (r.error == NoHost || (r.error == IssueFailed && issued.None?)))
                && (r.Ok? ==>
                      && issued == Some(r.value.0)
                      && r.value.1.maxConcurrency >= 1 && IsBest(swept, req, now, r.value.1)
                      && var expires := LeaseExpiry(issuedAt, reservedAt, LeaseTtl(ttl, req.size));
                         State() == Grant(swept, r.value.0, r.value.1.id, expires))
      ensures r == Err(BadRequest) <==> !IsWellFormed(req.model, req.digest, req.size, req.format, req.scope)
      ensures r.Ok? ==>
                && IsSwept(old(State()), now, State(), {r.value.0}, {})
                && r.value.0 in reservations && reservations[r.value.0].nodeId == r.value.1.id
    {
      if !ValidModel(req.model, req.digest, req.size, req.format) || !ValidScope(req.scope) {
        return Err(BadRequest);
      }
      ExpireReservations(now);
      var selected := SelectNode(req, now);
      if selected.id == "" {
        return Err(NoHost);
      }
      if issued.None? {
        return Err(IssueFailed);
      }
      var expires := LeaseExpiry(issuedAt, reservedAt, LeaseTtl(ttl, req.size));
      GrantMeans(old(State()), now, issued.value, selected.id, expires);
      reservations := reservations[issued.value := Reservation(selected.id, expires)];
      return Ok((issued.value, selected));
    }

    method ReleaseLease(id: string) returns (existed: bool)
      modifies this`reservations
      ensures existed == (id in old(reservations)) && reservations == old(reservations) - {id}
    {
      existed := id in reservations;
      reservations := reservations - {id};
    }

    method RemoveAll(ids: seq<string>)
      modifies this`reservations
      ensures reservations == old(reservations) - IdSet(ids)
    {
      for i := 0 to |ids|
        invariant reservations == old(reservations) - IdSet(ids[..i])
      {
        assert IdSet(ids[..i + 1]) == IdSet(ids[..i]) + {ids[i]} by {
          assert ids[..i + 1] == ids[..i] + [ids[i]];
          IdSetAppend(ids[..i], ids[i]);
        }
        reservations := reservations - {ids[i]};
      }
      assert ids[..|ids|] == ids;
    }

    method ReleaseGroup(groupId: string) returns (existed: bool)
      modifies this`reservations, this`groups
      ensures existed == (groupId in old(groups)) && State() == DropGroup(old(State()), groupId)
      ensures groups == old(groups) - {groupId}
      ensures existed ==> forall id :: id in old(groups)[groupId].reservationIds ==> id !in reservations
    {
      existed := groupId in groups;
      if existed {
        RemoveAll(groups[groupId].reservationIds);
        groups := groups - {groupId};
      }
    }

    method ExtendAll(ids: seq<string>, expires: int)
      modifies this`reservations
      ensures reservations == Extend(old(reservations), IdSet(ids), expires)
    {
      ghost var before := reservations;
      assert IdSet(ids[..0]) == {};
      for i := 0 to |ids|
        invariant reservations == Extend(before, IdSet(ids[..i]), expires)
      {
        assert ids[..i + 1] == ids[..i] + [ids[i]];
        IdSetAppend(ids[..i], ids[i]);
        ExtendOne(before, IdSet(ids[..i]), ids[i], expires);
        if ids[i] in reservations {
          reservations := reservations[ids[i] := reservations[ids[i]].(expiresAt := expires)];
        }
      }
      assert ids[..|ids|] == ids;
    }

    method RenewDistributedGroup(groupId: string, now: int) returns (r: Result<int, ControlError>)
      modifies this`reservations, this`groups
      ensures State() == RenewGroup(old(State()), groupId, now)
      ensures IsRenewal(old(State()), groupId, now, State())
      ensures r == if groupId in old(groups) && old(groups)[groupId].expiresAt > now then Ok(now + 900_000_000_000)
                   else Err(NotFound)
    {
      RenewMeans(State(), groupId, now);
      ExpireReservations(now);
      if groupId !in groups {
        return Err(NotFound);
      }
      var group := groups[groupId].(expiresAt := now + RESERVATION_TTL);
      groups := groups[groupId := group];
      ExtendAll(group.reservationIds, group.expiresAt);
      return Ok(group.expiresAt);
    }

    method AddCandidate(req: GroupRequest, now: int, node: Node, cs: seq<Candidate>) returns (r: seq<Candidate>)
      requires node.maxConcurrency >= 1
      ensures r == if GroupEligible(State(), node, req, now)
                   then cs + [Candidate(node.id, node.stageEndpoint, MemoryCapacity(node), Load(State(), node))] else cs
    {
      var reserved := ReservedForNode(node.id);
      var active := Max(node.activeTasks, reserved);
      var supported := req.model in node.models || (req.digest != "" && node.distributedReady);
      r := cs;
      if node.available && node.runtimeReady && node.distributedReady && supported && now - node.lastSeen < STALE_AFTER
         && active < node.maxConcurrency && (req.scope == "" || node.scope == req.scope) {
        var load := active as real / node.maxConcurrency as real;
        r := cs + [Candidate(node.id, node.stageEndpoint, MemoryCapacity(node), load)];
      }
    }

    /** The candidate loop of createDistributedGroup, in whatever order the nodes come. */
    method CollectCandidates(req: GroupRequest, now: int) returns (cs: seq<Candidate>)
      requires Valid()
      ensures AreCandidates(State(), req, now, cs)
    {
      ghost var s := State();
      cs := [];
      var left := nodes.Keys;
      while left != {}
        invariant left <= nodes.Keys
        invariant Collected(s, req, now, cs, nodes.Keys - left)
        decreases |left|
      {
        var key :| key in left;
        assert NodeFits(key, nodes[key]);
        ghost var before := cs;
        cs := AddCandidate(req, now, nodes[key], cs);
        CollectedExtends(s, req, now, before, nodes.Keys - left, key, cs);
        assert nodes.Keys - (left - {key}) == nodes.Keys - left + {key};
        left := left - {key};
      }
      assert nodes.Keys - {} == nodes.Keys;
      CollectedAll(s, req, now, cs);
    }

    /** The loop that issues one token and makes one reservation per stage; failAt is where issuing fails. */
    method ReserveStages(groupId: string, stages: seq<Stage>, nonceAt: nat -> string, failAt: Option<nat>, expires: int)
      returns (ok: bool)
      requires ClaimsValid(groupId, stages)
      modifies this`reservations
      ensures ok == (failAt.None? || failAt.value >= |stages|)
      ensures ok ==>
                var ids := Nonces(nonceAt, |stages|);
                reservations == Reserve(old(reservations), ids, NodeIds(stages), expires, |stages|)
      ensures !ok ==> reservations == old(reservations) - IdSet(Nonces(nonceAt, failAt.value))
    {
      ghost var ids := Nonces(nonceAt, |stages|);
      var made := [];
      for i := 0 to |stages|
        invariant made == ids[..i]
        invariant reservations == Reserve(old(reservations), ids, NodeIds(stages), expires, i)
        invariant failAt.Some? ==> failAt.value >= i
      {
        if failAt == Some(i) || !StageClaimsValid(groupId, i, stages[i].layerStart, stages[i].layerEnd) {
          ReserveIsUndone(old(reservations), ids, NodeIds(stages), expires, i);
          assert made == Nonces(nonceAt, i);
          RemoveAll(made);
          return false;
        }
        reservations := reservations[nonceAt(i) := Reservation(stages[i].nodeId, expires)];
        made := made + [nonceAt(i)];
      }
      return true;
    }

    method PlanStages(req: GroupRequest, cs: seq<Candidate>) returns (r: Outcome)
      requires req.layerCount >= 2 && (|req.layerBytes| > 0 ==> |req.layerBytes| == req.layerCount)
      ensures IsGroupPlan(req, cs, r)
    {
      if |req.layerBytes| > 0 {
        r := PlanLayers(cs, req.layerBytes, MinNodes(req), MaxNodes(req));
      } else {
        r := PlanEvenly(cs, req.layerCount, req.size, MinNodes(req), MaxNodes(req));
      }
    }

    /** The candidates and the plan for them. */
    method PlanGroup(req: GroupRequest, now: int) returns (plan: Outcome)
      requires Valid() && ValidGroupRequest(req) && LayersMatch(req)
      ensures IsGroupOutcome(State(), req, now, plan)
    {
      var cs := CollectCandidates(req, now);
      plan := PlanStages(req, cs);
    }

    /** The part of createDistributedGroup behind a successful plan. */
    method IssueGroup(
      stages: seq<Stage>, groupId: Option<string>, issueNow: int, nonceAt: nat -> string, failAt: Option<nat>)
      returns (r: Result<GroupReply, ControlError>)
      requires groupId.Some? ==> ClaimsValid(groupId.value, stages)
      modifies this`reservations, this`groups
      ensures r == Answer(Ok(stages), groupId, issueNow, nonceAt, failAt)
      ensures r.Ok? ==>
                State() == AddGroup(old(State()), groupId.value, r.value.ids, NodeIds(stages), r.value.expires)
      ensures r.Err? ==>
                State() == if groupId.None? then old(State()) else Undo(old(State()), Nonces(nonceAt, failAt.value))
    {
      if groupId.None? {
        return Err(IssueFailed);
      }
      var expires := issueNow + RESERVATION_TTL;
      var ok := ReserveStages(groupId.value, stages, nonceAt, failAt, expires);
      if !ok {
        return Err(IssueFailed);
      }
      var ids := Nonces(nonceAt, |stages|);
      groups := groups[groupId.value := Group(ids, expires)];
      r := Ok(GroupReply(stages, ids, expires));
    }

    /**
     * createDistributedGroup. groupId is None when no random identifier could be drawn, nonceAt numbers
     * the token nonces, failAt is the stage whose token cannot be issued.
     */
    method CreateGroup(
      req: GroupRequest, now: int, groupId: Option<string>, issueNow: int, nonceAt: nat -> string, failAt: Option<nat>)
      returns (r: Result<GroupReply, ControlError>)
      requires Valid() && (groupId.Some? ==> groupId.value != "")
      modifies this`reservations, this`groups
      ensures Valid() && nodes == old(nodes)
      ensures r == Err(BadRequest) <==>
              || !IsWellFormed(req.model, req.digest, req.size, req.format, req.scope)
              || req.layerCount < 2 || req.minNodes < 0 || req.maxNodes < 0
              || (req.layerBytes != [] && |req.layerBytes| != req.layerCount)
      ensures !ValidGroupRequest(req) ==> r == Err(BadRequest) && State() == old(State())
      ensures ValidGroupRequest(req) && !LayersMatch(req) ==>
                r == Err(BadRequest) && State() == Sweep(old(State()), now)
      ensures ValidGroupRequest(req) && LayersMatch(req) ==>
                exists plan ::
                  && IsGroupOutcome(Sweep(old(State()), now), req, now, plan)
                  && r == Answer(plan, groupId, issueNow, nonceAt, failAt)
                  && Created(Sweep(old(State()), now), plan, groupId, nonceAt, failAt, r, State())
      ensures r.Ok? ==>
                && r.value.expires == issueNow + 900_000_000_000 && |r.value.ids| == |r.value.stages|
                && groupId.value in groups && groups[groupId.value] == Group(r.value.ids, r.value.expires)
    {
      if !ValidGroupRequest(req) {
        return Err(BadRequest);
      }
      ExpireReservations(now);
      if !LayersMatch(req) {
        return Err(BadRequest);
      }
      var plan := PlanGroup(req, now);
      if plan.Err? {
        r := Err(PlanFailed(plan.error));
      } else {
        if groupId.Some? {
          PlannedStagesAreValid(State(), req, now, plan.value, groupId.value);
        }
        r := IssueGroup(plan.value, groupId, issueNow, nonceAt, failAt);
      }
    }
  }
}
