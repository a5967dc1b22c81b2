/**
 * The control plane: registered nodes, lease reservations and atomic group reservations. The clock,
 * random identifiers and token issuing are inputs; every method is one lock-held region.
 */
module Control {
  import opened Prelude
  import opened Planner
  import opened PlannerTheorems

  const SECOND: int := 1_000_000_000
  const STALE_AFTER: int := 90 * SECOND
  const RESERVATION_TTL: int := 15 * 60 * SECOND

  datatype Node = Node(
    id: string, endpoint: string, models: seq<string>, gpuFreeMB: seq<int>, memoryFreeMB: nat, memoryMB: nat,
    runtimeReady: bool, available: bool, acceptsUploads: bool, scope: string, maxConcurrency: int, activeTasks: int,
    distributedReady: bool, stageEndpoint: string, lastSeen: int)

  datatype Reservation = Reservation(nodeId: string, expiresAt: int)

  datatype Group = Group(reservationIds: seq<string>, expiresAt: int)

  datatype State = State(nodes: map<string, Node>, reservations: map<string, Reservation>, groups: map<string, Group>)

  datatype LeaseRequest = LeaseRequest(
    model: string, minVramMB: int, digest: string, size: int, format: string, nodeId: string, scope: string,
    excluded: set<string>)

  datatype GroupRequest = GroupRequest(
    model: string, digest: string, size: int, format: string, layerCount: int, minNodes: int, maxNodes: int,
    scope: string, layerBytes: seq<int>)

  datatype ControlError = BadRequest | Unauthorized | NoHost | PlanFailed(cause: PlanError) | IssueFailed | NotFound

  // ---------------------------------------------------------------- reading the state

  predicate NodeFits(key: string, n: Node) { n.id == key && key != "" && n.maxConcurrency >= 1 }

  /** What every registration guarantees of the nodes on record. */
  ghost predicate Registered(nodes: map<string, Node>) {
    forall k :: k in nodes ==> NodeFits(k, nodes[k])
  }

  function HeldBy(reservations: map<string, Reservation>, nodeId: string): set<string> {
    set id | id in reservations && reservations[id].nodeId == nodeId
  }

  function ReservedFor(reservations: map<string, Reservation>, nodeId: string): nat { |HeldBy(reservations, nodeId)| }

  function Active(s: State, n: Node): int { Max(n.activeTasks, ReservedFor(s.reservations, n.id)) }

  function Load(s: State, n: Node): real
    requires n.maxConcurrency >= 1
  {
    Active(s, n) as real / n.maxConcurrency as real
  }

  /** The largest amount of free memory on any one GPU, 0 without GPUs. */
  function AvailableVram(gpus: seq<int>): (v: int)
    ensures v >= 0 && (v > 0 ==> v in gpus)
    ensures forall g :: g in gpus ==> g <= v
  {
    if gpus == [] then 0
    else
      assert gpus == gpus[..|gpus| - 1] + [gpus[|gpus| - 1]];
      Max(AvailableVram(gpus[..|gpus| - 1]), gpus[|gpus| - 1])
  }

  function MemoryCapacity(n: Node): int {
    var vram := AvailableVram(n.gpuFreeMB);
    if vram != 0 then vram else if n.memoryFreeMB != 0 then n.memoryFreeMB else n.memoryMB
  }

  predicate HasVram(n: Node, minimum: int) { minimum <= 0 || exists g :: g in n.gpuFreeMB && g >= minimum }

  predicate Usable(s: State, n: Node, now: int) {
    n.available && n.runtimeReady && now - n.lastSeen < STALE_AFTER && Active(s, n) < n.maxConcurrency
  }

  predicate Eligible(s: State, n: Node, req: LeaseRequest, now: int) {
    && Usable(s, n, now)
    && (if req.digest != "" then n.acceptsUploads else req.model in n.models)
    && HasVram(n, req.minVramMB)
    && (req.nodeId == "" || n.id == req.nodeId) && (req.scope == "" || n.scope == req.scope)
    && n.id !in req.excluded
  }

  predicate GroupEligible(s: State, n: Node, req: GroupRequest, now: int) {
    && Usable(s, n, now) && n.distributedReady
    && (req.model in n.models || req.digest != "")
    && (req.scope == "" || n.scope == req.scope)
  }

  /** Lower load, then more free VRAM, then smaller ID. */
  predicate Preferred(s: State, a: Node, b: Node)
    requires a.maxConcurrency >= 1 && b.maxConcurrency >= 1
  {
    || Load(s, a) < Load(s, b)
    || (Load(s, a) == Load(s, b) && AvailableVram(a.gpuFreeMB) > AvailableVram(b.gpuFreeMB))
    || (Load(s, a) == Load(s, b) && AvailableVram(a.gpuFreeMB) == AvailableVram(b.gpuFreeMB) && StringLess(a.id, b.id))
  }

  lemma {:induction false} PreferenceIsStrictOrder(s: State, a: Node, b: Node, c: Node)
    requires a.maxConcurrency >= 1 && b.maxConcurrency >= 1 && c.maxConcurrency >= 1
    ensures a.id != b.id ==> Preferred(s, a, b) || Preferred(s, b, a)
    ensures !(Preferred(s, a, b) && Preferred(s, b, a))
    ensures Preferred(s, a, b) && Preferred(s, b, c) ==> Preferred(s, a, c)
  {
    StringLessIsTotal(a.id, b.id);
    if StringLess(a.id, b.id) && StringLess(b.id, c.id) {
      StringLessIsTransitive(a.id, b.id, c.id);
    }
  }

  /** The one node a lease may go to: eligible and preferred to every other eligible node. */
  ghost predicate IsBest(s: State, req: LeaseRequest, now: int, best: Node)
    requires Registered(s.nodes) && best.maxConcurrency >= 1
  {
    && best.id in s.nodes && s.nodes[best.id] == best && Eligible(s, best, req, now)
    && forall k :: k in s.nodes && k != best.id && Eligible(s, s.nodes[k], req, now) ==> Preferred(s, best, s.nodes[k])
  }

  ghost predicate NoneEligible(s: State, req: LeaseRequest, now: int) {
    forall k :: k in s.nodes ==> !Eligible(s, s.nodes[k], req, now)
  }

  lemma {:induction false} BestIsUnique(s: State, req: LeaseRequest, now: int, a: Node, b: Node)
    requires Registered(s.nodes) && a.maxConcurrency >= 1 && b.maxConcurrency >= 1
    requires IsBest(s, req, now, a) && IsBest(s, req, now, b)
    ensures a == b
  {
    if a.id != b.id {
      PreferenceIsStrictOrder(s, a, b, a);
    }
  }

  // ---------------------------------------------------------------- changing the state

  /** expireReservationsLocked: whatever does not expire after now is dropped. */
  function Sweep(s: State, now: int): State {
    s.(reservations := map id | id in s.reservations && s.reservations[id].expiresAt > now :: s.reservations[id],
       groups := map g | g in s.groups && s.groups[g].expiresAt > now :: s.groups[g])
  }

  function Grant(s: State, nonce: string, nodeId: string, expires: int): State {
    s.(reservations := s.reservations[nonce := Reservation(nodeId, expires)])
  }

  /** The first n reservations of a group. */
  function Reserve(reservations: map<string, Reservation>, ids: seq<string>, nodeIds: seq<string>, expires: int, n: nat)
    : map<string, Reservation>
    requires n <= |ids| && n <= |nodeIds|
  {
    if n == 0 then reservations
    else Reserve(reservations, ids, nodeIds, expires, n - 1)[ids[n - 1] := Reservation(nodeIds[n - 1], expires)]
  }

  function AddGroup(s: State, groupId: string, ids: seq<string>, nodeIds: seq<string>, expires: int): State
    requires |ids| == |nodeIds|
  {
    s.(reservations := Reserve(s.reservations, ids, nodeIds, expires, |ids|),
       groups := s.groups[groupId := Group(ids, expires)])
  }

  function IdSet(ids: seq<string>): set<string> { set id | id in ids }

  function DropGroup(s: State, groupId: string): State {
    if groupId in s.groups
    then s.(reservations := s.reservations - IdSet(s.groups[groupId].reservationIds), groups := s.groups - {groupId})
    else s
  }

  /** Every reservation of a group that is still there gets the new expiry. */
  function Extend(reservations: map<string, Reservation>, ids: set<string>, expires: int): map<string, Reservation> {
    map id | id in reservations :: if id in ids then reservations[id].(expiresAt := expires) else reservations[id]
  }

  function RenewGroup(s: State, groupId: string, now: int): State {
    var t := Sweep(s, now);
    if groupId !in t.groups then t
    else
      var g := t.groups[groupId].(expiresAt := now + RESERVATION_TTL);
      t.(groups := t.groups[groupId := g], reservations := Extend(t.reservations, IdSet(g.reservationIds), g.expiresAt))
  }

  // ---------------------------------------------------------------- what the changes mean

  predicate IsSweptEntry(
    before: map<string, Reservation>, now: int, after: map<string, Reservation>, id: string)
  {
    if id in before && before[id].expiresAt > now then id in after && after[id] == before[id] else id !in after
  }

  predicate IsSweptGroup(before: map<string, Group>, now: int, after: map<string, Group>, g: string) {
    if g in before && before[g].expiresAt > now then g in after && after[g] == before[g] else g !in after
  }

  /**
   * What is left of a state at a clock reading, apart from the entries named: everything that expires
   * later, as it was, and nothing that does not.
   */
  ghost predicate IsSwept(before: State, now: int, after: State, ids: set<string>, groupIds: set<string>) {
    && after.nodes == before.nodes
    && (forall id :: id !in ids ==> IsSweptEntry(before.reservations, now, after.reservations, id))
    && (forall g :: g !in groupIds ==> IsSweptGroup(before.groups, now, after.groups, g))
  }

  lemma {:induction false} SweepMeans(s: State, now: int)
    ensures IsSwept(s, now, Sweep(s, now), {}, {})
  {
  }

  /** A lease adds its own reservation to what is left. */
  lemma {:induction false} GrantMeans(s: State, now: int, nonce: string, nodeId: string, expires: int)
    ensures var t := Grant(Sweep(s, now), nonce, nodeId, expires);
            && IsSwept(s, now, t, {nonce}, {})
            && nonce in t.reservations && t.reservations[nonce] == Reservation(nodeId, expires)
  {
  }

  /** Dropping a group takes it and its reservations and nothing else. */
  lemma {:induction false} DropMeans(s: State, groupId: string)
    ensures var t := DropGroup(s, groupId);
            && t.nodes == s.nodes && t.groups == s.groups - {groupId}
            && (groupId !in s.groups ==> t == s)
            && (groupId in s.groups ==>
                  && (forall id :: id in s.groups[groupId].reservationIds ==> id !in t.reservations)
                  && (forall id :: id in s.reservations && id !in s.groups[groupId].reservationIds ==>
                        id in t.reservations && t.reservations[id] == s.reservations[id])
                  && t.reservations.Keys <= s.reservations.Keys)
  {
  }

  predicate IsRenewedEntry(
    before: map<string, Reservation>, now: int, after: map<string, Reservation>, id: string)
  {
    if id in before && before[id].expiresAt > now
    then id in after && after[id] == Reservation(before[id].nodeId, now + 900_000_000_000)
    else id !in after
  }

  /**
   * Renewing: a group that has not expired goes on for fifteen minutes with those of its reservations that
   * have not, and one that has expired is gone like everything else that has.
   */
  ghost predicate IsRenewal(before: State, groupId: string, now: int, after: State) {
    if groupId in before.groups && before.groups[groupId].expiresAt > now then
      var ids := before.groups[groupId].reservationIds;
      && IsSwept(before, now, after, IdSet(ids), {groupId})
      && groupId in after.groups && after.groups[groupId] == Group(ids, now + 900_000_000_000)
      && (forall id :: id in ids ==> IsRenewedEntry(before.reservations, now, after.reservations, id))
    else IsSwept(before, now, after, {}, {})
  }

  lemma {:induction false} RenewMeans(s: State, groupId: string, now: int)
    ensures IsRenewal(s, groupId, now, RenewGroup(s, groupId, now))
  {
  }

  // ---------------------------------------------------------------- what the choice means

  /** Tasks a node has, or has promised to take. */
  function Busy(n: Node, reserved: nat): int { if n.activeTasks > reserved then n.activeTasks else reserved }

  /** A node that is up, seen within ninety seconds and not full. */
  predicate IsUp(n: Node, reserved: nat, now: int) {
    n.available && n.runtimeReady && now - n.lastSeen < 90_000_000_000 && Busy(n, reserved) < n.maxConcurrency
  }

  /** A node that may take the lease. */
  predicate CanServe(n: Node, reserved: nat, req: LeaseRequest, now: int) {
    && IsUp(n, reserved, now)
    && (if req.digest == "" then req.model in n.models else n.acceptsUploads)
    && (req.minVramMB <= 0 || exists g :: g in n.gpuFreeMB && g >= req.minVramMB)
    && (req.nodeId == "" || req.nodeId == n.id) && (req.scope == "" || req.scope == n.scope)
    && n.id !in req.excluded
  }

  /** A node that may take part in a group. */
  predicate CanJoin(n: Node, reserved: nat, req: GroupRequest, now: int) {
    && IsUp(n, reserved, now) && n.distributedReady
    && (req.model in n.models || req.digest != "") && (req.scope == "" || req.scope == n.scope)
  }

  lemma {:induction false} EligibleMeans(s: State, n: Node, req: LeaseRequest, group: GroupRequest, now: int)
    ensures Eligible(s, n, req, now) <==> CanServe(n, ReservedFor(s.reservations, n.id), req, now)
    ensures GroupEligible(s, n, group, now) <==> CanJoin(n, ReservedFor(s.reservations, n.id), group, now)
  {
  }

  lemma {:induction false} RatiosCompare(x: int, m: int, y: int, n: int)
    requires m > 0 && n > 0
    ensures x as real / m as real < y as real / n as real <==> x * n < y * m
    ensures x as real / m as real == y as real / n as real <==> x * n == y * m
  {
    var p, q := x as real / m as real, y as real / n as real;
    assert p * m as real == x as real && q * n as real == y as real;
    assert (x * n) as real == p * (m as real * n as real) && (y * m) as real == q * (m as real * n as real);
    assert m as real * n as real > 0.0;
  }

  /** a is the better choice: busy to a smaller part, or as busy with more free memory on a GPU, or first by name. */
  predicate IsBetter(a: Node, busyA: int, b: Node, busyB: int) {
    var x, y := busyA * b.maxConcurrency, busyB * a.maxConcurrency;
    var v, w := AvailableVram(a.gpuFreeMB), AvailableVram(b.gpuFreeMB);
    x < y || (x == y && (v > w || (v == w && StringLess(a.id, b.id))))
  }

  lemma {:induction false} PreferredMeans(s: State, a: Node, b: Node)
    requires a.maxConcurrency >= 1 && b.maxConcurrency >= 1
    ensures Preferred(s, a, b) <==>
            IsBetter(a, Busy(a, ReservedFor(s.reservations, a.id)), b, Busy(b, ReservedFor(s.reservations, b.id)))
  {
    RatiosCompare(Active(s, a), a.maxConcurrency, Active(s, b), b.maxConcurrency);
  }

  function BusyIn(s: State, n: Node): int { Busy(n, ReservedFor(s.reservations, n.id)) }

  predicate ServesIn(s: State, n: Node, req: LeaseRequest, now: int) {
    CanServe(n, ReservedFor(s.reservations, n.id), req, now)
  }

  /** The node a lease goes to can serve it, and is a better choice than every other one that can. */
  lemma {:induction false} LeaseGoesToTheBest(s: State, req: LeaseRequest, now: int, best: Node, group: GroupRequest)
    requires Registered(s.nodes) && best.maxConcurrency >= 1 && IsBest(s, req, now, best)
    ensures best.id in s.nodes && s.nodes[best.id] == best && ServesIn(s, best, req, now)
    ensures forall k :: k in s.nodes && k != best.id && ServesIn(s, s.nodes[k], req, now) ==>
              IsBetter(best, BusyIn(s, best), s.nodes[k], BusyIn(s, s.nodes[k]))
  {
    EligibleMeans(s, best, req, group, now);
    forall k | k in s.nodes && k != best.id && ServesIn(s, s.nodes[k], req, now)
      ensures IsBetter(best, BusyIn(s, best), s.nodes[k], BusyIn(s, s.nodes[k]))
    {
      EligibleMeans(s, s.nodes[k], req, group, now);
      assert NodeFits(k, s.nodes[k]);
      PreferredMeans(s, best, s.nodes[k]);
    }
  }

  // ---------------------------------------------------------------- times

  /**
   * How long a lease token lives: longer when a model of known size may have to be uploaded first. Up
   * to six hours it leaves ten minutes more than an upload of 512 KiB per second takes.
   */
  function LeaseTtl(base: int, size: int): (ttl: int)
    ensures base <= ttl <= Max(base, 6 * 3600 * SECOND)
    ensures size <= 0 ==> ttl == base
    ensures size > 0 && ttl < 6 * 3600 * SECOND ==> size < ((ttl - 600 * SECOND) / SECOND + 1) * (512 * 1024)
    ensures ttl > base ==> ttl - 600 * SECOND <= size / (512 * 1024) * SECOND
  {
    if size > 0 then Max(base, Min(size / (512 * 1024) * SECOND + 600 * SECOND, 6 * 3600 * SECOND)) else base
  }

  /**
   * A reservation never outlives its token, issued a little earlier and with an expiry in whole seconds,
   * nor fifteen minutes.
   */
  function LeaseExpiry(issuedAt: int, reservedAt: int, ttl: int): (e: int)
    ensures e <= reservedAt + RESERVATION_TTL && e <= issuedAt + ttl
    ensures e == reservedAt + RESERVATION_TTL || e > issuedAt + ttl - SECOND
  {
    Min(reservedAt + RESERVATION_TTL, (issuedAt + ttl) / SECOND * SECOND)
  }

  predicate ValidScope(scope: string) { scope == "" || scope == "local" || scope == "remote" }

  predicate ValidModel(model: string, digest: string, size: int, format: string) {
    model != "" && (digest == "" || (|digest| == 64 && size > 0 && format == "gguf"))
  }

  /** IssueStage's own check of what it is asked to sign. */
  predicate StageClaimsValid(groupId: string, index: int, layerStart: int, layerEnd: int) {
    !(groupId == "" || index < 0 || layerStart < 0 || layerEnd <= layerStart)
  }

  /** The request's layer sizes, or an even spread of the model size. */
  ghost predicate LayersFor(req: GroupRequest, layerBytes: seq<int>) {
    if |req.layerBytes| > 0 then layerBytes == req.layerBytes && |layerBytes| == req.layerCount
    else IsSpread(layerBytes, req.layerCount, req.size)
  }

  ghost predicate IsCandidate(s: State, req: GroupRequest, now: int, c: Candidate)
    requires Registered(s.nodes)
  {
    && c.nodeId in s.nodes && GroupEligible(s, s.nodes[c.nodeId], req, now)
    && var n := s.nodes[c.nodeId];
       c == Candidate(c.nodeId, n.stageEndpoint, MemoryCapacity(n), Load(s, n))
  }

  predicate Listed(cs: seq<Candidate>, id: string) { exists i :: 0 <= i < |cs| && cs[i].nodeId == id }

  /** The candidates are the eligible nodes, each once, in some order. */
  ghost predicate AreCandidates(s: State, req: GroupRequest, now: int, cs: seq<Candidate>)
    requires Registered(s.nodes)
  {
    && DistinctIds(cs)
    && (forall i :: 0 <= i < |cs| ==> IsCandidate(s, req, now, cs[i]))
    && (forall k :: k in s.nodes && GroupEligible(s, s.nodes[k], req, now) ==> Listed(cs, k))
  }

  /** What a candidate says about its node: free GPU memory, or else free memory, or else memory; and its load. */
  predicate Describes(c: Candidate, n: Node, busy: int) {
    && c.nodeId == n.id && c.endpoint == n.stageEndpoint && c.load * n.maxConcurrency as real == busy as real
    && (if exists g :: g in n.gpuFreeMB && g > 0 then
          c.capacity in n.gpuFreeMB && forall g :: g in n.gpuFreeMB ==> g <= c.capacity
        else c.capacity == if n.memoryFreeMB > 0 then n.memoryFreeMB else n.memoryMB)
  }

  lemma {:induction false} CandidateDescribes(s: State, n: Node, c: Candidate)
    requires n.maxConcurrency >= 1 && c == Candidate(n.id, n.stageEndpoint, MemoryCapacity(n), Load(s, n))
    ensures Describes(c, n, BusyIn(s, n))
  {
    assert Load(s, n) * n.maxConcurrency as real == Active(s, n) as real;
  }

  /** The candidates of a group are exactly the nodes that can join it, each described as it is. */
  lemma {:induction false} CandidatesMean(
    s: State, req: GroupRequest, now: int, cs: seq<Candidate>, k: string, any: LeaseRequest)
    requires Registered(s.nodes) && AreCandidates(s, req, now, cs) && k in s.nodes
    ensures Listed(cs, k) <==> CanJoin(s.nodes[k], ReservedFor(s.reservations, k), req, now)
    ensures forall i :: 0 <= i < |cs| && cs[i].nodeId == k ==> Describes(cs[i], s.nodes[k], BusyIn(s, s.nodes[k]))
  {
    assert NodeFits(k, s.nodes[k]);
    EligibleMeans(s, s.nodes[k], any, req, now);
    forall i | 0 <= i < |cs| && cs[i].nodeId == k
      ensures GroupEligible(s, s.nodes[k], req, now) && Describes(cs[i], s.nodes[k], BusyIn(s, s.nodes[k]))
    {
      assert IsCandidate(s, req, now, cs[i]);
      CandidateDescribes(s, s.nodes[k], cs[i]);
    }
  }

  function NodeIds(stages: seq<Stage>): (ids: seq<string>)
    ensures |ids| == |stages|
  {
    seq(|stages|, i requires 0 <= i < |stages| => stages[i].nodeId)
  }
}
