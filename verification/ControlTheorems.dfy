/** What the control plane keeps across every sequence of operations. */
module ControlTheorems {
  import opened Prelude
  import opened Planner
  import opened PlannerTheorems
  import opened Control
  import opened ControlServer

  /**
   * The state with its history: every identifier ever issued, the reservations of every group ever
   * created, and the largest limit each node has registered.
   */
  datatype World = World(s: State, issued: set<string>, created: map<string, seq<string>>, peak: map<string, int>)

  datatype Step =
    | Registering(node: Node)
    | Sweeping(now: int)
    | Granting(now: int, nonce: string, nodeId: string, expires: int)
    | Releasing(id: string)
    | Creating(now: int, groupId: string, ids: seq<string>, nodeIds: seq<string>, expires: int)
    | Dropping(groupId: string)
    | Renewing(groupId: string, now: int)

  function Peak(w: World, nodeId: string): int { if nodeId in w.peak then w.peak[nodeId] else 0 }

  /** A node may take one more reservation. */
  predicate HasRoom(s: State, nodeId: string) {
    nodeId in s.nodes && Active(s, s.nodes[nodeId]) < s.nodes[nodeId].maxConcurrency
  }

  predicate Distinct(ids: seq<string>) { forall i, j :: 0 <= i < j < |ids| ==> ids[i] != ids[j] }

  /**
   * When a step can happen. Identifiers are drawn fresh, and nobody releases a live group's
   * reservation as if it were a lease.
   */
  ghost predicate Allowed(w: World, step: Step) {
    match step
    case Registering(node) => NodeFits(node.id, node)
    case Granting(now, nonce, nodeId, _) => HasRoom(Sweep(w.s, now), nodeId) && nonce !in w.issued
    case Releasing(id) => forall g :: g in w.s.groups ==> id !in w.s.groups[g].reservationIds
    case Creating(now, groupId, ids, nodeIds, _) =>
      && groupId !in w.created && 0 < |ids| == |nodeIds| && Distinct(ids) && Distinct(nodeIds)
      && (forall id :: id in ids ==> id !in w.issued)
      && (forall n :: n in nodeIds ==> HasRoom(Sweep(w.s, now), n))
    case _ => true
  }

  function Apply(w: World, step: Step): World
    requires step.Creating? ==> |step.ids| == |step.nodeIds|
  {
    match step
    case Registering(node) =>
      w.(s := w.s.(nodes := w.s.nodes[node.id := node]),
         peak := w.peak[node.id := Max(Peak(w, node.id), node.maxConcurrency)])
    case Sweeping(now) => w.(s := Sweep(w.s, now))
    case Granting(now, nonce, nodeId, expires) =>
      w.(s := Grant(Sweep(w.s, now), nonce, nodeId, expires), issued := w.issued + {nonce})
    case Releasing(id) => w.(s := w.s.(reservations := w.s.reservations - {id}))
    case Creating(now, groupId, ids, nodeIds, expires) =>
      w.(s := AddGroup(Sweep(w.s, now), groupId, ids, nodeIds, expires), issued := w.issued + IdSet(ids),
         created := w.created[groupId := ids])
    case Dropping(groupId) => w.(s := DropGroup(w.s, groupId))
    case Renewing(groupId, now) => w.(s := RenewGroup(w.s, groupId, now))
  }

  const EMPTY: World := World(State(map[], map[], map[]), {}, map[], map[])

  // ---------------------------------------------------------------- the invariant

  /** All the reservations are there, with this expiry. */
  predicate AllLive(reservations: map<string, Reservation>, ids: seq<string>, expires: int) {
    forall id :: id in ids ==> id in reservations && reservations[id].expiresAt == expires
  }

  predicate NoneLive(reservations: map<string, Reservation>, ids: seq<string>) {
    forall id :: id in ids ==> id !in reservations
  }

  /** A group ever created is live with all its reservations, or gone without a trace. */
  predicate Atomic(s: State, g: string, ids: seq<string>) {
    if g in s.groups then s.groups[g].reservationIds == ids && AllLive(s.reservations, ids, s.groups[g].expiresAt)
    else NoneLive(s.reservations, ids)
  }

  predicate Known(w: World, g: string) {
    g in w.created ==> 0 < |w.created[g]| && IdSet(w.created[g]) <= w.issued && Atomic(w.s, g, w.created[g])
  }

  predicate Apart(w: World, g: string, h: string) {
    g in w.created && h in w.created && g != h ==> IdSet(w.created[g]) !! IdSet(w.created[h])
  }

  /** The node's reservations, and its current limit, are within the largest limit it has registered. */
  predicate Capped(w: World, n: string) {
    ReservedFor(w.s.reservations, n) <= Peak(w, n) && (n in w.s.nodes ==> w.s.nodes[n].maxConcurrency <= Peak(w, n))
  }

  ghost predicate Grouped(w: World) {
    && (forall g :: Known(w, g)) && (forall g, h :: Apart(w, g, h))
    && w.s.groups.Keys <= w.created.Keys && w.s.reservations.Keys <= w.issued
  }

  /** The stored nodes are as registered, and every node is within its cap. */
  ghost predicate CapsHold(w: World) {
    Registered(w.s.nodes) && forall n :: Capped(w, n)
  }

  ghost predicate Invariant(w: World) { Grouped(w) && CapsHold(w) }

  // ---------------------------------------------------------------- groups

  /** A sweep takes a group and its reservations together, or neither. */
  lemma {:induction false} SweepKeepsGroups(w: World, now: int)
    requires Grouped(w)
    ensures Grouped(w.(s := Sweep(w.s, now)))
  {
    var v := w.(s := Sweep(w.s, now));
    forall g ensures Known(v, g) {
      assert Known(w, g);
    }
    forall g, h ensures Apart(v, g, h) {
      assert Apart(w, g, h);
    }
  }

  lemma {:induction false} GrantKeepsGroups(w: World, nonce: string, nodeId: string, expires: int)
    requires Grouped(w) && nonce !in w.issued
    ensures Grouped(w.(s := Grant(w.s, nonce, nodeId, expires), issued := w.issued + {nonce}))
  {
    var v := w.(s := Grant(w.s, nonce, nodeId, expires), issued := w.issued + {nonce});
    forall g ensures Known(v, g) {
      assert Known(w, g);
      assert g in w.created ==> nonce !in IdSet(w.created[g]);
    }
    forall g, h ensures Apart(v, g, h) {
      assert Apart(w, g, h);
    }
  }

  lemma {:induction false} ReleaseKeepsGroups(w: World, id: string)
    requires Grouped(w) && forall g :: g in w.s.groups ==> id !in w.s.groups[g].reservationIds
    ensures Grouped(w.(s := w.s.(reservations := w.s.reservations - {id})))
  {
    var v := w.(s := w.s.(reservations := w.s.reservations - {id}));
    forall g ensures Known(v, g) {
      assert Known(w, g);
    }
    forall g, h ensures Apart(v, g, h) {
      assert Apart(w, g, h);
    }
  }

  lemma {:induction false} DropKeepsGroups(w: World, groupId: string)
    requires Grouped(w)
    ensures Grouped(w.(s := DropGroup(w.s, groupId)))
  {
    var v := w.(s := DropGroup(w.s, groupId));
    assert Known(w, groupId);
    forall g ensures Known(v, g) {
      assert Known(w, g);
      assert Apart(w, g, groupId);
    }
    forall g, h ensures Apart(v, g, h) {
      assert Apart(w, g, h);
    }
  }

  lemma {:induction false} ExtendKeepsGroups(w: World, groupId: string, expires: int)
    requires Grouped(w) && groupId in w.s.groups
    ensures var ids := w.s.groups[groupId].reservationIds;
            Grouped(w.(s := w.s.(groups := w.s.groups[groupId := Group(ids, expires)],
                                 reservations := Extend(w.s.reservations, IdSet(ids), expires))))
  {
    var ids := w.s.groups[groupId].reservationIds;
    var v := w.(s := w.s.(groups := w.s.groups[groupId := Group(ids, expires)],
                          reservations := Extend(w.s.reservations, IdSet(ids), expires)));
    assert Known(w, groupId);
    forall g ensures Known(v, g) {
      assert Known(w, g);
      assert Apart(w, g, groupId);
    }
    forall g, h ensures Apart(v, g, h) {
      assert Apart(w, g, h);
    }
  }

  /** What a group's reservations look like once they are made. */
  lemma {:induction false} ReserveAdds(
    reservations: map<string, Reservation>, ids: seq<string>, nodeIds: seq<string>, expires: int, n: nat)
    requires n <= |ids| == |nodeIds| && Distinct(ids)
    ensures var r := Reserve(reservations, ids, nodeIds, expires, n);
            && r.Keys == reservations.Keys + IdSet(ids[..n])
            && (forall id :: id in reservations && id !in ids[..n] ==> r[id] == reservations[id])
            && AllLive(r, ids[..n], expires)
  {
    if n > 0 {
      ReserveAdds(reservations, ids, nodeIds, expires, n - 1);
      assert ids[..n] == ids[..n - 1] + [ids[n - 1]];
    }
  }

  lemma {:induction false} CreateKeepsGroups(
    w: World, groupId: string, ids: seq<string>, nodeIds: seq<string>, expires: int)
    requires Grouped(w) && groupId !in w.created && 0 < |ids| == |nodeIds| && Distinct(ids)
    requires forall id :: id in ids ==> id !in w.issued
    ensures Grouped(w.(s := AddGroup(w.s, groupId, ids, nodeIds, expires), issued := w.issued + IdSet(ids),
                       created := w.created[groupId := ids]))
  {
    var v := w.(s := AddGroup(w.s, groupId, ids, nodeIds, expires), issued := w.issued + IdSet(ids),
                created := w.created[groupId := ids]);
    ReserveAdds(w.s.reservations, ids, nodeIds, expires, |ids|);
    assert ids[..|ids|] == ids;
    forall g ensures Known(v, g) {
      assert Known(w, g);
      assert g in w.created ==> IdSet(w.created[g]) !! IdSet(ids);
    }
    forall g, h ensures Apart(v, g, h) {
      assert Apart(w, g, h) && Known(w, g) && Known(w, h);
    }
  }

  // ---------------------------------------------------------------- capacity

  lemma {:induction false} FewerHeld(small: map<string, Reservation>, big: map<string, Reservation>, n: string)
    requires small.Keys <= big.Keys && forall id :: id in small ==> small[id].nodeId == big[id].nodeId
    ensures ReservedFor(small, n) <= ReservedFor(big, n)
  {
    assert HeldBy(big, n) == HeldBy(small, n) + (HeldBy(big, n) - HeldBy(small, n));
  }

  lemma {:induction false} OneMoreHeld(reservations: map<string, Reservation>, id: string, r: Reservation, n: string)
    requires id !in reservations
    ensures ReservedFor(reservations[id := r], n) == ReservedFor(reservations, n) + (if n == r.nodeId then 1 else 0)
  {
    var after := HeldBy(reservations[id := r], n);
    if n == r.nodeId {
      assert after == HeldBy(reservations, n) + {id};
    } else {
      assert after == HeldBy(reservations, n);
    }
  }

  /** A group adds exactly one reservation on each of its nodes, and none elsewhere. */
  lemma {:induction false} GroupAddsOneEach(
    reservations: map<string, Reservation>, ids: seq<string>, nodeIds: seq<string>, expires: int, n: nat, node: string)
    requires n <= |ids| == |nodeIds| && Distinct(ids) && Distinct(nodeIds)
    requires forall id :: id in ids ==> id !in reservations
    ensures ReservedFor(Reserve(reservations, ids, nodeIds, expires, n), node)
         == ReservedFor(reservations, node) + (if node in nodeIds[..n] then 1 else 0)
  {
    if n > 0 {
      GroupAddsOneEach(reservations, ids, nodeIds, expires, n - 1, node);
      ReserveAdds(reservations, ids, nodeIds, expires, n - 1);
      var before := Reserve(reservations, ids, nodeIds, expires, n - 1);
      assert ids[n - 1] in ids && ids[n - 1] !in ids[..n - 1];
      OneMoreHeld(before, ids[n - 1], Reservation(nodeIds[n - 1], expires), node);
      assert nodeIds[..n] == nodeIds[..n - 1] + [nodeIds[n - 1]];
      assert nodeIds[n - 1] !in nodeIds[..n - 1];
    }
  }

  /** Changes that make no reservation keep every node within its cap. */
  lemma {:induction false} ShrinkingKeepsCaps(w: World, t: State)
    requires forall n :: Capped(w, n)
    requires t.nodes == w.s.nodes && t.reservations.Keys <= w.s.reservations.Keys
    requires forall id :: id in t.reservations ==> t.reservations[id].nodeId == w.s.reservations[id].nodeId
    ensures forall n :: Capped(w.(s := t), n)
  {
    forall n ensures Capped(w.(s := t), n) {
      assert Capped(w, n);
      FewerHeld(t.reservations, w.s.reservations, n);
    }
  }

  /** A reservation, under a new identifier or one in use, adds at most one on its node and none elsewhere. */
  lemma {:induction false} AtMostOneMoreHeld(
    reservations: map<string, Reservation>, id: string, r: Reservation, n: string)
    ensures ReservedFor(reservations[id := r], n) <= ReservedFor(reservations, n) + (if n == r.nodeId then 1 else 0)
  {
    FewerHeld(reservations - {id}, reservations, n);
    OneMoreHeld(reservations - {id}, id, r, n);
    assert (reservations - {id})[id := r] == reservations[id := r];
  }

  lemma {:induction false} GroupAddsAtMostOneEach(
    reservations: map<string, Reservation>, ids: seq<string>, nodeIds: seq<string>, expires: int, n: nat, node: string)
    requires n <= |ids| == |nodeIds| && Distinct(nodeIds)
    ensures ReservedFor(Reserve(reservations, ids, nodeIds, expires, n), node)
         <= ReservedFor(reservations, node) + (if node in nodeIds[..n] then 1 else 0)
  {
    if n > 0 {
      GroupAddsAtMostOneEach(reservations, ids, nodeIds, expires, n - 1, node);
      var before := Reserve(reservations, ids, nodeIds, expires, n - 1);
      AtMostOneMoreHeld(before, ids[n - 1], Reservation(nodeIds[n - 1], expires), node);
      assert nodeIds[..n] == nodeIds[..n - 1] + [nodeIds[n - 1]];
      assert nodeIds[n - 1] !in nodeIds[..n - 1];
    }
  }

  lemma {:induction false} GrantKeepsCaps(w: World, nonce: string, nodeId: string, expires: int, v: World)
    requires CapsHold(w) && HasRoom(w.s, nodeId)
    requires v.s == Grant(w.s, nonce, nodeId, expires) && v.peak == w.peak
    ensures CapsHold(v)
  {
    assert NodeFits(nodeId, w.s.nodes[nodeId]);
    forall n ensures Capped(v, n) {
      assert Capped(w, n);
      AtMostOneMoreHeld(w.s.reservations, nonce, Reservation(nodeId, expires), n);
    }
  }

  lemma {:induction false} CreateKeepsCaps(
    w: World, groupId: string, ids: seq<string>, nodeIds: seq<string>, expires: int, v: World)
    requires CapsHold(w) && |ids| == |nodeIds| && Distinct(nodeIds)
    requires forall n :: n in nodeIds ==> HasRoom(w.s, n)
    requires v.s == AddGroup(w.s, groupId, ids, nodeIds, expires) && v.peak == w.peak
    ensures CapsHold(v)
  {
    forall n ensures Capped(v, n) {
      assert Capped(w, n);
      GroupAddsAtMostOneEach(w.s.reservations, ids, nodeIds, expires, |ids|, n);
      assert nodeIds[..|ids|] == nodeIds;
      if n in nodeIds {
        assert HasRoom(w.s, n);
        assert NodeFits(n, w.s.nodes[n]);
      }
    }
  }

  lemma {:induction false} RegisterKeepsCaps(w: World, node: Node)
    requires CapsHold(w) && NodeFits(node.id, node)
    ensures CapsHold(Apply(w, Registering(node)))
  {
    var v := Apply(w, Registering(node));
    forall n ensures Capped(v, n) {
      assert Capped(w, n);
    }
  }

  /**
   * When a step can happen at all: whatever identifiers are drawn, used before or not, and whatever is
   * released. A failed creation with identifiers in use is a sweep and the release of those identifiers.
   */
  ghost predicate Possible(w: World, step: Step) {
    match step
    case Registering(node) => NodeFits(node.id, node)
    case Granting(now, _, nodeId, _) => HasRoom(Sweep(w.s, now), nodeId)
    case Creating(now, _, ids, nodeIds, _) =>
      && |ids| == |nodeIds| && Distinct(nodeIds)
      && (forall n :: n in nodeIds ==> HasRoom(Sweep(w.s, now), n))
    case _ => true
  }

  /** Every step that can happen keeps every node within its cap. */
  lemma {:induction false} StepKeepsCaps(w: World, step: Step)
    requires CapsHold(w) && Possible(w, step)
    ensures CapsHold(Apply(w, step))
  {
    match step {
      case Registering(node) => RegisterKeepsCaps(w, node);
      case Granting(now, nonce, nodeId, expires) =>
        ShrinkingKeepsCaps(w, Sweep(w.s, now));
        GrantKeepsCaps(w.(s := Sweep(w.s, now)), nonce, nodeId, expires, Apply(w, step));
      case Creating(now, groupId, ids, nodeIds, expires) =>
        ShrinkingKeepsCaps(w, Sweep(w.s, now));
        CreateKeepsCaps(w.(s := Sweep(w.s, now)), groupId, ids, nodeIds, expires, Apply(w, step));
      case _ => ShrinkingKeepsCaps(w, Apply(w, step).s);
    }
  }

  /** w becomes v by steps that can happen. */
  ghost predicate Becomes(w: World, steps: seq<Step>, v: World)
    decreases |steps|
  {
    if steps == [] then w == v
    else Possible(w, steps[0]) && Becomes(Apply(w, steps[0]), steps[1..], v)
  }

  lemma {:induction false} RunKeepsCaps(w: World, steps: seq<Step>, v: World)
    requires CapsHold(w) && Becomes(w, steps, v)
    ensures CapsHold(v)
    decreases |steps|
  {
    if steps != [] {
      StepKeepsCaps(w, steps[0]);
      RunKeepsCaps(Apply(w, steps[0]), steps[1..], v);
    }
  }

  // ---------------------------------------------------------------- every step, every run

  lemma {:induction false} RegisterKeepsGroups(w: World, node: Node)
    requires Grouped(w)
    ensures Grouped(Apply(w, Registering(node)))
  {
    var v := Apply(w, Registering(node));
    forall g ensures Known(v, g) {
      assert Known(w, g);
    }
    forall g, h ensures Apart(v, g, h) {
      assert Apart(w, g, h);
    }
  }

  lemma {:induction false} RenewKeepsGroups(w: World, groupId: string, now: int)
    requires Grouped(w)
    ensures Grouped(w.(s := RenewGroup(w.s, groupId, now)))
  {
    SweepKeepsGroups(w, now);
    var v := w.(s := Sweep(w.s, now));
    if groupId in v.s.groups {
      ExtendKeepsGroups(v, groupId, now + RESERVATION_TTL);
    }
  }

  /** Every allowed step keeps groups whole. */
  lemma {:induction false} StepKeepsGroups(w: World, step: Step)
    requires Grouped(w) && Allowed(w, step)
    ensures Grouped(Apply(w, step))
  {
    match step {
      case Registering(node) => RegisterKeepsGroups(w, node);
      case Sweeping(now) => SweepKeepsGroups(w, now);
      case Granting(now, nonce, nodeId, expires) =>
        SweepKeepsGroups(w, now);
        GrantKeepsGroups(w.(s := Sweep(w.s, now)), nonce, nodeId, expires);
      case Releasing(id) => ReleaseKeepsGroups(w, id);
      case Creating(now, groupId, ids, nodeIds, expires) =>
        SweepKeepsGroups(w, now);
        CreateKeepsGroups(w.(s := Sweep(w.s, now)), groupId, ids, nodeIds, expires);
      case Dropping(groupId) => DropKeepsGroups(w, groupId);
      case Renewing(groupId, now) => RenewKeepsGroups(w, groupId, now);
    }
  }

  lemma {:induction false} StepKeepsInvariant(w: World, step: Step)
    requires Invariant(w) && Allowed(w, step)
    ensures Invariant(Apply(w, step))
  {
    StepKeepsGroups(w, step);
    StepKeepsCaps(w, step);
  }

  /** w can become v by allowed steps. */
  ghost predicate Reaches(w: World, steps: seq<Step>, v: World)
    decreases |steps|
  {
    if steps == [] then w == v
    else Allowed(w, steps[0]) && Reaches(Apply(w, steps[0]), steps[1..], v)
  }

  lemma {:induction false} InvariantHolds(w: World, steps: seq<Step>, v: World)
    requires Invariant(w) && Reaches(w, steps, v)
    ensures Invariant(v)
    decreases |steps|
  {
    if steps != [] {
      StepKeepsInvariant(w, steps[0]);
      InvariantHolds(Apply(w, steps[0]), steps[1..], v);
    }
  }

  lemma {:induction false} EmptyIsFine()
    ensures Invariant(EMPTY)
  {
  }

  /**
   * In every run, a group that was ever created is on record exactly when all of its reservations are
   * held, then with its own expiry; otherwise none of them is.
   */
  lemma {:induction false} GroupsAreAtomic(steps: seq<Step>, w: World, g: string)
    requires Reaches(EMPTY, steps, w) && g in w.created
    ensures g in w.s.groups <==> forall id :: id in w.created[g] ==> id in w.s.reservations
    ensures g in w.s.groups ==> AllLive(w.s.reservations, w.created[g], w.s.groups[g].expiresAt)
    ensures g !in w.s.groups ==> NoneLive(w.s.reservations, w.created[g])
  {
    EmptyIsFine();
    InvariantHolds(EMPTY, steps, w);
    assert Known(w, g);
    assert w.created[g][0] in w.created[g];
  }

  /**
   * In every run whatever, with any identifiers and any releases, a node never holds more reservations
   * than the largest limit it has registered.
   */
  lemma {:induction false} ReservationsAreCapped(steps: seq<Step>, w: World, n: string)
    requires Becomes(EMPTY, steps, w)
    ensures ReservedFor(w.s.reservations, n) <= Peak(w, n)
  {
    EmptyIsFine();
    RunKeepsCaps(EMPTY, steps, w);
    assert Capped(w, n);
  }

  /** Releasing an identifier as a lease leaves all groups whole exactly when it belongs to no live group. */
  lemma {:induction false} ReleaseIsSafeExactly(w: World, id: string)
    requires Grouped(w)
    ensures Grouped(w.(s := w.s.(reservations := w.s.reservations - {id}))) <==>
            forall g :: g in w.s.groups ==> id !in w.s.groups[g].reservationIds
  {
    var v := w.(s := w.s.(reservations := w.s.reservations - {id}));
    if forall g :: g in w.s.groups ==> id !in w.s.groups[g].reservationIds {
      ReleaseKeepsGroups(w, id);
    } else {
      var g :| g in w.s.groups && id in w.s.groups[g].reservationIds;
      assert Known(w, g);
      assert !Known(v, g);
    }
  }

  /** A node with the given ID, able to take part in groups. */
  function Worker(id: string): Node {
    Node(id, "http", ["m"], [8], 0, 0, true, true, true, "local", 1, 0, true, "tcp", 0)
  }

  /** The world after two registrations. */
  const READY: World := World(
    State(map["x" := Worker("x"), "y" := Worker("y")], map[], map[]), {}, map[], map["x" := 1, "y" := 1])

  /** The world after a group of both nodes has been created. */
  const PAIRED: World := World(
    State(
      READY.s.nodes,
      map["a" := Reservation("x", RESERVATION_TTL), "b" := Reservation("y", RESERVATION_TTL)],
      map["g" := Group(["a", "b"], RESERVATION_TTL)]),
    {"a", "b"}, map["g" := ["a", "b"]], READY.peak)

  const CREATE: Step := Creating(0, "g", ["a", "b"], ["x", "y"], RESERVATION_TTL)

  lemma {:induction false} WorkersRegister()
    ensures Reaches(EMPTY, [Registering(Worker("x")), Registering(Worker("y"))], READY)
  {
    var steps := [Registering(Worker("x")), Registering(Worker("y"))];
    var w := Apply(EMPTY, steps[0]);
    assert Apply(w, steps[1]) == READY;
    assert Reaches(READY, [], READY);
    assert steps[1..] == [steps[1]] && steps[1..][1..] == [];
    assert Reaches(w, steps[1..], READY);
  }

  lemma {:induction false} ReservesBoth()
    ensures Reserve(map[], ["a", "b"], ["x", "y"], RESERVATION_TTL, 2) == PAIRED.s.reservations
  {
    assert Reserve(map[], ["a", "b"], ["x", "y"], RESERVATION_TTL, 0) == map[];
    assert Reserve(map[], ["a", "b"], ["x", "y"], RESERVATION_TTL, 1) == map["a" := Reservation("x", RESERVATION_TTL)];
  }

  lemma {:induction false} WorkersHaveRoom(n: string)
    requires n in READY.s.nodes
    ensures HasRoom(READY.s, n)
  {
    assert HeldBy(map[], n) == {};
  }

  lemma {:induction false} PairIsCreated()
    ensures Allowed(READY, CREATE) && Apply(READY, CREATE) == PAIRED
  {
    assert Sweep(READY.s, 0) == READY.s;
    WorkersHaveRoom("x");
    WorkersHaveRoom("y");
    ReservesBoth();
    assert IdSet(["a", "b"]) == {"a", "b"};
  }

  /** One more step at the end of a run. */
  lemma {:induction false} ReachesMore(w: World, steps: seq<Step>, v: World, step: Step)
    requires Reaches(w, steps, v) && Allowed(v, step)
    ensures Reaches(w, steps + [step], Apply(v, step))
    decreases |steps|
  {
    if steps == [] {
      assert [step][1..] == [];
      assert Reaches(Apply(v, step), [], Apply(v, step));
    } else {
      assert (steps + [step])[1..] == steps[1..] + [step];
      ReachesMore(Apply(w, steps[0]), steps[1..], v, step);
    }
  }

  /**
   * A live group can be broken: in a world that two registrations and one creation lead to, releasing
   * "a" as a lease leaves the group on record with only one of its two reservations.
   */
  lemma {:induction false} ReleaseBreaksALiveGroup()
    ensures Reaches(EMPTY, [Registering(Worker("x")), Registering(Worker("y"))] + [CREATE], PAIRED)
    ensures Invariant(PAIRED) && "g" in PAIRED.s.groups
    ensures var after := Apply(PAIRED, Releasing("a")).s;
            && "g" in after.groups && "a" !in after.reservations && "b" in after.reservations
            && !Atomic(after, "g", PAIRED.created["g"])
    ensures Possible(PAIRED, Releasing("a")) && !Allowed(PAIRED, Releasing("a"))
  {
    WorkersRegister();
    PairIsCreated();
    ReachesMore(EMPTY, [Registering(Worker("x")), Registering(Worker("y"))], READY, CREATE);
    EmptyIsFine();
    InvariantHolds(EMPTY, [Registering(Worker("x")), Registering(Worker("y"))] + [CREATE], PAIRED);
    assert "a" in PAIRED.created["g"];
  }

  /**
   * No run brings a group back: once it has expired or been released, neither a renewal nor anything
   * else puts it or one of its reservations on record again.
   */
  lemma {:induction false} GoneGroupsStayGone(w: World, steps: seq<Step>, v: World, g: string)
    requires Invariant(w) && Reaches(w, steps, v) && g in w.created && g !in w.s.groups
    ensures g in v.created && v.created[g] == w.created[g]
    ensures g !in v.s.groups && NoneLive(v.s.reservations, w.created[g])
    decreases |steps|
  {
    if steps == [] {
      assert Known(w, g);
    } else {
      StepKeepsInvariant(w, steps[0]);
      GoneGroupsStayGone(Apply(w, steps[0]), steps[1..], v, g);
    }
  }

  /** The clock reading of a step that takes one. */
  function Clock(step: Step): Option<int> {
    match step
    case Sweeping(now) => Some(now)
    case Granting(now, _, _, _) => Some(now)
    case Creating(now, _, _, _, _) => Some(now)
    case Renewing(_, now) => Some(now)
    case _ => None
  }

  /** A step whose clock has passed a group's expiry leaves the group off the record, even a renewal of it. */
  lemma {:induction false} ExpiredGroupGoes(w: World, step: Step, now: int, g: string)
    requires Invariant(w) && Allowed(w, step) && Clock(step) == Some(now) && g in w.created
    requires g in w.s.groups ==> w.s.groups[g].expiresAt <= now
    ensures g !in Apply(w, step).s.groups
  {
    SweepMeans(w.s, now);
    assert IsSweptGroup(w.s.groups, now, Sweep(w.s, now).groups, g);
    if step.Renewing? {
      RenewMeans(w.s, step.groupId, now);
      if step.groupId != g {
        assert IsSweptGroup(w.s.groups, now, RenewGroup(w.s, step.groupId, now).groups, g);
      }
    }
  }

  /**
   * Expiry is final: once any step's clock has passed a group's expiry, neither the group nor any of its
   * reservations is on record again, whatever is renewed, granted or created after that.
   */
  lemma {:induction false} ExpiredGroupsNeverReturn(
    w: World, step: Step, now: int, steps: seq<Step>, v: World, g: string)
    requires Invariant(w) && Allowed(w, step) && Clock(step) == Some(now) && g in w.created
    requires g in w.s.groups ==> w.s.groups[g].expiresAt <= now
    requires Reaches(Apply(w, step), steps, v)
    ensures g !in v.s.groups && NoneLive(v.s.reservations, w.created[g])
  {
    ExpiredGroupGoes(w, step, now, g);
    StepKeepsInvariant(w, step);
    GoneGroupsStayGone(Apply(w, step), steps, v, g);
  }

  lemma {:induction false} ReserveMeans(
    reservations: map<string, Reservation>, ids: seq<string>, nodeIds: seq<string>, expires: int, n: nat)
    requires n <= |ids| == |nodeIds| && Distinct(ids)
    ensures var after := Reserve(reservations, ids, nodeIds, expires, n);
            && (forall i :: 0 <= i < n ==> ids[i] in after && after[ids[i]] == Reservation(nodeIds[i], expires))
            && (forall id :: id !in ids ==> (id in after <==> id in reservations))
            && (forall id :: id !in ids && id in after ==> after[id] == reservations[id])
  {
    if n > 0 {
      ReserveMeans(reservations, ids, nodeIds, expires, n - 1);
    }
  }

  /** A created group is on record for fifteen minutes with one reservation per stage, on its node. */
  lemma {:induction false} CreationMeans(
    s: State, now: int, groupId: string, ids: seq<string>, nodeIds: seq<string>, expires: int)
    requires |ids| == |nodeIds| && Distinct(ids)
    ensures var t := AddGroup(Sweep(s, now), groupId, ids, nodeIds, expires);
            && IsSwept(s, now, t, IdSet(ids), {groupId})
            && groupId in t.groups && t.groups[groupId] == Group(ids, expires)
            && forall i :: 0 <= i < |ids| ==>
                 ids[i] in t.reservations && t.reservations[ids[i]] == Reservation(nodeIds[i], expires)
  {
    SweepMeans(s, now);
    var swept := Sweep(s, now);
    ReserveMeans(swept.reservations, ids, nodeIds, expires, |ids|);
    var t := AddGroup(swept, groupId, ids, nodeIds, expires);
    forall id | id !in IdSet(ids) ensures IsSweptEntry(s.reservations, now, t.reservations, id) {
      assert IsSweptEntry(s.reservations, now, swept.reservations, id);
    }
    forall g | g !in {groupId} ensures IsSweptGroup(s.groups, now, t.groups, g) {
      assert IsSweptGroup(s.groups, now, swept.groups, g);
    }
  }

  // ---------------------------------------------------------------- the server's operations are steps

  /** An accepted registration is an allowed step, under the requested ID. */
  lemma {:induction false} RegistrationIsAllowed(w: World, req: Node, authorized: bool, now: int)
    requires Accepted(req, authorized, now).Ok?
    ensures Allowed(w, Registering(Accepted(req, authorized, now).value))
    ensures Accepted(req, authorized, now).value.id == req.id
  {
  }

  /** A granted lease is an allowed step. */
  lemma {:induction false} GrantIsAllowed(
    w: World, req: LeaseRequest, now: int, best: Node, nonce: string, expires: int)
    requires Invariant(w) && nonce !in w.issued && best.maxConcurrency >= 1 && IsBest(Sweep(w.s, now), req, now, best)
    ensures Allowed(w, Granting(now, nonce, best.id, expires))
  {
  }

  lemma {:induction false} TwiceInMultiset<T>(s: seq<T>, i: nat, j: nat)
    requires i < j < |s| && s[i] == s[j]
    ensures multiset(s)[s[i]] >= 2
  {
    assert s == s[..j] + s[j..];
    assert s[..j][i] == s[i] && s[j..][0] == s[i];
    assert s[i] in multiset(s[..j]) && s[i] in multiset(s[j..]);
  }

  lemma {:induction false} OnceInMultiset(cs: seq<Candidate>, x: Candidate)
    requires DistinctIds(cs)
    ensures multiset(cs)[x] <= 1
  {
    if cs != [] {
      var n := |cs| - 1;
      OnceInMultiset(cs[..n], x);
      assert cs == cs[..n] + [cs[n]];
      if x == cs[n] {
        assert x !in cs[..n];
      }
    }
  }

  lemma {:induction false} PermutedIdsAreDistinct(cs: seq<Candidate>, usable: seq<Candidate>, i: nat, j: nat)
    requires DistinctIds(cs) && multiset(usable) == multiset(cs) && i < j < |usable|
    ensures usable[i].nodeId != usable[j].nodeId
  {
    if usable[i].nodeId == usable[j].nodeId {
      DistinctIdsArePermutable(cs, usable);
      assert usable[i] == usable[j];
      TwiceInMultiset(usable, i, j);
      OnceInMultiset(cs, usable[i]);
    }
  }

  lemma {:induction false} CandidateHasRoom(s: State, req: GroupRequest, now: int, cs: seq<Candidate>, c: Candidate)
    requires Registered(s.nodes) && AreCandidates(s, req, now, cs) && c in cs
    ensures HasRoom(s, c.nodeId)
  {
    var k :| 0 <= k < |cs| && cs[k] == c;
    assert IsCandidate(s, req, now, cs[k]);
  }

  /** The state and the request fix the candidates, up to their order. */
  lemma {:induction false} CandidatesAreListed(
    s: State, req: GroupRequest, now: int, cs: seq<Candidate>, cs': seq<Candidate>, c: Candidate)
    requires Registered(s.nodes) && AreCandidates(s, req, now, cs) && AreCandidates(s, req, now, cs') && c in cs
    ensures c in cs'
  {
    var i :| 0 <= i < |cs| && cs[i] == c;
    assert IsCandidate(s, req, now, cs[i]);
    assert Listed(cs', c.nodeId);
    var j :| 0 <= j < |cs'| && cs'[j].nodeId == c.nodeId;
    assert IsCandidate(s, req, now, cs'[j]);
  }

  lemma {:induction false} CandidatesArePermuted(
    s: State, req: GroupRequest, now: int, cs: seq<Candidate>, cs': seq<Candidate>)
    requires Registered(s.nodes) && AreCandidates(s, req, now, cs) && AreCandidates(s, req, now, cs')
    ensures multiset(cs) == multiset(cs')
  {
    forall c ensures multiset(cs)[c] == multiset(cs')[c] {
      OnceInMultiset(cs, c);
      OnceInMultiset(cs', c);
      if c in cs {
        CandidatesAreListed(s, req, now, cs, cs', c);
        assert c in multiset(cs) && c in multiset(cs');
      } else if c in cs' {
        CandidatesAreListed(s, req, now, cs', cs, c);
      } else {
        assert c !in multiset(cs) && c !in multiset(cs');
      }
    }
  }

  /**
   * A creation is determined by the state and the request: the order in which the node map is iterated
   * changes neither the plan nor the error.
   */
  lemma {:induction false} GroupOutcomeIsDetermined(s: State, req: GroupRequest, now: int, r: Outcome, r': Outcome)
    requires Registered(s.nodes) && IsGroupOutcome(s, req, now, r) && IsGroupOutcome(s, req, now, r')
    ensures r == r'
  {
    var cs :| AreCandidates(s, req, now, cs) && IsGroupPlan(req, cs, r);
    var cs' :| AreCandidates(s, req, now, cs') && IsGroupPlan(req, cs', r');
    var bytes :| LayersFor(req, bytes) && IsPlanOf(cs, bytes, MinNodes(req), MaxNodes(req), r);
    var bytes' :| LayersFor(req, bytes') && IsPlanOf(cs', bytes', MinNodes(req), MaxNodes(req), r');
    CandidatesArePermuted(s, req, now, cs, cs');
    if |req.layerBytes| == 0 {
      SpreadIsUnique(bytes, bytes', req.layerCount, req.size);
    }
    PlanIgnoresCandidateOrder(cs, cs', bytes, MinNodes(req), MaxNodes(req), r, r');
  }

  /** A plan's nodes are some of the candidates, each once. */
  lemma {:induction false} PlannedNodesAreCandidates(req: GroupRequest, cs: seq<Candidate>, stages: seq<Stage>)
    returns (usable: seq<Candidate>)
    requires IsGroupPlan(req, cs, Ok(stages))
    ensures multiset(usable) == multiset(cs) && 2 <= |stages| <= |usable|
    ensures forall i :: 0 <= i < |stages| ==> stages[i].nodeId == usable[i].nodeId
  {
    var layerBytes :| LayersFor(req, layerBytes) && IsPlanOf(cs, layerBytes, MinNodes(req), MaxNodes(req), Ok(stages));
    usable :| IsSortOf(usable, cs) && IsOutcome(usable, layerBytes, MinNodes(req), MaxNodes(req), Ok(stages));
    PlanIsPartition(usable, layerBytes, MinNodes(req), MaxNodes(req), stages);
  }

  /** The nodes of a planned group are distinct and each can take its reservation. */
  lemma {:induction false} PlannedNodesHaveRoom(s: State, req: GroupRequest, now: int, stages: seq<Stage>)
    requires Registered(s.nodes) && IsGroupOutcome(s, req, now, Ok(stages))
    ensures Distinct(NodeIds(stages)) && |stages| >= 2
    ensures forall n :: n in NodeIds(stages) ==> HasRoom(s, n)
  {
    var cs :| AreCandidates(s, req, now, cs) && IsGroupPlan(req, cs, Ok(stages));
    var usable := PlannedNodesAreCandidates(req, cs, stages);
    forall i, j | 0 <= i < j < |stages| ensures NodeIds(stages)[i] != NodeIds(stages)[j] {
      PermutedIdsAreDistinct(cs, usable, i, j);
    }
    forall i | 0 <= i < |stages| ensures HasRoom(s, NodeIds(stages)[i]) {
      MemberOfPermutation(usable, cs, usable[i]);
      CandidateHasRoom(s, req, now, cs, usable[i]);
    }
  }

  /** A group has as many stages as the request allows: two by default, and no more than its minimum by default. */
  lemma {:induction false} GroupIsWithinLimits(s: State, req: GroupRequest, now: int, stages: seq<Stage>)
    requires Registered(s.nodes) && IsGroupOutcome(s, req, now, Ok(stages))
    ensures var least := if req.minNodes == 0 then 2 else req.minNodes;
            WithinLimits(|stages|, req.layerCount, least, if req.maxNodes == 0 then least else req.maxNodes)
    ensures req.layerBytes != [] ==>
              && StageBytes(stages, |stages|) == SumBytes(req.layerBytes, 0, |req.layerBytes|)
              && Contiguous(stages, |req.layerBytes|)
    ensures req.layerBytes == [] ==>
              StageBytes(stages, |stages|) == Max(req.size, 0) && Contiguous(stages, req.layerCount)
  {
    var cs :| AreCandidates(s, req, now, cs) && IsGroupPlan(req, cs, Ok(stages));
    var layerBytes :|
      LayersFor(req, layerBytes) && IsPlanOf(cs, layerBytes, MinNodes(req), MaxNodes(req), Ok(stages));
    var usable := PlanTakesTheBest(cs, layerBytes, MinNodes(req), MaxNodes(req), stages);
    PlanAddsUp(cs, layerBytes, MinNodes(req), MaxNodes(req), stages);
  }

  /** A created group is an allowed step, given fresh identifiers. */
  lemma {:induction false} CreateIsAllowed(
    w: World, req: GroupRequest, now: int, stages: seq<Stage>, groupId: string, ids: seq<string>, expires: int)
    requires Invariant(w) && groupId !in w.created && |ids| == |stages| && Distinct(ids)
    requires forall id :: id in ids ==> id !in w.issued
    requires IsGroupOutcome(Sweep(w.s, now), req, now, Ok(stages))
    ensures Allowed(w, Creating(now, groupId, ids, NodeIds(stages), expires))
  {
    PlannedNodesHaveRoom(Sweep(w.s, now), req, now, stages);
  }
}
