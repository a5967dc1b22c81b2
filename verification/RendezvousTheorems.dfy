/** What holds in every interleaving of relay handlers and expiry timers. */
module RendezvousTheorems {
  import opened Prelude
  import opened Rendezvous

  /**
   * Where a handler is: before its lock-held region; about to ask the peer to open its half; about to
   * take its record back; returned, with its half waiting; joined with its partner; relaying; ended.
   */
  datatype Pc = Entering | Opening | Unlinking | Parked | Joined(id: nat) | Relaying(id: nat) | Ended

  /**
   * homes records the pending record each connection was put into, starters the handler that found
   * a record complete. peers are the control connections present.
   */
  datatype Relays = Relays(
    table: Table, maxPending: int, peers: set<(string, Role)>, hellos: map<nat, Hello>, pcs: map<nat, Pc>,
    homes: map<nat, nat>, starters: map<nat, nat>)

  datatype Step =
    | Arrive(c: nat, hello: Hello)
    | Lock(c: nat)
    | WriteOpen(c: nat, ok: bool)
    | Unlink(c: nat)
    | WriteReady(c: nat, ok: bool)
    | Timer(key: string, id: nat)
    | Control(pair: string, role: Role, present: bool)

  function Start(maxPending: int): Relays {
    Relays(Table(map[], map[], 0), maxPending, {}, map[], map[], map[], map[])
  }

  predicate At(m: Relays, c: nat, pc: Pc) { c in m.pcs && m.pcs[c] == pc && c in m.hellos }

  function Move(m: Relays, c: nat, pc: Pc): Relays { m.(pcs := m.pcs[c := pc]) }

  /** The lock-held region of a stream handler and the branch it takes afterwards. */
  function Locked(m: Relays, c: nat): Relays
    requires c in m.hellos
  {
    var h := m.hellos[c];
    match Enter(m.table, m.maxPending, c, h)
    case (_, Refused) => Move(m, c, Ended)
    case (t, Waiting(id)) =>
      Move(m, c, if (h.pair, Peer(h.role)) in m.peers then Opening else Unlinking)
      .(table := t, homes := m.homes[c := id])
    case (t, Paired(id)) =>
      Move(m, c, Joined(id)).(table := t, homes := m.homes[c := id], starters := m.starters[id := c])
  }

  /** Steps that are not enabled change nothing. */
  function Next(m: Relays, s: Step): Relays {
    match s
    case Arrive(c, hello) =>
      if c in m.pcs || c in m.hellos || !ValidPair(hello.pair) then m
      else m.(hellos := m.hellos[c := hello], pcs := m.pcs[c := Entering])
    case Lock(c) => if At(m, c, Entering) then Locked(m, c) else m
    case WriteOpen(c, ok) => if At(m, c, Opening) then Move(m, c, if ok then Parked else Unlinking) else m
    case Unlink(c) =>
      if At(m, c, Unlinking) then Move(m, c, Ended).(table := Remove(m.table, KeyOf(m.hellos[c]), c)) else m
    case WriteReady(c, ok) =>
      if c in m.pcs && m.pcs[c].Joined? then Move(m, c, if ok then Relaying(m.pcs[c].id) else Ended) else m
    case Timer(key, id) => m.(table := Expire(m.table, key, id))
    case Control(pair, role, present) =>
      m.(peers := if present then m.peers + {(pair, role)} else m.peers - {(pair, role)})
  }

  function Run(m: Relays, steps: seq<Step>): Relays
    decreases |steps|
  {
    if steps == [] then m else Run(Next(m, steps[0]), steps[1..])
  }

  // ---------------------------------------------------------------- the invariant

  /** A connection on one side of a record arrived in that role, for that stream and target. */
  predicate SideFits(m: Relays, id: nat, c: nat, r: Role) {
    && id in m.table.pendings && c in m.hellos && c in m.homes && m.homes[c] == id
    && m.hellos[c].role == r && ValidPair(m.hellos[c].pair)
    && KeyOf(m.hellos[c]) == m.table.pendings[id].key && m.hellos[c].target == m.table.pendings[id].target
  }

  predicate PendingFits(m: Relays, id: nat) {
    id in m.table.pendings ==>
      var p := m.table.pendings[id];
      && id < m.table.nextId
      && (p.requester.Some? ==> SideFits(m, id, p.requester.value, Requester))
      && (p.provider.Some? ==> SideFits(m, id, p.provider.value, Provider))
  }

  /** Whenever the mutex is free, a record in the table waits with exactly one side filled. */
  predicate StreamFits(m: Relays, key: string) {
    key in m.table.streams ==>
      var id := m.table.streams[key];
      id in m.table.pendings && m.table.pendings[id].key == key && OneSided(m.table.pendings[id])
  }

  predicate StartedBy(m: Relays, id: nat, c: nat) { id in m.starters && m.starters[id] == c }

  /** A handler still to enter has no record; one that joined is the starter of a complete record. */
  predicate HandlerFits(m: Relays, c: nat) {
    && (c in m.hellos ==> ValidPair(m.hellos[c].pair))
    && (c in m.homes ==> c in m.hellos && c in m.pcs && !m.pcs[c].Entering?)
    && (c in m.pcs && (m.pcs[c].Joined? || m.pcs[c].Relaying?) ==> StartedBy(m, m.pcs[c].id, c))
  }

  /** A record has a starter when it is complete, and only then; the starter is one of its two sides. */
  predicate StarterFits(m: Relays, id: nat) {
    && (id in m.starters ==> id in m.table.pendings && Holds(m.table.pendings[id], m.starters[id]))
    && (id in m.table.pendings && TwoSided(m.table.pendings[id]) <==> id in m.starters)
  }

  ghost predicate Invariant(m: Relays) {
    && (forall id :: PendingFits(m, id)) && (forall key :: StreamFits(m, key))
    && (forall c :: HandlerFits(m, c)) && (forall id :: StarterFits(m, id))
  }

  // ---------------------------------------------------------------- one step

  predicate StreamIs(t: Table, key: string, id: nat) { key in t.streams && t.streams[key] == id }

  /** The part of the state that the entry of c with the given outcome leaves as it was. */
  lemma {:induction false} EnterFacts(m: Relays, c: nat)
    requires Invariant(m) && At(m, c, Entering) && c !in m.homes
    ensures var h := m.hellos[c];
            var (t, r) := Enter(m.table, m.maxPending, c, h);
            && (r.Refused? ==> t == m.table)
            && (!r.Refused? ==>
                  && r.id in t.pendings && Side(t.pendings[r.id], h.role) == Some(c)
                  && t.pendings[r.id].key == KeyOf(h) && t.pendings[r.id].target == h.target
                  && t.pendings == m.table.pendings[r.id := t.pendings[r.id]]
                  && (r.id in m.table.pendings ==>
                        && !TwoSided(m.table.pendings[r.id])
                        && t.pendings[r.id] == Fill(m.table.pendings[r.id], h.role, c)
                        && Side(m.table.pendings[r.id], h.role).None?)
                  && (r.id !in m.table.pendings ==>
                        && r.id == m.table.nextId
                        && t.pendings[r.id] == Fill(Pending(KeyOf(h), None, None, h.target), h.role, c))
                  && (r.Paired? <==> TwoSided(t.pendings[r.id]))
                  && r.id < t.nextId && m.table.nextId <= t.nextId
                  && (r.Paired? ==> t.streams == m.table.streams - {KeyOf(h)} && StreamIs(m.table, KeyOf(h), r.id))
                  && (r.Waiting? ==> t.streams == m.table.streams[KeyOf(h) := r.id]))
  {
    var h := m.hellos[c];
    assert StreamFits(m, KeyOf(h));
    assert PendingFits(m, m.table.nextId);
    if KeyOf(h) in m.table.streams {
      assert PendingFits(m, m.table.streams[KeyOf(h)]);
    }
  }

  /** The record that c was put into. */
  lemma {:induction false} LockedFills(m: Relays, c: nat)
    requires Invariant(m) && At(m, c, Entering) && !Enter(m.table, m.maxPending, c, m.hellos[c]).1.Refused?
    ensures PendingFits(Locked(m, c), Enter(m.table, m.maxPending, c, m.hellos[c]).1.id)
  {
    assert HandlerFits(m, c);
    EnterFacts(m, c);
    var id := Enter(m.table, m.maxPending, c, m.hellos[c]).1.id;
    assert PendingFits(m, id);
    assert SideFits(Locked(m, c), id, c, m.hellos[c].role);
  }

  lemma {:induction false} LockedKeepsPendings(m: Relays, c: nat)
    requires Invariant(m) && At(m, c, Entering)
    ensures forall id :: PendingFits(Locked(m, c), id)
  {
    assert HandlerFits(m, c);
    EnterFacts(m, c);
    var n := Locked(m, c);
    var r := Enter(m.table, m.maxPending, c, m.hellos[c]).1;
    forall id ensures PendingFits(n, id) {
      assert PendingFits(m, id);
      if !r.Refused? && id == r.id {
        LockedFills(m, c);
      }
    }
  }

  lemma {:induction false} LockedKeepsStreams(m: Relays, c: nat)
    requires Invariant(m) && At(m, c, Entering)
    ensures forall key :: StreamFits(Locked(m, c), key)
  {
    assert HandlerFits(m, c);
    EnterFacts(m, c);
    var n, k := Locked(m, c), KeyOf(m.hellos[c]);
    assert StreamFits(m, k);
    forall key ensures StreamFits(n, key) {
      assert StreamFits(m, key);
    }
  }

  lemma {:induction false} LockedKeepsHandlers(m: Relays, c: nat)
    requires Invariant(m) && At(m, c, Entering)
    ensures forall d :: HandlerFits(Locked(m, c), d)
    ensures forall id :: StarterFits(Locked(m, c), id)
  {
    assert HandlerFits(m, c);
    EnterFacts(m, c);
    var n := Locked(m, c);
    forall d ensures HandlerFits(n, d) {
      assert HandlerFits(m, d);
      if d in m.pcs && (m.pcs[d].Joined? || m.pcs[d].Relaying?) {
        assert StarterFits(m, m.pcs[d].id);
      }
    }
    forall id ensures StarterFits(n, id) {
      assert StarterFits(m, id);
    }
  }

  /** Taking an entry out of the table disturbs nothing else. */
  lemma {:induction false} DroppingKeeps(m: Relays, key: string)
    requires Invariant(m)
    ensures Invariant(m.(table := m.table.(streams := m.table.streams - {key})))
  {
    var n := m.(table := m.table.(streams := m.table.streams - {key}));
    forall id ensures PendingFits(n, id) && StarterFits(n, id) {
      assert PendingFits(m, id) && StarterFits(m, id);
    }
    forall k ensures StreamFits(n, k) {
      assert StreamFits(m, k);
    }
    forall c ensures HandlerFits(n, c) {
      assert HandlerFits(m, c);
    }
  }

  /** Moving a handler on keeps the invariant unless it claims a record it did not complete. */
  lemma {:induction false} MovingKeeps(m: Relays, c: nat, pc: Pc)
    requires Invariant(m) && !pc.Entering? && c in m.hellos
    requires pc.Joined? || pc.Relaying? ==> StartedBy(m, pc.id, c)
    ensures Invariant(Move(m, c, pc))
  {
    var n := Move(m, c, pc);
    forall id ensures PendingFits(n, id) && StarterFits(n, id) {
      assert PendingFits(m, id) && StarterFits(m, id);
    }
    forall k ensures StreamFits(n, k) {
      assert StreamFits(m, k);
    }
    forall d ensures HandlerFits(n, d) {
      assert HandlerFits(m, d);
    }
  }

  lemma {:induction false} ArrivingKeeps(m: Relays, c: nat, hello: Hello)
    requires Invariant(m)
    ensures Invariant(Next(m, Arrive(c, hello)))
  {
    var n := Next(m, Arrive(c, hello));
    forall id ensures PendingFits(n, id) && StarterFits(n, id) {
      assert PendingFits(m, id) && StarterFits(m, id);
    }
    forall k ensures StreamFits(n, k) {
      assert StreamFits(m, k);
    }
    forall d ensures HandlerFits(n, d) {
      assert HandlerFits(m, d);
    }
  }

  lemma {:induction false} PeersKeep(m: Relays, peers: set<(string, Role)>)
    requires Invariant(m)
    ensures Invariant(m.(peers := peers))
  {
    var n := m.(peers := peers);
    forall id ensures PendingFits(n, id) && StarterFits(n, id) {
      assert PendingFits(m, id) && StarterFits(m, id);
    }
    forall k ensures StreamFits(n, k) {
      assert StreamFits(m, k);
    }
    forall d ensures HandlerFits(n, d) {
      assert HandlerFits(m, d);
    }
  }

  lemma {:induction false} StarterIsKnown(m: Relays, id: nat, c: nat)
    requires Invariant(m) && StartedBy(m, id, c)
    ensures c in m.hellos
  {
    assert StarterFits(m, id);
    assert PendingFits(m, id);
  }

  lemma {:induction false} NextKeepsInvariant(m: Relays, s: Step)
    requires Invariant(m)
    ensures Invariant(Next(m, s))
  {
    match s {
      case Arrive(c, hello) => ArrivingKeeps(m, c, hello);
      case Lock(c) =>
        if At(m, c, Entering) {
          LockedKeepsPendings(m, c);
          LockedKeepsStreams(m, c);
          LockedKeepsHandlers(m, c);
        }
      case WriteOpen(c, ok) =>
        if At(m, c, Opening) {
          MovingKeeps(m, c, if ok then Parked else Unlinking);
        }
      case Unlink(c) =>
        if At(m, c, Unlinking) {
          MovingKeeps(m, c, Ended);
          DroppingKeeps(Move(m, c, Ended), KeyOf(m.hellos[c]));
        }
      case WriteReady(c, ok) =>
        if c in m.pcs && m.pcs[c].Joined? {
          assert HandlerFits(m, c);
          StarterIsKnown(m, m.pcs[c].id, c);
          MovingKeeps(m, c, if ok then Relaying(m.pcs[c].id) else Ended);
        }
      case Timer(key, id) => DroppingKeeps(m, key);
      case Control(pair, role, present) => PeersKeep(m, Next(m, s).peers);
    }
  }

  lemma {:induction false} InvariantHolds(m: Relays, steps: seq<Step>)
    requires Invariant(m)
    ensures Invariant(Run(m, steps))
    decreases |steps|
  {
    if steps != [] {
      NextKeepsInvariant(m, steps[0]);
      InvariantHolds(Next(m, steps[0]), steps[1..]);
    }
  }

  lemma {:induction false} StartFits(maxPending: int)
    ensures Invariant(Start(maxPending))
  {
  }

  // ---------------------------------------------------------------- what it means for every run

  /** Every state of the relay: any number of handlers, timers and control connections, in any order. */
  lemma {:induction false} EveryRunFits(maxPending: int, steps: seq<Step>)
    ensures Invariant(Run(Start(maxPending), steps))
  {
    StartFits(maxPending);
    InvariantHolds(Start(maxPending), steps);
  }

  /** Whenever the mutex is free, a waiting record has exactly one side filled. */
  lemma {:induction false} WaitingRecordsAreOneSided(maxPending: int, steps: seq<Step>, key: string)
    requires key in Run(Start(maxPending), steps).table.streams
    ensures var t := Run(Start(maxPending), steps).table;
            t.streams[key] in t.pendings && OneSided(t.pendings[t.streams[key]])
  {
    EveryRunFits(maxPending, steps);
    assert StreamFits(Run(Start(maxPending), steps), key);
  }

  /** The two connections of a complete record. */
  ghost predicate IsPairing(m: Relays, id: nat, requester: nat, provider: nat) {
    id in m.table.pendings && m.table.pendings[id].requester == Some(requester)
    && m.table.pendings[id].provider == Some(provider)
  }

  /** A pairing joins one requester and one provider of the same pair, stream and target. */
  lemma {:induction false} PairingsMatch(maxPending: int, steps: seq<Step>, id: nat, requester: nat, provider: nat)
    requires IsPairing(Run(Start(maxPending), steps), id, requester, provider)
    ensures var hellos := Run(Start(maxPending), steps).hellos;
            && requester in hellos && provider in hellos && requester != provider
            && hellos[requester].role == Requester && hellos[provider].role == Provider
            && hellos[requester].pair == hellos[provider].pair
            && hellos[requester].stream == hellos[provider].stream
            && hellos[requester].target == hellos[provider].target
  {
    var m := Run(Start(maxPending), steps);
    EveryRunFits(maxPending, steps);
    assert PendingFits(m, id);
    var a, b := m.hellos[requester], m.hellos[provider];
    KeyIsInjective(a.pair, a.stream, b.pair, b.stream);
  }

  /** A connection is part of at most one record, so of at most one pairing. */
  lemma {:induction false} ConnectionsJoinOnce(maxPending: int, steps: seq<Step>, id: nat, id': nat, c: nat)
    requires var pendings := Run(Start(maxPending), steps).table.pendings;
             id in pendings && id' in pendings && Holds(pendings[id], c) && Holds(pendings[id'], c)
    ensures id == id'
  {
    var m := Run(Start(maxPending), steps);
    EveryRunFits(maxPending, steps);
    assert PendingFits(m, id) && PendingFits(m, id');
  }

  predicate RelaysRecord(m: Relays, c: nat, id: nat) { c in m.pcs && m.pcs[c] == Relaying(id) }

  /** At most one handler relays a pairing, and only once it is complete and out of the table. */
  lemma {:induction false} OneHandlerRelays(maxPending: int, steps: seq<Step>, c: nat, d: nat, id: nat)
    requires var m := Run(Start(maxPending), steps); RelaysRecord(m, c, id) && RelaysRecord(m, d, id)
    ensures c == d
    ensures var t := Run(Start(maxPending), steps).table;
            && id in t.pendings && TwoSided(t.pendings[id]) && Holds(t.pendings[id], c)
            && forall key :: !StreamIs(t, key, id)
  {
    var m := Run(Start(maxPending), steps);
    EveryRunFits(maxPending, steps);
    assert HandlerFits(m, c) && HandlerFits(m, d);
    assert StarterFits(m, id);
    forall key ensures !StreamIs(m.table, key, id) {
      assert StreamFits(m, key);
    }
  }

  // ---------------------------------------------------------------- timers and identities

  /** The record is known and not in the table. */
  ghost predicate Gone(m: Relays, id: nat) { id < m.table.nextId && forall key :: !StreamIs(m.table, key, id) }

  /** A record that has left the table stays out of it and as it is. */
  lemma {:induction false} NextKeepsGone(m: Relays, s: Step, id: nat)
    requires Invariant(m) && Gone(m, id)
    ensures Gone(Next(m, s), id)
    ensures id in m.table.pendings ==>
              id in Next(m, s).table.pendings && Next(m, s).table.pendings[id] == m.table.pendings[id]
  {
    var n := Next(m, s);
    if s.Lock? && At(m, s.c, Entering) {
      var h := m.hellos[s.c];
      assert HandlerFits(m, s.c);
      EnterFacts(m, s.c);
      assert StreamFits(m, KeyOf(h));
      assert !StreamIs(m.table, KeyOf(h), id);
      forall key ensures !StreamIs(n.table, key, id) {
        assert !StreamIs(m.table, key, id);
      }
    } else {
      forall key ensures !StreamIs(n.table, key, id) {
        assert !StreamIs(m.table, key, id);
      }
    }
  }

  lemma {:induction false} RunKeepsGone(m: Relays, steps: seq<Step>, id: nat)
    requires Invariant(m) && Gone(m, id)
    ensures Gone(Run(m, steps), id)
    ensures id in m.table.pendings ==>
              id in Run(m, steps).table.pendings && Run(m, steps).table.pendings[id] == m.table.pendings[id]
    decreases |steps|
  {
    if steps != [] {
      NextKeepsGone(m, steps[0], id);
      NextKeepsInvariant(m, steps[0]);
      RunKeepsGone(Next(m, steps[0]), steps[1..], id);
    }
  }

  /**
   * A record that has left the table never comes back, and its timer, whenever it fires, leaves the
   * table alone: in particular a newer stream under the same key.
   */
  lemma {:induction false} OldTimersAreHarmless(
    maxPending: int, before: seq<Step>, after: seq<Step>, id: nat, key: string)
    requires Gone(Run(Start(maxPending), before), id)
    ensures var n := Run(Run(Start(maxPending), before), after); Gone(n, id) && Next(n, Timer(key, id)) == n
  {
    EveryRunFits(maxPending, before);
    RunKeepsGone(Run(Start(maxPending), before), after, id);
    assert !StreamIs(Run(Run(Start(maxPending), before), after).table, key, id);
  }

  /** A half whose stream expired is never paired, nor relayed by anybody, in whatever comes after. */
  lemma {:induction false} ExpiredHalvesNeverPair(
    maxPending: int, before: seq<Step>, key: string, id: nat, after: seq<Step>)
    requires StreamIs(Run(Start(maxPending), before).table, key, id)
    ensures var n := Run(Next(Run(Start(maxPending), before), Timer(key, id)), after);
            && id in n.table.pendings && OneSided(n.table.pendings[id]) && id !in n.starters
            && forall c :: !RelaysRecord(n, c, id)
  {
    var m := Run(Start(maxPending), before);
    var expired := Next(m, Timer(key, id));
    EveryRunFits(maxPending, before);
    assert StreamFits(m, key) && PendingFits(m, id);
    NextKeepsInvariant(m, Timer(key, id));
    forall k ensures !StreamIs(expired.table, k, id) {
      assert StreamFits(m, k);
    }
    RunKeepsGone(expired, after, id);
    InvariantHolds(expired, after);
    var n := Run(expired, after);
    assert StarterFits(n, id);
    forall c ensures !RelaysRecord(n, c, id) {
      assert HandlerFits(n, c);
    }
  }

  // ---------------------------------------------------------------- the pending limit

  /**
   * The second half of a waiting stream completes it exactly when it comes in the other role, for the
   * same target, and the pair is below its pending limit: at the limit it is turned away as well.
   */
  lemma {:induction false} SecondHalfJoinsExactly(maxPending: int, steps: seq<Step>, c: nat, h: Hello)
    requires h.stream != "" && ValidTarget(h.target) && KeyOf(h) in Run(Start(maxPending), steps).table.streams
    ensures var t := Run(Start(maxPending), steps).table;
            && t.streams[KeyOf(h)] in t.pendings
            && var p := t.pendings[t.streams[KeyOf(h)]];
               Enter(t, maxPending, c, h).1.Paired? <==>
                 p.target == h.target && Side(p, h.role).None? && |KeysOf(t.streams, h.pair)| < maxPending
  {
    EveryRunFits(maxPending, steps);
    assert StreamFits(Run(Start(maxPending), steps), KeyOf(h));
  }

  /** Target names a stream may be for. */
  predicate IsTarget(target: string) {
    target == "provider-host" || target == "provider-rpc" || target == "requester-control"
  }

  /** The record waits for the other half: this connection on its own side, nobody on the other. */
  predicate WaitsFor(p: Pending, h: Hello, c: nat) {
    && p.target == h.target && p.key == h.pair + "|" + h.stream
    && p.requester == (if h.role.Requester? then Some(c) else None)
    && p.provider == (if h.role.Requester? then None else Some(c))
  }

  /** Streams of the pair that wait. */
  function WaitingOf(m: Relays, pair: string): set<string> {
    set key | key in m.table.streams && pair + "|" <= key
  }

  lemma {:induction false} RunKeepsMax(m: Relays, steps: seq<Step>)
    ensures Run(m, steps).maxPending == m.maxPending
    decreases |steps|
  {
    if steps != [] {
      RunKeepsMax(Next(m, steps[0]), steps[1..]);
    }
  }

  /**
   * In every run, the first half of a stream gets a record of its own and waits in it, exactly when its
   * stream has a name, its target is known and its pair has fewer streams waiting than the limit;
   * otherwise it is turned away and the table stays as it is.
   */
  lemma {:induction false} FirstHalfWaitsExactly(maxPending: int, steps: seq<Step>, c: nat)
    requires var m := Run(Start(maxPending), steps);
             At(m, c, Entering) && m.hellos[c].pair + "|" + m.hellos[c].stream !in m.table.streams
    ensures var m := Run(Start(maxPending), steps);
            var h, n := m.hellos[c], Next(m, Lock(c));
            var key := h.pair + "|" + h.stream;
            if h.stream != "" && IsTarget(h.target) && |WaitingOf(m, h.pair)| < maxPending then
              && n.table.streams.Keys == m.table.streams.Keys + {key} && n.table.streams[key] in n.table.pendings
              && WaitsFor(n.table.pendings[n.table.streams[key]], h, c)
              && (forall k :: k in m.table.streams ==> n.table.streams[k] == m.table.streams[k])
            else n.table == m.table && n.pcs[c] == Ended
  {
    var m := Run(Start(maxPending), steps);
    RunKeepsMax(Start(maxPending), steps);
    assert KeysOf(m.table.streams, m.hellos[c].pair) == WaitingOf(m, m.hellos[c].pair);
  }

  predicate Starts(m: Relays, c: nat, id: nat) { c in m.pcs && m.pcs[c] == Joined(id) }

  /** A half that meets a record that waits for it completes it. */
  lemma {:induction false} SecondHalfPairs(m: Relays, c: nat, d: nat, id: nat)
    requires At(m, d, Entering) && IsTarget(m.hellos[d].target) && m.hellos[d].stream != ""
    requires c in m.hellos && m.hellos[c].role == Peer(m.hellos[d].role)
    requires m.hellos[c].pair == m.hellos[d].pair && m.hellos[c].stream == m.hellos[d].stream
    requires StreamIs(m.table, m.hellos[d].pair + "|" + m.hellos[d].stream, id) && id in m.table.pendings
    requires WaitsFor(m.table.pendings[id], m.hellos[c], c) && m.hellos[c].target == m.hellos[d].target
    requires |WaitingOf(m, m.hellos[d].pair)| < m.maxPending
    ensures var n := Next(m, Lock(d));
            && Starts(n, d, id)
            && if m.hellos[c].role.Requester? then IsPairing(n, id, c, d) else IsPairing(n, id, d, c)
  {
    assert KeysOf(m.table.streams, m.hellos[d].pair) == WaitingOf(m, m.hellos[d].pair);
  }

  /** The record the first half gets, and what it leaves of the rest. */
  lemma {:induction false} FirstHalfEnters(m: Relays, c: nat)
    requires At(m, c, Entering) && IsTarget(m.hellos[c].target) && m.hellos[c].stream != ""
    requires m.hellos[c].pair + "|" + m.hellos[c].stream !in m.table.streams
    requires |WaitingOf(m, m.hellos[c].pair)| < m.maxPending
    ensures var h, n, id := m.hellos[c], Next(m, Lock(c)), m.table.nextId;
            && StreamIs(n.table, h.pair + "|" + h.stream, id) && id in n.table.pendings
            && WaitsFor(n.table.pendings[id], h, c)
            && WaitingOf(n, h.pair) <= WaitingOf(m, h.pair) + {h.pair + "|" + h.stream}
            && n.hellos == m.hellos && n.maxPending == m.maxPending && n.pcs.Keys == m.pcs.Keys
  {
    assert KeysOf(m.table.streams, m.hellos[c].pair) == WaitingOf(m, m.hellos[c].pair);
  }

  predicate IsNew(m: Relays, c: nat) { c !in m.pcs && c !in m.hellos }

  lemma {:induction false} OneMoreAtMost(a: set<string>, b: set<string>, x: string)
    requires a <= b + {x}
    ensures |a| <= |b| + 1
  {
    assert |b + {x}| <= |b| + 1;
    assert b + {x} == a + (b + {x} - a);
  }

  lemma {:induction false} FourSteps(m: Relays, steps: seq<Step>)
    requires |steps| == 4
    ensures Run(m, steps) == Next(Next(Next(Next(m, steps[0]), steps[1]), steps[2]), steps[3])
  {
    var m1 := Next(m, steps[0]);
    var m2 := Next(m1, steps[1]);
    var m3 := Next(m2, steps[2]);
    assert Run(Next(m3, steps[3]), steps[1..][1..][1..][1..]) == Next(m3, steps[3]);
    assert Run(m3, steps[1..][1..][1..]) == Next(m3, steps[3]);
    assert Run(m2, steps[1..][1..]) == Next(m3, steps[3]);
    assert Run(m1, steps[1..]) == Next(m3, steps[3]);
  }

  /**
   * Two halves of a stream meet: in every run in which the pair has room for one more than one stream,
   * a new connection of either role and then one of the other, for the same pair, stream and target,
   * end as a pairing of exactly those two, which the second one's handler starts.
   */
  lemma {:induction false} TwoHalvesMeet(maxPending: int, before: seq<Step>, c: nat, d: nat, h: Hello)
    returns (id: nat)
    requires var m := Run(Start(maxPending), before);
             && c != d && IsNew(m, c) && IsNew(m, d)
             && h.pair + "|" + h.stream !in m.table.streams && |WaitingOf(m, h.pair)| + 1 < maxPending
    requires ValidPair(h.pair) && h.stream != "" && IsTarget(h.target)
    ensures var steps := [Arrive(c, h), Lock(c), Arrive(d, h.(role := Peer(h.role))), Lock(d)];
            var n := Run(Run(Start(maxPending), before), steps);
            Starts(n, d, id) && if h.role.Requester? then IsPairing(n, id, c, d) else IsPairing(n, id, d, c)
  {
    var m := Run(Start(maxPending), before);
    var other, key := h.(role := Peer(h.role)), h.pair + "|" + h.stream;
    RunKeepsMax(Start(maxPending), before);
    var m1 := Next(m, Arrive(c, h));
    FirstHalfEnters(m1, c);
    var m2 := Next(m1, Lock(c));
    var m3 := Next(m2, Arrive(d, other));
    id := m.table.nextId;
    OneMoreAtMost(WaitingOf(m3, h.pair), WaitingOf(m, h.pair), key);
    SecondHalfPairs(m3, c, d, id);
    FourSteps(m, [Arrive(c, h), Lock(c), Arrive(d, other), Lock(d)]);
  }

  /** A handler that takes its half back leaves no record with it in the table. */
  lemma {:induction false} TakenBackHalvesAreGone(maxPending: int, steps: seq<Step>, c: nat, key: string)
    requires At(Run(Start(maxPending), steps), c, Unlinking)
    ensures var n := Next(Run(Start(maxPending), steps), Unlink(c)).table;
            key in n.streams ==> n.streams[key] in n.pendings && !Holds(n.pendings[n.streams[key]], c)
  {
    var m := Run(Start(maxPending), steps);
    EveryRunFits(maxPending, steps);
    var mine := KeyOf(m.hellos[c]);
    assert StreamFits(m, key) && StreamFits(m, mine);
    if key in m.table.streams {
      assert PendingFits(m, m.table.streams[key]);
    }
  }

  lemma {:induction false} NextPairsNothing(m: Relays, s: Step)
    requires m.maxPending <= 1 && m.starters == map[]
    ensures Next(m, s).starters == map[] && Next(m, s).maxPending == m.maxPending
  {
    if s.Lock? && At(m, s.c, Entering) {
      var h := m.hellos[s.c];
      if KeyOf(h) in m.table.streams {
        assert KeyOf(h)[..|h.pair + "|"|] == h.pair + "|";
        assert KeyOf(h) in KeysOf(m.table.streams, h.pair);
        assert KeysOf(m.table.streams, h.pair) != {};
      }
    }
  }

  lemma {:induction false} RunPairsNothing(m: Relays, steps: seq<Step>)
    requires m.maxPending <= 1 && m.starters == map[]
    ensures Run(m, steps).starters == map[]
    decreases |steps|
  {
    if steps != [] {
      NextPairsNothing(m, steps[0]);
      RunPairsNothing(Next(m, steps[0]), steps[1..]);
    }
  }

  /** So a limit of one admits no pairing at all, in any run: every second half is turned away. */
  lemma {:induction false} LimitOfOneNeverPairs(
    maxPending: int, steps: seq<Step>, id: nat, requester: nat, provider: nat)
    requires maxPending <= 1
    ensures !IsPairing(Run(Start(maxPending), steps), id, requester, provider)
  {
    EveryRunFits(maxPending, steps);
    RunPairsNothing(Start(maxPending), steps);
    assert StarterFits(Run(Start(maxPending), steps), id);
  }

  /** No pair has more streams waiting than the limit allows. */
  ghost predicate WithinLimit(m: Relays) {
    forall pair :: ValidPair(pair) ==> |KeysOf(m.table.streams, pair)| <= Max(m.maxPending, 0)
  }

  lemma {:induction false} KeysShrink(streams: map<string, nat>, key: string, pair: string)
    ensures |KeysOf(streams - {key}, pair)| <= |KeysOf(streams, pair)|
  {
    assert (streams - {key}).Keys == streams.Keys - {key};
    assert KeysOf(streams, pair) == KeysOf(streams - {key}, pair) + (KeysOf(streams, pair) * {key});
  }

  /** A new stream counts for its own pair and for no other. */
  lemma {:induction false} KeysGrow(streams: map<string, nat>, h: Hello, id: nat, pair: string)
    requires ValidPair(pair) && ValidPair(h.pair) && KeyOf(h) !in streams
    ensures |KeysOf(streams[KeyOf(h) := id], pair)| == |KeysOf(streams, pair)| + (if pair == h.pair then 1 else 0)
  {
    var grown := streams[KeyOf(h) := id];
    KeysOfArePairs(grown, pair, h.pair, h.stream);
    PrefixedAdd(streams.Keys, pair + "|", KeyOf(h));
    assert grown.Keys == streams.Keys + {KeyOf(h)};
  }

  lemma {:induction false} NextKeepsLimit(m: Relays, s: Step)
    requires Invariant(m) && WithinLimit(m)
    ensures WithinLimit(Next(m, s)) && Next(m, s).maxPending == m.maxPending
  {
    var n := Next(m, s);
    if s.Lock? && At(m, s.c, Entering) {
      assert HandlerFits(m, s.c);
      assert StreamFits(m, KeyOf(m.hellos[s.c]));
    }
    forall pair | ValidPair(pair) ensures |KeysOf(n.table.streams, pair)| <= Max(m.maxPending, 0) {
      match s {
        case Lock(c) =>
          if At(m, c, Entering) {
            var h := m.hellos[c];
            KeysShrink(m.table.streams, KeyOf(h), pair);
            if KeyOf(h) !in m.table.streams {
              KeysGrow(m.table.streams, h, m.table.nextId, pair);
            }
          }
        case Unlink(c) =>
          if At(m, c, Unlinking) {
            KeysShrink(m.table.streams, KeyOf(m.hellos[c]), pair);
          }
        case Timer(key, id) => KeysShrink(m.table.streams, key, pair);
        case _ =>
      }
    }
  }

  lemma {:induction false} RunKeepsLimit(m: Relays, steps: seq<Step>)
    requires Invariant(m) && WithinLimit(m)
    ensures WithinLimit(Run(m, steps)) && Run(m, steps).maxPending == m.maxPending
    decreases |steps|
  {
    if steps != [] {
      NextKeepsLimit(m, steps[0]);
      NextKeepsInvariant(m, steps[0]);
      RunKeepsLimit(Next(m, steps[0]), steps[1..]);
    }
  }

  /** In no run does a pair have more streams waiting than its limit. */
  lemma {:induction false} LimitHolds(maxPending: int, steps: seq<Step>, pair: string)
    requires ValidPair(pair)
    ensures |KeysOf(Run(Start(maxPending), steps).table.streams, pair)| <= Max(maxPending, 0)
  {
    StartFits(maxPending);
    forall p ensures KeysOf(Start(maxPending).table.streams, p) == {} {
    }
    RunKeepsLimit(Start(maxPending), steps);
  }
}
