/**
 * The relay's connection limits: counters that are raised when a connection is admitted or joins a
 * pair and lowered once when it closes, however often and in whatever order it is closed.
 */
module Admission {
  import opened Prelude

  type Counts = map<string, int>

  function Count(m: Counts, key: string): int { if key in m then m[key] else 0 }

  function Raise(m: Counts, key: string): Counts { m[key := Count(m, key) + 1] }

  /** A counter that reaches zero is deleted. */
  function Lower(m: Counts, key: string): Counts {
    var n := Count(m, key) - 1;
    if n == 0 then m - {key} else m[key := n]
  }

  datatype Limits = Limits(connections: int, perIp: int, perPair: int)

  datatype Counters = Counters(active: int, byIp: Counts, byPair: Counts)

  function Acquire(l: Limits, c: Counters, ip: string): (Counters, bool) {
    if c.active >= l.connections || Count(c.byIp, ip) >= l.perIp then (c, false)
    else (c.(active := c.active + 1, byIp := Raise(c.byIp, ip)), true)
  }

  function Release(c: Counters, ip: string): Counters { c.(active := c.active - 1, byIp := Lower(c.byIp, ip)) }

  function JoinPair(l: Limits, c: Counters, pair: string): (Counters, bool) {
    if Count(c.byPair, pair) >= l.perPair then (c, false) else (c.(byPair := Raise(c.byPair, pair)), true)
  }

  function LeavePair(c: Counters, pair: string): Counters { c.(byPair := Lower(c.byPair, pair)) }

  // ---------------------------------------------------------------- the lock-held regions

  class Relay {
    const limits: Limits
    var activeConnections: int
    var connectionsByIp: Counts
    var connectionsByPair: Counts

    function State(): Counters
      reads this
    {
      Counters(activeConnections, connectionsByIp, connectionsByPair)
    }

    /** Configured limits below one are replaced by the defaults. */
    constructor (config: Limits)
      ensures State() == Counters(0, map[], map[])
      ensures limits == Limits(if config.connections <= 0 then 4096 else config.connections,
                               if config.perIp <= 0 then 256 else config.perIp,
                               if config.perPair <= 0 then 512 else config.perPair)
    {
      limits := Limits(if config.connections <= 0 then 4096 else config.connections,
                       if config.perIp <= 0 then 256 else config.perIp,
                       if config.perPair <= 0 then 512 else config.perPair);
      activeConnections, connectionsByIp, connectionsByPair := 0, map[], map[];
    }

    method AcquireConnection(ip: string) returns (ok: bool)
      modifies this`activeConnections, this`connectionsByIp
      ensures (State(), ok) == Acquire(limits, old(State()), ip)
      ensures ok <==> old(activeConnections) < limits.connections && Count(old(connectionsByIp), ip) < limits.perIp
      ensures activeConnections == old(activeConnections) + (if ok then 1 else 0)
      ensures forall other ::
                Count(connectionsByIp, other) ==
                Count(old(connectionsByIp), other) + (if ok && other == ip then 1 else 0)
    {
      if activeConnections >= limits.connections || Count(connectionsByIp, ip) >= limits.perIp {
        return false;
      }
      activeConnections := activeConnections + 1;
      connectionsByIp := connectionsByIp[ip := Count(connectionsByIp, ip) + 1];
      return true;
    }

    method ReleaseConnection(ip: string)
      modifies this`activeConnections, this`connectionsByIp
      ensures State() == Release(old(State()), ip)
      ensures activeConnections == old(activeConnections) - 1
      ensures forall other ::
                Count(connectionsByIp, other) == Count(old(connectionsByIp), other) - (if other == ip then 1 else 0)
    {
      activeConnections := activeConnections - 1;
      connectionsByIp := connectionsByIp[ip := Count(connectionsByIp, ip) - 1];
      if connectionsByIp[ip] == 0 {
        connectionsByIp := connectionsByIp - {ip};
      }
    }

    method AcquirePair(pair: string) returns (ok: bool)
      modifies this`connectionsByPair
      ensures (State(), ok) == JoinPair(limits, old(State()), pair)
      ensures ok <==> Count(old(connectionsByPair), pair) < limits.perPair
      ensures forall other ::
                Count(connectionsByPair, other) ==
                Count(old(connectionsByPair), other) + (if ok && other == pair then 1 else 0)
    {
      if Count(connectionsByPair, pair) >= limits.perPair {
        return false;
      }
      connectionsByPair := connectionsByPair[pair := Count(connectionsByPair, pair) + 1];
      return true;
    }

    method ReleasePair(pair: string)
      modifies this`connectionsByPair
      ensures State() == LeavePair(old(State()), pair)
      ensures forall other ::
                Count(connectionsByPair, other) ==
                Count(old(connectionsByPair), other) - (if other == pair then 1 else 0)
    {
      connectionsByPair := connectionsByPair[pair := Count(connectionsByPair, pair) - 1];
      if connectionsByPair[pair] == 0 {
        connectionsByPair := connectionsByPair - {pair};
      }
    }
  }

  // ---------------------------------------------------------------- all handlers together

  /**
   * open are the admitted connections whose close counter has not fired, with their IP; joined are
   * the wrapped ones whose pair counter has not fired, with their pair. admitted and wrapped never
   * forget a connection.
   */
  datatype State = State(
    counters: Counters, open: map<nat, string>, joined: map<nat, string>, admitted: set<nat>, wrapped: set<nat>)

  const EMPTY: State := State(Counters(0, map[], map[]), map[], map[], {}, {})

  /** Closing runs each once-only counter; the two of a wrapped connection may fire far apart. */
  datatype Step = Admit(c: nat, ip: string) | Wrap(c: nat, pair: string) | CloseInner(c: nat) | CloseOuter(c: nat)

  function Next(l: Limits, s: State, step: Step): State {
    match step
    case Admit(c, ip) =>
      var (counters, ok) := Acquire(l, s.counters, ip);
      if c in s.admitted || !ok then s
      else s.(counters := counters, open := s.open[c := ip], admitted := s.admitted + {c})
    case Wrap(c, pair) =>
      var (counters, ok) := JoinPair(l, s.counters, pair);
      if c !in s.admitted || c in s.wrapped || !ok then s
      else s.(counters := counters, joined := s.joined[c := pair], wrapped := s.wrapped + {c})
    case CloseInner(c) =>
      if c in s.open then s.(counters := Release(s.counters, s.open[c]), open := s.open - {c}) else s
    case CloseOuter(c) =>
      if c in s.joined then s.(counters := LeavePair(s.counters, s.joined[c]), joined := s.joined - {c}) else s
  }

  function Run(l: Limits, s: State, steps: seq<Step>): State
    decreases |steps|
  {
    if steps == [] then s else Run(l, Next(l, s, steps[0]), steps[1..])
  }

  // ---------------------------------------------------------------- exactness

  function Members(open: map<nat, string>, key: string): set<nat> { set c | c in open && open[c] == key }

  /** The counter of a key is the number of its open connections, and a zero counter is not kept. */
  predicate CountIs(m: Counts, open: map<nat, string>, key: string) {
    Count(m, key) == |Members(open, key)| && (key in m ==> m[key] > 0)
  }

  ghost predicate CountsExactly(m: Counts, open: map<nat, string>) {
    forall key :: CountIs(m, open, key)
  }

  lemma {:induction false} MembersAfterOpen(open: map<nat, string>, c: nat, key: string, k: string)
    requires c !in open
    ensures Members(open[c := key], k) == (if k == key then Members(open, k) + {c} else Members(open, k))
    ensures c !in Members(open, k)
  {
  }

  lemma {:induction false} MembersAfterClose(open: map<nat, string>, c: nat, k: string)
    requires c in open
    ensures Members(open - {c}, k) == (if k == open[c] then Members(open, k) - {c} else Members(open, k))
    ensures k == open[c] ==> c in Members(open, k)
  {
  }

  lemma {:induction false} RaiseIsExact(m: Counts, open: map<nat, string>, c: nat, key: string)
    requires CountsExactly(m, open) && c !in open
    ensures CountsExactly(Raise(m, key), open[c := key])
  {
    var raised, grown := Raise(m, key), open[c := key];
    forall k ensures CountIs(raised, grown, k) {
      assert CountIs(m, open, k);
      MembersAfterOpen(open, c, key, k);
    }
  }

  lemma {:induction false} LowerIsExact(m: Counts, open: map<nat, string>, c: nat)
    requires CountsExactly(m, open) && c in open
    ensures CountsExactly(Lower(m, open[c]), open - {c})
  {
    forall k ensures CountIs(Lower(m, open[c]), open - {c}, k) {
      assert CountIs(m, open, k);
      MembersAfterClose(open, c, k);
    }
  }

  /** No counter is above its limit. */
  ghost predicate Below(m: Counts, limit: int) { forall key :: key in m ==> m[key] <= limit }

  ghost predicate Exact(l: Limits, s: State) {
    && CountsExactly(s.counters.byIp, s.open) && CountsExactly(s.counters.byPair, s.joined)
    && s.counters.active == |s.open| && s.counters.active <= Max(l.connections, 0)
    && Below(s.counters.byIp, l.perIp) && Below(s.counters.byPair, l.perPair)
    && s.open.Keys <= s.admitted && s.joined.Keys <= s.wrapped <= s.admitted
  }

  lemma {:induction false} RaiseStaysBelow(m: Counts, key: string, limit: int)
    requires Below(m, limit) && Count(m, key) < limit
    ensures Below(Raise(m, key), limit)
  {
  }

  lemma {:induction false} LowerStaysBelow(m: Counts, key: string, limit: int)
    requires Below(m, limit) && key in m
    ensures Below(Lower(m, key), limit)
  {
  }

  lemma {:induction false} OpenHasCounter(m: Counts, open: map<nat, string>, c: nat)
    requires CountsExactly(m, open) && c in open
    ensures open[c] in m
  {
    assert CountIs(m, open, open[c]);
    assert c in Members(open, open[c]);
  }

  lemma {:induction false} AdmitIsExact(l: Limits, s: State, c: nat, ip: string)
    requires Exact(l, s)
    ensures Exact(l, Next(l, s, Admit(c, ip)))
  {
    if c !in s.admitted && Acquire(l, s.counters, ip).1 {
      RaiseIsExact(s.counters.byIp, s.open, c, ip);
      RaiseStaysBelow(s.counters.byIp, ip, l.perIp);
    }
  }

  lemma {:induction false} WrapIsExact(l: Limits, s: State, c: nat, pair: string)
    requires Exact(l, s)
    ensures Exact(l, Next(l, s, Wrap(c, pair)))
  {
    if c !in s.wrapped && JoinPair(l, s.counters, pair).1 {
      RaiseIsExact(s.counters.byPair, s.joined, c, pair);
      RaiseStaysBelow(s.counters.byPair, pair, l.perPair);
    }
  }

  lemma {:induction false} CloseIsExact(l: Limits, s: State, c: nat)
    requires Exact(l, s)
    ensures Exact(l, Next(l, s, CloseInner(c))) && Exact(l, Next(l, s, CloseOuter(c)))
  {
    if c in s.open {
      OpenHasCounter(s.counters.byIp, s.open, c);
      LowerIsExact(s.counters.byIp, s.open, c);
      LowerStaysBelow(s.counters.byIp, s.open[c], l.perIp);
      assert (s.open - {c}).Keys == s.open.Keys - {c};
    }
    if c in s.joined {
      OpenHasCounter(s.counters.byPair, s.joined, c);
      LowerIsExact(s.counters.byPair, s.joined, c);
      LowerStaysBelow(s.counters.byPair, s.joined[c], l.perPair);
    }
  }

  lemma {:induction false} NextIsExact(l: Limits, s: State, step: Step)
    requires Exact(l, s)
    ensures Exact(l, Next(l, s, step))
  {
    match step {
      case Admit(c, ip) => AdmitIsExact(l, s, c, ip);
      case Wrap(c, pair) => WrapIsExact(l, s, c, pair);
      case CloseInner(c) => CloseIsExact(l, s, c);
      case CloseOuter(c) => CloseIsExact(l, s, c);
    }
  }

  ghost function Sum(m: Counts): int
    decreases |m|
  {
    if m == map[] then 0
    else
      var k :| k in m;
      assert |m - {k}| < |m|;
      m[k] + Sum(m - {k})
  }

  lemma {:induction false} SumWithout(m: Counts, key: string)
    requires key in m
    ensures Sum(m) == m[key] + Sum(m - {key})
    decreases |m|
  {
    var k :| k in m && Sum(m) == m[k] + Sum(m - {k});
    if k != key {
      SumWithout(m - {k}, key);
      SumWithout(m - {key}, k);
      assert m - {k} - {key} == m - {key} - {k};
    }
  }

  lemma {:induction false} SumLower(m: Counts, key: string)
    requires key in m && m[key] > 0
    ensures Sum(Lower(m, key)) == Sum(m) - 1
  {
    SumWithout(m, key);
    if m[key] != 1 {
      SumWithout(Lower(m, key), key);
      assert Lower(m, key) - {key} == m - {key};
    }
  }

  /** The per-key counters add up to the number of open connections. */
  lemma {:induction false} SumIsTotal(m: Counts, open: map<nat, string>)
    requires CountsExactly(m, open)
    ensures Sum(m) == |open|
    decreases |open|
  {
    if open == map[] {
      forall key ensures key !in m {
        assert CountIs(m, open, key);
        assert Members(open, key) == {};
      }
      assert m == map[];
    } else {
      var c :| c in open;
      OpenHasCounter(m, open, c);
      assert CountIs(m, open, open[c]);
      LowerIsExact(m, open, c);
      SumLower(m, open[c]);
      assert (open - {c}).Keys == open.Keys - {c};
      SumIsTotal(Lower(m, open[c]), open - {c});
    }
  }

  lemma {:induction false} RunIsExact(l: Limits, s: State, steps: seq<Step>)
    requires Exact(l, s)
    ensures Exact(l, Run(l, s, steps))
    decreases |steps|
  {
    if steps != [] {
      NextIsExact(l, s, steps[0]);
      RunIsExact(l, Next(l, s, steps[0]), steps[1..]);
    }
  }

  lemma {:induction false} EmptyIsExact(l: Limits)
    ensures Exact(l, EMPTY)
  {
  }

  /**
   * On every run of admissions, wraps and closes in any order and number: the counters are exact, no
   * zero or negative entry is kept, no limit is exceeded, and the per-IP counters add up to
   * activeConnections.
   */
  lemma {:induction false} CountersAreExact(l: Limits, steps: seq<Step>)
    ensures var s := Run(l, EMPTY, steps);
            && Exact(l, s)
            && Sum(s.counters.byIp) == s.counters.active == |s.open| && Sum(s.counters.byPair) == |s.joined|
  {
    EmptyIsExact(l);
    RunIsExact(l, EMPTY, steps);
    var s := Run(l, EMPTY, steps);
    SumIsTotal(s.counters.byIp, s.open);
    SumIsTotal(s.counters.byPair, s.joined);
  }

  /** Connections from one address, or of one pair, that are open. */
  function OpenOf(open: map<nat, string>, key: string): set<nat> { set c | c in open && open[c] == key }

  lemma {:induction false} AdmitsExactly(l: Limits, s: State, c: nat, ip: string)
    requires Exact(l, s) && c !in s.admitted
    ensures c in Next(l, s, Admit(c, ip)).open <==> |s.open| < l.connections && |OpenOf(s.open, ip)| < l.perIp
  {
    assert CountIs(s.counters.byIp, s.open, ip);
    assert Members(s.open, ip) == OpenOf(s.open, ip);
  }

  lemma {:induction false} JoinsExactly(l: Limits, s: State, c: nat, pair: string)
    requires Exact(l, s) && c in s.admitted && c !in s.wrapped
    ensures c in Next(l, s, Wrap(c, pair)).joined <==> |OpenOf(s.joined, pair)| < l.perPair
  {
    assert CountIs(s.counters.byPair, s.joined, pair);
    assert Members(s.joined, pair) == OpenOf(s.joined, pair);
  }

  /**
   * In every run, a new connection is admitted exactly when fewer connections are open than allowed in
   * all and from its address, and an admitted one joins its pair exactly when the pair has room.
   */
  lemma {:induction false} AdmissionIsExact(l: Limits, steps: seq<Step>, c: nat, ip: string, pair: string)
    ensures var s := Run(l, EMPTY, steps);
            c !in s.admitted ==>
              (c in Next(l, s, Admit(c, ip)).open <==> |s.open| < l.connections && |OpenOf(s.open, ip)| < l.perIp)
    ensures var s := Run(l, EMPTY, steps);
            c in s.admitted && c !in s.wrapped ==>
              (c in Next(l, s, Wrap(c, pair)).joined <==> |OpenOf(s.joined, pair)| < l.perPair)
  {
    var s := Run(l, EMPTY, steps);
    CountersAreExact(l, steps);
    if c !in s.admitted {
      AdmitsExactly(l, s, c, ip);
    } else if c !in s.wrapped {
      JoinsExactly(l, s, c, pair);
    }
  }
}
