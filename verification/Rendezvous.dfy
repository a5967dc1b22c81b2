/**
 * The relay's rendezvous: two half-streams of a pair meet in a table guarded by one mutex. Every
 * lock-held region is one atomic step, and handlers and expiry timers interleave freely.
 */
module Rendezvous {
  import opened Prelude

  datatype Role = Requester | Provider

  function Peer(r: Role): Role { if r.Requester? then Provider else Requester }

  datatype Hello = Hello(role: Role, pair: string, stream: string, target: string)

  /** A pending record; its identity is the number it is stored under. */
  datatype Pending = Pending(key: string, requester: Option<nat>, provider: Option<nat>, target: string)

  function Side(p: Pending, r: Role): Option<nat> { if r.Requester? then p.requester else p.provider }

  function Fill(p: Pending, r: Role, c: nat): Pending {
    if r.Requester? then p.(requester := Some(c)) else p.(provider := Some(c))
  }

  predicate TwoSided(p: Pending) { p.requester.Some? && p.provider.Some? }

  predicate OneSided(p: Pending) { p.requester.Some? != p.provider.Some? }

  /** streams holds the identity of the record under each key; pendings holds every record ever made. */
  datatype Table = Table(streams: map<string, nat>, pendings: map<nat, Pending>, nextId: nat)

  datatype Outcome = Refused | Waiting(id: nat) | Paired(id: nat)

  // ---------------------------------------------------------------- keys

  predicate IsHex(s: string) {
    forall i :: 0 <= i < |s| ==> '0' <= s[i] <= '9' || 'a' <= s[i] <= 'f' || 'A' <= s[i] <= 'F'
  }

  /** Only a hex-encoded 32-byte public key gets through authentication. */
  predicate ValidPair(pair: string) { |pair| == 64 && IsHex(pair) }

  function Key(pair: string, stream: string): string { pair + "|" + stream }

  function KeyOf(h: Hello): string { Key(h.pair, h.stream) }

  lemma {:induction false} KeyIsInjective(pair: string, stream: string, pair': string, stream': string)
    requires ValidPair(pair) && ValidPair(pair') && Key(pair, stream) == Key(pair', stream')
    ensures pair == pair' && stream == stream'
  {
    var k := Key(pair, stream);
    assert k[..64] == pair && k[65..] == stream;
    assert Key(pair', stream')[..64] == pair' && Key(pair', stream')[65..] == stream';
  }

  predicate ValidTarget(target: string) {
    target == "provider-host" || target == "provider-rpc" || target == "requester-control"
  }

  function Prefixed(keys: set<string>, prefix: string): set<string> { set k | k in keys && prefix <= k }

  /** The keys in the table that begin with the pair and a bar. */
  function KeysOf(streams: map<string, nat>, pair: string): set<string> { Prefixed(streams.Keys, pair + "|") }

  lemma {:induction false} PrefixedAdd(keys: set<string>, prefix: string, key: string)
    requires key !in keys
    ensures Prefixed(keys + {key}, prefix) ==
            if prefix <= key then Prefixed(keys, prefix) + {key} else Prefixed(keys, prefix)
    ensures key !in Prefixed(keys, prefix)
  {
  }

  /** For valid pairs, those are exactly the streams of the pair. */
  lemma {:induction false} KeysOfArePairs(streams: map<string, nat>, pair: string, other: string, stream: string)
    requires ValidPair(pair) && ValidPair(other) && Key(other, stream) in streams
    ensures Key(other, stream) in KeysOf(streams, pair) <==> other == pair
  {
    var k := Key(other, stream);
    assert k[..64] == other;
    if pair + "|" <= k {
      assert (pair + "|")[..64] == pair;
    }
    assert other == pair ==> (pair + "|") == k[..65];
  }

  // ---------------------------------------------------------------- the lock-held regions

  /** handleStream, from taking the lock to giving it back. */
  function Enter(t: Table, maxPending: int, c: nat, h: Hello): (Table, Outcome) {
    if h.stream == "" || !ValidTarget(h.target) || |KeysOf(t.streams, h.pair)| >= maxPending then (t, Refused)
    else
      var found := KeyOf(h) in t.streams && t.streams[KeyOf(h)] in t.pendings;
      var id := if found then t.streams[KeyOf(h)] else t.nextId;
      var p := if found then t.pendings[id] else Pending(KeyOf(h), None, None, h.target);
      if p.target != h.target || Side(p, h.role).Some? then (t, Refused)
      else
        var q := Fill(p, h.role, c);
        var streams := if TwoSided(q) then t.streams - {KeyOf(h)} else t.streams[KeyOf(h) := id];
        (Table(streams, t.pendings[id := q], if found then t.nextId else t.nextId + 1),
         if TwoSided(q) then Paired(id) else Waiting(id))
  }

  predicate Holds(p: Pending, c: nat) { p.requester == Some(c) || p.provider == Some(c) }

  /** removeStream: only a record that holds this connection is removed. */
  function Remove(t: Table, key: string, c: nat): Table {
    if key in t.streams && t.streams[key] in t.pendings && Holds(t.pendings[t.streams[key]], c)
    then t.(streams := t.streams - {key}) else t
  }

  /** expireStream: only the record the timer was started for is removed. */
  function Expire(t: Table, key: string, id: nat): Table {
    if key in t.streams && t.streams[key] == id then t.(streams := t.streams - {key}) else t
  }

  function SideSet(side: Option<nat>): set<nat> { if side.Some? then {side.value} else {} }

  /** The connections an expiry closes: those of the record it removes. */
  function Expired(t: Table, key: string, id: nat): set<nat> {
    if key in t.streams && t.streams[key] == id && id in t.pendings
    then SideSet(t.pendings[id].requester) + SideSet(t.pendings[id].provider) else {}
  }

  class Relay {
    const maxPending: int
    var streams: map<string, nat>
    var pendings: map<nat, Pending>
    var nextId: nat

    ghost function State(): Table
      reads this
    {
      Table(streams, pendings, nextId)
    }

    constructor (configured: int)
      ensures State() == Table(map[], map[], 0) && maxPending == (if configured <= 0 then 128 else configured)
    {
      maxPending := if configured <= 0 then 128 else configured;
      streams, pendings, nextId := map[], map[], 0;
    }

    method PendingForPair(pair: string) returns (count: nat)
      ensures count == |KeysOf(streams, pair)|
    {
      count := 0;
      var prefix, left := pair + "|", streams.Keys;
      while left != {}
        invariant left <= streams.Keys
        invariant count == |Prefixed(streams.Keys - left, prefix)|
        decreases |left|
      {
        var key :| key in left;
        PrefixedAdd(streams.Keys - left, prefix, key);
        assert streams.Keys - (left - {key}) == streams.Keys - left + {key};
        if prefix <= key {
          count := count + 1;
        }
        left := left - {key};
      }
      assert streams.Keys - {} == streams.Keys;
    }

    method EnterStream(c: nat, h: Hello) returns (r: Outcome)
      requires forall k :: k in streams ==> streams[k] in pendings
      modifies this`streams, this`pendings, this`nextId
      ensures (State(), r) == Enter(old(State()), maxPending, c, h)
    {
      if h.stream == "" || !ValidTarget(h.target) {
        return Refused;
      }
      var key := h.pair + "|" + h.stream;
      var count := PendingForPair(h.pair);
      if count >= maxPending {
        return Refused;
      }
      var id, p;
      if key in streams {
        id := streams[key];
        p := pendings[id];
        if p.target != h.target {
          return Refused;
        }
      } else {
        id := nextId;
        p := Pending(key, None, None, h.target);
      }
      if Side(p, h.role).Some? {
        return Refused;
      }
      if key !in streams {
        streams := streams[key := id];
        nextId := nextId + 1;
      }
      p := Fill(p, h.role, c);
      pendings := pendings[id := p];
      if TwoSided(p) {
        streams := streams - {key};
        return Paired(id);
      }
      assert streams == old(streams)[key := id];
      return Waiting(id);
    }

    method RemoveStream(key: string, c: nat)
      requires forall k :: k in streams ==> streams[k] in pendings
      modifies this`streams
      ensures State() == Remove(old(State()), key, c)
    {
      if key in streams {
        var p := pendings[streams[key]];
        if p.requester == Some(c) || p.provider == Some(c) {
          streams := streams - {key};
        }
      }
    }

    /** closing are the connections to close. */
    method ExpireStream(key: string, id: nat) returns (closing: set<nat>)
      requires forall k :: k in streams ==> streams[k] in pendings
      modifies this`streams
      ensures State() == Expire(old(State()), key, id) && closing == Expired(old(State()), key, id)
    {
      closing := {};
      if key in streams && streams[key] == id {
        var p := pendings[id];
        streams := streams - {key};
        if p.requester.Some? {
          closing := closing + {p.requester.value};
        }
        if p.provider.Some? {
          closing := closing + {p.provider.value};
        }
      }
    }
  }
}
