/** What one direction of an encrypted connection guarantees over whole runs. */
module SecureConnTheorems {
  import opened Prelude
  import opened BigEndian
  import opened SecureConn

  // ---------------------------------------------------------------- one direction, over whole runs

  /** A call of Write or Read, with the point at which the connection fails during it, if it does. */
  datatype Event = Send(data: Bytes, room: Option<nat>) | Receive(size: nat, cut: Option<nat>)

  /**
   * One direction of a stream. written are the bytes that Write has reported as written, delivered the
   * bytes that Read has returned; the flags tell whether a call of either has failed.
   */
  datatype Stream = Stream(
    receiver: Receiver, writeCounter: Uint64, log: seq<Seal>, written: Bytes, delivered: Bytes,
    writeFailed: bool, readFailed: bool)

  const FRESH: Stream := Stream(Receiver([], 0, []), 0, [], [], [], false, false)

  function SendingSide(s: Stream): Sender { Sender(s.receiver.wire, s.writeCounter, s.log) }

  function Step(a: Aead, aad: string, s: Stream, e: Event): Stream {
    match e
    case Send(data, room) =>
      var (t, k) := SendAll(a, aad, SendingSide(s), Chunks(data), room);
      SendAllLog(a, aad, SendingSide(s), Chunks(data), room);
      s.(receiver := s.receiver.(wire := t.wire), writeCounter := t.counter, log := t.log,
         written := s.written + Flatten(Chunks(data)[..k]), writeFailed := s.writeFailed || k < |Chunks(data)|)
    case Receive(size, cut) =>
      var (d, r) := ReadOnce(a, aad, s.receiver, size, cut);
      s.(receiver := d, delivered := if r.Ok? then s.delivered + r.value else s.delivered,
         readFailed := s.readFailed || (r.Err? && r.error != WouldBlock))
  }

  function Run(a: Aead, aad: string, s: Stream, es: seq<Event>): Stream
    decreases |es|
  {
    if es == [] then s else Run(a, aad, Step(a, aad, s, es[0]), es[1..])
  }

  /** A failed Write is followed by no further data, and a failed Read by no further Read. */
  predicate StopsOnError(a: Aead, aad: string, s: Stream, es: seq<Event>)
    decreases |es|
  {
    es != [] ==>
      && (match es[0] case Send(data, _) => data == [] || !s.writeFailed case Receive(_, _) => !s.readFailed)
      && StopsOnError(a, aad, Step(a, aad, s, es[0]), es[1..])
  }

  // ---------------------------------------------------------------- the invariant

  /** The wire holds the records of the plaintexts pending, and behind them at most part of a record. */
  ghost predicate OnWire(a: Aead, aad: string, s: Stream, pending: seq<Bytes>, stub: Bytes) {
    && FullSized(pending)
    && s.writeCounter == Advance(s.receiver.counter, |pending|)
    && IsStub(a, aad, s.writeCounter, stub) && (!s.writeFailed ==> stub == [])
    && (!s.readFailed ==> s.receiver.wire == Records(a, aad, s.receiver.counter, pending) + stub)
  }

  ghost predicate NothingLost(s: Stream, pending: seq<Bytes>) {
    s.delivered + s.receiver.buffer + Flatten(pending) == s.written
  }

  /** The k-th use of the cipher was under nonce k; the last one may have failed. */
  ghost predicate NoncesCount(log: seq<Seal>, counter: Uint64, failed: bool) {
    && (failed ==> |log| > 0) && counter == Advance(0, |log| - (if failed then 1 else 0))
    && (forall k :: 0 <= k < |log| ==> IsNumbered(log, k, 0, 0))
  }

  ghost predicate Consistent(a: Aead, aad: string, s: Stream, pending: seq<Bytes>, stub: Bytes) {
    && OnWire(a, aad, s, pending, stub) && NothingLost(s, pending)
    && NoncesCount(s.log, s.writeCounter, s.writeFailed)
  }

  // ---------------------------------------------------------------- one step

  lemma {:induction false} LaterNonce(n: nat, counter: Uint64, i: nat)
    requires counter == Advance(0, n)
    ensures CounterNonce(Advance(counter, i)) == CounterNonce(Advance(0, n + i))
  {
    AdvanceTwice(0, n, i);
  }

  lemma {:induction false} LaterNonces(before: seq<Seal>, after: seq<Seal>, counter: Uint64, i: nat)
    requires NoncesCount(before, counter, false) && LogGrows(before, after, counter) && i < |after|
    ensures IsNumbered(after, i, 0, 0)
  {
    if i < |before| {
      assert IsNumbered(before, i, 0, 0);
    } else {
      assert IsNumbered(after, i, counter, |before|);
      LaterNonce(|before|, counter, i - |before|);
    }
  }

  lemma {:induction false} NoncesContinue(before: seq<Seal>, after: seq<Seal>, counter: Uint64, k: nat, failed: bool)
    requires NoncesCount(before, counter, false) && LogGrows(before, after, counter)
    requires |after| == |before| + k + (if failed then 1 else 0)
    ensures NoncesCount(after, Advance(counter, k), failed)
  {
    AdvanceTwice(0, |before|, k);
    forall i | 0 <= i < |after| ensures IsNumbered(after, i, 0, 0) {
      LaterNonces(before, after, counter, i);
    }
  }

  lemma {:induction false} JoinWire(wire: Bytes, more: Bytes, stub: Bytes)
    ensures wire + [] + (more + stub) == wire + more + stub
  {
  }

  lemma {:induction false} SentOnWire(
    a: Aead, aad: string, s: Stream, data: Bytes, room: Option<nat>, pending: seq<Bytes>, left: seq<Bytes>, stub: Bytes)
    requires OnWire(a, aad, s, pending, []) && !s.writeFailed
    requires var (t, k) := SendAll(a, aad, SendingSide(s), Chunks(data), room);
             && k <= |Chunks(data)| && left == pending + Chunks(data)[..k]
             && t.counter == Advance(s.writeCounter, k) == Advance(s.receiver.counter, |pending| + k)
             && t.wire == s.receiver.wire + (Records(a, aad, s.writeCounter, Chunks(data)[..k]) + stub)
             && IsStub(a, aad, t.counter, stub) && (k == |Chunks(data)| ==> stub == [])
             && Records(a, aad, s.receiver.counter, left)
                == Records(a, aad, s.receiver.counter, pending) + Records(a, aad, s.writeCounter, Chunks(data)[..k])
    ensures OnWire(a, aad, Step(a, aad, s, Send(data, room)), left, stub)
  {
    var k := SendAll(a, aad, SendingSide(s), Chunks(data), room).1;
    JoinWire(Records(a, aad, s.receiver.counter, pending), Records(a, aad, s.writeCounter, Chunks(data)[..k]), stub);
  }

  /** What a write of any size adds to the wire, whether or not it is cut short. */
  lemma {:induction false} SendKeeps(
    a: Aead, aad: string, s: Stream, data: Bytes, room: Option<nat>, pending: seq<Bytes>)
    returns (left: seq<Bytes>, stub: Bytes)
    requires Consistent(a, aad, s, pending, []) && !s.writeFailed
    ensures Consistent(a, aad, Step(a, aad, s, Send(data, room)), left, stub)
  {
    var cs := Chunks(data);
    var (t, k) := SendAll(a, aad, SendingSide(s), cs, room);
    stub := SendAllFacts(a, aad, SendingSide(s), cs, room);
    SendAllLog(a, aad, SendingSide(s), cs, room);
    left := pending + cs[..k];
    RecordsConcat(a, aad, s.receiver.counter, pending, cs[..k]);
    AdvanceTwice(s.receiver.counter, |pending|, k);
    NoncesContinue(s.log, t.log, s.writeCounter, k, k < |cs|);
    FlattenConcat(pending, cs[..k]);
    Associate(s.delivered + s.receiver.buffer, Flatten(pending), Flatten(cs[..k]));
    SentOnWire(a, aad, s, data, room, pending, left, stub);
  }

  /** Without data, Write does nothing. */
  lemma {:induction false} EmptySendKeeps(a: Aead, aad: string, s: Stream, room: Option<nat>)
    ensures Step(a, aad, s, Send([], room)) == s
  {
    assert s.written + Flatten([]) == s.written;
  }

  lemma {:induction false} PartsOfRecord(header: Bytes, sealed: Bytes, rest: Bytes)
    requires |header| == 4
    ensures var wire := header + sealed + rest;
            && wire[..4] == header && wire[4..] == sealed + rest
            && wire[4..][..|sealed|] == sealed && wire[4..][|sealed|..] == rest
  {
    assert (header + sealed + rest)[4..] == sealed + rest;
  }

  /** The first record on the wire is whole, passes the size check and opens to what was sealed. */
  lemma {:induction false} FirstRecordOpens(a: Aead, aad: string, d: Receiver, plain: Bytes, rest: Bytes, size: nat)
    requires Lawful(a) && d.buffer == [] && 1 <= |plain| <= MAX_RECORD
    requires d.wire == Record(a, aad, d.counter, plain) + rest
    ensures ReadOnce(a, aad, d, size, None)
         == (Receiver(rest, Next(d.counter), plain[Min(size, |plain|)..]), Ok(plain[..Min(size, |plain|)]))
  {
    var sealed := a.seal(CounterNonce(d.counter), plain, aad);
    Widths();
    GetPut(|sealed|, 4);
    PartsOfRecord(Put(|sealed|, 4), sealed, rest);
  }

  /** Unless the connection fails, a call behaves as if it could not. */
  lemma {:induction false} CutOnlyMatters(a: Aead, aad: string, d: Receiver, size: nat, cut: Option<nat>)
    ensures var (d', r) := ReadOnce(a, aad, d, size, cut);
            || (r == Err(WouldBlock) && d' == d) || (r == Err(Transport) && d' == d.(wire := d'.wire) && d.buffer == [])
            || ReadOnce(a, aad, d, size, cut) == ReadOnce(a, aad, d, size, None)
  {
  }

  /** On part of a record a Read waits for the rest of it. */
  lemma {:induction false} StubWaits(a: Aead, aad: string, d: Receiver, size: nat)
    requires Lawful(a) && d.buffer == [] && IsStub(a, aad, d.counter, d.wire)
    ensures ReadOnce(a, aad, d, size, None) == (d, Err(WouldBlock))
  {
    var plain :| IsStubOf(a, aad, d.counter, d.wire, plain);
    var sealed := a.seal(CounterNonce(d.counter), plain, aad);
    if |d.wire| >= 4 {
      Widths();
      GetPut(|sealed|, 4);
      PartsOfRecord(Put(|sealed|, 4), sealed, []);
      assert (Put(|sealed|, 4) + sealed)[..4] == Put(|sealed|, 4);
      assert d.wire[..4] == Put(|sealed|, 4);
    }
  }

  /** Taking the first n bytes of a record, or of the buffer, splits it in place. */
  lemma {:induction false} SplitKeepsBytes(delivered: Bytes, head: Bytes, n: nat, tail: Bytes)
    requires n <= |head|
    ensures delivered + head[..n] + head[n..] + tail == delivered + head + tail
  {
  }

  /** Where the next record starts. */
  lemma {:induction false} FirstOnWire(a: Aead, aad: string, s: Stream, pending: seq<Bytes>, stub: Bytes)
    requires OnWire(a, aad, s, pending, stub) && !s.readFailed && pending != []
    ensures var counter := s.receiver.counter;
            s.receiver.wire ==
            Record(a, aad, counter, pending[0]) + (Records(a, aad, Next(counter), pending[1..]) + stub)
  {
    var counter := s.receiver.counter;
    assert pending == [pending[0]] + pending[1..];
    RecordsCons(a, aad, counter, pending[0], pending[1..]);
    Associate(Record(a, aad, counter, pending[0]), Records(a, aad, Next(counter), pending[1..]), stub);
  }

  /** The bytes a Read returns when the connection does not fail; left are the records still on the wire. */
  lemma {:induction false} ReceiveWorks(a: Aead, aad: string, s: Stream, size: nat, pending: seq<Bytes>, stub: Bytes)
    returns (left: seq<Bytes>)
    requires Lawful(a) && Consistent(a, aad, s, pending, stub) && !s.readFailed
    ensures Consistent(a, aad, Step(a, aad, s, Receive(size, None)), left, stub)
    ensures left == if s.receiver.buffer == [] && pending != [] then pending[1..] else pending
    ensures ReadOnce(a, aad, s.receiver, size, None).1.Err? <==> s.receiver.buffer == [] && pending == []
    ensures ReadOnce(a, aad, s.receiver, size, None).1.Err? ==>
              ReadOnce(a, aad, s.receiver, size, None) == (s.receiver, Err(WouldBlock))
  {
    var d := s.receiver;
    left := pending;
    AdvanceTwice(d.counter, 0, 0);
    if d.buffer != [] {
      SplitKeepsBytes(s.delivered, d.buffer, Min(size, |d.buffer|), Flatten(pending));
    } else if pending != [] {
      left := pending[1..];
      FirstOnWire(a, aad, s, pending, stub);
      FirstRecordOpens(a, aad, d, pending[0], Records(a, aad, Next(d.counter), left) + stub, size);
      AdvanceTwice(d.counter, 1, |left|);
      SplitKeepsBytes(s.delivered, pending[0], Min(size, |pending[0]|), Flatten(left));
      Associate(s.delivered, pending[0], Flatten(left));
      assert s.delivered + d.buffer == s.delivered;
    } else {
      assert d.wire == stub;
      StubWaits(a, aad, d, size);
    }
  }

  lemma {:induction false} ReceiveKeeps(
    a: Aead, aad: string, s: Stream, size: nat, cut: Option<nat>, pending: seq<Bytes>, stub: Bytes)
    returns (left: seq<Bytes>)
    requires Lawful(a) && Consistent(a, aad, s, pending, stub) && !s.readFailed
    ensures Consistent(a, aad, Step(a, aad, s, Receive(size, cut)), left, stub)
  {
    CutOnlyMatters(a, aad, s.receiver, size, cut);
    left := pending;
    if ReadOnce(a, aad, s.receiver, size, cut) == ReadOnce(a, aad, s.receiver, size, None) {
      left := ReceiveWorks(a, aad, s, size, pending, stub);
    }
  }

  // ---------------------------------------------------------------- whole runs

  lemma {:induction false} RunKeeps(
    a: Aead, aad: string, s: Stream, es: seq<Event>, pending: seq<Bytes>, stub: Bytes)
    returns (left: seq<Bytes>, rest: Bytes)
    requires Lawful(a) && Consistent(a, aad, s, pending, stub) && StopsOnError(a, aad, s, es)
    ensures Consistent(a, aad, Run(a, aad, s, es), left, rest)
    decreases |es|
  {
    left, rest := pending, stub;
    if es != [] {
      match es[0] {
        case Send(data, room) =>
          if data == [] {
            EmptySendKeeps(a, aad, s, room);
          } else {
            left, rest := SendKeeps(a, aad, s, data, room, pending);
          }
        case Receive(size, cut) =>
          left := ReceiveKeeps(a, aad, s, size, cut, pending, stub);
      }
      left, rest := RunKeeps(a, aad, Step(a, aad, s, es[0]), es[1..], left, rest);
    }
  }

  lemma {:induction false} FreshIsConsistent(a: Aead, aad: string)
    ensures Consistent(a, aad, FRESH, [], [])
  {
    NothingIsStub(a, aad, 0);
  }

  /**
   * In every run that stops on errors, for any split of the writes, any read sizes and any failures of
   * the connection: the bytes delivered, then the read buffer, then the plaintexts on the wire are
   * exactly the bytes reported as written, in order; the counters are as far apart as there are whole
   * records on the wire; and until a Read has failed, the next one fails only by waiting, and only when
   * there is nothing left to read.
   */
  lemma {:induction false} StreamIsFaithful(a: Aead, aad: string, es: seq<Event>)
    returns (left: seq<Bytes>, stub: Bytes)
    requires Lawful(a) && StopsOnError(a, aad, FRESH, es)
    ensures Consistent(a, aad, Run(a, aad, FRESH, es), left, stub)
    ensures var s := Run(a, aad, FRESH, es);
            && s.delivered + s.receiver.buffer + Flatten(left) == s.written
            && s.writeCounter == Advance(s.receiver.counter, |left|)
            && (!s.readFailed ==>
                  forall size ::
                    ReadOnce(a, aad, s.receiver, size, None).1.Err? <==> s.receiver.buffer == [] && left == [])
  {
    FreshIsConsistent(a, aad);
    left, stub := RunKeeps(a, aad, FRESH, es, [], []);
    var s := Run(a, aad, FRESH, es);
    if !s.readFailed {
      forall size: nat
        ensures ReadOnce(a, aad, s.receiver, size, None).1.Err? <==> s.receiver.buffer == [] && left == []
      {
        var _ := ReceiveWorks(a, aad, s, size, left, stub);
      }
    }
  }

  lemma {:induction false} SmallCounter(n: nat)
    requires n < TWO64
    ensures Advance(0, n) == n
  {
  }

  lemma {:induction false} NoncesAreDistinct(log: seq<Seal>, counter: Uint64, failed: bool, j: nat, k: nat)
    requires NoncesCount(log, counter, failed) && j < k < |log| <= TWO64
    ensures log[j].nonce != log[k].nonce
  {
    assert IsNumbered(log, j, 0, 0) && IsNumbered(log, k, 0, 0);
    SmallCounter(j);
    SmallCounter(k);
    if CounterNonce(j) == CounterNonce(k) {
      NonceIsInjective(j, k);
    }
  }

  ghost predicate AllDistinct(log: seq<Seal>) {
    forall j, k :: 0 <= j < k < |log| ==> log[j].nonce != log[k].nonce
  }

  /** The counter wraps after 2^64 records, and the nonces start over. */
  lemma {:induction false} DistinctWhileCounting(log: seq<Seal>, counter: Uint64, failed: bool)
    requires NoncesCount(log, counter, failed)
    ensures AllDistinct(log) <==> |log| <= TWO64
  {
    if |log| <= TWO64 {
      forall j, k | 0 <= j < k < |log| ensures log[j].nonce != log[k].nonce {
        NoncesAreDistinct(log, counter, failed, j, k);
      }
    } else {
      assert IsNumbered(log, 0, 0, 0) && IsNumbered(log, TWO64, 0, 0);
      assert Advance(0, TWO64) == Advance(0, 0);
    }
  }

  /** No data is written after a failed Write; reads may go on as they like. */
  predicate WritesStop(a: Aead, aad: string, s: Stream, es: seq<Event>)
    decreases |es|
  {
    es != [] ==>
      && (es[0].Send? ==> es[0].data == [] || !s.writeFailed)
      && WritesStop(a, aad, Step(a, aad, s, es[0]), es[1..])
  }

  lemma {:induction false} StepGrowsLog(a: Aead, aad: string, s: Stream, e: Event)
    ensures s.log <= Step(a, aad, s, e).log
  {
    if e.Send? {
      SendAllLog(a, aad, SendingSide(s), Chunks(e.data), e.room);
    }
  }

  lemma {:induction false} RunGrowsLog(a: Aead, aad: string, s: Stream, es: seq<Event>)
    ensures s.log <= Run(a, aad, s, es).log
    decreases |es|
  {
    if es != [] {
      StepGrowsLog(a, aad, s, es[0]);
      RunGrowsLog(a, aad, Step(a, aad, s, es[0]), es[1..]);
    }
  }

  lemma {:induction false} StepCounts(a: Aead, aad: string, s: Stream, e: Event)
    requires NoncesCount(s.log, s.writeCounter, s.writeFailed) && (e.Send? ==> e.data == [] || !s.writeFailed)
    ensures var t := Step(a, aad, s, e); NoncesCount(t.log, t.writeCounter, t.writeFailed)
  {
    match e {
      case Send(data, room) =>
        if data == [] {
          EmptySendKeeps(a, aad, s, room);
        } else {
          var cs := Chunks(data);
          var (t, k) := SendAll(a, aad, SendingSide(s), cs, room);
          var _ := SendAllFacts(a, aad, SendingSide(s), cs, room);
          SendAllLog(a, aad, SendingSide(s), cs, room);
          NoncesContinue(s.log, t.log, s.writeCounter, k, k < |cs|);
        }
      case Receive(_, _) =>
    }
  }

  /** Data written after a failed Write is sealed under the nonce of the record that failed. */
  lemma {:induction false} FailedNonceIsUsedAgain(a: Aead, aad: string, s: Stream, data: Bytes, room: Option<nat>)
    requires NoncesCount(s.log, s.writeCounter, true) && data != []
    ensures var after := Step(a, aad, s, Send(data, room)).log;
            |after| > |s.log| && after[|s.log| - 1].nonce == after[|s.log|].nonce
  {
    SendAllLog(a, aad, SendingSide(s), Chunks(data), room);
    AdvanceTwice(s.writeCounter, 0, 0);
    assert Chunks(data) != [];
    var after := Step(a, aad, s, Send(data, room)).log;
    assert IsNumbered(after, |s.log|, s.writeCounter, |s.log|);
    assert IsNumbered(s.log, |s.log| - 1, 0, 0) && after[|s.log| - 1] == s.log[|s.log| - 1];
  }

  lemma {:induction false} DistinctExactlyFrom(a: Aead, aad: string, s: Stream, es: seq<Event>)
    requires NoncesCount(s.log, s.writeCounter, s.writeFailed)
    ensures var log := Run(a, aad, s, es).log; AllDistinct(log) <==> WritesStop(a, aad, s, es) && |log| <= TWO64
    decreases |es|
  {
    if es == [] {
      DistinctWhileCounting(s.log, s.writeCounter, s.writeFailed);
    } else if es[0].Send? && es[0].data != [] && s.writeFailed {
      FailedNonceIsUsedAgain(a, aad, s, es[0].data, es[0].room);
      RunGrowsLog(a, aad, Step(a, aad, s, es[0]), es[1..]);
      var n, log := |s.log|, Run(a, aad, s, es).log;
      assert log[n - 1].nonce == log[n].nonce;
    } else {
      StepCounts(a, aad, s, es[0]);
      DistinctExactlyFrom(a, aad, Step(a, aad, s, es[0]), es[1..]);
    }
  }

  /**
   * In every run, whatever the cipher, the connection and the reader do: the cipher is used under a new
   * nonce each time if and only if no data is written after a failed Write, up to 2^64 records.
   */
  lemma {:induction false} NoncesNeverRepeat(a: Aead, aad: string, es: seq<Event>)
    ensures var log := Run(a, aad, FRESH, es).log;
            AllDistinct(log) <==> WritesStop(a, aad, FRESH, es) && |log| <= TWO64
  {
    DistinctExactlyFrom(a, aad, FRESH, es);
  }

  lemma {:induction false} SendSingle(a: Aead, aad: string, s: Sender, plain: Bytes, room: Option<nat>)
    ensures SendAll(a, aad, s, [plain], room).0 == SendOne(a, aad, s, plain, room)
  {
    assert [plain][1..] == [];
  }

  /** It happens: a Write of which nothing is taken and another one seal two plaintexts under one nonce. */
  lemma {:induction false} RetriedWriteRepeatsNonce(a: Aead, aad: string)
    ensures var log := Run(a, aad, FRESH, [Send([1], Some(0)), Send([2], None)]).log;
            log == [Seal(CounterNonce(0), [1]), Seal(CounterNonce(0), [2])]
  {
    var first, second := Send([1], Some(0)), Send([2], None);
    OneChunk([1]);
    OneChunk([2]);
    SendSingle(a, aad, SendingSide(FRESH), [1], Some(0));
    var s := Step(a, aad, FRESH, first);
    SendSingle(a, aad, SendingSide(s), [2], None);
    assert s.log == [Seal(CounterNonce(0), [1])] && s.writeCounter == 0;
    var t := Step(a, aad, s, second);
    assert t.log == [Seal(CounterNonce(0), [1]), Seal(CounterNonce(0), [2])];
    assert [first, second][1..] == [second] && [second][1..] == [];
    assert Run(a, aad, t, []) == t;
    assert Run(a, aad, s, [second]) == t;
  }

  // ---------------------------------------------------------------- any wire

  /** What a reader is exposed to: the wire becomes anything at all, or a Read is made. */
  datatype Exposure = Wire(bytes: Bytes) | Reading(size: nat, cut: Option<nat>)

  /** A reader and all it has delivered. */
  datatype Listener = Listener(receiver: Receiver, delivered: Bytes)

  function Expose(a: Aead, aad: string, l: Listener, e: Exposure): Listener {
    match e
    case Wire(bytes) => l.(receiver := l.receiver.(wire := bytes))
    case Reading(size, cut) =>
      var (d, r) := ReadOnce(a, aad, l.receiver, size, cut);
      Listener(d, if r.Ok? then l.delivered + r.value else l.delivered)
  }

  function ExposeAll(a: Aead, aad: string, l: Listener, es: seq<Exposure>): Listener
    decreases |es|
  {
    if es == [] then l else ExposeAll(a, aad, Expose(a, aad, l, es[0]), es[1..])
  }

  /** The cipher gave this plaintext for some bytes under the counter's nonce and the label. */
  ghost predicate WasOpened(a: Aead, aad: string, counter: Uint64, plain: Bytes) {
    exists sealed :: a.open(CounterNonce(counter), sealed, aad) == Some(plain)
  }

  /** All that was delivered or waits in the buffer was opened, one record after the other from counter 0 on. */
  ghost predicate IsGenuine(a: Aead, aad: string, l: Listener, plains: seq<Bytes>) {
    && l.delivered + l.receiver.buffer == Flatten(plains) && l.receiver.counter == Advance(0, |plains|)
    && forall k :: 0 <= k < |plains| ==> WasOpened(a, aad, Advance(0, k), plains[k])
  }

  lemma {:induction false} MoreIsGenuine(delivered: Bytes, taken: Bytes, buffer: Bytes, plains: seq<Bytes>)
    requires delivered == Flatten(plains)
    ensures delivered + taken + buffer == Flatten(plains + [taken + buffer])
  {
    FlattenConcat(plains, [taken + buffer]);
    FlattenOne(taken + buffer);
    Associate(delivered, taken, buffer);
  }

  lemma {:induction false} ExposureKeepsGenuine(a: Aead, aad: string, l: Listener, e: Exposure, plains: seq<Bytes>)
    returns (more: seq<Bytes>)
    requires IsGenuine(a, aad, l, plains)
    ensures IsGenuine(a, aad, Expose(a, aad, l, e), more)
  {
    more := plains;
    if e.Reading? {
      var d := l.receiver;
      var (after, r) := ReadOnce(a, aad, d, e.size, e.cut);
      ReadMeans(a, aad, d, e.size, e.cut);
      if r.Ok? && d.buffer != [] {
        Associate(l.delivered, r.value, after.buffer);
      } else if r.Ok? {
        more := plains + [r.value + after.buffer];
        assert l.delivered + d.buffer == l.delivered;
        MoreIsGenuine(l.delivered, r.value, after.buffer, plains);
        AdvanceTwice(0, |plains|, 1);
        assert WasOpened(a, aad, d.counter, r.value + after.buffer);
      }
    }
  }

  /**
   * Whatever becomes of the wire between the reads, what they deliver, and then the buffer, is the
   * concatenation of plaintexts that the cipher opened under the counters 0, 1, 2, ..., each once.
   */
  lemma {:induction false} OnlyOpenedIsDelivered(
    a: Aead, aad: string, l: Listener, es: seq<Exposure>, plains: seq<Bytes>) returns (more: seq<Bytes>)
    requires IsGenuine(a, aad, l, plains)
    ensures IsGenuine(a, aad, ExposeAll(a, aad, l, es), more)
    decreases |es|
  {
    more := plains;
    if es != [] {
      more := ExposureKeepsGenuine(a, aad, l, es[0], plains);
      more := OnlyOpenedIsDelivered(a, aad, Expose(a, aad, l, es[0]), es[1..], more);
    }
  }

  /** From a new connection on. */
  lemma {:induction false} NewListenerIsGenuine(a: Aead, aad: string, es: seq<Exposure>) returns (plains: seq<Bytes>)
    ensures IsGenuine(a, aad, ExposeAll(a, aad, Listener(Receiver([], 0, []), []), es), plains)
  {
    assert IsGenuine(a, aad, Listener(Receiver([], 0, []), []), []);
    plains := OnlyOpenedIsDelivered(a, aad, Listener(Receiver([], 0, []), []), es, []);
  }
}
