/**
 * The end-to-end encrypted tunnel connection: plaintext is cut into sealed records, each behind a
 * 4-byte length and under a counter nonce. The AEAD is any pair of functions that obeys its laws.
 */
module SecureConn {
  import opened Prelude
  import opened BigEndian

  const MAX_RECORD: nat := 0x1_0000
  const OVERHEAD: nat := 16

  /** Arguments are nonce, text and additional data. */
  datatype Aead = Aead(seal: (Bytes, Bytes, string) -> Bytes, open: (Bytes, Bytes, string) -> Option<Bytes>)

  /** Sealing adds a tag of fixed size, and opening what was sealed gives it back. */
  ghost predicate Lawful(a: Aead) {
    && (forall nonce, plain, aad :: |a.seal(nonce, plain, aad)| == |plain| + OVERHEAD)
    && (forall nonce, plain, aad :: a.open(nonce, a.seal(nonce, plain, aad), aad) == Some(plain))
  }

  datatype ReadError = WouldBlock | Transport | BadRecordSize | AuthenticationFailed

  // ---------------------------------------------------------------- keys and directions

  datatype Keys = Keys(write: Aead, read: Aead, writeAad: string, readAad: string)

  datatype WrapError = ShortKey | InvalidRole

  function PeerRole(role: string): string {
    if role == "requester" then "provider" else if role == "provider" then "requester" else ""
  }

  /** Secret is None when the key does not decode; derive is the keyed derivation of a cipher from a label. */
  function WrapSecure(
    derive: (Bytes, string) -> Aead, secret: Option<Bytes>, pair: string, stream: string, role: string)
    : Result<Keys, WrapError>
  {
    var peer := PeerRole(role);
    if secret.None? || |secret.value| < 32 then Err(ShortKey)
    else if peer == "" then Err(InvalidRole)
    else
      var name := pair + "|" + stream + "|";
      var out, back := role + ">" + peer, peer + ">" + role;
      Ok(Keys(
        derive(secret.value, "aipool-tunnel-v1|" + name + out), derive(secret.value, "aipool-tunnel-v1|" + name + back),
        name + out, name + back))
  }

  /** The two ends of a stream agree on both directions, and the directions never share a label. */
  lemma {:induction false} EndsAgree(
    derive: (Bytes, string) -> Aead, secret: Bytes, pair: string, stream: string, role: string)
    requires |secret| >= 32 && PeerRole(role) != ""
    ensures var a := WrapSecure(derive, Some(secret), pair, stream, role);
            var b := WrapSecure(derive, Some(secret), pair, stream, PeerRole(role));
            && a.Ok? && b.Ok?
            && a.value.write == b.value.read && a.value.writeAad == b.value.readAad
            && a.value.read == b.value.write && a.value.readAad == b.value.writeAad
            && a.value.writeAad != a.value.readAad
  {
    var name := pair + "|" + stream + "|";
    var out, back := role + ">" + PeerRole(role), PeerRole(role) + ">" + role;
    assert PeerRole(PeerRole(role)) == role;
    assert (name + out)[|name|] == role[0] && (name + back)[|name|] == PeerRole(role)[0];
  }

  /** When wrapping fails, and what the associated data says otherwise. */
  lemma {:induction false} WrapIsExact(
    derive: (Bytes, string) -> Aead, secret: Option<Bytes>, pair: string, stream: string, role: string)
    ensures var r := WrapSecure(derive, secret, pair, stream, role);
            && (r == Err(ShortKey) <==> secret.None? || |secret.value| < 32)
            && (r == Err(InvalidRole) <==>
                  secret.Some? && |secret.value| >= 32 && role != "requester" && role != "provider")
            && (r.Ok? ==>
                  var there, back := "requester>provider", "provider>requester";
                  && r.value.writeAad == pair + "|" + stream + "|" + (if role == "requester" then there else back)
                  && r.value.readAad == pair + "|" + stream + "|" + (if role == "requester" then back else there))
  {
  }

  /** The label a cipher is derived from, for the direction from role to its peer. */
  function Label(pair: string, stream: string, role: string): string {
    "aipool-tunnel-v1|" + (pair + "|" + stream + "|") + (role + ">" + PeerRole(role))
  }

  lemma {:induction false} Associate<T>(x: seq<T>, y: seq<T>, z: seq<T>)
    ensures x + (y + z) == x + y + z
  {
  }

  /** The label is what WrapSecure derives the write cipher from. */
  lemma {:induction false} WriteCipherHasLabel(
    derive: (Bytes, string) -> Aead, secret: Bytes, pair: string, stream: string, role: string)
    requires |secret| >= 32 && PeerRole(role) != ""
    ensures WrapSecure(derive, Some(secret), pair, stream, role).value.write ==
            derive(secret, Label(pair, stream, role))
  {
    Associate("aipool-tunnel-v1|", pair + "|" + stream + "|", role + ">" + PeerRole(role));
  }

  /** A part of the middle string, found in the whole. */
  lemma {:induction false} Within(a: string, b: string, c: string, at: nat, n: nat)
    requires at + n <= |b|
    ensures (a + b + c)[|a| + at..|a| + at + n] == b[at..at + n]
  {
  }

  lemma {:induction false} LabelParts(pair: string, stream: string, role: string)
    requires PeerRole(role) != ""
    ensures var l, n := Label(pair, stream, role), 17 + |pair|;
            && |l| == n + |stream| + 20 && l[17..n] == pair && l[n + 1..n + 1 + |stream|] == stream
            && l[n + |stream| + 2] == role[0]
  {
    var prefix, name, way := "aipool-tunnel-v1|", pair + "|" + stream + "|", role + ">" + PeerRole(role);
    assert |prefix| == 17 && |way| == 18 && way[0] == role[0];
    assert name[..|pair|] == pair && name[|pair| + 1..|pair| + 1 + |stream|] == stream;
    Within(prefix, name, way, 0, |pair|);
    Within(prefix, name, way, |pair| + 1, |stream|);
  }

  /**
   * Labels of equally long pairs differ unless pair, stream and direction are the same, whatever the
   * stream contains: no two streams or directions share a cipher by sharing its label.
   */
  lemma {:induction false} LabelsAreDistinct(
    pair: string, stream: string, role: string, pair': string, stream': string, role': string)
    requires PeerRole(role) != "" && PeerRole(role') != "" && |pair| == |pair'|
    requires Label(pair, stream, role) == Label(pair', stream', role')
    ensures pair == pair' && stream == stream' && role == role'
  {
    LabelParts(pair, stream, role);
    LabelParts(pair', stream', role');
  }

  // ---------------------------------------------------------------- nonces

  function CounterNonce(counter: Uint64): (n: Bytes)
    ensures |n| == 12
  {
    [0, 0, 0, 0] + Put(counter, 8)
  }

  lemma {:induction false} NonceIsInjective(a: Uint64, b: Uint64)
    requires CounterNonce(a) == CounterNonce(b)
    ensures a == b
  {
    assert CounterNonce(a)[4..] == Put(a, 8) && CounterNonce(b)[4..] == Put(b, 8);
    Widths();
    PutIsInjective(a, b, 8);
  }

  /** Four zero bytes, then the counter, most significant byte first. */
  lemma {:induction false} NonceHoldsCounter(counter: Uint64)
    ensures CounterNonce(counter)[..4] == [0, 0, 0, 0] && Get(CounterNonce(counter)[4..]) == counter
  {
    Widths();
    GetPut(counter, 8);
    assert CounterNonce(counter)[4..] == Put(counter, 8);
  }

  function Next(counter: Uint64): Uint64 { (counter + 1) % TWO64 }

  /** The counter after n more records. */
  function Advance(counter: Uint64, n: nat): Uint64 { (counter + n) % TWO64 }

  lemma {:induction false} AdvanceTwice(counter: Uint64, m: nat, n: nat)
    ensures Advance(Advance(counter, m), n) == Advance(counter, m + n)
    ensures Advance(counter, 0) == counter && Next(counter) == Advance(counter, 1)
  {
  }

  // ---------------------------------------------------------------- the wire format

  /** One use of the cipher. */
  datatype Seal = Seal(nonce: Bytes, plain: Bytes)

  function RecordOf(a: Aead, aad: string, x: Seal): Bytes {
    var sealed := a.seal(x.nonce, x.plain, aad);
    Put(|sealed|, 4) + sealed
  }

  function Record(a: Aead, aad: string, counter: Uint64, plain: Bytes): Bytes {
    RecordOf(a, aad, Seal(CounterNonce(counter), plain))
  }

  function Flatten(chunks: seq<Bytes>): Bytes {
    if chunks == [] then [] else chunks[0] + Flatten(chunks[1..])
  }

  function RecordList(a: Aead, aad: string, counter: Uint64, chunks: seq<Bytes>): (rs: seq<Bytes>)
    ensures |rs| == |chunks|
  {
    seq(|chunks|, i requires 0 <= i < |chunks| => Record(a, aad, Advance(counter, i), chunks[i]))
  }

  /** The records of some plaintext chunks, from the given counter on, back to back. */
  function Records(a: Aead, aad: string, counter: Uint64, chunks: seq<Bytes>): Bytes {
    Flatten(RecordList(a, aad, counter, chunks))
  }

  predicate FullSized(chunks: seq<Bytes>) { forall i :: 0 <= i < |chunks| ==> 1 <= |chunks[i]| <= MAX_RECORD }

  /** How a write is cut: full records, and a shorter last one. */
  function Chunks(data: Bytes): (cs: seq<Bytes>)
    ensures FullSized(cs)
    ensures Flatten(cs) == data
    ensures forall i :: 0 <= i < |cs| - 1 ==> |cs[i]| == 0x1_0000
  {
    if data == [] then []
    else
      var size := Min(|data|, MAX_RECORD);
      var rest := Chunks(data[size..]);
      assert ([data[..size]] + rest)[1..] == rest;
      [data[..size]] + rest
  }

  /** A record: its length in four bytes, then the plaintext sealed under the counter and the label. */
  lemma {:induction false} RecordMeans(a: Aead, aad: string, counter: Uint64, plain: Bytes)
    requires Lawful(a) && |plain| <= 0x1_0000
    ensures var r := Record(a, aad, counter, plain);
            |r| == |plain| + 20 && Get(r[..4]) == |plain| + 16 && r[4..] == a.seal(CounterNonce(counter), plain, aad)
  {
    var sealed := a.seal(CounterNonce(counter), plain, aad);
    Widths();
    GetPut(|sealed|, 4);
    assert (Put(|sealed|, 4) + sealed)[..4] == Put(|sealed|, 4) && (Put(|sealed|, 4) + sealed)[4..] == sealed;
  }

  lemma {:induction false} FlattenConcat(p: seq<Bytes>, q: seq<Bytes>)
    ensures Flatten(p + q) == Flatten(p) + Flatten(q)
    decreases |p|
  {
    if p == [] {
      assert p + q == q;
    } else {
      FlattenConcat(p[1..], q);
      assert (p + q)[1..] == p[1..] + q;
    }
  }

  lemma {:induction false} RecordsConcat(a: Aead, aad: string, counter: Uint64, p: seq<Bytes>, q: seq<Bytes>)
    ensures Records(a, aad, counter, p + q)
         == Records(a, aad, counter, p) + Records(a, aad, Advance(counter, |p|), q)
  {
    var rp, rq := RecordList(a, aad, counter, p), RecordList(a, aad, Advance(counter, |p|), q);
    forall i | 0 <= i < |q| ensures Advance(counter, |p| + i) == Advance(Advance(counter, |p|), i) {
      AdvanceTwice(counter, |p|, i);
    }
    assert RecordList(a, aad, counter, p + q) == rp + rq;
    FlattenConcat(rp, rq);
  }

  lemma {:induction false} FlattenOne(x: Bytes)
    ensures Flatten([x]) == x
  {
  }

  lemma {:induction false} RecordsCons(a: Aead, aad: string, counter: Uint64, x: Bytes, q: seq<Bytes>)
    ensures Records(a, aad, counter, [x] + q) == Record(a, aad, counter, x) + Records(a, aad, Next(counter), q)
  {
    RecordsConcat(a, aad, counter, [x], q);
    AdvanceTwice(counter, 0, 0);
    assert RecordList(a, aad, counter, [x]) == [Record(a, aad, counter, x)];
    FlattenOne(Record(a, aad, counter, x));
  }

  lemma {:induction false} OneChunk(data: Bytes)
    requires 1 <= |data| <= MAX_RECORD
    ensures Chunks(data) == [data]
  {
    assert data[..|data|] == data && Chunks(data[|data|..]) == [];
  }

  // ---------------------------------------------------------------- writing

  /** The sending side: the bytes on the connection, the counter, and every use made of the cipher. */
  datatype Sender = Sender(wire: Bytes, counter: Uint64, log: seq<Seal>)

  /** One record on a connection with the given room; the counter moves only if all of it was taken. */
  function SendOne(a: Aead, aad: string, s: Sender, plain: Bytes, room: Option<nat>): Sender {
    var x := Seal(CounterNonce(s.counter), plain);
    var record := RecordOf(a, aad, x);
    Sender(s.wire + Taken(record, room), if Fits(|record|, room) then Next(s.counter) else s.counter, s.log + [x])
  }

  /** Records one after the other up to the first that is not taken, and how many were taken. */
  function SendAll(a: Aead, aad: string, s: Sender, chunks: seq<Bytes>, room: Option<nat>): (Sender, nat)
    decreases |chunks|
  {
    if chunks == [] then (s, 0)
    else
      var one, size := SendOne(a, aad, s, chunks[0], room), |Record(a, aad, s.counter, chunks[0])|;
      if !Fits(size, room) then (one, 0)
      else
        var (t, n) := SendAll(a, aad, one, chunks[1..], Less(room, size));
        (t, n + 1)
  }

  predicate IsStubOf(a: Aead, aad: string, counter: Uint64, stub: Bytes, plain: Bytes) {
    1 <= |plain| <= MAX_RECORD && |stub| < |Record(a, aad, counter, plain)| && stub <= Record(a, aad, counter, plain)
  }

  /** Part of a record, but not all of it. */
  ghost predicate IsStub(a: Aead, aad: string, counter: Uint64, stub: Bytes) {
    exists plain :: IsStubOf(a, aad, counter, stub, plain)
  }

  lemma {:induction false} NothingIsStub(a: Aead, aad: string, counter: Uint64)
    ensures IsStub(a, aad, counter, [])
  {
    assert IsStubOf(a, aad, counter, [], [0]);
  }

  lemma {:induction false} JoinRecord(wire: Bytes, record: Bytes, records: Bytes, stub: Bytes)
    ensures wire + record + (records + stub) == wire + (record + records + stub)
  {
  }

  /** A write leaves the records that were taken, and behind them part of the one that was not. */
  lemma {:induction false} SendAllFacts(a: Aead, aad: string, s: Sender, chunks: seq<Bytes>, room: Option<nat>)
    returns (stub: Bytes)
    requires FullSized(chunks)
    ensures var (t, k) := SendAll(a, aad, s, chunks, room);
            && k <= |chunks| && t.counter == Advance(s.counter, k)
            && t.wire == s.wire + (Records(a, aad, s.counter, chunks[..k]) + stub)
            && IsStub(a, aad, t.counter, stub) && (k == |chunks| ==> stub == [])
    decreases |chunks|
  {
    AdvanceTwice(s.counter, 0, 0);
    stub := [];
    if chunks == [] {
      NothingIsStub(a, aad, s.counter);
    } else {
      var record := Record(a, aad, s.counter, chunks[0]);
      if !Fits(|record|, room) {
        stub := Taken(record, room);
        assert IsStubOf(a, aad, s.counter, stub, chunks[0]);
        assert [] + stub == stub;
      } else {
        var one, left := SendOne(a, aad, s, chunks[0], room), Less(room, |record|);
        stub := SendAllFacts(a, aad, one, chunks[1..], left);
        var n := SendAll(a, aad, one, chunks[1..], left).1;
        AdvanceTwice(s.counter, 1, n);
        assert chunks[..n + 1] == [chunks[0]] + chunks[1..][..n];
        RecordsCons(a, aad, s.counter, chunks[0], chunks[1..][..n]);
        JoinRecord(s.wire, record, Records(a, aad, one.counter, chunks[1..][..n]), stub);
      }
    }
  }

  /** The i-th use of the cipher was under its nonce, counted from the given use and counter on. */
  predicate IsNumbered(log: seq<Seal>, i: nat, counter: Uint64, start: nat)
    requires start <= i < |log|
  {
    log[i].nonce == CounterNonce(Advance(counter, i - start))
  }

  /** Every use of the cipher is logged under the nonce of its place behind the first. */
  ghost predicate LogGrows(before: seq<Seal>, after: seq<Seal>, counter: Uint64) {
    && before <= after
    && forall i :: |before| <= i < |after| ==> IsNumbered(after, i, counter, |before|)
  }

  lemma {:induction false} SendAllLog(a: Aead, aad: string, s: Sender, chunks: seq<Bytes>, room: Option<nat>)
    ensures var (t, k) := SendAll(a, aad, s, chunks, room);
            && k <= |chunks| && |t.log| == |s.log| + k + (if k < |chunks| then 1 else 0)
            && LogGrows(s.log, t.log, s.counter)
    decreases |chunks|
  {
    AdvanceTwice(s.counter, 0, 0);
    if chunks != [] {
      var record := Record(a, aad, s.counter, chunks[0]);
      if Fits(|record|, room) {
        var one, left := SendOne(a, aad, s, chunks[0], room), Less(room, |record|);
        SendAllLog(a, aad, one, chunks[1..], left);
        var t := SendAll(a, aad, one, chunks[1..], left).0;
        forall i | |s.log| <= i < |t.log| ensures IsNumbered(t.log, i, s.counter, |s.log|) {
          if i > |s.log| {
            assert IsNumbered(t.log, i, one.counter, |one.log|);
            AdvanceTwice(s.counter, 1, i - |one.log|);
          }
        }
      }
    }
  }

  /** What is left of a write comes to t, with n more records taken. */
  ghost predicate Leads(
    a: Aead, aad: string, s: Sender, chunks: seq<Bytes>, room: Option<nat>, t: Sender, n: int)
  {
    SendAll(a, aad, s, chunks, room).0 == t && SendAll(a, aad, s, chunks, room).1 == n
  }

  lemma {:induction false} LeadsOn(
    a: Aead, aad: string, s: Sender, chunks: seq<Bytes>, room: Option<nat>, t: Sender, n: int)
    requires chunks != [] && Leads(a, aad, s, chunks, room, t, n)
    ensures var one, size := SendOne(a, aad, s, chunks[0], room), |Record(a, aad, s.counter, chunks[0])|;
            if Fits(size, room) then Leads(a, aad, one, chunks[1..], Less(room, size), t, n - 1)
            else t == one && n == 0
  {
  }

  /** Cutting one record off a write leaves the rest to be cut. */
  lemma {:induction false} CutOne(data: Bytes, rest: Bytes, done: nat)
    requires rest != [] && done <= |Chunks(data)| && Chunks(rest) == Chunks(data)[done..]
    ensures var size, cs := Min(|rest|, MAX_RECORD), Chunks(data);
            && done < |cs| && Chunks(rest)[0] == rest[..size]
            && Chunks(rest)[1..] == Chunks(rest[size..]) == cs[done + 1..]
            && |Flatten(cs[..done + 1])| == |Flatten(cs[..done])| + size
  {
    var cs := Chunks(data);
    assert cs[done] == Chunks(rest)[0];
    assert cs[..done + 1] == cs[..done] + [cs[done]];
    FlattenConcat(cs[..done], [cs[done]]);
    FlattenOne(cs[done]);
  }

  /** A write after done whole records, with the rest of the data still to be cut. */
  ghost predicate Progress(
    a: Aead, aad: string, data: Bytes, rest: Bytes, done: nat, written: nat, now: Sender, room: Option<nat>,
    goal: (Sender, nat))
  {
    && done <= |Chunks(data)| && Chunks(rest) == Chunks(data)[done..] && written == |Flatten(Chunks(data)[..done])|
    && Leads(a, aad, now, Chunks(rest), room, goal.0, goal.1 - done)
  }

  lemma {:induction false} StartProgress(a: Aead, aad: string, data: Bytes, now: Sender, room: Option<nat>)
    ensures Progress(a, aad, data, data, 0, 0, now, room, SendAll(a, aad, now, Chunks(data), room))
  {
  }

  lemma {:induction false} NextProgress(
    a: Aead, aad: string, data: Bytes, rest: Bytes, done: nat, written: nat, now: Sender, room: Option<nat>,
    goal: (Sender, nat))
    requires rest != [] && Progress(a, aad, data, rest, done, written, now, room, goal)
    ensures var n := Min(|rest|, MAX_RECORD);
            var one, size := SendOne(a, aad, now, rest[..n], room), |Record(a, aad, now.counter, rest[..n])|;
            if Fits(size, room) then
              Progress(a, aad, data, rest[n..], done + 1, written + n, one, Less(room, size), goal)
            else goal == (one, done) && done < |Chunks(data)|
  {
    CutOne(data, rest, done);
    LeadsOn(a, aad, now, Chunks(rest), room, goal.0, goal.1 - done);
  }

  lemma {:induction false} EndProgress(
    a: Aead, aad: string, data: Bytes, done: nat, written: nat, now: Sender, room: Option<nat>, goal: (Sender, nat))
    requires Progress(a, aad, data, [], done, written, now, room, goal)
    ensures goal == (now, |Chunks(data)|) && done == |Chunks(data)|
  {
    assert |Chunks(data)[done..]| == 0;
  }

  // ---------------------------------------------------------------- reading

  datatype Receiver = Receiver(wire: Bytes, counter: Uint64, buffer: Bytes)

  /** How an attempt to read n bytes ends: they are there, the call waits, or the connection fails. */
  datatype Fetch = Got | Waits | Fails(consumed: nat)

  /** cut is the number of bytes after which the connection fails during this call, None if it does not. */
  function FetchBytes(wire: Bytes, n: nat, cut: Option<nat>): Fetch {
    if Fits(n, cut) then (if n <= |wire| then Got else Waits)
    else if cut.value <= |wire| then Fails(cut.value)
    else Waits
  }

  /** Read behind the length field. */
  function ReadSealed(a: Aead, aad: string, d: Receiver, size: nat, length: nat, cut: Option<nat>)
    : (Receiver, Result<Bytes, ReadError>)
    requires |d.wire| >= 4
  {
    var rest := d.wire[4..];
    if length == 0 || length > MAX_RECORD + OVERHEAD then (d.(wire := rest), Err(BadRecordSize))
    else
      match FetchBytes(rest, length, cut)
      case Waits => (d, Err(WouldBlock))
      case Fails(n) => (d.(wire := rest[n..]), Err(Transport))
      case Got =>
        match a.open(CounterNonce(d.counter), rest[..length], aad)
        case None => (d.(wire := rest[length..]), Err(AuthenticationFailed))
        case Some(plain) =>
          var n := Min(size, |plain|);
          (Receiver(rest[length..], Next(d.counter), plain[n..]), Ok(plain[..n]))
  }

  /**
   * One Read into a buffer of the given size. The program blocks until a whole record has arrived;
   * here such a call returns WouldBlock and changes nothing. A failing connection loses what was read.
   */
  function ReadOnce(a: Aead, aad: string, d: Receiver, size: nat, cut: Option<nat>)
    : (Receiver, Result<Bytes, ReadError>)
  {
    if d.buffer != [] then
      var n := Min(size, |d.buffer|);
      (d.(buffer := d.buffer[n..]), Ok(d.buffer[..n]))
    else
      match FetchBytes(d.wire, 4, cut)
      case Waits => (d, Err(WouldBlock))
      case Fails(n) => (d.(wire := d.wire[n..]), Err(Transport))
      case Got => ReadSealed(a, aad, d, size, Get(d.wire[..4]), Less(cut, 4))
  }

  /** The wire begins with a whole record of a size a record may have. */
  predicate HasRecord(wire: Bytes) {
    |wire| >= 4 && 1 <= Get(wire[..4]) <= 0x1_0010 && |wire| >= 4 + Get(wire[..4])
  }

  /** What the cipher makes of the record at the beginning of the wire. */
  function Opened(a: Aead, aad: string, counter: Uint64, wire: Bytes): Option<Bytes>
    requires HasRecord(wire)
  {
    a.open(CounterNonce(counter), wire[4..4 + Get(wire[..4])], aad)
  }

  /**
   * What a Read may do, for any wire: serve the buffer; or take one record and split the plaintext it
   * opens to between the caller and the buffer; or fail and leave counter and buffer as they were.
   */
  predicate IsReadOf(
    a: Aead, aad: string, d: Receiver, size: nat, cut: Option<nat>, after: Receiver, r: Result<Bytes, ReadError>)
  {
    && (d.buffer != [] ==>
          && r.Ok? && r.value + after.buffer == d.buffer && |r.value| == Min(size, |d.buffer|)
          && after.wire == d.wire && after.counter == d.counter)
    && (d.buffer == [] && r.Ok? ==>
          && HasRecord(d.wire) && Opened(a, aad, d.counter, d.wire) == Some(r.value + after.buffer)
          && |r.value| == Min(size, |r.value| + |after.buffer|)
          && after.wire == d.wire[4 + Get(d.wire[..4])..] && after.counter == (d.counter + 1) % TWO64)
    && (r.Err? ==> after.counter == d.counter && after.buffer == d.buffer)
    && (d.buffer == [] && HasRecord(d.wire) && cut.None? ==>
          if Opened(a, aad, d.counter, d.wire).Some? then r.Ok?
          else r == Err(AuthenticationFailed) && after.wire == d.wire[4 + Get(d.wire[..4])..])
    && (r == Err(AuthenticationFailed) ==> HasRecord(d.wire) && Opened(a, aad, d.counter, d.wire).None?)
    && (d.buffer == [] && cut.None? && !HasRecord(d.wire) ==>
          if |d.wire| >= 4 && !(1 <= Get(d.wire[..4]) <= 0x1_0010) then
            r == Err(BadRecordSize) && after.wire == d.wire[4..]
          else r == Err(WouldBlock) && after == d)
    && (r == Err(Transport) ==> cut.Some?)
  }

  lemma {:induction false} RecordSlices(wire: Bytes, n: nat)
    requires |wire| >= 4 + n
    ensures wire[4..][..n] == wire[4..4 + n] && wire[4..][n..] == wire[4 + n..]
  {
  }

  lemma {:induction false} SplitPlain(plain: Bytes, n: nat)
    requires n <= |plain|
    ensures plain[..n] + plain[n..] == plain
  {
  }

  lemma {:induction false} ReadMeans(a: Aead, aad: string, d: Receiver, size: nat, cut: Option<nat>)
    ensures var (after, r) := ReadOnce(a, aad, d, size, cut); IsReadOf(a, aad, d, size, cut, after, r)
  {
    if d.buffer != [] {
      SplitPlain(d.buffer, Min(size, |d.buffer|));
    } else if HasRecord(d.wire) {
      RecordSlices(d.wire, Get(d.wire[..4]));
      var found := Opened(a, aad, d.counter, d.wire);
      if found.Some? {
        SplitPlain(found.value, Min(size, |found.value|));
      }
    }
  }

  // ---------------------------------------------------------------- the connection

  /** One direction of the underlying connection. */
  class Pipe {
    var bytes: Bytes
  }

  class Conn {
    const keys: Keys
    const outgoing: Pipe
    const incoming: Pipe
    var writeCounter: Uint64
    var readCounter: Uint64
    var readBuffer: Bytes
    ghost var log: seq<Seal>

    constructor (keys: Keys, outgoing: Pipe, incoming: Pipe)
      ensures this.keys == keys && this.outgoing == outgoing && this.incoming == incoming
      ensures writeCounter == 0 && readCounter == 0 && readBuffer == [] && log == []
    {
      this.keys, this.outgoing, this.incoming := keys, outgoing, incoming;
      writeCounter, readCounter, readBuffer, log := 0, 0, [], [];
    }

    ghost function Outgoing(): Sender
      reads this, outgoing
    {
      Sender(outgoing.bytes, writeCounter, log)
    }

    ghost function Incoming(): Receiver
      reads this, incoming
    {
      Receiver(incoming.bytes, readCounter, readBuffer)
    }

    /** One turn of Write's loop: the length and the sealed bytes, then the counter. */
    method WriteRecord(plain: Bytes, room: Option<nat>) returns (ok: bool, left: Option<nat>)
      modifies this`writeCounter, this`log, outgoing
      ensures Outgoing() == SendOne(keys.write, keys.writeAad, old(Outgoing()), plain, room)
      ensures var size := |Record(keys.write, keys.writeAad, old(writeCounter), plain)|;
              ok == Fits(size, room) && left == Less(room, size)
    {
      var nonce := CounterNonce(writeCounter);
      var sealed := keys.write.seal(nonce, plain, keys.writeAad);
      log := log + [Seal(nonce, plain)];
      var header := Put(|sealed|, 4);
      TakenTwice(header, sealed, room);
      Associate(outgoing.bytes, header, Taken(sealed, Less(room, 4)));
      left := Less(room, |header| + |sealed|);
      outgoing.bytes := outgoing.bytes + Taken(header, room);
      if !Fits(|header|, room) {
        return false, left;
      }
      outgoing.bytes := outgoing.bytes + Taken(sealed, Less(room, |header|));
      if !Fits(|sealed|, Less(room, |header|)) {
        return false, left;
      }
      writeCounter := Next(writeCounter);
      ok := true;
    }

    /** Write on a connection with the given room; ok is whether it returns without an error. */
    method Write(data: Bytes, room: Option<nat>) returns (written: nat, ok: bool)
      modifies this`writeCounter, this`log, outgoing
      ensures var (t, k) := SendAll(keys.write, keys.writeAad, old(Outgoing()), Chunks(data), room);
              && Outgoing() == t && ok == (k == |Chunks(data)|)
              && k <= |Chunks(data)| && written == |Flatten(Chunks(data)[..k])|
    {
      var rest, left := data, room;
      written := 0;
      ghost var goal := SendAll(keys.write, keys.writeAad, Outgoing(), Chunks(data), room);
      ghost var done: nat := 0;
      StartProgress(keys.write, keys.writeAad, data, Outgoing(), room);
      while |rest| > 0
        invariant Progress(keys.write, keys.writeAad, data, rest, done, written, Outgoing(), left, goal)
        decreases |rest|
      {
        NextProgress(keys.write, keys.writeAad, data, rest, done, written, Outgoing(), left, goal);
        var size := Min(|rest|, MAX_RECORD);
        ok, left := WriteRecord(rest[..size], left);
        if !ok {
          return;
        }
        written := written + size;
        rest := rest[size..];
        done := done + 1;
      }
      EndProgress(keys.write, keys.writeAad, data, done, written, Outgoing(), left, goal);
      ok := true;
    }

    method ReadBody(size: nat, length: nat, cut: Option<nat>) returns (r: Result<Bytes, ReadError>)
      requires |incoming.bytes| >= 4
      modifies this`readCounter, this`readBuffer, incoming
      ensures (Incoming(), r) == ReadSealed(keys.read, keys.readAad, old(Incoming()), size, length, cut)
    {
      var rest := incoming.bytes[4..];
      if length == 0 || length > MAX_RECORD + OVERHEAD {
        incoming.bytes := rest;
        return Err(BadRecordSize);
      }
      match FetchBytes(rest, length, cut)
      case Waits =>
        return Err(WouldBlock);
      case Fails(n) =>
        incoming.bytes := rest[n..];
        return Err(Transport);
      case Got =>
        incoming.bytes := rest[length..];
        var nonce := CounterNonce(readCounter);
        match keys.read.open(nonce, rest[..length], keys.readAad)
        case None =>
          return Err(AuthenticationFailed);
        case Some(plain) =>
          readCounter := Next(readCounter);
          var n := Min(size, |plain|);
          readBuffer := plain[n..];
          return Ok(plain[..n]);
    }

    method Read(size: nat, cut: Option<nat>) returns (r: Result<Bytes, ReadError>)
      modifies this`readCounter, this`readBuffer, incoming
      ensures (Incoming(), r) == ReadOnce(keys.read, keys.readAad, old(Incoming()), size, cut)
      ensures IsReadOf(keys.read, keys.readAad, old(Incoming()), size, cut, Incoming(), r)
    {
      ReadMeans(keys.read, keys.readAad, Incoming(), size, cut);
      if |readBuffer| > 0 {
        var n := Min(size, |readBuffer|);
        r := Ok(readBuffer[..n]);
        readBuffer := readBuffer[n..];
        return;
      }
      match FetchBytes(incoming.bytes, 4, cut)
      case Waits =>
        return Err(WouldBlock);
      case Fails(n) =>
        incoming.bytes := incoming.bytes[n..];
        return Err(Transport);
      case Got =>
        r := ReadBody(size, Get(incoming.bytes[..4]), Less(cut, 4));
    }
  }
}
