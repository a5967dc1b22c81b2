/**
 * tensorwire: an activation frame as a fixed 40-byte header, a float32 payload and an HMAC. Values
 * are 32-bit patterns; the HMAC is any function with 32-byte results.
 */
module TensorWire {
  import opened Prelude
  import opened BigEndian

  datatype Frame = Frame(sessionId: Uint64, sequence: Uint64, position: Uint32, values: seq<Uint32>)

  datatype WireError = ShortKey | BadValueCount | WriteFailed | Truncated | Unsupported | BadSize | BadSignature

  type Mac = (Bytes, Bytes) -> Bytes

  const MAGIC: Bytes := [65, 73, 80, 84]
  const HEADER_SIZE: nat := 40
  const MAX_VALUES: nat := 0x100_0000
  const MAC_SIZE: nat := 32

  ghost predicate IsMac(mac: Mac) {
    forall key, message :: |mac(key, message)| == MAC_SIZE
  }

  predicate Sendable(key: Bytes, f: Frame) {
    |key| >= 32 && 0 < |f.values| <= MAX_VALUES
  }

  // ---------------------------------------------------------------- the format

  function Header(f: Frame): (h: Bytes)
    ensures |h| == HEADER_SIZE
  {
    MAGIC + [1, 1, 0, 0] + Put(f.sessionId, 8) + Put(f.sequence, 8) + Put(f.position, 4)
    + Put(|f.values|, 4) + Put(4 * |f.values|, 4) + [0, 0, 0, 0]
  }

  function Payload(values: seq<Uint32>): (p: Bytes)
    ensures |p| == 4 * |values|
  {
    if values == [] then [] else Payload(values[..|values| - 1]) + Put(values[|values| - 1], 4)
  }

  function Values(payload: Bytes): (v: seq<nat>)
    requires |payload| % 4 == 0
    ensures 4 * |v| == |payload|
  {
    seq(|payload| / 4, i requires 0 <= i < |payload| / 4 => Get(payload[4 * i..4 * i + 4]))
  }

  function Encode(mac: Mac, key: Bytes, f: Frame): Bytes {
    Header(f) + Payload(f.values) + mac(key, Header(f) + Payload(f.values))
  }

  /** The header's fields as the reader sees them. */
  datatype Fields = Fields(sessionId: nat, sequence: nat, position: nat, count: nat, size: nat)

  function FieldsOf(header: Bytes): Fields
    requires |header| == HEADER_SIZE
  {
    Fields(Get(header[8..16]), Get(header[16..24]), Get(header[24..28]), Get(header[28..32]), Get(header[32..36]))
  }

  predicate Supported(header: Bytes)
    requires |header| == HEADER_SIZE
  {
    header[..4] == MAGIC && header[4] == 1 && header[5] == 1
  }

  /** The header bytes that no check looks at: 6, 7 and 36 to 39. */
  predicate ReservedAreZero(header: Bytes)
    requires |header| == HEADER_SIZE
  {
    header[6..8] == [0, 0] && header[36..] == [0, 0, 0, 0]
  }

  lemma {:induction false} GetFits(b: Bytes, width: nat)
    requires |b| == width
    ensures Get(b) < Pow256(width)
  {
    PutGet(b);
  }

  lemma {:induction false} ValuesFit(payload: Bytes)
    requires |payload| % 4 == 0
    ensures forall i :: 0 <= i < |Values(payload)| ==> Values(payload)[i] < 0x1_0000_0000
  {
    Widths();
    forall i | 0 <= i < |Values(payload)| ensures Values(payload)[i] < 0x1_0000_0000 {
      GetFits(payload[4 * i..4 * i + 4], 4);
    }
  }

  lemma {:induction false} InRange(header: Bytes, payload: Bytes)
    requires |header| == HEADER_SIZE && |payload| % 4 == 0
    ensures var h := FieldsOf(header); h.sessionId < TWO64 && h.sequence < TWO64 && h.position < 0x1_0000_0000
    ensures forall i :: 0 <= i < |Values(payload)| ==> Values(payload)[i] < 0x1_0000_0000
  {
    Widths();
    GetFits(header[8..16], 8);
    GetFits(header[16..24], 8);
    GetFits(header[24..28], 4);
    ValuesFit(payload);
  }

  function FrameOf(header: Bytes, payload: Bytes): Frame
    requires |header| == HEADER_SIZE && |payload| % 4 == 0
  {
    var h := FieldsOf(header);
    InRange(header, payload);
    Frame(h.sessionId, h.sequence, h.position, Values(payload))
  }

  /** The payload and the signature behind an accepted header, and what is left of the input behind them. */
  function DecodeBody(mac: Mac, key: Bytes, input: Bytes, size: nat): Result<(Frame, Bytes), WireError>
    requires |input| >= HEADER_SIZE && size % 4 == 0
  {
    var header, end := input[..HEADER_SIZE], HEADER_SIZE + size;
    if |input| < end + MAC_SIZE then Err(Truncated)
    else
      var payload := input[HEADER_SIZE..end];
      if input[end..end + MAC_SIZE] != mac(key, header + payload) then Err(BadSignature)
      else Ok((FrameOf(header, payload), input[end + MAC_SIZE..]))
  }

  /** Whether a prefix of the input is a frame, and what is left of the input behind it. */
  function Decode(mac: Mac, key: Bytes, input: Bytes): Result<(Frame, Bytes), WireError> {
    if |key| < 32 then Err(ShortKey)
    else if |input| < HEADER_SIZE then Err(Truncated)
    else
      var header := input[..HEADER_SIZE];
      var h := FieldsOf(header);
      if !Supported(header) then Err(Unsupported)
      else if h.count == 0 || h.count > MAX_VALUES || h.size != 4 * h.count then Err(BadSize)
      else DecodeBody(mac, key, input, h.size)
  }

  // ---------------------------------------------------------------- lemmas about the parts

  lemma {:induction false} WordOfInit(init: Bytes, last: Bytes, at: nat)
    requires at + 4 <= |init|
    ensures (init + last)[at..at + 4] == init[at..at + 4]
  {
  }

  lemma {:induction false} LastWord(init: Bytes, last: Bytes)
    ensures (init + last)[|init|..|init| + |last|] == last
  {
  }

  lemma {:induction false} PayloadAt(values: seq<Uint32>, i: nat)
    requires i < |values|
    ensures Payload(values)[4 * i..4 * i + 4] == Put(values[i], 4)
    decreases |values|
  {
    var n := |values| - 1;
    if i < n {
      PayloadAt(values[..n], i);
      WordOfInit(Payload(values[..n]), Put(values[n], 4), 4 * i);
    } else {
      LastWord(Payload(values[..n]), Put(values[n], 4));
    }
  }

  lemma {:induction false} ValuesOfPayload(values: seq<Uint32>)
    ensures Values(Payload(values)) == values
  {
    Widths();
    forall i | 0 <= i < |values| ensures Values(Payload(values))[i] == values[i] {
      PayloadAt(values, i);
      GetPut(values[i], 4);
    }
  }

  lemma {:induction false} SplitAt(s: Bytes, k: nat)
    requires k <= |s|
    ensures s == s[..k] + s[k..]
  {
  }

  lemma {:induction false} PayloadFrom(values: seq<Uint32>, payload: Bytes)
    requires |payload| == 4 * |values|
    requires forall i :: 0 <= i < |values| ==> payload[4 * i..4 * i + 4] == Put(values[i], 4)
    ensures Payload(values) == payload
    decreases |values|
  {
    if values != [] {
      var n := |values| - 1;
      var init, last := payload[..4 * n], payload[4 * n..4 * n + 4];
      SplitAt(payload, 4 * n);
      assert last == payload[4 * n..];
      forall i | 0 <= i < n ensures init[4 * i..4 * i + 4] == Put(values[..n][i], 4) {
        WordOfInit(init, last, 4 * i);
      }
      PayloadFrom(values[..n], init);
    }
  }

  lemma {:induction false} PayloadOfValues(payload: Bytes)
    requires |payload| % 4 == 0
    ensures forall i :: 0 <= i < |Values(payload)| ==> Values(payload)[i] < 0x1_0000_0000
    ensures Payload(Values(payload)) == payload
  {
    ValuesFit(payload);
    var values: seq<Uint32> := Values(payload);
    forall i | 0 <= i < |values| ensures payload[4 * i..4 * i + 4] == Put(values[i], 4) {
      PutGet(payload[4 * i..4 * i + 4]);
    }
    PayloadFrom(values, payload);
  }

  /** Where each field of a written header lies. */
  lemma {:induction false} HeaderParts(f: Frame)
    ensures var h := Header(f);
            && h[..4] == [65, 73, 80, 84] && h[4] == 1 && h[5] == 1 && h[6..8] == [0, 0] && h[36..] == [0, 0, 0, 0]
            && h[8..16] == Put(f.sessionId, 8) && h[16..24] == Put(f.sequence, 8) && h[24..28] == Put(f.position, 4)
            && h[28..32] == Put(|f.values|, 4) && h[32..36] == Put(4 * |f.values|, 4)
  {
  }

  lemma {:induction false} FieldsOfHeader(f: Frame)
    requires |f.values| <= MAX_VALUES
    ensures FieldsOf(Header(f)) == Fields(f.sessionId, f.sequence, f.position, |f.values|, 4 * |f.values|)
    ensures Supported(Header(f)) && ReservedAreZero(Header(f))
  {
    HeaderParts(f);
    Widths();
    GetPut(f.sessionId, 8);
    GetPut(f.sequence, 8);
    GetPut(f.position, 4);
    GetPut(|f.values|, 4);
    GetPut(4 * |f.values|, 4);
  }

  // ---------------------------------------------------------------- round trips

  lemma {:induction false} FourSlices(s: Bytes, i: nat, j: nat, k: nat)
    requires i <= j <= k <= |s|
    ensures s == s[..i] + s[i..j] + s[j..k] + s[k..]
  {
  }

  lemma {:induction false} FourParts(a: Bytes, b: Bytes, c: Bytes, d: Bytes)
    ensures var s := a + b + c + d;
            && s[..|a|] == a && s[|a|..|a| + |b|] == b
            && s[|a| + |b|..|a| + |b| + |c|] == c && s[|a| + |b| + |c|..] == d
  {
  }

  /** Input made of the four parts of a signed frame is accepted as that frame. */
  lemma {:induction false} PartsAreAccepted(mac: Mac, key: Bytes, header: Bytes, payload: Bytes, rest: Bytes)
    requires IsMac(mac) && |key| >= 32 && |header| == HEADER_SIZE && Supported(header)
    requires var h := FieldsOf(header); 0 < h.count <= MAX_VALUES && |payload| == h.size == 4 * h.count
    ensures Decode(mac, key, header + payload + mac(key, header + payload) + rest) ==
            Ok((FrameOf(header, payload), rest))
  {
    FourParts(header, payload, mac(key, header + payload), rest);
  }

  /** Reading back a written frame returns it and consumes exactly 72 + 4n bytes. */
  lemma {:induction false} DecodeEncode(mac: Mac, key: Bytes, f: Frame, rest: Bytes)
    requires IsMac(mac) && Sendable(key, f)
    ensures |Encode(mac, key, f)| == 72 + 4 * |f.values|
    ensures Decode(mac, key, Encode(mac, key, f) + rest) == Ok((f, rest))
  {
    FieldsOfHeader(f);
    ValuesOfPayload(f.values);
    PartsAreAccepted(mac, key, Header(f), Payload(f.values), rest);
  }

  lemma {:induction false} HeaderOfPrefix(header: Bytes, rest: Bytes, n: nat, all: Bytes)
    requires |header| <= n <= |all| && all == header + rest
    ensures all[..n][..|header|] == header
  {
  }

  /** The signature covers everything before it. */
  lemma {:induction false} SignatureCoversFrame(mac: Mac, key: Bytes, f: Frame)
    requires IsMac(mac)
    ensures var e, n := Encode(mac, key, f), 40 + 4 * |f.values|;
            |e| == n + 32 && e[..40] == Header(f) && e[40..n] == Payload(f.values) && e[n..] == mac(key, e[..n])
  {
    var signed := Header(f) + Payload(f.values);
    FourParts(Header(f), Payload(f.values), mac(key, signed), []);
    assert Encode(mac, key, f) + [] == Encode(mac, key, f);
    assert Encode(mac, key, f)[..|signed|] == signed;
  }

  /** What a failed write leaves on the connection is never read as a frame. */
  lemma {:induction false} TruncatedFrameIsRefused(mac: Mac, key: Bytes, f: Frame, n: nat)
    requires IsMac(mac) && Sendable(key, f) && n < |Encode(mac, key, f)|
    ensures Decode(mac, key, Encode(mac, key, f)[..n]) == Err(Truncated)
  {
    if n >= HEADER_SIZE {
      FieldsOfHeader(f);
      FourParts(Header(f), Payload(f.values), mac(key, Header(f) + Payload(f.values)), []);
      HeaderOfPrefix(Header(f), Payload(f.values) + mac(key, Header(f) + Payload(f.values)), n, Encode(mac, key, f));
    }
  }

  function EncodeAll(mac: Mac, key: Bytes, fs: seq<Frame>): Bytes {
    if fs == [] then [] else Encode(mac, key, fs[0]) + EncodeAll(mac, key, fs[1..])
  }

  /** Frames read one after the other until n of them are there. */
  function DecodeMany(mac: Mac, key: Bytes, input: Bytes, n: nat): Result<(seq<Frame>, Bytes), WireError> {
    if n == 0 then Ok(([], input))
    else
      match Decode(mac, key, input)
      case Err(e) => Err(e)
      case Ok((f, rest)) =>
        match DecodeMany(mac, key, rest, n - 1)
        case Err(e) => Err(e)
        case Ok((fs, left)) => Ok(([f] + fs, left))
  }

  lemma {:induction false} DecodeManyStep(
    mac: Mac, key: Bytes, f: Frame, fs: seq<Frame>, input: Bytes, rest: Bytes, left: Bytes)
    requires Decode(mac, key, input) == Ok((f, rest)) && DecodeMany(mac, key, rest, |fs|) == Ok((fs, left))
    ensures DecodeMany(mac, key, input, |fs| + 1) == Ok(([f] + fs, left))
  {
  }

  lemma {:induction false} Regroup(a: Bytes, b: Bytes, c: Bytes)
    ensures a + b + c == a + (b + c)
  {
  }

  /** Frames written back to back on one connection come out as the same list. */
  lemma {:induction false} DecodeManyEncodeAll(mac: Mac, key: Bytes, fs: seq<Frame>, rest: Bytes)
    requires IsMac(mac) && forall f :: f in fs ==> Sendable(key, f)
    ensures DecodeMany(mac, key, EncodeAll(mac, key, fs) + rest, |fs|) == Ok((fs, rest))
  {
    if fs == [] {
      assert EncodeAll(mac, key, fs) + rest == rest;
    } else {
      var input, tail := EncodeAll(mac, key, fs) + rest, EncodeAll(mac, key, fs[1..]) + rest;
      Regroup(Encode(mac, key, fs[0]), EncodeAll(mac, key, fs[1..]), rest);
      DecodeEncode(mac, key, fs[0], tail);
      DecodeManyEncodeAll(mac, key, fs[1..], rest);
      DecodeManyStep(mac, key, fs[0], fs[1..], input, tail, rest);
      assert fs == [fs[0]] + fs[1..];
    }
  }

  lemma {:induction false} HeaderOfFields(header: Bytes, f: Frame)
    requires |header| == HEADER_SIZE && Supported(header) && ReservedAreZero(header)
    requires FieldsOf(header) == Fields(f.sessionId, f.sequence, f.position, |f.values|, 4 * |f.values|)
    ensures header == Header(f)
  {
    PutGet(header[8..16]);
    PutGet(header[16..24]);
    PutGet(header[24..28]);
    PutGet(header[28..32]);
    PutGet(header[32..36]);
    assert header == header[..4] + [header[4], header[5]] + header[6..8] + header[8..16] + header[16..24]
                     + header[24..28] + header[28..32] + header[32..36] + header[36..];
  }

  /** The four parts of accepted input. */
  lemma {:induction false} PartsOfAccepted(mac: Mac, key: Bytes, input: Bytes, f: Frame, rest: Bytes)
    returns (header: Bytes, payload: Bytes)
    requires IsMac(mac) && Decode(mac, key, input) == Ok((f, rest))
    ensures Sendable(key, f) && |input| >= HEADER_SIZE && header == input[..HEADER_SIZE]
    ensures Supported(header) && payload == Payload(f.values)
    ensures FieldsOf(header) == Fields(f.sessionId, f.sequence, f.position, |f.values|, 4 * |f.values|)
    ensures input == header + payload + mac(key, header + payload) + rest
  {
    header := input[..HEADER_SIZE];
    var size := FieldsOf(header).size;
    payload := input[HEADER_SIZE..HEADER_SIZE + size];
    PayloadOfValues(payload);
    FourSlices(input, HEADER_SIZE, HEADER_SIZE + size, HEADER_SIZE + size + MAC_SIZE);
  }

  /** Accepted input is the encoding of the frame it yields exactly when the unread header bytes are zero. */
  lemma {:induction false} AcceptedInputIsCanonical(mac: Mac, key: Bytes, input: Bytes, f: Frame, rest: Bytes)
    requires IsMac(mac) && Decode(mac, key, input) == Ok((f, rest))
    ensures Sendable(key, f) && |input| >= HEADER_SIZE
    ensures input == Encode(mac, key, f) + rest <==> ReservedAreZero(input[..HEADER_SIZE])
  {
    var header, payload := PartsOfAccepted(mac, key, input, f, rest);
    if ReservedAreZero(header) {
      HeaderOfFields(header, f);
    } else if input == Encode(mac, key, f) + rest {
      assert (Encode(mac, key, f) + rest)[..HEADER_SIZE] == Header(f);
      FieldsOfHeader(f);
    }
  }

  lemma {:induction false} SameFields(header: Bytes, changed: Bytes)
    requires |header| == HEADER_SIZE && changed == header[6 := 1] && Supported(header)
    ensures FieldsOf(changed) == FieldsOf(header) && Supported(changed)
  {
    assert changed[8..16] == header[8..16] && changed[16..24] == header[16..24] && changed[24..28] == header[24..28];
    assert changed[28..32] == header[28..32] && changed[32..36] == header[32..36] && changed[..4] == header[..4];
  }

  /** The number in some bytes of the input. */
  function FieldAt(input: Bytes, at: nat, width: nat): nat
    requires at + width <= |input|
  {
    Get(input[at..at + width])
  }

  /** What makes input acceptable, byte by byte. */
  predicate IsAcceptable(mac: Mac, key: Bytes, input: Bytes) {
    && |key| >= 32 && |input| >= 40
    && input[..4] == [65, 73, 80, 84] && input[4] == 1 && input[5] == 1
    && var count, end := FieldAt(input, 28, 4), 40 + FieldAt(input, 32, 4);
       && 0 < count <= 16 * 1024 * 1024 && end == 40 + 4 * count
       && |input| >= end + 32 && input[end..end + 32] == mac(key, input[..end])
  }

  lemma {:induction false} SliceOfFront(s: Bytes, n: nat, i: nat, j: nat)
    requires i <= j <= n <= |s|
    ensures s[..n][i..j] == s[i..j]
  {
  }

  lemma {:induction false} FrontAndRest(s: Bytes, i: nat, j: nat)
    requires i <= j <= |s|
    ensures s[..i] + s[i..j] == s[..j]
  {
  }

  lemma {:induction false} HeaderFieldsAt(input: Bytes)
    requires |input| >= 40
    ensures FieldsOf(input[..40]) == Fields(FieldAt(input, 8, 8), FieldAt(input, 16, 8), FieldAt(input, 24, 4),
                                            FieldAt(input, 28, 4), FieldAt(input, 32, 4))
  {
    SliceOfFront(input, 40, 8, 16);
    SliceOfFront(input, 40, 16, 24);
    SliceOfFront(input, 40, 24, 28);
    SliceOfFront(input, 40, 28, 32);
    SliceOfFront(input, 40, 32, 36);
  }

  lemma {:induction false} SliceOfMiddle(s: Bytes, i: nat, j: nat, at: nat, n: nat)
    requires i + at + n <= j <= |s|
    ensures s[i..j][at..at + n] == s[i + at..i + at + n]
  {
    var a, b := s[i..j][at..at + n], s[i + at..i + at + n];
    forall k | 0 <= k < n ensures a[k] == b[k] {
      assert s[i..j][at + k] == s[i + at + k];
    }
  }

  lemma {:induction false} ValuesStandAt(input: Bytes, at: nat, size: nat)
    requires at + size <= |input| && size % 4 == 0
    ensures forall i :: 0 <= i < size / 4 ==> Values(input[at..at + size])[i] == FieldAt(input, at + 4 * i, 4)
  {
    forall i | 0 <= i < size / 4 ensures Values(input[at..at + size])[i] == FieldAt(input, at + 4 * i, 4) {
      SliceOfMiddle(input, at, at + size, 4 * i, 4);
    }
  }

  /** Input is accepted exactly when it is acceptable, and the frame is what stands at the fields' places. */
  lemma {:induction false} FramesAreReadExactly(mac: Mac, key: Bytes, input: Bytes)
    ensures Decode(mac, key, input).Ok? <==> IsAcceptable(mac, key, input)
    ensures IsAcceptable(mac, key, input) ==>
              var (f, rest) := Decode(mac, key, input).value;
              && f.sessionId == FieldAt(input, 8, 8) && f.sequence == FieldAt(input, 16, 8)
              && f.position == FieldAt(input, 24, 4) && |f.values| == FieldAt(input, 28, 4)
              && (forall i :: 0 <= i < |f.values| ==> f.values[i] == FieldAt(input, 40 + 4 * i, 4))
              && rest == input[72 + 4 * |f.values|..]
  {
    if |input| >= 40 {
      HeaderFieldsAt(input);
      SliceOfFront(input, 40, 0, 4);
      var size := FieldAt(input, 32, 4);
      if |input| >= 40 + size {
        FrontAndRest(input, 40, 40 + size);
      }
      if IsAcceptable(mac, key, input) {
        ValuesStandAt(input, 40, size);
      }
    }
  }

  /** Such input exists: byte 6 set, and signed as it stands, decodes to the frame without being its encoding. */
  lemma {:induction false} UnreadByteIsAccepted(mac: Mac, key: Bytes, f: Frame, rest: Bytes)
    requires IsMac(mac) && Sendable(key, f)
    ensures var header, payload := Header(f)[6 := 1], Payload(f.values);
            var input := header + payload + mac(key, header + payload) + rest;
            Decode(mac, key, input) == Ok((f, rest)) && input != Encode(mac, key, f) + rest
  {
    var header, payload := Header(f)[6 := 1], Payload(f.values);
    FieldsOfHeader(f);
    SameFields(Header(f), header);
    ValuesOfPayload(f.values);
    PartsAreAccepted(mac, key, header, payload, rest);
    assert (header + payload + mac(key, header + payload) + rest)[6] == 1;
    assert (Encode(mac, key, f) + rest)[6] == Header(f)[6];
    assert Header(f)[6..8][0] == 0;
  }

  // ---------------------------------------------------------------- the program

  lemma {:induction false} FourZeros(s: Bytes)
    requires |s| == 4 && forall i :: 0 <= i < 4 ==> s[i] == 0
    ensures s == [0, 0, 0, 0]
  {
  }

  method WriteNumbers(f: Frame, buffer: array<Byte>)
    requires |f.values| <= MAX_VALUES && buffer.Length == HEADER_SIZE
    modifies buffer
    ensures buffer[..36] == old(buffer[..8]) + Put(f.sessionId, 8) + Put(f.sequence, 8) + Put(f.position, 4)
                            + Put(|f.values|, 4) + Put(4 * |f.values|, 4)
    ensures forall j :: 36 <= j < HEADER_SIZE ==> buffer[j] == old(buffer[j])
  {
    PutAt(buffer, 8, f.sessionId, 8);
    PutAt(buffer, 16, f.sequence, 8);
    PutAt(buffer, 24, f.position, 4);
    PutAt(buffer, 28, |f.values|, 4);
    PutAt(buffer, 32, 4 * |f.values|, 4);
  }

  method WriteHeader(f: Frame) returns (header: Bytes)
    requires |f.values| <= MAX_VALUES
    ensures header == Header(f)
  {
    var buffer := new Byte[HEADER_SIZE](_ => 0);
    buffer[0], buffer[1], buffer[2], buffer[3] := 65, 73, 80, 84;
    buffer[4] := 1;
    buffer[5] := 1;
    assert buffer[..8] == MAGIC + [1, 1, 0, 0];
    WriteNumbers(f, buffer);
    header := buffer[..];
    SplitAt(header, 36);
    FourZeros(header[36..]);
  }

  method WritePayload(values: seq<Uint32>) returns (payload: Bytes)
    ensures payload == Payload(values)
  {
    var buffer := new Byte[4 * |values|](_ => 0);
    for i := 0 to |values|
      invariant buffer[..4 * i] == Payload(values[..i])
    {
      PutAt(buffer, 4 * i, values[i], 4);
      assert values[..i + 1][..i] == values[..i];
      assert buffer[..4 * (i + 1)] == Payload(values[..i]) + Put(values[i], 4);
    }
    assert values[..|values|] == values;
    payload := buffer[..];
  }

  /** Writes two parts one after the other unless the first write fails. */
  method WriteBoth(a: Bytes, b: Bytes, out: Bytes, room: Option<nat>)
    returns (ok: bool, sent: Bytes, left: Option<nat>)
    ensures ok == Fits(|a + b|, room) && sent == out + Taken(a + b, room)
    ensures ok ==> left == Less(room, |a + b|)
  {
    TakenTwice(a, b, room);
    left := room;
    sent := out + Taken(a, room);
    ok := Fits(|a|, room);
    if ok {
      left := Less(room, |a|);
      Regroup(out, a, Taken(b, left));
      sent := sent + Taken(b, left);
      ok := Fits(|b|, left);
      left := Less(left, |b|);
    }
  }

  /** WriteFrame to a connection that takes room more bytes; out is what it has received before. */
  method WriteFrame(mac: Mac, key: Bytes, f: Frame, out: Bytes, room: Option<nat>)
    returns (r: Result<bool, WireError>, sent: Bytes)
    ensures |key| < 32 ==> r == Err(ShortKey) && sent == out
    ensures |key| >= 32 && !Sendable(key, f) ==> r == Err(BadValueCount) && sent == out
    ensures r == Err(ShortKey) <==> |key| < 32
    ensures r == Err(BadValueCount) <==> |key| >= 32 && (f.values == [] || |f.values| > 16 * 1024 * 1024)
    ensures Sendable(key, f) ==>
              var frame := Encode(mac, key, f);
              sent == out + Taken(frame, room) && r == if Fits(|frame|, room) then Ok(true) else Err(WriteFailed)
  {
    if |key| < 32 {
      return Err(ShortKey), out;
    }
    if |f.values| == 0 || |f.values| > MAX_VALUES {
      return Err(BadValueCount), out;
    }
    var header := WriteHeader(f);
    var payload := WritePayload(f.values);
    var signature := mac(key, header + payload);
    TakenTwice(header + payload, signature, room);
    var ok, left;
    ok, sent, left := WriteBoth(header, payload, out, room);
    if ok {
      Regroup(out, header + payload, Taken(signature, left));
      sent := sent + Taken(signature, left);
      ok := Fits(|signature|, left);
    }
    r := if ok then Ok(true) else Err(WriteFailed);
  }

  /** Taking b and then c bytes from what is left behind the first a bytes. */
  lemma {:induction false} RestOfRest(s: Bytes, a: nat, b: nat, c: nat)
    requires a + b + c <= |s|
    ensures s[a..][..b] == s[a..a + b]
    ensures s[a..][b..][..c] == s[a + b..a + b + c] && s[a..][b..][c..] == s[a + b + c..]
  {
  }

  method ReadValues(payload: Bytes) returns (values: seq<Uint32>)
    requires |payload| % 4 == 0
    ensures values == Values(payload)
  {
    values := [];
    Widths();
    for i := 0 to |payload| / 4
      invariant |values| == i && forall k :: 0 <= k < i ==> values[k] == Values(payload)[k]
    {
      GetFits(payload[4 * i..4 * i + 4], 4);
      values := values + [Get(payload[4 * i..4 * i + 4])];
    }
  }

  /** The payload, the signature and what follows, if the connection holds that much behind the header. */
  method ReadParts(input: Bytes, size: nat) returns (r: Option<(Bytes, Bytes, Bytes)>)
    requires |input| >= HEADER_SIZE
    ensures var end := HEADER_SIZE + size;
            r == if |input| < end + MAC_SIZE then None
                 else Some((input[HEADER_SIZE..end], input[end..end + MAC_SIZE], input[end + MAC_SIZE..]))
  {
    var rest := input[HEADER_SIZE..];
    if |rest| < size {
      return None;
    }
    var payload;
    payload, rest := rest[..size], rest[size..];
    if |rest| < MAC_SIZE {
      return None;
    }
    RestOfRest(input, HEADER_SIZE, size, MAC_SIZE);
    return Some((payload, rest[..MAC_SIZE], rest[MAC_SIZE..]));
  }

  method BuildFrame(header: Bytes, payload: Bytes) returns (f: Frame)
    requires |header| == HEADER_SIZE && |payload| % 4 == 0
    ensures f == FrameOf(header, payload)
  {
    InRange(header, payload);
    var values := ReadValues(payload);
    f := Frame(Get(header[8..16]), Get(header[16..24]), Get(header[24..28]), values);
  }

  method ReadBody(mac: Mac, key: Bytes, input: Bytes, size: nat) returns (r: Result<(Frame, Bytes), WireError>)
    requires |input| >= HEADER_SIZE && size % 4 == 0
    ensures r == DecodeBody(mac, key, input, size)
  {
    var header := input[..HEADER_SIZE];
    var parts := ReadParts(input, size);
    if parts.None? {
      return Err(Truncated);
    }
    var (payload, signature, rest) := parts.value;
    if signature != mac(key, header + payload) {
      return Err(BadSignature);
    }
    var f := BuildFrame(header, payload);
    r := Ok((f, rest));
  }

  /** ReadFrame from a connection that holds input and then ends. */
  method ReadFrame(mac: Mac, key: Bytes, input: Bytes) returns (r: Result<(Frame, Bytes), WireError>)
    ensures r == Decode(mac, key, input)
  {
    if |key| < 32 {
      return Err(ShortKey);
    }
    if |input| < HEADER_SIZE {
      return Err(Truncated);
    }
    var header := input[..HEADER_SIZE];
    if header[..4] != MAGIC || header[4] != 1 || header[5] != 1 {
      return Err(Unsupported);
    }
    var count, size := Get(header[28..32]), Get(header[32..36]);
    if count == 0 || count > MAX_VALUES || size != count * 4 {
      return Err(BadSize);
    }
    r := ReadBody(mac, key, input, size);
  }
}
