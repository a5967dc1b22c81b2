/** The proxy's upload loop against a host's model cache. */
module Upload {
  import opened Prelude
  import opened ModelCache

  /** One exchange with the host: either message may be lost, and the host's file operations may fail. */
  datatype Trip = Trip(requestLost: bool, replyLost: bool, first: Io, io: Io)

  const CLEAN: Trip := Trip(false, false, NO_FAULT, NO_FAULT)

  datatype UploadError = CannotOpen | Transport | HostRefused(cause: StoreError) | NotAdvanced | NotFinalized

  type Answer = Result<CacheStatus, UploadError>

  // ---------------------------------------------------------------- what an attempt does

  function Heard(reply: Reply, lost: bool): Answer {
    if lost then Err(Transport) else if reply.Err? then Err(HostRefused(reply.error)) else Ok(reply.value)
  }

  function AskStatus(hash: Hash, digest: string, size: int, fs: Files, trip: Trip): (Files, Answer) {
    if trip.requestLost then (fs, Err(Transport))
    else
      var (fs1, reply) := StatusCall(hash, digest, size, fs, trip.first);
      (fs1, Heard(reply, trip.replyLost))
  }

  /** At most n bytes of the source from an offset on. */
  function Piece(source: Bytes, offset: nat, n: nat): Bytes {
    if offset <= |source| then source[offset..Min(offset + n, |source|)] else []
  }

  /** A source shorter than promised breaks the request off behind its last byte. */
  function Broken(io: Io, sent: nat, n: nat): Io {
    if sent < n && io.copyStopsAt.None? then io.(copyStopsAt := Some(sent)) else io
  }

  function SendPiece(
    hash: Hash, digest: string, size: int, source: Bytes, offset: nat, n: nat, limit: int, fs: Files, trip: Trip)
    : (Files, Answer)
  {
    var body := Piece(source, offset, n);
    if trip.requestLost then (fs, Err(Transport))
    else
      var io := Broken(trip.io, |body|, n);
      var (fs1, reply) := AppendCall(hash, digest, size, offset, body, limit, fs, trip.first, io);
      (fs1, Heard(reply, trip.replyLost || |body| < n))
  }

  /** The host's state after an attempt, the result and the number of chunks sent. */
  datatype Attempt<S> = Attempt(files: S, result: Result<bool, UploadError>, uploads: nat)

  /**
   * The loop of ensureModel from a known status on, with any host: host answers an upload of n bytes at
   * an offset and changes its state. trips(k) is the next exchange.
   */
  function SendRest<S>(
    host: (S, nat, nat, Trip) -> (S, Answer), size: int, chunk: nat, files: S, status: CacheStatus,
    trips: nat -> Trip, k: nat): Attempt<S>
    decreases size - status.received
  {
    if status.received >= size then Attempt(files, if status.ready then Ok(true) else Err(NotFinalized), 0)
    else
      var (next, answer) := host(files, status.received, Min(size - status.received, chunk), trips(k));
      if answer.Err? then Attempt(next, Err(answer.error), 1)
      else if answer.value.received <= status.received then Attempt(next, Err(NotAdvanced), 1)
      else
        var rest := SendRest(host, size, chunk, next, answer.value, trips, k + 1);
        rest.(uploads := rest.uploads + 1)
  }

  /** The host that keeps its models in a Store. */
  function HostOf(hash: Hash, digest: string, size: int, source: Bytes, limit: int)
    : (Files, nat, nat, Trip) -> (Files, Answer)
  {
    (fs: Files, at: nat, n: nat, trip: Trip) => SendPiece(hash, digest, size, source, at, n, limit, fs, trip)
  }

  /** The circumstances of an attempt: whether the source file can be opened, and the exchanges. */
  datatype Course = Course(opens: bool, trips: nat -> Trip)

  function Ensure(
    hash: Hash, digest: string, size: int, source: Bytes, chunk: nat, limit: int, fs: Files, course: Course)
    : Attempt<Files>
  {
    var (fs1, answer) := AskStatus(hash, digest, size, fs, course.trips(0));
    if answer.Err? then Attempt(fs1, Err(answer.error), 0)
    else if answer.value.ready then Attempt(fs1, Ok(true), 0)
    else if !course.opens then Attempt(fs1, Err(CannotOpen), 0)
    else SendRest(HostOf(hash, digest, size, source, limit), size, chunk, fs1, answer.value, course.trips, 1)
  }

  // ---------------------------------------------------------------- the proxy

  method GetStatus(store: Store, digest: string, size: int, trip: Trip) returns (r: Answer)
    modifies store`finals, store`parts
    ensures (store.FilesOf(digest), r) == AskStatus(store.hash, digest, size, old(store.FilesOf(digest)), trip)
    ensures store.OthersUntouched(digest)
  {
    if trip.requestLost {
      return Err(Transport);
    }
    var reply := store.Status(digest, size, trip.first);
    if trip.replyLost {
      return Err(Transport);
    }
    if reply.Err? {
      return Err(HostRefused(reply.error));
    }
    return Ok(reply.value);
  }

  /** Uploads n bytes of the source from an offset on. */
  method PutChunk(
    store: Store, digest: string, size: int, source: Bytes, offset: nat, n: nat, limit: int, trip: Trip)
    returns (r: Answer)
    modifies store`finals, store`parts
    ensures (store.FilesOf(digest), r)
         == SendPiece(store.hash, digest, size, source, offset, n, limit, old(store.FilesOf(digest)), trip)
    ensures store.OthersUntouched(digest)
  {
    var body := Piece(source, offset, n);
    if trip.requestLost {
      return Err(Transport);
    }
    var reply := store.Append(digest, size, offset, body, limit, trip.first, Broken(trip.io, |body|, n));
    if trip.replyLost || |body| < n {
      return Err(Transport);
    }
    if reply.Err? {
      return Err(HostRefused(reply.error));
    }
    return Ok(reply.value);
  }

  /** What is left of the loop comes to goal, after the given number of uploads. */
  ghost predicate Leads<S(!new)>(
    host: (S, nat, nat, Trip) -> (S, Answer), size: int, chunk: nat, files: S, status: CacheStatus,
    trips: nat -> Trip, uploads: nat, goal: Attempt<S>)
  {
    var rest := SendRest(host, size, chunk, files, status, trips, uploads + 1);
    goal == rest.(uploads := uploads + rest.uploads)
  }

  /** The loop of ensureModel. */
  method SendChunks(
    store: Store, digest: string, size: int, source: Bytes, first: CacheStatus, chunk: nat, limit: int,
    trips: nat -> Trip)
    returns (r: Result<bool, UploadError>, uploads: nat)
    modifies store`finals, store`parts
    ensures var host := HostOf(store.hash, digest, size, source, limit);
            Attempt(store.FilesOf(digest), r, uploads)
            == SendRest(host, size, chunk, old(store.FilesOf(digest)), first, trips, 1)
    ensures store.OthersUntouched(digest)
  {
    uploads := 0;
    var status := first;
    ghost var host := HostOf(store.hash, digest, size, source, limit);
    ghost var goal := SendRest(host, size, chunk, store.FilesOf(digest), first, trips, 1);
    while status.received < size
      invariant Leads(host, size, chunk, store.FilesOf(digest), status, trips, uploads, goal)
      invariant store.OthersUntouched(digest)
      decreases size - status.received
    {
      var n := Min(size - status.received, chunk);
      var answer := PutChunk(store, digest, size, source, status.received, n, limit, trips(uploads + 1));
      uploads := uploads + 1;
      if answer.Err? {
        return Err(answer.error), uploads;
      }
      if answer.value.received <= status.received {
        return Err(NotAdvanced), uploads;
      }
      status := answer.value;
    }
    r := if status.ready then Ok(true) else Err(NotFinalized);
  }

  method EnsureModel(
    store: Store, digest: string, size: int, source: Bytes, chunk: nat, limit: int, course: Course)
    returns (r: Result<bool, UploadError>, uploads: nat)
    modifies store`finals, store`parts
    ensures Attempt(store.FilesOf(digest), r, uploads)
         == Ensure(store.hash, digest, size, source, chunk, limit, old(store.FilesOf(digest)), course)
    ensures store.OthersUntouched(digest)
  {
    var answer := GetStatus(store, digest, size, course.trips(0));
    if answer.Err? {
      return Err(answer.error), 0;
    }
    if answer.value.ready {
      return Ok(true), 0;
    }
    if !course.opens {
      return Err(CannotOpen), 0;
    }
    r, uploads := SendChunks(store, digest, size, source, answer.value, chunk, limit, course.trips);
  }

  // ---------------------------------------------------------------- every attempt ends

  /**
   * Whatever host answers, and whatever it answers: every further upload follows an answer that raised
   * the offset, so there are never more uploads than missing bytes.
   */
  lemma {:induction false} LoopIsBounded<S>(
    host: (S, nat, nat, Trip) -> (S, Answer), size: int, chunk: nat, files: S, status: CacheStatus,
    trips: nat -> Trip, k: nat)
    ensures SendRest(host, size, chunk, files, status, trips, k).uploads <= Max(size - status.received, 0)
    decreases size - status.received
  {
    if status.received < size {
      var (next, answer) := host(files, status.received, Min(size - status.received, chunk), trips(k));
      if answer.Ok? && answer.value.received > status.received {
        LoopIsBounded(host, size, chunk, next, answer.value, trips, k + 1);
      }
    }
  }

  /** So an attempt sends no more chunks than the lease has bytes. */
  lemma {:induction false} UploadsAreBounded(
    hash: Hash, digest: string, size: int, source: Bytes, chunk: nat, limit: int, fs: Files, course: Course)
    ensures Ensure(hash, digest, size, source, chunk, limit, fs, course).uploads <= Max(size, 0)
  {
    var (fs1, answer) := AskStatus(hash, digest, size, fs, course.trips(0));
    if answer.Ok? {
      LoopIsBounded(HostOf(hash, digest, size, source, limit), size, chunk, fs1, answer.value, course.trips, 1);
    }
  }

  // ---------------------------------------------------------------- what success means

  /** A turn keeps the invariant, and an answer that says Ready is true. */
  predicate IsTrueTurn(turn: (Files, Answer), inv: Files -> bool, good: Files -> bool) {
    inv(turn.0) && (turn.1.Ok? && turn.1.value.ready ==> good(turn.0))
  }

  ghost predicate IsTrueHost(
    host: (Files, nat, nat, Trip) -> (Files, Answer), trips: nat -> Trip, inv: Files -> bool, good: Files -> bool)
  {
    forall fs, at: nat, n: nat, i: nat :: inv(fs) ==> IsTrueTurn(host(fs, at, n, trips(i)), inv, good)
  }

  /** If the host's answers are true, so is success. */
  lemma {:induction false} SendRestIsTrue(
    host: (Files, nat, nat, Trip) -> (Files, Answer), size: int, chunk: nat, fs: Files, status: CacheStatus,
    trips: nat -> Trip, k: nat, inv: Files -> bool, good: Files -> bool)
    requires IsTrueHost(host, trips, inv, good) && inv(fs) && (status.ready ==> good(fs))
    ensures var t := SendRest(host, size, chunk, fs, status, trips, k);
            inv(t.files) && (t.result == Ok(true) ==> good(t.files))
    decreases size - status.received
  {
    if status.received < size {
      var n := Min(size - status.received, chunk);
      var (next, answer) := host(fs, status.received, n, trips(k));
      assert IsTrueTurn(host(fs, status.received, n, trips(k)), inv, good);
      if answer.Ok? && answer.value.received > status.received {
        SendRestIsTrue(host, size, chunk, next, answer.value, trips, k + 1, inv, good);
      }
    }
  }

  /** The host has a final file, and it is the one the digest stands for. */
  predicate IsCached(hash: Hash, digest: string, fs: Files) { fs.final.Some? && hash(fs.final.value) == digest }

  lemma {:induction false} StoreAnswersTruly(
    hash: Hash, digest: string, size: int, source: Bytes, at: nat, n: nat, limit: int, fs: Files, trip: Trip)
    requires Sound(hash, digest, fs)
    ensures var turn := SendPiece(hash, digest, size, source, at, n, limit, fs, trip);
            IsTrueTurn(turn, fs => Sound(hash, digest, fs), fs => IsCached(hash, digest, fs))
    ensures var turn := AskStatus(hash, digest, size, fs, trip);
            IsTrueTurn(turn, fs => Sound(hash, digest, fs), fs => IsCached(hash, digest, fs))
  {
    if ValidLease(digest, size) {
      var body := Piece(source, at, n);
      ServeIsSound(hash, digest, fs, Query(size, trip.first));
      if limit > 0 {
        var io := Broken(trip.io, |body|, n);
        ServeIsSound(hash, digest, fs, ModelCache.Upload(size, at, body, limit, trip.first, io));
      }
    }
  }

  /**
   * Success means the model is there: whatever is lost or fails, and whatever the lease says, an attempt
   * that ends well leaves a final file with the lease's digest.
   */
  lemma {:induction false} SuccessMeansCached(
    hash: Hash, digest: string, size: int, source: Bytes, chunk: nat, limit: int, fs: Files, course: Course)
    requires Sound(hash, digest, fs)
    ensures var t := Ensure(hash, digest, size, source, chunk, limit, fs, course);
            Sound(hash, digest, t.files) && (t.result == Ok(true) ==> IsCached(hash, digest, t.files))
  {
    var inv, good := fs => Sound(hash, digest, fs), fs => IsCached(hash, digest, fs);
    var host := HostOf(hash, digest, size, source, limit);
    StoreAnswersTruly(hash, digest, size, source, 0, 0, limit, fs, course.trips(0));
    var (fs1, answer) := AskStatus(hash, digest, size, fs, course.trips(0));
    if answer.Ok? && !answer.value.ready && course.opens {
      forall fs, at: nat, n: nat, i: nat | inv(fs) ensures IsTrueTurn(host(fs, at, n, course.trips(i)), inv, good) {
        StoreAnswersTruly(hash, digest, size, source, at, n, limit, fs, course.trips(i));
      }
      SendRestIsTrue(host, size, chunk, fs1, answer.value, course.trips, 1, inv, good);
    }
  }

  predicate HasSize(fs: Files, size: int) { fs.final.Some? && |fs.final.value| == size }

  lemma {:induction false} ServeReadyHasFile(
    hash: Hash, digest: string, size: nat, offset: nat, src: Bytes, limit: nat, fs: Files, first: Io, io: Io)
    ensures var (fs1, r) := AppendTo(hash, digest, size, offset, src, limit, fs, first, io);
            r.Ok? && r.value.ready ==> fs1.final.Some?
  {
  }

  /** The final file an upload makes has the size of its lease. */
  lemma {:induction false} FinalHasSize(
    hash: Hash, digest: string, size: nat, offset: nat, src: Bytes, limit: nat, fs: Files, first: Io, io: Io)
    requires fs.final.None? && !LeavesStalePart(hash, digest, size, fs, first)
    ensures var fs1 := AppendTo(hash, digest, size, offset, src, limit, fs, first, io).0;
            fs1.final.Some? ==> |fs1.final.value| == size
  {
    var (fs1, status) := StatusOf(hash, digest, size, fs, first);
    if status.Ok? && !status.value.ready {
      StatusTellsPart(hash, digest, size, fs, first);
    }
  }

  lemma {:induction false} ReadyHasSize(
    hash: Hash, digest: string, size: nat, offset: nat, src: Bytes, limit: nat, fs: Files, first: Io, io: Io)
    requires !LeavesStalePart(hash, digest, size, fs, first)
    ensures var (fs1, r) := AppendTo(hash, digest, size, offset, src, limit, fs, first, io);
            r.Ok? && r.value.ready ==> HasSize(fs1, size)
  {
    if fs.final.None? {
      FinalHasSize(hash, digest, size, offset, src, limit, fs, first, io);
      ServeReadyHasFile(hash, digest, size, offset, src, limit, fs, first, io);
    }
  }

  lemma {:induction false} StoreAnswersSize(
    hash: Hash, digest: string, size: int, source: Bytes, at: nat, n: nat, limit: int, fs: Files, trip: Trip)
    requires !trip.first.remove
    ensures var turn := SendPiece(hash, digest, size, source, at, n, limit, fs, trip);
            IsTrueTurn(turn, _ => true, fs => HasSize(fs, size))
    ensures IsTrueTurn(AskStatus(hash, digest, size, fs, trip), _ => true, fs => HasSize(fs, size))
  {
    if ValidLease(digest, size) && limit > 0 {
      var body := Piece(source, at, n);
      ReadyHasSize(hash, digest, size, at, body, limit, fs, trip.first, Broken(trip.io, |body|, n));
    }
  }

  /** And it has the lease's size, as long as the host can remove part files it has no use for. */
  lemma {:induction false} SuccessMeansSize(
    hash: Hash, digest: string, size: int, source: Bytes, chunk: nat, limit: int, fs: Files, course: Course)
    requires forall i :: !course.trips(i).first.remove
    ensures var t := Ensure(hash, digest, size, source, chunk, limit, fs, course);
            t.result == Ok(true) ==> HasSize(t.files, size)
  {
    var inv, good := (_: Files) => true, fs => HasSize(fs, size);
    var host := HostOf(hash, digest, size, source, limit);
    StoreAnswersSize(hash, digest, size, source, 0, 0, limit, fs, course.trips(0));
    var (fs1, answer) := AskStatus(hash, digest, size, fs, course.trips(0));
    if answer.Ok? && !answer.value.ready && course.opens {
      forall fs, at: nat, n: nat, i: nat | inv(fs) ensures IsTrueTurn(host(fs, at, n, course.trips(i)), inv, good) {
        StoreAnswersSize(hash, digest, size, source, at, n, limit, fs, course.trips(i));
      }
      SendRestIsTrue(host, size, chunk, fs1, answer.value, course.trips, 1, inv, good);
    }
  }

  /**
   * That is needed: with a part file [1, 2] that must go and stays, a lease for one byte ends well after
   * one upload with a final file of three, if the digest happens to be that file's.
   */
  lemma {:induction false} StalePartEndsWithWrongSize(digest: string)
    ensures var stuck := NO_FAULT.(remove := true);
            var hash := (b: Bytes) => if b == [1, 2, 9] then digest else "";
            AppendTo(hash, digest, 1, 0, [9], 8, Files(None, Some([1, 2])), stuck, stuck)
            == (Files(Some([1, 2, 9]), None), Ok(CacheStatus(1, true)))
  {
    assert Limited([9], 8) == [9];
    assert [1, 2] + [9] == [1, 2, 9];
  }

  /** What ends an attempt before anything is sent: a lost or refused status, a finished model, no source file. */
  lemma {:induction false} EarlyEndsAreExact(
    hash: Hash, digest: string, size: int, source: Bytes, chunk: nat, limit: int, fs: Files, course: Course)
    ensures var t, trip := Ensure(hash, digest, size, source, chunk, limit, fs, course), course.trips(0);
            var (fs1, reply) := StatusCall(hash, digest, size, fs, trip.first);
            if trip.requestLost then t == Attempt(fs, Err(Transport), 0)
            else if trip.replyLost then t == Attempt(fs1, Err(Transport), 0)
            else if reply.Err? then t == Attempt(fs1, Err(HostRefused(reply.error)), 0)
            else if reply.value.ready then t == Attempt(fs1, Ok(true), 0)
            else if !course.opens then t == Attempt(fs1, Err(CannotOpen), 0)
            else reply.value.received < size ==> t.uploads > 0
  {
  }

  // ---------------------------------------------------------------- undisturbed attempts

  /** k is a / b, rounded up. */
  predicate IsCeiling(a: nat, b: nat, k: nat) { (k - 1) * b < a <= k * b }

  /** Bytes in a number of full chunks. */
  function Full(uploads: nat, chunk: nat): nat { if uploads == 0 then 0 else Full(uploads - 1, chunk) + chunk }

  /** So many chunks, the last one not empty and perhaps not full, hold the missing bytes. */
  predicate Covers(missing: nat, chunk: nat, uploads: nat) {
    if uploads == 0 then missing == 0 else Full(uploads - 1, chunk) < missing <= Full(uploads, chunk)
  }

  lemma {:induction false} FullIsProduct(uploads: nat, chunk: nat)
    ensures Full(uploads, chunk) == uploads * chunk
  {
    if uploads > 0 {
      FullIsProduct(uploads - 1, chunk);
      assert (uploads - 1) * chunk + chunk == uploads * chunk;
    }
  }

  lemma {:induction false} CoversIsCeiling(missing: nat, chunk: nat, uploads: nat)
    requires Covers(missing, chunk, uploads) && chunk > 0
    ensures IsCeiling(missing, chunk, uploads)
  {
    FullIsProduct(uploads, chunk);
    if uploads > 0 {
      FullIsProduct(uploads - 1, chunk);
    }
  }

  /** Bytes the host already has of a model it is asked about. */
  function Received(fs: Files, size: nat): nat {
    if fs.final.Some? then size else if fs.part.Some? then |fs.part.value| else 0
  }

  /** The host can go on from what it has: nothing, a prefix of the source, or a finished file of the right size. */
  predicate Resumable(fs: Files, source: Bytes) {
    && (fs.final.Some? ==> |fs.final.value| == |source|)
    && IsPrefix(fs.part, source)
  }

  /** The lease names the source's own digest and size. */
  ghost predicate LeaseFits(hash: Hash, digest: string, size: int, source: Bytes) {
    ValidLease(digest, size) && size == |source| && hash(source) == digest
  }

  lemma {:induction false} FirstStatus(hash: Hash, digest: string, source: Bytes, fs: Files)
    requires hash(source) == digest && Resumable(fs, source) && |source| > 0
    ensures var (fs1, r) := StatusOf(hash, digest, |source|, fs, NO_FAULT);
            && Resumable(fs1, source) && Received(fs1, |source|) == Received(fs, |source|)
            && r == Ok(CacheStatus(Received(fs, |source|), Received(fs, |source|) == |source|))
            && (Received(fs, |source|) == |source| <==> fs1.final.Some?)
            && (fs.final.None? && fs1.final.Some? ==> fs1.final == Some(source))
            && (fs.final.Some? ==> fs1 == fs)
  {
    if fs.part.Some? && |fs.part.value| >= |source| {
      WholePrefix(fs.part.value, source);
    }
  }

  lemma {:induction false} NextChunk(hash: Hash, digest: string, source: Bytes, fs: Files, n: nat, limit: nat)
    requires hash(source) == digest && Resumable(fs, source) && fs.final.None?
    requires var received := Received(fs, |source|); received < received + n <= |source|
    ensures var received := Received(fs, |source|);
            var body := source[received..received + n];
            var (fs1, r) := AppendTo(hash, digest, |source|, received, body, limit, fs, NO_FAULT, NO_FAULT);
            if n <= limit then
              && r == Ok(CacheStatus(received + n, received + n == |source|))
              && Resumable(fs1, source) && Received(fs1, |source|) == received + n
              && (if received + n == |source| then fs1.final == Some(source) else fs1.final.None?)
            else r.Err?
  {
    var received := Received(fs, |source|);
    var before: Bytes := if fs.part.Some? then fs.part.value else [];
    var chunk := source[received..received + n];
    assert before == source[..received];
    if n <= limit {
      assert Limited(chunk, limit) == chunk;
      assert before + chunk == source[..received + n];
      if received + n == |source| {
        assert before + chunk == source;
      }
    }
  }

  /**
   * An orderly upload under way: the status is the host's, and all uploads so far were full chunks
   * unless the last byte has been sent.
   */
  predicate UnderWay(
    fs: Files, status: CacheStatus, source: Bytes, chunk: nat, limit: nat, missing: nat, uploads: nat)
  {
    var left := |source| - status.received;
    && Resumable(fs, source) && 0 <= left <= missing <= |source| && status.received == Received(fs, |source|)
    && status.ready == (left == 0) && fs.final == (if left == 0 then Some(source) else None)
    && (left > 0 ==> missing == left + Full(uploads, chunk))
    && (left == 0 ==> Covers(missing, chunk, uploads))
    && (uploads > 0 ==> Min(missing, chunk) <= limit)
  }

  lemma {:induction false} OneMore(left: nat, missing: nat, chunk: nat, uploads: nat)
    requires left > 0 && chunk > 0 && missing == left + Full(uploads, chunk)
    ensures left > chunk ==> missing == left - chunk + Full(uploads + 1, chunk)
    ensures left <= chunk ==> Covers(missing, chunk, uploads + 1)
    ensures Min(left, chunk) <= Min(missing, chunk) && (uploads == 0 ==> left == missing)
    ensures uploads > 0 ==> Min(missing, chunk) == chunk
  {
  }

  /** The next chunk of an orderly upload is taken if the host's limit allows chunks of that size. */
  lemma {:induction false} StepUnderWay(
    hash: Hash, digest: string, fs: Files, status: CacheStatus, source: Bytes, chunk: nat, limit: nat,
    missing: nat, uploads: nat)
    requires hash(source) == digest && chunk > 0
    requires UnderWay(fs, status, source, chunk, limit, missing, uploads) && status.received < |source|
    ensures var n := Min(|source| - status.received, chunk);
            var body := source[status.received..status.received + n];
            var (fs1, r) := AppendTo(hash, digest, |source|, status.received, body, limit, fs, NO_FAULT, NO_FAULT);
            if Min(missing, chunk) <= limit then
              && r.Ok? && r.value.received == status.received + n
              && UnderWay(fs1, r.value, source, chunk, limit, missing, uploads + 1)
            else uploads == 0 && r.Err?
  {
    var left := |source| - status.received;
    NextChunk(hash, digest, source, fs, Min(left, chunk), limit);
    OneMore(left, missing, chunk, uploads);
  }

  lemma {:induction false} CleanPiece(hash: Hash, digest: string, source: Bytes, at: nat, n: nat, limit: nat, fs: Files)
    requires LeaseFits(hash, digest, |source|, source) && limit > 0 && at + n <= |source|
    ensures SendPiece(hash, digest, |source|, source, at, n, limit, fs, CLEAN)
         == var (fs1, r) := AppendTo(hash, digest, |source|, at, source[at..at + n], limit, fs, NO_FAULT, NO_FAULT);
            (fs1, Heard(r, false))
  {
  }

  /** What an undisturbed upload by this host does to an upload under way. */
  predicate TurnIsGood(
    host: (Files, nat, nat, Trip) -> (Files, Answer), fs: Files, status: CacheStatus, source: Bytes, chunk: nat,
    limit: nat, missing: nat, uploads: nat)
    requires status.received <= |source|
  {
    var (fs1, answer) := host(fs, status.received, Min(|source| - status.received, chunk), CLEAN);
    if Min(missing, chunk) <= limit then
      && answer.Ok? && answer.value.received > status.received
      && UnderWay(fs1, answer.value, source, chunk, limit, missing, uploads + 1)
    else uploads == 0 && answer.Err?
  }

  lemma {:induction false} StoreTurnIsGood(
    hash: Hash, digest: string, fs: Files, status: CacheStatus, source: Bytes, chunk: nat, limit: nat,
    missing: nat, uploads: nat)
    requires LeaseFits(hash, digest, |source|, source) && chunk > 0 && limit > 0
    requires UnderWay(fs, status, source, chunk, limit, missing, uploads) && status.received < |source|
    ensures var host := HostOf(hash, digest, |source|, source, limit);
            TurnIsGood(host, fs, status, source, chunk, limit, missing, uploads)
  {
    var n := Min(|source| - status.received, chunk);
    CleanPiece(hash, digest, source, status.received, n, limit, fs);
    StepUnderWay(hash, digest, fs, status, source, chunk, limit, missing, uploads);
  }

  /** If an upload is under way and not finished, the host's next turn is good. */
  predicate IsGoodAt(
    host: (Files, nat, nat, Trip) -> (Files, Answer), fs: Files, status: CacheStatus, source: Bytes, chunk: nat,
    limit: nat, missing: nat, uploads: nat)
  {
    UnderWay(fs, status, source, chunk, limit, missing, uploads) && status.received < |source| ==>
      TurnIsGood(host, fs, status, source, chunk, limit, missing, uploads)
  }

  ghost predicate IsGoodHost(
    host: (Files, nat, nat, Trip) -> (Files, Answer), source: Bytes, chunk: nat, limit: nat, missing: nat)
  {
    forall fs, status, uploads :: IsGoodAt(host, fs, status, source, chunk, limit, missing, uploads)
  }

  predicate EndsExactly(t: Attempt<Files>, source: Bytes, chunk: nat, limit: nat, missing: nat, uploads: nat) {
    if missing == 0 || Min(missing, chunk) <= limit then
      t.result == Ok(true) && Covers(missing, chunk, uploads + t.uploads) && t.files.final == Some(source)
    else t.result.Err? && uploads + t.uploads == 1
  }

  lemma {:induction false} DoneEndsExactly(
    fs: Files, status: CacheStatus, source: Bytes, chunk: nat, limit: nat, missing: nat, uploads: nat)
    requires UnderWay(fs, status, source, chunk, limit, missing, uploads) && status.received >= |source|
    ensures status.ready && EndsExactly(Attempt(fs, Ok(true), 0), source, chunk, limit, missing, uploads)
  {
  }

  lemma {:induction false} SendRestIsExact(
    host: (Files, nat, nat, Trip) -> (Files, Answer), source: Bytes, chunk: nat, limit: nat, fs: Files,
    status: CacheStatus, trips: nat -> Trip, k: nat, missing: nat, uploads: nat)
    requires IsGoodHost(host, source, chunk, limit, missing) && forall i :: trips(i) == CLEAN
    requires UnderWay(fs, status, source, chunk, limit, missing, uploads)
    ensures var t := SendRest(host, |source|, chunk, fs, status, trips, k);
            EndsExactly(t, source, chunk, limit, missing, uploads)
    decreases |source| - status.received
  {
    if status.received >= |source| {
      DoneEndsExactly(fs, status, source, chunk, limit, missing, uploads);
    } else {
      var (next, answer) := host(fs, status.received, Min(|source| - status.received, chunk), trips(k));
      assert trips(k) == CLEAN;
      assert IsGoodAt(host, fs, status, source, chunk, limit, missing, uploads);
      if answer.Ok? {
        SendRestIsExact(host, source, chunk, limit, next, answer.value, trips, k + 1, missing, uploads + 1);
      }
    }
  }

  ghost predicate IsUndisturbed(course: Course) { course.opens && forall i :: course.trips(i) == CLEAN }

  /**
   * The outcome of an undisturbed attempt is exact: the model ends Ready after ceil(missing / chunk)
   * uploads if the host takes chunks of that size, and is refused at the first upload otherwise.
   */
  lemma {:induction false} UndisturbedUploadIsExact(
    hash: Hash, digest: string, source: Bytes, chunk: nat, limit: nat, fs: Files, course: Course)
    requires LeaseFits(hash, digest, |source|, source) && chunk > 0 && limit > 0 && IsUndisturbed(course)
    requires Resumable(fs, source)
    ensures var t, missing := Ensure(hash, digest, |source|, source, chunk, limit, fs, course),
                              |source| - Received(fs, |source|);
            if missing == 0 || Min(missing, chunk) <= limit then
              && t.result == Ok(true) && IsCeiling(missing, chunk, t.uploads)
              && t.files.final == (if fs.final.Some? then fs.final else Some(source))
            else t.result.Err? && t.uploads == 1
  {
    var trips := course.trips;
    assert trips(0) == CLEAN;
    FirstStatus(hash, digest, source, fs);
    var (fs1, answer) := AskStatus(hash, digest, |source|, fs, trips(0));
    if !answer.value.ready {
      var missing := |source| - Received(fs, |source|);
      var host := HostOf(hash, digest, |source|, source, limit);
      forall fs, status, uploads ensures IsGoodAt(host, fs, status, source, chunk, limit, missing, uploads) {
        if UnderWay(fs, status, source, chunk, limit, missing, uploads) && status.received < |source| {
          StoreTurnIsGood(hash, digest, fs, status, source, chunk, limit, missing, uploads);
        }
      }
      SendRestIsExact(host, source, chunk, limit, fs1, answer.value, trips, 1, missing, 0);
      var t := Ensure(hash, digest, |source|, source, chunk, limit, fs, course);
      if t.result.Ok? {
        CoversIsCeiling(missing, chunk, t.uploads);
      }
    }
  }

  // ---------------------------------------------------------------- disturbed attempts

  /** The host does not fail both to verify a complete part file and to remove it. */
  predicate Tidy(io: Io) { !(io.verify && io.remove) }

  /** A finished file stays, and one that appears is the source. */
  predicate Settles(before: Files, after: Files, source: Bytes) {
    after.final == before.final || (before.final.None? && after.final == Some(source))
  }

  lemma {:induction false} StatusKeepsResumable(hash: Hash, digest: string, source: Bytes, fs: Files, io: Io)
    requires hash(source) == digest && Resumable(fs, source) && Tidy(io)
    ensures var fs1 := StatusOf(hash, digest, |source|, fs, io).0; Resumable(fs1, source) && Settles(fs, fs1, source)
    ensures !LeavesStalePart(hash, digest, |source|, fs, io)
  {
    if fs.part.Some? && |fs.part.value| >= |source| {
      WholePrefix(fs.part.value, source);
    }
  }

  lemma {:induction false} UploadKeepsResumable(
    hash: Hash, digest: string, source: Bytes, offset: nat, src: Bytes, limit: nat, fs: Files, first: Io, io: Io)
    requires hash(source) == digest && Resumable(fs, source) && Tidy(first) && IsPiece(offset, src, source)
    ensures var fs1 := AppendTo(hash, digest, |source|, offset, src, limit, fs, first, io).0;
            Resumable(fs1, source) && Settles(fs, fs1, source)
  {
    StatusKeepsResumable(hash, digest, source, fs, first);
    if fs.final.None? {
      UploadFollowsSource(hash, digest, fs, |source|, offset, src, limit, first, io, source);
      FinalHasSize(hash, digest, |source|, offset, src, limit, fs, first, io);
      var fs1 := AppendTo(hash, digest, |source|, offset, src, limit, fs, first, io).0;
      if fs1.final.Some? {
        WholePrefix(fs1.final.value, source);
      }
    }
  }

  lemma {:induction false} PieceKeepsResumable(
    hash: Hash, digest: string, source: Bytes, at: nat, n: nat, limit: int, fs: Files, trip: Trip)
    requires LeaseFits(hash, digest, |source|, source) && Resumable(fs, source) && Tidy(trip.first) && at <= |source|
    ensures var fs1 := SendPiece(hash, digest, |source|, source, at, n, limit, fs, trip).0;
            Resumable(fs1, source) && Settles(fs, fs1, source)
  {
    var body := Piece(source, at, n);
    if limit > 0 {
      UploadKeepsResumable(hash, digest, source, at, body, limit, fs, trip.first, Broken(trip.io, |body|, n));
    }
  }

  predicate IsSafeTurn(fs: Files, next: Files, source: Bytes) { Resumable(next, source) && Settles(fs, next, source) }

  /** Whatever is asked of it, the host keeps what it can go on from. */
  ghost predicate IsSafeHost(host: (Files, nat, nat, Trip) -> (Files, Answer), source: Bytes) {
    forall fs, at: nat, n: nat, trip: Trip ::
      Resumable(fs, source) && Tidy(trip.first) && at <= |source| ==>
        IsSafeTurn(fs, host(fs, at, n, trip).0, source)
  }

  lemma {:induction false} SendRestKeepsResumable(
    host: (Files, nat, nat, Trip) -> (Files, Answer), source: Bytes, chunk: nat, fs: Files, status: CacheStatus,
    trips: nat -> Trip, k: nat)
    requires IsSafeHost(host, source) && Resumable(fs, source) && forall i :: Tidy(trips(i).first)
    ensures IsSafeTurn(fs, SendRest(host, |source|, chunk, fs, status, trips, k).files, source)
    decreases |source| - status.received
  {
    if status.received < |source| {
      var n := Min(|source| - status.received, chunk);
      var (next, answer) := host(fs, status.received, n, trips(k));
      assert Tidy(trips(k).first);
      assert IsSafeTurn(fs, host(fs, status.received, n, trips(k)).0, source);
      if answer.Ok? && answer.value.received > status.received {
        SendRestKeepsResumable(host, source, chunk, next, answer.value, trips, k + 1);
      }
    }
  }

  /** However an attempt is disturbed, it leaves files that the next one can go on from. */
  lemma {:induction false} AttemptKeepsResumable(
    hash: Hash, digest: string, source: Bytes, chunk: nat, limit: int, fs: Files, course: Course)
    requires LeaseFits(hash, digest, |source|, source) && Resumable(fs, source)
    requires forall i :: Tidy(course.trips(i).first)
    ensures var fs1 := Ensure(hash, digest, |source|, source, chunk, limit, fs, course).files;
            Resumable(fs1, source) && Settles(fs, fs1, source)
  {
    assert Tidy(course.trips(0).first);
    StatusKeepsResumable(hash, digest, source, fs, course.trips(0).first);
    var (fs1, answer) := AskStatus(hash, digest, |source|, fs, course.trips(0));
    if answer.Ok? && !answer.value.ready && course.opens {
      var host := HostOf(hash, digest, |source|, source, limit);
      forall fs, at: nat, n: nat, trip: Trip | Resumable(fs, source) && Tidy(trip.first) && at <= |source|
        ensures IsSafeTurn(fs, host(fs, at, n, trip).0, source)
      {
        PieceKeepsResumable(hash, digest, source, at, n, limit, fs, trip);
      }
      SendRestKeepsResumable(host, source, chunk, fs1, answer.value, course.trips, 1);
    }
  }

  /** With the source's own lease, success means the source, or the finished file that was there before. */
  lemma {:induction false} SuccessMeansSource(
    hash: Hash, digest: string, source: Bytes, chunk: nat, limit: int, fs: Files, course: Course)
    requires LeaseFits(hash, digest, |source|, source) && Resumable(fs, source) && Sound(hash, digest, fs)
    requires forall i :: Tidy(course.trips(i).first)
    ensures var t := Ensure(hash, digest, |source|, source, chunk, limit, fs, course);
            t.result == Ok(true) ==> t.files.final == if fs.final.Some? then fs.final else Some(source)
  {
    SuccessMeansCached(hash, digest, |source|, source, chunk, limit, fs, course);
    AttemptKeepsResumable(hash, digest, source, chunk, limit, fs, course);
  }

  /** The files after several attempts, each with its own disturbances. */
  function Attempts(
    hash: Hash, digest: string, source: Bytes, chunk: nat, limit: int, fs: Files, attempts: seq<Course>): Files
    decreases |attempts|
  {
    if attempts == [] then fs
    else
      var next := Ensure(hash, digest, |source|, source, chunk, limit, fs, attempts[0]).files;
      Attempts(hash, digest, source, chunk, limit, next, attempts[1..])
  }

  ghost predicate AllTidy(attempts: seq<Course>) {
    forall j, i :: 0 <= j < |attempts| ==> Tidy(attempts[j].trips(i).first)
  }

  lemma {:induction false} AttemptsKeepResumable(
    hash: Hash, digest: string, source: Bytes, chunk: nat, limit: int, fs: Files, attempts: seq<Course>)
    requires LeaseFits(hash, digest, |source|, source) && Resumable(fs, source) && AllTidy(attempts)
    ensures var fs1 := Attempts(hash, digest, source, chunk, limit, fs, attempts);
            Resumable(fs1, source) && Settles(fs, fs1, source)
    decreases |attempts|
  {
    if attempts != [] {
      forall i ensures Tidy(attempts[0].trips(i).first) {
      }
      AttemptKeepsResumable(hash, digest, source, chunk, limit, fs, attempts[0]);
      var next := Ensure(hash, digest, |source|, source, chunk, limit, fs, attempts[0]).files;
      forall j, i | 0 <= j < |attempts[1..]| ensures Tidy(attempts[1..][j].trips(i).first) {
        assert attempts[1..][j] == attempts[j + 1];
      }
      AttemptsKeepResumable(hash, digest, source, chunk, limit, next, attempts[1..]);
    }
  }

  /**
   * Uploads resume: after any number of disturbed attempts on an empty cache, with messages lost, copies
   * broken off and file operations failing anywhere, one undisturbed attempt ends Ready with the whole
   * source, after exactly as many uploads as the missing bytes need.
   */
  lemma {:induction false} UploadsResume(
    hash: Hash, digest: string, source: Bytes, chunk: nat, limit: nat, attempts: seq<Course>, last: Course)
    requires LeaseFits(hash, digest, |source|, source) && 0 < chunk <= limit
    requires AllTidy(attempts) && IsUndisturbed(last)
    ensures var fs := Attempts(hash, digest, source, chunk, limit, Files(None, None), attempts);
            var t, missing := Ensure(hash, digest, |source|, source, chunk, limit, fs, last),
                              |source| - Received(fs, |source|);
            && missing >= 0 && IsCeiling(missing, chunk, t.uploads)
            && t.result == Ok(true) && t.files.final == Some(source)
  {
    AttemptsKeepResumable(hash, digest, source, chunk, limit, Files(None, None), attempts);
    var fs := Attempts(hash, digest, source, chunk, limit, Files(None, None), attempts);
    UndisturbedUploadIsExact(hash, digest, source, chunk, limit, fs, last);
  }
}
