/**
 * The host's resumable, content-addressed model cache. Every call may meet I/O failures; the hash is
 * any function from contents to digests.
 */
module ModelCache {
  import opened Prelude

  type Hash = Bytes -> string

  /** The two files of one digest. */
  datatype Files = Files(final: Option<Bytes>, part: Option<Bytes>)

  datatype CacheStatus = CacheStatus(received: nat, ready: bool)

  datatype StoreError =
    | InvalidDigestOrSize
    | InvalidOffset
    | SizeMismatch
    | OffsetMismatch(expected: nat)
    | IoError
    | ChunkTooLarge
    | EmptyChunk
    | DigestMismatch

  /** Which file operations of a call fail; copyStopsAt is where reading or writing a chunk breaks off. */
  datatype Io = Io(
    statFinal: bool, statPart: bool, open: bool, copyStopsAt: Option<nat>, close: bool,
    verify: bool, rename: bool, remove: bool, truncate: bool)

  const NO_FAULT: Io := Io(false, false, false, None, false, false, false, false, false)

  predicate IsHexDigit(c: char) { '0' <= c <= '9' || 'a' <= c <= 'f' || 'A' <= c <= 'F' }

  predicate ValidLease(digest: string, size: int) {
    |digest| == 64 && (forall i :: 0 <= i < 64 ==> IsHexDigit(digest[i])) && size > 0
  }

  // ---------------------------------------------------------------- one digest's files

  type Reply = Result<CacheStatus, StoreError>

  function Removed(fs: Files, io: Io): Files { if io.remove then fs else fs.(part := None) }

  /** A complete part file becomes the final file if it has the right digest. */
  predicate Verified(hash: Hash, digest: string, contents: Bytes, io: Io) { !io.verify && hash(contents) == digest }

  function StatusOf(hash: Hash, digest: string, size: nat, fs: Files, io: Io): (Files, Reply) {
    if io.statFinal then (fs, Err(IoError))
    else if fs.final.Some? then
      (fs, if |fs.final.value| == size then Ok(CacheStatus(size, true)) else Err(SizeMismatch))
    else if io.statPart then (fs, Err(IoError))
    else if fs.part.None? then (fs, Ok(CacheStatus(0, false)))
    else if |fs.part.value| < size then (fs, Ok(CacheStatus(|fs.part.value|, false)))
    else if |fs.part.value| > size || !Verified(hash, digest, fs.part.value, io) then
      (Removed(fs, io), Ok(CacheStatus(0, false)))
    else if io.rename then (fs, Err(IoError))
    else (Files(fs.part, None), Ok(CacheStatus(size, true)))
  }

  /** What Append does with the bytes it managed to add to the part file before. */
  function Finish(
    hash: Hash, digest: string, size: nat, offset: nat, before: Bytes, data: Bytes, limit: nat, io: Io): (Files, Reply)
  {
    var part := before + data;
    var kept := Files(None, Some(part));
    if io.close then (kept, Err(IoError))
    else if |data| > limit || offset + |data| > size then
      (if io.truncate || offset > |part| then kept else Files(None, Some(part[..offset])), Err(ChunkTooLarge))
    else if |data| == 0 then (kept, Err(EmptyChunk))
    else if offset + |data| < size then (kept, Ok(CacheStatus(offset + |data|, false)))
    else if !Verified(hash, digest, part, io) then (Removed(kept, io), Err(DigestMismatch))
    else if io.rename then (kept, Err(IoError))
    else (Files(Some(part), None), Ok(CacheStatus(size, true)))
  }

  /** At most one byte more than the limit is read from the request. */
  function Limited(src: Bytes, limit: nat): Bytes { src[..Min(|src|, limit + 1)] }

  /** Append once the status is known. */
  function AppendAt(
    hash: Hash, digest: string, size: nat, offset: nat, src: Bytes, limit: nat, fs: Files, io: Io): (Files, Reply)
  {
    var before: Bytes := if fs.part.Some? then fs.part.value else [];
    var data := Limited(src, limit);
    if io.open then (fs, Err(IoError))
    else if io.copyStopsAt.Some? then
      (fs.(part := Some(before + data[..Min(io.copyStopsAt.value, |data|)])), Err(IoError))
    else Finish(hash, digest, size, offset, before, data, limit, io)
  }

  function AppendTo(
    hash: Hash, digest: string, size: nat, offset: nat, src: Bytes, limit: nat, fs: Files, first: Io, io: Io)
    : (Files, Reply)
  {
    var (fs1, status) := StatusOf(hash, digest, size, fs, first);
    if status.Err? || status.value.ready then (fs1, status)
    else if status.value.received != offset then (fs1, Err(OffsetMismatch(status.value.received)))
    else AppendAt(hash, digest, size, offset, src, limit, fs1, io)
  }

  /** Status as a call: a lease that is not valid is refused. */
  function StatusCall(hash: Hash, digest: string, size: int, fs: Files, io: Io): (Files, Reply) {
    if !ValidLease(digest, size) then (fs, Err(InvalidDigestOrSize)) else StatusOf(hash, digest, size, fs, io)
  }

  /** Append as a call, with its checks of the arguments. */
  function AppendCall(
    hash: Hash, digest: string, size: int, offset: int, src: Bytes, limit: int, fs: Files, first: Io, io: Io)
    : (Files, Reply)
  {
    if !ValidLease(digest, size) then (fs, Err(InvalidDigestOrSize))
    else if offset < 0 || limit <= 0 then (fs, Err(InvalidOffset))
    else AppendTo(hash, digest, size, offset, src, limit, fs, first, io)
  }

  predicate IsHexText(s: string) {
    forall c :: c in s ==> '0' <= c <= '9' || 'a' <= c <= 'f' || 'A' <= c <= 'F'
  }

  /** A lease names 32 bytes in hexadecimal and a positive size. */
  lemma {:induction false} LeaseIsCheckedExactly(digest: string, size: int)
    ensures ValidLease(digest, size) <==> |digest| == 64 && IsHexText(digest) && size > 0
  {
    if |digest| == 64 && IsHexText(digest) {
      forall i | 0 <= i < 64 ensures IsHexDigit(digest[i]) {
        assert digest[i] in digest;
      }
    }
  }

  // ---------------------------------------------------------------- the store

  class Store {
    const hash: Hash
    var finals: map<string, Bytes>
    var parts: map<string, Bytes>

    constructor (hash: Hash)
      ensures this.hash == hash && finals == map[] && parts == map[]
    {
      this.hash, finals, parts := hash, map[], map[];
    }

    ghost function FilesOf(digest: string): Files
      reads this
    {
      Files(
        if digest in finals then Some(finals[digest]) else None,
        if digest in parts then Some(parts[digest]) else None)
    }

    twostate predicate OthersUntouched(digest: string)
      reads this
    {
      finals - {digest} == old(finals) - {digest} && parts - {digest} == old(parts) - {digest}
    }

    method Remove(digest: string, io: Io)
      modifies this`parts
      ensures FilesOf(digest) == Removed(old(FilesOf(digest)), io) && OthersUntouched(digest)
    {
      if !io.remove {
        parts := parts - {digest};
      }
    }

    method Rename(digest: string)
      requires digest in parts
      modifies this`parts, this`finals
      ensures FilesOf(digest) == Files(Some(old(parts)[digest]), None) && OthersUntouched(digest)
    {
      finals := finals[digest := parts[digest]];
      parts := parts - {digest};
    }

    method StatusUnlocked(digest: string, size: nat, io: Io) returns (r: Reply)
      modifies this`finals, this`parts
      ensures (FilesOf(digest), r) == StatusOf(hash, digest, size, old(FilesOf(digest)), io)
      ensures OthersUntouched(digest)
    {
      if io.statFinal {
        return Err(IoError);
      }
      if digest in finals {
        if |finals[digest]| == size {
          return Ok(CacheStatus(size, true));
        }
        return Err(SizeMismatch);
      }
      if io.statPart {
        return Err(IoError);
      }
      if digest !in parts {
        return Ok(CacheStatus(0, false));
      }
      var received := |parts[digest]|;
      if received == size {
        if io.verify || hash(parts[digest]) != digest {
          Remove(digest, io);
          return Ok(CacheStatus(0, false));
        }
        if io.rename {
          return Err(IoError);
        }
        Rename(digest);
        return Ok(CacheStatus(size, true));
      }
      if received > size {
        Remove(digest, io);
        received := 0;
      }
      return Ok(CacheStatus(received, false));
    }

    method Status(digest: string, size: int, io: Io) returns (r: Reply)
      modifies this`finals, this`parts
      ensures (FilesOf(digest), r) == StatusCall(hash, digest, size, old(FilesOf(digest)), io)
      ensures r == Err(InvalidDigestOrSize) <==> !(|digest| == 64 && IsHexText(digest) && size > 0)
      ensures OthersUntouched(digest)
    {
      LeaseIsCheckedExactly(digest, size);
      if !ValidLease(digest, size) {
        return Err(InvalidDigestOrSize);
      }
      r := StatusUnlocked(digest, size, io);
    }

    /** The part of Append behind the copy. */
    method FinishAppend(digest: string, size: nat, offset: nat, written: nat, limit: nat, io: Io, ghost before: Bytes)
      returns (r: Reply)
      requires digest in parts && digest !in finals
      requires |before| + written == |parts[digest]| && before == parts[digest][..|before|]
      modifies this`finals, this`parts
      ensures (FilesOf(digest), r)
           == Finish(hash, digest, size, offset, before, old(parts)[digest][|before|..], limit, io)
      ensures OthersUntouched(digest)
    {
      assert parts[digest] == before + parts[digest][|before|..];
      if io.close {
        return Err(IoError);
      }
      if written > limit || offset + written > size {
        if !io.truncate && offset <= |parts[digest]| {
          parts := parts[digest := parts[digest][..offset]];
        }
        return Err(ChunkTooLarge);
      }
      if written == 0 {
        return Err(EmptyChunk);
      }
      if offset + written == size {
        if io.verify || hash(parts[digest]) != digest {
          Remove(digest, io);
          return Err(DigestMismatch);
        }
        if io.rename {
          return Err(IoError);
        }
        Rename(digest);
        return Ok(CacheStatus(size, true));
      }
      return Ok(CacheStatus(offset + written, false));
    }

    method CopyChunk(digest: string, size: nat, offset: nat, src: Bytes, limit: nat, io: Io) returns (r: Reply)
      requires digest !in finals
      modifies this`finals, this`parts
      ensures (FilesOf(digest), r) == AppendAt(hash, digest, size, offset, src, limit, old(FilesOf(digest)), io)
      ensures OthersUntouched(digest)
    {
      if io.open {
        return Err(IoError);
      }
      var before: Bytes := if digest in parts then parts[digest] else [];
      var data := src[..Min(|src|, limit + 1)];
      if io.copyStopsAt.Some? {
        parts := parts[digest := before + data[..Min(io.copyStopsAt.value, |data|)]];
        return Err(IoError);
      }
      parts := parts[digest := before + data];
      assert parts[digest][..|before|] == before && parts[digest][|before|..] == data;
      r := FinishAppend(digest, size, offset, |data|, limit, io, before);
    }

    method Append(digest: string, size: int, offset: int, src: Bytes, limit: int, first: Io, io: Io) returns (r: Reply)
      modifies this`finals, this`parts
      ensures (FilesOf(digest), r)
           == AppendCall(hash, digest, size, offset, src, limit, old(FilesOf(digest)), first, io)
      ensures r == Err(InvalidDigestOrSize) <==> !(|digest| == 64 && IsHexText(digest) && size > 0)
      ensures OthersUntouched(digest)
    {
      LeaseIsCheckedExactly(digest, size);
      if !ValidLease(digest, size) {
        return Err(InvalidDigestOrSize);
      }
      if offset < 0 || limit <= 0 {
        return Err(InvalidOffset);
      }
      r := StatusUnlocked(digest, size, first);
      if r.Err? || r.value.ready {
        return;
      }
      if r.value.received != offset {
        return Err(OffsetMismatch(r.value.received));
      }
      r := CopyChunk(digest, size, offset, src, limit, io);
    }
  }

  // ---------------------------------------------------------------- over all calls

  /** One call for this digest, by anyone, with whatever fails during it. */
  datatype Call =
    | Query(size: nat, io: Io)
    | Upload(size: nat, offset: nat, src: Bytes, limit: nat, first: Io, io: Io)

  function Serve(hash: Hash, digest: string, fs: Files, c: Call): (Files, Reply) {
    match c
    case Query(size, io) => StatusOf(hash, digest, size, fs, io)
    case Upload(size, offset, src, limit, first, io) => AppendTo(hash, digest, size, offset, src, limit, fs, first, io)
  }

  function ServeAll(hash: Hash, digest: string, fs: Files, cs: seq<Call>): Files
    decreases |cs|
  {
    if cs == [] then fs else ServeAll(hash, digest, Serve(hash, digest, fs, cs[0]).0, cs[1..])
  }

  /** The final file has the digest it is named for. */
  predicate Sound(hash: Hash, digest: string, fs: Files) { fs.final.Some? ==> hash(fs.final.value) == digest }

  lemma {:induction false} ServeIsSound(hash: Hash, digest: string, fs: Files, c: Call)
    requires Sound(hash, digest, fs)
    ensures Sound(hash, digest, Serve(hash, digest, fs, c).0)
    ensures fs.final.Some? ==> Serve(hash, digest, fs, c).0.final == fs.final
    ensures var (fs', r) := Serve(hash, digest, fs, c); r.Ok? && r.value.ready ==> fs'.final.Some?
  {
  }

  /** The status check finds a part file it must discard, and the removal fails. */
  predicate LeavesStalePart(hash: Hash, digest: string, size: nat, fs: Files, io: Io) {
    && !io.statFinal && !io.statPart && io.remove && fs.final.None? && fs.part.Some?
    && (|fs.part.value| > size || (|fs.part.value| == size && !Verified(hash, digest, fs.part.value, io)))
  }

  /** A status below Ready tells how long the part file is, unless a failed removal left it behind. */
  lemma {:induction false} StatusTellsPart(hash: Hash, digest: string, size: nat, fs: Files, io: Io)
    requires var r := StatusOf(hash, digest, size, fs, io).1; r.Ok? && !r.value.ready
    ensures var (fs1, r) := StatusOf(hash, digest, size, fs, io);
            && fs1.final.None?
            && (!LeavesStalePart(hash, digest, size, fs, io) ==>
                  r.value.received == if fs1.part.Some? then |fs1.part.value| else 0)
            && (fs1.part == fs.part || fs1.part.None?)
  {
  }

  /**
   * Whatever is uploaded, by whom and however the calls fail: a final file always hashes to its
   * digest, and once it is there it never changes.
   */
  lemma {:induction false} FinalFilesAreSoundAndStable(hash: Hash, digest: string, fs: Files, cs: seq<Call>)
    requires Sound(hash, digest, fs)
    ensures Sound(hash, digest, ServeAll(hash, digest, fs, cs))
    ensures fs.final.Some? ==> ServeAll(hash, digest, fs, cs).final == fs.final
    decreases |cs|
  {
    if cs != [] {
      ServeIsSound(hash, digest, fs, cs[0]);
      FinalFilesAreSoundAndStable(hash, digest, Serve(hash, digest, fs, cs[0]).0, cs[1..]);
    }
  }

  /** Bytes of a part file that is there or not. */
  function PartBytes(fs: Files): Bytes { if fs.part.Some? then fs.part.value else [] }

  /**
   * An upload while the model is incomplete and nothing fails: refused at any offset but the end of the
   * part file; refused without a trace if it is too large for the host or for the model, or empty; added
   * to the part file if more is to come; and if it is the last piece, the whole becomes the final file if
   * its digest is right, and is thrown away if not.
   */
  lemma {:induction false} AppendMeans(
    hash: Hash, digest: string, size: nat, offset: nat, src: Bytes, limit: nat, fs: Files)
    requires fs.final.None? && |PartBytes(fs)| < size
    ensures var (after, r) := AppendTo(hash, digest, size, offset, src, limit, fs, NO_FAULT, NO_FAULT);
            var had, all := PartBytes(fs), PartBytes(fs) + src;
            if offset != |had| then r == Err(OffsetMismatch(|had|)) && after == fs
            else if |src| > limit || |all| > size then
              r == Err(ChunkTooLarge) && after.final.None? && PartBytes(after) == had
            else if src == [] then r == Err(EmptyChunk) && after.final.None? && PartBytes(after) == had
            else if |all| < size then r == Ok(CacheStatus(|all|, false)) && after == Files(None, Some(all))
            else if hash(all) == digest then r == Ok(CacheStatus(size, true)) && after == Files(Some(all), None)
            else r == Err(DigestMismatch) && after == Files(None, None)
  {
    var had := PartBytes(fs);
    if offset == |had| {
      if |src| <= limit {
        assert Limited(src, limit) == src;
      }
      assert (had + Limited(src, limit))[..offset] == had;
    }
  }

  /**
   * An upload at the right offset that something fails for: the error is reported, and what had been added
   * to the part file by then stays there, for the next attempt to go on from.
   */
  lemma {:induction false} FailuresAreReported(
    hash: Hash, digest: string, size: nat, offset: nat, src: Bytes, limit: nat, fs: Files, io: Io)
    requires fs.final.None? && offset == |PartBytes(fs)| < size
    ensures var (after, r) := AppendTo(hash, digest, size, offset, src, limit, fs, NO_FAULT, io);
            var had, taken := PartBytes(fs), src[..Min(|src|, limit + 1)];
            && (io.open ==> r == Err(IoError) && after == fs)
            && (!io.open && io.copyStopsAt.Some? ==>
                  r == Err(IoError) && after == Files(None, Some(had + taken[..Min(io.copyStopsAt.value, |taken|)])))
            && (!io.open && io.copyStopsAt.None? && io.close ==>
                  r == Err(IoError) && after == Files(None, Some(had + taken)))
            && (!io.open && io.copyStopsAt.None? && !io.close && io.rename && !io.verify ==>
                  0 < |src| <= limit && |had + src| == size && hash(had + src) == digest ==>
                    r == Err(IoError) && after == Files(None, Some(had + src)))
  {
    if |src| <= limit {
      assert Limited(src, limit) == src;
    }
  }

  /** A status check that something fails for says so, and keeps what there is. */
  lemma {:induction false} StatusFailuresAreReported(hash: Hash, digest: string, size: nat, fs: Files, io: Io)
    ensures var (after, r) := StatusOf(hash, digest, size, fs, io);
            && (io.statFinal ==> r == Err(IoError) && after == fs)
            && (!io.statFinal && fs.final.None? && io.statPart ==> r == Err(IoError) && after == fs)
            && (!io.statFinal && !io.statPart && io.rename && fs.final.None? && fs.part.Some? ==>
                  |fs.part.value| == size && !io.verify && hash(fs.part.value) == digest ==>
                    r == Err(IoError) && after == fs)
  {
  }

  /** A model that is complete is left alone, whatever is uploaded; under another size it is refused. */
  lemma {:induction false} FinishedFilesAreServed(
    hash: Hash, digest: string, size: nat, offset: nat, src: Bytes, limit: nat, fs: Files)
    requires fs.final.Some?
    ensures StatusOf(hash, digest, size, fs, NO_FAULT)
         == AppendTo(hash, digest, size, offset, src, limit, fs, NO_FAULT, NO_FAULT)
         == (fs, if |fs.final.value| == size then Ok(CacheStatus(size, true)) else Err(SizeMismatch))
  {
  }

  /** What a status check finds in an incomplete model, and what it makes of a part file that is long enough. */
  lemma {:induction false} StatusMeans(hash: Hash, digest: string, size: nat, fs: Files)
    requires fs.final.None? && size > 0
    ensures var (after, r) := StatusOf(hash, digest, size, fs, NO_FAULT);
            var had := PartBytes(fs);
            if |had| < size then r == Ok(CacheStatus(|had|, false)) && after == fs
            else if |had| == size && hash(had) == digest then
              r == Ok(CacheStatus(size, true)) && after == Files(Some(had), None)
            else r == Ok(CacheStatus(0, false)) && after == Files(None, None)
  {
  }

  predicate IsPrefix(f: Option<Bytes>, source: Bytes) { f.Some? ==> f.value <= source }

  predicate FromSource(fs: Files, source: Bytes) { IsPrefix(fs.final, source) && IsPrefix(fs.part, source) }

  /** Every upload sends a piece of the source, taken at the offset it names. */
  predicate IsPiece(offset: nat, src: Bytes, source: Bytes) { offset <= |source| && src <= source[offset..] }

  /** Every upload sends a piece of the source, and none of them meets a part file it cannot discard. */
  predicate SendsSource(hash: Hash, digest: string, fs: Files, cs: seq<Call>, source: Bytes)
    decreases |cs|
  {
    cs != [] ==>
      && (cs[0].Upload? ==>
            IsPiece(cs[0].offset, cs[0].src, source) && !LeavesStalePart(hash, digest, cs[0].size, fs, cs[0].first))
      && SendsSource(hash, digest, Serve(hash, digest, fs, cs[0]).0, cs[1..], source)
  }

  /** Adding the next piece, or any beginning of it, to a prefix of the source gives a prefix. */
  lemma {:induction false} PrefixGrows(source: Bytes, before: Bytes, src: Bytes, n: nat)
    requires before <= source && src <= source[|before|..] && n <= |src|
    ensures before + src[..n] <= source
  {
  }

  lemma {:induction false} StatusFollowsSource(hash: Hash, digest: string, size: nat, fs: Files, io: Io, source: Bytes)
    requires FromSource(fs, source)
    ensures FromSource(StatusOf(hash, digest, size, fs, io).0, source)
  {
  }

  lemma {:induction false} FinishFollowsSource(
    hash: Hash, digest: string, size: nat, before: Bytes, data: Bytes, limit: nat, io: Io, source: Bytes)
    requires before + data <= source
    ensures FromSource(Finish(hash, digest, size, |before|, before, data, limit, io).0, source)
  {
    assert (before + data)[..|before|] <= source;
  }

  lemma {:induction false} CopyFollowsSource(
    hash: Hash, digest: string, size: nat, offset: nat, src: Bytes, limit: nat, fs: Files, io: Io, source: Bytes)
    requires FromSource(fs, source) && fs.final.None? && IsPiece(offset, src, source)
    requires offset == if fs.part.Some? then |fs.part.value| else 0
    ensures FromSource(AppendAt(hash, digest, size, offset, src, limit, fs, io).0, source)
  {
    var before: Bytes := if fs.part.Some? then fs.part.value else [];
    var data := Limited(src, limit);
    PrefixGrows(source, before, src, |data|);
    FinishFollowsSource(hash, digest, size, before, data, limit, io, source);
    if io.copyStopsAt.Some? {
      var n := Min(io.copyStopsAt.value, |data|);
      PrefixGrows(source, before, src, n);
      assert data[..n] == src[..n];
    }
  }

  lemma {:induction false} UploadFollowsSource(
    hash: Hash, digest: string, fs: Files, size: nat, offset: nat, src: Bytes, limit: nat, first: Io, io: Io,
    source: Bytes)
    requires FromSource(fs, source) && IsPiece(offset, src, source) && !LeavesStalePart(hash, digest, size, fs, first)
    ensures FromSource(AppendTo(hash, digest, size, offset, src, limit, fs, first, io).0, source)
  {
    var (fs1, status) := StatusOf(hash, digest, size, fs, first);
    StatusFollowsSource(hash, digest, size, fs, first, source);
    if status.Ok? && !status.value.ready && status.value.received == offset {
      StatusTellsPart(hash, digest, size, fs, first);
      CopyFollowsSource(hash, digest, size, offset, src, limit, fs1, io, source);
    }
  }

  /**
   * If every chunk is a piece of the source at the offset it names, both files are prefixes of the
   * source at all times: through broken copies, oversize chunks and leases that name another size.
   */
  lemma {:induction false} FilesFollowSource(hash: Hash, digest: string, fs: Files, cs: seq<Call>, source: Bytes)
    requires FromSource(fs, source) && SendsSource(hash, digest, fs, cs, source)
    ensures FromSource(ServeAll(hash, digest, fs, cs), source)
    decreases |cs|
  {
    if cs != [] {
      var fs1 := Serve(hash, digest, fs, cs[0]).0;
      match cs[0] {
        case Query(_, _) =>
        case Upload(size, offset, src, limit, first, io) =>
          UploadFollowsSource(hash, digest, fs, size, offset, src, limit, first, io, source);
      }
      FilesFollowSource(hash, digest, fs1, cs[1..], source);
    }
  }

  lemma {:induction false} WholePrefix(f: Bytes, source: Bytes)
    requires f <= source && |f| == |source|
    ensures f == source
  {
  }

  /** A lease of the right size is therefore Ready only with the whole source in place. */
  lemma {:induction false} ReadyMeansWholeSource(hash: Hash, digest: string, fs: Files, io: Io, source: Bytes)
    requires FromSource(fs, source)
    requires StatusOf(hash, digest, |source|, fs, io).1 == Ok(CacheStatus(|source|, true))
    ensures StatusOf(hash, digest, |source|, fs, io).0.final == Some(source)
  {
    WholePrefix(StatusOf(hash, digest, |source|, fs, io).0.final.value, source);
  }

  /** A chunk appended behind a stale part file and left there by a failing close. */
  lemma {:induction false} StalePartGrows(hash: Hash, digest: string, fs: Files, size: nat, first: Io, source: Bytes)
    requires LeavesStalePart(hash, digest, size, fs, first) && size > 0
    ensures AppendTo(hash, digest, size, 0, source, |source|, fs, first, NO_FAULT.(close := true)).0
         == Files(None, Some(fs.part.value + source))
  {
    assert Limited(source, |source|) == source;
  }

  /**
   * The exact limit of that promise, for one lease and one state of the files: every upload of a piece
   * of the source leaves prefixes behind, if and only if the status check does not meet a part file
   * that it must discard and cannot remove.
   */
  lemma {:induction false} SourceIsFollowedExactly(
    hash: Hash, digest: string, fs: Files, size: nat, first: Io, source: Bytes)
    requires FromSource(fs, source) && size > 0
    ensures (forall offset, src, limit, io :: IsPiece(offset, src, source) ==>
               FromSource(AppendTo(hash, digest, size, offset, src, limit, fs, first, io).0, source))
            <==> !LeavesStalePart(hash, digest, size, fs, first)
  {
    if LeavesStalePart(hash, digest, size, fs, first) {
      StalePartGrows(hash, digest, fs, size, first, source);
      var after := AppendTo(hash, digest, size, 0, source, |source|, fs, first, NO_FAULT.(close := true)).0;
      assert IsPiece(0, source, source) && |after.part.value| > |source|;
      assert !FromSource(after, source);
    } else {
      forall offset, src, limit, io | IsPiece(offset, src, source)
        ensures FromSource(AppendTo(hash, digest, size, offset, src, limit, fs, first, io).0, source)
      {
        UploadFollowsSource(hash, digest, fs, size, offset, src, limit, first, io, source);
      }
    }
  }

  /**
   * A concrete case: after a failed removal the status reports 0 received bytes while
   * the old part file is still there, and the next chunk is appended behind it.
   */
  lemma {:induction false} FailedRemovalBreaksThePrefix(hash: Hash, digest: string)
    requires hash([1, 2, 1]) != digest
    ensures var source, stuck := [1, 2], NO_FAULT.(remove := true);
            var fs := Files(None, Some(source));
            var (fs', r) := AppendTo(hash, digest, 1, 0, source[..1], 8, fs, stuck, stuck);
            FromSource(fs, source) && source[..1] <= source[0..] && !FromSource(fs', source)
  {
  }
}
