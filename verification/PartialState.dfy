/** The pieces that uploads and downloads share: the resumable partial file with
    its sidecar, and the stream that fills it while hashing what it reads. */
module PartialState {
  import opened Basics
  import opened FileStores

  predicate Hex(c: char) {
    '0' <= c <= '9' || 'a' <= c <= 'f'
  }

  predicate HexDigest(s: string) {
    |s| == 64 && forall i :: 0 <= i < |s| ==> Hex(s[i])
  }

  type Digest = s: string | HexDigest(s) witness seq(64, _ => '0')

  const METADATA_SCHEMA: Timestamp := 1
  const PREFIX_LIMIT: nat := 1024 * 1024
  const METADATA_LIMIT: nat := 16 * 1024
  const PRIVATE_MODE: nat := 0x180
  const COPY_BUFFER: nat := 32 * 1024

  /** A sidecar with a negative size is taken not to decode: it is refused either way. */
  datatype Metadata = Metadata(schema: Timestamp, sourceSize: Length, sourceMTime: Timestamp, prefixBytes: Length, prefixSHA256: Digest)

  /** SHA-256 and the JSON form of the sidecar. Nothing is assumed of the hash. */
  datatype Format = Format(sha256: Bytes -> Digest, encode: Metadata -> Bytes, decode: Bytes -> Option<Metadata>)

  /** A sidecar written whole fits the read limit and decodes to what was written. */
  ghost predicate Faithful(f: Format) {
    forall m :: |f.encode(m)| <= METADATA_LIMIT && f.decode(f.encode(m)) == Some(m)
  }

  function MetadataOf(f: Format, content: Content, mtime: Timestamp): Metadata {
    var prefix := Take(content, PREFIX_LIMIT);
    Metadata(METADATA_SCHEMA, |content|, mtime, |prefix|, f.sha256(prefix))
  }

  /** What a sidecar says: the format's number, the size and time of the source,
      and the digest of what fits in its first mebibyte. */
  lemma MetadataMeans(f: Format, content: Content, mtime: Timestamp)
    ensures var m, n := MetadataOf(f, content, mtime), Min(|content|, 1048576);
            m == Metadata(1, |content|, mtime, n, f.sha256(content[..n]))
  {
    assert content[..|content|] == content;
  }

  predicate ResumeCompatible(expected: Metadata, stored: Metadata, partialSize: nat) {
    && stored.schema == METADATA_SCHEMA
    && stored.sourceSize == expected.sourceSize
    && stored.sourceMTime == expected.sourceMTime
    && stored.prefixBytes == expected.prefixBytes
    && stored.prefixSHA256 == expected.prefixSHA256
    && partialSize <= expected.sourceSize
  }

  datatype Code =
    | InvalidLocalPath | InvalidRemoteSource | UnsupportedFileType | DestinationNotWritable | DestinationExists
    | TransferFailed | ResumeIncompatible | TransferInterrupted | SourceChanged | VerificationFailed
    | ChecksumMismatch | InvalidPermission | GroupUnavailable | InvalidArguments | Unclassified

  datatype Outcome<+T> = Ok(value: T) | Fail(code: Code)

  /** The pair of hidden files of one transfer. */
  datatype Pair = Pair(partial: Path, sidecar: Path)

  function SidecarAt(f: Format, d: Disk, sidecar: Path): Option<Metadata> {
    if IsFile(d, sidecar) then f.decode(Take(d[sidecar].data, METADATA_LIMIT)) else None
  }

  /** Write-ahead: a partial file never exists without a complete sidecar. */
  ghost predicate WriteAhead(f: Format, d: Disk, p: Pair) {
    p.partial in d ==> SidecarAt(f, d, p.sidecar).Some?
  }

  ghost predicate Prefix(a: Bytes, b: Bytes) {
    |a| <= |b| && a == b[..|a|]
  }

  /** What interrupted transfers of one unchanged source leave behind. */
  ghost predicate Resumable(f: Format, d: Disk, p: Pair, content: Bytes, expected: Metadata) {
    p.partial in d ==>
      IsFile(d, p.partial) && Prefix(d[p.partial].data, content) && SidecarAt(f, d, p.sidecar) == Some(expected)
  }

  predicate Owned(s: FileStore, p: Pair)
    reads s
  {
    s.owns(p.partial) && s.owns(p.sidecar) && p.partial != p.sidecar
  }

  method WriteMetadata(s: FileStore, f: Format, p: Pair, m: Metadata, local: bool) returns (r: Outcome<()>)
    requires Owned(s, p) && Faithful(f) && p.partial !in s.disk
    modifies s`disk, s`touched
    ensures AddsOnly(old(s.touched), s.touched, {p.sidecar})
    ensures KeptBut(s.owns, old(s.disk), s.disk, {p.sidecar})
    ensures r.Ok? ==> SidecarAt(f, s.disk, p.sidecar) == Some(m) && s.disk[p.sidecar].mode == 0x180
    ensures r.Fail? ==> r.code != ResumeIncompatible
    ensures s.reliable && p.sidecar !in old(s.disk) ==> r.Ok?
  {
    var ok := s.CreateExclusive(p.sidecar, if local then Some(PRIVATE_MODE) else None);
    if !ok { return Fail(DestinationNotWritable); }
    if !local {
      ok := s.Chmod(p.sidecar, PRIVATE_MODE);
      if !ok { return Fail(InvalidPermission); }
    }
    ghost var stored;
    ok, stored := s.WriteAt(p.sidecar, 0, f.encode(m));
    var closed: bool := *;
    if !ok { return Fail(DestinationNotWritable); }
    assert s.disk[p.sidecar].data == f.encode(m);
    if !closed && !s.reliable { return Fail(Unclassified); }
    r := Ok(());
  }

  /** A sidecar is refused because it does not decode, or because a read of it failed. */
  method ReadMetadata(s: FileStore, f: Format, sidecar: Path) returns (r: Outcome<Metadata>)
    requires s.owns(sidecar)
    modifies s`disk, s`readFaults
    ensures KeptBut(s.owns, old(s.disk), s.disk, {})
    ensures r.Ok? ==> SidecarAt(f, s.disk, sidecar) == Some(r.value) && s.readFaults == old(s.readFaults)
    ensures r.Fail? ==>
              || (SidecarAt(f, s.disk, sidecar).None? && s.readFaults == old(s.readFaults))
              || s.readFaults == Faulted(old(s.readFaults), sidecar)
    ensures s.reliable && !s.unreadable(sidecar) ==> s.readFaults == old(s.readFaults)
    ensures s.unreadable(sidecar) ==> s.readFaults == Faulted(old(s.readFaults), sidecar)
  {
    var info := s.Lstat(sidecar);
    match info {
      case NotExist => return Fail(Unclassified);
      case StatFailed => return Fail(Unclassified);
      case Found(node) => if node.Link? { return Fail(UnsupportedFileType); }
    }
    var bytes := s.Read(sidecar, METADATA_LIMIT);
    if bytes.None? { return Fail(Unclassified); }
    match f.decode(bytes.value) {
      case None => r := Fail(Unclassified);
      case Some(m) => r := Ok(m);
    }
  }

  lemma TakePrefix(a: Bytes, b: Bytes, n: nat)
    ensures Prefix(a, b) && n <= |a| ==> Take(a, n) == Take(b, n)
  {
    if Prefix(a, b) && n <= |a| {
      assert a[..n] == b[..n];
    }
  }

  /** The conditions under which a partial file is continued. */
  ghost predicate Continuable(f: Format, d: Disk, p: Pair, content: Bytes, expected: Metadata) {
    && IsFile(d, p.partial)
    && SidecarAt(f, d, p.sidecar).Some?
    && ResumeCompatible(expected, SidecarAt(f, d, p.sidecar).value, |d[p.partial].data|)
    && var v := Min(expected.prefixBytes, |d[p.partial].data|);
       f.sha256(Take(d[p.partial].data, v)) == f.sha256(Take(content, v))
  }

  /** The sidecar is complete and was written for exactly this source: schema,
      size, time and fingerprint all agree. */
  ghost predicate Vouched(f: Format, d: Disk, p: Pair, expected: Metadata) {
    IsFile(d, p.sidecar) && f.decode(Take(d[p.sidecar].data, 16384)) == Some(expected)
  }

  /** The conditions for continuing, with what compatibility of the sidecar comes to. */
  lemma ContinuableMeans(f: Format, d: Disk, p: Pair, content: Bytes, expected: Metadata)
    requires expected.schema == METADATA_SCHEMA
    ensures Continuable(f, d, p, content, expected) <==>
              && IsFile(d, p.partial) && Vouched(f, d, p, expected)
              && |d[p.partial].data| <= expected.sourceSize
              && (if |d[p.partial].data| <= expected.prefixBytes then
                    f.sha256(d[p.partial].data) == f.sha256(Take(content, |d[p.partial].data|))
                  else
                    f.sha256(d[p.partial].data[..expected.prefixBytes]) == f.sha256(Take(content, expected.prefixBytes)))
  {
  }

  lemma CompatibleMeansVouched(f: Format, d: Disk, p: Pair, expected: Metadata, size: nat)
    requires expected.schema == METADATA_SCHEMA
    ensures SidecarAt(f, d, p.sidecar).Some? && ResumeCompatible(expected, SidecarAt(f, d, p.sidecar).value, size) <==>
            Vouched(f, d, p, expected) && size <= expected.sourceSize
  {
  }

  /** Whatever is at the hidden names is a file. */
  ghost predicate PlainPair(d: Disk, p: Pair) {
    (p.partial in d ==> IsFile(d, p.partial)) && (p.sidecar in d ==> IsFile(d, p.sidecar))
  }

  predicate Readable(s: FileStore, p: Pair) {
    !s.unreadable(p.partial) && !s.unreadable(p.sidecar)
  }

  /** Decides where the transfer starts: at the end of a compatible partial file
      when resuming, else at 0 with a fresh empty one. */
  method PreparePartial(s: FileStore, source: SourceFile, f: Format, p: Pair, expected: Metadata, resume: bool, local: bool)
    returns (r: Outcome<nat>)
    requires Owned(s, p) && Faithful(f)
    modifies s`disk, s`touched, s`readFaults, source`data, source`mtime, source`sampled
    ensures old(source.sampled) <= source.sampled
    ensures source.stable ==> source.data == old(source.data) && source.mtime == old(source.mtime)
    ensures AddsOnly(old(s.touched), s.touched, {p.partial, p.sidecar})
    ensures FaultsOnlyAt(old(s.readFaults), s.readFaults, {p.partial, p.sidecar})
    ensures KeptBut(s.owns, old(s.disk), s.disk, {p.partial, p.sidecar})
    ensures WriteAhead(f, old(s.disk), p) ==> WriteAhead(f, s.disk, p)
    ensures r.Ok? ==> IsFile(s.disk, p.partial) && |s.disk[p.partial].data| == r.value <= expected.sourceSize
    ensures r.Ok? ==> r.value == 0 || (resume && SameAt(old(s.disk), s.disk, p.partial))
    ensures r.Ok? && source.stable && r.value > 0 ==>
              var v := Min(expected.prefixBytes, r.value);
              f.sha256(Take(s.disk[p.partial].data, v)) == f.sha256(Take(source.data, v))
    ensures resume && old(p.partial in s.disk) ==> SameAt(old(s.disk), s.disk, p.partial) && SameAt(old(s.disk), s.disk, p.sidecar)
    ensures !(resume && old(p.partial in s.disk)) ==>
              SameAt(old(s.disk), s.disk, p.partial) || p.partial !in s.disk || (IsFile(s.disk, p.partial) && s.disk[p.partial].data == [])
    ensures r.Ok? && resume && old(p.partial in s.disk) ==> r.value == |old(s.disk)[p.partial].data|
    ensures r.Ok? && resume && old(p.partial in s.disk) ==>
              SidecarAt(f, s.disk, p.sidecar).Some? && ResumeCompatible(expected, SidecarAt(f, s.disk, p.sidecar).value, r.value)
    ensures r == Fail(ResumeIncompatible) ==>
              && resume && p.partial in s.disk
              && (|| FaultAt(old(s.readFaults), s.readFaults, p.sidecar)
                  || !source.stable
                  || !Continuable(f, s.disk, p, source.data, expected))
    ensures r.Ok? && !(resume && old(p.partial in s.disk)) ==>
              r.value == 0 && SidecarAt(f, s.disk, p.sidecar) == Some(expected) && s.disk[p.partial].mode == 0x180
    ensures source.stable && expected == MetadataOf(f, source.data, source.mtime)
            && Resumable(f, old(s.disk), p, source.data, expected) ==>
              && Resumable(f, s.disk, p, source.data, expected)
              && (r == Fail(ResumeIncompatible) <==> p.partial in old(s.disk) && FaultAt(old(s.readFaults), s.readFaults, p.sidecar))
    // Only what was left for this very source is continued.
    ensures r.Ok? && resume && old(p.partial in s.disk) && expected.schema == METADATA_SCHEMA ==>
              Vouched(f, old(s.disk), p, expected) && r.value <= expected.sourceSize
    // Anything else is refused, and so is a sidecar that cannot be read.
    ensures s.reliable && resume && old(IsFile(s.disk, p.partial)) && !s.unreadable(p.partial) && expected.schema == METADATA_SCHEMA
            && (|| s.unreadable(p.sidecar) || !Vouched(f, old(s.disk), p, expected)
                || |old(s.disk)[p.partial].data| > expected.sourceSize) ==>
              r == Fail(ResumeIncompatible)
    // Without faults.
    ensures s.reliable && Readable(s, p) && source.reliable && source.stable && PlainPair(old(s.disk), p) ==>
              && s.readFaults == old(s.readFaults)
              && r.Ok? == (resume && old(p.partial in s.disk) ==> Continuable(f, old(s.disk), p, source.data, expected))
  {
    var partialInfo := s.Lstat(p.partial);
    if partialInfo.Found? && partialInfo.node.Link? { return Fail(UnsupportedFileType); }
    if partialInfo.Found? && resume {
      r := ContinuePartial(s, source, f, p, expected);
      if source.stable && expected == MetadataOf(f, source.data, source.mtime) { ResumableContinues(f, s.disk, p, source.data, source.mtime); }
    } else {
      r := FreshPartial(s, f, p, expected, partialInfo, local);
    }
  }

  /** The branch that resumes: the sidecar must be compatible and the prefixes agree. */
  method ContinuePartial(s: FileStore, source: SourceFile, f: Format, p: Pair, expected: Metadata) returns (r: Outcome<nat>)
    requires Owned(s, p) && p.partial in s.disk && !s.disk[p.partial].Link?
    modifies s`disk, s`readFaults, source`data, source`mtime, source`sampled
    ensures old(source.sampled) <= source.sampled
    ensures Unmoved(source, old(source.data), old(source.mtime))
    ensures FaultsOnlyAt(old(s.readFaults), s.readFaults, {p.partial, p.sidecar})
    ensures KeptBut(s.owns, old(s.disk), s.disk, {})
    ensures r.Ok? ==> IsFile(s.disk, p.partial) && r.value == |s.disk[p.partial].data| && SidecarAt(f, s.disk, p.sidecar).Some?
                      && ResumeCompatible(expected, SidecarAt(f, s.disk, p.sidecar).value, r.value)
    ensures source.stable ==>
              && (r.Ok? ==> Continuable(f, s.disk, p, source.data, expected))
              && (r == Fail(ResumeIncompatible) ==>
                    FaultAt(old(s.readFaults), s.readFaults, p.sidecar) || !Continuable(f, s.disk, p, source.data, expected))
    ensures FaultAt(old(s.readFaults), s.readFaults, p.sidecar) ==> r == Fail(ResumeIncompatible)
    ensures s.unreadable(p.sidecar) ==> r == Fail(ResumeIncompatible)
    // What the checks come to: every field of the sidecar, and the length.
    ensures r.Ok? && expected.schema == METADATA_SCHEMA ==> Vouched(f, old(s.disk), p, expected) && r.value <= expected.sourceSize
    ensures expected.schema == METADATA_SCHEMA && IsFile(old(s.disk), p.partial)
            && (!Vouched(f, old(s.disk), p, expected) || |old(s.disk)[p.partial].data| > expected.sourceSize) ==>
              r == Fail(ResumeIncompatible)
    ensures s.reliable && Readable(s, p) && source.reliable && IsFile(s.disk, p.partial) ==>
              s.readFaults == old(s.readFaults) && (r.Ok? || r == Fail(ResumeIncompatible))
  {
    var size := Size(s.disk[p.partial]);
    var stored := ReadMetadata(s, f, p.sidecar);
    if expected.schema == METADATA_SCHEMA { CompatibleMeansVouched(f, old(s.disk), p, expected, size); }
    assert SameAt(old(s.disk), s.disk, p.sidecar);
    if stored.Fail? || !ResumeCompatible(expected, stored.value, size) { return Fail(ResumeIncompatible); }
    var validationBytes := Min(expected.prefixBytes, size);
    var remotePrefix := s.Read(p.partial, validationBytes);
    if remotePrefix.None? { return Fail(Unclassified); }
    var localPrefix := source.ReadPrefix(validationBytes);
    if localPrefix.None? { return Fail(Unclassified); }
    if f.sha256(remotePrefix.value) != f.sha256(localPrefix.value) { return Fail(ResumeIncompatible); }
    r := Ok(size);
  }

  /** What interrupted runs of an unchanged source leave passes every check. */
  lemma ResumableContinues(f: Format, d: Disk, p: Pair, content: Content, mtime: Timestamp)
    ensures p.partial in d && Resumable(f, d, p, content, MetadataOf(f, content, mtime)) ==>
              Continuable(f, d, p, content, MetadataOf(f, content, mtime))
  {
    if p.partial in d && Resumable(f, d, p, content, MetadataOf(f, content, mtime)) {
      var held := d[p.partial].data;
      TakePrefix(held, content, Min(MetadataOf(f, content, mtime).prefixBytes, |held|));
    }
  }

  /** The branch that starts over: stale state is removed partial first, then
      the new sidecar is written in full before the new partial is created. */
  method FreshPartial(s: FileStore, f: Format, p: Pair, expected: Metadata, partialInfo: Stat, local: bool) returns (r: Outcome<nat>)
    requires Owned(s, p) && Faithful(f)
    requires partialInfo.Found? ==> p.partial in s.disk
    requires partialInfo.NotExist? ==> p.partial !in s.disk
    modifies s`disk, s`touched, s`readFaults
    ensures AddsOnly(old(s.touched), s.touched, {p.partial, p.sidecar})
    ensures FaultsOnlyAt(old(s.readFaults), s.readFaults, {p.sidecar})
    ensures partialInfo.Found? || (s.reliable && !s.unreadable(p.sidecar)) ==> s.readFaults == old(s.readFaults)
    ensures KeptBut(s.owns, old(s.disk), s.disk, {p.partial, p.sidecar})
    ensures WriteAhead(f, old(s.disk), p) ==> WriteAhead(f, s.disk, p)
    ensures r.Fail? ==> r.code != ResumeIncompatible
    ensures partialInfo.StatFailed? ==> r.Fail? && s.disk == old(s.disk) && s.readFaults == old(s.readFaults)
    ensures r.Ok? ==> r.value == 0 && IsFile(s.disk, p.partial) && s.disk[p.partial].data == []
    ensures r.Ok? ==> s.disk[p.partial].mode == 0x180 && SidecarAt(f, s.disk, p.sidecar) == Some(expected)
    ensures || SameAt(old(s.disk), s.disk, p.partial)
            || p.partial !in s.disk
            || (IsFile(s.disk, p.partial) && s.disk[p.partial].data == [] && SidecarAt(f, s.disk, p.sidecar) == Some(expected))
    ensures p.partial in s.disk ==>
              SameAt(old(s.disk), s.disk, p.sidecar) || SidecarAt(f, s.disk, p.sidecar) == Some(expected)
    ensures s.reliable && !s.unreadable(p.sidecar) && !partialInfo.StatFailed? && PlainPair(old(s.disk), p) ==> r.Ok?
  {
    if partialInfo.StatFailed? { return Fail(DestinationNotWritable); }
    var ok;
    if partialInfo.Found? {
      ok := s.Remove(p.partial);
      if !ok { return Fail(DestinationNotWritable); }
      var _ := s.Remove(p.sidecar);
    } else {
      var sidecarInfo := s.Lstat(p.sidecar);
      match sidecarInfo {
        case Found(node) =>
          if node.Link? { return Fail(UnsupportedFileType); }
          ok := s.Remove(p.sidecar);
          if !ok { return Fail(DestinationNotWritable); }
        case StatFailed => return Fail(DestinationNotWritable);
        case NotExist =>
      }
    }
    assert p.partial !in s.disk;
    var written := WriteMetadata(s, f, p, expected, local);
    if written.Fail? { return Fail(written.code); }
    ok := s.CreateExclusive(p.partial, if local then Some(PRIVATE_MODE) else None);
    if !ok { return Fail(DestinationNotWritable); }
    if !local {
      ok := s.Chmod(p.partial, PRIVATE_MODE);
      if !ok { return Fail(InvalidPermission); }
    }
    r := Ok(0);
  }

  datatype Streamed = Streamed(digest: Digest, bytes: nat)

  ghost predicate Unmoved(source: SourceFile, data: Bytes, mtime: int)
    reads source
  {
    source.stable ==> source.data == data && source.mtime == mtime
  }

  /** Reads the first `offset` bytes of the source again to restart the hash.
      The context is cancelled after `patience` reads. */
  method HashPrefix(source: SourceFile, offset: nat, patience: nat) returns (ok: bool, hashed: Bytes, left: nat)
    modifies source`data, source`mtime, source`streamed
    ensures Unmoved(source, old(source.data), old(source.mtime))
    ensures source.streamed == old(source.streamed) + hashed
    ensures |hashed| <= offset && (ok ==> |hashed| == offset)
    ensures source.stable ==> Prefix(hashed, source.data)
    ensures source.stable && source.reliable && offset <= |source.data| && offset <= patience ==> ok && left + offset >= patience
  {
    left, hashed := patience, [];
    while |hashed| < offset
      invariant |hashed| <= offset
      invariant Unmoved(source, old(source.data), old(source.mtime))
      invariant source.streamed == old(source.streamed) + hashed
      invariant source.stable ==> Prefix(hashed, source.data)
      invariant left + |hashed| >= patience
      decreases left
    {
      if left == 0 { return false, hashed, left; }
      var chunk := source.ReadAt(|hashed|, offset - |hashed|);
      if chunk.None? || chunk.value == [] { return false, hashed, left; }
      left := left - 1;
      PrefixGrows(hashed, chunk.value, |chunk.value|, source.data, source.stable);
      hashed := hashed + chunk.value;
    }
    ok := true;
  }

  /** Writes a chunk at the end of a file, of which `stored` bytes land. */
  method AppendChunk(s: FileStore, partial: Path, pos: nat, chunk: Bytes) returns (ok: bool, ghost stored: nat)
    requires s.owns(partial) && IsFile(s.disk, partial) && pos == |s.disk[partial].data|
    modifies s`disk, s`touched
    ensures AddsOnly(old(s.touched), s.touched, {partial})
    ensures KeptBut(s.owns, old(s.disk), s.disk, {partial})
    ensures stored <= |chunk| && (ok ==> stored == |chunk|) && (s.reliable ==> ok)
    ensures IsFile(s.disk, partial) && s.disk[partial].data == old(s.disk)[partial].data + chunk[..stored]
  {
    ok, stored := s.WriteAt(partial, pos, chunk);
    assert old(s.disk)[partial].data[..pos] == old(s.disk)[partial].data;
    assert old(s.disk)[partial].data + chunk[..stored] + [] == old(s.disk)[partial].data + chunk[..stored];
  }

  /** Copies what follows `hashed` from the source to the end of the partial
      file, chunk by chunk, writing first and hashing after. `read` is what it
      read, `appended` what reached the file. */
  method CopyRest(s: FileStore, source: SourceFile, partial: Path, prefix: Bytes, patience: nat)
    returns (ok: bool, hashed: Bytes, ghost appended: Bytes, ghost read: Bytes)
    requires s.owns(partial) && IsFile(s.disk, partial) && |s.disk[partial].data| == |prefix|
    requires source.stable ==> Prefix(prefix, source.data)
    modifies s`disk, s`touched, source`data, source`mtime, source`streamed
    ensures Unmoved(source, old(source.data), old(source.mtime))
    ensures source.streamed == old(source.streamed) + read
    ensures AddsOnly(old(s.touched), s.touched, {partial})
    ensures KeptBut(s.owns, old(s.disk), s.disk, {partial})
    ensures IsFile(s.disk, partial) && s.disk[partial].data == old(s.disk)[partial].data + appended
    ensures Prefix(appended, read) && (ok ==> appended == read && hashed == prefix + read)
    ensures source.stable ==> Prefix(prefix + appended, source.data)
    ensures source.stable && ok ==> hashed == source.data
    ensures s.reliable && source.reliable && source.stable && |prefix| + patience > |source.data| ==> ok
  {
    hashed, appended, read := prefix, [], [];
    var left: nat := patience;
    while true
      invariant hashed == prefix + appended && read == appended
      invariant Unmoved(source, old(source.data), old(source.mtime))
      invariant source.streamed == old(source.streamed) + read
      invariant AddsOnly(old(s.touched), s.touched, {partial})
      invariant source.stable ==> Prefix(hashed, source.data)
      invariant KeptBut(s.owns, old(s.disk), s.disk, {partial})
      invariant IsFile(s.disk, partial) && s.disk[partial].data == old(s.disk)[partial].data + appended
      invariant left + |hashed| >= patience + |prefix|
      decreases left
    {
      if left == 0 { return false, hashed, appended, read; }
      var chunk := source.ReadAt(|hashed|, COPY_BUFFER);
      if chunk.None? { return false, hashed, appended, read; }
      if chunk.value == [] { return true, hashed, appended, read; }
      left := left - 1;
      read := read + chunk.value;
      ghost var stored;
      ok, stored := AppendChunk(s, partial, |hashed|, chunk.value);
      AppendFacts(old(s.disk)[partial].data, appended, prefix, chunk.value, stored, old(source.streamed));
      PrefixGrows(hashed, chunk.value, stored, source.data, source.stable);
      appended := appended + chunk.value[..stored];
      if !ok { return false, hashed, appended, read; }
      hashed := hashed + chunk.value;
    }
  }

  /** One chunk more, of which `stored` bytes landed. */
  lemma AppendFacts(start: Bytes, appended: Bytes, prefix: Bytes, chunk: Bytes, stored: nat, streamed: Bytes)
    requires stored <= |chunk|
    ensures (start + appended) + chunk[..stored] == start + (appended + chunk[..stored])
    ensures (prefix + appended) + chunk[..stored] == prefix + (appended + chunk[..stored])
    ensures (streamed + appended) + chunk == streamed + (appended + chunk)
    ensures Prefix(appended + chunk[..stored], appended + chunk)
    ensures stored == |chunk| ==> chunk[..stored] == chunk
  {
  }

  lemma PrefixGrows(a: Bytes, chunk: Bytes, stored: nat, b: Bytes, stable: bool)
    requires stable ==> Prefix(a, b) && |a| + |chunk| <= |b| && chunk == b[|a|..|a| + |chunk|]
    requires stored <= |chunk|
    ensures stable ==> Prefix(a + chunk[..stored], b)
    ensures chunk[..|chunk|] == chunk
  {
    if stable {
      assert chunk[..stored] == b[|a|..|a| + stored];
      assert b[..|a|] + b[|a|..|a| + stored] == b[..|a| + stored];
    }
  }

  /** Opens the partial file at its end and copies the rest of the source there. */
  method SendRest(s: FileStore, source: SourceFile, partial: Path, prefix: Bytes, patience: nat)
    returns (r: Outcome<Bytes>, ghost appended: Bytes, ghost read: Bytes)
    requires s.owns(partial) && IsFile(s.disk, partial) && |s.disk[partial].data| == |prefix|
    requires source.stable ==> Prefix(prefix, source.data)
    modifies s`disk, s`touched, source`data, source`mtime, source`streamed
    ensures Unmoved(source, old(source.data), old(source.mtime))
    ensures source.streamed == old(source.streamed) + read
    ensures AddsOnly(old(s.touched), s.touched, {partial})
    ensures KeptBut(s.owns, old(s.disk), s.disk, {partial})
    ensures IsFile(s.disk, partial) && s.disk[partial].data == old(s.disk)[partial].data + appended
    ensures r.Ok? ==> appended == read && r.value == prefix + read
    ensures source.stable ==> Prefix(prefix + appended, source.data)
    ensures source.stable && r.Ok? ==> r.value == source.data
    ensures r.Fail? ==> r.code != ResumeIncompatible
    ensures s.reliable && source.reliable && source.stable && |prefix| + patience > |source.data| ==> r.Ok?
  {
    read, appended := [], [];
    assert prefix + [] == prefix && source.streamed == old(source.streamed) + [];
    assert s.disk[partial].data == old(s.disk)[partial].data + [];
    var ok := s.OpenForWriting(partial);
    if !ok { return Fail(DestinationNotWritable), appended, read; }
    var sought: bool := *;
    if !sought && !s.reliable { return Fail(TransferFailed), appended, read; }
    var hashed;
    ok, hashed, appended, read := CopyRest(s, source, partial, prefix, patience);
    r := if ok then Ok(hashed) else Fail(TransferInterrupted);
  }

  /** Hashes the first `offset` bytes of the source again, then copies the rest
      to the end of the partial file. `read` is every byte it read from the
      source; `appended` is what reached the partial file. */
  method Stream(s: FileStore, source: SourceFile, f: Format, partial: Path, offset: nat, openError: Code)
    returns (r: Outcome<Streamed>, ghost read: Bytes, ghost appended: Bytes)
    requires s.owns(partial) && IsFile(s.disk, partial) && |s.disk[partial].data| == offset
    requires openError != ResumeIncompatible
    modifies s`disk, s`touched, source`data, source`mtime, source`streamed
    ensures Unmoved(source, old(source.data), old(source.mtime))
    ensures source.streamed == old(source.streamed) + read
    ensures AddsOnly(old(s.touched), s.touched, {partial})
    ensures KeptBut(s.owns, old(s.disk), s.disk, {partial})
    ensures IsFile(s.disk, partial) && s.disk[partial].data == old(s.disk)[partial].data + appended
    ensures r.Ok? ==> r.value == Streamed(f.sha256(read), |read|) && |read| == offset + |appended| && read[offset..] == appended
    ensures source.stable && r.Ok? ==> read == source.data
    ensures source.stable && offset <= |source.data| ==> Prefix(source.data[..offset] + appended, source.data)
    ensures r.Fail? ==> r.code != ResumeIncompatible
    ensures s.reliable && source.reliable && source.stable && offset <= |source.data| ==> r.Ok?
  {
    read, appended := [], [];
    assert s.disk[partial].data == old(s.disk)[partial].data + [];
    assert source.streamed == old(source.streamed) + [];
    assert offset <= |source.data| ==> source.data[..offset] + [] == source.data[..offset];
    var canOpen: bool := *;
    if !canOpen && !source.reliable { return Fail(openError), read, appended; }
    var patience := source.Patience();
    var ok, hashed, left := HashPrefix(source, offset, patience);
    read := hashed;
    if !ok { return Fail(TransferFailed), read, appended; }
    ghost var rest;
    var all;
    all, appended, rest := SendRest(s, source, partial, hashed, left);
    read := hashed + rest;
    assert (old(source.streamed) + hashed) + rest == old(source.streamed) + read && read[|hashed|..] == rest;
    r := if all.Ok? then Ok(Streamed(f.sha256(all.value), |all.value|)) else Fail(all.code);
  }
}
