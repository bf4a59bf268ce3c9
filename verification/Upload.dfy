/** Uploading one file: resolve the destination, prepare the partial file, stream
    into it, verify it, apply the permissions and rename it into place. */
module Upload {
  import opened Basics
  import opened SlashPath
  import opened FileStores
  import opened PartialState
  import opened PartialNames
  import opened RemoteHash
  import opened ParentCheck

  /** `mode` is None when the source's permissions are kept, and then `dirMode`
      is not looked at either; `rename` is the
      media-server file name rewriting, applied when `fixMediaNames` is set. */
  datatype Options = Options(
    overwrite: bool,
    noClobber: bool,
    resume: bool,
    dryRun: bool,
    mode: Option<nat>,
    dirMode: nat,
    setGroup: bool,
    preserveTime: bool,
    fixMediaNames: bool,
    rename: Path -> Path)

  datatype Result = Result(
    destination: Path,
    files: nat,
    skippedFiles: nat,
    bytes: nat,
    sha256: Option<Digest>,
    resumedBytes: nat,
    verified: bool,
    dryRun: bool)

  /** What a run did, for the statements about it: where it resumed, what it
      appended to the partial file, every byte it streamed from the source, whether
      the rename took effect, and whether a read of the sidecar failed while there
      was a partial file. */
  datatype Trace = Trace(offset: nat, appended: Bytes, read: Bytes, moved: bool, unread: bool)

  const NO_TRACE: Trace := Trace(0, [], [], false, false)

  // ---- What a run guarantees about the file system ----

  /** A SHA-256 collision. */
  ghost predicate Collide(f: Format, a: Bytes, b: Bytes) {
    a != b && |a| == |b| && f.sha256(a) == f.sha256(b)
  }

  /** A complete verified copy of what was read. */
  ghost predicate Whole(f: Format, d: Disk, p: Path, read: Bytes) {
    IsFile(d, p) && (d[p].data == read || Collide(f, d[p].data, read))
  }

  /** The destination is as before, or the complete new bytes exist. */
  ghost predicate NeverLost(f: Format, before: Disk, after: Disk, destination: Path, p: Pair, carried: Bytes) {
    || SameAt(before, after, destination)
    || Whole(f, after, p.partial, carried)
    || Whole(f, after, destination, carried)
    || MadeDirectory(before, after, destination)
  }

  /** The bytes a run is about: the content of an unchanged source, or else those
      that it streamed. */
  ghost function Carried(source: SourceFile, t: Trace): Bytes
    reads source
  {
    if source.stable then source.data else t.read
  }

  /** Bytes already in the partial file. */
  function Held(d: Disk, p: Pair): nat {
    if IsFile(d, p.partial) then |d[p.partial].data| else 0
  }

  /** How a resumed run over an unchanged source moves the partial file forward. */
  ghost predicate Advances(content: Bytes, before: Disk, after: Disk, destination: Path, p: Pair, t: Trace) {
    && Held(before, p) + |t.appended| <= |content|
    && (t.moved ==>
          && Held(before, p) + |t.appended| == |content|
          && p.partial !in after
          && IsFile(after, destination) && after[destination].data == content)
    && (!t.moved ==> Held(after, p) == Held(before, p) + |t.appended|)
  }

  // ---- The steps ----

  /** The group and the time that were asked for have been set. */
  ghost predicate Dressed(attributes: seq<Attribute>, path: Path, mtime: Timestamp, o: Options) {
    (o.setGroup ==> Group(path) in attributes) && (o.preserveTime ==> Times(path, mtime) in attributes)
  }

  method ApplyFilePolicy(s: FileStore, source: SourceFile, partial: Path, mtime: Timestamp, o: Options) returns (r: Outcome<()>)
    requires s.owns(partial) && IsFile(s.disk, partial)
    modifies s`disk, s`touched, s`attributes
    ensures r.Ok? ==> Dressed(s.attributes, partial, mtime, o)
    ensures AddsOnly(old(s.touched), s.touched, {partial})
    ensures KeptBut(s.owns, old(s.disk), s.disk, {partial})
    ensures IsFile(s.disk, partial) && s.disk[partial].data == old(s.disk)[partial].data
    ensures r.Ok? ==> s.disk[partial].mode == if o.mode.Some? then o.mode.value else source.mode
    ensures r.Fail? ==> r.code == GroupUnavailable || r.code == InvalidPermission
    ensures s.reliable ==> r.Ok?
  {
    var ok;
    if o.setGroup {
      ok := s.SetAttribute(Group(partial));
      if !ok { return Fail(GroupUnavailable); }
    }
    ok := s.Chmod(partial, if o.mode.Some? then o.mode.value else source.mode);
    if !ok { return Fail(InvalidPermission); }
    if o.preserveTime {
      ok := s.SetAttribute(Times(partial, mtime));
      if !ok { return Fail(InvalidPermission); }
    }
    r := Ok(());
  }

  /** Puts a verified partial file in its place, then drops its sidecar. */
  method Finalize(s: FileStore, destination: Path, p: Pair, overwrite: bool) returns (r: Outcome<()>, ghost moved: bool)
    requires Owned(s, p) && s.owns(destination) && destination != p.partial && destination != p.sidecar
    requires IsFile(s.disk, p.partial)
    requires overwrite || destination !in s.disk || s.disk[destination].Directory?
    modifies s`disk, s`touched, s`readFaults
    ensures AddsOnly(old(s.touched), s.touched, {destination, p.partial, p.sidecar})
    ensures s.readFaults(p.sidecar) == old(s.readFaults)(p.sidecar)
    ensures KeptBut(s.owns, old(s.disk), s.disk, {destination, p.partial, p.sidecar})
    ensures r.Ok? ==> moved
    ensures r.Ok? && s.reliable && old(IsFile(s.disk, p.sidecar)) ==> p.sidecar !in s.disk
    ensures moved ==> p.partial !in s.disk && destination in s.disk && s.disk[destination] == old(s.disk)[p.partial]
    ensures !moved ==> SameAt(old(s.disk), s.disk, p.partial) && SameAt(old(s.disk), s.disk, p.sidecar)
    ensures !overwrite && old(destination in s.disk) ==> SameAt(old(s.disk), s.disk, destination)
    ensures r.Fail? ==> r.code == DestinationNotWritable || r.code == TransferFailed
    ensures s.reliable && !s.unreadable(destination) ==>
              (old(destination in s.disk ==> overwrite && !s.disk[destination].Directory?) ==> r.Ok?)
  {
    moved := false;
    var ok;
    if overwrite {
      var info := s.Lstat(destination);
      if info.Found? {
        ok := s.Remove(destination);
        if !ok { return Fail(DestinationNotWritable), false; }
      }
    }
    ok := s.Rename(p.partial, destination);
    moved := p.partial !in s.disk;
    if !ok { return Fail(TransferFailed), moved; }
    var _ := s.Remove(p.sidecar);
    r := Ok(());
  }

  /** The partial file to resume from is there, but its sidecar cannot be read or
      is not one of this source as it was seen, or it is longer than the source. */
  ghost predicate Unusable(f: Format, s: FileStore, before: Disk, p: Pair, expected: Metadata, resume: bool) {
    && resume && IsFile(before, p.partial) && !s.unreadable(p.partial) && expected.schema == METADATA_SCHEMA
    && (s.unreadable(p.sidecar) || !Vouched(f, before, p, expected) || |before[p.partial].data| > expected.sourceSize)
  }

  /** What a run that succeeds has continued, if it found a partial file. */
  ghost predicate ContinuedOwn(f: Format, before: Disk, p: Pair, expected: Metadata, resume: bool) {
    resume && p.partial in before && expected.schema == METADATA_SCHEMA ==>
      Vouched(f, before, p, expected) && Held(before, p) <= expected.sourceSize
  }

  /** The metadata is what the first inspection and the first reading of the
      source's beginning gave. */
  ghost predicate AsFirstSeen(f: Format, seen: seq<SourceStat>, inspected: seq<SourceStat>, read: seq<Bytes>, sampled: seq<Bytes>,
                              expected: Metadata)
  {
    && seen < inspected && read < sampled && expected.schema == METADATA_SCHEMA
    && SourceStat(expected.sourceSize, expected.sourceMTime) == inspected[|seen|]
    && expected.prefixBytes == |sampled[|read|]| && expected.prefixSHA256 == f.sha256(sampled[|read|])
  }

  /** The source was inspected again after the first time, and had not moved. */
  ghost predicate SeenTwice(seen: seq<SourceStat>, inspected: seq<SourceStat>) {
    |seen| + 2 <= |inspected| && inspected[|seen|] == inspected[|seen| + 1]
  }

  lemma FirstStaysFirst(f: Format, seen: seq<SourceStat>, planned: seq<SourceStat>, inspected: seq<SourceStat>,
                        read: seq<Bytes>, plannedRead: seq<Bytes>, sampled: seq<Bytes>, expected: Metadata)
    requires AsFirstSeen(f, seen, planned, read, plannedRead, expected) && planned <= inspected && plannedRead <= sampled
    ensures AsFirstSeen(f, seen, inspected, read, sampled, expected)
  {
  }

  lemma FirstThenNext(seen: seq<SourceStat>, inspected: seq<SourceStat>, stat: SourceStat)
    ensures SeenNext(seen + [stat], inspected, stat) ==> SeenTwice(seen, inspected)
  {
  }

  /** The next inspection gives this. */
  ghost predicate SeenNext(seen: seq<SourceStat>, inspected: seq<SourceStat>, stat: SourceStat) {
    seen < inspected && inspected[|seen|] == stat
  }

  /** Nothing goes wrong, and the source does not change. */
  predicate Calm(s: FileStore, source: SourceFile) {
    s.reliable && source.reliable && source.stable
  }

  /** The prefix comparison a resume makes: as far as both the fingerprint and
      the partial file reach. */
  ghost predicate AcceptedPrefix(f: Format, held: Bytes, content: Bytes, prefixBytes: nat) {
    var v := Min(prefixBytes, |held|);
    |held| <= |content| && f.sha256(Take(held, v)) == f.sha256(Take(content, v))
  }

  /** The bytes that were there, then the rest of what was read. */
  ghost predicate Continues(data: Bytes, before: Disk, p: Pair, offset: nat, read: Bytes) {
    && offset <= |read| == |data|
    && data[offset..] == read[offset..]
    && (offset > 0 ==> IsFile(before, p.partial) && data[..offset] == before[p.partial].data)
  }

  /** What filling the partial file does to the state interrupted runs left. */
  ghost predicate ResumedFill(f: Format, content: Bytes, ok: bool, incompatible: bool, before: Disk, after: Disk, p: Pair,
                              expected: Metadata, t: Trace)
  {
    Resumable(f, before, p, content, expected) ==>
      && Resumable(f, after, p, content, expected)
      && (incompatible <==> t.unread)
      && Held(after, p) == Held(before, p) + |t.appended| <= |content|
      && (ok ==> IsFile(after, p.partial) && after[p.partial].data == content)
  }

  /** Streaming after preparing: only the hidden files change, in the right order. */
  lemma StreamComposes(f: Format, owns: Path -> bool, before: Disk, ready: Disk, after: Disk, p: Pair)
    requires KeptBut(owns, before, ready, {p.partial, p.sidecar}) && KeptBut(owns, ready, after, {p.partial})
    requires owns(p.sidecar) && p.partial != p.sidecar && IsFile(ready, p.partial)
    requires WriteAhead(f, before, p) ==> WriteAhead(f, ready, p)
    ensures KeptBut(owns, before, after, {p.partial, p.sidecar})
    ensures WriteAhead(f, before, p) ==> WriteAhead(f, after, p)
    ensures SameAt(ready, after, p.sidecar)
  {
  }

  lemma ResumedFillStreams(f: Format, content: Bytes, ok: bool, before: Disk, ready: Disk, after: Disk, p: Pair, expected: Metadata,
                           t: Trace)
    requires Resumable(f, before, p, content, expected) ==> Resumable(f, ready, p, content, expected) && !t.unread
    requires IsFile(ready, p.partial) && IsFile(after, p.partial) && SameAt(ready, after, p.sidecar)
    requires Held(ready, p) == Held(before, p) && after[p.partial].data == ready[p.partial].data + t.appended
    requires Held(ready, p) <= |content| ==> Prefix(content[..Held(ready, p)] + t.appended, content)
    requires ok ==> Held(ready, p) + |t.appended| == |content|
    ensures ResumedFill(f, content, ok, false, before, after, p, expected, t)
  {
    if Resumable(f, before, p, content, expected) {
      var held := ready[p.partial].data;
      ResumedPrefix(held, t.appended, content, true);
    }
  }

  /** Streams into a prepared partial file. `before` is the disk the run began
      with, and `resumed` whether it resumes a transfer of an unchanged source. */
  method StreamInto(s: FileStore, source: SourceFile, f: Format, p: Pair, expected: Metadata, offset: nat, local: bool,
                    ghost before: Disk, ghost resumed: bool, ghost unread: bool)
    returns (r: Outcome<Streamed>, ghost t: Trace)
    requires Owned(s, p) && IsFile(s.disk, p.partial) && |s.disk[p.partial].data| == offset
    requires KeptBut(s.owns, before, s.disk, {p.partial, p.sidecar})
    requires WriteAhead(f, before, p) ==> WriteAhead(f, s.disk, p)
    requires offset > 0 ==> SameAt(before, s.disk, p.partial)
    requires resumed ==> source.stable && offset == Held(before, p)
    requires resumed ==> (Resumable(f, before, p, source.data, expected) ==> Resumable(f, s.disk, p, source.data, expected) && !unread)
    modifies s`disk, s`touched, source`data, source`mtime, source`streamed
    ensures Unmoved(source, old(source.data), old(source.mtime))
    ensures source.streamed == old(source.streamed) + t.read
    ensures t == Trace(offset, t.appended, t.read, false, unread)
    ensures AddsOnly(old(s.touched), s.touched, {p.partial})
    ensures KeptBut(s.owns, before, s.disk, {p.partial, p.sidecar})
    ensures WriteAhead(f, before, p) ==> WriteAhead(f, s.disk, p)
    ensures r.Ok? ==>
              && r.value == Streamed(f.sha256(t.read), |t.read|)
              && IsFile(s.disk, p.partial)
              && Continues(s.disk[p.partial].data, before, p, offset, t.read)
    ensures r.Ok? && source.stable ==> t.read == source.data
    ensures r != Fail(ResumeIncompatible)
    ensures resumed ==> ResumedFill(f, source.data, r.Ok?, false, before, s.disk, p, expected, t)
    ensures Calm(s, source) && offset <= |source.data| ==> r.Ok?
  {
    ghost var ready := s.disk;
    ghost var read, appended;
    r, read, appended := Stream(s, source, f, p.partial, offset, if local then InvalidRemoteSource else InvalidLocalPath);
    t := Trace(offset, appended, read, false, unread);
    StreamComposes(f, s.owns, before, ready, s.disk, p);
    ResumedPrefix(ready[p.partial].data, appended, source.data, source.stable);
    if resumed { ResumedFillStreams(f, source.data, r.Ok?, before, ready, s.disk, p, expected, t); }
  }

  /** Prepares the partial file and streams the source into it; `local` for a download. */
  method FillPartial(s: FileStore, source: SourceFile, f: Format, p: Pair, expected: Metadata, resume: bool, local: bool)
    returns (r: Outcome<Streamed>, offset: nat, ghost t: Trace)
    requires Owned(s, p) && Faithful(f)
    modifies s`disk, s`touched, s`readFaults, source`data, source`mtime, source`streamed, source`sampled
    ensures old(source.sampled) <= source.sampled
    ensures Unmoved(source, old(source.data), old(source.mtime))
    ensures source.streamed == old(source.streamed) + t.read
    ensures t.unread <==> p.partial in old(s.disk) && FaultAt(old(s.readFaults), s.readFaults, p.sidecar)
    ensures AddsOnly(old(s.touched), s.touched, {p.partial, p.sidecar})
    ensures KeptBut(s.owns, old(s.disk), s.disk, {p.partial, p.sidecar})
    ensures WriteAhead(f, old(s.disk), p) ==> WriteAhead(f, s.disk, p)
    ensures !t.moved && t.offset == if resume then Held(old(s.disk), p) else 0
    ensures r.Ok? ==>
              && offset == t.offset
              && r.value == Streamed(f.sha256(t.read), |t.read|)
              && IsFile(s.disk, p.partial)
              && Continues(s.disk[p.partial].data, old(s.disk), p, t.offset, t.read)
    ensures r.Ok? && t.offset > 0 && source.stable ==>
              AcceptedPrefix(f, old(s.disk)[p.partial].data, source.data, expected.prefixBytes)
    ensures r.Ok? ==> ContinuedOwn(f, old(s.disk), p, expected, resume)
    ensures r.Ok? && source.stable ==> t.read == source.data
    ensures resume && source.stable && expected == MetadataOf(f, source.data, source.mtime) ==>
              ResumedFill(f, source.data, r.Ok?, r == Fail(ResumeIncompatible), old(s.disk), s.disk, p, expected, t)
    ensures Calm(s, source) && Readable(s, p) && expected.sourceSize <= |source.data| && PlainPair(old(s.disk), p) ==>
              r.Ok? == (resume && old(p.partial in s.disk) ==> Continuable(f, old(s.disk), p, source.data, expected))
    ensures s.reliable && Unusable(f, s, old(s.disk), p, expected, resume) ==> r == Fail(ResumeIncompatible)
  {
    offset := 0;
    t := NO_TRACE.(offset := if resume then Held(s.disk, p) else 0);
    ghost var resumed := resume && source.stable && expected == MetadataOf(f, source.data, source.mtime);
    var prepared := PreparePartial(s, source, f, p, expected, resume, local);
    t := t.(unread := p.partial in old(s.disk) && FaultAt(old(s.readFaults), s.readFaults, p.sidecar));
    assert source.streamed == old(source.streamed) + [];
    if prepared.Fail? {
      r := Fail(prepared.code);
    } else {
      offset := prepared.value;
      r, t := StreamInto(s, source, f, p, expected, offset, local, old(s.disk), resumed, t.unread);
    }
  }

  /** What was there, then the rest of the source. */
  lemma CompletedFile(filled: Bytes, held: Bytes, content: Bytes, offset: nat)
    requires offset <= |content| == |filled| && filled[offset..] == content[offset..] && filled[..offset] == held
    ensures |held| == offset && filled == held + content[|held|..]
  {
    assert filled == filled[..offset] + filled[offset..];
  }

  lemma ResumedPrefix(held: Bytes, appended: Bytes, content: Bytes, stable: bool)
    requires stable && |held| <= |content| ==> Prefix(content[..|held|] + appended, content)
    ensures stable && Prefix(held, content) ==> Prefix(held + appended, content)
    ensures (held + appended)[|held|..] == appended
  {
  }

  /** Checks that the source has not changed, that the partial file is what was
      read, and gives it its permissions. */
  method Settle(s: FileStore, source: SourceFile, f: Format, hasher: Hasher, partial: Path, streamed: Streamed,
                initial: SourceStat, o: Options)
    returns (r: Outcome<()>)
    requires s.owns(partial) && IsFile(s.disk, partial)
    modifies s`disk, s`touched, s`attributes, s`readFaults, source`data, source`mtime, source`inspected
    ensures r.Ok? ==> Dressed(s.attributes, partial, initial.mtime, o)
    ensures old(source.inspected) <= source.inspected && (r.Ok? ==> SeenNext(old(source.inspected), source.inspected, initial))
    ensures Unmoved(source, old(source.data), old(source.mtime))
    ensures AddsOnly(old(s.touched), s.touched, {partial})
    ensures FaultsOnlyAt(old(s.readFaults), s.readFaults, {partial})
    ensures KeptBut(s.owns, old(s.disk), s.disk, {partial})
    ensures IsFile(s.disk, partial) && s.disk[partial].data == old(s.disk)[partial].data
    ensures r.Ok? && Honest(hasher) ==> MatchesAt(f, s.disk, partial, streamed.digest, streamed.bytes)
    ensures r.Ok? ==> s.disk[partial].mode == if o.mode.Some? then o.mode.value else source.mode
    ensures r.Ok? && source.stable ==> initial == SourceStat(|source.data|, source.mtime)
    ensures Calm(s, source) && !s.unreadable(partial) && initial == SourceStat(|source.data|, source.mtime) ==>
              (MatchesAt(f, old(s.disk), partial, streamed.digest, streamed.bytes) ==> r.Ok?)
    ensures r != Fail(ResumeIncompatible)
  {
    var now := source.StatSource();
    if now.None? || now.value != initial { return Fail(SourceChanged); }
    var verified := VerifyRemote(s, f, hasher, partial, streamed.digest, streamed.bytes);
    if verified.Fail? { return Fail(verified.code); }
    r := ApplyFilePolicy(s, source, partial, initial.mtime, o);
  }

  /** What a run without faults needs of the state it starts from: a partial file
      it resumes from must pass the checks and complete to the source's digest. */
  ghost predicate Completes(f: Format, d: Disk, p: Pair, content: Bytes, expected: Metadata, resume: bool) {
    resume && p.partial in d ==>
      && Continuable(f, d, p, content, expected)
      && var held := d[p.partial].data;
         |held| <= |content| && f.sha256(held + content[|held|..]) == f.sha256(content)
  }

  /** Nothing stands in the way of putting a file in place. */
  ghost predicate ReadyFor(d: Disk, destination: Path, p: Pair, overwrite: bool) {
    PlainPair(d, p) && (destination in d ==> overwrite && !d[destination].Directory?)
  }

  /** Fills the partial file and settles it: what is left is to put it in place. */
  method Stage(s: FileStore, source: SourceFile, f: Format, hasher: Hasher, p: Pair, expected: Metadata,
               initial: SourceStat, o: Options)
    returns (r: Outcome<Streamed>, offset: nat, ghost t: Trace)
    requires Owned(s, p) && Faithful(f)
    modifies s`disk, s`touched, s`attributes, s`readFaults, source`data, source`mtime, source`streamed, source`inspected, source`sampled
    ensures r.Ok? ==> Dressed(s.attributes, p.partial, initial.mtime, o)
    ensures old(source.inspected) <= source.inspected && old(source.sampled) <= source.sampled
    ensures r.Ok? ==> SeenNext(old(source.inspected), source.inspected, initial)
    ensures Unmoved(source, old(source.data), old(source.mtime))
    ensures source.streamed == old(source.streamed) + t.read
    ensures t.unread <==> p.partial in old(s.disk) && FaultAt(old(s.readFaults), s.readFaults, p.sidecar)
    ensures AddsOnly(old(s.touched), s.touched, {p.partial, p.sidecar})
    ensures KeptBut(s.owns, old(s.disk), s.disk, {p.partial, p.sidecar})
    ensures WriteAhead(f, old(s.disk), p) ==> WriteAhead(f, s.disk, p)
    ensures !t.moved && t.offset == if o.resume then Held(old(s.disk), p) else 0
    ensures r.Ok? ==>
              && offset == t.offset
              && r.value == Streamed(f.sha256(t.read), |t.read|)
              && IsFile(s.disk, p.partial)
              && s.disk[p.partial].mode == (if o.mode.Some? then o.mode.value else source.mode)
              && |s.disk[p.partial].data| == |t.read|
              && (Honest(hasher) ==> Whole(f, s.disk, p.partial, t.read))
    ensures r.Ok? ==> ContinuedOwn(f, old(s.disk), p, expected, o.resume)
    ensures r.Ok? && source.stable ==> t.read == source.data && initial == SourceStat(|source.data|, source.mtime)
    ensures o.resume && source.stable && expected == MetadataOf(f, source.data, source.mtime) ==>
              ResumedFill(f, source.data, r.Ok?, r == Fail(ResumeIncompatible), old(s.disk), s.disk, p, expected, t)
    ensures Calm(s, source) && Readable(s, p) && PlainPair(old(s.disk), p) && Honest(hasher)
            && initial == SourceStat(|source.data|, source.mtime) && expected == MetadataOf(f, source.data, source.mtime) ==>
              r.Ok? == Completes(f, old(s.disk), p, source.data, expected, o.resume)
    ensures s.reliable && Unusable(f, s, old(s.disk), p, expected, o.resume) ==> r == Fail(ResumeIncompatible)
  {
    r, offset, t := FillPartial(s, source, f, p, expected, o.resume, false);
    if r.Fail? { return; }
    ghost var filled := s.disk[p.partial].data;
    if source.stable {
      CompletedFile(filled, filled[..t.offset], source.data, t.offset);
      assert o.resume && old(IsFile(s.disk, p.partial)) ==> filled[..t.offset] == old(s.disk)[p.partial].data;
      assert t.offset == 0 ==> filled == source.data;
    }
    var settled := Settle(s, source, f, hasher, p.partial, r.value, initial, o);
    if settled.Fail? { return Fail(settled.code), offset, t; }
  }

  /** What one CopyFile is about: the path it resolved to, the metadata of the
      source it saw, the hidden files it used. */
  datatype Target = Target(path: Path, pair: Pair, expected: Metadata)

  /** What success means: the bytes that were read, and what the result says of them. */
  ghost predicate Delivered(f: Format, h: Hasher, r: Result, d: Disk, g: Target, mode: nat, t: Trace) {
    && r == Result(g.path, 1, 0, |t.read|, Some(f.sha256(t.read)), t.offset, true, false)
    && t.moved && g.pair.partial !in d
    && IsFile(d, g.path) && d[g.path].mode == mode && |d[g.path].data| == |t.read|
    && (Honest(h) ==> Whole(f, d, g.path, t.read))
  }

  /** What a resumed run does to the state interrupted runs left. */
  ghost predicate ResumedRun(f: Format, content: Bytes, r: Outcome<Result>, before: Disk, after: Disk, g: Target, t: Trace) {
    Resumable(f, before, g.pair, content, g.expected) ==>
      && Resumable(f, after, g.pair, content, g.expected)
      && (r == Fail(ResumeIncompatible) <==> t.unread)
      && t.offset == Held(before, g.pair)
      && Advances(content, before, after, g.path, g.pair, t)
  }

  /** The last step of a staged file. `before` is the disk the run began with,
      `filled` what it did so far, `carried` the bytes it is about, and `resumed`
      whether it resumes a transfer of an unchanged source. */
  method PutInPlace(s: FileStore, f: Format, hasher: Hasher, g: Target, streamed: Streamed, offset: nat, overwrite: bool, mode: nat,
                    ghost before: Disk, ghost filled: Trace, ghost carried: Bytes, ghost resumed: bool)
    returns (r: Outcome<Result>, ghost t: Trace)
    requires Owned(s, g.pair) && s.owns(g.path) && g.path != g.pair.partial && g.path != g.pair.sidecar
    requires overwrite || g.path !in s.disk || s.disk[g.path].Directory?
    requires IsFile(s.disk, g.pair.partial) && s.disk[g.pair.partial].mode == mode
    requires |s.disk[g.pair.partial].data| == |filled.read| && streamed == Streamed(f.sha256(filled.read), |filled.read|)
    requires offset == filled.offset && !filled.moved
    requires Honest(hasher) ==> Whole(f, s.disk, g.pair.partial, filled.read) && Whole(f, s.disk, g.pair.partial, carried)
    requires KeptBut(s.owns, before, s.disk, {g.pair.partial, g.pair.sidecar})
    requires WriteAhead(f, before, g.pair) ==> WriteAhead(f, s.disk, g.pair)
    requires resumed ==> ResumedFill(f, carried, true, false, before, s.disk, g.pair, g.expected, filled)
    requires resumed ==> offset == Held(before, g.pair)
    modifies s`disk, s`touched, s`readFaults
    ensures t == filled.(moved := t.moved)
    ensures s.readFaults(g.pair.sidecar) == old(s.readFaults)(g.pair.sidecar)
    ensures AddsOnly(old(s.touched), s.touched, {g.path, g.pair.partial, g.pair.sidecar})
    ensures KeptBut(s.owns, before, s.disk, {g.path, g.pair.partial, g.pair.sidecar})
    ensures WriteAhead(f, before, g.pair) ==> WriteAhead(f, s.disk, g.pair)
    ensures Honest(hasher) ==> NeverLost(f, before, s.disk, g.path, g.pair, carried)
    ensures r.Ok? ==> Delivered(f, hasher, r.value, s.disk, g, mode, t)
    ensures r != Fail(ResumeIncompatible)
    ensures resumed ==> ResumedRun(f, carried, r, before, s.disk, g, t)
    ensures s.reliable && !s.unreadable(g.path) ==>
              (old(g.path in s.disk ==> overwrite && !s.disk[g.path].Directory?) ==> r.Ok?)
  {
    var finalized, moved := Finalize(s, g.path, g.pair, overwrite);
    StagedComposes(f, s.owns, before, old(s.disk), s.disk, g, moved);
    if Honest(hasher) { StagedIsNotLost(f, before, old(s.disk), s.disk, g, carried, moved); }
    t := filled.(moved := moved);
    r := if finalized.Fail? then Fail(finalized.code)
         else Ok(Result(g.path, 1, 0, streamed.bytes, Some(streamed.digest), offset, true, false));
    if resumed { ResumedFinalized(f, carried, r, before, old(s.disk), s.disk, g, filled, moved); }
  }

  /** Everything after the directories exist: prepare, stream, verify, apply the
      policy, finalize. The contract covers every point at which a run can stop. */
  method Deliver(s: FileStore, source: SourceFile, f: Format, hasher: Hasher, g: Target, initial: SourceStat, o: Options)
    returns (r: Outcome<Result>, ghost t: Trace)
    requires Owned(s, g.pair) && s.owns(g.path) && g.path != g.pair.partial && g.path != g.pair.sidecar && Faithful(f)
    requires !o.dryRun && (o.overwrite || g.path !in s.disk || s.disk[g.path].Directory?)
    modifies s`disk, s`touched, s`attributes, s`readFaults, source`data, source`mtime, source`streamed, source`inspected, source`sampled
    ensures r.Ok? ==> Dressed(s.attributes, g.pair.partial, initial.mtime, o)
    ensures old(source.inspected) <= source.inspected && old(source.sampled) <= source.sampled
    ensures r.Ok? ==> SeenNext(old(source.inspected), source.inspected, initial)
    ensures Unmoved(source, old(source.data), old(source.mtime))
    ensures source.streamed == old(source.streamed) + t.read
    ensures t.unread <==> g.pair.partial in old(s.disk) && FaultAt(old(s.readFaults), s.readFaults, g.pair.sidecar)
    // Only the destination and the run's own hidden files change.
    ensures AddsOnly(old(s.touched), s.touched, {g.path, g.pair.partial, g.pair.sidecar})
    ensures KeptBut(s.owns, old(s.disk), s.disk, {g.path, g.pair.partial, g.pair.sidecar})
    ensures WriteAhead(f, old(s.disk), g.pair) ==> WriteAhead(f, s.disk, g.pair)
    ensures Honest(hasher) ==> NeverLost(f, old(s.disk), s.disk, g.path, g.pair, Carried(source, t))
    // What success means.
    ensures r.Ok? ==> Delivered(f, hasher, r.value, s.disk, g, if o.mode.Some? then o.mode.value else source.mode, t)
    ensures r.Ok? ==> ContinuedOwn(f, old(s.disk), g.pair, g.expected, o.resume)
    ensures r.Ok? && source.stable ==> t.read == source.data && initial == SourceStat(|source.data|, source.mtime)
    // Resuming what interrupted runs of an unchanged source left.
    ensures source.stable && o.resume && g.expected == MetadataOf(f, source.data, source.mtime) ==>
              ResumedRun(f, source.data, r, old(s.disk), s.disk, g, t)
    // Without faults.
    ensures Calm(s, source) && Honest(hasher) && g.expected == MetadataOf(f, source.data, source.mtime)
            && Readable(s, g.pair) && !s.unreadable(g.path) && ReadyFor(old(s.disk), g.path, g.pair, o.overwrite)
            && initial == SourceStat(|source.data|, source.mtime) ==>
              r.Ok? == Completes(f, old(s.disk), g.pair, source.data, g.expected, o.resume)
    ensures s.reliable && Unusable(f, s, old(s.disk), g.pair, g.expected, o.resume) ==> r == Fail(ResumeIncompatible)
  {
    var streamed, offset;
    streamed, offset, t := Stage(s, source, f, hasher, g.pair, g.expected, initial, o);
    if streamed.Fail? {
      r := Fail(streamed.code);
      if source.stable && o.resume && g.expected == MetadataOf(f, source.data, source.mtime) {
        ResumedUnfinished(f, source.data, streamed.code, old(s.disk), s.disk, g, t);
      }
    } else {
      ghost var resumed := source.stable && o.resume && g.expected == MetadataOf(f, source.data, source.mtime);
      r, t := PutInPlace(s, f, hasher, g, streamed.value, offset, o.overwrite, if o.mode.Some? then o.mode.value else source.mode,
                         old(s.disk), t, Carried(source, t), resumed);
    }
  }

  /** The last step changes only the three files, and keeps the order between the hidden ones. */
  lemma StagedComposes(f: Format, owns: Path -> bool, before: Disk, staged: Disk, after: Disk, g: Target, moved: bool)
    requires KeptBut(owns, before, staged, {g.pair.partial, g.pair.sidecar})
    requires KeptBut(owns, staged, after, {g.path, g.pair.partial, g.pair.sidecar})
    requires WriteAhead(f, before, g.pair) ==> WriteAhead(f, staged, g.pair)
    requires moved ==> g.pair.partial !in after
    requires !moved ==> SameAt(staged, after, g.pair.partial) && SameAt(staged, after, g.pair.sidecar)
    ensures KeptBut(owns, before, after, {g.path, g.pair.partial, g.pair.sidecar})
    ensures WriteAhead(f, before, g.pair) ==> WriteAhead(f, after, g.pair)
  {
  }

  lemma StagedIsNotLost(f: Format, before: Disk, staged: Disk, after: Disk, g: Target, carried: Bytes, moved: bool)
    requires Whole(f, staged, g.pair.partial, carried)
    requires moved ==> g.path in after && after[g.path] == staged[g.pair.partial]
    requires !moved ==> SameAt(staged, after, g.pair.partial)
    ensures NeverLost(f, before, after, g.path, g.pair, carried)
    ensures moved ==> Whole(f, after, g.path, carried)
  {
  }

  /** A run that ends before putting the file in place has only filled it. */
  lemma ResumedUnfinished(f: Format, content: Bytes, code: Code, before: Disk, after: Disk, g: Target, t: Trace)
    requires ResumedFill(f, content, false, code == ResumeIncompatible, before, after, g.pair, g.expected, t)
    requires t.offset == Held(before, g.pair) && !t.moved
    ensures ResumedRun(f, content, Fail(code), before, after, g, t)
  {
  }

  /** Putting the file in place completes what filling it began. */
  lemma ResumedFinalized(f: Format, content: Bytes, r: Outcome<Result>, before: Disk, staged: Disk, after: Disk, g: Target, t: Trace,
                         moved: bool)
    requires ResumedFill(f, content, true, false, before, staged, g.pair, g.expected, t) && t.offset == Held(before, g.pair)
    requires IsFile(staged, g.pair.partial) && r != Fail(ResumeIncompatible)
    requires moved ==> g.pair.partial !in after && g.path in after && after[g.path] == staged[g.pair.partial]
    requires !moved ==> SameAt(staged, after, g.pair.partial) && SameAt(staged, after, g.pair.sidecar)
    ensures ResumedRun(f, content, r, before, after, g, t.(moved := moved))
  {
  }

  // ---- Where the file goes ----

  /** The paths a source may end up at: the one given, or inside it when it is a
      directory, each possibly renamed for media servers. */
  function Candidates(destination: Path, name: string, o: Options): set<Path> {
    var inside := Join(destination, name);
    {destination, inside} + if o.fixMediaNames then {o.rename(destination), o.rename(inside)} else {}
  }

  /** The path that will really be written. */
  function Resolution(d: Disk, destination: Path, name: string, o: Options): Path {
    var path := if destination in d && d[destination].Directory? then Join(destination, name) else destination;
    if o.fixMediaNames then o.rename(path) else path
  }

  datatype Resolved = Resolved(path: Path, skip: bool)

  predicate IsLink(d: Disk, p: Path) {
    p in d && d[p].Link?
  }

  /** What decides about a transfer before it starts: a link in its place. */
  ghost predicate Linked(d: Disk, destination: Path, name: string, o: Options) {
    IsLink(d, destination) || IsLink(d, Resolution(d, destination, name, o))
  }

  /** Something is there that is neither to be kept nor to be replaced. */
  ghost predicate InTheWay(d: Disk, destination: Path, name: string, o: Options) {
    !Linked(d, destination, name, o) && Resolution(d, destination, name, o) in d && !o.noClobber && !o.overwrite
  }

  /** Something is there that is to be kept. */
  ghost predicate KeptThere(d: Disk, destination: Path, name: string, o: Options) {
    !Linked(d, destination, name, o) && Resolution(d, destination, name, o) in d && o.noClobber
  }

  /** Nothing is there, or it is to be replaced. */
  ghost predicate Takeable(d: Disk, destination: Path, name: string, o: Options) {
    !Linked(d, destination, name, o) && (Resolution(d, destination, name, o) in d ==> !o.noClobber && o.overwrite)
  }

  /** The answer about the path, by what stands there. */
  ghost predicate Answers(d: Disk, destination: Path, name: string, o: Options, r: Outcome<Resolved>) {
    && (Linked(d, destination, name, o) ==> r == Fail(UnsupportedFileType))
    && (InTheWay(d, destination, name, o) ==> r == Fail(DestinationExists))
    && (KeptThere(d, destination, name, o) ==> r.Ok? && r.value.skip)
    && (Takeable(d, destination, name, o) ==> r.Ok? && !r.value.skip)
    && (r.Ok? ==> r.value.path == Resolution(d, destination, name, o) && (r.value.path in d ==> !d[r.value.path].Link?))
  }

  /** Inspects the path given, applies the directory rule and the renaming, and
      inspects the path they lead to. */
  method Locate(s: FileStore, name: string, destination: Path, o: Options) returns (r: Outcome<(Path, Stat)>)
    requires forall c :: c in Candidates(destination, name, o) ==> s.owns(c)
    modifies s`disk, s`readFaults
    ensures FaultsGrow(old(s.readFaults), s.readFaults)
    ensures KeptBut(s.owns, old(s.disk), s.disk, {})
    ensures r.Ok? ==>
              var (path, existing) := r.value;
              && path == Resolution(s.disk, destination, name, o) && !IsLink(s.disk, destination)
              && (existing.Found? ==> path in s.disk && existing.node == s.disk[path])
              && (existing.NotExist? ==> path !in s.disk)
    ensures r.Fail? ==> r.code == DestinationNotWritable || (r.code == UnsupportedFileType && IsLink(s.disk, destination))
    ensures s.reliable && (forall c :: c in Candidates(destination, name, o) ==> !s.unreadable(c)) ==>
              if r.Ok? then !r.value.1.StatFailed? else r.code == UnsupportedFileType
  {
    var path := destination;
    assert s.owns(destination);
    var existing := s.Lstat(path);
    if existing.StatFailed? { return Fail(DestinationNotWritable); }
    if existing.Found? {
      if existing.node.Link? { return Fail(UnsupportedFileType); }
      if existing.node.Directory? {
        path := Join(destination, name);
        existing := s.Lstat(path);
      }
    }
    if o.fixMediaNames {
      var renamed := o.rename(path);
      if renamed != path {
        path := renamed;
        existing := s.Lstat(path);
      }
    }
    assert SameAt(old(s.disk), s.disk, destination);
    r := Ok((path, existing));
  }

  /** Decides on the path that will really be written, which lies inside the
      destination if that is a directory, and may be renamed: a link is refused,
      nothing there goes on, something there is kept, replaced or refused by the
      options, and no-clobber comes before overwrite. */
  method ResolveDestination(s: FileStore, name: string, destination: Path, o: Options) returns (r: Outcome<Resolved>)
    requires forall c :: c in Candidates(destination, name, o) ==> s.owns(c)
    modifies s`disk, s`readFaults
    ensures FaultsGrow(old(s.readFaults), s.readFaults)
    ensures KeptBut(s.owns, old(s.disk), s.disk, {})
    ensures r != Fail(DestinationNotWritable) ==>
              var inside := if destination in s.disk && s.disk[destination].Directory? then Join(destination, name) else destination;
              var path := if o.fixMediaNames then o.rename(inside) else inside;
              var linked := IsLink(s.disk, destination) || IsLink(s.disk, path);
              && (linked ==> r == Fail(UnsupportedFileType))
              && (!linked && path !in s.disk ==> r == Ok(Resolved(path, false)))
              && (!linked && path in s.disk && o.noClobber ==> r == Ok(Resolved(path, true)))
              && (!linked && path in s.disk && !o.noClobber && o.overwrite ==> r == Ok(Resolved(path, false)))
              && (!linked && path in s.disk && !o.noClobber && !o.overwrite ==> r == Fail(DestinationExists))
    ensures s.reliable && (forall c :: c in Candidates(destination, name, o) ==> !s.unreadable(c)) ==> r != Fail(DestinationNotWritable)
    ensures r != Fail(DestinationNotWritable) ==> Answers(s.disk, destination, name, o, r)
  {
    var located := Locate(s, name, destination, o);
    if located.Fail? { return Fail(located.code); }
    var (path, existing) := located.value;
    match existing {
      case Found(node) =>
        if node.Link? { return Fail(UnsupportedFileType); }
        if o.noClobber { return Ok(Resolved(path, true)); }
        if !o.overwrite { return Fail(DestinationExists); }
      case StatFailed => return Fail(DestinationNotWritable);
      case NotExist =>
    }
    r := Ok(Resolved(path, false));
  }

  // ---- The whole operation ----

  /** Nothing else writes where this transfer may write. */
  ghost predicate SingleWriter(s: FileStore, suffix: SuffixOf, destination: Path, name: string, o: Options)
    reads s
  {
    forall p :: InTerritory(suffix, Candidates(destination, name, o), p) ==> s.owns(p)
  }

  predicate PairOwned(s: FileStore, p: Pair)
    reads s
  {
    s.owns(p.partial) && s.owns(p.sidecar)
  }

  lemma OwnsCandidates(s: FileStore, suffix: SuffixOf, destination: Path, name: string, o: Options)
    requires SingleWriter(s, suffix, destination, name, o)
    ensures forall c :: c in Candidates(destination, name, o) ==> s.owns(c)
  {
    forall c | c in Candidates(destination, name, o) ensures s.owns(c) {
      assert InTerritory(suffix, Candidates(destination, name, o), c);
    }
  }

  lemma OwnsItsFiles(s: FileStore, suffix: SuffixOf, destination: Path, name: string, o: Options, c: Path, m: Metadata)
    requires SingleWriter(s, suffix, destination, name, o) && c in Candidates(destination, name, o)
    ensures s.owns(c) && PairOwned(s, PartialPaths(suffix, c, m))
  {
    var pair := PartialPaths(suffix, c, m);
    assert InPair(pair.partial, pair) && InPair(pair.sidecar, pair);
    assert HiddenFor(suffix, c, pair.partial) && HiddenFor(suffix, c, pair.sidecar);
    assert InTerritory(suffix, Candidates(destination, name, o), c);
    assert InTerritory(suffix, Candidates(destination, name, o), pair.partial);
    assert InTerritory(suffix, Candidates(destination, name, o), pair.sidecar);
  }

  /** The paths a run may change: its three files, and directories it makes. */
  ghost predicate OnlyTouches(owns: Path -> bool, before: Disk, after: Disk, g: Target) {
    forall q :: owns(q) && q !in {g.path, g.pair.partial, g.pair.sidecar} ==>
                  SameAt(before, after, q) || (MadeDirectory(before, after, q) && OnTheWay(q, Dir(g.path)))
  }

  datatype Plan = Finished(result: Result) | Proceed(target: Target, initial: SourceStat)

  /** A file that needs no transfer: it is kept as it is, or only counted. */
  predicate NothingToDo(r: Result, d: Disk, o: Options) {
    && !r.verified && r.sha256 == None && r.resumedBytes == 0 && r.dryRun == o.dryRun
    && (if r.skippedFiles == 0 then r.files == 1 && o.dryRun
        else r.skippedFiles == 1 && r.files == 0 && r.bytes == 0 && o.noClobber && r.destination in d)
  }

  /** Nothing will be transferred: a dry run, or something to keep is already there. */
  predicate LeavesAsIs(d: Disk, destination: Path, name: string, o: Options) {
    o.dryRun || (o.noClobber && Resolution(d, destination, name, o) in d)
  }

  /** The paths looked at resolve as they did, since only others moved. */
  lemma ResolutionKept(owns: Path -> bool, a: Disk, b: Disk, destination: Path, name: string, o: Options)
    requires KeptBut(owns, a, b, {}) && forall c :: c in Candidates(destination, name, o) ==> owns(c)
    ensures Resolution(a, destination, name, o) == Resolution(b, destination, name, o)
    ensures Resolution(a, destination, name, o) in Candidates(destination, name, o)
    ensures SameAt(a, b, Resolution(a, destination, name, o))
    ensures LeavesAsIs(a, destination, name, o) <==> LeavesAsIs(b, destination, name, o)
  {
    assert SameAt(a, b, destination);
  }

  /** Whatever stands above the destination is a directory. */
  ghost predicate ParentsClear(d: Disk, destination: Path, local: bool) {
    local || forall q :: Above(q, destination) && q in d ==> d[q].Directory?
  }

  lemma ClearParentsAreNoTrouble(d: Disk, destination: Path)
    requires ParentsClear(d, destination, false)
    ensures Trouble(d, ParentComponents(destination)) == None
  {
    TroubleMeans(d, destination);
  }

  /** Every path that is looked at before anything is changed can be. */
  ghost predicate Visible(s: FileStore, destination: Path, name: string, o: Options, local: bool) {
    && (forall c :: c in Candidates(destination, name, o) ==> !s.unreadable(c))
    && (local || forall p :: p in ParentComponents(destination) ==> !s.unreadable(p))
  }

  /** The directories above the destination, before anything is changed there. */
  method CheckParents(s: FileStore, destination: Path, local: bool) returns (r: Outcome<()>)
    modifies s`disk, s`readFaults
    ensures FaultsGrow(old(s.readFaults), s.readFaults)
    ensures KeptBut(s.owns, old(s.disk), s.disk, {})
    ensures r != Fail(ResumeIncompatible)
    ensures s.reliable && (forall p :: s.owns(p)) && (local || forall p :: p in ParentComponents(destination) ==> !s.unreadable(p)) ==>
              r.Ok? == (local || Trouble(old(s.disk), ParentComponents(destination)) == None)
    ensures s.reliable && (forall p :: s.owns(p)) && (local || forall p :: p in ParentComponents(destination) ==> !s.unreadable(p)) ==>
              (ParentsClear(old(s.disk), destination, local) ==> r.Ok?)
  {
    if ParentsClear(s.disk, destination, false) { ClearParentsAreNoTrouble(s.disk, destination); }
    if local {
      // A local parent that cannot be used as a directory refuses the transfer
      // here; a reliable store has none.
      var parentsUsable: bool := *;
      return if parentsUsable || s.reliable then Ok(()) else Fail(DestinationNotWritable);
    }
    r := ValidateRemoteParents(s, destination);
  }

  function Chosen(r: Outcome<(SourceStat, Resolved)>): Outcome<Resolved> {
    match r
    case Ok(value) => Ok(value.1)
    case Fail(code) => Fail(code)
  }

  lemma AloneUnchanged(owns: Path -> bool, a: Disk, b: Disk)
    requires KeptBut(owns, a, b, {})
    ensures (forall p :: owns(p)) ==> a == b
  {
    if forall p :: owns(p) { EqualDisks(owns, a, b); }
  }

  /** No faults, no other writers, and nothing but directories above. */
  ghost predicate Alone(s: FileStore, source: SourceFile, destination: Path, o: Options, local: bool)
    reads s, source
  {
    && Calm(s, source) && (forall p :: s.owns(p)) && Visible(s, destination, source.name, o, local)
    && ParentsClear(s.disk, destination, local)
  }

  /** Inspects the source, the directories above the destination and the
      destination itself. */
  method Survey(s: FileStore, source: SourceFile, destination: Path, o: Options, local: bool)
    returns (r: Outcome<(SourceStat, Resolved)>)
    requires forall c :: c in Candidates(destination, source.name, o) ==> s.owns(c)
    modifies s`disk, s`readFaults, source`data, source`mtime, source`inspected
    ensures r.Ok? ==> source.inspected == old(source.inspected) + [r.value.0]
    ensures Unmoved(source, old(source.data), old(source.mtime))
    ensures FaultsGrow(old(s.readFaults), s.readFaults)
    ensures KeptBut(s.owns, old(s.disk), s.disk, {})
    ensures r != Fail(ResumeIncompatible)
    ensures r.Ok? ==>
              var path := r.value.1.path;
              && path == Resolution(s.disk, destination, source.name, o)
              && path in Candidates(destination, source.name, o)
              && (path in s.disk ==> !s.disk[path].Link? && (r.value.1.skip || (o.overwrite && !o.noClobber)))
              && (r.value.1.skip ==> o.noClobber && path in s.disk)
              && (source.stable ==> r.value.0 == SourceStat(|source.data|, source.mtime))
    ensures old(Alone(s, source, destination, o, local)) ==> Answers(old(s.disk), destination, source.name, o, Chosen(r))
  {
    var initial := source.StatSource();
    if initial.None? { return Fail(if local then InvalidRemoteSource else InvalidLocalPath); }
    var parents := CheckParents(s, destination, local);
    if parents.Fail? { return Fail(parents.code); }
    var resolved := ResolveDestination(s, source.name, destination, o);
    AloneUnchanged(s.owns, old(s.disk), s.disk);
    if resolved.Fail? { return Fail(resolved.code); }
    r := Ok((initial.value, resolved.value));
  }

  /** Looks at the source and the destination without changing anything. */
  method MakePlan(s: FileStore, source: SourceFile, f: Format, suffix: SuffixOf, destination: Path, o: Options, local: bool)
    returns (r: Outcome<Plan>)
    requires SingleWriter(s, suffix, destination, source.name, o) && !(o.overwrite && o.noClobber)
    modifies s`disk, s`readFaults, source`data, source`mtime, source`inspected, source`sampled
    ensures Unmoved(source, old(source.data), old(source.mtime))
    ensures FaultsGrow(old(s.readFaults), s.readFaults)
    ensures KeptBut(s.owns, old(s.disk), s.disk, {})
    ensures r != Fail(ResumeIncompatible)
    ensures r.Ok? && r.value.Finished? ==>
              && NothingToDo(r.value.result, s.disk, o)
              && r.value.result.destination == Resolution(old(s.disk), destination, source.name, o)
              && (r.value.result.files == 1 && source.stable ==> r.value.result.bytes == |source.data|)
    ensures r.Ok? ==> (r.value.Finished? <==> LeavesAsIs(old(s.disk), destination, source.name, o))
    ensures r.Ok? && r.value.Proceed? ==>
              var g := r.value.target;
              && !o.dryRun
              && g.path == Resolution(old(s.disk), destination, source.name, o)
              && g.path in Candidates(destination, source.name, o)
              && g.pair == PartialPaths(suffix, g.path, g.expected)
              && (o.overwrite || g.path !in s.disk)
              && source.inspected == old(source.inspected) + [r.value.initial]
              && AsFirstSeen(f, old(source.inspected), source.inspected, old(source.sampled), source.sampled, g.expected)
              && (source.stable ==> r.value.initial == SourceStat(|source.data|, source.mtime))
              && (source.stable ==> g.expected == MetadataOf(f, source.data, source.mtime))
    ensures old(Alone(s, source, destination, o, local)) ==>
              var d := old(s.disk);
              && (Linked(d, destination, source.name, o) ==> r == Fail(UnsupportedFileType))
              && (InTheWay(d, destination, source.name, o) ==> r == Fail(DestinationExists))
              && (KeptThere(d, destination, source.name, o) ==> r.Ok? && r.value.Finished? && r.value.result.skippedFiles == 1)
              && (Takeable(d, destination, source.name, o) ==> r.Ok? && (r.value.Finished? ==> r.value.result.skippedFiles == 0))
  {
    OwnsCandidates(s, suffix, destination, source.name, o);
    var surveyed := Survey(s, source, destination, o, local);
    if surveyed.Fail? { return Fail(surveyed.code); }
    ResolutionKept(s.owns, old(s.disk), s.disk, destination, source.name, o);
    var (initial, resolved) := surveyed.value;
    if resolved.skip { return Ok(Finished(Result(resolved.path, 0, 1, 0, None, 0, false, o.dryRun))); }
    var prefix := source.ReadPrefix(PREFIX_LIMIT);
    if prefix.None? { return Fail(TransferFailed); }
    var expected := Metadata(METADATA_SCHEMA, initial.size, initial.mtime, |prefix.value|, f.sha256(prefix.value));
    if o.dryRun { return Ok(Finished(Result(resolved.path, 1, 0, initial.size, None, 0, false, true))); }
    r := Ok(Proceed(Target(resolved.path, PartialPaths(suffix, resolved.path, expected), expected), initial));
  }

  /** There was no destination, and every file there was, other than the
      transfer's own hidden ones, is still as it was. */
  ghost predicate NothingReplaced(owns: Path -> bool, before: Disk, after: Disk, g: Target) {
    && g.path !in before
    && forall q :: owns(q) && q in before && q !in {g.pair.partial, g.pair.sidecar} ==> SameAt(before, after, q)
  }

  /** What a transfer that went ahead guarantees, on every return. */
  ghost predicate Guaranteed(f: Format, h: Hasher, owns: Path -> bool, before: Disk, after: Disk, overwrite: bool, g: Target, read: Bytes) {
    && OnlyTouches(owns, before, after, g)
    && (WriteAhead(f, before, g.pair) ==> WriteAhead(f, after, g.pair))
    && (overwrite || NothingReplaced(owns, before, after, g))
    && (Honest(h) ==> NeverLost(f, before, after, g.path, g.pair, read))
  }

  /** Only missing directories on the way to `parent` were made. */
  ghost predicate DirectoriesMade(owns: Path -> bool, a: Disk, b: Disk, parent: Path) {
    forall q :: owns(q) ==> SameAt(a, b, q) || (MadeDirectory(a, b, q) && OnTheWay(q, parent))
  }

  lemma GuaranteedAfterDirectories(f: Format, h: Hasher, owns: Path -> bool, a: Disk, b: Disk, c: Disk, overwrite: bool, g: Target,
                                   read: Bytes)
    requires DirectoriesMade(owns, a, b, Dir(g.path)) && owns(g.path) && owns(g.pair.partial) && owns(g.pair.sidecar)
    requires |Dir(g.path)| < |g.pair.partial| < |g.pair.sidecar|
    requires KeptBut(owns, b, c, {g.path, g.pair.partial, g.pair.sidecar})
    requires WriteAhead(f, b, g.pair) ==> WriteAhead(f, c, g.pair)
    requires Honest(h) ==> NeverLost(f, b, c, g.path, g.pair, read)
    requires overwrite || g.path !in a
    ensures Guaranteed(f, h, owns, a, c, overwrite, g, read)
  {
    assert SameAt(a, b, g.pair.partial) && SameAt(a, b, g.pair.sidecar);
  }

  /** Nothing stands in the way of the target or of its directories. */
  ghost predicate Clear(d: Disk, g: Target, o: Options) {
    && ReadyFor(d, g.path, g.pair, o.overwrite)
    && Dir(g.path) != "" && ClearWay(d, Dir(g.path)) && !OnTheWay(g.path, Dir(g.path))
  }

  /** A run without faults, with nothing in its way, succeeds exactly when what it
      resumes from completes to the source; starting over, it always does. */
  ghost predicate SucceedsIffComplete(f: Format, content: Bytes, before: Disk, g: Target, o: Options, ok: bool) {
    Clear(before, g, o) ==> ok == Completes(f, before, g.pair, content, g.expected, o.resume)
  }

  lemma ReadyAfterDirectories(f: Format, owns: Path -> bool, a: Disk, b: Disk, content: Bytes, g: Target, o: Options)
    requires DirectoriesMade(owns, a, b, Dir(g.path)) && owns(g.path) && owns(g.pair.partial) && owns(g.pair.sidecar)
    requires |Dir(g.path)| < |g.pair.partial| < |g.pair.sidecar|
    ensures Clear(a, g, o) ==> ReadyFor(b, g.path, g.pair, o.overwrite)
    ensures Completes(f, b, g.pair, content, g.expected, o.resume) == Completes(f, a, g.pair, content, g.expected, o.resume)
  {
    assert Clear(a, g, o) ==> SameAt(a, b, g.path);
    assert SameAt(a, b, g.pair.partial) && SameAt(a, b, g.pair.sidecar);
  }

  /** Every directory made is one on the way to the target that was missing. */
  ghost predicate MadeOnTheWay(owns: Path -> bool, before: Disk, a: iset<Path>, b: iset<Path>, g: Target) {
    forall q :: q in b ==> q in a || (OnTheWay(q, Dir(g.path)) && (owns(q) ==> q !in before))
  }

  lemma MadeLater(owns: Path -> bool, a: Disk, b: Disk, made: iset<Path>, after: iset<Path>, g: Target)
    requires KeptBut(owns, a, b, {}) && MadeOnTheWay(owns, b, made, after, g)
    ensures MadeOnTheWay(owns, a, made, after, g)
  {
  }

  /** Makes the missing directories on the way to the target. */
  method MakeRoom(s: FileStore, suffix: SuffixOf, g: Target) returns (ok: bool)
    requires WellShaped(suffix) && g.pair == PartialPaths(suffix, g.path, g.expected) && PairOwned(s, g.pair) && s.owns(g.path)
    modifies s`disk, s`made
    ensures MadeOnTheWay(s.owns, old(s.disk), old(s.made), s.made, g)
    ensures DirectoriesMade(s.owns, old(s.disk), s.disk, Dir(g.path))
    ensures SameAt(old(s.disk), s.disk, g.pair.partial) && SameAt(old(s.disk), s.disk, g.pair.sidecar)
    ensures SameAt(old(s.disk), s.disk, g.path) || (MadeDirectory(old(s.disk), s.disk, g.path) && OnTheWay(g.path, Dir(g.path)))
    ensures s.reliable && Dir(g.path) != "" && (forall q :: s.owns(q)) && ClearWay(old(s.disk), Dir(g.path)) ==> ok
  {
    HiddenFilesAreDeeper(suffix, g.path, g.expected);
    ok := s.MkdirAll(Dir(g.path));
  }

  lemma ResumedAfterDirectories(f: Format, content: Bytes, r: Outcome<Result>, a: Disk, b: Disk, c: Disk, g: Target, t: Trace)
    requires SameAt(a, b, g.pair.partial) && SameAt(a, b, g.pair.sidecar)
    ensures ResumedRun(f, content, r, b, c, g, t) ==> ResumedRun(f, content, r, a, c, g, t)
  {
  }

  /** Delivers into directories that exist by now. `before` is the disk before they were made. */
  method DeliverInto(s: FileStore, source: SourceFile, f: Format, hasher: Hasher, g: Target, initial: SourceStat, o: Options,
                     ghost before: Disk)
    returns (r: Outcome<Result>, ghost t: Trace)
    requires Owned(s, g.pair) && s.owns(g.path) && g.path != g.pair.partial && g.path != g.pair.sidecar && Faithful(f)
    requires !o.dryRun && (o.overwrite || g.path !in before)
    requires |Dir(g.path)| < |g.pair.partial| < |g.pair.sidecar|
    requires DirectoriesMade(s.owns, before, s.disk, Dir(g.path))
    requires SameAt(before, s.disk, g.pair.partial) && SameAt(before, s.disk, g.pair.sidecar)
    modifies s`disk, s`touched, s`attributes, s`readFaults, source`data, source`mtime, source`streamed, source`inspected, source`sampled
    ensures r.Ok? ==> Dressed(s.attributes, g.pair.partial, initial.mtime, o)
    ensures old(source.inspected) <= source.inspected && old(source.sampled) <= source.sampled
    ensures r.Ok? ==> SeenNext(old(source.inspected), source.inspected, initial)
    ensures Unmoved(source, old(source.data), old(source.mtime))
    ensures source.streamed == old(source.streamed) + t.read
    ensures t.unread <==> g.pair.partial in before && FaultAt(old(s.readFaults), s.readFaults, g.pair.sidecar)
    ensures AddsOnly(old(s.touched), s.touched, {g.path, g.pair.partial, g.pair.sidecar})
    ensures Guaranteed(f, hasher, s.owns, before, s.disk, o.overwrite, g, Carried(source, t))
    ensures r.Ok? ==> Delivered(f, hasher, r.value, s.disk, g, if o.mode.Some? then o.mode.value else source.mode, t)
    ensures r.Ok? ==> ContinuedOwn(f, before, g.pair, g.expected, o.resume)
    ensures r.Ok? && source.stable ==> t.read == source.data && initial == SourceStat(|source.data|, source.mtime)
    ensures source.stable && o.resume && g.expected == MetadataOf(f, source.data, source.mtime) ==>
              ResumedRun(f, source.data, r, before, s.disk, g, t)
    ensures Calm(s, source) && Honest(hasher) && (forall q :: s.owns(q) && !s.unreadable(q))
            && initial == SourceStat(|source.data|, source.mtime)
            && g.expected == MetadataOf(f, source.data, source.mtime) ==>
              SucceedsIffComplete(f, source.data, before, g, o, r.Ok?)
    ensures s.reliable && Unusable(f, s, before, g.pair, g.expected, o.resume) ==> r == Fail(ResumeIncompatible)
  {
    ghost var ready := s.disk;
    ReadyAfterDirectories(f, s.owns, before, ready, source.data, g, o);
    r, t := Deliver(s, source, f, hasher, g, initial, o);
    GuaranteedAfterDirectories(f, hasher, s.owns, before, ready, s.disk, o.overwrite, g, Carried(source, t));
    ResumedAfterDirectories(f, source.data, r, before, ready, s.disk, g, t);
  }

  /** Makes the missing directories, then delivers. `before` is the disk the run
      began with, which only others have changed since. */
  method Execute(s: FileStore, source: SourceFile, f: Format, hasher: Hasher, suffix: SuffixOf, g: Target,
                 initial: SourceStat, o: Options, ghost before: Disk)
    returns (r: Outcome<Result>, ghost t: Trace)
    requires Faithful(f) && WellShaped(suffix) && !o.dryRun
    requires g.pair == PartialPaths(suffix, g.path, g.expected) && PairOwned(s, g.pair) && s.owns(g.path)
    requires KeptBut(s.owns, before, s.disk, {}) && (o.overwrite || g.path !in before)
    modifies s, source
    ensures r.Ok? ==> Dressed(s.attributes, g.pair.partial, initial.mtime, o)
    ensures old(source.inspected) <= source.inspected && old(source.sampled) <= source.sampled
    ensures r.Ok? ==> SeenNext(old(source.inspected), source.inspected, initial)
    ensures Unmoved(source, old(source.data), old(source.mtime))
    ensures source.streamed == old(source.streamed) + t.read
    ensures t.unread <==> g.pair.partial in before && FaultAt(old(s.readFaults), s.readFaults, g.pair.sidecar)
    ensures AddsOnly(old(s.touched), s.touched, {g.path, g.pair.partial, g.pair.sidecar})
    ensures MadeOnTheWay(s.owns, before, old(s.made), s.made, g)
    ensures Guaranteed(f, hasher, s.owns, before, s.disk, o.overwrite, g, Carried(source, t))
    ensures r.Ok? ==> Delivered(f, hasher, r.value, s.disk, g, if o.mode.Some? then o.mode.value else source.mode, t)
    ensures r.Ok? ==> ContinuedOwn(f, before, g.pair, g.expected, o.resume)
    ensures r.Ok? && source.stable ==> t.read == source.data && initial == SourceStat(|source.data|, source.mtime)
    ensures source.stable && o.resume && g.expected == MetadataOf(f, source.data, source.mtime) ==>
              ResumedRun(f, source.data, r, before, s.disk, g, t)
    ensures Calm(s, source) && Honest(hasher) && (forall q :: s.owns(q) && !s.unreadable(q))
            && initial == SourceStat(|source.data|, source.mtime)
            && g.expected == MetadataOf(f, source.data, source.mtime) ==>
              SucceedsIffComplete(f, source.data, before, g, o, r.Ok?)
    ensures s.reliable && (forall q :: s.owns(q)) && Clear(before, g, o) && Unusable(f, s, before, g.pair, g.expected, o.resume) ==>
              r == Fail(ResumeIncompatible)
  {
    HiddenNamesDiffer(suffix, g.path, g.expected);
    HiddenFilesAreDeeper(suffix, g.path, g.expected);
    var made := MakeRoom(s, suffix, g);
    MadeLater(s.owns, before, old(s.disk), old(s.made), s.made, g);
    if !made {
      r, t := Fail(DestinationNotWritable), NO_TRACE.(offset := if o.resume then Held(s.disk, g.pair) else 0);
      GuaranteedAfterDirectories(f, hasher, s.owns, before, s.disk, s.disk, o.overwrite, g, Carried(source, t));
      assert source.streamed == old(source.streamed) + [];
    } else {
      r, t := DeliverInto(s, source, f, hasher, g, initial, o, before);
    }
  }

  /** The target of a transfer of this content that resolves to `path`. */
  function TargetOf(f: Format, suffix: SuffixOf, path: Path, content: Content, mtime: Timestamp): Target {
    Target(path, PartialPaths(suffix, path, MetadataOf(f, content, mtime)), MetadataOf(f, content, mtime))
  }

  /** Uploads one file. `g` is None when the run never got as far as changing anything. */
  method CopyFile(s: FileStore, source: SourceFile, f: Format, hasher: Hasher, suffix: SuffixOf, destination: Path, o: Options)
    returns (r: Outcome<Result>, ghost g: Option<Target>, ghost t: Trace)
    requires Faithful(f) && WellShaped(suffix) && !(o.overwrite && o.noClobber)
    requires SingleWriter(s, suffix, destination, source.name, o)
    modifies s, source
    ensures Unmoved(source, old(source.data), old(source.mtime))
    ensures source.streamed == old(source.streamed) + t.read
    ensures g.None? ==>
              && s.touched == old(s.touched) && s.made == old(s.made)
              && KeptBut(s.owns, old(s.disk), s.disk, {})
              && r != Fail(ResumeIncompatible)
              && (r.Ok? ==> NothingToDo(r.value, s.disk, o))
              && (r.Ok? && r.value.files == 1 && source.stable ==> r.value.bytes == |source.data|)
    ensures r.Ok? ==> (r.value.verified <==> !LeavesAsIs(old(s.disk), destination, source.name, o))
    ensures r.Ok? ==> r.value.destination == Resolution(old(s.disk), destination, source.name, o)
    ensures g.Some? ==>
              && !o.dryRun
              && g.value.path == Resolution(old(s.disk), destination, source.name, o)
              && g.value.path in Candidates(destination, source.name, o)
              && g.value.pair == PartialPaths(suffix, g.value.path, g.value.expected)
              && AddsOnly(old(s.touched), s.touched, {g.value.path, g.value.pair.partial, g.value.pair.sidecar})
              && MadeOnTheWay(s.owns, old(s.disk), old(s.made), s.made, g.value)
              && (t.unread ==> FaultAt(old(s.readFaults), s.readFaults, g.value.pair.sidecar))
              && Guaranteed(f, hasher, s.owns, old(s.disk), s.disk, o.overwrite, g.value, Carried(source, t))
              && AsFirstSeen(f, old(source.inspected), source.inspected, old(source.sampled), source.sampled, g.value.expected)
              && (r.Ok? ==> ContinuedOwn(f, old(s.disk), g.value.pair, g.value.expected, o.resume))
              && (r.Ok? ==> Dressed(s.attributes, g.value.pair.partial, g.value.expected.sourceMTime, o))
              && (r.Ok? ==> SeenTwice(old(source.inspected), source.inspected))
              && (r.Ok? ==> Delivered(f, hasher, r.value, s.disk, g.value, if o.mode.Some? then o.mode.value else source.mode, t))
    ensures g.Some? && source.stable ==>
              && g.value.expected == MetadataOf(f, source.data, source.mtime)
              && (r.Ok? ==> t.read == source.data)
              && (o.resume ==> ResumedRun(f, source.data, r, old(s.disk), s.disk, g.value, t))
    // Without faults or other writers, what stands at the path decides.
    ensures old(Alone(s, source, destination, o, false)) ==>
              var d := old(s.disk);
              && (Linked(d, destination, source.name, o) ==> r == Fail(UnsupportedFileType))
              && (InTheWay(d, destination, source.name, o) ==> r == Fail(DestinationExists))
              && (KeptThere(d, destination, source.name, o) ==> r.Ok? && r.value.skippedFiles == 1)
              && (o.dryRun && Takeable(d, destination, source.name, o) ==> r.Ok? && r.value.skippedFiles == 0)
    ensures old(Alone(s, source, destination, o, false)) && !o.dryRun && Takeable(old(s.disk), destination, source.name, o) ==>
              && g.Some?
              && ((forall p :: !s.unreadable(p)) && Honest(hasher) ==> SucceedsIffComplete(f, source.data, old(s.disk), g.value, o, r.Ok?))
              && (Clear(old(s.disk), g.value, o) && Unusable(f, s, old(s.disk), g.value.pair, g.value.expected, o.resume) ==>
                    r == Fail(ResumeIncompatible))
  {
    g, t := None, NO_TRACE;
    var plan := MakePlan(s, source, f, suffix, destination, o, false);
    assert source.streamed == old(source.streamed) + [];
    if plan.Fail? { return Fail(plan.code), g, t; }
    match plan.value {
      case Finished(result) => r := Ok(result);
      case Proceed(target, initial) =>
        g := Some(target);
        OwnsItsFiles(s, suffix, destination, source.name, o, target.path, target.expected);
        ghost var seen, read := source.inspected, source.sampled;
        r, t := Execute(s, source, f, hasher, suffix, target, initial, o, old(s.disk));
        FirstStaysFirst(f, old(source.inspected), seen, source.inspected, old(source.sampled), read, source.sampled, target.expected);
        FirstThenNext(old(source.inspected), source.inspected, initial);
    }
  }

  predicate SameDigest(f: Format, a: Bytes, b: Bytes) {
    |a| == |b| && f.sha256(a) == f.sha256(b)
  }

  /** Compares a local regular file with a remote one. */
  method Verify(s: FileStore, source: SourceFile, f: Format, hasher: Hasher, destination: Path) returns (r: Outcome<Result>)
    requires s.owns(destination)
    modifies s`disk, s`readFaults, source`data, source`mtime, source`reread, source`inspected
    ensures Unmoved(source, old(source.data), old(source.mtime))
    ensures KeptBut(s.owns, old(s.disk), s.disk, {})
    ensures r.Ok? && source.stable ==>
              && (Honest(hasher) ==> Whole(f, s.disk, destination, source.data))
              && r.value == Result(destination, 1, 0, |source.data|, Some(f.sha256(source.data)), 0, true, false)
    ensures r == Fail(ChecksumMismatch) && source.stable && IsFile(s.disk, destination) ==> s.disk[destination].data != source.data
    ensures Calm(s, source) && !s.unreadable(destination) ==>
              && (destination !in s.disk ==> r == Fail(VerificationFailed))
              && (destination in s.disk && !s.disk[destination].File? ==> r == Fail(UnsupportedFileType))
              && (IsFile(s.disk, destination) && s.disk[destination].data == source.data ==> r.Ok?)
              && (IsFile(s.disk, destination) && Honest(hasher) && !SameDigest(f, s.disk[destination].data, source.data) ==>
                    r == Fail(ChecksumMismatch))
  {
    var localInfo := source.StatSource();
    if localInfo.None? { return Fail(InvalidLocalPath); }
    var remoteInfo := s.Lstat(destination);
    if !remoteInfo.Found? { return Fail(VerificationFailed); }
    if !remoteInfo.node.File? { return Fail(UnsupportedFileType); }
    var content := source.ReadWhole();
    if content.None? { return Fail(InvalidLocalPath); }
    var digest, bytes := f.sha256(content.value), |content.value|;
    var verified := VerifyRemote(s, f, hasher, destination, digest, bytes);
    if verified.Fail? { return Fail(verified.code); }
    r := Ok(Result(destination, 1, 0, bytes, Some(digest), 0, true, false));
  }

  /** Each operation of a run, by its own postcondition, is a step of others and
      then a step that WorkersDoNotInterfere is about, since what it puts on
      record is among what the whole run has put there. */
  lemma OperationsAreOwnSteps(suffix: SuffixOf, owns: Path -> bool, start: Disk, touched: iset<Path>, made: iset<Path>, g: Target,
                              before: Disk, after: Disk)
    requires g.pair == PartialPaths(suffix, g.path, g.expected)
    requires AddsOnly(iset{}, touched, {g.path, g.pair.partial, g.pair.sidecar})
    requires MadeOnTheWay(owns, start, iset{}, made, g)
    requires Operates(owns, before, after, touched, made)
    ensures exists between :: KeptBut(owns, before, between, {}) && OwnStep(suffix, g.path, between, after)
  {
    var between :| KeptBut(owns, before, between, {}) && OwnChange(between, after, touched, made);
    forall p
      ensures || SameAt(between, after, p)
              || InTerritory(suffix, {g.path}, p)
              || (MadeDirectory(between, after, p) && OnTheWay(p, Dir(g.path)))
    {
      assert InPair(p, g.pair) ==> HiddenFor(suffix, g.path, p);
      if HiddenFor(suffix, g.path, p) { assert g.path in {g.path}; }
    }
    assert OwnStep(suffix, g.path, between, after);
  }
}
