/** Downloading one file. The steps are those of an upload with the two sides
    exchanged, but for one: what is verified is the remote source, read a second
    time. The partial file on the local disk is never read back. */
module Download {
  import opened Basics
  import opened SlashPath
  import opened FileStores
  import opened PartialState
  import opened PartialNames
  import opened RemoteHash
  import opened Upload

  /** The source was read again since, and the last reading has this digest. */
  ghost predicate Rechecked(f: Format, before: seq<Bytes>, after: seq<Bytes>, digest: Digest) {
    |before| < |after| && f.sha256(after[|after| - 1]) == digest
  }

  method HashSource(source: SourceFile, f: Format, hasher: Hasher) returns (digest: Option<Digest>)
    modifies source`data, source`mtime, source`reread
    ensures Unmoved(source, old(source.data), old(source.mtime))
    ensures Honest(hasher) && digest.Some? ==> digest.value == f.sha256(source.data)
    ensures |old(source.reread)| <= |source.reread|
    ensures Honest(hasher) && digest.Some? ==> Rechecked(f, old(source.reread), source.reread, digest.value)
    ensures source.reliable && CanHash(hasher) ==> digest.Some?
  {
    source.Drift();
    if hasher.Absent? { return None; }
    if !source.reliable || !CanHash(hasher) { if * { return None; } }
    var content := source.ReadThere();
    var claimed: Digest := *;
    digest := if hasher.honest then Some(f.sha256(content)) else Some(claimed);
  }

  /** Size and digest of the received bytes against the remote source. */
  method VerifySource(source: SourceFile, f: Format, hasher: Hasher, received: Streamed) returns (r: Outcome<()>)
    modifies source`data, source`mtime, source`reread, source`inspected
    ensures old(source.inspected) <= source.inspected
    ensures Unmoved(source, old(source.data), old(source.mtime))
    ensures r.Ok? && Honest(hasher) ==> Rechecked(f, old(source.reread), source.reread, received.digest)
    ensures r.Ok? && source.stable && Honest(hasher) ==> Matches(f, source.data, received.digest, received.bytes)
    ensures r.Fail? ==> r.code == VerificationFailed || r.code == ChecksumMismatch
    ensures r == Fail(ChecksumMismatch) && source.stable ==> !Matches(f, source.data, received.digest, received.bytes)
    ensures source.stable && source.reliable && Matches(f, source.data, received.digest, received.bytes) ==> r.Ok?
  {
    var remote := HashSource(source, f, hasher);
    if remote == Some(received.digest) {
      var info := source.StatSource();
      if info.Some? && info.value.size == received.bytes { return Ok(()); }
    }
    var content := source.ReadWhole();
    if content.None? { return Fail(VerificationFailed); }
    if !Matches(f, content.value, received.digest, received.bytes) { return Fail(ChecksumMismatch); }
    r := Ok(());
  }

  /** What success means for a download: after the bytes that were already there
      come exactly the received ones, and the digest is that of the source. */
  ghost predicate Received(f: Format, r: Result, before: Disk, after: Disk, g: Target, t: Trace) {
    && r == Result(g.path, 1, 0, |t.read|, Some(f.sha256(t.read)), t.offset, true, false)
    && t.moved && g.pair.partial !in after
    && IsFile(after, g.path) && Continues(after[g.path].data, before, g.pair, t.offset, t.read)
  }

  /** The destination is as before, or everything the run is about is at hand:
      after the bytes that were already there, the rest of what it carries. */
  ghost predicate KeptOrReceived(before: Disk, after: Disk, g: Target, offset: nat, carried: Bytes) {
    || SameAt(before, after, g.path)
    || MadeDirectory(before, after, g.path)
    || (IsFile(after, g.pair.partial) && Continues(after[g.pair.partial].data, before, g.pair, offset, carried))
    || (IsFile(after, g.path) && Continues(after[g.path].data, before, g.pair, offset, carried))
  }

  /** What a download without faults needs of the partial file it resumes from:
      to pass the checks, and nothing more. */
  ghost predicate Accepts(f: Format, d: Disk, p: Pair, content: Bytes, expected: Metadata, resume: bool) {
    resume && p.partial in d ==> Continuable(f, d, p, content, expected)
  }

  /** Fills the partial file and verifies what was received. */
  method Fetch(s: FileStore, source: SourceFile, f: Format, hasher: Hasher, p: Pair, expected: Metadata,
               initial: SourceStat, resume: bool)
    returns (r: Outcome<Streamed>, offset: nat, ghost t: Trace)
    requires Owned(s, p) && Faithful(f)
    modifies s`disk, s`touched, s`readFaults, source
    ensures old(source.inspected) <= source.inspected && old(source.sampled) <= source.sampled
    ensures r.Ok? ==> SeenNext(old(source.inspected), source.inspected, initial)
    ensures Unmoved(source, old(source.data), old(source.mtime))
    ensures source.streamed == old(source.streamed) + t.read
    ensures t.unread <==> p.partial in old(s.disk) && FaultAt(old(s.readFaults), s.readFaults, p.sidecar)
    ensures AddsOnly(old(s.touched), s.touched, {p.partial, p.sidecar})
    ensures KeptBut(s.owns, old(s.disk), s.disk, {p.partial, p.sidecar})
    ensures WriteAhead(f, old(s.disk), p) ==> WriteAhead(f, s.disk, p)
    ensures !t.moved && t.offset == if resume then Held(old(s.disk), p) else 0
    ensures r.Ok? ==>
              && offset == t.offset
              && r.value == Streamed(f.sha256(t.read), |t.read|)
              && IsFile(s.disk, p.partial)
              && Continues(s.disk[p.partial].data, old(s.disk), p, t.offset, t.read)
    ensures r.Ok? && t.offset > 0 && source.stable ==>
              AcceptedPrefix(f, old(s.disk)[p.partial].data, source.data, expected.prefixBytes)
    ensures r.Ok? ==> ContinuedOwn(f, old(s.disk), p, expected, resume)
    ensures r.Ok? && source.stable ==> t.read == source.data && initial == SourceStat(|source.data|, source.mtime)
    ensures r.Ok? && Honest(hasher) ==> Rechecked(f, old(source.reread), source.reread, f.sha256(t.read))
    ensures resume && source.stable && expected == MetadataOf(f, source.data, source.mtime) ==>
              ResumedFill(f, source.data, r.Ok?, r == Fail(ResumeIncompatible), old(s.disk), s.disk, p, expected, t)
    ensures Calm(s, source) && Readable(s, p) && PlainPair(old(s.disk), p)
            && initial == SourceStat(|source.data|, source.mtime) && expected == MetadataOf(f, source.data, source.mtime) ==>
              r.Ok? == Accepts(f, old(s.disk), p, source.data, expected, resume)
    ensures s.reliable && Unusable(f, s, old(s.disk), p, expected, resume) ==> r == Fail(ResumeIncompatible)
  {
    r, offset, t := FillPartial(s, source, f, p, expected, resume, true);
    if r.Fail? { return; }
    var now := source.StatSource();
    if now.None? || now.value != initial { return Fail(SourceChanged), offset, t; }
    var verified := VerifySource(source, f, hasher, r.value);
    if verified.Fail? { return Fail(verified.code), offset, t; }
  }

  /** Putting what was received in its place. `before` is the disk the run began
      with, `fetched` what it did so far, `carried` the bytes it is about, and
      `resumed` whether it resumes a transfer of an unchanged source. */
  method PutReceived(s: FileStore, f: Format, g: Target, received: Streamed, offset: nat, overwrite: bool,
                     ghost before: Disk, ghost fetched: Trace, ghost carried: Bytes, ghost resumed: bool)
    returns (r: Outcome<Result>, ghost t: Trace)
    requires Owned(s, g.pair) && s.owns(g.path) && g.path != g.pair.partial && g.path != g.pair.sidecar
    requires overwrite || g.path !in s.disk || s.disk[g.path].Directory?
    requires IsFile(s.disk, g.pair.partial) && received == Streamed(f.sha256(fetched.read), |fetched.read|)
    requires offset == fetched.offset && !fetched.moved
    requires Continues(s.disk[g.pair.partial].data, before, g.pair, offset, fetched.read)
    requires Continues(s.disk[g.pair.partial].data, before, g.pair, offset, carried)
    requires KeptBut(s.owns, before, s.disk, {g.pair.partial, g.pair.sidecar})
    requires WriteAhead(f, before, g.pair) ==> WriteAhead(f, s.disk, g.pair)
    requires resumed ==> ResumedFill(f, carried, true, false, before, s.disk, g.pair, g.expected, fetched)
    requires resumed ==> offset == Held(before, g.pair)
    modifies s`disk, s`touched, s`readFaults
    ensures t == fetched.(moved := t.moved)
    ensures s.readFaults(g.pair.sidecar) == old(s.readFaults)(g.pair.sidecar)
    ensures AddsOnly(old(s.touched), s.touched, {g.path, g.pair.partial, g.pair.sidecar})
    ensures KeptBut(s.owns, before, s.disk, {g.path, g.pair.partial, g.pair.sidecar})
    ensures WriteAhead(f, before, g.pair) ==> WriteAhead(f, s.disk, g.pair)
    ensures !overwrite && old(g.path in s.disk) ==> SameAt(old(s.disk), s.disk, g.path)
    ensures KeptOrReceived(before, s.disk, g, offset, carried)
    ensures r.Ok? ==> Received(f, r.value, before, s.disk, g, t)
    ensures r != Fail(ResumeIncompatible)
    ensures resumed ==> ResumedRun(f, carried, r, before, s.disk, g, t)
    ensures s.reliable && !s.unreadable(g.path) ==>
              (old(g.path in s.disk ==> overwrite && !s.disk[g.path].Directory?) ==> r.Ok?)
  {
    var finalized, moved := Finalize(s, g.path, g.pair, overwrite);
    StagedComposes(f, s.owns, before, old(s.disk), s.disk, g, moved);
    t := fetched.(moved := moved);
    r := if finalized.Fail? then Fail(finalized.code)
         else Ok(Result(g.path, 1, 0, received.bytes, Some(received.digest), offset, true, false));
    if resumed { ResumedFinalized(f, carried, r, before, old(s.disk), s.disk, g, fetched, moved); }
  }

  /** Everything after the directories exist: receive, verify, put in place. */
  method Receive(s: FileStore, source: SourceFile, f: Format, hasher: Hasher, g: Target, initial: SourceStat, o: Options)
    returns (r: Outcome<Result>, ghost t: Trace)
    requires Owned(s, g.pair) && s.owns(g.path) && g.path != g.pair.partial && g.path != g.pair.sidecar && Faithful(f)
    requires o.overwrite || g.path !in s.disk || s.disk[g.path].Directory?
    modifies s`disk, s`touched, s`readFaults, source
    ensures old(source.inspected) <= source.inspected && old(source.sampled) <= source.sampled
    ensures r.Ok? ==> SeenNext(old(source.inspected), source.inspected, initial)
    ensures Unmoved(source, old(source.data), old(source.mtime))
    ensures source.streamed == old(source.streamed) + t.read
    ensures t.unread <==> g.pair.partial in old(s.disk) && FaultAt(old(s.readFaults), s.readFaults, g.pair.sidecar)
    ensures AddsOnly(old(s.touched), s.touched, {g.path, g.pair.partial, g.pair.sidecar})
    ensures KeptBut(s.owns, old(s.disk), s.disk, {g.path, g.pair.partial, g.pair.sidecar})
    ensures WriteAhead(f, old(s.disk), g.pair) ==> WriteAhead(f, s.disk, g.pair)
    ensures !o.overwrite && old(g.path in s.disk) ==> SameAt(old(s.disk), s.disk, g.path)
    ensures KeptOrReceived(old(s.disk), s.disk, g, t.offset, Carried(source, t))
    ensures t.offset == if o.resume then Held(old(s.disk), g.pair) else 0
    ensures r.Ok? ==> Received(f, r.value, old(s.disk), s.disk, g, t)
    ensures r.Ok? && Honest(hasher) ==> Rechecked(f, old(source.reread), source.reread, f.sha256(t.read))
    ensures r.Ok? ==> ContinuedOwn(f, old(s.disk), g.pair, g.expected, o.resume)
    ensures r.Ok? && source.stable ==> t.read == source.data && initial == SourceStat(|source.data|, source.mtime)
    ensures r.Ok? && source.stable && t.offset > 0 ==>
              AcceptedPrefix(f, old(s.disk)[g.pair.partial].data, source.data, g.expected.prefixBytes)
    ensures source.stable && o.resume && g.expected == MetadataOf(f, source.data, source.mtime) ==>
              ResumedRun(f, source.data, r, old(s.disk), s.disk, g, t)
    ensures Calm(s, source) && g.expected == MetadataOf(f, source.data, source.mtime) && Readable(s, g.pair) && !s.unreadable(g.path)
            && ReadyFor(old(s.disk), g.path, g.pair, o.overwrite) && initial == SourceStat(|source.data|, source.mtime) ==>
              r.Ok? == Accepts(f, old(s.disk), g.pair, source.data, g.expected, o.resume)
    ensures s.reliable && Unusable(f, s, old(s.disk), g.pair, g.expected, o.resume) ==> r == Fail(ResumeIncompatible)
  {
    var received, offset;
    received, offset, t := Fetch(s, source, f, hasher, g.pair, g.expected, initial, o.resume);
    ghost var resumed := source.stable && o.resume && g.expected == MetadataOf(f, source.data, source.mtime);
    if received.Fail? {
      r := Fail(received.code);
      if resumed { ResumedUnfinished(f, source.data, received.code, old(s.disk), s.disk, g, t); }
    } else {
      r, t := PutReceived(s, f, g, received.value, offset, o.overwrite, old(s.disk), t, Carried(source, t), resumed);
    }
  }

  /** When the local file a successful download leaves is right: exactly when the
      bytes resumed from were, which the prefix check ensures up to its reach. */
  ghost predicate RightWhenResumedRight(f: Format, content: Bytes, before: Disk, after: Disk, g: Target, t: Trace)
    requires IsFile(after, g.path) && t.offset <= |content|
    requires t.offset > 0 ==> IsFile(before, g.pair.partial)
  {
    var held := if t.offset > 0 then before[g.pair.partial].data else [];
    && (after[g.path].data == content <==> held == content[..t.offset])
    && (t.offset <= PREFIX_LIMIT ==> after[g.path].data == content || Collide(f, held, content[..t.offset]))
  }

  lemma ReceivedRight(f: Format, r: Result, content: Content, mtime: Timestamp, before: Disk, after: Disk, g: Target, t: Trace)
    requires Received(f, r, before, after, g, t) && t.read == content
    requires t.offset > 0 ==> AcceptedPrefix(f, before[g.pair.partial].data, content, MetadataOf(f, content, mtime).prefixBytes)
    ensures RightWhenResumedRight(f, content, before, after, g, t)
  {
    SplitEquality(after[g.path].data, content, t.offset);
    if t.offset > 0 {
      AcceptedMeansEqual(f, before[g.pair.partial].data, content, mtime);
    }
  }

  /** Everything a download guarantees on every return. */
  ghost predicate Guaranteed(f: Format, owns: Path -> bool, r: Outcome<Result>, before: Disk, after: Disk, overwrite: bool,
                             g: Target, t: Trace, carried: Bytes)
  {
    && OnlyTouches(owns, before, after, g)
    && (WriteAhead(f, before, g.pair) ==> WriteAhead(f, after, g.pair))
    && (overwrite || NothingReplaced(owns, before, after, g))
    && KeptOrReceived(before, after, g, t.offset, carried)
    && (r.Ok? ==> Received(f, r.value, before, after, g, t))
  }

  lemma GuaranteedAfterDirectories(f: Format, owns: Path -> bool, r: Outcome<Result>, a: Disk, b: Disk, c: Disk, overwrite: bool,
                                   g: Target, t: Trace, carried: Bytes)
    requires DirectoriesMade(owns, a, b, Dir(g.path)) && owns(g.path) && owns(g.pair.partial) && owns(g.pair.sidecar)
    requires SameAt(a, b, g.pair.partial) && SameAt(a, b, g.pair.sidecar)
    requires KeptBut(owns, b, c, {g.path, g.pair.partial, g.pair.sidecar})
    requires WriteAhead(f, b, g.pair) ==> WriteAhead(f, c, g.pair)
    requires KeptOrReceived(b, c, g, t.offset, carried) && (r.Ok? ==> Received(f, r.value, b, c, g, t))
    requires overwrite || g.path !in a
    ensures Guaranteed(f, owns, r, a, c, overwrite, g, t, carried)
  {
  }

  /** A download without faults, with nothing in its way, succeeds exactly when
      the partial file it resumes from passes the checks, right or wrong. */
  ghost predicate SucceedsIffAccepted(f: Format, content: Bytes, before: Disk, g: Target, o: Options, ok: bool) {
    Clear(before, g, o) ==> ok == Accepts(f, before, g.pair, content, g.expected, o.resume)
  }

  lemma ReadyAfterDirectories(f: Format, owns: Path -> bool, a: Disk, b: Disk, content: Bytes, g: Target, o: Options)
    requires DirectoriesMade(owns, a, b, Dir(g.path)) && owns(g.path)
    requires SameAt(a, b, g.pair.partial) && SameAt(a, b, g.pair.sidecar)
    ensures Clear(a, g, o) ==> ReadyFor(b, g.path, g.pair, o.overwrite)
    ensures Accepts(f, b, g.pair, content, g.expected, o.resume) == Accepts(f, a, g.pair, content, g.expected, o.resume)
  {
    assert Clear(a, g, o) ==> SameAt(a, b, g.path);
  }

  /** What a run over an unchanged source adds: a resumed success is right when
      what it resumed from was, and no byte is fetched twice. */
  ghost predicate ResumedRight(f: Format, content: Content, r: Outcome<Result>, before: Disk, after: Disk, g: Target, t: Trace,
                               resume: bool)
  {
    && (r.Ok? ==>
          && t.read == content
          && IsFile(after, g.path) && t.offset <= |content| && (t.offset > 0 ==> IsFile(before, g.pair.partial))
          && RightWhenResumedRight(f, content, before, after, g, t))
    && (resume ==> ResumedRun(f, content, r, before, after, g, t))
  }

  lemma ResumedRightAfterDirectories(f: Format, content: Content, mtime: Timestamp, r: Outcome<Result>, a: Disk, b: Disk, c: Disk,
                                     g: Target, t: Trace, resume: bool)
    requires SameAt(a, b, g.pair.partial) && SameAt(a, b, g.pair.sidecar)
    requires r.Ok? ==> Received(f, r.value, b, c, g, t) && t.read == content
    requires r.Ok? && t.offset > 0 ==> AcceptedPrefix(f, b[g.pair.partial].data, content, MetadataOf(f, content, mtime).prefixBytes)
    requires resume ==> ResumedRun(f, content, r, b, c, g, t)
    ensures ResumedRight(f, content, r, a, c, g, t, resume)
  {
    if r.Ok? { ReceivedRight(f, r.value, content, mtime, b, c, g, t); }
  }

  /** Receives into directories that exist by now. `before` is the disk before they were made. */
  method ReceiveInto(s: FileStore, source: SourceFile, f: Format, hasher: Hasher, g: Target, initial: SourceStat, o: Options,
                     ghost before: Disk)
    returns (r: Outcome<Result>, ghost t: Trace)
    requires Owned(s, g.pair) && s.owns(g.path) && g.path != g.pair.partial && g.path != g.pair.sidecar && Faithful(f)
    requires o.overwrite || g.path !in before
    requires DirectoriesMade(s.owns, before, s.disk, Dir(g.path))
    requires SameAt(before, s.disk, g.pair.partial) && SameAt(before, s.disk, g.pair.sidecar)
    modifies s`disk, s`touched, s`readFaults, source
    ensures old(source.inspected) <= source.inspected && old(source.sampled) <= source.sampled
    ensures r.Ok? ==> SeenNext(old(source.inspected), source.inspected, initial)
    ensures Unmoved(source, old(source.data), old(source.mtime))
    ensures source.streamed == old(source.streamed) + t.read
    ensures t.unread <==> g.pair.partial in before && FaultAt(old(s.readFaults), s.readFaults, g.pair.sidecar)
    ensures AddsOnly(old(s.touched), s.touched, {g.path, g.pair.partial, g.pair.sidecar})
    ensures Guaranteed(f, s.owns, r, before, s.disk, o.overwrite, g, t, Carried(source, t))
    ensures t.offset == if o.resume then Held(before, g.pair) else 0
    ensures r.Ok? && Honest(hasher) ==> Rechecked(f, old(source.reread), source.reread, f.sha256(t.read))
    ensures r.Ok? ==> ContinuedOwn(f, before, g.pair, g.expected, o.resume)
    ensures source.stable && g.expected == MetadataOf(f, source.data, source.mtime) ==>
              ResumedRight(f, source.data, r, before, s.disk, g, t, o.resume)
    ensures Calm(s, source) && (forall q :: s.owns(q) && !s.unreadable(q)) && initial == SourceStat(|source.data|, source.mtime)
            && g.expected == MetadataOf(f, source.data, source.mtime) ==>
              SucceedsIffAccepted(f, source.data, before, g, o, r.Ok?)
    ensures s.reliable && Unusable(f, s, before, g.pair, g.expected, o.resume) ==> r == Fail(ResumeIncompatible)
  {
    ghost var ready := s.disk;
    ReadyAfterDirectories(f, s.owns, before, ready, source.data, g, o);
    r, t := Receive(s, source, f, hasher, g, initial, o);
    GuaranteedAfterDirectories(f, s.owns, r, before, ready, s.disk, o.overwrite, g, t, Carried(source, t));
    if source.stable && g.expected == MetadataOf(f, source.data, source.mtime) {
      ResumedRightAfterDirectories(f, source.data, source.mtime, r, before, ready, s.disk, g, t, o.resume);
    }
  }

  /** A run that stops while making directories has moved nothing forward. */
  lemma StoppedEarly(f: Format, content: Content, before: Disk, after: Disk, g: Target, resume: bool)
    requires SameAt(before, after, g.pair.partial) && SameAt(before, after, g.pair.sidecar)
    ensures ResumedRight(f, content, Fail(DestinationNotWritable), before, after, g,
                         NO_TRACE.(offset := if resume then Held(before, g.pair) else 0), resume)
  {
  }

  /** Makes the missing directories, then receives. `before` is the disk the run
      began with, which only others have changed since. */
  method Execute(s: FileStore, source: SourceFile, f: Format, hasher: Hasher, suffix: SuffixOf, g: Target,
                 initial: SourceStat, o: Options, ghost before: Disk)
    returns (r: Outcome<Result>, ghost t: Trace)
    requires Faithful(f) && WellShaped(suffix)
    requires g.pair == PartialPaths(suffix, g.path, g.expected) && PairOwned(s, g.pair) && s.owns(g.path)
    requires KeptBut(s.owns, before, s.disk, {}) && (o.overwrite || g.path !in before)
    modifies s, source
    ensures old(source.inspected) <= source.inspected && old(source.sampled) <= source.sampled
    ensures r.Ok? ==> SeenNext(old(source.inspected), source.inspected, initial)
    ensures Unmoved(source, old(source.data), old(source.mtime))
    ensures source.streamed == old(source.streamed) + t.read
    ensures t.unread <==> g.pair.partial in before && FaultAt(old(s.readFaults), s.readFaults, g.pair.sidecar)
    ensures AddsOnly(old(s.touched), s.touched, {g.path, g.pair.partial, g.pair.sidecar})
    ensures MadeOnTheWay(s.owns, before, old(s.made), s.made, g)
    ensures Guaranteed(f, s.owns, r, before, s.disk, o.overwrite, g, t, Carried(source, t))
    ensures t.offset == if o.resume then Held(before, g.pair) else 0
    ensures r.Ok? && Honest(hasher) ==> Rechecked(f, old(source.reread), source.reread, f.sha256(t.read))
    ensures r.Ok? ==> ContinuedOwn(f, before, g.pair, g.expected, o.resume)
    ensures source.stable && g.expected == MetadataOf(f, source.data, source.mtime) ==>
              ResumedRight(f, source.data, r, before, s.disk, g, t, o.resume)
    ensures Calm(s, source) && (forall q :: s.owns(q) && !s.unreadable(q)) && initial == SourceStat(|source.data|, source.mtime)
            && g.expected == MetadataOf(f, source.data, source.mtime) ==>
              SucceedsIffAccepted(f, source.data, before, g, o, r.Ok?)
    ensures s.reliable && (forall q :: s.owns(q)) && Clear(before, g, o) && Unusable(f, s, before, g.pair, g.expected, o.resume) ==>
              r == Fail(ResumeIncompatible)
  {
    HiddenNamesDiffer(suffix, g.path, g.expected);
    var made := MakeRoom(s, suffix, g);
    MadeLater(s.owns, before, old(s.disk), old(s.made), s.made, g);
    if !made {
      r, t := Fail(DestinationNotWritable), NO_TRACE.(offset := if o.resume then Held(before, g.pair) else 0);
      StoppedEarly(f, source.data, before, s.disk, g, o.resume);
      GuaranteedAfterDirectories(f, s.owns, r, before, s.disk, s.disk, o.overwrite, g, t, Carried(source, t));
      assert source.streamed == old(source.streamed) + [];
    } else {
      r, t := ReceiveInto(s, source, f, hasher, g, initial, o, before);
    }
  }

  /** Downloads one file. `g` is None when the run never got as far as changing anything. */
  method DownloadFile(s: FileStore, source: SourceFile, f: Format, hasher: Hasher, suffix: SuffixOf, destination: Path, o: Options)
    returns (r: Outcome<Result>, ghost g: Option<Target>, ghost t: Trace)
    requires Faithful(f) && WellShaped(suffix) && !(o.overwrite && o.noClobber)
    requires SingleWriter(s, suffix, destination, source.name, o)
    modifies s, source
    ensures Unmoved(source, old(source.data), old(source.mtime))
    ensures source.streamed == old(source.streamed) + t.read
    ensures g.None? ==>
              && s.touched == old(s.touched) && s.made == old(s.made)
              && KeptBut(s.owns, old(s.disk), s.disk, {})
              && r != Fail(ResumeIncompatible)
              && (r.Ok? ==> NothingToDo(r.value, s.disk, o))
              && (r.Ok? && r.value.files == 1 && source.stable ==> r.value.bytes == |source.data|)
    ensures r.Ok? ==> (r.value.verified <==> !LeavesAsIs(old(s.disk), destination, source.name, o))
    ensures r.Ok? ==> r.value.destination == Resolution(old(s.disk), destination, source.name, o)
    ensures g.Some? ==>
              && !o.dryRun
              && g.value.path == Resolution(old(s.disk), destination, source.name, o)
              && g.value.path in Candidates(destination, source.name, o)
              && g.value.pair == PartialPaths(suffix, g.value.path, g.value.expected)
              && AddsOnly(old(s.touched), s.touched, {g.value.path, g.value.pair.partial, g.value.pair.sidecar})
              && MadeOnTheWay(s.owns, old(s.disk), old(s.made), s.made, g.value)
              && (t.unread ==> FaultAt(old(s.readFaults), s.readFaults, g.value.pair.sidecar))
              && Guaranteed(f, s.owns, r, old(s.disk), s.disk, o.overwrite, g.value, t, Carried(source, t))
              && AsFirstSeen(f, old(source.inspected), source.inspected, old(source.sampled), source.sampled, g.value.expected)
              && (r.Ok? ==> ContinuedOwn(f, old(s.disk), g.value.pair, g.value.expected, o.resume))
              && (r.Ok? ==> SeenTwice(old(source.inspected), source.inspected))
              && t.offset == (if o.resume then Held(old(s.disk), g.value.pair) else 0)
              && (r.Ok? && Honest(hasher) ==> Rechecked(f, old(source.reread), source.reread, f.sha256(t.read)))
    ensures g.Some? && source.stable ==>
              && g.value.expected == MetadataOf(f, source.data, source.mtime)
              && ResumedRight(f, source.data, r, old(s.disk), s.disk, g.value, t, o.resume)
    ensures old(Alone(s, source, destination, o, true)) ==>
              var d := old(s.disk);
              && (Linked(d, destination, source.name, o) ==> r == Fail(UnsupportedFileType))
              && (InTheWay(d, destination, source.name, o) ==> r == Fail(DestinationExists))
              && (KeptThere(d, destination, source.name, o) ==> r.Ok? && r.value.skippedFiles == 1)
              && (o.dryRun && Takeable(d, destination, source.name, o) ==> r.Ok? && r.value.skippedFiles == 0)
    ensures old(Alone(s, source, destination, o, true)) && !o.dryRun && Takeable(old(s.disk), destination, source.name, o) ==>
              && g.Some?
              && ((forall p :: !s.unreadable(p)) ==> SucceedsIffAccepted(f, source.data, old(s.disk), g.value, o, r.Ok?))
              && (Clear(old(s.disk), g.value, o) && Unusable(f, s, old(s.disk), g.value.pair, g.value.expected, o.resume) ==>
                    r == Fail(ResumeIncompatible))
  {
    g, t := None, NO_TRACE;
    var plan := MakePlan(s, source, f, suffix, destination, o, true);
    assert source.streamed == old(source.streamed) + [];
    if plan.Fail? { return Fail(plan.code), g, t; }
    match plan.value {
      case Finished(result) => r := Ok(result);
      case Proceed(target, initial) =>
        g := Some(target);
        OwnsItsFiles(s, suffix, destination, source.name, o, target.path, target.expected);
        ghost var seen, read := source.inspected, source.sampled;
        r, t := Execute(s, source, f, hasher, suffix, target, initial, o, old(s.disk));
        FirstStaysFirst(f, old(source.inspected), seen, source.inspected, old(source.sampled), read, source.sampled, target.expected);
        FirstThenNext(old(source.inspected), source.inspected, initial);
    }
  }

  /** Nothing hampers the transfer: no faults, no other writers, a place that may
      be taken, and a partial file, if it resumes one, that it can complete. */
  ghost predicate Unhampered(s: FileStore, source: SourceFile, f: Format, hasher: Hasher, suffix: SuffixOf, destination: Path, o: Options,
                             local: bool)
    reads s, source
  {
    var g := TargetOf(f, suffix, Resolution(s.disk, destination, source.name, o), source.data, source.mtime);
    && Alone(s, source, destination, o, local) && (forall p :: !s.unreadable(p)) && (local || Honest(hasher))
    && Takeable(s.disk, destination, source.name, o) && Clear(s.disk, g, o)
    && if local then Accepts(f, s.disk, g.pair, source.data, g.expected, o.resume)
       else Completes(f, s.disk, g.pair, source.data, g.expected, o.resume)
  }

  lemma SplitEquality(data: Bytes, content: Bytes, k: nat)
    requires k <= |data| == |content| && data[k..] == content[k..]
    ensures data == content <==> data[..k] == content[..k]
    ensures data[..0] == content[..0]
  {
    if data[..k] == content[..k] {
      assert data == data[..k] + data[k..];
      assert content == content[..k] + content[k..];
    }
  }

  // ---- How far the prefix check protects a resumed download ----

  /** A partial file no longer than the fingerprint is accepted only when it is right. */
  lemma AcceptedMeansEqual(f: Format, held: Bytes, content: Content, mtime: Timestamp)
    requires AcceptedPrefix(f, held, content, MetadataOf(f, content, mtime).prefixBytes)
    ensures |held| <= PREFIX_LIMIT ==> held == content[..|held|] || Collide(f, held, content[..|held|])
  {
    if |held| <= PREFIX_LIMIT {
      assert Take(held, |held|) == held && Take(content, |held|) == content[..|held|];
    }
  }

  /** The first k bytes with the last of them changed. */
  function Spoiled(content: Bytes, k: nat): Bytes
    requires 0 < k <= |content|
  {
    content[..k][k - 1 := if content[k - 1] == 0 then 1 else 0]
  }

  /** Past the fingerprint, a wrong partial file of any length is accepted. */
  lemma AcceptedThoughWrong(f: Format, content: Content, mtime: Timestamp, k: nat) returns (held: Bytes)
    requires PREFIX_LIMIT < k <= |content|
    ensures held == Spoiled(content, k) && |held| == k && held != content[..k]
    ensures AcceptedPrefix(f, held, content, MetadataOf(f, content, mtime).prefixBytes)
  {
    held := Spoiled(content, k);
    assert held[k - 1] != content[..k][k - 1];
    assert Take(held, PREFIX_LIMIT) == Take(content, PREFIX_LIMIT);
  }

  ghost predicate OnlyRightAccepted(f: Format, content: Content, mtime: Timestamp, k: nat)
    requires k <= |content|
  {
    var reach := MetadataOf(f, content, mtime).prefixBytes;
    forall held :: |held| == k && AcceptedPrefix(f, held, content, reach) ==> held == content[..k]
  }

  /** The exact reach of the check, unless some file collides with a prefix of
      the source: every accepted partial file of length k is right if and only
      if k is within the fingerprint. */
  lemma ResumedDownloadSafeExactly(f: Format, content: Content, mtime: Timestamp, k: nat)
    requires k <= |content|
    requires forall held :: !Collide(f, held, content[..k])
    ensures OnlyRightAccepted(f, content, mtime, k) <==> k <= PREFIX_LIMIT
  {
    if k <= PREFIX_LIMIT {
      forall held | |held| == k && AcceptedPrefix(f, held, content, MetadataOf(f, content, mtime).prefixBytes)
        ensures held == content[..k]
      {
        AcceptedMeansEqual(f, held, content, mtime);
        assert !Collide(f, held, content[..k]);
      }
    } else {
      var wrong := AcceptedThoughWrong(f, content, mtime, k);
      assert !OnlyRightAccepted(f, content, mtime, k);
    }
  }

  /** Such a partial file with its sidecar in place. */
  function SpoiledDisk(f: Format, content: Content, mtime: Timestamp, k: nat, p: Pair): Disk
    requires 0 < k <= |content|
  {
    map[p.partial := File(Spoiled(content, k), PRIVATE_MODE),
        p.sidecar := File(f.encode(MetadataOf(f, content, mtime)), PRIVATE_MODE)]
  }

  /** It passes every check of a resume. */
  lemma ContinuableThoughWrong(f: Format, content: Content, mtime: Timestamp, k: nat, p: Pair) returns (d: Disk)
    requires Faithful(f) && p.partial != p.sidecar && PREFIX_LIMIT < k <= |content|
    ensures d == SpoiledDisk(f, content, mtime, k, p)
    ensures PlainPair(d, p) && Continuable(f, d, p, content, MetadataOf(f, content, mtime))
    ensures |d[p.partial].data| == k && d[p.partial].data != content[..k]
  {
    var expected := MetadataOf(f, content, mtime);
    var _ := AcceptedThoughWrong(f, content, mtime, k);
    d := SpoiledDisk(f, content, mtime, k, p);
    assert Take(f.encode(expected), METADATA_LIMIT) == f.encode(expected);
  }
}
