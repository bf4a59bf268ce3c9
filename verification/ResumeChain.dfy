/** Any number of runs of one transfer, each resuming what the earlier ones left. */
module ResumeChain {
  import opened Basics
  import opened FileStores
  import opened PartialState
  import opened PartialNames
  import opened RemoteHash
  import opened Upload
  import opened Download

  /** One call that got as far as its target, with the disk around it and the
      number of its reads of the sidecar that failed. */
  datatype Attempt = Attempt(before: Disk, after: Disk, result: Outcome<Result>, trace: Trace, faults: nat)

  /** Nothing touched the transfer's hidden files between two attempts: calls
      that stopped before their target, and other clients, may have run there. */
  ghost predicate Undisturbed(a: Attempt, b: Attempt, p: Pair) {
    SameAt(a.after, b.before, p.partial) && SameAt(a.after, b.before, p.sidecar)
  }

  /** Consecutive attempts with resume on an unchanged source, as the contracts
      of CopyFile and DownloadFile describe them, none of them before the last
      one having renamed the partial file. */
  ghost predicate Chain(f: Format, content: Bytes, g: Target, attempts: seq<Attempt>) {
    && (forall i :: 0 <= i < |attempts| ==>
          ResumedRun(f, content, attempts[i].result, attempts[i].before, attempts[i].after, g, attempts[i].trace)
          && (attempts[i].trace.unread ==> attempts[i].faults > 0))
    && (forall i :: 0 < i < |attempts| ==> Undisturbed(attempts[i - 1], attempts[i], g.pair))
    && (forall i :: 0 <= i < |attempts| - 1 ==> !attempts[i].trace.moved)
  }

  /** Bytes written to the partial file over all attempts. */
  function Written(attempts: seq<Attempt>): nat {
    if attempts == [] then 0 else Written(attempts[..|attempts| - 1]) + |attempts[|attempts| - 1].trace.appended|
  }

  /** The state before an attempt of a chain that began with no partial file. */
  lemma {:induction false} BeforeAttempt(f: Format, content: Bytes, g: Target, attempts: seq<Attempt>, i: nat)
    requires Chain(f, content, g, attempts) && i < |attempts|
    requires g.pair.partial !in attempts[0].before
    ensures Resumable(f, attempts[i].before, g.pair, content, g.expected)
    ensures Held(attempts[i].before, g.pair) == Written(attempts[..i])
  {
    if i > 0 {
      BeforeAttempt(f, content, g, attempts, i - 1);
      assert Undisturbed(attempts[i - 1], attempts[i], g.pair);
      assert attempts[..i][..i - 1] == attempts[..i - 1];
    }
  }

  /** Every attempt starts where the partial file ends, which is after all that
      was written before it; leaves a prefix of the source; and never reports an
      incompatible resume unless a read of the sidecar failed. No byte is
      sent twice: what is written over all attempts never exceeds the source,
      and it is the whole source once one attempt has renamed the file. */
  lemma {:induction false} ResumedTransfers(f: Format, content: Bytes, g: Target, attempts: seq<Attempt>)
    requires Chain(f, content, g, attempts) && attempts != []
    requires g.pair.partial !in attempts[0].before
    ensures forall i :: 0 <= i < |attempts| ==>
              && attempts[i].trace.offset == Written(attempts[..i])
              && Resumable(f, attempts[i].after, g.pair, content, g.expected)
              && (attempts[i].result == Fail(ResumeIncompatible) ==> attempts[i].faults > 0)
    ensures Written(attempts) <= |content|
    ensures var last := attempts[|attempts| - 1];
            if last.trace.moved then
              Written(attempts) == |content| && IsFile(last.after, g.path) && last.after[g.path].data == content
            else
              Written(attempts) == Held(last.after, g.pair)
  {
    forall i | 0 <= i < |attempts|
      ensures && attempts[i].trace.offset == Written(attempts[..i])
              && Resumable(f, attempts[i].after, g.pair, content, g.expected)
              && (attempts[i].result == Fail(ResumeIncompatible) ==> attempts[i].faults > 0)
    {
      BeforeAttempt(f, content, g, attempts, i);
    }
    BeforeAttempt(f, content, g, attempts, |attempts| - 1);
  }

  /** What interrupted runs leave is always something that a run without faults
      completes, as an upload and as a download. */
  lemma ResumableCompletes(f: Format, d: Disk, content: Content, mtime: Timestamp, p: Pair)
    requires Resumable(f, d, p, content, MetadataOf(f, content, mtime))
    ensures Completes(f, d, p, content, MetadataOf(f, content, mtime), true)
    ensures Accepts(f, d, p, content, MetadataOf(f, content, mtime), true)
  {
    if p.partial in d {
      var held := d[p.partial].data;
      TakePrefix(held, content, Min(MetadataOf(f, content, mtime).prefixBytes, |held|));
      assert content == content[..|held|] + content[|held|..];
    }
  }

  /** So at every point of a chain, if the transfer is left alone, it finishes. */
  lemma UndisturbedAttemptFinishes(f: Format, content: Content, mtime: Timestamp, g: Target, attempts: seq<Attempt>, i: nat)
    requires Chain(f, content, g, attempts) && i < |attempts| && g.expected == MetadataOf(f, content, mtime)
    requires g.pair.partial !in attempts[0].before
    ensures Completes(f, attempts[i].before, g.pair, content, g.expected, true)
    ensures Accepts(f, attempts[i].before, g.pair, content, g.expected, true)
    ensures Completes(f, attempts[i].after, g.pair, content, g.expected, true)
  {
    BeforeAttempt(f, content, g, attempts, i);
    ResumableCompletes(f, attempts[i].before, content, mtime, g.pair);
    ResumableCompletes(f, attempts[i].after, content, mtime, g.pair);
  }

  // ---- Runs with any options ----

  /** The write-ahead order survives any sequence of runs, resuming or not, of
      changed or unchanged sources, each stopped wherever it may be. */
  lemma {:induction false} WriteAheadAlways(f: Format, p: Pair, attempts: seq<Attempt>)
    requires forall i :: 0 <= i < |attempts| ==> (WriteAhead(f, attempts[i].before, p) ==> WriteAhead(f, attempts[i].after, p))
    requires forall i :: 0 < i < |attempts| ==> Undisturbed(attempts[i - 1], attempts[i], p)
    requires attempts != [] && WriteAhead(f, attempts[0].before, p)
    ensures forall i :: 0 <= i < |attempts| ==> WriteAhead(f, attempts[i].after, p)
    decreases |attempts|
  {
    if |attempts| > 1 {
      assert Undisturbed(attempts[0], attempts[1], p);
      WriteAheadAlways(f, p, attempts[1..]);
      forall i | 0 <= i < |attempts| ensures WriteAhead(f, attempts[i].after, p) {
        if i > 0 { assert attempts[i] == attempts[1..][i - 1]; }
      }
    }
  }

  // ---- Chains that calls make ----

  lemma ChainExtends(f: Format, content: Bytes, g: Target, attempts: seq<Attempt>, a: Attempt)
    requires Chain(f, content, g, attempts)
    requires ResumedRun(f, content, a.result, a.before, a.after, g, a.trace) && (a.trace.unread ==> a.faults > 0)
    requires attempts != [] ==> Undisturbed(attempts[|attempts| - 1], a, g.pair) && !attempts[|attempts| - 1].trace.moved
    ensures Chain(f, content, g, attempts + [a])
  {
    var all := attempts + [a];
    assert forall i :: 0 <= i < |attempts| ==> all[i] == attempts[i];
    assert all[|attempts|] == a;
  }

  /** One more call, of an upload or a download, on an unchanged source. */
  method ResumeOnce(s: FileStore, source: SourceFile, f: Format, hasher: Hasher, suffix: SuffixOf, destination: Path, o: Options,
                    local: bool)
    returns (r: Outcome<Result>, ghost g: Option<Target>, ghost a: Attempt)
    requires Faithful(f) && WellShaped(suffix) && !(o.overwrite && o.noClobber) && o.resume && source.stable
    requires SingleWriter(s, suffix, destination, source.name, o)
    modifies s, source
    ensures source.data == old(source.data) && source.mtime == old(source.mtime)
    ensures a.before == old(s.disk) && a.after == s.disk && a.result == r
    ensures g.None? ==> KeptBut(s.owns, old(s.disk), s.disk, {})
    ensures r.Ok? && r.value.verified ==> g.Some? && a.trace.moved
    ensures g.Some? ==>
              && g.value == TargetOf(f, suffix, Resolution(old(s.disk), destination, source.name, o), source.data, source.mtime)
              && ResumedRun(f, source.data, r, a.before, a.after, g.value, a.trace)
              && (a.trace.unread ==> a.faults > 0)
    ensures !o.dryRun && old(Unhampered(s, source, f, hasher, suffix, destination, o, local)) ==> r.Ok? && r.value.verified
  {
    ghost var before, faults := s.disk, s.readFaults;
    ghost var t;
    if local {
      r, g, t := DownloadFile(s, source, f, hasher, suffix, destination, o);
    } else {
      r, g, t := CopyFile(s, source, f, hasher, suffix, destination, o);
    }
    ghost var sidecar := if g.Some? then g.value.pair.sidecar else destination;
    a := Attempt(before, s.disk, r, t, if faults(sidecar) <= s.readFaults(sidecar) then s.readFaults(sidecar) - faults(sidecar) else 0);
  }

  /** Nobody but others has moved the transfer's hidden files since. */
  ghost predicate LeftAs(a: Disk, b: Disk, p: Pair) {
    SameAt(a, b, p.partial) && SameAt(a, b, p.sidecar)
  }

  predicate Renamed(attempts: seq<Attempt>) {
    attempts != [] && attempts[|attempts| - 1].trace.moved
  }

  /** The attempts so far, from the disk they began with to the present one. */
  ghost predicate Underway(f: Format, content: Bytes, g: Target, start: Disk, now: Disk, attempts: seq<Attempt>) {
    && Chain(f, content, g, attempts)
    && (if attempts == [] then LeftAs(start, now, g.pair) else LeftAs(start, attempts[0].before, g.pair))
    && (attempts != [] && !Renamed(attempts) ==> LeftAs(attempts[|attempts| - 1].after, now, g.pair))
  }

  lemma UnderwayWaits(f: Format, owns: Path -> bool, content: Bytes, g: Target, start: Disk, now: Disk, later: Disk, attempts: seq<Attempt>)
    requires Underway(f, content, g, start, now, attempts)
    requires Renamed(attempts) || (KeptBut(owns, now, later, {}) && owns(g.pair.partial) && owns(g.pair.sidecar))
    ensures Underway(f, content, g, start, later, attempts)
  {
  }

  lemma UnderwayAdvances(f: Format, content: Bytes, g: Target, start: Disk, a: Attempt, attempts: seq<Attempt>)
    requires Underway(f, content, g, start, a.before, attempts) && !Renamed(attempts)
    requires ResumedRun(f, content, a.result, a.before, a.after, g, a.trace) && (a.trace.unread ==> a.faults > 0)
    ensures Underway(f, content, g, start, a.after, attempts + [a])
  {
    ChainExtends(f, content, g, attempts, a);
  }

  /** What a chain of calls comes to. */
  ghost predicate NothingSentTwice(content: Bytes, g: Target, attempts: seq<Attempt>) {
    && Written(attempts) <= |content|
    && (Renamed(attempts) ==>
          var last := attempts[|attempts| - 1];
          Written(attempts) == |content| && IsFile(last.after, g.path) && last.after[g.path].data == content)
  }

  lemma UnderwaySendsOnce(f: Format, content: Bytes, g: Target, start: Disk, now: Disk, attempts: seq<Attempt>)
    requires Underway(f, content, g, start, now, attempts) && g.pair.partial !in start
    ensures NothingSentTwice(content, g, attempts)
  {
    if attempts != [] { ResumedTransfers(f, content, g, attempts); }
  }

  /** At most `n` calls with resume, until one succeeds or the destination comes
      to resolve elsewhere. Up to the first call that renames, those that got to
      the target are a chain, which began with the hidden files as they were; so,
      if there was no partial file, no byte is written twice, and the renamed file
      is the source. A verified success means that one of them has renamed it. */
  method ResumeRepeatedly(s: FileStore, source: SourceFile, f: Format, hasher: Hasher, suffix: SuffixOf, destination: Path, o: Options,
                          local: bool, n: nat)
    returns (r: Option<Outcome<Result>>, ghost attempts: seq<Attempt>)
    requires Faithful(f) && WellShaped(suffix) && !(o.overwrite && o.noClobber) && o.resume && source.stable
    requires SingleWriter(s, suffix, destination, source.name, o)
    modifies s, source
    ensures source.data == old(source.data) && source.mtime == old(source.mtime)
    ensures var g := TargetOf(f, suffix, Resolution(old(s.disk), destination, source.name, o), source.data, source.mtime);
            && Underway(f, source.data, g, old(s.disk), s.disk, attempts)
            && (g.pair.partial !in old(s.disk) ==> NothingSentTwice(source.data, g, attempts))
    ensures r.Some? && r.value.Ok? && r.value.value.verified ==> Renamed(attempts)
    ensures n > 0 ==> r.Some?
    ensures n > 0 && !o.dryRun && old(Unhampered(s, source, f, hasher, suffix, destination, o, local)) ==>
              r.value.Ok? && Renamed(attempts)
  {
    var path := Resolution(s.disk, destination, source.name, o);
    ghost var g := TargetOf(f, suffix, path, source.data, source.mtime);
    r, attempts := None, [];
    OwnsCandidates(s, suffix, destination, source.name, o);
    ResolutionKept(s.owns, s.disk, s.disk, destination, source.name, o);
    OwnsItsFiles(s, suffix, destination, source.name, o, path, g.expected);
    for i := 0 to n
      invariant source.data == old(source.data) && source.mtime == old(source.mtime)
      invariant Underway(f, source.data, g, old(s.disk), s.disk, attempts)
      invariant r.Some? ==> r.value.Fail?
      invariant i == 0 ==> s.disk == old(s.disk) && s.readFaults == old(s.readFaults) && source.reread == old(source.reread)
      invariant i > 0 ==> r.Some?
      invariant i > 0 ==> o.dryRun || !old(Unhampered(s, source, f, hasher, suffix, destination, o, local))
    {
      if Resolution(s.disk, destination, source.name, o) != path { break; }
      var once;
      ghost var target, a;
      once, target, a := ResumeOnce(s, source, f, hasher, suffix, destination, o, local);
      if target.Some? && !Renamed(attempts) {
        UnderwayAdvances(f, source.data, g, old(s.disk), a, attempts);
        attempts := attempts + [a];
      } else {
        UnderwayWaits(f, s.owns, source.data, g, old(s.disk), a.before, s.disk, attempts);
      }
      r := Some(once);
      if once.Ok? { break; }
    }
    if g.pair.partial !in old(s.disk) { UnderwaySendsOnce(f, source.data, g, old(s.disk), s.disk, attempts); }
  }
}
