/** What the run of a job that transfers one file reports to the transfer manager. */
module JobRuns {
  import opened Basics
  import opened FileStores
  import opened PartialState
  import opened PartialNames
  import opened RemoteHash
  import opened Upload
  import Download
  import opened SchedulerCore

  /** How an error is classified; `cancelled` when it was a cancelled context. */
  function Ended(code: Code, cancelled: bool, verified: bool): RunEnd {
    Errored(code.TransferInterrupted? || cancelled, verified)
  }

  /** Nothing outside the transfer itself fails the run. */
  predicate Allowed(request: Options, download: bool, connected: bool, readable: bool) {
    connected && !(request.overwrite && request.noClobber) && (download || readable)
  }

  /** No faults, and something is there that is to be kept. */
  ghost predicate Kept(s: FileStore, source: SourceFile, destination: Path, o: Options, local: bool)
    reads s, source
  {
    Alone(s, source, destination, o, local) && KeptThere(s.disk, destination, source.name, o)
  }

  /** Whether it is a dry run plays no part in where a transfer goes and what hampers it. */
  lemma DryRunAside(s: FileStore, source: SourceFile, f: Format, hasher: Hasher, suffix: SuffixOf, destination: Path, request: Options,
                    local: bool)
    ensures var o := request.(dryRun := false);
            && (SingleWriter(s, suffix, destination, source.name, request) ==> SingleWriter(s, suffix, destination, source.name, o))
            && Resolution(s.disk, destination, source.name, o) == Resolution(s.disk, destination, source.name, request)
            && (Download.Unhampered(s, source, f, hasher, suffix, destination, request, local) ==>
                  Download.Unhampered(s, source, f, hasher, suffix, destination, o, local))
            && (Kept(s, source, destination, request, local) ==> Kept(s, source, destination, o, local))
  {
    var o := request.(dryRun := false);
    assert Candidates(destination, source.name, o) == Candidates(destination, source.name, request);
  }

  /** Connects, transfers, and after an upload checks who can read the file; what
      comes of connecting and of that check, and whether the job was cancelled, is
      given. The manager never asks for a dry run. A run without an error reports
      the verdict unless the job is not to replace anything and something is already
      there; and a run that nothing hampers is one without an error. `failure` is how
      the transfer itself failed, if it did. */
  method RunFile(s: FileStore, source: SourceFile, f: Format, hasher: Hasher, suffix: SuffixOf, destination: Path, request: Options,
                 download: bool, cancelled: bool, connected: bool, readable: bool)
    returns (end: RunEnd, ghost failure: Option<Code>)
    requires Faithful(f) && WellShaped(suffix)
    requires SingleWriter(s, suffix, destination, source.name, request)
    modifies s, source
    ensures end.Succeeded? ==>
              Allowed(request, download, connected, readable)
              && (end.verified <==>
                  !(request.noClobber && Resolution(old(s.disk), destination, source.name, request) in old(s.disk)))
    ensures !connected || (request.overwrite && request.noClobber) ==> end == Errored(cancelled, false)
    ensures end.Errored? && failure.Some? ==> end == Errored(failure.value.TransferInterrupted? || cancelled, false)
    ensures end.Errored? && failure.None? ==> end.interrupted == cancelled && !Allowed(request, download, connected, readable)
    ensures Allowed(request, download, connected, readable) ==>
              && (old(Download.Unhampered(s, source, f, hasher, suffix, destination, request, download)) ==> end == Succeeded(true))
              && (old(Kept(s, source, destination, request, download)) ==> end == Succeeded(false))
  {
    var o := request.(dryRun := false);
    DryRunAside(s, source, f, hasher, suffix, destination, request, download);
    if !connected { return Ended(Unclassified, cancelled, false), None; }
    if o.overwrite && o.noClobber { return Ended(InvalidArguments, cancelled, false), None; }
    var r;
    ghost var g, t;
    if download {
      r, g, t := Download.DownloadFile(s, source, f, hasher, suffix, destination, o);
    } else {
      r, g, t := CopyFile(s, source, f, hasher, suffix, destination, o);
    }
    if r.Fail? { return Ended(r.code, cancelled, false), Some(r.code); }
    if !download && !readable { return Ended(Unclassified, cancelled, r.value.verified), None; }
    end, failure := Succeeded(r.value.verified), None;
  }
}
