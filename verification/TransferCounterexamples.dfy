/** Runs of the engine that end as its purpose does not want them to, each over
    a state for which every call and every fault is given. */
module TransferCounterexamples {
  import opened Basics
  import opened SlashPath
  import opened FileStores
  import opened PartialState
  import opened PartialNames
  import opened RemoteHash
  import opened ParentCheck
  import opened Upload
  import Download
  import opened ResumeChain

  const SPOT: Path := "/f"

  const RESUME: Options := Options(false, false, true, false, None, 0, false, false, false, p => p)

  lemma SpotFacts(suffix: SuffixOf, m: Metadata)
    requires WellShaped(suffix)
    ensures Dir(SPOT) == "/" && ParentComponents(SPOT) == ["/"]
    ensures PartialPaths(suffix, SPOT, m).sidecar !in Candidates(SPOT, "f", RESUME)
    ensures |PartialPaths(suffix, SPOT, m).partial| > 2
  {
    assert Segments("/") == ["", ""];
    assert ["", ""][1..] == [""];
    assert Reduce(true, [""], []) == [];
    assert Clean("/") == "/";
    assert "/" + "f" == SPOT;
    InsideClean("/", "f");
    JoinEndsWith(SPOT, "f");
    HiddenNames(suffix, SPOT, m);
    HiddenLength(Split(SPOT).1, suffix(SPOT, m.sourceSize, m.prefixSHA256));
    Endings(suffix, SPOT, m);
  }

  /** The hidden files alone are in nobody's way. */
  lemma SpotIsOpen(suffix: SuffixOf, d: Disk, m: Metadata)
    requires WellShaped(suffix)
    requires var p := PartialPaths(suffix, SPOT, m); d.Keys == {p.partial, p.sidecar} && IsFile(d, p.partial) && IsFile(d, p.sidecar)
    ensures ParentsClear(d, SPOT, false) && Takeable(d, SPOT, "f", RESUME) && Resolution(d, SPOT, "f", RESUME) == SPOT
    ensures Clear(d, Target(SPOT, PartialPaths(suffix, SPOT, m), m), RESUME)
  {
    SpotFacts(suffix, m);
    HiddenNamesDiffer(suffix, SPOT, m);
    HiddenFilesAreDeeper(suffix, SPOT, m);
    assert SPOT !in d && "/" !in d;
  }

  // ---- A sidecar that can no longer be read ----

  /** What a run that stopped after `k` bytes leaves. */
  function LeftBehind(f: Format, p: Pair, content: Content, mtime: Timestamp, k: nat): Disk
    requires k <= |content|
  {
    map[p.partial := File(content[..k], PRIVATE_MODE), p.sidecar := File(f.encode(MetadataOf(f, content, mtime)), PRIVATE_MODE)]
  }

  lemma LeftBehindResumes(f: Format, p: Pair, content: Content, mtime: Timestamp, k: nat)
    requires Faithful(f) && p.partial != p.sidecar && k <= |content|
    ensures Held(LeftBehind(f, p, content, mtime, k), p) == k
    ensures Resumable(f, LeftBehind(f, p, content, mtime, k), p, content, MetadataOf(f, content, mtime))
    ensures Completes(f, LeftBehind(f, p, content, mtime, k), p, content, MetadataOf(f, content, mtime), true)
  {
    var bytes := f.encode(MetadataOf(f, content, mtime));
    assert Take(bytes, METADATA_LIMIT) == bytes;
    ResumableCompletes(f, LeftBehind(f, p, content, mtime, k), content, mtime, p);
  }

  /** However far an interrupted run got, when the sidecar it left can no
      longer be read, a resumed run that meets no other fault reports that the
      resume is incompatible, over a state that it could have completed. */
  method ResumeWithUnreadableSidecar(f: Format, hasher: Hasher, suffix: SuffixOf, content: Content, mtime: Timestamp, k: nat)
    returns (r: Outcome<Result>, ghost before: Disk, ghost p: Pair)
    requires Faithful(f) && WellShaped(suffix) && k <= |content|
    ensures p == PartialPaths(suffix, SPOT, MetadataOf(f, content, mtime))
    ensures Held(before, p) == k && Resumable(f, before, p, content, MetadataOf(f, content, mtime))
    ensures Completes(f, before, p, content, MetadataOf(f, content, mtime), true)
    ensures r == Fail(ResumeIncompatible)
  {
    var expected := MetadataOf(f, content, mtime);
    var pair := PartialPaths(suffix, SPOT, expected);
    SpotFacts(suffix, expected);
    HiddenNamesDiffer(suffix, SPOT, expected);
    LeftBehindResumes(f, pair, content, mtime, k);
    p, before := pair, LeftBehind(f, pair, content, mtime, k);
    SpotIsOpen(suffix, before, expected);
    var store := new FileStore(LeftBehind(f, pair, content, mtime, k), q => true, true, q => q == pair.sidecar);
    var source := new SourceFile(content, mtime, true, true, "f", PRIVATE_MODE);
    assert Unusable(f, store, before, pair, expected, true);
    ghost var g, t;
    assert Alone(store, source, SPOT, RESUME, false) && SingleWriter(store, suffix, SPOT, "f", RESUME);
    r, g, t := CopyFile(store, source, f, hasher, suffix, SPOT, RESUME);
  }

  // ---- A wrong partial file beyond the fingerprint ----

  /** For every length beyond the fingerprint there is a partial file from which
      a resumed download, in which nothing goes wrong, succeeds with a wrong file. */
  method DownloadOverWrongPartial(f: Format, hasher: Hasher, suffix: SuffixOf, content: Content, mtime: Timestamp, k: nat)
    returns (r: Outcome<Result>, after: Disk)
    requires Faithful(f) && WellShaped(suffix) && PREFIX_LIMIT < k <= |content|
    ensures r.Ok? && r.value.verified && r.value.resumedBytes == k
    ensures r.value.bytes == |content| && r.value.sha256 == Some(f.sha256(content))
    ensures IsFile(after, SPOT) && after[SPOT].data != content
  {
    var expected := MetadataOf(f, content, mtime);
    var pair := PartialPaths(suffix, SPOT, expected);
    SpotFacts(suffix, expected);
    HiddenNamesDiffer(suffix, SPOT, expected);
    var before := Download.SpoiledDisk(f, content, mtime, k, pair);
    ghost var _ := Download.ContinuableThoughWrong(f, content, mtime, k, pair);
    SpotIsOpen(suffix, before, expected);
    var store := new FileStore(before, q => true, true, q => false);
    var source := new SourceFile(content, mtime, true, true, "f", PRIVATE_MODE);
    assert Alone(store, source, SPOT, RESUME, true) && SingleWriter(store, suffix, SPOT, "f", RESUME);
    ghost var g, t;
    r, g, t := Download.DownloadFile(store, source, f, hasher, suffix, SPOT, RESUME);
    assert g == Some(Target(SPOT, pair, expected));
    after := store.disk;
  }
}
