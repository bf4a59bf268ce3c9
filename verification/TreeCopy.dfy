/** Transferring a directory tree, file by file in the order of the walk. An upload
    and a download (`local`) take the same steps here, except that a download
    leaves the directories it makes with their default group and mode. */
module TreeCopy {
  import opened Basics
  import opened FileStores
  import opened PartialState
  import opened PartialNames
  import opened RemoteHash
  import opened Upload
  import Download
  import opened SourceTree
  import opened TreePaths
  import opened FreshTree

  /** What the walk did at an entry; `index` is the file's number in the progress reports. */
  datatype Visit =
    | Made(directory: Path, created: bool)
    | Sent(path: Path, index: nat)
    | Skipped(path: Path, index: nat)
    | Planned(index: nat)

  ghost predicate Landed(f: Format, d: Disk, path: Path, data: Bytes) {
    IsFile(d, path) && (d[path].data == data || Collide(f, d[path].data, data))
  }

  /** Something is there, and it is not a file. */
  ghost predicate Standing(d: Disk, path: Path) {
    path in d && !d[path].File?
  }

  /** The visit suits the entry, and a file's number is its place among the files. */
  ghost predicate FitsAt(destination: Path, entries: seq<Entry>, k: nat, v: Visit)
    requires k < |entries|
  {
    match v
    case Made(directory, _) => entries[k].tree.Branch? && directory == Counterpart(destination, entries[k].names)
    case Sent(_, index) => entries[k].tree.Leaf? && index == Tally(entries[..k + 1])
    case Skipped(_, index) => entries[k].tree.Leaf? && index == Tally(entries[..k + 1])
    case Planned(index) => entries[k].tree.Leaf? && index == Tally(entries[..k + 1])
  }

  ghost predicate Fits(destination: Path, entries: seq<Entry>, log: seq<Visit>)
    requires |log| <= |entries|
  {
    forall k :: 0 <= k < |log| ==> FitsAt(destination, entries, k, log[k])
  }

  /** File names are not rewritten, no name of the tree has the hidden form, and
      a download does not build on earlier partial files. */
  ghost predicate Orderly(entries: seq<Entry>, o: Options, local: bool) {
    !o.fixMediaNames && (local ==> !o.resume) && forall i :: 0 <= i < |entries| ==> Unhidden(entries[i].names)
  }

  /** Every file sent so far is complete at a spot of its own, something is at a
      spot of every file skipped, and every directory made below the root stands. */
  ghost predicate AllLanded(f: Format, d: Disk, destination: Path, entries: seq<Entry>, log: seq<Visit>)
    requires |log| <= |entries| && Fits(destination, entries, log)
  {
    forall k :: 0 <= k < |log| ==>
      && (log[k].Sent? ==>
            Spot(destination, entries[k].names, log[k].path) && Landed(f, d, log[k].path, entries[k].tree.data))
      && (log[k].Skipped? ==> Spot(destination, entries[k].names, log[k].path) && log[k].path in d)
      && (log[k].Made? && log[k].created && entries[k].names != [] ==> Standing(d, log[k].directory))
  }

  /** The bytes of the files that were not skipped. */
  function SizeSum(entries: seq<Entry>, log: seq<Visit>): nat
    requires |log| <= |entries|
  {
    if log == [] then 0
    else
      var k := |log| - 1;
      SizeSum(entries, log[..k])
      + if entries[k].tree.Leaf? && !log[k].Skipped? then |entries[k].tree.data| else 0
  }

  function SkipCount(log: seq<Visit>): nat {
    if log == [] then 0 else SkipCount(log[..|log| - 1]) + if log[|log| - 1].Skipped? then 1 else 0
  }

  /** Counts the regular files of a tree; a walk that fails leaves a partial count. */
  method CountRegularFiles(tree: Tree, reliable: bool) returns (count: nat, complete: bool)
    ensures complete ==> count == Count(tree)
    ensures reliable ==> complete
  {
    WalkCounts([], tree);
    var entries := Walk([], tree);
    count := 0;
    for k := 0 to |entries|
      invariant count == Tally(entries[..k])
    {
      if !reliable { if * { return count, false; } }
      assert entries[..k + 1][..k] == entries[..k];
      if !entries[k].tree.Branch? && !entries[k].tree.Symlink? { count := count + 1; }
    }
    assert entries[..|entries|] == entries;
    complete := true;
  }

  /** What copying one file of the tree comes to; `whole` when success means all its bytes are there. */
  ghost predicate LeafCopied(f: Format, suffix: SuffixOf, owns: Path -> bool, destination: Path, e: Entry, o: Options,
                             before: Disk, after: Disk, r: Outcome<Result>, g: Option<Target>, whole: bool)
    requires e.tree.Leaf?
  {
    && (o.dryRun ==> g.None?) && (g.None? ==> KeptBut(owns, before, after, {}))
    && (g.Some? ==>
          && (!o.fixMediaNames ==> Spot(destination, e.names, g.value.path))
          && g.value.pair == PartialPaths(suffix, g.value.path, g.value.expected)
          && OnlyTouches(owns, before, after, g.value))
    && (r.Ok? ==>
          && r.value.files + r.value.skippedFiles == 1
          && r.value.bytes == (if r.value.files == 1 then |e.tree.data| else 0)
          && (r.value.files == 1 ==> (g.None? <==> o.dryRun))
          && (!o.fixMediaNames ==> Spot(destination, e.names, r.value.destination))
          && (r.value.skippedFiles == 1 ==> g.None? && o.noClobber && r.value.destination in after))
    && (r.Ok? && g.Some? && whole ==> Landed(f, after, g.value.path, e.tree.data))
  }

  predicate Carries(source: SourceFile, e: Entry)
    reads source
  {
    e.tree.Leaf? && e.names != [] && source.stable && source.data == e.tree.data && source.name == e.names[|e.names| - 1]
  }

  lemma ResolvesToSpot(d: Disk, destination: Path, names: seq<string>, o: Options)
    requires names != []
    ensures !o.fixMediaNames ==>
              Spot(destination, names, Resolution(d, Counterpart(destination, names), names[|names| - 1], o))
  {
  }

  /** The file went, or would have gone, exactly there. */
  predicate InPlace(r: Result, g: Option<Target>, path: Path) {
    r.destination == path && (g.Some? ==> g.value.path == path)
  }

  method SendLeaf(s: FileStore, source: SourceFile, f: Format, hasher: Hasher, suffix: SuffixOf, destination: Path, e: Entry, o: Options)
    returns (r: Outcome<Result>, ghost g: Option<Target>)
    requires Faithful(f) && WellShaped(suffix) && Honest(hasher) && !(o.overwrite && o.noClobber)
    requires Carries(source, e) && forall p :: s.owns(p)
    modifies s, source
    ensures LeafCopied(f, suffix, s.owns, destination, e, o, old(s.disk), s.disk, r, g, true)
    ensures Smooth(s, o) && source.reliable && Unobstructed(old(s.disk), suffix, Counterpart(destination, e.names)) ==>
              r.Ok? && InPlace(r.value, g, Counterpart(destination, e.names))
  {
    ResolvesToSpot(s.disk, destination, e.names, o);
    SmoothIsAlone(s, source, suffix, Counterpart(destination, e.names), o, false);
    ghost var t;
    r, g, t := CopyFile(s, source, f, hasher, suffix, Counterpart(destination, e.names), o);
    UnobstructedMeans(f, old(s.disk), suffix, Counterpart(destination, e.names), source.name, source.data, g, o);
  }

  method FetchLeaf(s: FileStore, source: SourceFile, f: Format, hasher: Hasher, suffix: SuffixOf, destination: Path, e: Entry, o: Options)
    returns (r: Outcome<Result>, ghost g: Option<Target>)
    requires Faithful(f) && WellShaped(suffix) && !(o.overwrite && o.noClobber)
    requires Carries(source, e) && forall p :: s.owns(p)
    modifies s, source
    ensures LeafCopied(f, suffix, s.owns, destination, e, o, old(s.disk), s.disk, r, g, !o.resume)
    ensures Smooth(s, o) && source.reliable && Unobstructed(old(s.disk), suffix, Counterpart(destination, e.names)) ==>
              r.Ok? && InPlace(r.value, g, Counterpart(destination, e.names))
  {
    ResolvesToSpot(s.disk, destination, e.names, o);
    SmoothIsAlone(s, source, suffix, Counterpart(destination, e.names), o, true);
    ghost var t;
    r, g, t := Download.DownloadFile(s, source, f, hasher, suffix, Counterpart(destination, e.names), o);
    UnobstructedMeans(f, old(s.disk), suffix, Counterpart(destination, e.names), source.name, source.data, g, o);
  }

  /** Copies one file of the tree. */
  method CopyLeaf(s: FileStore, f: Format, hasher: Hasher, suffix: SuffixOf, destination: Path, e: Entry, o: Options, local: bool)
    returns (r: Outcome<Result>, ghost g: Option<Target>)
    requires Faithful(f) && WellShaped(suffix) && Honest(hasher) && !(o.overwrite && o.noClobber)
    requires e.tree.Leaf? && e.names != [] && forall p :: s.owns(p)
    modifies s
    ensures LeafCopied(f, suffix, s.owns, destination, e, o, old(s.disk), s.disk, r, g, local ==> !o.resume)
    ensures Smooth(s, o) && Unobstructed(old(s.disk), suffix, Counterpart(destination, e.names)) ==>
              r.Ok? && InPlace(r.value, g, Counterpart(destination, e.names))
  {
    var source := new SourceFile(e.tree.data, e.tree.mtime, true, s.reliable, e.names[|e.names| - 1], e.tree.mode);
    if local {
      r, g := FetchLeaf(s, source, f, hasher, suffix, destination, e, o);
    } else {
      r, g := SendLeaf(s, source, f, hasher, suffix, destination, e, o);
    }
  }

  /** A file sent for one entry leaves those sent for others alone. */
  lemma OthersStay(f: Format, suffix: SuffixOf, owns: Path -> bool, destination: Path, a: seq<string>, path: Path, data: Bytes,
                   b: seq<string>, g: Target, before: Disk, after: Disk)
    requires WellShaped(suffix) && owns(path)
    requires GoodNames(a) && Unhidden(a) && GoodNames(b) && Spot(destination, a, path) && Spot(destination, b, g.path)
    requires !(a <= b) && !(b <= a)
    requires g.pair == PartialPaths(suffix, g.path, g.expected) && OnlyTouches(owns, before, after, g)
    requires Landed(f, before, path, data)
    ensures Landed(f, after, path, data)
  {
    SpotsDiffer(destination, a, path, b, g.path);
    SpotIsNotHidden(suffix, destination, a, path, g.path, g.expected);
  }

  lemma PlaceStays(suffix: SuffixOf, owns: Path -> bool, destination: Path, a: seq<string>, path: Path, b: seq<string>, g: Target,
                   before: Disk, after: Disk)
    requires WellShaped(suffix) && owns(path)
    requires GoodNames(a) && Unhidden(a) && GoodNames(b) && Spot(destination, a, path) && Spot(destination, b, g.path)
    requires !(a <= b) && !(b <= a)
    requires g.pair == PartialPaths(suffix, g.path, g.expected) && OnlyTouches(owns, before, after, g)
    requires path in before
    ensures path in after
  {
    SpotsDiffer(destination, a, path, b, g.path);
    SpotIsNotHidden(suffix, destination, a, path, g.path, g.expected);
  }

  lemma DirectoryStays(suffix: SuffixOf, owns: Path -> bool, destination: Path, a: seq<string>, b: seq<string>, g: Target,
                       before: Disk, after: Disk)
    requires WellShaped(suffix) && owns(Counterpart(destination, a))
    requires GoodNames(a) && Unhidden(a) && GoodNames(b) && a != [] && Spot(destination, b, g.path) && !(b <= a)
    requires g.pair == PartialPaths(suffix, g.path, g.expected) && OnlyTouches(owns, before, after, g)
    requires Standing(before, Counterpart(destination, a))
    ensures Standing(after, Counterpart(destination, a))
  {
    DirectoryDiffers(destination, a, b, g.path);
    SpotIsNotHidden(suffix, destination, a, Counterpart(destination, a), g.path, g.expected);
  }

  lemma StillLanded(f: Format, suffix: SuffixOf, owns: Path -> bool, destination: Path, entries: seq<Entry>, log: seq<Visit>,
                    g: Target, before: Disk, after: Disk)
    requires WellShaped(suffix) && (forall p :: owns(p)) && |log| < |entries| && Fits(destination, entries, log)
    requires AllLanded(f, before, destination, entries, log)
    requires Separate(entries) && entries[|log|].tree.Leaf?
    requires forall i :: 0 <= i < |entries| ==> GoodNames(entries[i].names) && Unhidden(entries[i].names)
    requires Spot(destination, entries[|log|].names, g.path)
    requires g.pair == PartialPaths(suffix, g.path, g.expected) && OnlyTouches(owns, before, after, g)
    ensures AllLanded(f, after, destination, entries, log)
  {
    var b := entries[|log|].names;
    forall k | 0 <= k < |log| && log[k].Sent?
      ensures Landed(f, after, log[k].path, entries[k].tree.data)
    {
      assert FitsAt(destination, entries, k, log[k]);
      OthersStay(f, suffix, owns, destination, entries[k].names, log[k].path, entries[k].tree.data, b, g, before, after);
    }
    forall k | 0 <= k < |log| && log[k].Skipped?
      ensures log[k].path in after
    {
      assert FitsAt(destination, entries, k, log[k]);
      PlaceStays(suffix, owns, destination, entries[k].names, log[k].path, b, g, before, after);
    }
    forall k | 0 <= k < |log| && log[k].Made? && log[k].created && entries[k].names != []
      ensures Standing(after, log[k].directory)
    {
      assert FitsAt(destination, entries, k, log[k]);
      DirectoryStays(suffix, owns, destination, entries[k].names, b, g, before, after);
    }
  }

  /** Nothing disappears, and no file's bytes change. */
  ghost predicate NodesKept(owns: Path -> bool, before: Disk, after: Disk) {
    forall p :: owns(p) && p in before ==>
                  p in after && if IsFile(before, p) then IsFile(after, p) && after[p].data == before[p].data else !after[p].File?
  }

  /** What is set of a directory that was made for an upload. */
  function DirectoryAttributes(path: Path, mode: nat, o: Options): seq<Attribute> {
    (if o.setGroup then [Group(path)] else []) + [Mode(path, mode)]
  }

  /** Creates one directory and sets its group and mode. */
  method MakeDirectory(s: FileStore, path: Path, mode: nat, o: Options, local: bool) returns (r: Outcome<()>)
    requires forall p :: s.owns(p)
    modifies s
    ensures NodesKept(s.owns, old(s.disk), s.disk)
    ensures r.Ok? ==> DirectoryVisit(old(s.disk), s.disk, path, o.dryRun) && (o.dryRun || Standing(s.disk, path))
    ensures r.Ok? ==> s.attributes == old(s.attributes) + if o.dryRun || local then [] else DirectoryAttributes(path, mode, o)
    ensures o.dryRun ==> s.disk == old(s.disk)
    ensures o.dryRun || (s.reliable && path != "" && ClearWay(old(s.disk), path)) ==> r.Ok?
  {
    if o.dryRun { return Ok(()); }
    var ok := s.MkdirAll(path);
    if !ok { return Fail(DestinationNotWritable); }
    if local { return Ok(()); }
    ghost var made := s.disk;
    if o.setGroup {
      ok := s.SetAttribute(Group(path));
      EqualDisks(s.owns, made, s.disk);
      if !ok { return Fail(GroupUnavailable); }
    }
    ok := s.SetAttribute(Mode(path, mode));
    EqualDisks(s.owns, made, s.disk);
    if !ok { return Fail(InvalidPermission); }
    r := Ok(());
  }

  lemma FilesStay(f: Format, owns: Path -> bool, destination: Path, entries: seq<Entry>, log: seq<Visit>,
                  before: Disk, after: Disk)
    requires (forall p :: owns(p)) && |log| <= |entries| && Fits(destination, entries, log)
    requires AllLanded(f, before, destination, entries, log)
    requires NodesKept(owns, before, after) || KeptBut(owns, before, after, {})
    ensures AllLanded(f, after, destination, entries, log)
  {
    forall k | 0 <= k < |log| && log[k].Sent?
      ensures Landed(f, after, log[k].path, entries[k].tree.data)
    {
      assert owns(log[k].path);
    }
    forall k | 0 <= k < |log| && log[k].Skipped?
      ensures log[k].path in after
    {
      assert owns(log[k].path);
    }
    forall k | 0 <= k < |log| && log[k].Made? && log[k].created && entries[k].names != []
      ensures Standing(after, log[k].directory)
    {
      assert owns(log[k].directory);
    }
  }

  lemma WalkFacts(tree: Tree)
    requires WellNamed(tree) && tree.Branch?
    ensures WalkOf(Walk([], tree))
    ensures NoHiddenNames(tree) ==> forall i :: 0 <= i < |Walk([], tree)| ==> Unhidden(Walk([], tree)[i].names)
  {
    WalkIsSeparate([], tree);
    WalkNames([], tree);
    ParentsFirst([], tree);
    if NoHiddenNames(tree) { WalkUnhidden([], tree); }
  }

  /** No two files were sent to the same path. */
  ghost predicate DistinctPaths(log: seq<Visit>) {
    forall i, j :: 0 <= i < j < |log| && log[i].Sent? && log[j].Sent? ==> log[i].path != log[j].path
  }

  lemma SentToDistinctPaths(f: Format, d: Disk, destination: Path, entries: seq<Entry>, log: seq<Visit>)
    requires WalkOf(entries) && |log| <= |entries| && Fits(destination, entries, log)
    requires AllLanded(f, d, destination, entries, log)
    ensures DistinctPaths(log)
  {
    forall i, j | 0 <= i < j < |log| && log[i].Sent? && log[j].Sent? ensures log[i].path != log[j].path {
      SpotsDiffer(destination, entries[i].names, log[i].path, entries[j].names, log[j].path);
    }
  }

  // ---- What the visits come to, told by the tree ----

  function SkippedNames(entries: seq<Entry>, log: seq<Visit>): set<seq<string>>
    requires |log| <= |entries|
  {
    if log == [] then {}
    else
      var k := |log| - 1;
      SkippedNames(entries, log[..k]) + if log[k].Skipped? then {entries[k].names} else {}
  }

  lemma {:induction false} SkippedNamesAre(entries: seq<Entry>, log: seq<Visit>)
    requires |log| <= |entries| && DistinctNames(entries)
    ensures |SkippedNames(entries, log)| == SkipCount(log)
    ensures forall k :: 0 <= k < |log| ==> (entries[k].names in SkippedNames(entries, log) <==> log[k].Skipped?)
    ensures forall names :: names in SkippedNames(entries, log) ==> exists k :: 0 <= k < |log| && entries[k].names == names
  {
    if log != [] {
      var n := |log| - 1;
      SkippedNamesAre(entries, log[..n]);
      assert entries[n].names !in SkippedNames(entries, log[..n]);
      forall k | 0 <= k < |log| ensures entries[k].names in SkippedNames(entries, log) <==> log[k].Skipped? {
        assert k < n ==> log[..n][k] == log[k] && entries[k].names != entries[n].names;
      }
    }
  }

  lemma {:induction false} SizeSumIs(entries: seq<Entry>, log: seq<Visit>, skipped: set<seq<string>>)
    requires |log| <= |entries|
    requires forall k :: 0 <= k < |log| ==> (entries[k].names in skipped <==> log[k].Skipped?)
    ensures SizeSum(entries, log) == Sizes(entries[..|log|], skipped)
  {
    if log != [] {
      var n := |log| - 1;
      SizeSumIs(entries, log[..n], skipped);
      assert entries[..|log|][..n] == entries[..n];
    }
  }

  ghost predicate LandedSomewhere(f: Format, d: Disk, destination: Path, names: seq<string>, data: Bytes) {
    exists path :: Spot(destination, names, path) && Landed(f, d, path, data)
  }

  ghost predicate KeptSomewhere(d: Disk, destination: Path, names: seq<string>) {
    exists path :: Spot(destination, names, path) && path in d
  }

  /** What the tree has under these names is on the other side: the bytes of a
      file, unless it was skipped for something already there, or a directory. */
  ghost predicate Copied(f: Format, d: Disk, destination: Path, names: seq<string>, t: Tree, skipped: set<seq<string>>) {
    && (t.Leaf? || t.Branch?)
    && (t.Leaf? && names in skipped ==> KeptSomewhere(d, destination, names))
    && (t.Leaf? && names !in skipped ==> LandedSomewhere(f, d, destination, names, t.data))
    && (t.Branch? && names != [] ==> Standing(d, Counterpart(destination, names)))
  }

  /** All of the tree is on the other side. */
  ghost predicate TreeCopied(f: Format, d: Disk, destination: Path, tree: Tree, skipped: set<seq<string>>) {
    forall names :: At(tree, names).Some? ==> Copied(f, d, destination, names, At(tree, names).value, skipped)
  }

  lemma VisitsCopyTree(f: Format, d: Disk, destination: Path, tree: Tree, log: seq<Visit>)
    requires WellNamed(tree) && |log| == |Walk([], tree)| && Fits(destination, Walk([], tree), log)
    requires AllLanded(f, d, destination, Walk([], tree), log)
    requires forall k :: 0 <= k < |log| ==> VisitMode(log[k], false)
    ensures TreeCopied(f, d, destination, tree, SkippedNames(Walk([], tree), log))
  {
    var entries := Walk([], tree);
    WalkIsTree(tree);
    SkippedNamesAre(entries, log);
    forall names | At(tree, names).Some?
      ensures Copied(f, d, destination, names, At(tree, names).value, SkippedNames(entries, log))
    {
      var k :| 0 <= k < |entries| && entries[k] == Entry(names, At(tree, names).value);
      assert FitsAt(destination, entries, k, log[k]) && VisitMode(log[k], false);
    }
  }

  /** The skipped names are files of the tree, as many as were counted, and the
      bytes are those of the other files. */
  ghost predicate Accounted(tree: Tree, skipped: set<seq<string>>, r: Result) {
    && |skipped| == r.skippedFiles && r.files + r.skippedFiles == Count(tree)
    && (forall names :: names in skipped ==> At(tree, names).Some? && At(tree, names).value.Leaf?)
    && r.bytes == SizeWithout([], tree, skipped)
  }

  lemma VisitsAccount(destination: Path, tree: Tree, log: seq<Visit>, r: Result)
    requires WellNamed(tree) && |log| == |Walk([], tree)| && Fits(destination, Walk([], tree), log)
    requires r.files + r.skippedFiles == Count(tree) && r.bytes == SizeSum(Walk([], tree), log) && r.skippedFiles == SkipCount(log)
    ensures Accounted(tree, SkippedNames(Walk([], tree), log), r)
  {
    var entries := Walk([], tree);
    var skipped := SkippedNames(entries, log);
    WalkIsTree(tree);
    SkippedNamesAre(entries, log);
    SizeSumIs(entries, log, skipped);
    assert entries[..|log|] == entries;
    WalkSizes([], tree, skipped);
    forall names | names in skipped ensures At(tree, names).Some? && At(tree, names).value.Leaf? {
      var k :| 0 <= k < |log| && entries[k].names == names;
      assert FitsAt(destination, entries, k, log[k]) && log[k].Skipped?;
    }
  }

  /** The running totals of the walk. */
  datatype Totals = Totals(files: nat, skipped: nat, bytes: nat, resumed: nat, fileIndex: nat)

  /** A dry run makes and sends nothing, another run leaves nothing planned. */
  predicate VisitMode(v: Visit, dryRun: bool) {
    match v
    case Made(_, created) => created != dryRun
    case Sent(_, _) => !dryRun
    case Skipped(_, _) => true
    case Planned(_) => dryRun
  }

  /** The totals agree with the visits, and everything sent is in place. */
  ghost predicate UpTo(f: Format, d: Disk, destination: Path, entries: seq<Entry>, o: Options, local: bool, log: seq<Visit>, n: Totals) {
    && |log| <= |entries| && Fits(destination, entries, log)
    && (Orderly(entries, o, local) ==> AllLanded(f, d, destination, entries, log))
    && n.fileIndex == n.files + n.skipped == Tally(entries[..|log|])
    && n.bytes == SizeSum(entries, log)
    && n.skipped == SkipCount(log) && (n.skipped > 0 ==> o.noClobber)
    && (forall j :: 0 <= j < |log| ==> VisitMode(log[j], o.dryRun))
  }

  /** What one visit adds to the totals. */
  ghost predicate Adds(f: Format, d: Disk, destination: Path, e: Entry, orderly: bool, o: Options, n: Totals, v: Visit, m: Totals) {
    match v
    case Made(directory, created) =>
      && e.tree.Branch? && directory == Counterpart(destination, e.names) && m == n
      && created == !o.dryRun && (created ==> Standing(d, directory))
    case Sent(path, index) =>
      && e.tree.Leaf? && !o.dryRun
      && (orderly ==> Spot(destination, e.names, path) && Landed(f, d, path, e.tree.data))
      && index == m.fileIndex == n.fileIndex + 1
      && m.files == n.files + 1 && m.skipped == n.skipped && m.bytes == n.bytes + |e.tree.data|
    case Skipped(path, index) =>
      && (orderly ==> Spot(destination, e.names, path) && path in d)
      && e.tree.Leaf? && o.noClobber && index == m.fileIndex == n.fileIndex + 1
      && m.files == n.files && m.skipped == n.skipped + 1 && m.bytes == n.bytes
    case Planned(index) =>
      && e.tree.Leaf? && o.dryRun && index == m.fileIndex == n.fileIndex + 1
      && m.files == n.files + 1 && m.skipped == n.skipped && m.bytes == n.bytes + |e.tree.data|
  }

  lemma OneMore(f: Format, d: Disk, destination: Path, entries: seq<Entry>, o: Options, local: bool, log: seq<Visit>,
                n: Totals, v: Visit, m: Totals)
    requires UpTo(f, d, destination, entries, o, local, log, n) && |log| < |entries|
    requires Adds(f, d, destination, entries[|log|], Orderly(entries, o, local), o, n, v, m)
    ensures UpTo(f, d, destination, entries, o, local, log + [v], m)
  {
    TallyStep(entries, |log|);
    assert FitsAt(destination, entries, |log|, v);
    FitsOneMore(destination, entries, log, v);
    SumsOneMore(entries, log, v);
    ModesOneMore(log, v, o.dryRun);
    if Orderly(entries, o, local) { LandedOneMore(f, d, destination, entries, log, v); }
  }

  lemma FitsOneMore(destination: Path, entries: seq<Entry>, log: seq<Visit>, v: Visit)
    requires |log| < |entries| && Fits(destination, entries, log) && FitsAt(destination, entries, |log|, v)
    ensures Fits(destination, entries, log + [v])
  {
    forall k | 0 <= k < |log| + 1 ensures FitsAt(destination, entries, k, (log + [v])[k]) {
      if k < |log| { assert FitsAt(destination, entries, k, log[k]); }
    }
  }

  lemma SumsOneMore(entries: seq<Entry>, log: seq<Visit>, v: Visit)
    requires |log| < |entries|
    ensures SkipCount(log + [v]) == SkipCount(log) + if v.Skipped? then 1 else 0
    ensures SizeSum(entries, log + [v]) ==
            SizeSum(entries, log) + if entries[|log|].tree.Leaf? && !v.Skipped? then |entries[|log|].tree.data| else 0
  {
    assert (log + [v])[..|log|] == log;
  }

  lemma ModesOneMore(log: seq<Visit>, v: Visit, dryRun: bool)
    requires (forall j :: 0 <= j < |log| ==> VisitMode(log[j], dryRun)) && VisitMode(v, dryRun)
    ensures forall j :: 0 <= j < |log + [v]| ==> VisitMode((log + [v])[j], dryRun)
  {
    forall j | 0 <= j < |log + [v]| ensures VisitMode((log + [v])[j], dryRun) {
      if j < |log| { assert VisitMode(log[j], dryRun); }
    }
  }

  lemma TallyStep(entries: seq<Entry>, k: nat)
    requires k < |entries|
    ensures Tally(entries[..k + 1]) == Tally(entries[..k]) + if Counted(entries[k]) then 1 else 0
  {
    assert entries[..k + 1][..k] == entries[..k];
  }

  lemma LandedOneMore(f: Format, d: Disk, destination: Path, entries: seq<Entry>, log: seq<Visit>, v: Visit)
    requires |log| < |entries| && FitsAt(destination, entries, |log|, v)
    requires Fits(destination, entries, log) && Fits(destination, entries, log + [v])
    requires AllLanded(f, d, destination, entries, log)
    requires v.Sent? ==> Spot(destination, entries[|log|].names, v.path) && Landed(f, d, v.path, entries[|log|].tree.data)
    requires v.Skipped? ==> Spot(destination, entries[|log|].names, v.path) && v.path in d
    requires v.Made? && v.created ==> Standing(d, v.directory)
    ensures AllLanded(f, d, destination, entries, log + [v])
  {
    var all := log + [v];
    forall k | 0 <= k < |all|
      ensures all[k].Sent? ==> Spot(destination, entries[k].names, all[k].path) && Landed(f, d, all[k].path, entries[k].tree.data)
      ensures all[k].Skipped? ==> Spot(destination, entries[k].names, all[k].path) && all[k].path in d
      ensures all[k].Made? && all[k].created && entries[k].names != [] ==> Standing(d, all[k].directory)
    {
      assert all[k] == if k < |log| then log[k] else v;
      assert FitsAt(destination, entries, k, all[k]);
    }
  }

  ghost predicate WalkOf(entries: seq<Entry>) {
    && Separate(entries)
    && (forall i :: 0 <= i < |entries| ==> GoodNames(entries[i].names))
    && (forall i :: 0 <= i < |entries| && entries[i].names == [] ==> entries[i].tree.Branch?)
  }

  /** What the walk does at a directory. */
  method VisitDirectory(s: FileStore, f: Format, ghost suffix: SuffixOf, destination: Path, o: Options, local: bool, entries: seq<Entry>,
                        k: nat, ghost n: Totals, ghost log: seq<Visit>)
    returns (r: Outcome<()>, ghost visit: Visit)
    requires (forall p :: s.owns(p)) && |log| == k < |entries| && entries[k].tree.Branch?
    requires UpTo(f, s.disk, destination, entries, o, local, log, n)
    modifies s
    ensures o.dryRun ==> s.disk == old(s.disk)
    ensures r.Ok? ==> UpTo(f, s.disk, destination, entries, o, local, log + [visit], n)
    ensures r.Ok? ==>
              s.attributes == old(s.attributes) + if o.dryRun || local then [] else EntryAttributes(destination, entries[k], o)
    ensures Smooth(s, o) && OnCourse(old(s.disk), suffix, destination, entries, k, o.dryRun) ==>
              r.Ok? && OnCourse(s.disk, suffix, destination, entries, k + 1, o.dryRun)
  {
    OnCourseMeans(s.disk, suffix, destination, entries, k, o.dryRun);
    ghost var before := s.disk;
    var path := Counterpart(destination, entries[k].names);
    visit := Made(path, !o.dryRun);
    r := MakeDirectory(s, path, if o.mode.Some? then o.dirMode else entries[k].tree.dirMode, o, local);
    if r.Fail? { return; }
    DirectoryStaysOnCourse(suffix, destination, entries, k, o.dryRun, before, s.disk);
    if Orderly(entries, o, local) { FilesStay(f, s.owns, destination, entries, log, before, s.disk); }
    OneMore(f, s.disk, destination, entries, o, local, log, n, visit, n);
  }

  /** The group and the mode set of a directory of the tree. */
  function EntryAttributes(destination: Path, e: Entry, o: Options): seq<Attribute>
    requires e.tree.Branch?
  {
    DirectoryAttributes(Counterpart(destination, e.names), if o.mode.Some? then o.dirMode else e.tree.dirMode, o)
  }

  lemma LeafIsFileVisit(f: Format, suffix: SuffixOf, owns: Path -> bool, destination: Path, e: Entry, o: Options,
                        before: Disk, after: Disk, r: Outcome<Result>, g: Option<Target>, whole: bool)
    requires e.tree.Leaf? && LeafCopied(f, suffix, owns, destination, e, o, before, after, r, g, whole) && r.Ok?
    ensures InPlace(r.value, g, Counterpart(destination, e.names)) ==>
              FileVisit(owns, suffix, before, after, Counterpart(destination, e.names), g, o.dryRun)
  {
  }

  lemma LandedStay(f: Format, suffix: SuffixOf, owns: Path -> bool, destination: Path, entries: seq<Entry>, log: seq<Visit>, o: Options,
                   local: bool, r: Outcome<Result>, g: Option<Target>, whole: bool, before: Disk, after: Disk)
    requires WellShaped(suffix) && (forall p :: owns(p)) && |log| < |entries| && Fits(destination, entries, log)
    requires WalkOf(entries) && entries[|log|].tree.Leaf? && Orderly(entries, o, local)
    requires AllLanded(f, before, destination, entries, log)
    requires LeafCopied(f, suffix, owns, destination, entries[|log|], o, before, after, r, g, whole)
    ensures AllLanded(f, after, destination, entries, log)
  {
    if g.Some? {
      StillLanded(f, suffix, owns, destination, entries, log, g.value, before, after);
    } else {
      FilesStay(f, owns, destination, entries, log, before, after);
    }
  }

  /** What the walk does at a file. */
  method VisitFile(s: FileStore, f: Format, hasher: Hasher, suffix: SuffixOf, destination: Path, o: Options, local: bool,
                   entries: seq<Entry>, k: nat, n: Totals, ghost log: seq<Visit>)
    returns (r: Outcome<Totals>, ghost visit: Visit)
    requires Faithful(f) && WellShaped(suffix) && Honest(hasher) && !(o.overwrite && o.noClobber)
    requires WalkOf(entries) && (forall p :: s.owns(p)) && |log| == k < |entries| && entries[k].tree.Leaf?
    requires UpTo(f, s.disk, destination, entries, o, local, log, n)
    modifies s
    ensures o.dryRun ==> s.disk == old(s.disk)
    ensures r.Ok? ==> UpTo(f, s.disk, destination, entries, o, local, log + [visit], r.value)
    ensures Smooth(s, o) && OnCourse(old(s.disk), suffix, destination, entries, k, o.dryRun) ==>
              r.Ok? && OnCourse(s.disk, suffix, destination, entries, k + 1, o.dryRun)
  {
    OnCourseMeans(s.disk, suffix, destination, entries, k, o.dryRun);
    ghost var before := s.disk;
    var index := n.fileIndex + 1;
    var copied;
    ghost var g;
    visit := Planned(index);
    copied, g := CopyLeaf(s, f, hasher, suffix, destination, entries[k], o, local);
    if o.dryRun { EqualDisks(s.owns, before, s.disk); }
    if copied.Fail? { return Fail(copied.code), visit; }
    LeafIsFileVisit(f, suffix, s.owns, destination, entries[k], o, before, s.disk, copied, g, local ==> !o.resume);
    FileStaysOnCourse(suffix, s.owns, destination, entries, k, o.dryRun, g, before, s.disk);
    if Orderly(entries, o, local) {
      LandedStay(f, suffix, s.owns, destination, entries, log, o, local, copied, g, local ==> !o.resume, before, s.disk);
    }
    visit := if copied.value.skippedFiles == 1 then Skipped(copied.value.destination, index)
             else if g.None? then Planned(index) else Sent(g.value.path, index);
    var m := Totals(n.files + copied.value.files, n.skipped + copied.value.skippedFiles,
                    n.bytes + copied.value.bytes, n.resumed + copied.value.resumedBytes, index);
    OneMore(f, s.disk, destination, entries, o, local, log, n, visit, m);
    r := Ok(m);
  }

  /** What the walk does at one entry. */
  method VisitEntry(s: FileStore, f: Format, hasher: Hasher, suffix: SuffixOf, destination: Path, o: Options, local: bool,
                    entries: seq<Entry>, k: nat, n: Totals, ghost log: seq<Visit>)
    returns (r: Outcome<Totals>, ghost visit: Visit)
    requires Faithful(f) && WellShaped(suffix) && Honest(hasher) && !(o.overwrite && o.noClobber)
    requires WalkOf(entries) && (forall p :: s.owns(p)) && |log| == k < |entries|
    requires UpTo(f, s.disk, destination, entries, o, local, log, n)
    modifies s
    ensures o.dryRun ==> s.disk == old(s.disk)
    ensures r.Ok? ==> UpTo(f, s.disk, destination, entries, o, local, log + [visit], r.value)
    ensures Smooth(s, o) && OnCourse(old(s.disk), suffix, destination, entries, k, o.dryRun) ==>
              if entries[k].tree.Leaf? || entries[k].tree.Branch? then
                r.Ok? && OnCourse(s.disk, suffix, destination, entries, k + 1, o.dryRun)
              else r == Fail(UnsupportedFileType)
  {
    visit := Made(destination, false);
    match entries[k].tree {
      case Symlink => r := Fail(UnsupportedFileType);
      case Special => r := Fail(UnsupportedFileType);
      case Branch(_, _, _) =>
        var made;
        made, visit := VisitDirectory(s, f, suffix, destination, o, local, entries, k, n, log);
        r := if made.Ok? then Ok(n) else Fail(made.code);
      case Leaf(_, _, _) =>
        r, visit := VisitFile(s, f, hasher, suffix, destination, o, local, entries, k, n, log);
    }
  }

  /** The times of the directories, the last one visited first. */
  function DirectoryTimes(destination: Path, entries: seq<Entry>): seq<Attribute> {
    if entries == [] then []
    else
      var last := entries[|entries| - 1];
      (if last.tree.Branch? then [Times(Counterpart(destination, last.names), last.tree.dirTime)] else [])
      + DirectoryTimes(destination, entries[..|entries| - 1])
  }

  lemma TimesOfOne(destination: Path, e: Entry)
    ensures DirectoryTimes(destination, [e]) ==
            if e.tree.Branch? then [Times(Counterpart(destination, e.names), e.tree.dirTime)] else []
  {
    assert DirectoryTimes(destination, [e][..0]) == [];
  }

  /** What was visited later has its time set earlier, and no directory is left out. */
  lemma {:induction false} TimesInReverse(destination: Path, a: seq<Entry>, b: seq<Entry>)
    ensures DirectoryTimes(destination, a + b) == DirectoryTimes(destination, b) + DirectoryTimes(destination, a)
  {
    if b == [] {
      assert a + b == a;
    } else {
      assert (a + b)[..|a + b| - 1] == a + b[..|b| - 1];
      TimesInReverse(destination, a, b[..|b| - 1]);
    }
  }

  lemma OneTimeSet(destination: Path, entries: seq<Entry>, k: nat, attributes: seq<Attribute>)
    requires k < |entries|
    ensures attributes + DirectoryTimes(destination, entries[..k + 1]) ==
            (if entries[k].tree.Branch? then attributes + [Times(Counterpart(destination, entries[k].names), entries[k].tree.dirTime)]
             else attributes) + DirectoryTimes(destination, entries[..k])
  {
    assert entries[..k + 1][..k] == entries[..k];
  }

  /** Directory times are set last, in reverse order. */
  method PreserveTimes(s: FileStore, destination: Path, entries: seq<Entry>) returns (ok: bool)
    requires forall p :: s.owns(p)
    modifies s
    ensures KeptBut(s.owns, old(s.disk), s.disk, {})
    ensures ok ==> s.attributes == old(s.attributes) + DirectoryTimes(destination, entries)
    ensures s.reliable && DirectoriesStand(old(s.disk), destination, entries) ==> ok
  {
    var k := |entries|;
    assert entries[..k] == entries;
    while k > 0
      invariant k <= |entries|
      invariant KeptBut(s.owns, old(s.disk), s.disk, {})
      invariant s.attributes + DirectoryTimes(destination, entries[..k]) == old(s.attributes) + DirectoryTimes(destination, entries)
    {
      k := k - 1;
      OneTimeSet(destination, entries, k, s.attributes);
      if entries[k].tree.Branch? {
        ok := s.SetAttribute(Times(Counterpart(destination, entries[k].names), entries[k].tree.dirTime));
        if !ok { return false; }
      }
    }
    assert DirectoryTimes(destination, entries[..0]) == [];
    ok := true;
  }

  /** What the visits say of a success, each taking place at its entry. */
  ghost predicate ToldByWalk(f: Format, d: Disk, destination: Path, tree: Tree, o: Options, local: bool, log: seq<Visit>, r: Result)
    requires |log| == |Walk([], tree)|
  {
    && Fits(destination, Walk([], tree), log)
    && (!o.fixMediaNames && NoHiddenNames(tree) && (local ==> !o.resume) ==>
          AllLanded(f, d, destination, Walk([], tree), log) && DistinctPaths(log))
    && r.bytes == SizeSum(Walk([], tree), log)
    && r.skippedFiles == SkipCount(log) && (r.skippedFiles > 0 ==> o.noClobber)
    && (forall k :: 0 <= k < |log| ==> VisitMode(log[k], o.dryRun))
  }

  /** What the tree says of it: `skipped` are files of the tree, as many as the
      result counts, the bytes are those of all others, and everything is there. */
  ghost predicate ToldByTree(f: Format, d: Disk, destination: Path, tree: Tree, o: Options, local: bool, skipped: set<seq<string>>,
                             r: Result)
  {
    && Accounted(tree, skipped, r)
    && (!o.dryRun && !o.fixMediaNames && NoHiddenNames(tree) && (local ==> !o.resume) ==>
          TreeCopied(f, d, destination, tree, skipped))
  }

  lemma WalkConcludes(f: Format, d: Disk, destination: Path, tree: Tree, o: Options, local: bool, log: seq<Visit>, n: Totals, r: Result)
    requires WellNamed(tree) && tree.Branch? && |log| == |Walk([], tree)|
    requires UpTo(f, d, destination, Walk([], tree), o, local, log, n)
    requires r.files == n.files && r.skippedFiles == n.skipped && r.bytes == n.bytes
    ensures ToldByWalk(f, d, destination, tree, o, local, log, r)
    ensures ToldByTree(f, d, destination, tree, o, local, SkippedNames(Walk([], tree), log), r)
  {
    var entries := Walk([], tree);
    assert entries[..|log|] == entries;
    WalkFacts(tree);
    WalkCounts([], tree);
    if Orderly(entries, o, local) { SentToDistinctPaths(f, d, destination, entries, log); }
    VisitsAccount(destination, tree, log, r);
    if Orderly(entries, o, local) && !o.dryRun { VisitsCopyTree(f, d, destination, tree, log); }
  }

  predicate EndsWith(attributes: seq<Attribute>, last: seq<Attribute>) {
    |last| <= |attributes| && attributes[|attributes| - |last|..] == last
  }

  /** What decides before the walk, when there are no faults. */
  ghost predicate Refused(d: Disk, destination: Path, o: Options, code: Code) {
    || (IsLink(d, destination) && code == UnsupportedFileType)
    || (destination in d && !IsLink(d, destination) && !o.overwrite && !o.noClobber && code == DestinationExists)
  }

  /** Looks at the directories above the destination and at the destination itself. */
  method InspectDestination(s: FileStore, destination: Path, o: Options, local: bool) returns (r: Outcome<()>)
    requires forall p :: s.owns(p)
    modifies s`disk, s`readFaults
    ensures s.disk == old(s.disk)
    ensures Smooth(s, o) && ParentsClear(s.disk, destination, local) ==>
              && (forall code :: Refused(s.disk, destination, o, code) ==> r == Fail(code))
              && (destination !in s.disk ==> r.Ok?)
  {
    r := CheckParents(s, destination, local);
    EqualDisks(s.owns, old(s.disk), s.disk);
    if r.Fail? { return; }
    var existing := s.Lstat(destination);
    EqualDisks(s.owns, old(s.disk), s.disk);
    match existing {
      case Found(node) =>
        if node.Link? { return Fail(UnsupportedFileType); }
        if !o.overwrite && !o.noClobber { return Fail(DestinationExists); }
      case StatFailed => return Fail(DestinationNotWritable);
      case NotExist =>
    }
  }

  /** Visits the entries in order, until one cannot be read or its visit fails. */
  method WalkTree(s: FileStore, f: Format, hasher: Hasher, suffix: SuffixOf, entries: seq<Entry>, destination: Path, o: Options,
                  local: bool)
    returns (r: Outcome<Totals>, ghost log: seq<Visit>)
    requires Faithful(f) && WellShaped(suffix) && Honest(hasher) && !(o.overwrite && o.noClobber)
    requires WalkOf(entries) && forall p :: s.owns(p)
    modifies s
    ensures o.dryRun ==> s.disk == old(s.disk)
    ensures r.Ok? ==> |log| == |entries| && UpTo(f, s.disk, destination, entries, o, local, log, r.value)
    ensures Smooth(s, o) && OnCourse(old(s.disk), suffix, destination, entries, 0, o.dryRun) ==>
              if PlainEntries(entries, |entries|) then r.Ok? && OnCourse(s.disk, suffix, destination, entries, |entries|, o.dryRun)
              else r == Fail(UnsupportedFileType)
  {
    var n := Totals(0, 0, 0, 0, 0);
    log := [];
    for k := 0 to |entries|
      invariant |log| == k && UpTo(f, s.disk, destination, entries, o, local, log, n)
      invariant o.dryRun ==> s.disk == old(s.disk)
      invariant StillOnCourse(Smooth(s, o), old(s.disk), s.disk, suffix, destination, entries, k, o.dryRun)
    {
      // An entry that cannot be read ends the walk; a reliable source has none.
      var walkFailed: bool := *;
      if walkFailed && !s.reliable { return Fail(Unclassified), log; }
      var visited;
      ghost var visit;
      visited, visit := VisitEntry(s, f, hasher, suffix, destination, o, local, entries, k, n, log);
      if visited.Fail? { return Fail(visited.code), log; }
      n, log := visited.value, log + [visit];
    }
    r := Ok(n);
  }

  /** Transfers a directory tree that does not change meanwhile, with no other
      writer on the receiving side. `log` has one visit per entry. */
  method CopyDirectory(s: FileStore, f: Format, hasher: Hasher, suffix: SuffixOf, tree: Tree, destination: Path, o: Options,
                       local: bool)
    returns (r: Outcome<Result>, totalFiles: nat, counted: bool, ghost log: seq<Visit>)
    requires Faithful(f) && WellShaped(suffix) && Honest(hasher) && !(o.overwrite && o.noClobber)
    requires tree.Branch? && WellNamed(tree) && forall p :: s.owns(p)
    modifies s
    ensures (counted ==> totalFiles == Count(tree)) && (s.reliable ==> counted)
    ensures r.Ok? ==> r.value.verified && r.value.dryRun == o.dryRun && r.value.destination == destination
    ensures r.Ok? ==> |log| == |Walk([], tree)| && ToldByWalk(f, s.disk, destination, tree, o, local, log, r.value)
    ensures r.Ok? ==> ToldByTree(f, s.disk, destination, tree, o, local, SkippedNames(Walk([], tree), log), r.value)
    ensures r.Ok? && o.preserveTime && !o.dryRun ==> EndsWith(s.attributes, DirectoryTimes(destination, Walk([], tree)))
    ensures o.dryRun ==> s.disk == old(s.disk)
    // Without faults.
    ensures Smooth(s, o) && old(ParentsClear(s.disk, destination, local)) ==>
              forall code :: Refused(old(s.disk), destination, o, code) ==> r == Fail(code)
    ensures Smooth(s, o) && NoHiddenNames(tree) && Fresh(old(s.disk), destination) ==>
              if PlainTree(tree) then r.Ok? else r == Fail(UnsupportedFileType)
  {
    log := [];
    if local {
      totalFiles, counted := CountRemoteRegularFiles(tree, s.reliable);
    } else {
      totalFiles, counted := CountRegularFiles(tree, s.reliable);
    }
    var entries := Walk([], tree);
    WalkFacts(tree);
    PlainWalk(tree);
    FreshIsOnCourse(s.disk, suffix, destination, tree, o.dryRun, local);
    var inspected := InspectDestination(s, destination, o, local);
    if inspected.Fail? { return Fail(inspected.code), totalFiles, counted, log; }
    var walked;
    walked, log := WalkTree(s, f, hasher, suffix, entries, destination, o, local);
    if walked.Fail? { return Fail(walked.code), totalFiles, counted, log; }
    var n := walked.value;
    OnCourseToTheEnd(s.disk, suffix, destination, entries, o.dryRun);
    if o.preserveTime && !o.dryRun {
      ghost var before := s.disk;
      var ok := PreserveTimes(s, destination, entries);
      if !ok { return Fail(InvalidPermission), totalFiles, counted, log; }
      if Orderly(entries, o, local) { FilesStay(f, s.owns, destination, entries, log, before, s.disk); }
    }
    r := Ok(Result(destination, n.files, n.skipped, n.bytes, None, n.resumed, true, o.dryRun));
    WalkConcludes(f, s.disk, destination, tree, o, local, log, n, r.value);
  }
}
