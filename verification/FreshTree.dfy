/** A directory tree copied to where nothing is yet: no step of the walk can meet
    anything that stands in its way. */
module FreshTree {
  import opened Basics
  import opened SlashPath
  import opened FileStores
  import opened PartialState
  import opened PartialNames
  import opened Upload
  import Download
  import opened SourceTree
  import opened TreePaths

  /** A directory's path with the slash that its children's paths begin with. */
  function Slashed(d: Path): Path {
    if d == "/" then d else d + "/"
  }

  /** A path as a parsed destination gives it. */
  ghost predicate Proper(d: Path) {
    CleanPath(d) && d != "" && d != "."
  }

  /** Only directories, or nothing yet, from the root down to the path. */
  ghost predicate Passable(d: Disk, path: Path) {
    forall q :: (OnTheWay(q, path) || (q == "/" && path != "" && path[0] == '/')) && q in d ==> d[q].Directory?
  }

  /** Every directory down to the path is there. */
  ghost predicate Paved(d: Disk, path: Path) {
    forall q :: OnTheWay(q, path) ==> q in d && d[q].Directory?
  }

  /** Nothing is at the destination or below it, and only directories above. */
  ghost predicate Fresh(d: Disk, destination: Path) {
    && Proper(destination) && Passable(d, destination)
    && forall p :: p in d ==> p != destination && !(Slashed(destination) <= p)
  }

  // ---- The paths of the tree ----

  lemma ChildSplits(d: Path, x: string)
    requires Proper(d) && Ordinary(x)
    ensures Split(Slashed(d) + x) == (Slashed(d), x) && Dir(Slashed(d) + x) == d
  {
    SplitAt(Slashed(d), x);
    if d == "/" {
      DirMeans(d, x);
    } else {
      DirMeans(d, x);
      assert d + "/" + x == Slashed(d) + x;
    }
  }

  lemma CounterpartSteps(destination: Path, names: seq<string>, x: string)
    requires Proper(destination) && GoodNames(names) && Ordinary(x)
    ensures Counterpart(destination, names + [x]) == Slashed(Counterpart(destination, names)) + x
  {
    var rooted, anchor := Rooted(destination), Anchor(destination);
    AnchorIsNormal(destination, names);
    CounterpartIsCanonical(destination, names + [x]);
    CounterpartRendered(destination, names);
    assert anchor + (names + [x]) == (anchor + names) + [x];
    LeadAndLast(rooted, anchor + names, x);
    LeadIsSlashed(rooted, anchor + names);
  }

  lemma CounterpartRendered(destination: Path, names: seq<string>)
    requires Proper(destination) && GoodNames(names)
    ensures Counterpart(destination, names) == Canonical(destination, names)
    ensures Rooted(destination) || Anchor(destination) + names != []
  {
    if names == [] {
      assert Anchor(destination) + names == Anchor(destination);
    } else {
      CounterpartIsCanonical(destination, names);
    }
  }

  lemma LeadIsSlashed(rooted: bool, stack: seq<string>)
    requires Normal(rooted, stack) && (rooted || stack != [])
    ensures Lead(rooted, stack) == Slashed(Rendered(rooted, stack))
  {
    if stack == [] {
      assert "/" + "" == "/";
    } else {
      JoinedNotEmpty(stack);
    }
  }

  lemma JoinedNotEmpty(stack: seq<string>)
    requires stack != [] && stack[0] != "" && Plain(stack[0])
    ensures Joined(stack) != "" && Joined(stack)[0] != '/'
  {
    assert Joined(stack)[0] == stack[0][0];
  }

  lemma CounterpartIsProper(destination: Path, names: seq<string>)
    requires Proper(destination) && GoodNames(names)
    ensures Proper(Counterpart(destination, names))
  {
    var rooted, stack := Rooted(destination), Anchor(destination) + names;
    CounterpartRendered(destination, names);
    AnchorIsNormal(destination, names);
    RenderedSegments(rooted, stack);
    if !rooted {
      JoinedNotEmpty(stack);
      if Joined(stack) == "." {
        SplitPlain(".", IS_SLASH);
        SegmentsOfJoined(stack);
      }
    }
  }

  /** A directory's path begins the paths of everything below it. */
  lemma {:induction false} CounterpartIsBelow(destination: Path, names: seq<string>)
    requires Proper(destination) && GoodNames(names)
    ensures Slashed(destination) <= Slashed(Counterpart(destination, names))
    decreases |names|
  {
    if names != [] {
      var front, last := names[..|names| - 1], names[|names| - 1];
      assert names == front + [last] && Ordinary(last);
      CounterpartIsBelow(destination, front);
      CounterpartSteps(destination, front, last);
      SlashLonger(Slashed(Counterpart(destination, front)), last);
    }
  }

  lemma SlashLonger(lead: string, x: string)
    requires x != "" && lead != ""
    ensures lead <= Slashed(lead + x)
  {
  }

  /** On the way to a child there are only its directory's own way and itself. */
  lemma WayToChild(d: Path, x: string)
    requires Proper(d) && Ordinary(x)
    ensures forall q :: OnTheWay(q, Slashed(d) + x) ==> q == Slashed(d) + x || OnTheWay(q, d)
    ensures (Slashed(d) + x)[0] == d[0]
  {
    var c := Slashed(d) + x;
    forall q | OnTheWay(q, c) && q != c ensures OnTheWay(q, d) {
      assert c[|q|] == '/';
      assert |q| < |Slashed(d)|;
      if d != "/" { assert q <= d; }
    }
  }

  /** Whatever is above a passable path is a directory. */
  lemma PassableParents(d: Disk, destination: Path, local: bool)
    requires Proper(destination) && Passable(d, destination)
    ensures ParentsClear(d, destination, local)
  {
    var rooted, init := CleanDirectory(destination);
    var name := Split(destination).1;
    SplitParts(destination);
    if init == [] {
      if rooted { DirMeans(destination, name); } else { DirMeans(destination, name); }
    } else {
      var e := Rendered(rooted, init);
      RenderedIsClean(rooted, init);
      DirMeans(e, name);
      assert destination == e + "/" + name;
      WayOfDirectory(e, name);
    }
  }

  lemma RenderedIsClean(rooted: bool, init: seq<string>)
    requires Normal(rooted, init) && init != []
    ensures Clean(Rendered(rooted, init)) == Rendered(rooted, init) != ""
    ensures Lead(rooted, init) == Rendered(rooted, init) + "/"
  {
    RenderedSegments(rooted, init);
    LeadIsSlashed(rooted, init);
    JoinedNotEmpty(init);
  }

  lemma WayOfDirectory(e: Path, name: string)
    requires e != ""
    ensures forall q :: OnTheWay(q, e) ==> OnTheWay(q, e + "/" + name)
    ensures (e + "/" + name)[0] == e[0]
  {
    var c := e + "/" + name;
    forall q | OnTheWay(q, e) ensures OnTheWay(q, c) {
      assert q <= c;
      assert c[|e|] == '/';
    }
  }

  // ---- What is free ----

  /** Nothing is at the path, nor at any of its hidden files. */
  ghost predicate Free(d: Disk, suffix: SuffixOf, path: Path) {
    path !in d && forall m :: PartialPaths(suffix, path, m).partial !in d && PartialPaths(suffix, path, m).sidecar !in d
  }

  lemma FreshIsFree(d: Disk, suffix: SuffixOf, destination: Path, names: seq<string>)
    requires WellShaped(suffix) && Fresh(d, destination) && GoodNames(names)
    ensures Counterpart(destination, names) !in d
    ensures names != [] ==> Free(d, suffix, Counterpart(destination, names))
  {
    if names != [] {
      var front, last := names[..|names| - 1], names[|names| - 1];
      assert names == front + [last] && Ordinary(last);
      var directory := Counterpart(destination, front);
      CounterpartIsProper(destination, front);
      CounterpartIsProper(destination, names);
      CounterpartIsBelow(destination, front);
      CounterpartSteps(destination, front, last);
      ChildSplits(directory, last);
      forall m ensures PartialPaths(suffix, Counterpart(destination, names), m).partial !in d
                       && PartialPaths(suffix, Counterpart(destination, names), m).sidecar !in d {
        PartialShape(suffix, Counterpart(destination, names), m);
      }
    }
  }

  // ---- The state of the walk ----

  /** A walk from the root down, each entry after the directory it is in. */
  ghost predicate Descends(entries: seq<Entry>) {
    && entries != [] && entries[0].names == [] && entries[0].tree.Branch?
    && (forall k :: 0 <= k < |entries| ==> GoodNames(entries[k].names) && Unhidden(entries[k].names))
    && (forall i, j :: 0 <= i < j < |entries| ==> entries[i].names != entries[j].names)
    && (forall k :: 0 < k < |entries| ==> entries[k].names != [])
    && (forall k {:trigger HasParent(entries, k)} :: 0 < k < |entries| ==> HasParent(entries, k))
  }

  ghost predicate HasParent(entries: seq<Entry>, k: nat)
    requires k < |entries|
  {
    exists j :: ParentOf(entries, j, k)
  }

  ghost predicate ParentOf(entries: seq<Entry>, j: nat, k: nat)
    requires k < |entries|
  {
    j < k && entries[j].tree.Branch? && entries[k].names != [] && entries[j].names == entries[k].names[..|entries[k].names| - 1]
  }

  ghost predicate Unused(d: Disk, suffix: SuffixOf, destination: Path, names: seq<string>) {
    Counterpart(destination, names) !in d && (names != [] ==> Free(d, suffix, Counterpart(destination, names)))
  }

  /** The directories visited are there, or could be, and nothing is yet where
      the other entries go. */
  ghost predicate Ready(d: Disk, suffix: SuffixOf, destination: Path, entries: seq<Entry>, k: nat, dryRun: bool)
    requires k <= |entries|
  {
    (k == 0 ==> Passable(d, destination)) && Visited(d, destination, entries, k, dryRun) && Ahead(d, suffix, destination, entries, k)
  }

  ghost predicate Visited(d: Disk, destination: Path, entries: seq<Entry>, k: nat, dryRun: bool)
    requires k <= |entries|
  {
    forall j :: 0 <= j < k && entries[j].tree.Branch? ==> Usable(d, Counterpart(destination, entries[j].names), dryRun)
  }

  ghost predicate Usable(d: Disk, path: Path, dryRun: bool) {
    Passable(d, path) && (dryRun || Paved(d, path))
  }

  ghost predicate Ahead(d: Disk, suffix: SuffixOf, destination: Path, entries: seq<Entry>, k: nat)
    requires k <= |entries|
  {
    forall j :: k <= j < |entries| ==> Unused(d, suffix, destination, entries[j].names)
  }

  lemma FreshIsReady(d: Disk, suffix: SuffixOf, destination: Path, entries: seq<Entry>, dryRun: bool)
    requires WellShaped(suffix) && Fresh(d, destination) && Descends(entries)
    ensures Ready(d, suffix, destination, entries, 0, dryRun)
  {
    forall j | 0 <= j < |entries| ensures Unused(d, suffix, destination, entries[j].names) {
      FreshIsFree(d, suffix, destination, entries[j].names);
    }
  }

  lemma ChildFacts(destination: Path, front: seq<string>, x: string)
    requires Proper(destination) && GoodNames(front) && Ordinary(x)
    ensures var above, path := Counterpart(destination, front), Counterpart(destination, front + [x]);
            && Proper(above) && Proper(path) && path == Slashed(above) + x && Dir(path) == above && Clean(path) == path
  {
    CounterpartIsProper(destination, front);
    CounterpartIsProper(destination, front + [x]);
    CounterpartSteps(destination, front, x);
    ChildSplits(Counterpart(destination, front), x);
  }

  /** The directory an entry is in, and the entry's path from it. */
  lemma Parent(destination: Path, entries: seq<Entry>, k: nat) returns (j: nat, x: string)
    requires Proper(destination) && Descends(entries) && 0 < k < |entries|
    ensures ParentOf(entries, j, k) && Ordinary(x)
    ensures var above, path := Counterpart(destination, entries[j].names), Counterpart(destination, entries[k].names);
            && Proper(above) && path == Slashed(above) + x && Dir(path) == above && Clean(path) == path
  {
    j, x := ParentNames(entries, k);
    ChildFacts(destination, entries[j].names, x);
  }

  lemma ParentNames(entries: seq<Entry>, k: nat) returns (j: nat, x: string)
    requires Descends(entries) && 0 < k < |entries|
    ensures ParentOf(entries, j, k) && Ordinary(x) && entries[k].names == entries[j].names + [x] && GoodNames(entries[j].names)
  {
    assert HasParent(entries, k);
    j :| ParentOf(entries, j, k);
    var names := entries[k].names;
    x := names[|names| - 1];
  }

  lemma ReadyIsPassable(d: Disk, suffix: SuffixOf, destination: Path, entries: seq<Entry>, k: nat, dryRun: bool)
    requires Proper(destination) && Descends(entries) && k < |entries| && Ready(d, suffix, destination, entries, k, dryRun)
    ensures Passable(d, Counterpart(destination, entries[k].names))
  {
    if k > 0 {
      var j, x := Parent(destination, entries, k);
      WayToChild(Counterpart(destination, entries[j].names), x);
      assert Unused(d, suffix, destination, entries[k].names);
    }
  }

  /** A missing directory on the way to an entry is the entry itself, or is above
      the destination. */
  lemma OnlyItselfIsMissing(d: Disk, suffix: SuffixOf, destination: Path, entries: seq<Entry>, k: nat)
    requires Proper(destination) && Descends(entries) && k < |entries| && Ready(d, suffix, destination, entries, k, false)
    ensures MissingOnly(d, Counterpart(destination, entries[k].names), destination)
  {
    if k > 0 {
      var j, x := Parent(destination, entries, k);
      WayToChild(Counterpart(destination, entries[j].names), x);
    }
  }

  lemma BelowIsLonger(suffix: SuffixOf, destination: Path, names: seq<string>, m: Metadata)
    requires WellShaped(suffix) && Proper(destination) && GoodNames(names) && names != []
    ensures var path := Counterpart(destination, names);
            |path| > |destination| && |PartialPaths(suffix, path, m).partial| > |destination|
            && |PartialPaths(suffix, path, m).sidecar| > |destination|
  {
    var front, last := names[..|names| - 1], names[|names| - 1];
    assert names == front + [last] && Ordinary(last);
    CounterpartIsProper(destination, front);
    CounterpartIsProper(destination, names);
    CounterpartIsBelow(destination, front);
    CounterpartSteps(destination, front, last);
    ChildSplits(Counterpart(destination, front), last);
    PartialShape(suffix, Counterpart(destination, names), m);
  }

  predicate DifferentFiles(p: Path, pp: Pair, q: Path, qq: Pair) {
    && p != q && p != qq.partial && p != qq.sidecar
    && pp.partial != q && pp.partial != qq.partial && pp.partial != qq.sidecar
    && pp.sidecar != q && pp.sidecar != qq.partial && pp.sidecar != qq.sidecar
  }

  /** What an entry uses is used by no other. */
  lemma EntriesApart(suffix: SuffixOf, destination: Path, a: seq<string>, m: Metadata, b: seq<string>, n: Metadata)
    requires WellShaped(suffix) && Proper(destination) && a != [] && b != [] && a != b
    requires GoodNames(a) && Unhidden(a) && GoodNames(b) && Unhidden(b)
    ensures var p, q := Counterpart(destination, a), Counterpart(destination, b);
            DifferentFiles(p, PartialPaths(suffix, p, m), q, PartialPaths(suffix, q, n))
  {
    var p, q := Counterpart(destination, a), Counterpart(destination, b);
    CounterpartIsCanonical(destination, a);
    CounterpartIsCanonical(destination, b);
    if p == q { CanonicalInjective(destination, a, b); }
    CounterpartIsProper(destination, a);
    CounterpartIsProper(destination, b);
    SpotIsNotHidden(suffix, destination, a, p, q, n);
    SpotIsNotHidden(suffix, destination, b, q, p, m);
    PairsAreDisjoint(suffix, p, m, q, n);
  }

  // ---- One step ----

  /** Nothing but directories on the way to the path has been made. */
  ghost predicate OnlyMadeOnTheWay(before: Disk, after: Disk, path: Path) {
    && (forall q :: q in before ==> q in after && after[q] == before[q])
    && (forall q :: q in after && q !in before ==> after[q].Directory? && OnTheWay(q, path))
  }

  /** What is missing on the way to the path is the path itself, or is above the destination. */
  ghost predicate MissingOnly(d: Disk, path: Path, destination: Path) {
    forall q :: OnTheWay(q, path) && q !in d ==> q == path || |q| <= |destination|
  }

  lemma NotMade(before: Disk, after: Disk, path: Path, destination: Path, other: Path)
    requires OnlyMadeOnTheWay(before, after, path) && MissingOnly(before, path, destination)
    requires other !in before && other != path && |other| > |destination|
    ensures other !in after
  {
  }

  lemma NoneMade(before: Disk, after: Disk, path: Path, destination: Path, other: Path, pair: Pair)
    requires OnlyMadeOnTheWay(before, after, path) && MissingOnly(before, path, destination)
    requires other !in before && pair.partial !in before && pair.sidecar !in before
    requires |other| > |destination| && |pair.partial| > |destination| && |pair.sidecar| > |destination|
    requires path == destination || path !in {other, pair.partial, pair.sidecar}
    ensures other !in after && pair.partial !in after && pair.sidecar !in after
  {
    NotMade(before, after, path, destination, other);
    NotMade(before, after, path, destination, pair.partial);
    NotMade(before, after, path, destination, pair.sidecar);
  }

  lemma NotInTheWayOf(suffix: SuffixOf, destination: Path, names: seq<string>, others: seq<string>, m: Metadata)
    requires WellShaped(suffix) && Proper(destination) && GoodNames(names) && Unhidden(names) && GoodNames(others) && Unhidden(others)
    requires others != [] && others != names
    ensures var path, other := Counterpart(destination, names), Counterpart(destination, others);
            var pair := PartialPaths(suffix, other, m);
            && |other| > |destination| && |pair.partial| > |destination| && |pair.sidecar| > |destination|
            && (path == destination || path !in {other, pair.partial, pair.sidecar})
  {
    BelowIsLonger(suffix, destination, others, m);
    if names != [] { EntriesApart(suffix, destination, names, m, others, m); }
  }

  lemma PairAfterMaking(suffix: SuffixOf, destination: Path, names: seq<string>, others: seq<string>, m: Metadata,
                        before: Disk, after: Disk)
    requires WellShaped(suffix) && Proper(destination) && GoodNames(names) && Unhidden(names) && GoodNames(others) && Unhidden(others)
    requires others != [] && others != names && Unused(before, suffix, destination, others)
    requires OnlyMadeOnTheWay(before, after, Counterpart(destination, names))
    requires MissingOnly(before, Counterpart(destination, names), destination)
    ensures var other := Counterpart(destination, others);
            other !in after && PartialPaths(suffix, other, m).partial !in after && PartialPaths(suffix, other, m).sidecar !in after
  {
    var other := Counterpart(destination, others);
    NotInTheWayOf(suffix, destination, names, others, m);
    assert Free(before, suffix, other);
    NoneMade(before, after, Counterpart(destination, names), destination, other, PartialPaths(suffix, other, m));
  }

  lemma UnusedAfterMaking(suffix: SuffixOf, destination: Path, names: seq<string>, others: seq<string>, before: Disk, after: Disk)
    requires WellShaped(suffix) && Proper(destination) && GoodNames(names) && Unhidden(names) && GoodNames(others) && Unhidden(others)
    requires others != [] && others != names && Unused(before, suffix, destination, others)
    requires OnlyMadeOnTheWay(before, after, Counterpart(destination, names))
    requires MissingOnly(before, Counterpart(destination, names), destination)
    ensures Unused(after, suffix, destination, others)
  {
    var any: Metadata :| true;
    PairAfterMaking(suffix, destination, names, others, any, before, after);
    forall m { PairAfterMaking(suffix, destination, names, others, m, before, after); }
  }

  lemma UsableAfterMaking(before: Disk, after: Disk, path: Path, other: Path)
    requires OnlyMadeOnTheWay(before, after, path) && Usable(before, other, false)
    ensures Usable(after, other, false)
  {
  }

  lemma NowUsable(before: Disk, after: Disk, path: Path)
    requires OnlyMadeOnTheWay(before, after, path) && Passable(before, path)
    requires forall q :: OnTheWay(q, path) ==> q in after && !after[q].File?
    ensures Usable(after, path, false)
  {
  }

  lemma VisitedAfterMaking(destination: Path, entries: seq<Entry>, k: nat, before: Disk, after: Disk)
    requires k < |entries| && Visited(before, destination, entries, k, false)
    requires OnlyMadeOnTheWay(before, after, Counterpart(destination, entries[k].names))
    requires Usable(after, Counterpart(destination, entries[k].names), false)
    ensures Visited(after, destination, entries, k + 1, false)
  {
    forall j | 0 <= j < k + 1 && entries[j].tree.Branch? ensures Usable(after, Counterpart(destination, entries[j].names), false) {
      if j < k { UsableAfterMaking(before, after, Counterpart(destination, entries[k].names), Counterpart(destination, entries[j].names)); }
    }
  }

  lemma AheadAfterMaking(suffix: SuffixOf, destination: Path, entries: seq<Entry>, k: nat, before: Disk, after: Disk)
    requires WellShaped(suffix) && Proper(destination) && Descends(entries) && k < |entries|
    requires Ahead(before, suffix, destination, entries, k) && MissingOnly(before, Counterpart(destination, entries[k].names), destination)
    requires OnlyMadeOnTheWay(before, after, Counterpart(destination, entries[k].names))
    ensures Ahead(after, suffix, destination, entries, k + 1)
  {
    forall j | k < j < |entries| ensures Unused(after, suffix, destination, entries[j].names) {
      UnusedAfterMaking(suffix, destination, entries[k].names, entries[j].names, before, after);
    }
  }

  lemma DirectoryKeepsReady(suffix: SuffixOf, destination: Path, entries: seq<Entry>, k: nat, before: Disk, after: Disk)
    requires WellShaped(suffix) && Proper(destination) && Descends(entries) && k < |entries|
    requires Ready(before, suffix, destination, entries, k, false)
    requires OnlyMadeOnTheWay(before, after, Counterpart(destination, entries[k].names))
    requires forall q :: OnTheWay(q, Counterpart(destination, entries[k].names)) ==> q in after && !after[q].File?
    ensures Ready(after, suffix, destination, entries, k + 1, false)
  {
    ReadyIsPassable(before, suffix, destination, entries, k, false);
    NowUsable(before, after, Counterpart(destination, entries[k].names));
    VisitedAfterMaking(destination, entries, k, before, after);
    OnlyItselfIsMissing(before, suffix, destination, entries, k);
    AheadAfterMaking(suffix, destination, entries, k, before, after);
  }

  /** A dry run only looks. */
  lemma LookingKeepsReady(d: Disk, suffix: SuffixOf, destination: Path, entries: seq<Entry>, k: nat)
    requires Proper(destination) && Descends(entries) && k < |entries| && Ready(d, suffix, destination, entries, k, true)
    ensures Ready(d, suffix, destination, entries, k + 1, true)
  {
    ReadyIsPassable(d, suffix, destination, entries, k, true);
  }

  /** Nothing is where the file goes, and its directories are there. */
  ghost predicate Unobstructed(d: Disk, suffix: SuffixOf, path: Path) {
    && Free(d, suffix, path) && ParentsClear(d, path, false)
    && Dir(path) != "" && ClearWay(d, Dir(path)) && !OnTheWay(path, Dir(path))
  }

  lemma ReadyIsUnobstructed(d: Disk, suffix: SuffixOf, destination: Path, entries: seq<Entry>, k: nat, dryRun: bool)
    requires Proper(destination) && Descends(entries) && 0 < k < |entries| && Ready(d, suffix, destination, entries, k, dryRun)
    ensures Unobstructed(d, suffix, Counterpart(destination, entries[k].names))
  {
    var j, x := Parent(destination, entries, k);
    assert Unused(d, suffix, destination, entries[k].names);
    assert Passable(d, Counterpart(destination, entries[j].names));
  }

  /** Nothing but the file and its hidden files has changed. */
  ghost predicate OnlyFile(before: Disk, after: Disk, g: Target) {
    && (forall q :: q in before && q !in {g.path, g.pair.partial, g.pair.sidecar} ==> q in after && after[q] == before[q])
    && (forall q :: q in after && q !in {g.path, g.pair.partial, g.pair.sidecar} ==> q in before)
  }

  lemma PavedMakesNothing(owns: Path -> bool, before: Disk, after: Disk, g: Target)
    requires (forall p :: owns(p)) && OnlyTouches(owns, before, after, g) && Paved(before, Dir(g.path))
    ensures OnlyFile(before, after, g)
  {
    var files := {g.path, g.pair.partial, g.pair.sidecar};
    forall q | q in before && q !in files ensures q in after && after[q] == before[q] { assert owns(q); }
    forall q | q in after && q !in files ensures q in before { assert owns(q) && (q in before || OnTheWay(q, Dir(g.path))); }
  }

  lemma PavedStays(before: Disk, after: Disk, g: Target, path: Path)
    requires OnlyFile(before, after, g) && g.path !in before && g.pair.partial !in before && g.pair.sidecar !in before
    requires Paved(before, path) && Passable(before, path) && "/" !in {g.path, g.pair.partial, g.pair.sidecar}
    ensures Paved(after, path) && Passable(after, path)
  {
  }

  lemma UnusedAfterFile(suffix: SuffixOf, destination: Path, names: seq<string>, others: seq<string>, g: Target, before: Disk, after: Disk)
    requires WellShaped(suffix) && Proper(destination) && GoodNames(names) && Unhidden(names) && GoodNames(others) && Unhidden(others)
    requires names != [] && others != [] && others != names && Unused(before, suffix, destination, others)
    requires g.path == Counterpart(destination, names) && g.pair == PartialPaths(suffix, g.path, g.expected)
    requires OnlyFile(before, after, g)
    ensures Unused(after, suffix, destination, others)
  {
    var other := Counterpart(destination, others);
    assert Free(before, suffix, other);
    EntriesApart(suffix, destination, names, g.expected, others, g.expected);
    forall m ensures PartialPaths(suffix, other, m).partial !in after && PartialPaths(suffix, other, m).sidecar !in after {
      EntriesApart(suffix, destination, names, g.expected, others, m);
    }
  }

  lemma FileKeepsReady(suffix: SuffixOf, owns: Path -> bool, destination: Path, entries: seq<Entry>, k: nat, g: Target,
                       before: Disk, after: Disk)
    requires WellShaped(suffix) && Proper(destination) && Descends(entries) && 0 < k < |entries| && !entries[k].tree.Branch?
    requires Ready(before, suffix, destination, entries, k, false) && forall p :: owns(p)
    requires g.path == Counterpart(destination, entries[k].names) && g.pair == PartialPaths(suffix, g.path, g.expected)
    requires OnlyTouches(owns, before, after, g)
    ensures Ready(after, suffix, destination, entries, k + 1, false)
  {
    var p, x := Parent(destination, entries, k);
    assert Unused(before, suffix, destination, entries[k].names);
    assert Usable(before, Counterpart(destination, entries[p].names), false);
    PavedMakesNothing(owns, before, after, g);
    BelowIsLonger(suffix, destination, entries[k].names, g.expected);
    forall j | 0 <= j < k + 1 && entries[j].tree.Branch? ensures Usable(after, Counterpart(destination, entries[j].names), false) {
      assert Usable(before, Counterpart(destination, entries[j].names), false);
      PavedStays(before, after, g, Counterpart(destination, entries[j].names));
    }
    forall j | k < j < |entries| ensures Unused(after, suffix, destination, entries[j].names) {
      assert Unused(before, suffix, destination, entries[j].names);
      UnusedAfterFile(suffix, destination, entries[k].names, entries[j].names, g, before, after);
    }
  }

  // ---- The whole walk ----

  /** No faults, no other writers, every path can be looked at, and file names are
      not rewritten. */
  ghost predicate Smooth(s: FileStore, o: Options) {
    s.reliable && (forall p :: s.owns(p) && !s.unreadable(p)) && !o.fixMediaNames
  }

  lemma WalkDescends(tree: Tree)
    requires WellNamed(tree) && tree.Branch? && NoHiddenNames(tree)
    ensures Descends(Walk([], tree))
  {
    var entries := Walk([], tree);
    WalkNames([], tree);
    WalkUnhidden([], tree);
    WalkIsTree(tree);
    ParentsFirst([], tree);
    forall k | 0 < k < |entries| ensures HasParent(entries, k) {
      assert ParentBefore([], entries, k) && entries[0].names != entries[k].names;
      var j :| 0 <= j < k && entries[j].tree.Branch? && entries[j].names < entries[k].names && |entries[j].names| + 1 == |entries[k].names|;
      assert ParentOf(entries, j, k);
    }
  }

  /** The walk has met nothing in its way so far, and will meet nothing. */
  ghost predicate OnCourse(d: Disk, suffix: SuffixOf, destination: Path, entries: seq<Entry>, k: nat, dryRun: bool)
    requires k <= |entries|
  {
    WellShaped(suffix) && Proper(destination) && Descends(entries) && Ready(d, suffix, destination, entries, k, dryRun)
  }

  /** What a visit finds: a directory can be made, a file can be put in place. */
  lemma OnCourseMeans(d: Disk, suffix: SuffixOf, destination: Path, entries: seq<Entry>, k: nat, dryRun: bool)
    requires k < |entries|
    ensures OnCourse(d, suffix, destination, entries, k, dryRun) ==>
              var path := Counterpart(destination, entries[k].names);
              if entries[k].tree.Branch? then path != "" && ClearWay(d, path) else Unobstructed(d, suffix, path)
  {
    if OnCourse(d, suffix, destination, entries, k, dryRun) {
      CounterpartIsProper(destination, entries[k].names);
      ReadyIsPassable(d, suffix, destination, entries, k, dryRun);
      if !entries[k].tree.Branch? { ReadyIsUnobstructed(d, suffix, destination, entries, k, dryRun); }
    }
  }

  /** A directory visited, as MakeDirectory leaves it. */
  ghost predicate DirectoryVisit(before: Disk, after: Disk, path: Path, dryRun: bool) {
    && (forall q :: SameAt(before, after, q) || (!dryRun && MadeDirectory(before, after, q) && OnTheWay(q, path)))
    && (dryRun || forall q :: OnTheWay(q, path) ==> q in after && !after[q].File?)
  }

  lemma DirectoryStaysOnCourse(suffix: SuffixOf, destination: Path, entries: seq<Entry>, k: nat, dryRun: bool, before: Disk, after: Disk)
    requires k < |entries|
    ensures OnCourse(before, suffix, destination, entries, k, dryRun)
            && DirectoryVisit(before, after, Counterpart(destination, entries[k].names), dryRun) ==>
              OnCourse(after, suffix, destination, entries, k + 1, dryRun)
  {
    var path := Counterpart(destination, entries[k].names);
    if OnCourse(before, suffix, destination, entries, k, dryRun) && DirectoryVisit(before, after, path, dryRun) {
      if dryRun {
        Identical(before, after);
        LookingKeepsReady(before, suffix, destination, entries, k);
      } else {
        OnlyMade(before, after, path);
        DirectoryKeepsReady(suffix, destination, entries, k, before, after);
      }
    }
  }

  lemma Identical(before: Disk, after: Disk)
    requires forall q :: SameAt(before, after, q)
    ensures before == after
  {
    assert forall q :: q in before || q in after ==> SameAt(before, after, q);
    assert before.Keys == after.Keys;
  }

  lemma OnlyMade(before: Disk, after: Disk, path: Path)
    requires forall q :: SameAt(before, after, q) || (MadeDirectory(before, after, q) && OnTheWay(q, path))
    ensures OnlyMadeOnTheWay(before, after, path)
  {
    forall q | q in before ensures q in after && after[q] == before[q] { assert SameAt(before, after, q); }
    forall q | q in after && q !in before ensures after[q].Directory? && OnTheWay(q, path) {
      assert !SameAt(before, after, q);
    }
  }

  /** A file visited: put in place, or only looked at in a dry run. */
  ghost predicate FileVisit(owns: Path -> bool, suffix: SuffixOf, before: Disk, after: Disk, path: Path, g: Option<Target>, dryRun: bool) {
    match g
    case None => KeptBut(owns, before, after, {}) && (dryRun || path in after)
    case Some(t) => !dryRun && t.path == path && t.pair == PartialPaths(suffix, path, t.expected) && OnlyTouches(owns, before, after, t)
  }

  lemma FileStaysOnCourse(suffix: SuffixOf, owns: Path -> bool, destination: Path, entries: seq<Entry>, k: nat, dryRun: bool,
                          g: Option<Target>, before: Disk, after: Disk)
    requires k < |entries| && !entries[k].tree.Branch? && forall p :: owns(p)
    ensures OnCourse(before, suffix, destination, entries, k, dryRun)
            && FileVisit(owns, suffix, before, after, Counterpart(destination, entries[k].names), g, dryRun) ==>
              OnCourse(after, suffix, destination, entries, k + 1, dryRun)
  {
    if OnCourse(before, suffix, destination, entries, k, dryRun)
       && FileVisit(owns, suffix, before, after, Counterpart(destination, entries[k].names), g, dryRun) {
      if g.Some? {
        FileKeepsReady(suffix, owns, destination, entries, k, g.value, before, after);
      } else {
        EqualDisks(owns, before, after);
        assert Unused(before, suffix, destination, entries[k].names);
        LookingKeepsReady(before, suffix, destination, entries, k);
      }
    }
  }

  /** What holds of a walk that began on course, without faults. */
  ghost predicate StillOnCourse(smooth: bool, start: Disk, now: Disk, suffix: SuffixOf, destination: Path, entries: seq<Entry>, k: nat,
                                dryRun: bool)
    requires k <= |entries|
  {
    smooth && OnCourse(start, suffix, destination, entries, 0, dryRun) ==>
      OnCourse(now, suffix, destination, entries, k, dryRun) && PlainEntries(entries, k)
  }

  ghost predicate DirectoriesStand(d: Disk, destination: Path, entries: seq<Entry>) {
    forall k :: 0 <= k < |entries| && entries[k].tree.Branch? ==> Counterpart(destination, entries[k].names) in d
  }

  /** At the end every directory of the tree is there. */
  lemma OnCourseToTheEnd(d: Disk, suffix: SuffixOf, destination: Path, entries: seq<Entry>, dryRun: bool)
    ensures OnCourse(d, suffix, destination, entries, |entries|, dryRun) && !dryRun ==>
              DirectoriesStand(d, destination, entries)
  {
    if OnCourse(d, suffix, destination, entries, |entries|, dryRun) && !dryRun {
      forall k | 0 <= k < |entries| && entries[k].tree.Branch? ensures Counterpart(destination, entries[k].names) in d {
        var path := Counterpart(destination, entries[k].names);
        CounterpartIsProper(destination, entries[k].names);
        assert Usable(d, path, false);
        assert OnTheWay(path, path);
      }
    }
  }

  /** With nothing in its way, a file's transfer has nothing to fail on. */
  lemma UnobstructedMeans(f: Format, d: Disk, suffix: SuffixOf, path: Path, name: string, content: Bytes, g: Option<Target>, o: Options)
    ensures Unobstructed(d, suffix, path) && !o.fixMediaNames ==>
              && Resolution(d, path, name, o) == path && Takeable(d, path, name, o)
              && (g.Some? && g.value.path == path && g.value.pair == PartialPaths(suffix, path, g.value.expected) ==>
                    && Clear(d, g.value, o) && Completes(f, d, g.value.pair, content, g.value.expected, o.resume)
                    && Download.Accepts(f, d, g.value.pair, content, g.value.expected, o.resume))
  {
  }

  lemma SmoothIsAlone(s: FileStore, source: SourceFile, suffix: SuffixOf, path: Path, o: Options, local: bool)
    ensures Smooth(s, o) && source.reliable && source.stable && Unobstructed(s.disk, suffix, path) ==>
              Alone(s, source, path, o, local) && (forall p :: !s.unreadable(p))
  {
  }

  /** The tree holds nothing but files and directories. */
  ghost predicate PlainTree(tree: Tree) {
    forall names :: At(tree, names).Some? ==> At(tree, names).value.Leaf? || At(tree, names).value.Branch?
  }

  predicate PlainEntries(entries: seq<Entry>, n: nat)
    requires n <= |entries|
  {
    forall k :: 0 <= k < n ==> entries[k].tree.Leaf? || entries[k].tree.Branch?
  }

  lemma PlainWalk(tree: Tree)
    requires WellNamed(tree)
    ensures PlainTree(tree) <==> PlainEntries(Walk([], tree), |Walk([], tree)|)
  {
    var entries := Walk([], tree);
    WalkIsTree(tree);
    if PlainTree(tree) {
      forall k | 0 <= k < |entries| ensures entries[k].tree.Leaf? || entries[k].tree.Branch? {
        assert At(tree, entries[k].names) == Some(entries[k].tree);
      }
    }
    if PlainEntries(entries, |entries|) {
      forall names | At(tree, names).Some? ensures At(tree, names).value.Leaf? || At(tree, names).value.Branch? {
        var k :| 0 <= k < |entries| && entries[k] == Entry(names, At(tree, names).value);
        assert entries[k].tree.Leaf? || entries[k].tree.Branch?;
      }
    }
  }

  /** Where a walk into a fresh destination begins. */
  lemma FreshIsOnCourse(d: Disk, suffix: SuffixOf, destination: Path, tree: Tree, dryRun: bool, local: bool)
    requires WellShaped(suffix) && WellNamed(tree) && tree.Branch?
    ensures NoHiddenNames(tree) && Fresh(d, destination) ==>
              OnCourse(d, suffix, destination, Walk([], tree), 0, dryRun) && ParentsClear(d, destination, local)
  {
    if NoHiddenNames(tree) && Fresh(d, destination) {
      WalkDescends(tree);
      FreshIsReady(d, suffix, destination, Walk([], tree), dryRun);
      PassableParents(d, destination, local);
    }
  }
}
