/** The hidden names of a transfer's partial file and sidecar. */
module PartialNames {
  import opened SlashPath
  import opened FileStores
  import opened PartialState

  /** Sixteen hexadecimal digits of a hash over the destination, the source size
      and the source prefix digest; a parameter, and only its shape matters. */
  type SuffixOf = (Path, nat, Digest) -> string

  ghost predicate WellShaped(suffix: SuffixOf) {
    forall d, n, h {:trigger suffix(d, n, h)} :: |suffix(d, n, h)| == 16 && Plain(suffix(d, n, h))
  }

  function HiddenName(base: string, suffix: string): string {
    "." + base + ".vericopy-" + suffix + ".partial"
  }

  function PartialPaths(suffix: SuffixOf, destination: Path, m: Metadata): Pair {
    var (directory, base) := Split(destination);
    var partial := Join(directory, HiddenName(base, suffix(destination, m.sourceSize, m.prefixSHA256)));
    Pair(partial, partial + ".json")
  }

  ghost predicate CleanPath(p: Path) {
    Clean(p) == p
  }

  // ---- The shape of the hidden names ----

  predicate Ordinary(part: string) {
    part != "" && part != "." && part != ".." && Plain(part)
  }

  lemma HiddenNameIsOrdinary(base: string, suffix: string)
    requires Plain(base) && Plain(suffix)
    ensures Ordinary(HiddenName(base, suffix))
  {
    var name := HiddenName(base, suffix);
    assert |name| >= 19;
  }

  lemma {:induction false} JoinedSnoc(parts: seq<string>, last: string)
    ensures Joined(parts + [last]) == if parts == [] then last else Joined(parts) + "/" + last
  {
    if |parts| == 1 {
      assert (parts + [last])[1..] == [last];
    } else if |parts| > 1 {
      assert (parts + [last])[1..] == parts[1..] + [last];
      JoinedSnoc(parts[1..], last);
    }
  }

  /** What stands before the last component of a clean path. */
  function Lead(rooted: bool, init: seq<string>): string {
    (if rooted then "/" else "") + if init == [] then "" else Joined(init) + "/"
  }

  lemma SplitAt(lead: string, last: string)
    requires Plain(last) && (lead == "" || lead[|lead| - 1] == '/')
    ensures Split(lead + last) == (lead, last)
  {
    var s := lead + last;
    var i := AfterLast(s, '/');
    assert forall j :: |lead| <= j < |s| ==> s[j] == last[j - |lead|];
    assert lead != "" ==> s[|lead| - 1] == '/';
    assert i == |lead|;
  }

  /** The directory of a path is what stands before its last component, cleaned. */
  lemma DirMeans(directory: string, name: string)
    requires Plain(name)
    ensures Dir(name) == "."
    ensures directory != "" ==> Dir(directory + "/" + name) == Clean(directory)
    ensures Dir("/" + name) == "/"
  {
    SplitAt("", name);
    assert "" + name == name;
    SplitAt("/", name);
    assert Segments("/") == ["", ""];
    assert Reduce(true, ["", ""], []) == Reduce(true, [""], []) == [];
    SplitAt(directory + "/", name);
    SplitConcat(directory, '/', "", IS_SLASH);
    assert directory + "/" == directory + ['/'] + "";
    if directory != "" {
      var rooted := directory[0] == '/';
      ReduceConcat(rooted, Segments(directory), [""], []);
      assert Reduce(rooted, [""], Reduce(rooted, Segments(directory), [])) == Reduce(rooted, Segments(directory), []);
    }
  }

  lemma Reassociate(a: string, b: string, c: string, d: string)
    ensures a + (b + c + d) == (a + (b + c)) + d
    ensures a + (b + c) == (a + b) + c
  {
  }

  lemma LeadAndLast(rooted: bool, init: seq<string>, last: string)
    ensures Rendered(rooted, init + [last]) == Lead(rooted, init) + last
    ensures Lead(rooted, init) == "" || Lead(rooted, init)[|Lead(rooted, init)| - 1] == '/'
  {
    var root := if rooted then "/" else "";
    JoinedSnoc(init, last);
    if init == [] {
      assert root + "" == root;
    } else {
      Reassociate(root, Joined(init), "/", last);
      assert "" + Joined(init + [last]) == Joined(init + [last]);
    }
  }

  /** The directory of a clean path is made of reduced components. */
  lemma CleanDirectory(p: Path) returns (rooted: bool, init: seq<string>)
    requires CleanPath(p)
    ensures Normal(rooted, init) && Split(p).0 == Lead(rooted, init)
  {
    CleanIdempotent(p);
    rooted := p[0] == '/';
    var stack := Reduce(rooted, Segments(p), []);
    PartsComeFrom(p, IS_SLASH);
    ReduceIsNormal(rooted, Segments(p), []);
    if stack == [] {
      init := [];
      SplitAt(Lead(rooted, []), if rooted then "" else ".");
    } else {
      init := stack[..|stack| - 1];
      var last := stack[|stack| - 1];
      assert stack == init + [last];
      LeadAndLast(rooted, init, last);
      SplitAt(Lead(rooted, init), last);
    }
  }

  lemma CleanOfName(name: string)
    requires Ordinary(name)
    ensures Clean(name) == name
  {
    SplitPlain(name, IS_SLASH);
    assert Reduce(false, [name], []) == Reduce(false, [], [] + [name]);
  }

  lemma AppendedReduces(rooted: bool, directory: string, name: string)
    requires Ordinary(name)
    ensures Reduce(rooted, Segments(directory + ['/'] + name), []) == Reduce(rooted, Segments(directory), []) + [name]
  {
    var stack := Reduce(rooted, Segments(directory), []);
    SplitPlain(name, IS_SLASH);
    SplitConcat(directory, '/', name, IS_SLASH);
    ReduceConcat(rooted, Segments(directory), [name], []);
    assert Reduce(rooted, [name], stack) == Reduce(rooted, [], stack + [name]);
  }

  lemma JoinOnto(directory: string, name: string)
    requires Ordinary(name) && directory != ""
    ensures var rooted := directory[0] == '/';
            Join(directory, name) == Lead(rooted, Reduce(rooted, Segments(directory), [])) + name
  {
    var rooted := directory[0] == '/';
    AppendedReduces(rooted, directory, name);
    LeadAndLast(rooted, Reduce(rooted, Segments(directory), []), name);
    assert directory + "/" + name == directory + ['/'] + name;
  }

  /** Joining an ordinary name onto any directory keeps that name as the last component. */
  lemma JoinEndsWith(directory: string, name: string)
    requires Ordinary(name)
    ensures Split(Join(directory, name)).1 == name
    ensures directory == "" ==> Join(directory, name) == name
    ensures directory != "" ==>
              var rooted := directory[0] == '/';
              Join(directory, name) == Lead(rooted, Reduce(rooted, Segments(directory), [])) + name
  {
    if directory == "" {
      CleanOfName(name);
      SplitAt("", name);
      assert "" + name == name;
    } else {
      var rooted := directory[0] == '/';
      var lead := Lead(rooted, Reduce(rooted, Segments(directory), []));
      JoinOnto(directory, name);
      LeadAndLast(rooted, Reduce(rooted, Segments(directory), []), name);
      SplitAt(lead, name);
    }
  }

  /** A lead reduces to its own components. */
  lemma LeadReduces(rooted: bool, init: seq<string>)
    requires Normal(rooted, init)
    ensures var lead := Lead(rooted, init);
            lead != "" ==> (lead[0] == '/') == rooted && Reduce(rooted, Segments(lead), []) == init
    ensures Lead(rooted, init) == "" ==> init == []
  {
    if init == [] {
      assert Segments("/") == ["", ""];
      assert ["", ""][1..] == [""];
      assert Reduce(true, [""], []) == [];
    } else {
      var e := Rendered(rooted, init);
      assert Lead(rooted, init) == e + ['/'] + "";
      RenderedSegments(rooted, init);
      SplitConcat(e, '/', "", IS_SLASH);
      ReduceConcat(rooted, Segments(e), [""], []);
      assert Reduce(rooted, [""], init) == init;
    }
  }

  /** Beside a clean path: an ordinary name in the same directory. */
  lemma JoinBeside(p: Path, name: string)
    requires CleanPath(p) && Ordinary(name)
    ensures Join(Split(p).0, name) == Split(p).0 + name
  {
    var rooted, init := CleanDirectory(p);
    LeadReduces(rooted, init);
    JoinEndsWith(Split(p).0, name);
  }

  lemma SplitParts(p: Path)
    ensures p == Split(p).0 + Split(p).1 && Plain(Split(p).1)
    ensures Split(p).0 == "" || Split(p).0[|Split(p).0| - 1] == '/'
  {
    var i := AfterLast(p, '/');
    assert forall j :: i <= j < |p| ==> p[i..][j - i] == p[j];
  }

  /** Where the hidden files of a clean destination live: beside it, under a
      name that shows the destination's own. */
  lemma PartialShape(suffix: SuffixOf, destination: Path, m: Metadata)
    requires WellShaped(suffix) && CleanPath(destination)
    ensures var (directory, base) := Split(destination);
            var s := suffix(destination, m.sourceSize, m.prefixSHA256);
            var p := PartialPaths(suffix, destination, m);
            && p.partial == directory + ("." + base + ".vericopy-" + s + ".partial")
            && p.sidecar == p.partial + ".json"
  {
    SplitParts(destination);
    var (directory, base) := Split(destination);
    var s := suffix(destination, m.sourceSize, m.prefixSHA256);
    HiddenNameIsOrdinary(base, s);
    JoinBeside(destination, HiddenName(base, s));
  }

  // ---- Distinctness ----

  lemma SidecarName(partial: Path, hidden: string)
    requires Split(partial).1 == hidden && Plain(hidden)
    ensures Split(partial + ".json").1 == hidden + ".json"
  {
    SplitParts(partial);
    SplitAt(Split(partial).0, hidden + ".json");
    assert partial + ".json" == Split(partial).0 + (hidden + ".json");
  }

  lemma HiddenLength(base: string, suffix: string)
    ensures |HiddenName(base, suffix)| == |base| + |suffix| + 19
  {
  }

  lemma LastComponents(directory: string, base: string, s: string)
    requires Plain(base) && Plain(s)
    ensures var partial := Join(directory, HiddenName(base, s));
            Split(partial).1 == HiddenName(base, s) && Split(partial + ".json").1 == HiddenName(base, s) + ".json"
  {
    HiddenNameIsOrdinary(base, s);
    JoinEndsWith(directory, HiddenName(base, s));
    SidecarName(Join(directory, HiddenName(base, s)), HiddenName(base, s));
  }

  /** The last components of the two hidden files, whatever the destination. */
  lemma HiddenNames(suffix: SuffixOf, destination: Path, m: Metadata)
    requires WellShaped(suffix)
    ensures var p := PartialPaths(suffix, destination, m);
            var hidden := HiddenName(Split(destination).1, suffix(destination, m.sourceSize, m.prefixSHA256));
            Split(p.partial).1 == hidden && Split(p.sidecar).1 == hidden + ".json"
  {
    SplitParts(destination);
    LastComponents(Split(destination).0, Split(destination).1, suffix(destination, m.sourceSize, m.prefixSHA256));
  }

  /** The hidden files of any destination are neither the destination nor each other. */
  lemma HiddenNamesDiffer(suffix: SuffixOf, destination: Path, m: Metadata)
    requires WellShaped(suffix)
    ensures var p := PartialPaths(suffix, destination, m);
            p.partial != destination && p.sidecar != destination && p.partial != p.sidecar
  {
    HiddenNames(suffix, destination, m);
    HiddenLength(Split(destination).1, suffix(destination, m.sourceSize, m.prefixSHA256));
  }

  /** The hidden files are never among the directories on the way to the destination. */
  lemma HiddenFilesAreDeeper(suffix: SuffixOf, destination: Path, m: Metadata)
    requires WellShaped(suffix)
    ensures var p := PartialPaths(suffix, destination, m);
            |Dir(destination)| < |p.partial| < |p.sidecar|
  {
    SplitParts(destination);
    var (directory, base) := Split(destination);
    var s := suffix(destination, m.sourceSize, m.prefixSHA256);
    HiddenNameIsOrdinary(base, s);
    HiddenLength(base, s);
    JoinDeepens(directory, HiddenName(base, s));
  }

  lemma JoinDeepens(directory: string, name: string)
    requires Ordinary(name) && |name| >= 2
    ensures |Clean(directory)| < |Join(directory, name)|
  {
    JoinEndsWith(directory, name);
  }

  lemma HiddenNameInjective(base1: string, s1: string, base2: string, s2: string)
    requires |s1| == |s2| && HiddenName(base1, s1) == HiddenName(base2, s2)
    ensures base1 == base2
  {
    var n1, n2 := HiddenName(base1, s1), HiddenName(base2, s2);
    assert |n1| == |base1| + |s1| + 19 && |n2| == |base2| + |s2| + 19;
    assert n1[1..|base1| + 1] == base1 && n2[1..|base2| + 1] == base2;
  }

  lemma Endings(suffix: SuffixOf, destination: Path, m: Metadata)
    requires WellShaped(suffix) && CleanPath(destination)
    ensures var p := PartialPaths(suffix, destination, m);
            && |p.partial| > |destination| && p.partial[|p.partial| - 1] == 'l'
            && |p.sidecar| > |p.partial| && p.sidecar[|p.sidecar| - 1] == 'n'
  {
    PartialShape(suffix, destination, m);
    SplitParts(destination);
    var (directory, base) := Split(destination);
    var s := suffix(destination, m.sourceSize, m.prefixSHA256);
    var name := HiddenName(base, s);
    assert |name| == |base| + |s| + 19 && name[|name| - 1] == 'l';
  }

  lemma PartialsDiffer(dir1: string, base1: string, s1: string, dir2: string, base2: string, s2: string)
    requires Plain(HiddenName(base1, s1)) && Plain(HiddenName(base2, s2)) && |s1| == |s2|
    requires dir1 == "" || dir1[|dir1| - 1] == '/'
    requires dir2 == "" || dir2[|dir2| - 1] == '/'
    requires dir1 + base1 != dir2 + base2
    ensures dir1 + HiddenName(base1, s1) != dir2 + HiddenName(base2, s2)
  {
    SplitAt(dir1, HiddenName(base1, s1));
    SplitAt(dir2, HiddenName(base2, s2));
    if HiddenName(base1, s1) == HiddenName(base2, s2) {
      HiddenNameInjective(base1, s1, base2, s2);
    }
  }

  lemma PartialPathsDiffer(suffix: SuffixOf, d1: Path, m1: Metadata, d2: Path, m2: Metadata)
    requires WellShaped(suffix) && CleanPath(d1) && CleanPath(d2) && d1 != d2
    ensures PartialPaths(suffix, d1, m1).partial != PartialPaths(suffix, d2, m2).partial
  {
    PartialShape(suffix, d1, m1);
    PartialShape(suffix, d2, m2);
    SplitParts(d1);
    SplitParts(d2);
    var s1, s2 := suffix(d1, m1.sourceSize, m1.prefixSHA256), suffix(d2, m2.sourceSize, m2.prefixSHA256);
    HiddenNameIsOrdinary(Split(d1).1, s1);
    HiddenNameIsOrdinary(Split(d2).1, s2);
    PartialsDiffer(Split(d1).0, Split(d1).1, s1, Split(d2).0, Split(d2).1, s2);
  }

  /** Transfers to different clean destinations never share a hidden file, and a
      partial file is never a sidecar, whatever the two sources are and whether
      or not the suffixes collide. */
  lemma PairsAreDisjoint(suffix: SuffixOf, d1: Path, m1: Metadata, d2: Path, m2: Metadata)
    requires WellShaped(suffix) && CleanPath(d1) && CleanPath(d2) && d1 != d2
    ensures var p, q := PartialPaths(suffix, d1, m1), PartialPaths(suffix, d2, m2);
            {p.partial, p.sidecar} !! {q.partial, q.sidecar}
  {
    var p, q := PartialPaths(suffix, d1, m1), PartialPaths(suffix, d2, m2);
    Endings(suffix, d1, m1);
    Endings(suffix, d2, m2);
    PartialPathsDiffer(suffix, d1, m1, d2, m2);
    assert p.partial == p.sidecar[..|p.sidecar| - 5] && q.partial == q.sidecar[..|q.sidecar| - 5];
  }

  // ---- Two workers on one file system ----

  predicate InPair(p: Path, pair: Pair) {
    p == pair.partial || p == pair.sidecar
  }

  /** A hidden file that a transfer to `c` may use, whatever its source is. */
  ghost predicate HiddenFor(suffix: SuffixOf, c: Path, p: Path) {
    exists m :: InPair(p, PartialPaths(suffix, c, m))
  }

  /** The files a transfer may change when it may end up at any of `spots`. */
  ghost predicate InTerritory(suffix: SuffixOf, spots: set<Path>, p: Path) {
    p in spots || exists c :: c in spots && HiddenFor(suffix, c, p)
  }

  lemma HiddenForOne(suffix: SuffixOf, c1: Path, c2: Path, p: Path)
    requires WellShaped(suffix) && CleanPath(c1) && CleanPath(c2) && c1 != c2
    ensures !(HiddenFor(suffix, c1, p) && HiddenFor(suffix, c2, p))
  {
    forall m1, m2 | InPair(p, PartialPaths(suffix, c1, m1)) ensures !InPair(p, PartialPaths(suffix, c2, m2)) {
      PairsAreDisjoint(suffix, c1, m1, c2, m2);
    }
  }

  /** What one operation of a worker may do when its destination resolved to `d`:
      change its own three files, and make a missing directory on the way. */
  ghost predicate OwnStep(suffix: SuffixOf, d: Path, before: Disk, after: Disk) {
    forall p :: || SameAt(before, after, p)
                || InTerritory(suffix, {d}, p)
                || (MadeDirectory(before, after, p) && OnTheWay(p, Dir(d)))
  }

  /** `d` and its hidden files are none of the other transfer's files, and those
      of the other's files that are directories on the way to `d` exist. */
  ghost predicate Apart(suffix: SuffixOf, d: Path, spots: set<Path>, before: Disk) {
    && !InTerritory(suffix, spots, d)
    && (forall c :: c in spots ==> !HiddenFor(suffix, d, c))
    && (forall p :: InTerritory(suffix, spots, p) && OnTheWay(p, Dir(d)) ==> p in before)
  }

  /** Every possible operation of the first worker leaves the second one's files alone. */
  ghost predicate Harmless(suffix: SuffixOf, d: Path, owns2: Path -> bool, before: Disk) {
    forall after :: OwnStep(suffix, d, before, after) ==> KeptBut(owns2, before, after, {})
  }

  lemma ApartIsHarmless(suffix: SuffixOf, d: Path, spots: set<Path>, owns2: Path -> bool, before: Disk)
    requires WellShaped(suffix) && CleanPath(d) && forall c :: c in spots ==> CleanPath(c)
    requires forall p :: owns2(p) <==> InTerritory(suffix, spots, p)
    requires Apart(suffix, d, spots, before)
    ensures Harmless(suffix, d, owns2, before)
  {
    forall after, p | OwnStep(suffix, d, before, after) && owns2(p) ensures SameAt(before, after, p) {
      if InTerritory(suffix, {d}, p) && p != d && p !in spots {
        var c :| c in spots && HiddenFor(suffix, c, p);
        HiddenForOne(suffix, c, d, p);
      }
    }
  }

  lemma HarmlessIsApart(suffix: SuffixOf, d: Path, spots: set<Path>, owns2: Path -> bool, before: Disk)
    requires forall p :: owns2(p) <==> InTerritory(suffix, spots, p)
    requires Harmless(suffix, d, owns2, before)
    ensures Apart(suffix, d, spots, before)
  {
    forall p | InTerritory(suffix, {d}, p) ensures !InTerritory(suffix, spots, p) {
      var after := if p in before then before - {p} else before[p := Directory(0)];
      assert OwnStep(suffix, d, before, after) && !SameAt(before, after, p);
    }
    assert InTerritory(suffix, {d}, d);
    forall c | c in spots ensures !HiddenFor(suffix, d, c) {
      assert InTerritory(suffix, spots, c);
      assert HiddenFor(suffix, d, c) ==> InTerritory(suffix, {d}, c);
    }
    forall p | OnTheWay(p, Dir(d)) && p !in before ensures !InTerritory(suffix, spots, p) {
      var after := before[p := Directory(0)];
      assert OwnStep(suffix, d, before, after) && !SameAt(before, after, p);
    }
  }

  /** The operations of a worker whose destination resolved to `d` are steps that
      the contracts of a second worker, which owns the files of the spots it may
      resolve to, allow its surroundings to take, exactly when the two are apart. */
  lemma WorkersDoNotInterfere(suffix: SuffixOf, d: Path, spots: set<Path>, owns2: Path -> bool, before: Disk)
    requires WellShaped(suffix) && CleanPath(d) && forall c :: c in spots ==> CleanPath(c)
    requires forall p :: owns2(p) <==> InTerritory(suffix, spots, p)
    ensures Harmless(suffix, d, owns2, before) <==> Apart(suffix, d, spots, before)
  {
    if Apart(suffix, d, spots, before) { ApartIsHarmless(suffix, d, spots, owns2, before); }
    if Harmless(suffix, d, owns2, before) { HarmlessIsApart(suffix, d, spots, owns2, before); }
  }

  // ---- When two transfers are apart ----

  lemma HiddenAreLonger(suffix: SuffixOf, c: Path, p: Path)
    requires WellShaped(suffix) && CleanPath(c) && HiddenFor(suffix, c, p)
    ensures |p| > |c| && |p| > |Dir(c)|
  {
    var m :| InPair(p, PartialPaths(suffix, c, m));
    Endings(suffix, c, m);
    HiddenFilesAreDeeper(suffix, c, m);
  }

  lemma DeeperThanDirectory(d: Path)
    requires CleanPath(d) && Ordinary(Split(d).1) && d != "."
    ensures |d| > |Dir(d)| || Split(d).0 == ""
    ensures Split(d).0 == "" ==> Dir(d) == "."
  {
    SplitParts(d);
    var rooted, init := CleanDirectory(d);
    LeadReduces(rooted, init);
  }

  /** Two different files of one directory, neither a hidden file of the other. */
  lemma SiblingsAreApart(suffix: SuffixOf, d1: Path, d2: Path, before: Disk)
    requires WellShaped(suffix) && CleanPath(d1) && CleanPath(d2) && d1 != d2
    requires Split(d1).0 == Split(d2).0 && Ordinary(Split(d2).1)
    requires !HiddenFor(suffix, d1, d2) && !HiddenFor(suffix, d2, d1)
    ensures Apart(suffix, d1, {d2}, before)
  {
    SplitParts(d2);
    DeeperThanDirectory(d2);
    forall p | InTerritory(suffix, {d2}, p) ensures !OnTheWay(p, Dir(d1)) {
      if p != d2 { HiddenAreLonger(suffix, d2, p); }
    }
  }

  /** A file inside a clean directory. */
  lemma InsideClean(directory: Path, name: string)
    requires CleanPath(directory) && Ordinary(name)
    ensures var d := Join(directory, name);
            && CleanPath(d) && Dir(d) == directory && d != directory && Split(d).1 == name
            && Split(d).0 == Lead(directory != "" && directory[0] == '/', Reduce(directory[0] == '/', Segments(directory), []))
  {
    CleanIdempotent(directory);
    var rooted := directory[0] == '/';
    var stack := Reduce(rooted, Segments(directory), []);
    PartsComeFrom(directory, IS_SLASH);
    ReduceIsNormal(rooted, Segments(directory), []);
    JoinEndsWith(directory, name);
    LeadAndLast(rooted, stack, name);
    SplitAt(Lead(rooted, stack), name);
    LeadReduces(rooted, stack);
    CleanInside(directory, name);
    LeadLongEnough(rooted, stack, name);
  }

  lemma CleanInside(directory: Path, name: string)
    requires directory != "" && Ordinary(name)
    ensures CleanPath(Join(directory, name))
  {
    CleanIdempotent(directory + "/" + name);
  }

  lemma LeadLongEnough(rooted: bool, stack: seq<string>, name: string)
    requires Ordinary(name)
    ensures Lead(rooted, stack) + name != Rendered(rooted, stack)
  {
    if stack == [] && !rooted {
      assert "" + name == name;
    }
  }

  /** Two transfers into one existing directory, each of which also inspects that
      directory: different names, none of the form another one hides under. */
  lemma IntoOneDirectory(suffix: SuffixOf, directory: Path, name1: string, name2: string, before: Disk)
    requires WellShaped(suffix) && CleanPath(directory) && Ordinary(name1) && Ordinary(name2) && name1 != name2
    requires directory in before
    requires var d1, d2 := Join(directory, name1), Join(directory, name2);
             !HiddenFor(suffix, d1, d2) && !HiddenFor(suffix, d2, d1) && !HiddenFor(suffix, directory, d1)
    ensures Apart(suffix, Join(directory, name1), {directory, Join(directory, name2)}, before)
  {
    var d1, d2 := Join(directory, name1), Join(directory, name2);
    InsideClean(directory, name1);
    InsideClean(directory, name2);
    SiblingsAreApart(suffix, d1, d2, before);
    forall p | HiddenFor(suffix, d1, p) ensures p != directory {
      HiddenAreLonger(suffix, d1, p);
    }
    forall p | HiddenFor(suffix, directory, p) ensures !OnTheWay(p, Dir(d1)) {
      HiddenAreLonger(suffix, directory, p);
    }
    forall p | InTerritory(suffix, {directory, d2}, p) ensures p == directory || HiddenFor(suffix, directory, p) || InTerritory(suffix, {d2}, p) {
    }
  }
}
