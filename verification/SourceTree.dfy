/** Directory trees, the order in which they are walked, and where each of their
    files ends up on the other side. */
module SourceTree {
  import opened Basics
  import opened FileStores
  import opened PartialNames

  datatype Tree =
    | Leaf(data: Content, mtime: Timestamp, mode: nat)
    | Branch(dirMode: nat, dirTime: Timestamp, children: Forest)
    | Symlink
    | Special

  datatype Forest = Empty | Node(name: string, tree: Tree, rest: Forest)

  /** A path below the root of the walk, as its components, and what is there. */
  datatype Entry = Entry(names: seq<string>, tree: Tree)

  /** A directory before its children, siblings in order. */
  function Walk(names: seq<string>, t: Tree): seq<Entry>
    decreases t
  {
    [Entry(names, t)] + if t.Branch? then WalkForest(names, t.children) else []
  }

  function WalkForest(names: seq<string>, c: Forest): seq<Entry>
    decreases c
  {
    match c
    case Empty => []
    case Node(name, tree, rest) => Walk(names + [name], tree) + WalkForest(names, rest)
  }

  /** Files that are neither directories nor links. */
  function Count(t: Tree): nat {
    match t
    case Leaf(_, _, _) => 1
    case Branch(_, _, children) => CountForest(children)
    case Symlink => 0
    case Special => 1
  }

  function CountForest(c: Forest): nat {
    if c.Empty? then 0 else Count(c.tree) + CountForest(c.rest)
  }

  predicate Counted(e: Entry) {
    e.tree.Leaf? || e.tree.Special?
  }

  function Tally(entries: seq<Entry>): nat {
    if entries == [] then 0
    else Tally(entries[..|entries| - 1]) + if Counted(entries[|entries| - 1]) then 1 else 0
  }

  lemma {:induction false} TallyConcat(a: seq<Entry>, b: seq<Entry>)
    ensures Tally(a + b) == Tally(a) + Tally(b)
    decreases |b|
  {
    if b == [] {
      assert a + b == a;
    } else {
      var init := b[..|b| - 1];
      assert (a + b)[..|a + b| - 1] == a + init;
      TallyConcat(a, init);
    }
  }

  /** What a walk counts is what the tree holds. */
  lemma {:induction false} WalkCounts(names: seq<string>, t: Tree)
    ensures Tally(Walk(names, t)) == Count(t)
    decreases t
  {
    var root := [Entry(names, t)];
    assert Tally(root) == if Counted(root[0]) then 1 else 0 by { assert root[..0] == []; }
    if t.Branch? {
      WalkForestCounts(names, t.children);
      TallyConcat(root, WalkForest(names, t.children));
    } else {
      assert Walk(names, t) == root;
    }
  }

  lemma {:induction false} WalkForestCounts(names: seq<string>, c: Forest)
    ensures Tally(WalkForest(names, c)) == CountForest(c)
    decreases c
  {
    if c.Node? {
      WalkCounts(names + [c.name], c.tree);
      WalkForestCounts(names, c.rest);
      TallyConcat(Walk(names + [c.name], c.tree), WalkForest(names, c.rest));
    }
  }

  // ---- Distinct names ----

  /** A name of the form this program gives its own hidden files. */
  ghost predicate HiddenForm(name: string) {
    exists base, suffix :: IsHiddenName(name, base, suffix)
  }

  predicate IsHiddenName(name: string, base: string, suffix: string) {
    |suffix| == 16 && (name == HiddenName(base, suffix) || name == HiddenName(base, suffix) + ".json")
  }

  predicate NameIn(name: string, c: Forest) {
    c.Node? && (name == c.name || NameIn(name, c.rest))
  }

  /** Siblings have different, ordinary names. */
  predicate WellNamed(t: Tree) {
    t.Branch? ==> WellNamedForest(t.children)
  }

  predicate WellNamedForest(c: Forest) {
    c.Node? ==> Ordinary(c.name) && !NameIn(c.name, c.rest) && WellNamed(c.tree) && WellNamedForest(c.rest)
  }

  ghost predicate NoHiddenNames(t: Tree) {
    t.Branch? ==> NoHiddenNamesForest(t.children)
  }

  ghost predicate NoHiddenNamesForest(c: Forest) {
    c.Node? ==> !HiddenForm(c.name) && NoHiddenNames(c.tree) && NoHiddenNamesForest(c.rest)
  }

  /** No file's path is a prefix of another entry's path. */
  ghost predicate Separate(entries: seq<Entry>) {
    forall i, j :: 0 <= i < |entries| && 0 <= j < |entries| && i != j && !entries[i].tree.Branch? ==>
                     !(entries[i].names <= entries[j].names)
  }

  ghost predicate Below(names: seq<string>, entries: seq<Entry>) {
    forall i :: 0 <= i < |entries| ==> names < entries[i].names
  }

  lemma {:induction false} WalkIsSeparate(names: seq<string>, t: Tree)
    requires WellNamed(t)
    ensures Separate(Walk(names, t))
    ensures forall i :: 0 <= i < |Walk(names, t)| ==> names <= Walk(names, t)[i].names
    decreases t
  {
    if t.Branch? {
      WalkForestIsSeparate(names, t.children);
      var rest := WalkForest(names, t.children);
      assert forall i :: 0 < i < |Walk(names, t)| ==> Walk(names, t)[i] == rest[i - 1];
    }
  }

  lemma {:induction false} WalkForestIsSeparate(names: seq<string>, c: Forest)
    requires WellNamedForest(c)
    ensures Separate(WalkForest(names, c)) && Below(names, WalkForest(names, c))
    ensures forall i :: 0 <= i < |WalkForest(names, c)| ==> NameIn(WalkForest(names, c)[i].names[|names|], c)
    decreases c
  {
    if c.Node? {
      var first, rest := Walk(names + [c.name], c.tree), WalkForest(names, c.rest);
      WalkIsSeparate(names + [c.name], c.tree);
      WalkForestIsSeparate(names, c.rest);
      assert forall i :: 0 <= i < |first| ==> names < first[i].names && first[i].names[|names|] == c.name by {
        forall i | 0 <= i < |first| ensures names < first[i].names && first[i].names[|names|] == c.name {
          assert names + [c.name] <= first[i].names;
          assert (names + [c.name])[|names|] == c.name;
        }
      }
      SeparateConcat(names, c.name, first, rest);
    }
  }

  lemma SeparateConcat(names: seq<string>, name: string, first: seq<Entry>, rest: seq<Entry>)
    requires Separate(first) && Separate(rest) && Below(names, first) && Below(names, rest)
    requires forall i :: 0 <= i < |first| ==> first[i].names[|names|] == name
    requires forall i :: 0 <= i < |rest| ==> rest[i].names[|names|] != name
    ensures Separate(first + rest)
  {
    var all := first + rest;
    forall i, j | 0 <= i < |all| && 0 <= j < |all| && i != j && !all[i].tree.Branch?
      ensures !(all[i].names <= all[j].names)
    {
      if i < |first| && j >= |first| {
        assert all[j] == rest[j - |first|];
      } else if i >= |first| && j < |first| {
        assert all[i] == rest[i - |first|];
      } else if i >= |first| {
        assert all[i] == rest[i - |first|] && all[j] == rest[j - |first|];
      }
    }
  }

  /** Where a visit's parent directory was visited. */
  ghost predicate ParentBefore(root: seq<string>, entries: seq<Entry>, k: nat)
    requires k < |entries|
  {
    entries[k].names == root ||
    exists j :: 0 <= j < k && entries[j].tree.Branch? && entries[j].names < entries[k].names
                && |entries[j].names| + 1 == |entries[k].names|
  }

  /** Every directory is visited before anything in it. */
  lemma {:induction false} ParentsFirst(names: seq<string>, t: Tree)
    ensures forall k :: 0 <= k < |Walk(names, t)| ==> ParentBefore(names, Walk(names, t), k)
    ensures Walk(names, t)[0] == Entry(names, t)
    decreases t
  {
    if t.Branch? {
      var entries, rest := Walk(names, t), WalkForest(names, t.children);
      ForestParentsFirst(names, t.children);
      forall k | 0 <= k < |entries| ensures ParentBefore(names, entries, k) {
        if k > 0 {
          assert ChildOrParentBefore(names, rest, k - 1) && entries[k] == rest[k - 1];
          if names < rest[k - 1].names && |names| + 1 == |rest[k - 1].names| {
            assert entries[0].tree.Branch?;
          } else {
            var j :| 0 <= j < k - 1 && rest[j].tree.Branch? && rest[j].names < rest[k - 1].names
                     && |rest[j].names| + 1 == |rest[k - 1].names|;
            assert entries[j + 1] == rest[j];
          }
        }
      }
    }
  }

  ghost predicate ChildOrParentBefore(names: seq<string>, entries: seq<Entry>, k: nat)
    requires k < |entries|
  {
    || (names < entries[k].names && |names| + 1 == |entries[k].names|)
    || exists j :: 0 <= j < k && entries[j].tree.Branch? && entries[j].names < entries[k].names
                   && |entries[j].names| + 1 == |entries[k].names|
  }

  lemma {:induction false} ForestParentsFirst(names: seq<string>, c: Forest)
    ensures forall k :: 0 <= k < |WalkForest(names, c)| ==> ChildOrParentBefore(names, WalkForest(names, c), k)
    decreases c
  {
    if c.Node? {
      var entries := WalkForest(names, c);
      var first, rest := Walk(names + [c.name], c.tree), WalkForest(names, c.rest);
      ParentsFirst(names + [c.name], c.tree);
      ForestParentsFirst(names, c.rest);
      forall k | 0 <= k < |entries| ensures ChildOrParentBefore(names, entries, k) {
        if k < |first| {
          assert ParentBefore(names + [c.name], first, k) && entries[k] == first[k];
          assert names < names + [c.name];
          if first[k].names != names + [c.name] {
            var j :| 0 <= j < k && first[j].tree.Branch? && first[j].names < first[k].names
                     && |first[j].names| + 1 == |first[k].names|;
            assert entries[j] == first[j];
          }
        } else {
          assert ChildOrParentBefore(names, rest, k - |first|) && entries[k] == rest[k - |first|];
          if !(names < entries[k].names && |names| + 1 == |entries[k].names|) {
            var j :| 0 <= j < k - |first| && rest[j].tree.Branch? && rest[j].names < rest[k - |first|].names
                     && |rest[j].names| + 1 == |rest[k - |first|].names|;
            assert entries[j + |first|] == rest[j];
          }
        }
      }
    }
  }

  /** Every name on a walk is a name of the tree. */
  ghost predicate GoodNames(names: seq<string>) {
    forall i :: 0 <= i < |names| ==> Ordinary(names[i])
  }

  ghost predicate Unhidden(names: seq<string>) {
    forall i :: 0 <= i < |names| ==> !HiddenForm(names[i])
  }

  lemma {:induction false} WalkNames(names: seq<string>, t: Tree)
    requires WellNamed(t) && GoodNames(names)
    ensures forall i :: 0 <= i < |Walk(names, t)| ==> GoodNames(Walk(names, t)[i].names)
    decreases t
  {
    if t.Branch? { WalkForestNames(names, t.children); }
  }

  lemma {:induction false} WalkForestNames(names: seq<string>, c: Forest)
    requires WellNamedForest(c) && GoodNames(names)
    ensures forall i :: 0 <= i < |WalkForest(names, c)| ==> GoodNames(WalkForest(names, c)[i].names)
    decreases c
  {
    if c.Node? {
      WalkNames(names + [c.name], c.tree);
      WalkForestNames(names, c.rest);
    }
  }

  lemma {:induction false} WalkUnhidden(names: seq<string>, t: Tree)
    requires NoHiddenNames(t) && Unhidden(names)
    ensures forall i :: 0 <= i < |Walk(names, t)| ==> Unhidden(Walk(names, t)[i].names)
    decreases t
  {
    if t.Branch? { WalkForestUnhidden(names, t.children); }
  }

  lemma {:induction false} WalkForestUnhidden(names: seq<string>, c: Forest)
    requires NoHiddenNamesForest(c) && Unhidden(names)
    ensures forall i :: 0 <= i < |WalkForest(names, c)| ==> Unhidden(WalkForest(names, c)[i].names)
    decreases c
  {
    if c.Node? {
      WalkUnhidden(names + [c.name], c.tree);
      WalkForestUnhidden(names, c.rest);
    }
  }

  // ---- The walk gives the tree ----

  function Child(c: Forest, name: string): Option<Tree> {
    if c.Empty? then None else if c.name == name then Some(c.tree) else Child(c.rest, name)
  }

  /** What is found in a tree by following names, one directory after another. */
  function At(t: Tree, names: seq<string>): Option<Tree>
    decreases |names|
  {
    if names == [] then Some(t)
    else if !t.Branch? then None
    else
      match Child(t.children, names[0])
      case None => None
      case Some(child) => At(child, names[1..])
  }

  /** The entry is what the tree has under its names. */
  ghost predicate Follows(names: seq<string>, t: Tree, e: Entry) {
    names <= e.names && At(t, e.names[|names|..]) == Some(e.tree)
  }

  ghost predicate FollowsForest(names: seq<string>, c: Forest, e: Entry) {
    && names < e.names && Child(c, e.names[|names|]).Some?
    && At(Child(c, e.names[|names|]).value, e.names[|names| + 1..]) == Some(e.tree)
  }

  lemma {:induction false} WalkFollows(names: seq<string>, t: Tree)
    requires WellNamed(t)
    ensures forall i :: 0 <= i < |Walk(names, t)| ==> Follows(names, t, Walk(names, t)[i])
    decreases t
  {
    var entries := Walk(names, t);
    assert entries[0] == Entry(names, t) && names[|names|..] == [];
    if t.Branch? {
      ForestFollows(names, t.children);
      var rest := WalkForest(names, t.children);
      forall i | 0 < i < |entries| ensures Follows(names, t, entries[i]) {
        var e := rest[i - 1];
        assert entries[i] == e && FollowsForest(names, t.children, e);
        assert e.names[|names|..][0] == e.names[|names|] && e.names[|names|..][1..] == e.names[|names| + 1..];
      }
    }
  }

  lemma {:induction false} ForestFollows(names: seq<string>, c: Forest)
    requires WellNamedForest(c)
    ensures forall i :: 0 <= i < |WalkForest(names, c)| ==> FollowsForest(names, c, WalkForest(names, c)[i])
    decreases c
  {
    if c.Node? {
      var here := names + [c.name];
      var first, rest := Walk(here, c.tree), WalkForest(names, c.rest);
      WalkFollows(here, c.tree);
      ForestFollows(names, c.rest);
      forall i | 0 <= i < |first| ensures FollowsForest(names, c, first[i]) {
        assert Follows(here, c.tree, first[i]);
        assert here[|names|] == c.name && names < here;
      }
      forall i | 0 <= i < |rest| ensures FollowsForest(names, c, rest[i]) {
        assert FollowsForest(names, c.rest, rest[i]);
        ChildIsNamed(c.rest, rest[i].names[|names|]);
      }
    }
  }

  lemma {:induction false} ChildIsNamed(c: Forest, name: string)
    ensures Child(c, name).Some? <==> NameIn(name, c)
  {
    if c.Node? { ChildIsNamed(c.rest, name); }
  }

  ghost predicate Reached(entries: seq<Entry>, e: Entry) {
    exists i :: 0 <= i < |entries| && entries[i] == e
  }

  /** Whatever the tree has, the walk comes by. */
  lemma {:induction false} WalkReaches(names: seq<string>, t: Tree, more: seq<string>)
    requires At(t, more).Some?
    ensures Reached(Walk(names, t), Entry(names + more, At(t, more).value))
    decreases t
  {
    var entries := Walk(names, t);
    if more == [] {
      assert names + more == names && entries[0] == Entry(names, t);
    } else {
      ForestReaches(names, t.children, more);
      var e := Entry(names + more, At(t, more).value);
      var i :| 0 <= i < |WalkForest(names, t.children)| && WalkForest(names, t.children)[i] == e;
      assert entries[i + 1] == e;
    }
  }

  lemma {:induction false} ForestReaches(names: seq<string>, c: Forest, more: seq<string>)
    requires more != [] && Child(c, more[0]).Some? && At(Child(c, more[0]).value, more[1..]).Some?
    ensures Reached(WalkForest(names, c), Entry(names + more, At(Child(c, more[0]).value, more[1..]).value))
    decreases c
  {
    var first, rest := Walk(names + [c.name], c.tree), WalkForest(names, c.rest);
    var e := Entry(names + more, At(Child(c, more[0]).value, more[1..]).value);
    if c.name == more[0] {
      WalkReaches(names + [c.name], c.tree, more[1..]);
      assert (names + [c.name]) + more[1..] == names + more;
      var i :| 0 <= i < |first| && first[i] == e;
      assert (first + rest)[i] == e;
    } else {
      ForestReaches(names, c.rest, more);
      var i :| 0 <= i < |rest| && rest[i] == e;
      assert (first + rest)[|first| + i] == e;
    }
  }

  ghost predicate DistinctNames(entries: seq<Entry>) {
    forall i, j :: 0 <= i < j < |entries| ==> entries[i].names != entries[j].names
  }

  lemma {:induction false} WalkIsDistinct(names: seq<string>, t: Tree)
    requires WellNamed(t)
    ensures DistinctNames(Walk(names, t))
    decreases t
  {
    if t.Branch? {
      ForestIsDistinct(names, t.children);
      ForestFollows(names, t.children);
      var entries, rest := Walk(names, t), WalkForest(names, t.children);
      assert forall i :: 0 < i < |entries| ==> entries[i] == rest[i - 1];
      assert forall i :: 0 <= i < |rest| ==> FollowsForest(names, t.children, rest[i]);
    }
  }

  lemma {:induction false} ForestIsDistinct(names: seq<string>, c: Forest)
    requires WellNamedForest(c)
    ensures DistinctNames(WalkForest(names, c))
    decreases c
  {
    if c.Node? {
      var here := names + [c.name];
      var first, rest := Walk(here, c.tree), WalkForest(names, c.rest);
      WalkIsDistinct(here, c.tree);
      ForestIsDistinct(names, c.rest);
      WalkFollows(here, c.tree);
      ForestFollows(names, c.rest);
      forall i, j | 0 <= i < |first| && 0 <= j < |rest| ensures first[i].names != rest[j].names {
        assert Follows(here, c.tree, first[i]) && FollowsForest(names, c.rest, rest[j]);
        assert here[|names|] == c.name;
        ChildIsNamed(c.rest, rest[j].names[|names|]);
      }
      DistinctConcat(first, rest);
    }
  }

  lemma DistinctConcat(a: seq<Entry>, b: seq<Entry>)
    requires DistinctNames(a) && DistinctNames(b)
    requires forall i, j :: 0 <= i < |a| && 0 <= j < |b| ==> a[i].names != b[j].names
    ensures DistinctNames(a + b)
  {
    var all := a + b;
    forall i, j | 0 <= i < j < |all| ensures all[i].names != all[j].names {
      if i >= |a| {
        assert all[i] == b[i - |a|] && all[j] == b[j - |a|];
      } else if j >= |a| {
        assert all[j] == b[j - |a|];
      }
    }
  }

  /** A walk is the tree itself: each entry is what the tree has under its names,
      everything the tree has is an entry, and none comes twice. */
  lemma {:induction false} WalkIsTree(t: Tree)
    requires WellNamed(t)
    ensures forall i :: 0 <= i < |Walk([], t)| ==> At(t, Walk([], t)[i].names) == Some(Walk([], t)[i].tree)
    ensures forall names :: At(t, names).Some? ==> Reached(Walk([], t), Entry(names, At(t, names).value))
    ensures DistinctNames(Walk([], t))
  {
    var entries := Walk([], t);
    WalkFollows([], t);
    WalkIsDistinct([], t);
    forall i | 0 <= i < |entries| ensures At(t, entries[i].names) == Some(entries[i].tree) {
      assert Follows([], t, entries[i]) && entries[i].names[0..] == entries[i].names;
    }
    forall names | At(t, names).Some? ensures Reached(entries, Entry(names, At(t, names).value)) {
      WalkReaches([], t, names);
      assert [] + names == names;
    }
  }

  // ---- What the tree holds ----

  predicate FileAt(t: Tree, names: seq<string>) {
    At(t, names).Some? && (At(t, names).value.Leaf? || At(t, names).value.Special?)
  }

  function CountedNames(entries: seq<Entry>): set<seq<string>> {
    if entries == [] then {}
    else
      var last := entries[|entries| - 1];
      CountedNames(entries[..|entries| - 1]) + if Counted(last) then {last.names} else {}
  }

  lemma {:induction false} CountedNamesAre(entries: seq<Entry>)
    requires DistinctNames(entries)
    ensures |CountedNames(entries)| == Tally(entries)
    ensures forall names :: names in CountedNames(entries) <==>
              exists i :: 0 <= i < |entries| && entries[i].names == names && Counted(entries[i])
  {
    if entries != [] {
      var front, last := entries[..|entries| - 1], entries[|entries| - 1];
      CountedNamesAre(front);
      assert last.names !in CountedNames(front);
      forall names
        ensures names in CountedNames(entries) <==> exists i :: 0 <= i < |entries| && entries[i].names == names && Counted(entries[i])
      {
        if names in CountedNames(front) {
          var i :| 0 <= i < |front| && front[i].names == names && Counted(front[i]);
          assert entries[i] == front[i];
        }
        if i :| 0 <= i < |entries| && entries[i].names == names && Counted(entries[i]) {
          assert i < |front| ==> front[i] == entries[i];
        }
      }
    }
  }

  /** The count of a tree is the number of names under which it has a file. */
  lemma {:induction false} CountIsFiles(t: Tree) returns (files: set<seq<string>>)
    requires WellNamed(t)
    ensures |files| == Count(t) && forall names :: names in files <==> FileAt(t, names)
  {
    var entries := Walk([], t);
    WalkIsTree(t);
    WalkCounts([], t);
    CountedNamesAre(entries);
    files := CountedNames(entries);
    forall names ensures names in files <==> FileAt(t, names) {
      if FileAt(t, names) {
        var i :| 0 <= i < |entries| && entries[i] == Entry(names, At(t, names).value);
      }
    }
  }

  /** The bytes of the files of a tree but for those under some names. */
  function SizeWithout(names: seq<string>, t: Tree, without: set<seq<string>>): nat
    decreases t
  {
    match t
    case Leaf(data, _, _) => if names in without then 0 else |data|
    case Branch(_, _, children) => SizeWithoutForest(names, children, without)
    case _ => 0
  }

  function SizeWithoutForest(names: seq<string>, c: Forest, without: set<seq<string>>): nat
    decreases c
  {
    if c.Empty? then 0 else SizeWithout(names + [c.name], c.tree, without) + SizeWithoutForest(names, c.rest, without)
  }

  function Sizes(entries: seq<Entry>, without: set<seq<string>>): nat {
    if entries == [] then 0
    else
      var last := entries[|entries| - 1];
      Sizes(entries[..|entries| - 1], without) + if last.tree.Leaf? && last.names !in without then |last.tree.data| else 0
  }

  lemma {:induction false} SizesConcat(a: seq<Entry>, b: seq<Entry>, without: set<seq<string>>)
    ensures Sizes(a + b, without) == Sizes(a, without) + Sizes(b, without)
    decreases |b|
  {
    if b == [] {
      assert a + b == a;
    } else {
      assert (a + b)[..|a + b| - 1] == a + b[..|b| - 1];
      SizesConcat(a, b[..|b| - 1], without);
    }
  }

  lemma {:induction false} WalkSizes(names: seq<string>, t: Tree, without: set<seq<string>>)
    ensures Sizes(Walk(names, t), without) == SizeWithout(names, t, without)
    decreases t
  {
    var root := [Entry(names, t)];
    assert Sizes(root, without) == if t.Leaf? && names !in without then |t.data| else 0 by { assert root[..0] == []; }
    if t.Branch? {
      ForestSizes(names, t.children, without);
      SizesConcat(root, WalkForest(names, t.children), without);
    } else {
      assert Walk(names, t) == root;
    }
  }

  lemma {:induction false} ForestSizes(names: seq<string>, c: Forest, without: set<seq<string>>)
    ensures Sizes(WalkForest(names, c), without) == SizeWithoutForest(names, c, without)
    decreases c
  {
    if c.Node? {
      WalkSizes(names + [c.name], c.tree, without);
      ForestSizes(names, c.rest, without);
      SizesConcat(Walk(names + [c.name], c.tree), WalkForest(names, c.rest), without);
    }
  }

  // ---- The walk over a remote tree ----

  lemma BelowVisited(visited: seq<Entry>, below: seq<Entry>, first: seq<Entry>, more: seq<Entry>)
    requires below <= first
    ensures visited + below <= visited + (first + more)
    ensures below == first ==> (visited + below) + more == visited + (first + more)
  {
  }

  /** Visits a remote directory and everything below it; unless the server is
      `reliable`, any inspection or listing, and the visitor itself, may stop it. */
  method WalkRemoteDir(names: seq<string>, t: Tree, reliable: bool) returns (ok: bool, visited: seq<Entry>)
    ensures visited <= Walk(names, t)
    ensures ok ==> visited == Walk(names, t)
    ensures reliable ==> ok
    decreases t
  {
    visited := [];
    if !reliable { if * { return false, visited; } }
    visited := [Entry(names, t)];
    if !reliable { if * { return false, visited; } }
    if !t.Branch? { return true, visited; }
    if !reliable { if * { return false, visited; } }
    var rest := t.children;
    ghost var all := Walk(names, t);
    while rest.Node?
      invariant rest == t.children || rest < t.children
      invariant visited + WalkForest(names, rest) == all
      decreases rest
    {
      var below;
      ok, below := WalkRemoteDir(names + [rest.name], rest.tree, reliable);
      BelowVisited(visited, below, Walk(names + [rest.name], rest.tree), WalkForest(names, rest.rest));
      visited := visited + below;
      if !ok { return false, visited; }
      rest := rest.rest;
    }
    ok := true;
  }

  method CountRemoteRegularFiles(t: Tree, reliable: bool) returns (count: nat, complete: bool)
    ensures complete ==> count == Count(t)
    ensures reliable ==> complete
  {
    var visited;
    complete, visited := WalkRemoteDir([], t, reliable);
    WalkCounts([], t);
    count := 0;
    for k := 0 to |visited|
      invariant count == Tally(visited[..k])
    {
      assert visited[..k + 1][..k] == visited[..k];
      if !visited[k].tree.Branch? && !visited[k].tree.Symlink? { count := count + 1; }
    }
    assert visited[..|visited|] == visited;
  }
}
