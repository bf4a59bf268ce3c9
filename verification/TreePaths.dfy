/** Where the files of a tree may be written, and that no two of them meet. */
module TreePaths {
  import opened SlashPath
  import opened FileStores
  import opened PartialState
  import opened PartialNames
  import opened SourceTree

  /** The counterpart of an entry: the destination itself for the root. */
  function Counterpart(destination: Path, names: seq<string>): Path {
    if names == [] then destination else Join(destination, Joined(names))
  }

  /** The two places an entry's file may go: its counterpart, or inside it when
      that is a directory. */
  ghost predicate Spot(destination: Path, names: seq<string>, path: Path) {
    names != [] && (path == Counterpart(destination, names)
                    || path == Join(Counterpart(destination, names), names[|names| - 1]))
  }

  // ---- Counterparts in canonical form ----

  function Rooted(destination: Path): bool {
    destination != "" && destination[0] == '/'
  }

  function Anchor(destination: Path): seq<string> {
    if destination == "" then [] else Reduce(Rooted(destination), Segments(destination), [])
  }

  function Canonical(destination: Path, names: seq<string>): Path {
    Rendered(Rooted(destination), Anchor(destination) + names)
  }

  lemma AnchorIsNormal(destination: Path, names: seq<string>)
    requires GoodNames(names)
    ensures Normal(Rooted(destination), Anchor(destination))
    ensures Normal(Rooted(destination), Anchor(destination) + names)
  {
    PartsComeFrom(destination, IS_SLASH);
    ReduceIsNormal(Rooted(destination), Segments(destination), []);
  }

  lemma CounterpartIsCanonical(destination: Path, names: seq<string>)
    requires GoodNames(names) && names != []
    ensures Counterpart(destination, names) == Canonical(destination, names)
  {
    var rooted, anchor := Rooted(destination), Anchor(destination);
    AnchorIsNormal(destination, names);
    SegmentsOfJoined(names);
    ReduceKeepsNormal(rooted, anchor, names);
    assert Joined(names) != "" && Joined(names)[0] != '/' by { JoinedStart(names); }
    if destination == "" {
      assert [] + names == names;
    } else {
      SplitConcat(destination, '/', Joined(names), IS_SLASH);
      assert destination + "/" + Joined(names) == destination + ['/'] + Joined(names);
      ReduceConcat(rooted, Segments(destination), names, []);
    }
  }

  lemma JoinedStart(names: seq<string>)
    requires GoodNames(names) && names != []
    ensures Joined(names) != "" && Joined(names)[0] != '/'
  {
    assert Ordinary(names[0]);
    assert Joined(names)[0] == names[0][0];
  }

  lemma InsideIsCanonical(destination: Path, names: seq<string>, name: string)
    requires GoodNames(names) && names != [] && Ordinary(name)
    ensures Join(Counterpart(destination, names), name) == Canonical(destination, names + [name])
  {
    var rooted, anchor := Rooted(destination), Anchor(destination);
    CounterpartIsCanonical(destination, names);
    AnchorIsNormal(destination, names);
    RenderedSegments(rooted, anchor + names);
    JoinEndsWith(Canonical(destination, names), name);
    LeadAndLast(rooted, anchor + names, name);
    assert (anchor + names) + [name] == anchor + (names + [name]);
  }

  lemma CanonicalInjective(destination: Path, a: seq<string>, b: seq<string>)
    requires GoodNames(a) && GoodNames(b) && Canonical(destination, a) == Canonical(destination, b)
    ensures a == b
  {
    var rooted, anchor := Rooted(destination), Anchor(destination);
    AnchorIsNormal(destination, a);
    AnchorIsNormal(destination, b);
    RenderedSegments(rooted, anchor + a);
    RenderedSegments(rooted, anchor + b);
    assert a == (anchor + a)[|anchor|..] && b == (anchor + b)[|anchor|..];
  }

  lemma CanonicalName(destination: Path, names: seq<string>)
    requires GoodNames(names) && names != []
    ensures Split(Canonical(destination, names)).1 == names[|names| - 1]
  {
    var init, last := names[..|names| - 1], names[|names| - 1];
    var rooted, anchor := Rooted(destination), Anchor(destination);
    assert anchor + names == (anchor + init) + [last];
    LeadAndLast(rooted, anchor + init, last);
    assert Ordinary(last);
    SplitAt(Lead(rooted, anchor + init), last);
  }

  /** The components of a spot, one more than the entry's when it went inside. */
  lemma SpotNames(destination: Path, names: seq<string>, path: Path) returns (spelled: seq<string>)
    requires GoodNames(names) && Spot(destination, names, path)
    ensures GoodNames(spelled) && spelled != [] && path == Canonical(destination, spelled)
    ensures spelled == names || spelled == names + [names[|names| - 1]]
    ensures Split(path).1 == names[|names| - 1]
  {
    var last := names[|names| - 1];
    if path == Counterpart(destination, names) {
      spelled := names;
      CounterpartIsCanonical(destination, names);
    } else {
      spelled := names + [last];
      InsideIsCanonical(destination, names, last);
    }
    CanonicalName(destination, spelled);
  }

  // ---- Files never meet ----

  /** Spots of files neither of which lies under the other are different. */
  lemma SpotsDiffer(destination: Path, a: seq<string>, p: Path, b: seq<string>, q: Path)
    requires GoodNames(a) && GoodNames(b) && Spot(destination, a, p) && Spot(destination, b, q)
    requires !(a <= b) && !(b <= a)
    ensures p != q
  {
    var x := SpotNames(destination, a, p);
    var y := SpotNames(destination, b, q);
    if p == q {
      CanonicalInjective(destination, x, y);
      SamePrefix(a, b, x);
    }
  }

  /** A file's spot is never the counterpart of a directory that is not inside it. */
  lemma DirectoryDiffers(destination: Path, a: seq<string>, b: seq<string>, q: Path)
    requires GoodNames(a) && GoodNames(b) && a != [] && Spot(destination, b, q)
    requires !(b <= a)
    ensures Counterpart(destination, a) != q
  {
    var y := SpotNames(destination, b, q);
    CounterpartIsCanonical(destination, a);
    if Canonical(destination, a) == q {
      CanonicalInjective(destination, a, y);
    }
  }

  lemma SamePrefix(a: seq<string>, b: seq<string>, x: seq<string>)
    requires a <= x && b <= x
    ensures a <= b || b <= a
  {
    if |a| <= |b| {
      assert a == x[..|a|] == b[..|a|];
    } else {
      assert b == x[..|b|] == a[..|b|];
    }
  }

  /** A spot is never one of the hidden files of any transfer. */
  lemma SpotIsNotHidden(suffix: SuffixOf, destination: Path, names: seq<string>, path: Path, other: Path, m: Metadata)
    requires WellShaped(suffix) && GoodNames(names) && Unhidden(names) && Spot(destination, names, path)
    ensures path != PartialPaths(suffix, other, m).partial && path != PartialPaths(suffix, other, m).sidecar
  {
    var _ := SpotNames(destination, names, path);
    HiddenNames(suffix, other, m);
    var base, s := Split(other).1, suffix(other, m.sourceSize, m.prefixSHA256);
    assert !HiddenForm(names[|names| - 1]);
    assert IsHiddenName(HiddenName(base, s), base, s);
    assert IsHiddenName(HiddenName(base, s) + ".json", base, s);
  }
}
