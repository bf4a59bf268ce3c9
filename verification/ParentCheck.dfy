/** The walk over the remote directories above a destination before anything is
    changed there. */
module ParentCheck {
  import opened Basics
  import opened SlashPath
  import opened FileStores
  import opened PartialState

  /** The prefixes of a clean path that are themselves paths, shortest first. */
  function Prefixes(parent: Path, n: nat): seq<Path>
    decreases |parent| + 1 - n
  {
    if n > |parent| then []
    else (if Component(parent, n) then [parent[..n]] else []) + Prefixes(parent, n + 1)
  }

  function ParentComponents(destination: Path): seq<Path> {
    Components(Dir(Clean(destination)))
  }

  function Components(parent: Path): seq<Path> {
    if parent == "." then []
    else if parent != "" && parent[0] == '/' then ["/"] + Prefixes(parent, 2)
    else Prefixes(parent, 1)
  }

  /** The first existing component that is not a directory decides; below a
      missing one there is nothing to look at. */
  function Trouble(d: Disk, components: seq<Path>): Option<Code> {
    if components == [] || components[0] !in d then None
    else
      match d[components[0]]
      case Link(_) => Some(UnsupportedFileType)
      case File(_, _) => Some(DestinationNotWritable)
      case Directory(_) => Trouble(d, components[1..])
  }

  // ---- What that comes to ----

  /** `q` is the root of a rooted directory, or on the way to the directory. */
  predicate LeadsTo(q: Path, parent: Path) {
    parent != "." && if q == "/" then parent != "" && parent[0] == '/' else OnTheWay(q, parent)
  }

  /** `q` is above the destination. */
  predicate Above(q: Path, destination: Path) {
    LeadsTo(q, Dir(Clean(destination)))
  }

  /** It is there, is no directory, and everything nearer the root is one. */
  ghost predicate Blocks(d: Disk, q: Path, destination: Path) {
    && Above(q, destination) && q in d && !d[q].Directory?
    && forall above :: Above(above, destination) && |above| < |q| ==> above in d && d[above].Directory?
  }

  lemma {:induction false} PrefixesAre(parent: Path, n: nat)
    requires n >= 1
    ensures forall q :: q in Prefixes(parent, n) <==> OnTheWay(q, parent) && |q| >= n
    ensures Ascending(Prefixes(parent, n))
    decreases |parent| + 1 - n
  {
    if n <= |parent| {
      PrefixesAre(parent, n + 1);
      PrefixOf(parent, n);
      var first, rest := PrefixAt(parent, n), Prefixes(parent, n + 1);
      assert forall q :: q in first + rest <==> q in first || q in rest;
      forall i | 0 <= i < |rest| ensures |rest[i]| > n { assert rest[i] in rest; }
      AscendingAfter(first, rest, n);
    }
  }

  lemma AscendingAfter(first: seq<Path>, rest: seq<Path>, n: nat)
    requires |first| <= 1 && (first != [] ==> |first[0]| == n)
    requires Ascending(rest) && forall i :: 0 <= i < |rest| ==> |rest[i]| > n
    ensures Ascending(first + rest)
  {
    var all := first + rest;
    forall i, j | 0 <= i < j < |all| ensures |all[i]| < |all[j]| {
      assert all[j] == rest[j - |first|];
      if i >= |first| { assert all[i] == rest[i - |first|]; }
    }
  }

  function PrefixAt(parent: Path, n: nat): seq<Path>
    requires n <= |parent|
  {
    if Component(parent, n) then [parent[..n]] else []
  }

  lemma PrefixOf(parent: Path, n: nat)
    requires n <= |parent|
    ensures Prefixes(parent, n) == PrefixAt(parent, n) + Prefixes(parent, n + 1)
    ensures forall q :: q in PrefixAt(parent, n) <==> OnTheWay(q, parent) && |q| == n
  {
    forall q | OnTheWay(q, parent) && |q| == n ensures q == parent[..n] { assert q == parent[..|q|]; }
  }

  /** Shorter paths come first. */
  ghost predicate Ascending(components: seq<Path>) {
    forall i, j :: 0 <= i < j < |components| ==> |components[i]| < |components[j]|
  }

  lemma ComponentsLead(parent: Path)
    ensures forall q :: q in Components(parent) <==> LeadsTo(q, parent)
    ensures Ascending(Components(parent))
  {
    if parent != "." {
      if parent != "" && parent[0] == '/' { RootedLead(parent); } else { RelativeLead(parent); }
    }
  }

  lemma RelativeLead(parent: Path)
    requires parent == "" || parent[0] != '/'
    ensures forall q :: q in Prefixes(parent, 1) <==> q != "/" && OnTheWay(q, parent)
    ensures Ascending(Prefixes(parent, 1))
  {
    PrefixesAre(parent, 1);
    assert !OnTheWay("/", parent);
  }

  lemma RootedLead(parent: Path)
    requires parent != "" && parent[0] == '/'
    ensures forall q :: q in ["/"] + Prefixes(parent, 2) <==> q == "/" || OnTheWay(q, parent)
    ensures Ascending(["/"] + Prefixes(parent, 2))
  {
    PrefixesAre(parent, 2);
    var rest := Prefixes(parent, 2);
    forall q | OnTheWay(q, parent) && q != "/" ensures q in rest { LongerThanRoot(q, parent); }
    forall i | 0 <= i < |rest| ensures |rest[i]| > 1 { assert rest[i] in rest; }
  }

  lemma LongerThanRoot(q: Path, parent: Path)
    requires OnTheWay(q, parent) && parent[0] == '/' && q != "/"
    ensures |q| >= 2
  {
    assert parent[..1] == "/" && q == parent[..|q|];
  }

  lemma {:induction false} TroubleIsFirst(d: Disk, components: seq<Path>, i: nat)
    requires i < |components| && components[i] in d && !d[components[i]].Directory?
    requires forall j :: 0 <= j < i ==> components[j] in d && d[components[j]].Directory?
    ensures Trouble(d, components) == Some(if d[components[i]].Link? then UnsupportedFileType else DestinationNotWritable)
  {
    if i > 0 { TroubleIsFirst(d, components[1..], i - 1); }
  }

  lemma {:induction false} TroubleComesFrom(d: Disk, components: seq<Path>) returns (i: nat)
    requires Trouble(d, components).Some?
    ensures i < |components| && components[i] in d && !d[components[i]].Directory?
    ensures forall j :: 0 <= j < i ==> components[j] in d && d[components[j]].Directory?
  {
    if d[components[0]].Directory? {
      var k := TroubleComesFrom(d, components[1..]);
      i := k + 1;
    } else {
      i := 0;
    }
  }

  /** The walk finds trouble exactly where something other than a directory
      stands above the destination with only directories nearer the root: an
      unsupported link, or a file in the way. */
  lemma TroubleMeans(d: Disk, destination: Path)
    ensures Trouble(d, ParentComponents(destination)) == None <==> forall q :: !Blocks(d, q, destination)
    ensures forall q :: Blocks(d, q, destination) ==>
              Trouble(d, ParentComponents(destination)) == Some(if d[q].Link? then UnsupportedFileType else DestinationNotWritable)
  {
    ComponentsLead(Dir(Clean(destination)));
    forall q | Blocks(d, q, destination)
      ensures Trouble(d, ParentComponents(destination)) == Some(if d[q].Link? then UnsupportedFileType else DestinationNotWritable)
    {
      BlockIsTrouble(d, q, destination);
    }
    if Trouble(d, ParentComponents(destination)).Some? { TroubleIsBlock(d, destination); }
  }

  lemma BlockIsTrouble(d: Disk, q: Path, destination: Path)
    requires Blocks(d, q, destination)
    ensures Trouble(d, ParentComponents(destination)) == Some(if d[q].Link? then UnsupportedFileType else DestinationNotWritable)
  {
    var parent := Dir(Clean(destination));
    var components := Components(parent);
    ComponentsLead(parent);
    var i :| 0 <= i < |components| && components[i] == q;
    forall j | 0 <= j < i ensures components[j] in d && d[components[j]].Directory? {
      assert components[j] in components && Above(components[j], destination);
    }
    TroubleIsFirst(d, components, i);
  }

  lemma TroubleIsBlock(d: Disk, destination: Path)
    requires Trouble(d, ParentComponents(destination)).Some?
    ensures exists q :: Blocks(d, q, destination)
  {
    var parent := Dir(Clean(destination));
    var components := Components(parent);
    ComponentsLead(parent);
    var i := TroubleComesFrom(d, components);
    assert components[i] in components && Above(components[i], destination);
    forall above | Above(above, destination) && |above| < |components[i]| ensures above in d && d[above].Directory? {
      assert above in components;
      var j :| 0 <= j < |components| && components[j] == above;
      assert j < i;
    }
    assert Blocks(d, components[i], destination);
  }

  /** Success means no component that matters is a link or a file, and without
      faults the verdict is exactly that. */
  method ValidateRemoteParents(s: FileStore, destination: Path) returns (r: Outcome<()>)
    modifies s`disk, s`readFaults
    ensures FaultsGrow(old(s.readFaults), s.readFaults)
    ensures KeptBut(s.owns, old(s.disk), s.disk, {})
    ensures r.Fail? ==> r.code == DestinationNotWritable || r.code == UnsupportedFileType
    ensures (forall p :: s.owns(p)) && r.Ok? ==> Trouble(old(s.disk), ParentComponents(destination)) == None
    ensures s.reliable && (forall p :: s.owns(p)) && (forall p :: p in ParentComponents(destination) ==> !s.unreadable(p)) ==>
              r == match Trouble(old(s.disk), ParentComponents(destination)) case None => Ok(()) case Some(code) => Fail(code)
  {
    var components := ParentComponents(destination);
    assert components[0..] == components;
    for k := 0 to |components|
      invariant KeptBut(s.owns, old(s.disk), s.disk, {})
      invariant FaultsGrow(old(s.readFaults), s.readFaults)
      invariant (forall p :: s.owns(p)) ==>
          Trouble(old(s.disk), components) == Trouble(old(s.disk), components[k..])
    {
      assert components[k..][0] == components[k] && components[k..][1..] == components[k + 1..];
      var info := s.Lstat(components[k]);
      assert s.owns(components[k]) ==> SameAt(old(s.disk), s.disk, components[k]);
      match info {
        case NotExist => return Ok(());
        case StatFailed => return Fail(DestinationNotWritable);
        case Found(node) =>
          if node.Link? { return Fail(UnsupportedFileType); }
          if node.File? { return Fail(DestinationNotWritable); }
      }
    }
    r := Ok(());
  }
}
