/** The file system a transfer writes to, and the file it reads from.

    Each method of FileStore is one operation of the SFTP client (or of the
    local os package, for a download). Before it, other clients may have
    changed every path this worker does not own. It may fail without effect,
    and it may take effect with its reply lost, unless the store is `reliable`.
    A process that is killed, or whose connection drops, is one whose remaining
    operations all fail without effect; so what a method of the engine promises
    on every return holds at every point at which the engine can be stopped. */
module FileStores {
  import opened Basics

  type Path = string

  /** Sizes and times are 64-bit, and no file is longer than a size can say. */
  const SIZE_LIMIT: int := 0x8000_0000_0000_0000

  type Length = n: int | 0 <= n < SIZE_LIMIT

  type Timestamp = t: int | -SIZE_LIMIT <= t < SIZE_LIMIT

  type Content = b: Bytes | |b| < SIZE_LIMIT witness []

  datatype Node = File(data: Bytes, mode: nat) | Directory(size: nat) | Link(size: nat)

  type Disk = map<Path, Node>

  /** Properties of a path that the disk here does not keep; a mode is one for a directory. */
  datatype Attribute = Group(path: Path) | Mode(path: Path, mode: nat) | Times(path: Path, mtime: Timestamp)

  datatype SourceStat = SourceStat(size: Length, mtime: Timestamp)

  datatype Stat = Found(node: Node) | NotExist | StatFailed

  function Size(n: Node): nat {
    match n
    case File(data, _) => |data|
    case Directory(size) => size
    case Link(size) => size
  }

  function Take(b: Bytes, limit: nat): Bytes {
    if |b| <= limit then b else b[..limit]
  }

  function Overwritten(data: Bytes, pos: nat, chunk: Bytes): Bytes
    requires pos <= |data|
  {
    data[..pos] + chunk + if pos + |chunk| < |data| then data[pos + |chunk|..] else []
  }

  ghost predicate SameAt(a: Disk, b: Disk, p: Path) {
    (p in a <==> p in b) && (p in a ==> a[p] == b[p])
  }

  /** No owned path outside `changed` differs. */
  ghost predicate KeptBut(owns: Path -> bool, a: Disk, b: Disk, changed: set<Path>) {
    forall p :: owns(p) && p !in changed ==> SameAt(a, b, p)
  }

  /** Where everything is owned, nothing kept means nothing changed. */
  lemma EqualDisks(owns: Path -> bool, a: Disk, b: Disk)
    requires (forall p :: owns(p)) && KeptBut(owns, a, b, {})
    ensures a == b
  {
    forall p ensures SameAt(a, b, p) {
      assert owns(p);
    }
    assert forall p :: p in a || p in b ==> SameAt(a, b, p);
    assert a.Keys == b.Keys;
  }

  /** The first `n` characters of a path are one of the directories on the way to
      it, or the path itself. */
  predicate Component(p: Path, n: nat) {
    1 <= n <= |p| && (n == |p| || p[n] == '/')
  }

  /** `q` is `p` or one of the directories on the way to it. */
  predicate OnTheWay(q: Path, p: Path) {
    q <= p && Component(p, |q|)
  }

  ghost predicate MadeDirectory(before: Disk, after: Disk, p: Path) {
    p !in before && p in after && after[p].Directory?
  }

  /** No file stands where a directory is needed. */
  ghost predicate ClearWay(d: Disk, p: Path) {
    forall q :: OnTheWay(q, p) && q in d ==> !d[q].File?
  }

  predicate IsFile(d: Disk, p: Path) {
    p in d && d[p].File?
  }

  /** Every path in `b` was in `a` or is in `more`. */
  ghost predicate AddsOnly(a: iset<Path>, b: iset<Path>, more: set<Path>) {
    forall p :: p in b ==> p in a || p in more
  }

  /** One more failed read of `p`. */
  ghost function Faulted(faults: Path -> nat, p: Path): Path -> nat {
    q => if q == p then faults(q) + 1 else faults(q)
  }

  /** No read failed anywhere else. */
  ghost predicate FaultsOnlyAt(a: Path -> nat, b: Path -> nat, places: set<Path>) {
    forall p :: a(p) <= b(p) && (p !in places ==> a(p) == b(p))
  }

  ghost predicate FaultsGrow(a: Path -> nat, b: Path -> nat) {
    forall p :: a(p) <= b(p)
  }

  /** A read of the path failed in between. */
  ghost predicate FaultAt(before: Path -> nat, after: Path -> nat, p: Path) {
    before(p) < after(p)
  }

  /** Only changes that are on record: of a touched path, or of one where a
      directory was made. */
  ghost predicate OwnChange(before: Disk, after: Disk, touched: iset<Path>, made: iset<Path>) {
    forall p :: SameAt(before, after, p) || p in touched || (p in made && MadeDirectory(before, after, p))
  }

  /** What every operation is: others move, and then the worker makes a change
      that it puts on record, or none. */
  ghost predicate Operates(owns: Path -> bool, before: Disk, after: Disk, touched: iset<Path>, made: iset<Path>) {
    exists between :: KeptBut(owns, before, between, {}) && OwnChange(between, after, touched, made)
  }

  class FileStore {
    var disk: Disk
    const owns: Path -> bool
    const reliable: bool
    /** Paths whose every inspection and read fails. */
    const unreadable: Path -> bool
    /** The paths this worker's own operations have changed, and those at which
        they have made a directory where nothing was. */
    ghost var touched: iset<Path>
    ghost var made: iset<Path>
    /** The attributes it has set, in order. */
    ghost var attributes: seq<Attribute>
    /** How many of its inspections and reads of a path failed that should not have. */
    ghost var readFaults: Path -> nat

    constructor (disk: Disk, owns: Path -> bool, reliable: bool, unreadable: Path -> bool)
      ensures this.disk == disk && this.owns == owns && this.reliable == reliable && this.unreadable == unreadable
      ensures touched == iset{} && made == iset{} && readFaults == ((p: Path) => 0)
    {
      this.disk, this.owns, this.reliable, this.unreadable := disk, owns, reliable, unreadable;
      touched, made, attributes, readFaults := iset{}, iset{}, [], (p: Path) => 0;
    }

    /** Whatever the other clients do. */
    method Interfere()
      modifies this`disk
      ensures KeptBut(owns, old(disk), disk, {})
    {
      var others: Disk := *;
      disk := (map p | p in others && !owns(p) :: others[p]) + (map p | p in disk && owns(p) :: disk[p]);
    }

    /** A change of its own. Apart from these three, only others change the disk. */
    method Put(p: Path, n: Node)
      modifies this`disk, this`touched
      ensures disk == old(disk)[p := n] && touched == old(touched) + iset{p}
    {
      disk, touched := disk[p := n], touched + iset{p};
    }

    method Drop(p: Path)
      modifies this`disk, this`touched
      ensures disk == old(disk) - {p} && touched == old(touched) + iset{p}
    {
      disk, touched := disk - {p}, touched + iset{p};
    }

    method Make(p: Path)
      requires p !in disk
      modifies this`disk, this`made
      ensures disk == old(disk)[p := Directory(0)] && made == old(made) + iset{p}
    {
      disk, made := disk[p := Directory(0)], made + iset{p};
    }

    method Lstat(p: Path) returns (r: Stat)
      modifies this`disk, this`readFaults
      ensures KeptBut(owns, old(disk), disk, {})
      ensures r.Found? ==> p in disk && r.node == disk[p]
      ensures r.NotExist? ==> p !in disk
      ensures readFaults == if r.StatFailed? then Faulted(old(readFaults), p) else old(readFaults)
      ensures unreadable(p) ==> r.StatFailed?
      ensures reliable && !unreadable(p) ==> !r.StatFailed?
      ensures Operates(owns, old(disk), disk, touched, made)
    {
      Interfere();
      var fails: bool := *;
      if unreadable(p) || (fails && !reliable) {
        readFaults := Faulted(readFaults, p);
        return StatFailed;
      }
      r := if p in disk then Found(disk[p]) else NotExist;
    }

    /** Opens a file and reads at most `limit` bytes of it. */
    method Read(p: Path, limit: nat) returns (r: Option<Bytes>)
      modifies this`disk, this`readFaults
      ensures KeptBut(owns, old(disk), disk, {})
      ensures r.Some? ==> IsFile(disk, p) && r.value == Take(disk[p].data, limit)
      ensures readFaults == if r.None? && IsFile(disk, p) then Faulted(old(readFaults), p) else old(readFaults)
      ensures unreadable(p) ==> r.None?
      ensures reliable && !unreadable(p) && IsFile(disk, p) ==> r.Some?
      ensures Operates(owns, old(disk), disk, touched, made)
    {
      Interfere();
      var fails: bool := *;
      if !IsFile(disk, p) { return None; }
      if unreadable(p) || (fails && !reliable) {
        readFaults := Faulted(readFaults, p);
        return None;
      }
      r := Some(Take(disk[p].data, limit));
    }

    method ReadAll(p: Path) returns (r: Option<Bytes>)
      modifies this`disk, this`readFaults
      ensures KeptBut(owns, old(disk), disk, {})
      ensures r.Some? ==> IsFile(disk, p) && r.value == disk[p].data
      ensures readFaults == if r.None? && IsFile(disk, p) then Faulted(old(readFaults), p) else old(readFaults)
      ensures reliable && !unreadable(p) && IsFile(disk, p) ==> r.Some?
      ensures Operates(owns, old(disk), disk, touched, made)
    {
      Interfere();
      var fails: bool := *;
      if !IsFile(disk, p) { return None; }
      if unreadable(p) || (fails && !reliable) {
        readFaults := Faulted(readFaults, p);
        return None;
      }
      r := Some(disk[p].data);
    }

    /** Creates a file that must not exist yet. */
    method CreateExclusive(p: Path, mode: Option<nat>) returns (ok: bool)
      requires owns(p)
      modifies this`disk, this`touched
      ensures KeptBut(owns, old(disk), disk, {p})
      ensures AddsOnly(old(touched), touched, {p})
      ensures old(touched) <= touched
      ensures SameAt(old(disk), disk, p) || (p !in old(disk) && IsFile(disk, p) && disk[p].data == [])
      ensures ok ==> p !in old(disk) && IsFile(disk, p) && (mode.Some? ==> disk[p].mode == mode.value)
      ensures reliable && p !in old(disk) ==> ok
      ensures Operates(owns, old(disk), disk, touched, made)
    {
      Interfere();
      if p in disk { return false; }
      if !reliable { if * { return false; } }
      var given: int := *;
      Put(p, File([], if mode.Some? then mode.value else if given >= 0 then given else 0));
      ok := *;
      ok := ok || reliable;
    }

    method OpenForWriting(p: Path) returns (ok: bool)
      modifies this`disk
      ensures KeptBut(owns, old(disk), disk, {})
      ensures ok ==> IsFile(disk, p)
      ensures reliable && IsFile(disk, p) ==> ok
      ensures Operates(owns, old(disk), disk, touched, made)
    {
      Interfere();
      ok := *;
      ok := (ok || reliable) && IsFile(disk, p);
    }

    /** Writes at a position of a file. A failed write stores a prefix of its chunk. */
    method WriteAt(p: Path, pos: nat, chunk: Bytes) returns (ok: bool, ghost stored: nat)
      requires owns(p) && IsFile(disk, p) && pos <= |disk[p].data|
      modifies this`disk, this`touched
      ensures KeptBut(owns, old(disk), disk, {p})
      ensures AddsOnly(old(touched), touched, {p})
      ensures old(touched) <= touched
      ensures stored <= |chunk| && (ok ==> stored == |chunk|) && (reliable ==> ok)
      ensures IsFile(disk, p) && disk[p] == old(disk)[p].(data := Overwritten(old(disk)[p].data, pos, chunk[..stored]))
      ensures Operates(owns, old(disk), disk, touched, made)
    {
      Interfere();
      ok := *;
      ok := ok || reliable;
      assert 0 <= |chunk|;
      var n :| 0 <= n <= |chunk|;
      if ok { n := |chunk|; }
      stored := n;
      Put(p, disk[p].(data := Overwritten(disk[p].data, pos, chunk[..n])));
    }

    method Chmod(p: Path, mode: nat) returns (ok: bool)
      requires owns(p)
      modifies this`disk, this`touched
      ensures KeptBut(owns, old(disk), disk, {p})
      ensures AddsOnly(old(touched), touched, {p})
      ensures old(touched) <= touched
      ensures p in disk <==> p in old(disk)
      ensures IsFile(disk, p) <==> IsFile(old(disk), p)
      ensures if IsFile(disk, p) then disk[p].data == old(disk)[p].data else SameAt(old(disk), disk, p)
      ensures ok && IsFile(disk, p) ==> disk[p].mode == mode
      ensures reliable && p in old(disk) ==> ok
      ensures Operates(owns, old(disk), disk, touched, made)
    {
      Interfere();
      if p !in disk { return false; }
      if !reliable { if * { return false; } }
      if disk[p].File? { Put(p, disk[p].(mode := mode)); }
      ok := *;
      ok := ok || reliable;
    }

    /** Chown, Chtimes, and Chmod of a directory. */
    method SetAttribute(a: Attribute) returns (ok: bool)
      requires owns(a.path)
      modifies this`disk, this`attributes
      ensures KeptBut(owns, old(disk), disk, {})
      ensures attributes == if ok then old(attributes) + [a] else old(attributes)
      ensures reliable && a.path in old(disk) ==> ok
      ensures Operates(owns, old(disk), disk, touched, made)
    {
      Interfere();
      ok := *;
      ok := ok || (reliable && a.path in disk);
      if ok { attributes := attributes + [a]; }
    }

    method Remove(p: Path) returns (ok: bool)
      requires owns(p)
      modifies this`disk, this`touched
      ensures KeptBut(owns, old(disk), disk, {p})
      ensures AddsOnly(old(touched), touched, {p})
      ensures old(touched) <= touched
      ensures SameAt(old(disk), disk, p) || p !in disk
      ensures ok ==> p !in disk
      ensures reliable && p in old(disk) && !old(disk)[p].Directory? ==> ok
      ensures Operates(owns, old(disk), disk, touched, made)
    {
      Interfere();
      if p !in disk { return false; }
      if !reliable || disk[p].Directory? { if * { return false; } }
      Drop(p);
      ok := *;
      ok := ok || reliable;
    }

    /** Renaming onto an existing file may replace it or be refused: servers differ. */
    method Rename(from: Path, to: Path) returns (ok: bool)
      requires owns(from) && owns(to) && from != to
      modifies this`disk, this`touched
      ensures KeptBut(owns, old(disk), disk, {from, to})
      ensures AddsOnly(old(touched), touched, {from, to})
      ensures old(touched) <= touched
      ensures || (SameAt(old(disk), disk, from) && SameAt(old(disk), disk, to))
              || (from in old(disk) && from !in disk && to in disk && disk[to] == old(disk)[from])
      ensures ok ==> from in old(disk) && from !in disk && to in disk && disk[to] == old(disk)[from]
      ensures to in old(disk) && old(disk)[to].Directory? ==> SameAt(old(disk), disk, from) && SameAt(old(disk), disk, to)
      ensures reliable && from in old(disk) && to !in old(disk) ==> ok
      ensures Operates(owns, old(disk), disk, touched, made)
    {
      Interfere();
      if from !in disk || (to in disk && disk[to].Directory?) { return false; }
      if !reliable || to in disk { if * { return false; } }
      Put(to, disk[from]);
      Drop(from);
      ok := *;
      ok := ok || reliable;
    }

    /** Makes missing directories on the way to `p`; nothing else changes. It
        succeeds only where it leaves a directory, or a link to one. */
    method MkdirAll(p: Path) returns (ok: bool)
      modifies this`disk, this`made
      ensures forall q :: owns(q) ==> SameAt(old(disk), disk, q) || (MadeDirectory(old(disk), disk, q) && OnTheWay(q, p))
      ensures forall q :: q in made ==> q in old(made) || (OnTheWay(q, p) && (owns(q) ==> q !in old(disk)))
      ensures ok ==> p in disk && !disk[p].File? && forall q :: OnTheWay(q, p) ==> q in disk && !disk[q].File?
      ensures reliable && p != "" && (forall q :: owns(q)) && ClearWay(old(disk), p) ==> ok
      ensures old(made) <= made
      ensures Operates(owns, old(disk), disk, touched, made)
    {
      Interfere();
      ghost var between := disk;
      for n := 1 to |p| + 1
        invariant forall q :: owns(q) ==> SameAt(old(disk), disk, q) || (MadeDirectory(old(disk), disk, q) && OnTheWay(q, p))
        invariant forall q :: q in made ==> q in old(made) || (OnTheWay(q, p) && (owns(q) ==> q !in old(disk)))
        invariant n == |p| + 1 && p != "" ==> p in disk
        invariant forall m :: 1 <= m < n && Component(p, m) ==> p[..m] in disk && !disk[p[..m]].File?
        invariant old(made) <= made
        invariant KeptBut(owns, old(disk), between, {}) && OwnChange(between, disk, touched, made)
      {
        if !reliable { if * { return false; } }
        if Component(p, n) {
          var q := p[..n];
          assert OnTheWay(q, p);
          if q in disk && disk[q].File? {
            assert owns(q) ==> SameAt(old(disk), disk, q);
            return false;
          }
          if q !in disk {
            assert owns(q) ==> SameAt(old(disk), disk, q);
            Make(q);
          }
        }
        assert p[..|p|] == p;
      }
      ok := *;
      assert forall q :: OnTheWay(q, p) ==> q == p[..|q|];
      assert owns(p) && p != "" && p in old(disk) && ClearWay(old(disk), p) ==> OnTheWay(p, p) && !old(disk)[p].File?;
      ok := (ok || reliable) && p in disk && !disk[p].File?;
    }
  }

  /** The file being transferred. Unless `stable`, others may change it between
      any two reads; unless `reliable`, reading may fail and the transfer may be
      cancelled. `name` is its last path component, `mode` its permission bits. */
  class SourceFile {
    var data: Content
    var mtime: Timestamp
    const stable: bool
    const reliable: bool
    const name: string
    const mode: nat
    /** Every byte that ReadAt has handed out, in order. */
    ghost var streamed: Bytes
    /** What each reading of the whole file saw, by ReadWhole or by a utility that hashes it. */
    ghost var reread: seq<Bytes>
    /** What each inspection of the file reported, and each reading of its beginning gave. */
    ghost var inspected: seq<SourceStat>
    ghost var sampled: seq<Bytes>

    constructor (data: Content, mtime: Timestamp, stable: bool, reliable: bool, name: string, mode: nat)
      ensures this.data == data && this.mtime == mtime && this.stable == stable && this.reliable == reliable
      ensures this.name == name && this.mode == mode && streamed == [] && reread == [] && inspected == [] && sampled == []
    {
      this.data, this.mtime, this.stable, this.reliable := data, mtime, stable, reliable;
      this.name, this.mode, streamed, reread, inspected, sampled := name, mode, [], [], [], [];
    }

    method Drift()
      modifies this`data, this`mtime
      ensures stable ==> data == old(data) && mtime == old(mtime)
    {
      if !stable {
        data := *;
        mtime := *;
      }
    }

    /** The number of reads after which the transfer is cancelled. */
    method Patience() returns (patience: nat)
      ensures reliable ==> patience > |data| + 1
    {
      var i: int := *;
      patience := if i >= 0 then i else 0;
      if reliable { patience := patience + |data| + 2; }
    }

    method StatSource() returns (r: Option<SourceStat>)
      modifies this`data, this`mtime, this`inspected
      ensures stable ==> data == old(data) && mtime == old(mtime)
      ensures r.Some? ==> r.value == SourceStat(|data|, mtime)
      ensures inspected == if r.Some? then old(inspected) + [r.value] else old(inspected)
      ensures reliable ==> r.Some?
    {
      Drift();
      if !reliable { if * { return None; } }
      r := Some(SourceStat(|data|, mtime));
      inspected := inspected + [r.value];
    }

    /** At most `limit` bytes at `pos`: some, or none at the end of the file. */
    method ReadAt(pos: nat, limit: nat) returns (r: Option<Bytes>)
      requires limit > 0
      modifies this`data, this`mtime, this`streamed
      ensures stable ==> data == old(data) && mtime == old(mtime)
      ensures r.Some? ==> |r.value| <= limit && (pos + |r.value| <= |data| || r.value == [])
      ensures r.Some? && pos + |r.value| <= |data| ==> r.value == data[pos..pos + |r.value|]
      ensures r.Some? && r.value == [] ==> pos >= |data|
      ensures streamed == old(streamed) + if r.Some? then r.value else []
      ensures reliable ==> r.Some?
    {
      Drift();
      assert streamed + [] == streamed;
      if !reliable { if * { return None; } }
      if pos >= |data| { return Some([]); }
      var most := Min(limit, |data| - pos);
      var n :| 0 < n <= most;
      r := Some(data[pos..pos + n]);
      streamed := streamed + r.value;
    }

    /** The whole file, read in one pass under which it may change. */
    method ReadWhole() returns (r: Option<Bytes>)
      modifies this`data, this`mtime, this`reread
      ensures stable ==> data == old(data) && mtime == old(mtime)
      ensures r.Some? && stable ==> r.value == data
      ensures reread == if r.Some? then old(reread) + [r.value] else old(reread)
      ensures reliable ==> r.Some?
    {
      Drift();
      if !reliable { if * { return None; } }
      var torn: Bytes := *;
      r := Some(if stable then data else torn);
      reread := reread + [r.value];
    }

    /** The whole file, as something else on its side sees it. */
    method ReadThere() returns (content: Bytes)
      modifies this`data, this`mtime, this`reread
      ensures stable ==> data == old(data) && mtime == old(mtime)
      ensures content == data && reread == old(reread) + [content]
    {
      Drift();
      content := data;
      reread := reread + [content];
    }

    /** The first `limit` bytes, read in one pass under which the file may change. */
    method ReadPrefix(limit: nat) returns (r: Option<Bytes>)
      modifies this`data, this`mtime, this`sampled
      ensures stable ==> data == old(data) && mtime == old(mtime)
      ensures sampled == if r.Some? then old(sampled) + [r.value] else old(sampled)
      ensures r.Some? ==> |r.value| <= limit
      ensures r.Some? && stable ==> r.value == Take(data, limit)
      ensures reliable ==> r.Some?
    {
      Drift();
      if !reliable { if * { return None; } }
      var torn: Bytes := *;
      r := Some(Take(if stable then data else torn, limit));
      sampled := sampled + [r.value];
    }
  }
}
