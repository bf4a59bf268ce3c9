/** The desktop state file and its atomic replacement. Every operation on the
    directory may fail unless it is `reliable`, and a process that dies is one whose remaining
    operations all fail, so what a method promises on every return holds at
    every point where it can be stopped. Power loss is stronger: bytes that were
    not synced may be lost, which `recoverable` keeps track of. */
module StateFile {
  import opened Basics

  datatype Temporary = Temporary(data: Bytes, synced: bool)

  ghost predicate Whatever(content: Option<Bytes>) { true }

  class StateDirectory {
    /** The bytes at the state path; None while there is no file. */
    var current: Option<Bytes>
    var temporary: Option<Temporary>
    /** What the state path may hold if the machine loses power now. */
    ghost var recoverable: iset<Option<Bytes>>
    const reliable: bool

    constructor (initial: Option<Bytes>, reliable: bool)
      ensures current == initial && temporary == None && recoverable == iset{initial} && this.reliable == reliable
    {
      current, temporary, this.reliable := initial, None, reliable;
      recoverable := iset{initial};
    }

    method CreateTemp() returns (ok: bool)
      modifies this`temporary
      ensures ok ==> temporary == Some(Temporary([], false))
      ensures reliable ==> ok
    {
      if !reliable { if * { return false; } }
      temporary := Some(Temporary([], false));
      ok := true;
    }

    method Chmod() returns (ok: bool)
      ensures reliable ==> ok
    {
      ok := *;
      ok := ok || reliable;
    }

    /** A failed write leaves some prefix of the data. */
    method Write(data: Bytes) returns (ok: bool)
      requires temporary.Some?
      modifies this`temporary
      ensures temporary.Some?
      ensures ok ==> temporary.value.data == old(temporary.value.data) + data && !temporary.value.synced
      ensures reliable ==> ok
    {
      ok := *;
      ok := ok || reliable;
      assert 0 <= |data|;
      var n :| 0 <= n <= |data|;
      var written := if ok then data else data[..n];
      temporary := Some(Temporary(temporary.value.data + written, false));
    }

    method Sync() returns (ok: bool)
      requires temporary.Some?
      modifies this`temporary
      ensures temporary.Some? && temporary.value.data == old(temporary.value.data)
      ensures ok ==> temporary.value.synced
      ensures reliable ==> ok
    {
      ok := *;
      ok := ok || reliable;
      if ok { temporary := Some(temporary.value.(synced := true)); }
    }

    method Close() returns (ok: bool)
      ensures reliable ==> ok
    {
      ok := *;
      ok := ok || reliable;
    }

    /** Renaming is atomic, but the directory entry itself is not synced: after
        power loss either name may win. An unsynced file may hold anything. */
    method Rename() returns (ok: bool)
      requires temporary.Some?
      modifies this
      ensures !ok ==> current == old(current) && recoverable == old(recoverable)
      ensures ok ==> current == Some(old(temporary.value.data))
      ensures ok && old(temporary.value.synced) ==> recoverable == old(recoverable) + iset{current}
      ensures reliable ==> ok
    {
      ok := *;
      ok := ok || reliable;
      if ok {
        var t := temporary.value;
        current, temporary := Some(t.data), None;
        recoverable := if t.synced then recoverable + iset{current} else iset x | Whatever(x);
      }
    }

    method RemoveTemporary()
      modifies this`temporary
    {
      if * { temporary := None; }
    }

    /** Replaces the state file. However it ends, the path holds the old bytes
        or all of the new ones, now and after power loss; an error means old. */
    method WriteLocked(data: Bytes) returns (ok: bool)
      modifies this
      ensures current == if ok then Some(data) else old(current)
      ensures recoverable <= old(recoverable) + iset{Some(data)}
      ensures reliable ==> ok
    {
      ok := CreateTemp();
      if !ok { return; }
      ok := Chmod();
      if !ok { var _ := Close(); RemoveTemporary(); return; }
      ok := Write(data);
      if !ok { var _ := Close(); RemoveTemporary(); return; }
      assert temporary.value.data == data;
      ok := Sync();
      if !ok { var _ := Close(); RemoveTemporary(); return; }
      ok := Close();
      if !ok { RemoveTemporary(); return; }
      ok := Rename();
      RemoveTemporary();
    }
  }
}
