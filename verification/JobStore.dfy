/** The state store: read, change and atomically rewrite the persisted jobs and
    history. */
module JobStore {
  import opened Basics
  import opened JobRecords
  import opened StateFile

  const MAX_HISTORY_ENTRIES: nat := 100

  type Entry = string

  /** Sessions and profiles travel along as the part nothing here looks at. */
  datatype State = State(jobs: seq<Record>, history: seq<Entry>, rest: Bytes)

  /** The JSON form of the state; only that decoding inverts encoding is assumed. */
  datatype Codec = Codec(encode: State -> Bytes, decode: Bytes -> Option<State>)

  ghost predicate Faithful(c: Codec) {
    forall s :: c.decode(c.encode(s)) == Some(s)
  }

  function WithEntry(history: seq<Entry>, e: Entry): seq<Entry> {
    var longer := history + [e];
    if |longer| > MAX_HISTORY_ENTRIES then longer[|longer| - MAX_HISTORY_ENTRIES..] else longer
  }

  /** The newest entry comes last, after as many of the older ones as fit. */
  lemma NewestAreKept(history: seq<Entry>, e: Entry)
    ensures var kept := WithEntry(history, e);
            && |kept| == Min(|history| + 1, 100) && kept[|kept| - 1] == e
            && kept[..|kept| - 1] == history[|history| + 1 - |kept|..]
  {
    var kept := WithEntry(history, e);
    assert kept == (history + [e])[|history| + 1 - |kept|..];
  }

  class StateStore {
    const directory: StateDirectory
    const codec: Codec

    constructor (directory: StateDirectory, codec: Codec)
      ensures this.directory == directory && this.codec == codec
    {
      this.directory, this.codec := directory, codec;
    }

    /** What reading the file gives: a missing file is an empty state, a file
        that does not decode is an error. */
    function Loaded(): Option<State>
      reads directory
    {
      match directory.current
      case None => Some(State([], [], []))
      case Some(data) => codec.decode(data)
    }

    method ReadLocked() returns (r: Option<State>)
      ensures r.Some? || directory.reliable ==> r == Loaded()
      ensures directory.reliable && directory.current == None ==> r == Some(State([], [], []))
      ensures directory.reliable && directory.current.Some? ==> r == codec.decode(directory.current.value)
    {
      if !directory.reliable { if * { return None; } }
      r := match directory.current
        case None => Some(State([], [], []))
        case Some(data) => codec.decode(data);
    }

    method ListTransferJobs() returns (r: Option<seq<Record>>)
      requires Faithful(codec)
      ensures r.Some? ==> Loaded().Some? && r.value == ByCreation(Loaded().value.jobs)
      ensures directory.reliable && Loaded().Some? ==> r.Some?
    {
      var state := ReadLocked();
      r := match state case None => None case Some(s) => Some(ByCreation(s.jobs));
    }

    method SaveTransferJob(record: Record) returns (ok: bool)
      requires Faithful(codec)
      modifies directory
      ensures record.id == "" ==> !ok
      ensures directory.reliable && record.id != "" && old(Loaded()).Some? ==> ok
      ensures !ok ==> Loaded() == old(Loaded())
      ensures ok ==> old(Loaded()).Some? &&
                     Loaded() == Some(old(Loaded()).value.(jobs := Upsert(old(Loaded()).value.jobs, record)))
      ensures old(Loaded()).Some? ==>
                directory.recoverable <= old(directory.recoverable) +
                  iset{Some(codec.encode(old(Loaded()).value.(jobs := Upsert(old(Loaded()).value.jobs, record))))}
    {
      if record.id == "" { return false; }
      var state := ReadLocked();
      if state.None? { return false; }
      var jobs := state.value.jobs;
      var updated, index := false, 0;
      while index < |jobs| && !updated
        invariant 0 <= index <= |jobs|
        invariant !updated ==> jobs == state.value.jobs && forall j :: 0 <= j < index ==> jobs[j].id != record.id
        invariant updated ==> jobs == Upsert(state.value.jobs, record)
      {
        if jobs[index].id == record.id {
          assert index == IndexOf(state.value.jobs, record.id);
          jobs := jobs[index := record];
          updated := true;
        }
        index := index + 1;
      }
      if !updated { jobs := jobs + [record]; }
      assert jobs == Upsert(state.value.jobs, record);
      ok := directory.WriteLocked(codec.encode(state.value.(jobs := jobs)));
    }

    method DeleteTransferJob(id: Id) returns (ok: bool)
      requires Faithful(codec)
      modifies directory
      ensures id == "" ==> !ok
      ensures directory.reliable && id != "" && old(Loaded()).Some? ==> ok
      ensures !ok ==> Loaded() == old(Loaded())
      ensures ok ==> old(Loaded()).Some? &&
                     Loaded() == Some(old(Loaded()).value.(jobs := Deleted(old(Loaded()).value.jobs, id)))
    {
      if id == "" { return false; }
      var state := ReadLocked();
      if state.None? { return false; }
      var before := state.value.jobs;
      var a := new Record[|before|](i requires 0 <= i < |before| => before[i]);
      assert a[..|before|] == before;
      var kept := FilterInPlace(a, |before|, (r: Record) => r.id != id);
      ok := directory.WriteLocked(codec.encode(state.value.(jobs := a[..kept])));
    }

    /** History keeps its newest entries, at most a hundred, the latest last. */
    method RecordHistory(entry: Entry) returns (ok: bool)
      requires Faithful(codec)
      modifies directory
      ensures !ok ==> Loaded() == old(Loaded())
      ensures ok ==> old(Loaded()).Some? &&
                     Loaded() == Some(old(Loaded()).value.(history := WithEntry(old(Loaded()).value.history, entry)))
      ensures directory.reliable && old(Loaded()).Some? ==> ok
    {
      var state := ReadLocked();
      if state.None? { return false; }
      var history := state.value.history + [entry];
      if |history| > MAX_HISTORY_ENTRIES {
        history := history[|history| - MAX_HISTORY_ENTRIES..];
      }
      ok := directory.WriteLocked(codec.encode(state.value.(history := history)));
    }
  }
}
