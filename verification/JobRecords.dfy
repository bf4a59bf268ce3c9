/** The persisted job record and the specification of the job list kept on
    disk: upsert, delete, and the list in creation order. */
module JobRecords {
  import opened Basics

  type Id = string

  datatype Auth = KeyAuth | PasswordAuth

  datatype Status =
    | Queued | Running | Cancelling | Pausing
    | Paused | NeedsPassword | Verified | Interrupted | Failed | Canceled

  /** A worker owns the job. */
  predicate Active(s: Status) {
    s.Running? || s.Cancelling? || s.Pausing?
  }

  predicate Terminal(s: Status) {
    s.Verified? || s.Interrupted? || s.Failed? || s.Canceled?
  }

  predicate Retryable(s: Status) {
    s.Paused? || s.NeedsPassword? || s.Interrupted? || s.Failed? || s.Canceled?
  }

  /** `verified` is the engine's own verdict, kept beside the status. */
  datatype Record = Record(id: Id, created: int, auth: Auth, status: Status, verified: bool)

  ghost predicate UniqueIds(records: seq<Record>) {
    forall i, j :: 0 <= i < j < |records| ==> records[i].id != records[j].id
  }

  function IndexOf(records: seq<Record>, id: Id): (i: nat)
    ensures i <= |records|
    ensures i < |records| ==> records[i].id == id
    ensures forall j :: 0 <= j < i ==> records[j].id != id
  {
    if records == [] || records[0].id == id then 0 else 1 + IndexOf(records[1..], id)
  }

  function Upsert(records: seq<Record>, record: Record): seq<Record> {
    var i := IndexOf(records, record.id);
    if i < |records| then records[i := record] else records + [record]
  }

  function Deleted(records: seq<Record>, id: Id): seq<Record> {
    Filter(records, (r: Record) => r.id != id)
  }

  /** Saving a record leaves identifiers unique, makes that record the one
      stored under its identifier, in the place of an older one or else at the
      end, and touches no other. */
  lemma UpsertFacts(records: seq<Record>, record: Record)
    requires UniqueIds(records)
    ensures UniqueIds(Upsert(records, record))
    ensures forall r :: r in Upsert(records, record) <==> r == record || (r in records && r.id != record.id)
    ensures forall k :: 0 <= k < |records| && records[k].id == record.id ==> Upsert(records, record) == records[k := record]
    ensures (forall k :: 0 <= k < |records| ==> records[k].id != record.id) ==> Upsert(records, record) == records + [record]
  {
    var i := IndexOf(records, record.id);
    var after := Upsert(records, record);
    assert after[i] == record;
    forall r | r in records && r.id != record.id ensures r in after {
      var j :| 0 <= j < |records| && records[j] == r;
      assert after[j] == r;
    }
  }

  /** Deleting removes exactly the record stored under the identifier. */
  lemma {:induction false} DeletedFacts(records: seq<Record>, id: Id)
    requires UniqueIds(records)
    ensures UniqueIds(Deleted(records, id))
    ensures forall r :: r in Deleted(records, id) <==> r in records && r.id != id
  {
    FilterKeeps(records, (r: Record) => r.id != id);
    if records != [] {
      var front := records[..|records| - 1];
      DeletedFacts(front, id);
      var kept := Deleted(front, id);
      forall j | 0 <= j < |kept| ensures kept[j].id != records[|records| - 1].id {
        assert kept[j] in front;
      }
    }
  }

  /** A record goes after those created no later: the order a stable sort gives. */
  function Insert(record: Record, sorted: seq<Record>): seq<Record> {
    if sorted == [] then [record]
    else
      var last := sorted[|sorted| - 1];
      if last.created <= record.created then sorted + [record]
      else Insert(record, sorted[..|sorted| - 1]) + [last]
  }

  function ByCreation(records: seq<Record>): seq<Record> {
    if records == [] then [] else Insert(records[|records| - 1], ByCreation(records[..|records| - 1]))
  }

  ghost predicate InCreationOrder(records: seq<Record>) {
    forall i, j :: 0 <= i < j < |records| ==> records[i].created <= records[j].created
  }

  lemma {:induction false} InsertFacts(record: Record, sorted: seq<Record>)
    requires InCreationOrder(sorted) && UniqueIds(sorted)
    requires forall r :: r in sorted ==> r.id != record.id
    ensures forall r :: r in Insert(record, sorted) <==> r == record || r in sorted
    ensures InCreationOrder(Insert(record, sorted)) && UniqueIds(Insert(record, sorted))
  {
    if sorted != [] && sorted[|sorted| - 1].created > record.created {
      var front, last := sorted[..|sorted| - 1], sorted[|sorted| - 1];
      InsertFacts(record, front);
      var result := Insert(record, front);
      forall i | 0 <= i < |result| ensures result[i].created <= last.created && result[i].id != last.id {
        assert result[i] == record || result[i] in front;
      }
    }
  }

  /** Deleting leaves what was before the record and then what was after it. */
  lemma DeletedAt(records: seq<Record>, id: Id)
    requires UniqueIds(records)
    ensures forall k :: 0 <= k < |records| && records[k].id == id ==> Deleted(records, id) == records[..k] + records[k + 1..]
    ensures (forall k :: 0 <= k < |records| ==> records[k].id != id) ==> Deleted(records, id) == records
  {
    forall k | 0 <= k < |records| && records[k].id == id ensures Deleted(records, id) == records[..k] + records[k + 1..] {
      FilterDropsOne(records, k, (r: Record) => r.id != id);
    }
    if forall k :: 0 <= k < |records| ==> records[k].id != id { FilterDropsNone(records, (r: Record) => r.id != id); }
  }

  /** Listing for a restart loses, repeats and invents nothing, and orders the
      records by creation. */
  lemma {:induction false} ByCreationFacts(records: seq<Record>)
    requires UniqueIds(records)
    ensures InCreationOrder(ByCreation(records)) && UniqueIds(ByCreation(records))
    ensures forall r :: r in ByCreation(records) <==> r in records
  {
    if records != [] {
      var front, last := records[..|records| - 1], records[|records| - 1];
      ByCreationFacts(front);
      InsertFacts(last, ByCreation(front));
    }
  }

  ghost predicate Before(records: seq<Record>, a: Record, b: Record) {
    exists i, j :: 0 <= i < j < |records| && records[i] == a && records[j] == b
  }

  /** Of two records created at the same time, the one stored first is listed first. */
  lemma {:induction false} ByCreationIsStable(records: seq<Record>, a: Record, b: Record)
    requires UniqueIds(records) && Before(records, a, b) && a.created == b.created
    ensures Before(ByCreation(records), a, b)
  {
    var i, j :| 0 <= i < j < |records| && records[i] == a && records[j] == b;
    var front, last := records[..|records| - 1], records[|records| - 1];
    ByCreationFacts(front);
    assert front[i] == a;
    if j < |front| {
      assert front[j] == b;
      ByCreationIsStable(front, a, b);
      InsertKeepsOrder(last, ByCreation(front), a, b);
    } else {
      InsertGoesAfter(last, ByCreation(front), a);
    }
  }

  lemma {:induction false} InsertKeepsOrder(record: Record, sorted: seq<Record>, a: Record, b: Record)
    requires Before(sorted, a, b)
    ensures Before(Insert(record, sorted), a, b)
  {
    var i, j :| 0 <= i < j < |sorted| && sorted[i] == a && sorted[j] == b;
    var front, last := sorted[..|sorted| - 1], sorted[|sorted| - 1];
    var result := Insert(record, sorted);
    if last.created <= record.created {
      assert result[i] == a && result[j] == b;
    } else if j < |front| {
      assert front[i] == a && front[j] == b;
      InsertKeepsOrder(record, front, a, b);
      var x, y :| 0 <= x < y < |Insert(record, front)| && Insert(record, front)[x] == a && Insert(record, front)[y] == b;
      assert result[x] == a && result[y] == b;
    } else {
      assert front[i] == a;
      InsertHas(record, front, a);
      var x :| 0 <= x < |Insert(record, front)| && Insert(record, front)[x] == a;
      assert result[x] == a && result[|result| - 1] == b;
    }
  }

  lemma {:induction false} InsertHas(record: Record, sorted: seq<Record>, a: Record)
    ensures a in Insert(record, sorted) <==> a == record || a in sorted
  {
    if sorted != [] {
      var front, last := sorted[..|sorted| - 1], sorted[|sorted| - 1];
      InsertHas(record, front, a);
      assert sorted == front + [last];
    }
  }

  lemma {:induction false} InsertGoesAfter(record: Record, sorted: seq<Record>, a: Record)
    requires a in sorted && a.created <= record.created && InCreationOrder(sorted)
    ensures Before(Insert(record, sorted), a, record)
  {
    var i :| 0 <= i < |sorted| && sorted[i] == a;
    var front, last := sorted[..|sorted| - 1], sorted[|sorted| - 1];
    var result := Insert(record, sorted);
    if last.created <= record.created {
      assert result[i] == a && result[|sorted|] == record;
    } else {
      assert front[i] == a;
      InsertGoesAfter(record, front, a);
      var x, y :| 0 <= x < y < |Insert(record, front)| && Insert(record, front)[x] == a && Insert(record, front)[y] == record;
      assert result[x] == a && result[y] == record;
    }
  }
}
