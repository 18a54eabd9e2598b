// The queue as the server publishes it and the page keeps it: the patch between two reads
// (src/studio/events.mjs:48-88) and its application (studio/src/lib/events.ts:16-25).
module Replica {
  import opened Wrappers

  // ---- what is published ----

  /** One entry of the `sections` array: how long it took to read, and the rest of it as JSON. */
  datatype Section = Section(ms: int, rest: string)

  /** A JSON value: null, an array of sections, or any other by its text. */
  datatype Value = Null | Sections(entries: seq<Section>) | Json(text: string)

  /** One row of the queue: the durations a read derives from its clock, and the rest of it as JSON. */
  datatype Job = Job(id: int, row: string, active: int, wall: int)

  /** The `jobs` of a read of the queue, and its other top-level keys. */
  datatype Snapshot = Snapshot(top: map<string, Value>, jobs: seq<Job>)

  datatype JobsPatch = JobsPatch(upsert: seq<Job>, remove: seq<int>, order: seq<int>)

  /** `set` with the `jobs` it may carry apart from the other keys, and the patch of the rows. */
  datatype Patch = Patch(entries: map<string, Value>, entryJobs: Option<seq<Job>>, jobs: Option<JobsPatch>)

  function At(top: map<string, Value>, key: string): Option<Value> {
    if key in top then Some(top[key]) else None
  }

  function IdsOf(jobs: seq<Job>): seq<int> {
    if jobs == [] then [] else IdsOf(jobs[..|jobs| - 1]) + [jobs[|jobs| - 1].id]
  }

  predicate UniqueIds(jobs: seq<Job>) {
    jobs == [] || (LastWith(jobs[..|jobs| - 1], jobs[|jobs| - 1].id).None? && UniqueIds(jobs[..|jobs| - 1]))
  }

  /** The row of an id, the last one when several share it. */
  function LastWith(jobs: seq<Job>, id: int): (row: Option<Job>)
    ensures row.Some? ==> row.value.id == id
  {
    if jobs == [] then None
    else if jobs[|jobs| - 1].id == id then Some(jobs[|jobs| - 1]) else LastWith(jobs[..|jobs| - 1], id)
  }

  // ---- the patch between two reads ----

  function Untimed(entries: seq<Section>): seq<Section> {
    if entries == [] then [] else [entries[0].(ms := 0)] + Untimed(entries[1..])
  }

  /** What a top-level value is compared by: the sections without their timings, any other value whole. */
  function Compared(key: string, value: Option<Value>): Option<Value> {
    if key == "sections" && value.Some? && value.value.Sections? then Some(Sections(Untimed(value.value.entries))) else value
  }

  /** What a row is compared by: all of it but the durations. */
  function Signature(job: Job): Job {
    job.(active := 0, wall := 0)
  }

  predicate KeyChanged(previous: Snapshot, next: Snapshot, key: string) {
    Compared(key, At(previous.top, key)) != Compared(key, At(next.top, key))
  }

  ghost function ChangedKeys(previous: Snapshot, next: Snapshot): map<string, Value> {
    map key | key in previous.top.Keys + next.top.Keys && KeyChanged(previous, next, key) :: At(next.top, key).GetOr(Null)
  }

  /** The top-level keys whose value changed since the previous read, a key that went missing as null. */
  method FindChangedKeys(previous: Snapshot, next: Snapshot) returns (entries: map<string, Value>)
    ensures entries == ChangedKeys(previous, next)
  {
    entries := map[];
    var keys := previous.top.Keys + next.top.Keys;
    var left := keys;
    while left != {}
      invariant left <= keys
      invariant entries == map key | key in keys - left && KeyChanged(previous, next, key) :: At(next.top, key).GetOr(Null)
    {
      var key :| key in left;
      left := left - {key};
      if Compared(key, At(previous.top, key)) != Compared(key, At(next.top, key)) {
        entries := entries[key := At(next.top, key).GetOr(Null)];
      }
    }
  }

  predicate RowChanged(before: seq<Job>, job: Job) {
    var known := LastWith(before, job.id);
    known.None? || Signature(known.value) != Signature(job)
  }

  function Upserts(before: seq<Job>, after: seq<Job>): seq<Job> {
    if after == [] then []
    else
      var rest := Upserts(before, after[..|after| - 1]);
      if RowChanged(before, after[|after| - 1]) then rest + [after[|after| - 1]] else rest
  }

  /** The ids of the rows in the order a map built from them lists its keys. */
  function KeysOf(jobs: seq<Job>): seq<int> {
    if jobs == [] then []
    else
      var rest, last := jobs[..|jobs| - 1], jobs[|jobs| - 1].id;
      if LastWith(rest, last).Some? then KeysOf(rest) else KeysOf(rest) + [last]
  }

  function Gone(keys: seq<int>, after: seq<Job>): seq<int> {
    if keys == [] then []
    else
      var rest := Gone(keys[..|keys| - 1], after);
      if LastWith(after, keys[|keys| - 1]).None? then rest + [keys[|keys| - 1]] else rest
  }

  /** The rows that changed, appeared or left and the new order; none when nothing moved. */
  function ChangedJobs(before: seq<Job>, after: seq<Job>): Option<JobsPatch> {
    var upsert, remove, order := Upserts(before, after), Gone(KeysOf(before), after), IdsOf(after);
    if upsert == [] && remove == [] && order == KeysOf(before) then None else Some(JobsPatch(upsert, remove, order))
  }

  /** The patch from one read to the next, none when nothing changed. */
  ghost function Difference(previous: Snapshot, next: Snapshot): Option<Patch> {
    var entries, jobs := ChangedKeys(previous, next), ChangedJobs(previous.jobs, next.jobs);
    if entries == map[] && jobs.None? then None else Some(Patch(entries, None, jobs))
  }

  method SnapshotPatch(previous: Snapshot, next: Snapshot) returns (patch: Option<Patch>)
    ensures patch == Difference(previous, next)
  {
    var entries := FindChangedKeys(previous, next);
    var jobs := ChangedJobs(previous.jobs, next.jobs);
    patch := if entries == map[] && jobs.None? then None else Some(Patch(entries, None, jobs));
  }

  // ---- applying a patch ----

  /** The row of an id after some upserts. */
  function Upserted(previous: seq<Job>, upsert: seq<Job>, id: int): Option<Job> {
    if LastWith(upsert, id).Some? then LastWith(upsert, id) else LastWith(previous, id)
  }

  /** The row an id has once rows were upserted and then removed. */
  function RowOf(previous: seq<Job>, patch: JobsPatch, id: int): (row: Option<Job>)
    ensures row.Some? ==> row.value.id == id
  {
    if id in patch.remove then None else Upserted(previous, patch.upsert, id)
  }

  /** The rows of the ids that have one, in the order given. */
  function Picked(previous: seq<Job>, patch: JobsPatch, order: seq<int>): seq<Job> {
    if order == [] then []
    else
      var rest, row := Picked(previous, patch, order[..|order| - 1]), RowOf(previous, patch, order[|order| - 1]);
      if row.Some? then rest + [row.value] else rest
  }

  /** The snapshot a patch turns another one into. */
  function Patched(previous: Snapshot, patch: Patch): Snapshot {
    Snapshot(previous.top + patch.entries,
             if patch.jobs.Some? then Picked(previous.jobs, patch.jobs.value, patch.jobs.value.order)
             else patch.entryJobs.GetOr(previous.jobs))
  }

  /** The table of rows by id holds, for each id, its last row. */
  ghost predicate Indexes(byId: map<int, Job>, rows: seq<Job>) {
    forall id {:trigger id in byId} {:trigger LastWith(rows, id)} ::
      LastWith(rows, id) == if id in byId then Some(byId[id]) else None
  }

  /** The rows by id. */
  method IndexRows(rows: seq<Job>) returns (byId: map<int, Job>)
    ensures Indexes(byId, rows)
  {
    byId := map[];
    for k := 0 to |rows|
      invariant Indexes(byId, rows[..k])
    {
      assert rows[..k + 1][..k] == rows[..k];
      byId := byId[rows[k].id := rows[k]];
    }
    assert rows[..|rows|] == rows;
  }

  /** Applies one patch: changed keys replaced, rows upserted, removed and put in order. */
  method ApplyPatch(previous: Snapshot, patch: Patch) returns (next: Snapshot)
    ensures next == Patched(previous, patch)
  {
    next := Snapshot(previous.top + patch.entries, patch.entryJobs.GetOr(previous.jobs));
    if patch.jobs.None? {
      return;
    }
    var jobs := patch.jobs.value;
    var byId := IndexRows(previous.jobs);
    byId := UpsertRows(byId, previous.jobs, jobs.upsert);
    byId := RemoveRows(byId, previous.jobs, jobs);
    var rows: seq<Job> := [];
    for k := 0 to |jobs.order|
      invariant rows == Picked(previous.jobs, jobs, jobs.order[..k])
    {
      assert jobs.order[..k + 1][..k] == jobs.order[..k];
      assert RowOf(previous.jobs, jobs, jobs.order[k]) == if jobs.order[k] in byId then Some(byId[jobs.order[k]]) else None;
      if jobs.order[k] in byId {
        rows := rows + [byId[jobs.order[k]]];
      }
    }
    assert jobs.order[..|jobs.order|] == jobs.order;
    next := next.(jobs := rows);
  }

  method UpsertRows(table: map<int, Job>, previous: seq<Job>, upsert: seq<Job>) returns (byId: map<int, Job>)
    requires Indexes(table, previous)
    ensures forall id {:trigger Upserted(previous, upsert, id)} ::
      Upserted(previous, upsert, id) == if id in byId then Some(byId[id]) else None
  {
    byId := table;
    for k := 0 to |upsert|
      invariant forall id {:trigger Upserted(previous, upsert[..k], id)} ::
        Upserted(previous, upsert[..k], id) == if id in byId then Some(byId[id]) else None
    {
      assert upsert[..k + 1][..k] == upsert[..k];
      ghost var was := byId;
      byId := byId[upsert[k].id := upsert[k]];
      forall id
        ensures Upserted(previous, upsert[..k + 1], id) == if id in byId then Some(byId[id]) else None
      {
        assert Upserted(previous, upsert[..k], id) == if id in was then Some(was[id]) else None;
      }
    }
    assert upsert[..|upsert|] == upsert;
  }

  method RemoveRows(table: map<int, Job>, previous: seq<Job>, jobs: JobsPatch) returns (byId: map<int, Job>)
    requires forall id {:trigger Upserted(previous, jobs.upsert, id)} ::
      Upserted(previous, jobs.upsert, id) == if id in table then Some(table[id]) else None
    ensures forall id {:trigger RowOf(previous, jobs, id)} ::
      RowOf(previous, jobs, id) == if id in byId then Some(byId[id]) else None
  {
    byId := table;
    for k := 0 to |jobs.remove|
      invariant byId == map id | id in table && id !in jobs.remove[..k] :: table[id]
    {
      byId := byId - {jobs.remove[k]};
      assert jobs.remove[..k + 1] == jobs.remove[..k] + [jobs.remove[k]];
    }
    assert jobs.remove[..|jobs.remove|] == jobs.remove;
    forall id
      ensures RowOf(previous, jobs, id) == if id in byId then Some(byId[id]) else None
    {
      assert Upserted(previous, jobs.upsert, id) == if id in table then Some(table[id]) else None;
    }
  }
}
