// What patching guarantees: the page's copy of the queue agrees with the server's after every patch, and applying a
// patch again changes nothing.
module ReplicaLaws {
  import opened Wrappers
  import opened Replica

  // ---- agreement ----

  /** A top-level value as a reader takes it: the sections without their timings, null like a missing key. */
  function Read(key: string, value: Option<Value>): Option<Value> {
    if value == Some(Null) then None else Compared(key, value)
  }

  ghost predicate TopAgrees(copy: map<string, Value>, top: map<string, Value>) {
    forall key {:trigger At(copy, key)} {:trigger At(top, key)} :: Read(key, At(copy, key)) == Read(key, At(top, key))
  }

  /** The same rows in the same order, but for the durations the page ticks itself. */
  predicate JobsAgree(copy: seq<Job>, jobs: seq<Job>)
    decreases |jobs|
  {
    && |copy| == |jobs|
    && (jobs == [] ||
        (Signature(copy[|copy| - 1]) == Signature(jobs[|jobs| - 1]) && JobsAgree(copy[..|copy| - 1], jobs[..|jobs| - 1])))
  }

  ghost predicate Agrees(copy: Snapshot, server: Snapshot) {
    TopAgrees(copy.top, server.top) && JobsAgree(copy.jobs, server.jobs)
  }

  lemma {:induction false} JobsAgreeWithThemselves(jobs: seq<Job>)
    ensures JobsAgree(jobs, jobs)
  {
    if jobs != [] {
      JobsAgreeWithThemselves(jobs[..|jobs| - 1]);
    }
  }

  lemma {:induction false} SnapshotAgreesWithItself(server: Snapshot)
    ensures Agrees(server, server)
  {
    JobsAgreeWithThemselves(server.jobs);
  }

  lemma {:induction false} TopIsPatched(copy: map<string, Value>, previous: Snapshot, next: Snapshot)
    requires TopAgrees(copy, previous.top)
    ensures TopAgrees(copy + ChangedKeys(previous, next), next.top)
  {
    var entries := ChangedKeys(previous, next);
    forall key
      ensures Read(key, At(copy + entries, key)) == Read(key, At(next.top, key))
    {
      assert At(copy + entries, key) == if key in entries then Some(entries[key]) else At(copy, key);
      if key !in entries {
        assert Compared(key, At(previous.top, key)) == Compared(key, At(next.top, key));
        SameComparedSameRead(key, At(previous.top, key), At(next.top, key));
      }
    }
  }

  lemma {:induction false} SameComparedSameRead(key: string, a: Option<Value>, b: Option<Value>)
    requires Compared(key, a) == Compared(key, b)
    ensures Read(key, a) == Read(key, b)
  {
  }

  lemma {:induction false} AgreeingRowsById(copy: seq<Job>, jobs: seq<Job>, id: int)
    requires JobsAgree(copy, jobs)
    ensures match LastWith(jobs, id)
            case None => LastWith(copy, id).None?
            case Some(job) => LastWith(copy, id).Some? && Signature(LastWith(copy, id).value) == Signature(job)
    decreases |jobs|
  {
    if jobs != [] {
      var mine, theirs := copy[|copy| - 1], jobs[|jobs| - 1];
      assert Signature(mine).id == mine.id && Signature(theirs).id == theirs.id;
      AgreeingRowsById(copy[..|copy| - 1], jobs[..|jobs| - 1], id);
    }
  }

  lemma {:induction false} UpsertedById(before: seq<Job>, after: seq<Job>, id: int)
    requires UniqueIds(after)
    ensures LastWith(Upserts(before, after), id) ==
            match LastWith(after, id)
            case None => None
            case Some(job) => if RowChanged(before, job) then Some(job) else None
  {
    if after != [] {
      var rest, last := after[..|after| - 1], after[|after| - 1];
      UpsertedById(before, rest, id);
      assert (Upserts(before, rest) + [last])[..|Upserts(before, rest)|] == Upserts(before, rest);
    }
  }

  lemma {:induction false} GoneRowsAreNotNext(keys: seq<int>, after: seq<Job>, id: int)
    requires LastWith(after, id).Some?
    ensures id !in Gone(keys, after)
  {
    if keys != [] {
      GoneRowsAreNotNext(keys[..|keys| - 1], after, id);
    }
  }

  /** After the patch, the row of an id of the next read is that row but for its durations. */
  lemma {:induction false} PatchedRow(copy: seq<Job>, before: seq<Job>, after: seq<Job>, id: int)
    requires JobsAgree(copy, before) && UniqueIds(after) && LastWith(after, id).Some?
    ensures var patch := JobsPatch(Upserts(before, after), Gone(KeysOf(before), after), IdsOf(after));
            RowOf(copy, patch, id).Some? && Signature(RowOf(copy, patch, id).value) == Signature(LastWith(after, id).value)
  {
    GoneRowsAreNotNext(KeysOf(before), after, id);
    UpsertedById(before, after, id);
    AgreeingRowsById(copy, before, id);
  }

  lemma {:induction false} PickingAgrees(copy: seq<Job>, patch: JobsPatch, part: seq<Job>)
    requires forall job {:trigger RowOf(copy, patch, job.id)} :: job in part ==>
               RowOf(copy, patch, job.id).Some? && Signature(RowOf(copy, patch, job.id).value) == Signature(job)
    ensures JobsAgree(Picked(copy, patch, IdsOf(part)), part)
  {
    if part != [] {
      var rest, last := part[..|part| - 1], part[|part| - 1];
      PickingAgrees(copy, patch, rest);
      assert IdsOf(part)[..|IdsOf(part)| - 1] == IdsOf(rest);
      var picked := Picked(copy, patch, IdsOf(rest));
      var row := RowOf(copy, patch, last.id).value;
      assert (picked + [row])[..|picked|] == picked;
    }
  }

  lemma {:induction false} UniqueRowIsFound(jobs: seq<Job>, job: Job)
    requires UniqueIds(jobs) && job in jobs
    ensures LastWith(jobs, job.id) == Some(job)
  {
    var rest := jobs[..|jobs| - 1];
    assert jobs == rest + [jobs[|jobs| - 1]];
    if job in rest {
      UniqueRowIsFound(rest, job);
    }
  }

  lemma {:induction false} ChangedRowsArePatched(copy: seq<Job>, before: seq<Job>, after: seq<Job>)
    requires JobsAgree(copy, before) && UniqueIds(after)
    ensures var patch := JobsPatch(Upserts(before, after), Gone(KeysOf(before), after), IdsOf(after));
            JobsAgree(Picked(copy, patch, IdsOf(after)), after)
  {
    var patch := JobsPatch(Upserts(before, after), Gone(KeysOf(before), after), IdsOf(after));
    forall job | job in after
      ensures RowOf(copy, patch, job.id).Some? && Signature(RowOf(copy, patch, job.id).value) == Signature(job)
    {
      UniqueRowIsFound(after, job);
      PatchedRow(copy, before, after, job.id);
    }
    PickingAgrees(copy, patch, after);
  }

  lemma {:induction false} UniqueKeysAreIds(jobs: seq<Job>)
    requires UniqueIds(jobs)
    ensures KeysOf(jobs) == IdsOf(jobs)
  {
    if jobs != [] {
      UniqueKeysAreIds(jobs[..|jobs| - 1]);
    }
  }

  /** Rows none of which changed against the ones before them agree with whatever agrees with those, if the ids line up. */
  lemma {:induction false} UnchangedRowsAgree(copy: seq<Job>, before: seq<Job>, known: seq<Job>, after: seq<Job>)
    requires JobsAgree(copy, before) && IdsOf(before) == IdsOf(after) && Upserts(known, after) == []
    requires forall job :: job in before ==> LastWith(known, job.id) == Some(job)
    ensures JobsAgree(copy, after)
    decreases |after|
  {
    IdsAreAsMany(before);
    IdsAreAsMany(after);
    if after != [] {
      var was, now := before[|before| - 1], after[|after| - 1];
      assert IdsOf(before)[..|before| - 1] == IdsOf(before[..|before| - 1]);
      assert IdsOf(after)[..|after| - 1] == IdsOf(after[..|after| - 1]);
      assert was.id == IdsOf(before)[|before| - 1] == IdsOf(after)[|after| - 1] == now.id;
      assert was in before;
      UnchangedRowsAgree(copy[..|copy| - 1], before[..|before| - 1], known, after[..|after| - 1]);
    }
  }

  lemma {:induction false} IdsAreAsMany(jobs: seq<Job>)
    ensures |IdsOf(jobs)| == |jobs|
  {
    if jobs != [] {
      IdsAreAsMany(jobs[..|jobs| - 1]);
    }
  }

  lemma {:induction false} RowsArePatched(copy: seq<Job>, before: seq<Job>, after: seq<Job>)
    requires JobsAgree(copy, before) && UniqueIds(before) && UniqueIds(after)
    ensures match ChangedJobs(before, after)
            case None => JobsAgree(copy, after)
            case Some(patch) => JobsAgree(Picked(copy, patch, patch.order), after)
  {
    ChangedRowsArePatched(copy, before, after);
    if ChangedJobs(before, after).None? {
      UniqueKeysAreIds(before);
      forall job | job in before
        ensures LastWith(before, job.id) == Some(job)
      {
        UniqueRowIsFound(before, job);
      }
      UnchangedRowsAgree(copy, before, before, after);
    }
  }

  /** The copy a patch leaves agrees with the server's next read; so does the copy itself when there is no patch. */
  lemma {:induction false} PatchKeepsAgreement(copy: Snapshot, previous: Snapshot, next: Snapshot)
    requires Agrees(copy, previous) && UniqueIds(previous.jobs) && UniqueIds(next.jobs)
    ensures match Difference(previous, next)
            case None => Agrees(copy, next)
            case Some(patch) => Agrees(Patched(copy, patch), next)
  {
    TopIsPatched(copy.top, previous, next);
    RowsArePatched(copy.jobs, previous.jobs, next.jobs);
    if Difference(previous, next).None? {
      assert copy.top + map[] == copy.top;
    }
  }

  lemma {:induction false} AgreeingIds(before: seq<Job>, after: seq<Job>)
    requires JobsAgree(before, after)
    ensures IdsOf(before) == IdsOf(after)
    decreases |after|
  {
    if after != [] {
      AgreeingIds(before[..|before| - 1], after[..|after| - 1]);
      assert Signature(before[|before| - 1]).id == before[|before| - 1].id;
    }
  }

  lemma {:induction false} NothingUpserted(before: seq<Job>, part: seq<Job>)
    requires forall job {:trigger RowChanged(before, job)} :: job in part ==> !RowChanged(before, job)
    ensures Upserts(before, part) == []
  {
    if part != [] {
      NothingUpserted(before, part[..|part| - 1]);
      assert part[|part| - 1] in part;
    }
  }

  lemma {:induction false} NothingGone(jobs: seq<Job>, before: seq<Job>, after: seq<Job>)
    requires forall id {:trigger LastWith(jobs, id)} :: LastWith(jobs, id).Some? ==> LastWith(after, id).Some?
    requires forall id {:trigger LastWith(before, id)} :: LastWith(before, id).Some? ==> LastWith(jobs, id).Some?
    ensures Gone(KeysOf(before), after) == []
  {
    if before != [] {
      var rest, last := before[..|before| - 1], before[|before| - 1];
      assert LastWith(before, last.id).Some?;
      forall id | LastWith(rest, id).Some?
        ensures LastWith(jobs, id).Some?
      {
        assert LastWith(before, id).Some?;
      }
      NothingGone(jobs, rest, after);
      assert (KeysOf(rest) + [last.id])[..|KeysOf(rest)|] == KeysOf(rest);
    }
  }

  /** A patch is sent exactly when some key or some row reads differently from before. */
  lemma {:induction false} PatchOnlyWhenSomethingMoved(previous: Snapshot, next: Snapshot)
    requires UniqueIds(previous.jobs) && UniqueIds(next.jobs)
    ensures Difference(previous, next).None? <==>
            (forall key :: !KeyChanged(previous, next, key)) && JobsAgree(previous.jobs, next.jobs)
  {
    KeysChangedOrNot(previous, next);
    if Difference(previous, next).None? {
      JobsAgreeWithThemselves(previous.jobs);
      RowsArePatched(previous.jobs, previous.jobs, next.jobs);
    }
    if JobsAgree(previous.jobs, next.jobs) {
      AgreeingRowsStay(previous.jobs, next.jobs);
    }
  }

  lemma {:induction false} KeysChangedOrNot(previous: Snapshot, next: Snapshot)
    ensures ChangedKeys(previous, next) == map[] <==> forall key :: !KeyChanged(previous, next, key)
  {
    if key :| KeyChanged(previous, next, key) {
      assert key in ChangedKeys(previous, next);
    }
  }

  lemma {:induction false} AgreeingRowsStay(before: seq<Job>, after: seq<Job>)
    requires JobsAgree(before, after) && UniqueIds(before) && UniqueIds(after)
    ensures ChangedJobs(before, after).None?
  {
    AgreeingIds(before, after);
    UniqueKeysAreIds(before);
    forall job | job in after
      ensures !RowChanged(before, job)
    {
      UniqueRowIsFound(after, job);
      AgreeingRowsById(before, after, job.id);
    }
    NothingUpserted(before, after);
    forall id | LastWith(before, id).Some?
      ensures LastWith(after, id).Some?
    {
      AgreeingRowsById(before, after, id);
    }
    NothingGone(before, before, after);
  }

  // ---- any patch at all ----

  lemma {:induction false} PickedAgain(previous: seq<Job>, patch: JobsPatch, order: seq<int>, part: seq<int>)
    requires forall id {:trigger RowOf(previous, patch, id)} :: id in part ==>
               RowOf(Picked(previous, patch, order), patch, id) == RowOf(previous, patch, id)
    ensures Picked(Picked(previous, patch, order), patch, part) == Picked(previous, patch, part)
  {
    if part != [] {
      PickedAgain(previous, patch, order, part[..|part| - 1]);
      assert part[|part| - 1] in part;
    }
  }

  lemma {:induction false} PickedRow(previous: seq<Job>, patch: JobsPatch, order: seq<int>, id: int)
    ensures LastWith(Picked(previous, patch, order), id) == if id in order then RowOf(previous, patch, id) else None
  {
    if order != [] {
      var rest, last := order[..|order| - 1], order[|order| - 1];
      assert order == rest + [last];
      PickedRow(previous, patch, rest, id);
      var picked, row := Picked(previous, patch, rest), RowOf(previous, patch, last);
      if row.Some? {
        assert (picked + [row.value])[..|picked|] == picked;
      }
    }
  }

  /** Applying any patch a second time changes nothing. */
  lemma {:induction false} PatchingAgainChangesNothing(previous: Snapshot, patch: Patch)
    ensures Patched(Patched(previous, patch), patch) == Patched(previous, patch)
  {
    assert previous.top + patch.entries + patch.entries == previous.top + patch.entries;
    if patch.jobs.Some? {
      var jobs := patch.jobs.value;
      forall id | id in jobs.order
        ensures RowOf(Picked(previous.jobs, jobs, jobs.order), jobs, id) == RowOf(previous.jobs, jobs, id)
      {
        PickedRow(previous.jobs, jobs, jobs.order, id);
      }
      PickedAgain(previous.jobs, jobs, jobs.order, jobs.order);
    }
  }

  /** A row survives a patch exactly when its id is ordered and not removed, as the last upsert of it or as it was. */
  lemma {:induction false} SurvivingRow(previous: seq<Job>, patch: JobsPatch, id: int)
    ensures LastWith(Picked(previous, patch, patch.order), id) ==
            if id !in patch.order || id in patch.remove then None
            else if LastWith(patch.upsert, id).Some? then LastWith(patch.upsert, id) else LastWith(previous, id)
  {
    PickedRow(previous, patch, patch.order, id);
  }
}
