/** Owners are isolated: what one owner is answered depends on that owner's rows alone, and no call
    of another owner changes them. */
module Isolation {
  import opened Common
  import opened Job
  import opened JobRow
  import opened JobLife
  import opened JobTable
  import R = Runs

  /** The rows an owner's statements can select. */
  ghost function RowsOf(jobs: Table, owner: Owner): Table {
    map id | id in jobs && Owned(jobs, id, owner) :: jobs[id]
  }

  ghost predicate SameRows(a: Table, b: Table, owner: Owner) {
    RowsOf(a, owner) == RowsOf(b, owner)
  }

  lemma SameRow(a: Table, b: Table, owner: Owner, id: nat)
    requires SameRows(a, b, owner)
    ensures Owned(a, id, owner) <==> Owned(b, id, owner)
    ensures Owned(a, id, owner) ==> a[id] == b[id]
  {
    assert id in RowsOf(a, owner) <==> id in RowsOf(b, owner);
    if Owned(a, id, owner) {
      assert RowsOf(a, owner)[id] == RowsOf(b, owner)[id];
    }
  }

  lemma SameRowsAfterWrite(a: Table, b: Table, owner: Owner, id: nat, j: Job)
    requires SameRows(a, b, owner) && Owned(a, id, owner) && Owned(b, id, owner)
    ensures SameRows(a[id := j], b[id := j], owner)
  {
    forall k | k in a || k in b
      ensures Owned(a[id := j], k, owner) <==> Owned(b[id := j], k, owner)
      ensures Owned(a[id := j], k, owner) ==> a[id := j][k] == b[id := j][k]
    {
      SameRow(a, b, owner, k);
    }
  }

  /** On two tables with the same rows of an owner, every call of that owner gets the same answer,
      and the two tables still have the same rows of that owner afterwards. */
  lemma AnswersDependOnOwnRows(a: Table, b: Table, owner: Owner, id: IdText, now: Time)
    requires SameRows(a, b, owner)
    ensures Get(a, id, owner) == Get(b, id, owner)
    ensures Cancel(a, id, owner, now).1 == Cancel(b, id, owner, now).1
    ensures SameRows(Cancel(a, id, owner, now).0, Cancel(b, id, owner, now).0, owner)
    ensures Delete(a, id, owner, now).1 == Delete(b, id, owner, now).1
    ensures SameRows(Delete(a, id, owner, now).0, Delete(b, id, owner, now).0, owner)
  {
    if id.Uuid? {
      SameRow(a, b, owner, id.id);
      if Owned(a, id.id, owner) {
        SameRowsAfterWrite(a, b, owner, id.id, CancelRow(a[id.id], now));
        SameRowsAfterWrite(a, b, owner, id.id, DeleteRow(a[id.id], now));
      }
    }
  }

  /** A foreign job is indistinguishable from a missing one: taking it out of the table changes no
      answer. */
  lemma ForeignLooksMissing(jobs: Table, owner: Owner, foreign: nat, id: IdText, now: Time)
    requires !Owned(jobs, foreign, owner)
    ensures var without := jobs - {foreign};
            Get(jobs, id, owner) == Get(without, id, owner) &&
            Cancel(jobs, id, owner, now).1 == Cancel(without, id, owner, now).1 &&
            Delete(jobs, id, owner, now).1 == Delete(without, id, owner, now).1
  {
    assert SameRows(jobs, jobs - {foreign}, owner);
    AnswersDependOnOwnRows(jobs, jobs - {foreign}, owner, id, now);
  }

  // ---------------------------------------------------------------- over runs

  /** A call on uploads, a creation, or a call on jobs in the name of somebody else. */
  predicate Foreign(e: R.Event, owner: Owner) {
    e.OnUploads? || e.job.Created? ||
    (e.job.CancelSent? && e.job.owner.Columns() != owner.Columns()) ||
    (e.job.DeleteSent? && e.job.owner.Columns() != owner.Columns())
  }

  lemma ForeignStepSparesJob(w: R.World, e: R.Event, id: nat)
    requires id in w.jobs && Foreign(e, w.jobs[id].fixed.owner)
    ensures id in R.Step(w, e).jobs && R.Step(w, e).jobs[id] == w.jobs[id]
  {
    if e.OnJobs? {
      StepActsOnRow(w.store.uploads, w.jobs, e.job, id);
    }
  }

  /** Whatever other owners do, however often, a job stays as it is. */
  lemma {:induction false} ForeignRunSparesJob(w: R.World, es: seq<R.Event>, id: nat)
    requires id in w.jobs && forall e :: e in es ==> Foreign(e, w.jobs[id].fixed.owner)
    ensures id in R.Run(w, es).jobs && R.Run(w, es).jobs[id] == w.jobs[id]
    decreases |es|
  {
    if es != [] {
      ForeignStepSparesJob(w, es[0], id);
      ForeignRunSparesJob(R.Step(w, es[0]), es[1..], id);
    }
  }

  /** A tombstone hides the job from every read and every cancellation, whoever asks and whatever
      has happened to both stores since. */
  lemma TombstoneHidesForGood(past: seq<R.Event>, es: seq<R.Event>, id: nat, owner: Owner, now: Time)
    requires id in R.Run(R.EMPTY, past).jobs && R.Run(R.EMPTY, past).jobs[id].deletionRequestedAt.Some?
    ensures var jobs := R.Run(R.EMPTY, past + es).jobs;
            Get(jobs, Uuid(id), owner) == Err(NotFound) &&
            Cancel(jobs, Uuid(id), owner, now).0 == jobs && Cancel(jobs, Uuid(id), owner, now).1.Err?
  {
    R.LaterSnapshot(past, es, id);
  }

  /** After an accepted deletion of an owned job of a reachable store, the job is unreadable and
      uncancellable for good, to its owner and to everybody else. */
  lemma DeletionIsForGood(past: seq<R.Event>, id: nat, owner: Owner, now: Time, es: seq<R.Event>, anyone: Owner,
                          at: Time)
    requires Owned(R.Run(R.EMPTY, past).jobs, id, owner)
    requires Delete(R.Run(R.EMPTY, past).jobs, Uuid(id), owner, now).1.None?
    ensures var jobs := R.Run(R.EMPTY, past + [R.OnJobs(DeleteSent(Uuid(id), owner, now))] + es).jobs;
            Get(jobs, Uuid(id), anyone) == Err(NotFound) &&
            Cancel(jobs, Uuid(id), anyone, at).0 == jobs && Cancel(jobs, Uuid(id), anyone, at).1.Err?
  {
    var call := R.OnJobs(DeleteSent(Uuid(id), owner, now));
    R.RunAppended(R.EMPTY, past, call);
    TombstoneHidesForGood(past + [call], es, id, anyone, at);
  }

  /** On a reachable table an owner reads exactly the own jobs that carry no tombstone and no zero
      instant. */
  lemma ReadsOwnJobsIff(past: seq<R.Event>, id: nat, owner: Owner)
    ensures var jobs := R.Run(R.EMPTY, past).jobs;
            Get(jobs, Uuid(id), owner).Ok? <==>
            owner.Valid() && id in jobs && jobs[id].fixed.owner == owner && jobs[id].deletionRequestedAt.None? &&
            TimesSet(jobs[id])
  {
    var jobs := R.Run(R.EMPTY, past).jobs;
    R.Reachable(past);
    if id in jobs {
      assert RowInv(jobs[id]);
      AcceptedIffTimesSet(jobs[id]);
      if owner.Valid() {
        OwnerColumnsIdentify(jobs[id].fixed.owner, owner);
      }
    }
  }
}
