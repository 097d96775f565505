/** What repeated calls at one instant do when nothing interleaves. */
module Draining {
  import opened Common
  import opened JobStatus
  import opened Job
  import opened JobRow
  import opened RowOrder
  import opened JobTable

  // ---------------------------------------------------------------- claims

  /** The candidates of a claim are rows of a sound table. */
  ghost predicate CandidatesSound(jobs: Table, now: Time) {
    forall id :: id in ClaimKeys(jobs, now, {}) ==> jobs[id].fixed.id == id && RowInv(jobs[id])
  }

  /** ... and none of them has used up its version column. */
  ghost predicate CandidatesUsable(jobs: Table, now: Time) {
    CandidatesSound(jobs, now) && forall id :: id in ClaimKeys(jobs, now, {}) ==> jobs[id].version < MAX_INT64
  }

  lemma ClaimedRowIsUsable(j: Job, worker: string, now: Time, deadline: Time)
    requires RowInv(j) && ValidClaim(worker, now, deadline) && Claimable(j, now)
    ensures var k := ClaimRow(j, worker, now, deadline);
            (RowCheck(k) <==> j.version < MAX_INT64) && !Claimable(k, now)
  {
    ClaimAbortsExactlyWhen(j, worker, now, deadline);
  }

  /** A candidate that the scan accepts is returned to the worker that claims it. */
  lemma AcceptedCandidateIsReturned(j: Job, worker: string, now: Time, deadline: Time)
    requires RowInv(j) && ValidStored(j) && j.version < MAX_INT64
    requires ValidClaim(worker, now, deadline) && Claimable(j, now)
    ensures Scan(ClaimRow(j, worker, now, deadline)) == Ok(ClaimRow(j, worker, now, deadline))
  {
    ClaimAbortsExactlyWhen(j, worker, now, deadline);
    StaysAcceptedIff(j, Claimed(worker, now, deadline));
  }

  lemma ReplaceRemovesCandidate(jobs: Table, now: Time, id: nat, k: Job)
    requires id in jobs && !Claimable(k, now)
    ensures ClaimKeys(jobs[id := k], now, {}) == ClaimKeys(jobs, now, {}) - {id}
  {
  }

  /** A claim writes the least candidate, removes it from the candidates and touches no other row;
      the answer is the written row as the scan sees it. */
  lemma ClaimTakesTheLeast(jobs: Table, worker: string, now: Time, deadline: Time)
    requires CandidatesSound(jobs, now) && ValidClaim(worker, now, deadline)
    requires ClaimKeys(jobs, now, {}) != map[] && jobs[Least(ClaimKeys(jobs, now, {}))].version < MAX_INT64
    ensures var least := Least(ClaimKeys(jobs, now, {}));
            var k := ClaimRow(jobs[least], worker, now, deadline);
            Claim(jobs, worker, now, deadline, {}) == (jobs[least := k], Scan(k)) && k.fixed.id == least
    ensures var least := Least(ClaimKeys(jobs, now, {}));
            ClaimKeys(Claim(jobs, worker, now, deadline, {}).0, now, {}) == ClaimKeys(jobs, now, {}) - {least}
  {
    var least := Least(ClaimKeys(jobs, now, {}));
    assert least in ClaimKeys(jobs, now, {});
    ClaimedRowIsUsable(jobs[least], worker, now, deadline);
    ReplaceRemovesCandidate(jobs, now, least, ClaimRow(jobs[least], worker, now, deadline));
  }

  /** A least candidate whose version is used up makes every claim fail and stays in front. */
  lemma SpentLeastBlocks(jobs: Table, worker: string, now: Time, deadline: Time)
    requires CandidatesSound(jobs, now) && ValidClaim(worker, now, deadline)
    requires ClaimKeys(jobs, now, {}) != map[] && jobs[Least(ClaimKeys(jobs, now, {}))].version >= MAX_INT64
    ensures Claim(jobs, worker, now, deadline, {}) == (jobs, Err(StorageFailure))
  {
    var least := Least(ClaimKeys(jobs, now, {}));
    assert least in ClaimKeys(jobs, now, {});
    ClaimedRowIsUsable(jobs[least], worker, now, deadline);
  }

  /** The answers of claims by a sequence of workers at one instant. */
  ghost function ClaimEach(jobs: Table, workers: seq<string>, now: Time, deadline: Time): seq<Result<Job, JobError>> {
    if workers == [] then []
    else
      var (r, result) := Claim(jobs, workers[0], now, deadline, {});
      [result] + ClaimEach(r, workers[1..], now, deadline)
  }

  /** The table they leave. */
  ghost function AfterClaims(jobs: Table, workers: seq<string>, now: Time, deadline: Time): Table {
    if workers == [] then jobs
    else AfterClaims(Claim(jobs, workers[0], now, deadline, {}).0, workers[1..], now, deadline)
  }

  lemma SoundAfterClaim(jobs: Table, worker: string, now: Time, deadline: Time)
    requires CandidatesSound(jobs, now) && ValidClaim(worker, now, deadline)
    ensures var r := Claim(jobs, worker, now, deadline, {}).0;
            CandidatesSound(r, now) &&
            forall id :: id in ClaimKeys(r, now, {}) ==> id in ClaimKeys(jobs, now, {}) && r[id] == jobs[id]
  {
    var keys := ClaimKeys(jobs, now, {});
    if keys != map[] {
      if jobs[Least(keys)].version < MAX_INT64 {
        ClaimTakesTheLeast(jobs, worker, now, deadline);
      } else {
        SpentLeastBlocks(jobs, worker, now, deadline);
      }
    }
  }

  /** One answer per claim: the rows of the order as each worker's claim writes them, then the report
      that none is left. */
  predicate HandsOut(results: seq<Result<Job, JobError>>, jobs: Table, order: seq<nat>, workers: seq<string>,
                     now: Time, deadline: Time)
  {
    |results| == |workers| &&
    forall i :: 0 <= i < |results| ==>
      if i < |order|
      then order[i] in jobs && results[i] == Scan(ClaimRow(jobs[order[i]], workers[i], now, deadline))
      else results[i] == Err(NoJobAvailable)
  }

  lemma HandsOutOneMore(results: seq<Result<Job, JobError>>, jobs: Table, after: Table, id: nat, order: seq<nat>,
                        workers: seq<string>, now: Time, deadline: Time)
    requires workers != [] && HandsOut(results, after, order, workers[1..], now, deadline) && id in jobs
    requires forall i :: 0 <= i < |order| ==> order[i] in jobs && order[i] in after && after[order[i]] == jobs[order[i]]
    ensures HandsOut([Scan(ClaimRow(jobs[id], workers[0], now, deadline))] + results, jobs, [id] + order, workers,
                     now, deadline)
  {
  }

  lemma HandsOutNoMore(results: seq<Result<Job, JobError>>, jobs: Table, workers: seq<string>, now: Time,
                       deadline: Time)
    requires workers != [] && HandsOut(results, jobs, [], workers[1..], now, deadline)
    ensures HandsOut([Err(NoJobAvailable)] + results, jobs, [], workers, now, deadline)
  {
  }

  lemma DrainStep(jobs: Table, workers: seq<string>, now: Time, deadline: Time)
    requires workers != [] && CandidatesUsable(jobs, now) && ValidClaim(workers[0], now, deadline)
    requires var r := Claim(jobs, workers[0], now, deadline, {}).0;
             HandsOut(ClaimEach(r, workers[1..], now, deadline), r, Ordered(ClaimKeys(r, now, {})), workers[1..],
                      now, deadline)
    ensures HandsOut(ClaimEach(jobs, workers, now, deadline), jobs, Ordered(ClaimKeys(jobs, now, {})), workers,
                     now, deadline)
  {
    var keys := ClaimKeys(jobs, now, {});
    var r := Claim(jobs, workers[0], now, deadline, {}).0;
    var rest := ClaimEach(r, workers[1..], now, deadline);
    if keys == map[] {
      HandsOutNoMore(rest, jobs, workers, now, deadline);
    } else {
      var least := Least(keys);
      assert least in keys;
      ClaimTakesTheLeast(jobs, workers[0], now, deadline);
      LeastIsHead(keys, least);
      RestIsUntouched(jobs, r, keys, least);
      HandsOutOneMore(rest, jobs, r, least, Ordered(keys - {least}), workers, now, deadline);
    }
  }

  lemma RestIsUntouched(jobs: Table, r: Table, keys: map<nat, Key>, least: nat)
    requires Keyed(keys) && least in keys && least in r && keys.Keys <= jobs.Keys && r == jobs[least := r[least]]
    ensures var order := Ordered(keys - {least});
            forall i :: 0 <= i < |order| ==> order[i] in jobs && order[i] in r && r[order[i]] == jobs[order[i]]
  {
    OrderedMembers(keys - {least});
    var order := Ordered(keys - {least});
    forall i | 0 <= i < |order|
      ensures order[i] in keys && order[i] != least
    {
      assert order[i] in Members(order);
    }
  }

  /** Successive claims return every eligible job once, in ascending order of availability, creation
      and identifier, each as its worker's claim left it, then report that none is left. */
  lemma {:induction false} ClaimsDrainInOrder(jobs: Table, workers: seq<string>, now: Time, deadline: Time)
    requires CandidatesUsable(jobs, now)
    requires forall i :: 0 <= i < |workers| ==> ValidClaim(workers[i], now, deadline)
    ensures HandsOut(ClaimEach(jobs, workers, now, deadline), jobs, Ordered(ClaimKeys(jobs, now, {})), workers,
                     now, deadline)
    decreases |workers|
  {
    if workers != [] {
      SoundAfterClaim(jobs, workers[0], now, deadline);
      ClaimsDrainInOrder(Claim(jobs, workers[0], now, deadline, {}).0, workers[1..], now, deadline);
      DrainStep(jobs, workers, now, deadline);
    }
  }

  lemma SpentSurvivesClaim(jobs: Table, worker: string, now: Time, deadline: Time, id: nat)
    requires CandidatesSound(jobs, now) && id in ClaimKeys(jobs, now, {}) && jobs[id].version >= MAX_INT64
    requires ValidClaim(worker, now, deadline)
    ensures var r := Claim(jobs, worker, now, deadline, {}).0;
            id in ClaimKeys(r, now, {}) && r[id] == jobs[id]
  {
    if jobs[Least(ClaimKeys(jobs, now, {}))].version < MAX_INT64 {
      ClaimTakesTheLeast(jobs, worker, now, deadline);
    } else {
      SpentLeastBlocks(jobs, worker, now, deadline);
    }
  }

  /** A candidate whose version is used up is never claimed. */
  lemma {:induction false} SpentCandidateStays(jobs: Table, workers: seq<string>, now: Time, deadline: Time, id: nat)
    requires CandidatesSound(jobs, now) && id in ClaimKeys(jobs, now, {}) && jobs[id].version >= MAX_INT64
    requires forall i :: 0 <= i < |workers| ==> ValidClaim(workers[i], now, deadline)
    ensures id in ClaimKeys(AfterClaims(jobs, workers, now, deadline), now, {})
    decreases |workers|
  {
    if workers == [] {
      assert AfterClaims(jobs, workers, now, deadline) == jobs;
    } else {
      var r := Claim(jobs, workers[0], now, deadline, {}).0;
      SoundAfterClaim(jobs, workers[0], now, deadline);
      SpentSurvivesClaim(jobs, workers[0], now, deadline, id);
      SpentCandidateStays(r, workers[1..], now, deadline, id);
      assert AfterClaims(jobs, workers, now, deadline) == AfterClaims(r, workers[1..], now, deadline);
    }
  }

  ghost function Waiting(jobs: Table, now: Time): nat { |ClaimKeys(jobs, now, {})| }

  lemma OneCandidateFewer(jobs: Table, worker: string, now: Time, deadline: Time)
    requires CandidatesUsable(jobs, now) && ValidClaim(worker, now, deadline)
    ensures var r := Claim(jobs, worker, now, deadline, {}).0;
            CandidatesUsable(r, now) && Waiting(r, now) == Fewer(Waiting(jobs, now), 1)
  {
    var keys := ClaimKeys(jobs, now, {});
    SoundAfterClaim(jobs, worker, now, deadline);
    if keys != map[] {
      ClaimTakesTheLeast(jobs, worker, now, deadline);
      assert (keys - {Least(keys)}).Keys == keys.Keys - {Least(keys)};
    }
  }

  lemma {:induction false} ClaimsUseUpCandidates(jobs: Table, workers: seq<string>, now: Time, deadline: Time)
    requires CandidatesUsable(jobs, now) && |workers| >= Waiting(jobs, now)
    requires forall i :: 0 <= i < |workers| ==> ValidClaim(workers[i], now, deadline)
    ensures Waiting(AfterClaims(jobs, workers, now, deadline), now) == 0
    decreases |workers|
  {
    if workers == [] {
      assert AfterClaims(jobs, workers, now, deadline) == jobs;
    } else {
      var r := Claim(jobs, workers[0], now, deadline, {}).0;
      OneCandidateFewer(jobs, workers[0], now, deadline);
      ClaimsUseUpCandidates(r, workers[1..], now, deadline);
      assert AfterClaims(jobs, workers, now, deadline) == AfterClaims(r, workers[1..], now, deadline);
    }
  }

  /** As many claims as there are eligible jobs leave none eligible, exactly when no eligible job has
      used up its version column. */
  lemma ClaimsEmptyTheQueueIff(jobs: Table, workers: seq<string>, now: Time, deadline: Time)
    requires CandidatesSound(jobs, now) && |workers| >= Waiting(jobs, now)
    requires forall i :: 0 <= i < |workers| ==> ValidClaim(workers[i], now, deadline)
    ensures ClaimKeys(AfterClaims(jobs, workers, now, deadline), now, {}) == map[] <==>
            forall id :: id in ClaimKeys(jobs, now, {}) ==> jobs[id].version < MAX_INT64
  {
    if id :| id in ClaimKeys(jobs, now, {}) && jobs[id].version >= MAX_INT64 {
      SpentCandidateStays(jobs, workers, now, deadline, id);
    } else {
      ClaimsUseUpCandidates(jobs, workers, now, deadline);
    }
  }

  // ---------------------------------------------------------------- recovery

  ghost predicate ExpiredUsable(jobs: Table, now: Time) {
    forall id :: id in RecoverKeys(jobs, now, {}) ==> RowInv(jobs[id]) && jobs[id].version < MAX_INT64
  }

  /** A recovered row is written, holds no lease, and its new status is decided by the request
      to stop first and the attempts second. */
  lemma RecoveredRowOutcome(j: Job, now: Time, retryAt: Time)
    requires RowInv(j) && LeaseExpired(j, now) && now != ZERO_TIME && retryAt >= now
    ensures var k := RecoverRow(j, now, retryAt);
            (RowCheck(k) <==> j.version < MAX_INT64) && !Active(k.status) &&
            (k.status == Cancelled <==> StopRequested(j)) &&
            (k.status == Failed <==> !StopRequested(j) && j.attempts == j.fixed.maxAttempts) &&
            (k.status == Queued <==> !StopRequested(j) && j.attempts < j.fixed.maxAttempts)
  {
    RecoveryAbortsExactlyWhen(j, now, retryAt);
  }

  lemma RecoveredKeys(jobs: Table, ids: set<nat>, now: Time, retryAt: Time)
    requires forall id :: id in ids && id in jobs ==> !Active(RecoverRow(jobs[id], now, retryAt).status)
    ensures RecoverKeys(RecoverAll(jobs, ids, now, retryAt), now, {}) == RecoverKeys(jobs, now, {}) - ids
  {
    var r := RecoverAll(jobs, ids, now, retryAt);
    forall id | id in jobs
      ensures id in r && (LeaseExpired(r[id], now) <==> LeaseExpired(jobs[id], now) && id !in ids)
      ensures id !in ids ==> r[id] == jobs[id]
    {
    }
  }

  lemma ExpiredRowRecovers(jobs: Table, now: Time, retryAt: Time, id: nat)
    requires ExpiredUsable(jobs, now) && now != ZERO_TIME && retryAt >= now && id in RecoverKeys(jobs, now, {})
    ensures var k := RecoverRow(jobs[id], now, retryAt);
            RowCheck(k) && !Active(k.status) && Recoverable(k.status)
  {
    RecoveredRowOutcome(jobs[id], now, retryAt);
  }

  /** A pass on usable rows never aborts. */
  lemma PassSucceeds(jobs: Table, now: Time, retryAt: Time, limit: int)
    requires ExpiredUsable(jobs, now) && ValidRecovery(now, retryAt, limit)
    ensures Recover(jobs, now, retryAt, limit, {}).1.Ok?
    ensures Recover(jobs, now, retryAt, limit, {}).0 ==
            RecoverAll(jobs, Members(Batch(jobs, now, limit, {})), now, retryAt)
  {
    var batch := Batch(jobs, now, limit, {});
    BatchMembers(jobs, now, limit, {});
    var r := RecoverAll(jobs, Members(batch), now, retryAt);
    forall id | id in Members(batch) && id in r
      ensures RowCheck(r[id])
    {
      ExpiredRowRecovers(jobs, now, retryAt, id);
    }
  }

  /** One pass handles the first min(limit, remaining) expired rows and leaves the others. */
  lemma PassRemovesItsBatch(jobs: Table, now: Time, retryAt: Time, limit: int)
    requires ExpiredUsable(jobs, now) && ValidRecovery(now, retryAt, limit)
    ensures RecoverKeys(Recover(jobs, now, retryAt, limit, {}).0, now, {}) ==
            RecoverKeys(jobs, now, {}) - Members(Batch(jobs, now, limit, {}))
  {
    var ids := Members(Batch(jobs, now, limit, {}));
    PassSucceeds(jobs, now, retryAt, limit);
    BatchMembers(jobs, now, limit, {});
    forall id | id in ids && id in jobs
      ensures !Active(RecoverRow(jobs[id], now, retryAt).status)
    {
      ExpiredRowRecovers(jobs, now, retryAt, id);
    }
    RecoveredKeys(jobs, ids, now, retryAt);
  }

  /** The statuses a recovery can give. */
  predicate Recoverable(s: Status) { s == Queued || s == Cancelled || s == Failed }

  lemma {:induction false} CountsAddUp(jobs: Table, ids: seq<nat>)
    requires forall i :: 0 <= i < |ids| ==> ids[i] in jobs && Recoverable(jobs[ids[i]].status)
    ensures var r := Counted(jobs, ids); r.requeued + r.cancelled + r.failed == |ids|
    decreases |ids|
  {
    if ids != [] {
      CountsAddUp(jobs, ids[..|ids| - 1]);
    }
  }

  /** The three counts of a pass add up to the rows it changed, min(limit, remaining) of them. */
  lemma PassCounts(jobs: Table, now: Time, retryAt: Time, limit: int)
    requires ExpiredUsable(jobs, now) && ValidRecovery(now, retryAt, limit)
    ensures var result := Recover(jobs, now, retryAt, limit, {}).1;
            var n := |RecoverKeys(jobs, now, {})|;
            result.Ok? &&
            result.value.requeued + result.value.cancelled + result.value.failed == (if n <= limit then n else limit)
  {
    var batch := Batch(jobs, now, limit, {});
    PassSucceeds(jobs, now, retryAt, limit);
    BatchMembers(jobs, now, limit, {});
    var r := Recover(jobs, now, retryAt, limit, {}).0;
    forall i | 0 <= i < |batch|
      ensures batch[i] in r && Recoverable(r[batch[i]].status)
    {
      assert batch[i] in Members(batch);
      ExpiredRowRecovers(jobs, now, retryAt, batch[i]);
    }
    CountsAddUp(r, batch);
  }

  ghost function Backlog(jobs: Table, now: Time): nat { |RecoverKeys(jobs, now, {})| }

  function Fewer(backlog: nat, limit: int): nat { if backlog <= limit then 0 else backlog - limit }

  lemma BatchIsPrefix(jobs: Table, now: Time, limit: nat)
    ensures var keys := RecoverKeys(jobs, now, {});
            var batch := Batch(jobs, now, limit, {});
            |keys - Members(batch)| == Fewer(|keys|, limit)
  {
    var keys := RecoverKeys(jobs, now, {});
    var batch := Batch(jobs, now, limit, {});
    OrderedIsSorted(keys);
    assert batch == Ordered(keys)[..|batch|];
    OrderedDrop(keys, |batch|);
    OrderedIsSorted(keys - Members(batch));
  }

  lemma UsableAfterPass(jobs: Table, now: Time, retryAt: Time, limit: int)
    requires ExpiredUsable(jobs, now) && ValidRecovery(now, retryAt, limit)
    ensures ExpiredUsable(Recover(jobs, now, retryAt, limit, {}).0, now)
    ensures Backlog(Recover(jobs, now, retryAt, limit, {}).0, now) == Fewer(Backlog(jobs, now), limit)
  {
    PassSucceeds(jobs, now, retryAt, limit);
    PassRemovesItsBatch(jobs, now, retryAt, limit);
    BatchIsPrefix(jobs, now, limit);
    OthersUntouched(jobs, Members(Batch(jobs, now, limit, {})), now, retryAt);
  }

  lemma OthersUntouched(jobs: Table, ids: set<nat>, now: Time, retryAt: Time)
    requires ExpiredUsable(jobs, now)
    requires RecoverKeys(RecoverAll(jobs, ids, now, retryAt), now, {}) == RecoverKeys(jobs, now, {}) - ids
    ensures ExpiredUsable(RecoverAll(jobs, ids, now, retryAt), now)
  {
    var r := RecoverAll(jobs, ids, now, retryAt);
    forall id | id in RecoverKeys(r, now, {})
      ensures id in RecoverKeys(jobs, now, {}) && r[id] == jobs[id]
    {
      assert id in RecoverKeys(jobs, now, {}) - ids;
    }
  }

  /** A backlog from which every pass takes up to limit rows. */
  function Left(backlog: nat, limit: int, passes: nat): nat {
    if passes == 0 then backlog else Fewer(Left(backlog, limit, passes - 1), limit)
  }

  lemma {:induction false} LeftIsDifference(backlog: nat, limit: int, passes: nat)
    requires limit > 0
    ensures Left(backlog, limit, passes) == if backlog <= passes * limit then 0 else backlog - passes * limit
    decreases passes
  {
    if passes > 0 {
      assert passes * limit == (passes - 1) * limit + limit;
      LeftIsDifference(backlog, limit, passes - 1);
    }
  }

  ghost predicate SuccessivePasses(tables: seq<Table>, now: Time, retryAt: Time, limit: int) {
    forall i :: 0 < i < |tables| ==> tables[i] == Recover(tables[i - 1], now, retryAt, limit, {}).0
  }

  lemma {:induction false} PassesTakeFromBacklog(tables: seq<Table>, now: Time, retryAt: Time, limit: int)
    requires tables != [] && SuccessivePasses(tables, now, retryAt, limit)
    requires ExpiredUsable(tables[0], now) && ValidRecovery(now, retryAt, limit)
    ensures Backlog(tables[|tables| - 1], now) == Left(Backlog(tables[0], now), limit, |tables| - 1)
    ensures ExpiredUsable(tables[|tables| - 1], now)
    decreases |tables|
  {
    var n := |tables| - 1;
    if n > 0 {
      var before := tables[..n];
      assert SuccessivePasses(before, now, retryAt, limit);
      PassesTakeFromBacklog(before, now, retryAt, limit);
      assert before[|before| - 1] == tables[n - 1] && before[0] == tables[0];
      UsableAfterPass(tables[n - 1], now, retryAt, limit);
      assert tables[n] == Recover(tables[n - 1], now, retryAt, limit, {}).0;
    }
  }

  /** Passes of a fixed limit empty the expired set after the ceiling of its size over the limit,
      and not before. */
  lemma PassesEmptyTheBacklog(tables: seq<Table>, now: Time, retryAt: Time, limit: int)
    requires tables != [] && SuccessivePasses(tables, now, retryAt, limit)
    requires ExpiredUsable(tables[0], now) && ValidRecovery(now, retryAt, limit)
    ensures var passes := |tables| - 1;
            Backlog(tables[passes], now) == 0 <==> Backlog(tables[0], now) <= passes * limit
    ensures var passes := |tables| - 1;
            Backlog(tables[passes], now) > 0 ==>
              Backlog(tables[passes], now) == Backlog(tables[0], now) - passes * limit
  {
    PassesTakeFromBacklog(tables, now, retryAt, limit);
    LeftIsDifference(Backlog(tables[0], now), limit, |tables| - 1);
  }
}
