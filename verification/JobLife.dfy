/** Whole runs of one row. */
module JobLife {
  import opened Common
  import opened JobStatus
  import opened Job
  import opened JobRow

  predicate RowRun(j: Job, es: seq<RowEvent>)
    decreases |es|
  {
    es == [] || (Happens(j, es[0]) && RowRun(Apply(j, es[0]), es[1..]))
  }

  function After(j: Job, es: seq<RowEvent>): Job
    decreases |es|
  {
    if es == [] then j else After(Apply(j, es[0]), es[1..])
  }

  lemma {:induction false} RunKeepsRowInv(j: Job, es: seq<RowEvent>)
    requires RowInv(j) && RowRun(j, es)
    ensures RowInv(After(j, es)) && After(j, es).fixed == j.fixed
    decreases |es|
  {
    if es != [] {
      EventKeepsRowInv(j, es[0]);
      RunKeepsRowInv(Apply(j, es[0]), es[1..]);
    }
  }

  /** Runs compose: a run can be cut at any event. */
  lemma {:induction false} RunSplits(j: Job, es: seq<RowEvent>, fs: seq<RowEvent>)
    ensures RowRun(j, es + fs) <==> RowRun(j, es) && RowRun(After(j, es), fs)
    ensures After(j, es + fs) == After(After(j, es), fs)
    decreases |es|
  {
    if es == [] {
      assert es + fs == fs;
    } else {
      assert (es + fs)[1..] == es[1..] + fs;
      RunSplits(Apply(j, es[0]), es[1..], fs);
    }
  }

  // ---------------------------------------------------------------- what never changes again

  /** The first instants of a row are written once. */
  predicate FirstInstantsKept(j: Job, k: Job) {
    (j.startedAt.Some? ==> k.startedAt == j.startedAt) &&
    (j.completedAt.Some? ==> k.completedAt == j.completedAt) &&
    (j.cancelRequestedAt.Some? ==> k.cancelRequestedAt == j.cancelRequestedAt) &&
    (j.deletionRequestedAt.Some? ==> k.deletionRequestedAt == j.deletionRequestedAt) &&
    k.expiresAt <= j.expiresAt && k.updatedAt >= j.updatedAt
  }

  lemma EventKeepsFirstInstants(j: Job, e: RowEvent)
    requires RowInv(j) && Happens(j, e)
    ensures FirstInstantsKept(j, Apply(j, e))
  {
    match e
    case Claimed(worker, now, deadline) => assert FirstInstantsKept(j, ClaimRow(j, worker, now, deadline));
    case Moved(t) => MoveKeepsFirstInstants(j, t);
    case Recovered(now, retryAt) => RecoveryKeepsFirstInstants(j, now, retryAt);
    case CancelAsked(now) => CancellationKeepsFirstInstants(j, now);
    case DeleteAsked(now) => DeletionKeepsFirstInstants(j, now);
    case _ =>
  }

  lemma RecoveryKeepsFirstInstants(j: Job, now: Time, retryAt: Time)
    requires LeaseShape(j) && StatusShape(j)
    ensures FirstInstantsKept(j, RecoverRow(j, now, retryAt))
  {
  }

  lemma CancellationKeepsFirstInstants(j: Job, now: Time)
    requires StatusShape(j)
    ensures FirstInstantsKept(j, CancelRow(j, now))
  {
  }

  lemma DeletionKeepsFirstInstants(j: Job, now: Time)
    requires StatusShape(j)
    ensures FirstInstantsKept(j, DeleteRow(j, now))
  {
  }

  lemma MoveKeepsFirstInstants(j: Job, t: Transition)
    requires LeaseShape(j) && StatusShape(j)
    ensures FirstInstantsKept(j, MoveRow(j, t))
  {
  }

  lemma FirstInstantsChain(j: Job, k: Job, l: Job)
    requires FirstInstantsKept(j, k) && FirstInstantsKept(k, l)
    ensures FirstInstantsKept(j, l)
  {
  }

  lemma {:induction false} RunKeepsFirstInstants(j: Job, es: seq<RowEvent>)
    requires RowInv(j) && RowRun(j, es)
    ensures FirstInstantsKept(j, After(j, es))
    decreases |es|
  {
    if es != [] {
      var k := Apply(j, es[0]);
      EventKeepsRowInv(j, es[0]);
      EventKeepsFirstInstants(j, es[0]);
      RunKeepsFirstInstants(k, es[1..]);
      FirstInstantsChain(j, k, After(k, es[1..]));
    }
  }

  /** All that differs is the tombstone, the retention deadline and the bookkeeping of a mutation. */
  predicate OnlyTombstoned(j: Job, k: Job) {
    k == j.(updatedAt := k.updatedAt, version := k.version, expiresAt := k.expiresAt,
            deletionRequestedAt := k.deletionRequestedAt)
  }

  /** The outcome of a job never changes once its status is terminal. */
  lemma {:induction false} TerminalIsFinal(j: Job, es: seq<RowEvent>)
    requires RowInv(j) && Terminal(j.status) && RowRun(j, es)
    ensures OnlyTombstoned(j, After(j, es))
    decreases |es|
  {
    if es != [] {
      EventKeepsRowInv(j, es[0]);
      assert OnlyTombstoned(j, Apply(j, es[0]));
      TerminalIsFinal(Apply(j, es[0]), es[1..]);
    }
  }

  /** How often a run enters a terminal status. */
  function TerminalSteps(j: Job, es: seq<RowEvent>): nat
    decreases |es|
  {
    if es == [] then 0 else
      var k := Apply(j, es[0]);
      (if !Terminal(j.status) && Terminal(k.status) then 1 else 0) + TerminalSteps(k, es[1..])
  }

  lemma {:induction false} AtMostOneTerminalStep(j: Job, es: seq<RowEvent>)
    requires RowInv(j) && RowRun(j, es)
    ensures TerminalSteps(j, es) ==
            if !Terminal(j.status) && Terminal(After(j, es).status) then 1 else 0
    decreases |es|
  {
    if es != [] {
      var k := Apply(j, es[0]);
      EventKeepsRowInv(j, es[0]);
      AtMostOneTerminalStep(k, es[1..]);
      if Terminal(k.status) {
        TerminalIsFinal(k, es[1..]);
      }
    }
  }

  // ---------------------------------------------------------------- fencing

  /** The log of claims: the workers that were given the row, in order. */
  function Claims(es: seq<RowEvent>): seq<string>
    decreases |es|
  {
    if es == [] then []
    else (if es[0].Claimed? then [es[0].worker] else []) + Claims(es[1..])
  }

  lemma LeaseFollowsEvent(j: Job, e: RowEvent)
    requires RowInv(j) && Happens(j, e)
    ensures var k := Apply(j, e);
            if e.Claimed? then k.attempts == j.attempts + 1 && k.leaseOwner == Some(e.worker)
            else k.attempts == j.attempts && (Active(k.status) ==> Active(j.status) && k.leaseOwner == j.leaseOwner)
  {
  }

  lemma {:induction false} LeaseFollowsClaims(j: Job, es: seq<RowEvent>)
    requires RowInv(j) && RowRun(j, es)
    ensures After(j, es).attempts == j.attempts + |Claims(es)|
    ensures Active(After(j, es).status) && Claims(es) == [] ==>
              Active(j.status) && After(j, es).leaseOwner == j.leaseOwner
    ensures Active(After(j, es).status) && Claims(es) != [] ==>
              After(j, es).leaseOwner == Some(Claims(es)[|Claims(es)| - 1])
    decreases |es|
  {
    if es != [] {
      EventKeepsRowInv(j, es[0]);
      LeaseFollowsEvent(j, es[0]);
      LeaseFollowsClaims(Apply(j, es[0]), es[1..]);
    }
  }

  /** Over the whole life of a row, a heartbeat or a transition is accepted from the worker of
      the latest claim and from nobody else, and only while that claim's lease is unexpired. */
  lemma Fencing(j: Job, es: seq<RowEvent>, worker: string, now: Time)
    requires RowInv(j) && j.status == Queued && RowRun(j, es)
    ensures var k := After(j, es);
            HoldsLease(k, worker, now) <==>
            Active(k.status) && k.leaseExpiresAt.Some? && now < k.leaseExpiresAt.value &&
            Claims(es) != [] && Claims(es)[|Claims(es)| - 1] == worker
  {
    RunKeepsRowInv(j, es);
    LeaseFollowsClaims(j, es);
  }

  /** After recovery and a claim by another worker, whatever the old worker then asks for
      changes nothing until it claims the row itself. */
  lemma OldWorkerIsPowerless(j: Job, es: seq<RowEvent>, e: RowEvent, loser: string)
    requires RowInv(j) && j.status == Queued && RowRun(j, es)
    requires Claims(es) != [] && Claims(es)[|Claims(es)| - 1] != loser
    requires (e.Beat? && e.worker == loser) || (e.Moved? && e.t.worker == loser)
    ensures !Guard(After(j, es), e)
  {
    Fencing(j, es, loser, if e.Beat? then e.now else e.t.now);
  }

  /** The fence is the worker identity, not the attempt: if the same worker claims the row again
      after losing its lease, a transition left over from its first attempt is accepted. */
  lemma StaleAttemptOfSameWorkerIsAccepted(j: Job, w: string, t0: Time, late: Transition)
    requires RowInv(j) && ValidWorker(w) && Claimable(j, t0) && t0 > ZERO_TIME
    requires j.attempts + 1 < j.fixed.maxAttempts && j.expiresAt > t0 + 1 && j.version + 4 <= MAX_INT64
    requires late == LateMove(j, w, t0)
    ensures RowRun(j, Reclaim(w, t0)) && After(j, Reclaim(w, t0)).attempts == j.attempts + 2
    ensures Happens(After(j, Reclaim(w, t0)), Moved(late))
  {
    ReclaimHappens(j, w, t0);
    ThreeEvents(j, Claimed(w, t0, t0 + 1), Recovered(t0 + 1, t0 + 1), Claimed(w, t0 + 1, t0 + 9));
    RunKeepsRowInv(j, Reclaim(w, t0));
    ReclaimedRow(j, w, t0);
    LateMoveHappens(After(j, Reclaim(w, t0)), w, t0);
  }

  /** A transition the worker prepared during its first attempt. */
  function LateMove(j: Job, w: string, t0: Time): Transition {
    Transition(Uuid(j.fixed.id), w, Analyzing, Optimizing, 1, "", "", "", t0 + 2, t0 + 9)
  }

  lemma ReclaimedRow(j: Job, w: string, t0: Time)
    requires Retryable(ClaimRow(j, w, t0, t0 + 1)) && j.fixed.createdAt <= t0
    ensures var k := ClaimRow(RecoverRow(ClaimRow(j, w, t0, t0 + 1), t0 + 1, t0 + 1), w, t0 + 1, t0 + 9);
            k.fixed == j.fixed && k.attempts == j.attempts + 2 && k.version == j.version + 3 && k.progress == 0 &&
            !StopRequested(k) && HoldsLease(k, w, t0 + 2) && k.status == Analyzing
  {
  }

  lemma LateMoveHappens(k: Job, w: string, t0: Time)
    requires RowInv(k) && HoldsLease(k, w, t0 + 2) && k.status == Analyzing && k.progress == 0 && !StopRequested(k)
    requires ValidWorker(w) && k.version < MAX_INT64 && t0 > ZERO_TIME && k.fixed.createdAt <= t0
    ensures Happens(k, Moved(LateMove(k, w, t0)))
  {
    assert ValidTransition(Analyzing, Optimizing);
    MoveAbortsExactlyWhen(k, LateMove(k, w, t0));
  }

  /** A worker claims, loses its lease, and claims again. */
  function Reclaim(w: string, t0: Time): seq<RowEvent> {
    [Claimed(w, t0, t0 + 1), Recovered(t0 + 1, t0 + 1), Claimed(w, t0 + 1, t0 + 9)]
  }

  lemma ClaimHappens(j: Job, w: string, now: Time, deadline: Time)
    requires RowInv(j) && ValidClaim(w, now, deadline) && Claimable(j, now) && j.version < MAX_INT64
    ensures Happens(j, Claimed(w, now, deadline)) && RowInv(ClaimRow(j, w, now, deadline))
    ensures var k := ClaimRow(j, w, now, deadline);
            LeaseExpired(k, deadline) && !StopRequested(k) && k.attempts == j.attempts + 1 &&
            k.version == j.version + 1 && k.expiresAt == j.expiresAt && k.fixed == j.fixed
  {
    ClaimAbortsExactlyWhen(j, w, now, deadline);
    ClaimKeepsRowInv(j, w, now, deadline);
  }

  lemma RequeueHappens(j: Job, now: Time)
    requires RowInv(j) && now != ZERO_TIME && LeaseExpired(j, now) && Retryable(j) && j.version < MAX_INT64
    ensures Happens(j, Recovered(now, now)) && RowInv(RecoverRow(j, now, now))
    ensures var k := RecoverRow(j, now, now);
            (j.expiresAt > now ==> Claimable(k, now)) && k.version == j.version + 1 && k.fixed == j.fixed
  {
    RecoveryAbortsExactlyWhen(j, now, now);
    RecoverKeepsRowInv(j, now, now);
  }

  lemma ReclaimHappens(j: Job, w: string, t0: Time)
    requires RowInv(j) && ValidWorker(w) && Claimable(j, t0) && t0 > ZERO_TIME
    requires j.attempts + 1 < j.fixed.maxAttempts && j.expiresAt > t0 + 1 && j.version + 4 <= MAX_INT64
    ensures var a := ClaimRow(j, w, t0, t0 + 1);
            var b := RecoverRow(a, t0 + 1, t0 + 1);
            Happens(j, Claimed(w, t0, t0 + 1)) && Happens(a, Recovered(t0 + 1, t0 + 1)) &&
            Happens(b, Claimed(w, t0 + 1, t0 + 9))
  {
    ClaimHappens(j, w, t0, t0 + 1);
    var a := ClaimRow(j, w, t0, t0 + 1);
    RequeueHappens(a, t0 + 1);
    ClaimHappens(RecoverRow(a, t0 + 1, t0 + 1), w, t0 + 1, t0 + 9);
  }

  lemma OneEvent(j: Job, e: RowEvent)
    ensures RowRun(j, [e]) <==> Happens(j, e)
    ensures After(j, [e]) == Apply(j, e)
  {
    assert [e][1..] == [];
    assert After(Apply(j, e), []) == Apply(j, e);
  }

  lemma ThreeEvents(j: Job, e: RowEvent, f: RowEvent, g: RowEvent)
    requires Happens(j, e) && Happens(Apply(j, e), f) && Happens(Apply(Apply(j, e), f), g)
    ensures RowRun(j, [e, f, g]) && After(j, [e, f, g]) == Apply(Apply(Apply(j, e), f), g)
  {
    OneEvent(j, e);
    OneEvent(Apply(j, e), f);
    OneEvent(Apply(Apply(j, e), f), g);
    RunSplits(j, [e], [f]);
    RunSplits(j, [e] + [f], [g]);
    assert [e, f, g] == [e] + [f] + [g];
  }

  /** Every deadline of the run was computed as the caller's clock plus one lease duration. */
  predicate LeasesOf(es: seq<RowEvent>, duration: int) {
    forall i :: 0 <= i < |es| ==> LeaseOf(es[i], duration)
  }

  predicate LeaseOf(e: RowEvent, duration: int) {
    match e
    case Claimed(_, now, deadline) => deadline == now + duration
    case Beat(_, now, deadline) => deadline == now + duration
    case Moved(t) => t.deadline == t.now + duration
    case _ => true
  }

  predicate DeadlineTied(j: Job, duration: int) {
    Active(j.status) && j.leaseExpiresAt.Some? && j.heartbeatAt.Some? ==>
      j.leaseExpiresAt.value == j.heartbeatAt.value + duration
  }

  lemma EventTiesDeadline(j: Job, e: RowEvent, duration: int)
    requires RowInv(j) && Happens(j, e) && LeaseOf(e, duration) && DeadlineTied(j, duration)
    ensures DeadlineTied(Apply(j, e), duration)
  {
  }

  lemma {:induction false} DeadlineFollowsHeartbeat(j: Job, es: seq<RowEvent>, duration: int)
    requires RowInv(j) && DeadlineTied(j, duration) && RowRun(j, es) && LeasesOf(es, duration)
    ensures RowInv(After(j, es)) && DeadlineTied(After(j, es), duration)
    decreases |es|
  {
    if es != [] {
      EventKeepsRowInv(j, es[0]);
      EventTiesDeadline(j, es[0], duration);
      DeadlineFollowsHeartbeat(Apply(j, es[0]), es[1..], duration);
    }
  }

  /** A heartbeat overwrites the deadline: it moves it forward exactly when the worker's clock is
      ahead of the one it last reported, and back otherwise. */
  lemma HeartbeatExtendsIffClockAdvances(j: Job, es: seq<RowEvent>, duration: int, worker: string, now: Time)
    requires RowInv(j) && !Active(j.status) && RowRun(j, es) && LeasesOf(es, duration)
    requires Guard(After(j, es), Beat(worker, now, now + duration)) && !StopRequested(After(j, es))
    ensures var k := After(j, es);
            var beaten := HeartbeatRow(k, now, now + duration);
            k.leaseExpiresAt.Some? && k.heartbeatAt.Some? && beaten.leaseExpiresAt.Some? &&
            (beaten.leaseExpiresAt.value > k.leaseExpiresAt.value <==> now > k.heartbeatAt.value) &&
            (beaten.leaseExpiresAt.value < k.leaseExpiresAt.value <==> now < k.heartbeatAt.value)
  {
    DeadlineFollowsHeartbeat(j, es, duration);
  }

  // ---------------------------------------------------------------- cancellation

  lemma StoppedEvent(j: Job, e: RowEvent)
    requires RowInv(j) && Active(j.status) && j.cancelRequestedAt.Some? && Happens(j, e)
    ensures var k := Apply(j, e);
            k.cancelRequestedAt == j.cancelRequestedAt && (k.status == Cancelled || OnlyTombstoned(j, k))
  {
  }

  /** A running job that was asked to stop: nothing a worker holds can move any more. */
  lemma {:induction false} CancellationIsDecisive(j: Job, es: seq<RowEvent>)
    requires RowInv(j) && Active(j.status) && j.cancelRequestedAt.Some? && RowRun(j, es)
    ensures After(j, es).status == Cancelled || OnlyTombstoned(j, After(j, es))
    ensures After(j, es).cancelRequestedAt == j.cancelRequestedAt
    decreases |es|
  {
    if es != [] {
      var k := Apply(j, es[0]);
      EventKeepsRowInv(j, es[0]);
      StoppedEvent(j, es[0]);
      if k.status == Cancelled {
        TerminalIsFinal(k, es[1..]);
      } else {
        CancellationIsDecisive(k, es[1..]);
      }
    }
  }

  /** ... and any recovery observed at or after its frozen deadline, if it reaches the row while
      it still runs, makes it cancelled; before that deadline no recovery can select it. */
  lemma RecoveryCancels(j: Job, es: seq<RowEvent>, now: Time, retryAt: Time)
    requires RowInv(j) && Active(j.status) && j.cancelRequestedAt.Some? && RowRun(j, es)
    requires Active(After(j, es).status) && now != ZERO_TIME && retryAt >= now
    ensures Guard(After(j, es), Recovered(now, retryAt)) <==> now >= j.leaseExpiresAt.value
    ensures RecoverRow(After(j, es), now, retryAt).status == Cancelled
  {
    CancellationIsDecisive(j, es);
  }

  // ---------------------------------------------------------------- termination

  /** What a job still has to lose. */
  function Fuel(j: Job): int {
    if Terminal(j.status) then 0
    else 2 * (j.fixed.maxAttempts - j.attempts) + (if Active(j.status) then 1 else 0)
  }

  predicate Decisive(j: Job, e: RowEvent) {
    e.Claimed? || e.Recovered? || (!Terminal(j.status) && Terminal(Apply(j, e).status))
  }

  lemma FuelFalls(j: Job, e: RowEvent)
    requires RowInv(j) && Happens(j, e)
    ensures 0 <= Fuel(Apply(j, e)) <= Fuel(j)
    ensures Decisive(j, e) ==> Fuel(Apply(j, e)) < Fuel(j)
  {
    EventKeepsRowInv(j, e);
  }

  function DecisiveSteps(j: Job, es: seq<RowEvent>): nat
    decreases |es|
  {
    if es == [] then 0
    else (if Decisive(j, es[0]) then 1 else 0) + DecisiveSteps(Apply(j, es[0]), es[1..])
  }

  /** However long a job lives, it is claimed at most max_attempts times, and all its claims,
      recoveries and terminal steps together number at most twice that. */
  lemma {:induction false} RunsOutOfFuel(j: Job, es: seq<RowEvent>)
    requires RowInv(j) && RowRun(j, es)
    ensures DecisiveSteps(j, es) + Fuel(After(j, es)) <= Fuel(j)
    ensures DecisiveSteps(j, es) <= Fuel(j) <= 2 * (j.fixed.maxAttempts - j.attempts) + 1
    ensures |Claims(es)| <= j.fixed.maxAttempts - j.attempts
    decreases |es|
  {
    LeaseFollowsClaims(j, es);
    RunKeepsRowInv(j, es);
    if es != [] {
      FuelFalls(j, es[0]);
      EventKeepsRowInv(j, es[0]);
      RunsOutOfFuel(Apply(j, es[0]), es[1..]);
    }
  }

  /** The worker of every claim dies: nobody transitions, cancels or deletes the job. */
  predicate Abandoned(es: seq<RowEvent>) {
    forall i :: 0 <= i < |es| ==> es[i].Unaffected? || es[i].Claimed? || es[i].Beat? || es[i].Recovered?
  }

  function Recoveries(es: seq<RowEvent>): nat
    decreases |es|
  {
    if es == [] then 0 else (if es[0].Recovered? then 1 else 0) + Recoveries(es[1..])
  }

  lemma {:induction false} AbandonedBalance(j: Job, es: seq<RowEvent>)
    requires RowInv(j) && !StopRequested(j) && RowRun(j, es) && Abandoned(es)
    ensures var k := After(j, es);
            !StopRequested(k) &&
            |Claims(es)| + (if Active(j.status) then 1 else 0) ==
              Recoveries(es) + (if Active(k.status) then 1 else 0)
    ensures !Terminal(j.status) && Terminal(After(j, es).status) ==>
              After(j, es).status == Failed && After(j, es).errorCode == Some(EXHAUSTED_CODE) &&
              After(j, es).attempts == j.fixed.maxAttempts
    decreases |es|
  {
    if es != [] {
      var k := Apply(j, es[0]);
      EventKeepsRowInv(j, es[0]);
      AbandonedBalance(k, es[1..]);
      if Terminal(k.status) {
        TerminalIsFinal(k, es[1..]);
      }
    }
  }

  /** A job whose workers always die fails exactly when its last allowed claim was recovered. */
  lemma AbandonedJobFailsAfterMaxClaims(j: Job, es: seq<RowEvent>)
    requires RowInv(j) && j.status == Queued && j.attempts == 0 && RowRun(j, es) && Abandoned(es)
    ensures Terminal(After(j, es).status) <==>
            |Claims(es)| == j.fixed.maxAttempts && Recoveries(es) == j.fixed.maxAttempts
    ensures Terminal(After(j, es).status) ==>
            After(j, es).status == Failed && After(j, es).errorCode == Some(EXHAUSTED_CODE)
  {
    RunKeepsRowInv(j, es);
    LeaseFollowsClaims(j, es);
    AbandonedBalance(j, es);
  }

  // ---------------------------------------------------------------- version stamps and progress

  /** The one mutation that escapes the version: a repeated Delete observed before the retention
      deadline that the first one set. */
  predicate SilentShortening(j: Job, e: RowEvent) {
    e.DeleteAsked? && j.deletionRequestedAt.Some? && Later(e.now, j.fixed.createdAt + 1) < j.expiresAt
  }

  lemma DeletionStamps(j: Job, now: Time)
    requires RowInv(j)
    ensures DeleteRow(j, now).version == j.version || DeleteRow(j, now).version == j.version + 1
    ensures DeleteRow(j, now).version == j.version && DeleteRow(j, now) != j <==> SilentShortening(j, DeleteAsked(now))
  {
  }

  lemma VersionStampsEvent(j: Job, e: RowEvent)
    requires RowInv(j) && Happens(j, e)
    ensures Apply(j, e).version == j.version || Apply(j, e).version == j.version + 1
    ensures Apply(j, e).version == j.version && Apply(j, e) != j <==> SilentShortening(j, e)
  {
    if e.DeleteAsked? {
      DeletionStamps(j, e.now);
    }
  }

  lemma {:induction false} VersionNeverFalls(j: Job, es: seq<RowEvent>)
    requires RowInv(j) && RowRun(j, es)
    ensures After(j, es).version >= j.version
    decreases |es|
  {
    if es != [] {
      EventKeepsRowInv(j, es[0]);
      VersionStampsEvent(j, es[0]);
      VersionNeverFalls(Apply(j, es[0]), es[1..]);
    }
  }

  /** Some event of the run is a silent shortening of the row it meets. */
  predicate Silent(j: Job, es: seq<RowEvent>)
    decreases |es|
  {
    es != [] && (SilentShortening(j, es[0]) || Silent(Apply(j, es[0]), es[1..]))
  }

  /** Two snapshots of a row with the same version differ in the retention deadline at most, and they
      are the same row exactly when no deletion in between shortened it silently. */
  lemma {:induction false} VersionIsFaithfulIff(j: Job, es: seq<RowEvent>)
    requires RowInv(j) && RowRun(j, es) && After(j, es).version == j.version
    ensures After(j, es) == j.(expiresAt := After(j, es).expiresAt)
    ensures After(j, es) == j <==> !Silent(j, es)
    decreases |es|
  {
    if es != [] {
      var k := Apply(j, es[0]);
      EventKeepsRowInv(j, es[0]);
      VersionStampsEvent(j, es[0]);
      VersionNeverFalls(k, es[1..]);
      VersionIsFaithfulIff(k, es[1..]);
      SilentEvent(j, es[0]);
      RunKeepsFirstInstants(k, es[1..]);
    }
  }

  /** What a version-preserving event does: nothing, or a strictly shorter retention. */
  lemma SilentEvent(j: Job, e: RowEvent)
    requires RowInv(j) && Happens(j, e) && Apply(j, e).version == j.version
    ensures Apply(j, e) == j.(expiresAt := Apply(j, e).expiresAt)
    ensures if SilentShortening(j, e) then Apply(j, e).expiresAt < j.expiresAt else Apply(j, e) == j
  {
  }

  /** Repeated deletes carry a clock value no earlier than the stored deletion instant. */
  predicate OrderlyDeletes(j: Job, es: seq<RowEvent>)
    decreases |es|
  {
    es == [] ||
    ((es[0].DeleteAsked? && j.deletionRequestedAt.Some? ==> es[0].now >= j.deletionRequestedAt.value) &&
     OrderlyDeletes(Apply(j, es[0]), es[1..]))
  }

  lemma {:induction false} OrderlyDeletesAreNotSilent(j: Job, es: seq<RowEvent>)
    requires RowInv(j) && RowRun(j, es) && OrderlyDeletes(j, es)
    ensures !Silent(j, es)
    decreases |es|
  {
    if es != [] {
      EventKeepsRowInv(j, es[0]);
      OrderlyDeletesAreNotSilent(Apply(j, es[0]), es[1..]);
    }
  }

  /** In particular the version is a faithful stamp where repeated deletes are orderly. */
  lemma VersionIsFaithful(j: Job, es: seq<RowEvent>)
    requires RowInv(j) && RowRun(j, es) && OrderlyDeletes(j, es)
    ensures After(j, es).version == j.version ==> After(j, es) == j
  {
    if After(j, es).version == j.version {
      VersionIsFaithfulIff(j, es);
      OrderlyDeletesAreNotSilent(j, es);
    }
  }

  /** Cancelling twice is cancelling once, whatever the second clock says. */
  lemma CancelIsIdempotent(j: Job, a: Time, b: Time)
    requires RowInv(j)
    ensures CancelRow(CancelRow(j, a), b) == CancelRow(j, a)
  {
  }

  /** Deleting twice is deleting once exactly when the second clock is not before the retention
      deadline the first one left. */
  lemma DeleteIsIdempotentIff(j: Job, a: Time, b: Time)
    requires RowInv(j)
    ensures DeleteRow(DeleteRow(j, a), b) == DeleteRow(j, a) <==>
            Later(b, j.fixed.createdAt + 1) >= DeleteRow(j, a).expiresAt
  {
  }

  /** Some event of the run put the job back in the queue. */
  predicate Requeues(j: Job, es: seq<RowEvent>)
    decreases |es|
  {
    es != [] && ((es[0].Recovered? && Retryable(j)) || Requeues(Apply(j, es[0]), es[1..]))
  }

  lemma EventKeepsProgress(j: Job, e: RowEvent)
    requires RowInv(j) && Happens(j, e) && !(e.Recovered? && Retryable(j))
    ensures Apply(j, e).progress >= j.progress
  {
  }

  /** Progress falls only where a recovery puts the job back in the queue. */
  lemma {:induction false} ProgressFallsOnlyOnRequeue(j: Job, es: seq<RowEvent>)
    requires RowInv(j) && RowRun(j, es) && !Requeues(j, es)
    ensures After(j, es).progress >= j.progress
    decreases |es|
  {
    if es != [] {
      EventKeepsRowInv(j, es[0]);
      EventKeepsProgress(j, es[0]);
      ProgressFallsOnlyOnRequeue(Apply(j, es[0]), es[1..]);
    }
  }
}
