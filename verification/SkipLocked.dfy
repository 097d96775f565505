/** The inside of claims and recovery passes: the selected rows are locked, then rewritten, then
    released at commit or rollback, while every other call on the database runs in between.
    FOR UPDATE SKIP LOCKED passes over rows that are held. */
module SkipLocked {
  import opened Common
  import opened JobStatus
  import opened Job
  import opened JobRow
  import opened RowOrder
  import opened JobTable
  import D = Draining
  import UT = UploadTables
  import R = Runs

  /** The two statements that lock rows with SKIP LOCKED. */
  datatype Work =
    | Claiming(worker: string, now: Time, deadline: Time)
    | Recovering(now: Time, retryAt: Time, limit: int)

  /** A statement in flight; pending holds the row versions it has written but not committed. */
  datatype Tx = Tx(work: Work, rows: seq<nat>, pending: Option<Table>)

  /** One attempt of a job given to a worker. */
  datatype Grant = Grant(row: nat, attempt: int, worker: string)

  /** The committed tables, the statements in flight, and the log of committed grants. */
  datatype State = State(store: UT.Tables, jobs: Table, txs: map<nat, Tx>, log: seq<Grant>)

  predicate ValidWork(w: Work) {
    match w
    case Claiming(worker, now, deadline) => ValidClaim(worker, now, deadline)
    case Recovering(now, retryAt, limit) => ValidRecovery(now, retryAt, limit)
  }

  predicate Eligible(w: Work, j: Job) {
    match w
    case Claiming(_, now, _) => Claimable(j, now)
    case Recovering(now, _, _) => LeaseExpired(j, now)
  }

  function Rewritten(w: Work, j: Job): Job {
    match w
    case Claiming(worker, now, deadline) => ClaimRow(j, worker, now, deadline)
    case Recovering(now, retryAt, _) => RecoverRow(j, now, retryAt)
  }

  /** The rows a statement locks: those it would select while the held ones are skipped. */
  ghost function Selected(jobs: Table, w: Work, held: set<nat>): seq<nat>
    requires ValidWork(w)
  {
    match w
    case Claiming(_, now, _) =>
      var keys := ClaimKeys(jobs, now, held);
      if keys == map[] then [] else [Least(keys)]
    case Recovering(now, _, limit) => Batch(jobs, now, limit, held)
  }

  lemma SelectedRows(jobs: Table, w: Work, held: set<nat>)
    requires ValidWork(w)
    ensures forall id :: id in Selected(jobs, w, held) ==> id in jobs && id !in held && Eligible(w, jobs[id])
    ensures Distinct(Selected(jobs, w, held))
    ensures w.Claiming? ==> |Selected(jobs, w, held)| <= 1
  {
    match w
    case Claiming(_, now, _) =>
    case Recovering(now, _, limit) =>
      BatchMembers(jobs, now, limit, held);
      forall id | id in Selected(jobs, w, held)
        ensures id in jobs && id !in held && Eligible(w, jobs[id])
      {
        assert id in Members(Batch(jobs, now, limit, held));
        assert id in RecoverKeys(jobs, now, held);
      }
  }

  ghost function Held(c: State): set<nat> {
    set tx, id | tx in c.txs && id in c.txs[tx].rows :: id
  }

  datatype Action =
    | Lock(tx: nat, work: Work)
    | Write(tx: nat)
    | Commit(tx: nat)
    | Rollback(tx: nat)
    | Other(e: R.Event)

  /** A statement that needs a held row waits for its lock; claims and recoveries are split. */
  ghost predicate MayRun(c: State, e: R.Event) {
    match e
    case OnUploads(_) => true
    case OnJobs(j) =>
      match j
      case Created(seed) =>
        seed.uploadId.Uuid? ==> forall id :: id in Held(c) ==> !UploadHasJob(c.jobs, seed.uploadId.id, id)
      case ClaimAsked(_, _, _, _) => false
      case BeatSent(id, _, _, _) => id.Uuid? ==> id.id !in Held(c)
      case MoveSent(t) => t.jobId.Uuid? ==> t.jobId.id !in Held(c)
      case RecoverAsked(_, _, _, _) => false
      case CancelSent(id, _, _) => id.Uuid? ==> id.id !in Held(c)
      case DeleteSent(id, _, _) => id.Uuid? ==> id.id !in Held(c)
  }

  ghost predicate RowsFit(jobs: Table, t: Tx) {
    forall id :: id in t.rows ==> id in jobs && RowCheck(Rewritten(t.work, jobs[id]))
  }

  function NewRows(jobs: Table, t: Tx): Table {
    map id | id in jobs && id in t.rows :: Rewritten(t.work, jobs[id])
  }

  function Overwrite(jobs: Table, rows: Table): Table {
    map id | id in jobs :: if id in rows then rows[id] else jobs[id]
  }

  ghost predicate Enabled(c: State, a: Action) {
    match a
    case Lock(tx, work) => tx !in c.txs && ValidWork(work) && Selected(c.jobs, work, Held(c)) != []
    case Write(tx) => tx in c.txs && c.txs[tx].pending.None? && RowsFit(c.jobs, c.txs[tx])
    case Commit(tx) => tx in c.txs && c.txs[tx].pending.Some?
    case Rollback(tx) => tx in c.txs
    case Other(e) => MayRun(c, e)
  }

  function Granted(t: Tx): seq<Grant> {
    if t.work.Claiming? && t.rows != [] && t.pending.Some? && t.rows[0] in t.pending.value then
      [Grant(t.rows[0], t.pending.value[t.rows[0]].attempts, t.work.worker)]
    else []
  }

  ghost function World(c: State): R.World { R.World(c.store, c.jobs) }

  ghost function Next(c: State, a: Action): State
    requires Enabled(c, a)
  {
    match a
    case Lock(tx, work) => c.(txs := c.txs[tx := Tx(work, Selected(c.jobs, work, Held(c)), None)])
    case Write(tx) => c.(txs := c.txs[tx := c.txs[tx].(pending := Some(NewRows(c.jobs, c.txs[tx])))])
    case Commit(tx) =>
      c.(jobs := Overwrite(c.jobs, c.txs[tx].pending.value), txs := c.txs - {tx}, log := c.log + Granted(c.txs[tx]))
    case Rollback(tx) => c.(txs := c.txs - {tx})
    case Other(e) =>
      var w := R.Step(World(c), e);
      c.(store := w.store, jobs := w.jobs)
  }

  // ---------------------------------------------------------------- invariant

  /** No row is held twice. */
  ghost predicate DisjointRows(c: State) {
    forall s, t, id :: s in c.txs && t in c.txs && id in c.txs[s].rows && id in c.txs[t].rows ==> s == t
  }

  /** A locked row is still there and still eligible for the statement that holds it. */
  ghost predicate TxOk(jobs: Table, t: Tx) {
    ValidWork(t.work) && Distinct(t.rows) && t.rows != [] && (t.work.Claiming? ==> |t.rows| == 1) &&
    (forall id :: id in t.rows ==> id in jobs && Eligible(t.work, jobs[id])) &&
    (t.pending.Some? ==> t.pending.value == NewRows(jobs, t) && RowsFit(jobs, t))
  }

  ghost predicate StillEligible(c: State) {
    forall tx :: tx in c.txs ==> TxOk(c.jobs, c.txs[tx])
  }

  /** Grants of one job carry ascending attempt numbers, none above the job's counter. */
  ghost predicate GrantsAscend(jobs: Table, log: seq<Grant>) {
    (forall i :: 0 <= i < |log| ==> log[i].row in jobs && log[i].attempt <= jobs[log[i].row].attempts) &&
    (forall i, j :: 0 <= i < j < |log| && log[i].row == log[j].row ==> log[i].attempt < log[j].attempt)
  }

  ghost predicate Inv(c: State) {
    DisjointRows(c) && StillEligible(c) && GrantsAscend(c.jobs, c.log)
  }

  lemma AttemptsFollow(j: Job, e: RowEvent)
    ensures Apply(j, e).attempts == j.attempts + if e.Claimed? then 1 else 0
  {
  }

  /** Other calls leave a held row alone. */
  lemma OthersSpareHeldRows(c: State, e: R.Event, id: nat)
    requires MayRun(c, e) && id in c.jobs
    ensures var jobs := R.Step(World(c), e).jobs;
            id in jobs && (id in Held(c) ==> jobs[id] == c.jobs[id]) && jobs[id].attempts == c.jobs[id].attempts
  {
    if e.OnJobs? {
      StepActsOnRow(c.store.uploads, c.jobs, e.job, id);
      AttemptsFollow(c.jobs[id], Effect(c.jobs, e.job, id));
    }
  }

  /** Whatever else happens, a transaction's rows stay as they were when it locked them. */
  lemma HeldRowStays(c: State, a: Action, tx: nat, id: nat)
    requires DisjointRows(c) && Enabled(c, a) && tx in c.txs && id in c.txs[tx].rows && id in c.jobs
    requires StillEligible(c) && a != Commit(tx)
    ensures id in Next(c, a).jobs && Next(c, a).jobs[id] == c.jobs[id]
  {
    match a
    case Commit(other) => assert id !in c.txs[other].rows;
    case Other(e) =>
      assert id in Held(c);
      OthersSpareHeldRows(c, e, id);
    case _ =>
  }

  lemma TxStaysOk(jobs: Table, after: Table, t: Tx)
    requires TxOk(jobs, t) && forall id :: id in t.rows ==> id in after && after[id] == jobs[id]
    ensures TxOk(after, t)
  {
    assert NewRows(after, t) == NewRows(jobs, t);
  }

  lemma OthersStayOk(c: State, a: Action, tx: nat)
    requires DisjointRows(c) && StillEligible(c) && Enabled(c, a) && tx in c.txs && a != Commit(tx)
    ensures TxOk(Next(c, a).jobs, c.txs[tx])
  {
    forall id | id in c.txs[tx].rows
      ensures id in Next(c, a).jobs && Next(c, a).jobs[id] == c.jobs[id]
    {
      HeldRowStays(c, a, tx, id);
    }
    TxStaysOk(c.jobs, Next(c, a).jobs, c.txs[tx]);
  }

  lemma LockedTxIsOk(c: State, work: Work)
    requires ValidWork(work) && Selected(c.jobs, work, Held(c)) != []
    ensures TxOk(c.jobs, Tx(work, Selected(c.jobs, work, Held(c)), None))
    ensures forall id :: id in Selected(c.jobs, work, Held(c)) ==> id !in Held(c)
  {
    SelectedRows(c.jobs, work, Held(c));
  }

  lemma ActionKeepsEligible(c: State, a: Action)
    requires DisjointRows(c) && StillEligible(c) && Enabled(c, a)
    ensures StillEligible(Next(c, a))
  {
    var d := Next(c, a);
    forall tx | tx in d.txs
      ensures TxOk(d.jobs, d.txs[tx])
    {
      if a.Lock? && tx == a.tx {
        LockedTxIsOk(c, a.work);
      } else {
        OthersStayOk(c, a, tx);
      }
    }
  }

  lemma ActionKeepsDisjoint(c: State, a: Action)
    requires DisjointRows(c) && Enabled(c, a)
    ensures DisjointRows(Next(c, a))
  {
    if a.Lock? {
      LockedTxIsOk(c, a.work);
      assert forall tx, id :: tx in c.txs && id in c.txs[tx].rows ==> id in Held(c);
    }
  }

  lemma GrantedRow(jobs: Table, t: Tx)
    requires TxOk(jobs, t) && t.pending.Some? && t.work.Claiming?
    ensures t.rows[0] in jobs && Granted(t) == [Grant(t.rows[0], jobs[t.rows[0]].attempts + 1, t.work.worker)]
    ensures Overwrite(jobs, t.pending.value)[t.rows[0]].attempts == jobs[t.rows[0]].attempts + 1
  {
  }

  lemma AttemptsRise(jobs: Table, t: Tx, id: nat)
    requires TxOk(jobs, t) && t.pending.Some? && id in jobs
    ensures Overwrite(jobs, t.pending.value)[id].attempts >= jobs[id].attempts
  {
  }

  lemma GrantsStayBelow(jobs: Table, after: Table, log: seq<Grant>)
    requires GrantsAscend(jobs, log)
    requires forall id :: id in jobs ==> id in after && after[id].attempts >= jobs[id].attempts
    ensures GrantsAscend(after, log)
  {
  }

  lemma OneMoreGrant(jobs: Table, after: Table, log: seq<Grant>, g: Grant)
    requires GrantsAscend(jobs, log) && GrantsAscend(after, log)
    requires g.row in jobs && g.row in after && g.attempt == jobs[g.row].attempts + 1 == after[g.row].attempts
    ensures GrantsAscend(after, log + [g])
  {
  }

  lemma CommitKeepsGrants(c: State, tx: nat)
    requires StillEligible(c) && GrantsAscend(c.jobs, c.log) && Enabled(c, Commit(tx))
    ensures GrantsAscend(Next(c, Commit(tx)).jobs, Next(c, Commit(tx)).log)
  {
    var t := c.txs[tx];
    var after := Overwrite(c.jobs, t.pending.value);
    forall id | id in c.jobs
      ensures after[id].attempts >= c.jobs[id].attempts
    {
      AttemptsRise(c.jobs, t, id);
    }
    GrantsStayBelow(c.jobs, after, c.log);
    if t.work.Claiming? {
      GrantedRow(c.jobs, t);
      OneMoreGrant(c.jobs, after, c.log, Granted(t)[0]);
    } else {
      assert c.log + Granted(t) == c.log;
    }
  }

  /** Statements in flight hold disjoint rows, each still eligible when it is rewritten, and no
      attempt of a job is ever granted twice, whatever interleaves, rollbacks included. */
  lemma ActionKeepsInv(c: State, a: Action)
    requires Inv(c) && Enabled(c, a)
    ensures Inv(Next(c, a))
  {
    ActionKeepsDisjoint(c, a);
    ActionKeepsEligible(c, a);
    match a
    case Commit(tx) => CommitKeepsGrants(c, tx);
    case Other(e) =>
      forall id | id in c.jobs
        ensures id in Next(c, a).jobs && Next(c, a).jobs[id].attempts >= c.jobs[id].attempts
      {
        OthersSpareHeldRows(c, e, id);
      }
      GrantsStayBelow(c.jobs, Next(c, a).jobs, c.log);
    case _ =>
  }

  // ---------------------------------------------------------------- what a lock passes over

  /** The row a claim locks precedes every eligible row that no other transaction holds. */
  lemma OnlyHeldRowsArePassedOver(c: State, tx: nat, worker: string, now: Time, deadline: Time, id: nat)
    requires Enabled(c, Lock(tx, Claiming(worker, now, deadline))) && id in c.jobs && Claimable(c.jobs[id], now)
    ensures var locked := Next(c, Lock(tx, Claiming(worker, now, deadline))).txs[tx].rows[0];
            var keys := ClaimKeys(c.jobs, now, {});
            locked in keys && (id == locked || Less(keys[locked], keys[id]) || id in Held(c))
  {
    var locked := Least(ClaimKeys(c.jobs, now, Held(c)));
    assert locked in ClaimKeys(c.jobs, now, Held(c));
    if id !in Held(c) {
      assert id in ClaimKeys(c.jobs, now, Held(c));
    }
  }

  /** An expired row that a recovery pass leaves behind is held by another transaction, or the pass
      is full and all its rows expired no later. */
  lemma OnlyHeldRowsAreLeftBehind(c: State, tx: nat, now: Time, retryAt: Time, limit: int, id: nat)
    requires Enabled(c, Lock(tx, Recovering(now, retryAt, limit))) && id in c.jobs && LeaseExpired(c.jobs[id], now)
    ensures var rows := Next(c, Lock(tx, Recovering(now, retryAt, limit))).txs[tx].rows;
            var keys := RecoverKeys(c.jobs, now, {});
            id in rows || id in Held(c) ||
            (|rows| == limit && forall r :: r in rows ==> r in keys && Less(keys[r], keys[id]))
  {
    var keys := RecoverKeys(c.jobs, now, Held(c));
    if id !in Held(c) {
      var unlocked := RecoverKeys(c.jobs, now, {});
      assert id in keys;
      assert forall r :: r in keys ==> r in unlocked && unlocked[r] == keys[r];
      PrefixPrecedesRest(keys, limit, id);
    }
  }

  lemma PrefixPrecedesRest(keys: map<nat, Key>, limit: nat, id: nat)
    requires Keyed(keys) && id in keys
    ensures var order := Ordered(keys);
            var rows := Limited(order, limit);
            id in rows || (|rows| == limit && forall r :: r in rows ==> r in keys && Less(keys[r], keys[id]))
  {
    OrderedIsSorted(keys);
    assert id in Members(Ordered(keys));
    var k :| 0 <= k < |Ordered(keys)| && Ordered(keys)[k] == id;
    if |Ordered(keys)| > limit && k < limit {
      assert Ordered(keys)[..limit][k] == id;
    }
  }

  // ---------------------------------------------------------------- the table promised by a run

  ghost predicate Runs(c: State, actions: seq<Action>)
    decreases |actions|
  {
    actions == [] || (Enabled(c, actions[0]) && Runs(Next(c, actions[0]), actions[1..]))
  }

  ghost function Final(c: State, actions: seq<Action>): State
    requires Runs(c, actions)
    decreases |actions|
  {
    if actions == [] then c else Final(Next(c, actions[0]), actions[1..])
  }

  lemma {:induction false} RunKeepsInv(c: State, actions: seq<Action>)
    requires Inv(c) && Runs(c, actions)
    ensures Inv(Final(c, actions))
    decreases |actions|
  {
    if actions != [] {
      ActionKeepsInv(c, actions[0]);
      RunKeepsInv(Next(c, actions[0]), actions[1..]);
    }
  }

  /** The transaction commits in the run, before anything rolls it back. One that does neither is
      like one that dies. */
  predicate Commits(tx: nat, actions: seq<Action>)
    decreases |actions|
  {
    actions != [] && (actions[0] == Commit(tx) || (actions[0] != Rollback(tx) && Commits(tx, actions[1..])))
  }

  /** Every row of a transaction that is going to commit passes the constraints. */
  lemma {:induction false} CommittingRowsFit(c: State, actions: seq<Action>, tx: nat)
    requires Inv(c) && Runs(c, actions) && tx in c.txs && Commits(tx, actions)
    ensures RowsFit(c.jobs, c.txs[tx])
    decreases |actions|
  {
    var a := actions[0];
    if a != Commit(tx) && a != Write(tx) {
      ActionKeepsInv(c, a);
      CommittingRowsFit(Next(c, a), actions[1..], tx);
      forall id | id in c.txs[tx].rows
        ensures id in c.jobs && Next(c, a).jobs[id] == c.jobs[id]
      {
        assert TxOk(c.jobs, c.txs[tx]);
        HeldRowStays(c, a, tx, id);
      }
    }
  }

  ghost function Holder(c: State, id: nat): (tx: nat)
    requires id in Held(c)
    ensures tx in c.txs && id in c.txs[tx].rows
  {
    var tx :| tx in c.txs && id in c.txs[tx].rows;
    tx
  }

  lemma HolderIs(c: State, tx: nat, id: nat)
    requires DisjointRows(c) && tx in c.txs && id in c.txs[tx].rows
    ensures id in Held(c) && Holder(c, id) == tx
  {
  }

  /** The row is held by a transaction that the run commits. */
  ghost predicate Settled(c: State, actions: seq<Action>, id: nat) {
    id in Held(c) && Commits(Holder(c, id), actions)
  }

  ghost function PromisedRow(c: State, actions: seq<Action>, id: nat): Job
    requires id in c.jobs
  {
    if Settled(c, actions, id) then Rewritten(c.txs[Holder(c, id)].work, c.jobs[id]) else c.jobs[id]
  }

  /** The table in which every transaction that the run commits has already happened, and no other:
      those that roll back or die leave their rows as committed. */
  ghost function Promised(c: State, actions: seq<Action>): Table {
    map id | id in c.jobs :: PromisedRow(c, actions, id)
  }

  /** The rows an atomic claim has to skip: those of recovery passes, and those of claims that will
      not commit. Rows of committing claims need no skipping, they are promised to be running. An
      atomic recovery pass skips whatever is held. */
  ghost function Skipped(c: State, actions: seq<Action>, w: Work): set<nat> {
    if w.Recovering? then Held(c)
    else set id | id in Held(c) && (!Settled(c, actions, id) || c.txs[Holder(c, id)].work.Recovering?)
  }

  function Asked(w: Work, locked: set<nat>): JobEvent {
    match w
    case Claiming(worker, now, deadline) => ClaimAsked(worker, now, deadline, locked)
    case Recovering(now, retryAt, limit) => RecoverAsked(now, retryAt, limit, locked)
  }

  /** The atomic calls an action amounts to: a lock whose transaction commits is the whole statement,
      every other phase is nothing, a rolled-back lock included. */
  ghost function AtomicOf(c: State, actions: seq<Action>): seq<R.Event>
    requires actions != []
  {
    match actions[0]
    case Lock(tx, work) =>
      if Commits(tx, actions[1..]) then [R.OnJobs(Asked(work, Skipped(c, actions[1..], work)))] else []
    case Other(e) => [e]
    case _ => []
  }

  ghost function AtomicRun(c: State, actions: seq<Action>): seq<R.Event>
    requires Runs(c, actions)
    decreases |actions|
  {
    if actions == [] then [] else AtomicOf(c, actions) + AtomicRun(Next(c, actions[0]), actions[1..])
  }

  ghost function PromisedWorld(c: State, actions: seq<Action>): R.World {
    R.World(c.store, Promised(c, actions))
  }

  // ---------------------------------------------------------------- locking

  /** An atomic claim on the promised table has exactly the candidates of the lock. */
  lemma ClaimCandidates(c: State, actions: seq<Action>, w: Work)
    requires w.Claiming? && DisjointRows(c) && StillEligible(c)
    ensures ClaimKeys(Promised(c, actions), w.now, Skipped(c, actions, w)) == ClaimKeys(c.jobs, w.now, Held(c))
  {
    forall id | id in c.jobs && id in Held(c) && id !in Skipped(c, actions, w)
      ensures !Claimable(Promised(c, actions)[id], w.now)
    {
      assert TxOk(c.jobs, c.txs[Holder(c, id)]);
    }
  }

  lemma RecoverCandidates(c: State, actions: seq<Action>, now: Time)
    ensures RecoverKeys(Promised(c, actions), now, Held(c)) == RecoverKeys(c.jobs, now, Held(c))
  {
  }

  lemma SelectedAlike(c: State, actions: seq<Action>, w: Work)
    requires ValidWork(w) && DisjointRows(c) && StillEligible(c)
    ensures Selected(Promised(c, actions), w, Skipped(c, actions, w)) == Selected(c.jobs, w, Held(c))
  {
    if w.Claiming? {
      ClaimCandidates(c, actions, w);
    } else {
      RecoverCandidates(c, actions, w.now);
    }
  }

  lemma ClaimRewrites(jobs: Table, w: Work, locked: set<nat>)
    requires w.Claiming? && ValidWork(w) && Selected(jobs, w, locked) != []
    requires RowsFit(jobs, Tx(w, Selected(jobs, w, locked), None))
    ensures Claim(jobs, w.worker, w.now, w.deadline, locked).0 ==
            Overwrite(jobs, NewRows(jobs, Tx(w, Selected(jobs, w, locked), None)))
  {
    var id := Selected(jobs, w, locked)[0];
    assert id in Selected(jobs, w, locked) && id in ClaimKeys(jobs, w.now, locked);
  }

  lemma RecoveryRewrites(jobs: Table, w: Work, locked: set<nat>)
    requires w.Recovering? && ValidWork(w)
    requires RowsFit(jobs, Tx(w, Selected(jobs, w, locked), None))
    ensures Recover(jobs, w.now, w.retryAt, w.limit, locked).0 ==
            Overwrite(jobs, NewRows(jobs, Tx(w, Selected(jobs, w, locked), None)))
  {
    var rows := Selected(jobs, w, locked);
    assert forall id :: id in Members(rows) <==> id in rows;
  }

  lemma AskedStep(store: UT.Tables, jobs: Table, w: Work, locked: set<nat>)
    ensures R.Step(R.World(store, jobs), R.OnJobs(Asked(w, locked))) ==
            R.World(store, match w
                           case Claiming(worker, now, deadline) => Claim(jobs, worker, now, deadline, locked).0
                           case Recovering(now, retryAt, limit) => Recover(jobs, now, retryAt, limit, locked).0)
  {
  }

  /** An atomic statement whose new rows pass the constraints rewrites exactly what it selects. */
  lemma AskedRewrites(store: UT.Tables, jobs: Table, w: Work, locked: set<nat>)
    requires ValidWork(w) && Selected(jobs, w, locked) != []
    requires RowsFit(jobs, Tx(w, Selected(jobs, w, locked), None))
    ensures R.Step(R.World(store, jobs), R.OnJobs(Asked(w, locked))) ==
            R.World(store, Overwrite(jobs, NewRows(jobs, Tx(w, Selected(jobs, w, locked), None))))
  {
    AskedStep(store, jobs, w, locked);
    if w.Claiming? {
      ClaimRewrites(jobs, w, locked);
    } else {
      RecoveryRewrites(jobs, w, locked);
    }
  }

  /** Promises depend on the transactions and on how they end, not on the phases in between. */
  lemma SamePromise(c: State, actions: seq<Action>, d: State, rest: seq<Action>, id: nat)
    requires id in c.jobs && id in d.jobs && d.jobs[id] == c.jobs[id]
    requires Settled(c, actions, id) <==> Settled(d, rest, id)
    requires Settled(c, actions, id) ==> c.txs[Holder(c, id)].work == d.txs[Holder(d, id)].work
    ensures PromisedRow(d, rest, id) == PromisedRow(c, actions, id)
  {
  }

  /** A transaction in both states with the same rows makes the same promise. */
  lemma SameHolder(c: State, actions: seq<Action>, d: State, rest: seq<Action>, tx: nat, id: nat)
    requires DisjointRows(c) && DisjointRows(d) && tx in c.txs && tx in d.txs
    requires c.txs[tx].rows == d.txs[tx].rows && c.txs[tx].work == d.txs[tx].work && id in c.txs[tx].rows
    requires Commits(tx, actions) <==> Commits(tx, rest)
    requires id in c.jobs && id in d.jobs && d.jobs[id] == c.jobs[id]
    ensures PromisedRow(d, rest, id) == PromisedRow(c, actions, id)
  {
    HolderIs(c, tx, id);
    HolderIs(d, tx, id);
    SamePromise(c, actions, d, rest, id);
  }

  lemma LockedRowPromise(c: State, actions: seq<Action>, id: nat)
    requires Inv(c) && Runs(c, actions) && actions != [] && actions[0].Lock? && id in c.jobs
    ensures var a := actions[0];
            id in Next(c, a).jobs &&
            PromisedRow(Next(c, a), actions[1..], id) ==
              if id in Selected(c.jobs, a.work, Held(c)) && Commits(a.tx, actions[1..])
              then Rewritten(a.work, c.jobs[id])
              else PromisedRow(c, actions[1..], id)
    ensures id in Selected(c.jobs, actions[0].work, Held(c)) ==> PromisedRow(c, actions[1..], id) == c.jobs[id]
  {
    var a, rest := actions[0], actions[1..];
    var d := Next(c, a);
    ActionKeepsDisjoint(c, a);
    LockedTxIsOk(c, a.work);
    if id in Selected(c.jobs, a.work, Held(c)) {
      HolderIs(d, a.tx, id);
    } else if id in Held(c) {
      SameHolder(c, rest, d, rest, Holder(c, id), id);
    } else {
      assert id !in Held(d);
    }
  }

  lemma LockPromises(c: State, actions: seq<Action>)
    requires Inv(c) && Runs(c, actions) && actions != [] && actions[0].Lock?
    ensures var a, p := actions[0], Promised(c, actions[1..]);
            Promised(Next(c, a), actions[1..]) ==
              if Commits(a.tx, actions[1..]) then
                Overwrite(p, NewRows(p, Tx(a.work, Selected(c.jobs, a.work, Held(c)), None)))
              else p
  {
    forall id | id in c.jobs
      ensures PromisedRow(Next(c, actions[0]), actions[1..], id) ==
              if id in Selected(c.jobs, actions[0].work, Held(c)) && Commits(actions[0].tx, actions[1..])
              then Rewritten(actions[0].work, PromisedRow(c, actions[1..], id))
              else PromisedRow(c, actions[1..], id)
    {
      LockedRowPromise(c, actions, id);
    }
  }

  lemma LockedRowsFit(c: State, actions: seq<Action>)
    requires Inv(c) && Runs(c, actions) && actions != [] && actions[0].Lock?
    requires Commits(actions[0].tx, actions[1..])
    ensures RowsFit(Promised(c, actions[1..]), Tx(actions[0].work, Selected(c.jobs, actions[0].work, Held(c)), None))
  {
    var a, rest := actions[0], actions[1..];
    ActionKeepsInv(c, a);
    CommittingRowsFit(Next(c, a), rest, a.tx);
    LockedTxIsOk(c, a.work);
    forall id | id in Selected(c.jobs, a.work, Held(c))
      ensures id in c.jobs && RowCheck(Rewritten(a.work, PromisedRow(c, rest, id)))
    {
      LockedRowPromise(c, actions, id);
    }
  }

  lemma RunOne(w: R.World, e: R.Event)
    ensures R.Run(w, [e]) == R.Step(w, e)
  {
    R.RunAppended(w, [], e);
    assert [] + [e] == [e];
  }

  lemma LockStep(c: State, actions: seq<Action>)
    requires Inv(c) && Runs(c, actions) && actions != [] && actions[0].Lock?
    ensures PromisedWorld(Next(c, actions[0]), actions[1..]) ==
            R.Run(PromisedWorld(c, actions[1..]), AtomicOf(c, actions))
  {
    var a, rest := actions[0], actions[1..];
    LockPromises(c, actions);
    if Commits(a.tx, rest) {
      LockedRowsFit(c, actions);
      SelectedAlike(c, rest, a.work);
      AskedRewrites(c.store, Promised(c, rest), a.work, Skipped(c, rest, a.work));
      RunOne(PromisedWorld(c, rest), AtomicOf(c, actions)[0]);
    }
  }

  /** Until a transaction ends, its end is the one in the rest of the run. */
  lemma EndComesLater(c: State, actions: seq<Action>)
    requires actions != [] && !actions[0].Commit? && !actions[0].Rollback?
    ensures Promised(c, actions) == Promised(c, actions[1..])
  {
    forall id | id in c.jobs
      ensures PromisedRow(c, actions, id) == PromisedRow(c, actions[1..], id)
    {
    }
  }

  lemma WriteStep(c: State, actions: seq<Action>)
    requires Inv(c) && Runs(c, actions) && actions != [] && actions[0].Write?
    ensures Promised(Next(c, actions[0]), actions[1..]) == Promised(c, actions[1..])
  {
    var rest, d := actions[1..], Next(c, actions[0]);
    ActionKeepsDisjoint(c, actions[0]);
    forall id | id in c.jobs
      ensures PromisedRow(d, rest, id) == PromisedRow(c, rest, id)
    {
      if id in Held(c) {
        SameHolder(c, rest, d, rest, Holder(c, id), id);
      } else {
        assert id !in Held(d);
      }
    }
  }

  /** The rows of a transaction that ends: a commit makes its promise true, a rollback had none. */
  lemma EndedRowPromise(c: State, actions: seq<Action>, id: nat)
    requires Inv(c) && Runs(c, actions) && actions != [] && (actions[0].Commit? || actions[0].Rollback?) && id in c.jobs
    ensures id in Next(c, actions[0]).jobs
    ensures PromisedRow(Next(c, actions[0]), actions[1..], id) == PromisedRow(c, actions, id)
  {
    var a, rest, d := actions[0], actions[1..], Next(c, actions[0]);
    ActionKeepsDisjoint(c, a);
    if id in c.txs[a.tx].rows {
      HolderIs(c, a.tx, id);
      assert TxOk(c.jobs, c.txs[a.tx]);
      assert id !in Held(d) by {
        if id in Held(d) {
          HolderIs(c, Holder(d, id), id);
        }
      }
    } else if id in Held(c) {
      HeldRowStays(c, a, Holder(c, id), id);
      SameHolder(c, actions, d, rest, Holder(c, id), id);
    } else {
      assert id !in Held(d);
      NotHeldStays(c, a, id);
    }
  }

  lemma NotHeldStays(c: State, a: Action, id: nat)
    requires StillEligible(c) && Enabled(c, a) && (a.Commit? || a.Rollback?) && id in c.jobs && id !in c.txs[a.tx].rows
    ensures id in Next(c, a).jobs && Next(c, a).jobs[id] == c.jobs[id]
  {
    assert TxOk(c.jobs, c.txs[a.tx]);
  }

  lemma EndKeepsRows(c: State, a: Action)
    requires Enabled(c, a) && (a.Commit? || a.Rollback?)
    ensures Next(c, a).jobs.Keys == c.jobs.Keys && Next(c, a).store == c.store
  {
  }

  lemma EndStep(c: State, actions: seq<Action>)
    requires Inv(c) && Runs(c, actions) && actions != [] && (actions[0].Commit? || actions[0].Rollback?)
    ensures PromisedWorld(Next(c, actions[0]), actions[1..]) == PromisedWorld(c, actions)
  {
    EndKeepsRows(c, actions[0]);
    forall id | id in c.jobs
      ensures PromisedRow(Next(c, actions[0]), actions[1..], id) == PromisedRow(c, actions, id)
    {
      EndedRowPromise(c, actions, id);
    }
    SamePromises(Next(c, actions[0]), actions[1..], c, actions);
  }

  lemma SamePromises(c: State, actions: seq<Action>, d: State, rest: seq<Action>)
    requires c.jobs.Keys == d.jobs.Keys
    requires forall id :: id in d.jobs ==> id in c.jobs && PromisedRow(c, actions, id) == PromisedRow(d, rest, id)
    ensures Promised(c, actions) == Promised(d, rest)
  {
  }

  // ---------------------------------------------------------------- other calls

  lemma SameEffect(c: State, actions: seq<Action>, e: JobEvent, id: nat)
    requires DisjointRows(c) && StillEligible(c) && MayRun(c, R.OnJobs(e)) && id in c.jobs
    ensures id in Held(c) ==>
              Effect(Promised(c, actions), e, id) == Unaffected && Effect(c.jobs, e, id) == Unaffected
    ensures id !in Held(c) ==> Effect(Promised(c, actions), e, id) == Effect(c.jobs, e, id)
  {
  }

  lemma SameFixed(c: State, actions: seq<Action>, id: nat)
    requires id in c.jobs
    ensures PromisedRow(c, actions, id).fixed == c.jobs[id].fixed
  {
  }

  lemma SameCreation(c: State, actions: seq<Action>, seed: Seed)
    ensures var r := Create(c.store.uploads, c.jobs, seed).0;
            var p := Create(c.store.uploads, Promised(c, actions), seed).0;
            p.Keys == r.Keys && forall id :: id in r && id !in c.jobs ==> p[id] == r[id]
  {
    var p := Promised(c, actions);
    forall id | id in c.jobs
      ensures p[id].fixed == c.jobs[id].fixed
    {
      SameFixed(c, actions, id);
    }
    assert forall upload, id :: UploadHasJob(p, upload, id) <==> UploadHasJob(c.jobs, upload, id);
    if ValidSeed(seed) {
      assert HasJob(p, seed.uploadId.id) <==> HasJob(c.jobs, seed.uploadId.id);
    }
  }

  /** Both tables gain the same new row, if any. */
  lemma OtherOnNewRow(c: State, actions: seq<Action>, e: JobEvent, id: nat)
    requires id !in c.jobs
    ensures var r := JobTable.Step(c.store.uploads, c.jobs, e);
            var q := JobTable.Step(c.store.uploads, Promised(c, actions), e);
            (id in r <==> id in q) && (id in r ==> r[id] == q[id])
  {
    if e.Created? {
      SameCreation(c, actions, e.seed);
    } else {
      if id in JobTable.Step(c.store.uploads, c.jobs, e) {
        NewRowsAreCreated(c.store.uploads, c.jobs, e, id);
      }
      if id in JobTable.Step(c.store.uploads, Promised(c, actions), e) {
        NewRowsAreCreated(c.store.uploads, Promised(c, actions), e, id);
      }
    }
  }

  /** A call commutes with the promises on every row there is. */
  lemma OtherOnRow(c: State, actions: seq<Action>, e: JobEvent, id: nat)
    requires DisjointRows(c) && StillEligible(c) && MayRun(c, R.OnJobs(e)) && id in c.jobs
    ensures var d, q := Next(c, Other(R.OnJobs(e))), JobTable.Step(c.store.uploads, Promised(c, actions), e);
            id in q && id in d.jobs && PromisedRow(d, actions, id) == q[id]
  {
    var d := Next(c, Other(R.OnJobs(e)));
    StepActsOnRow(c.store.uploads, Promised(c, actions), e, id);
    StepActsOnRow(c.store.uploads, c.jobs, e, id);
    SameEffect(c, actions, e, id);
    ActionKeepsDisjoint(c, Other(R.OnJobs(e)));
    assert d.txs == c.txs && Held(d) == Held(c);
    if id in Held(c) {
      SameHolder(c, actions, d, actions, Holder(c, id), id);
    }
  }

  lemma HeldRowsAreThere(c: State, id: nat)
    requires StillEligible(c) && id in Held(c)
    ensures id in c.jobs
  {
    assert TxOk(c.jobs, c.txs[Holder(c, id)]);
  }

  lemma JobCallStep(c: State, actions: seq<Action>, e: JobEvent)
    requires Inv(c) && MayRun(c, R.OnJobs(e))
    ensures PromisedWorld(Next(c, Other(R.OnJobs(e))), actions) == R.Step(PromisedWorld(c, actions), R.OnJobs(e))
  {
    var d := Next(c, Other(R.OnJobs(e)));
    var q := JobTable.Step(c.store.uploads, Promised(c, actions), e);
    forall id
      ensures id in d.jobs <==> id in q
      ensures id in d.jobs ==> PromisedRow(d, actions, id) == q[id]
    {
      if id in c.jobs {
        OtherOnRow(c, actions, e, id);
      } else {
        OtherOnNewRow(c, actions, e, id);
        if id in Held(d) {
          HeldRowsAreThere(c, id);
        }
      }
    }
  }

  lemma OtherStep(c: State, actions: seq<Action>)
    requires Inv(c) && Runs(c, actions) && actions != [] && actions[0].Other?
    ensures PromisedWorld(Next(c, actions[0]), actions[1..]) ==
            R.Run(PromisedWorld(c, actions[1..]), AtomicOf(c, actions))
  {
    var e := actions[0].e;
    RunOne(PromisedWorld(c, actions[1..]), e);
    if e.OnJobs? {
      JobCallStep(c, actions[1..], e.job);
    } else {
      assert Held(Next(c, actions[0])) == Held(c);
      assert forall id :: id in c.jobs ==>
        PromisedRow(Next(c, actions[0]), actions[1..], id) == PromisedRow(c, actions[1..], id);
    }
  }

  // ---------------------------------------------------------------- refinement

  lemma ActionStep(c: State, actions: seq<Action>)
    requires Inv(c) && Runs(c, actions) && actions != []
    ensures PromisedWorld(Next(c, actions[0]), actions[1..]) == R.Run(PromisedWorld(c, actions), AtomicOf(c, actions))
  {
    match actions[0]
    case Lock(_, _) =>
      EndComesLater(c, actions);
      LockStep(c, actions);
    case Write(_) =>
      EndComesLater(c, actions);
      WriteStep(c, actions);
    case Other(_) =>
      EndComesLater(c, actions);
      OtherStep(c, actions);
    case _ => EndStep(c, actions);
  }

  /** Any number of claims and recovery passes in flight, interleaved with every other call, some of
      them rolled back, some dead at the end: the committed tables are those of a run of whole
      statements, where each one that commits happens at the moment of its lock and the others do
      not happen at all. */
  lemma {:induction false} SplitRunsAreAtomicRuns(c: State, actions: seq<Action>)
    requires Inv(c) && Runs(c, actions)
    ensures World(Final(c, actions)) == R.Run(PromisedWorld(c, actions), AtomicRun(c, actions))
    decreases |actions|
  {
    if actions == [] {
      assert Promised(c, actions) == c.jobs;
    } else {
      ActionStep(c, actions);
      ActionKeepsInv(c, actions[0]);
      SplitRunsAreAtomicRuns(Next(c, actions[0]), actions[1..]);
      R.RunsCompose(PromisedWorld(c, actions), AtomicOf(c, actions), AtomicRun(Next(c, actions[0]), actions[1..]));
    }
  }

  /** Whatever holds of the runs of whole statements holds here: from empty tables, the committed
      tables of a split run are reached by whole calls and satisfy the joint invariant. */
  lemma SplitRunsAreReachable(actions: seq<Action>)
    requires Runs(State(UT.Tables(map[], map[]), map[], map[], []), actions)
    ensures var c := State(UT.Tables(map[], map[]), map[], map[], []);
            World(Final(c, actions)) == R.Run(R.EMPTY, AtomicRun(c, actions)) && R.JointInv(World(Final(c, actions)))
  {
    var c := State(UT.Tables(map[], map[]), map[], map[], []);
    SplitRunsAreAtomicRuns(c, actions);
    assert PromisedWorld(c, actions) == R.EMPTY;
    R.Reachable(AtomicRun(c, actions));
  }

  /** Skipping means what it says: an atomic claim passes over a row only while it is held by a
      transaction that will not commit or by a recovery pass, so it skips nothing where all
      transactions in flight are claims that commit. */
  lemma SkippedRowsAreHeldInVain(c: State, actions: seq<Action>, w: Work, id: nat)
    requires DisjointRows(c) && w.Claiming?
    ensures id in Skipped(c, actions, w) <==>
            exists tx :: tx in c.txs && id in c.txs[tx].rows && (!Commits(tx, actions) || c.txs[tx].work.Recovering?)
  {
    if id in Held(c) {
      HolderIs(c, Holder(c, id), id);
    }
  }

  // ---------------------------------------------------------------- concurrent passes

  /** The answer of a recovery pass: its rows counted by their new status. */
  function Counts(t: Tx, jobs: Table): Recovery { Counted(NewRows(jobs, t), t.rows) }

  function Changed(r: Recovery): int { r.requeued + r.cancelled + r.failed }

  lemma {:induction false} SameCounts(a: Table, b: Table, ids: seq<nat>)
    requires forall id :: id in ids ==> id in a && id in b && a[id] == b[id]
    ensures Counted(a, ids) == Counted(b, ids)
    decreases |ids|
  {
    if ids != [] {
      SameCounts(a, b, ids[..|ids| - 1]);
      assert ids[|ids| - 1] in ids;
    }
  }

  // ---------------------------------------------------------------- answers

  /** The rows a transaction has written when the run commits it. */
  ghost function PendingAtCommit(c: State, actions: seq<Action>, tx: nat): Option<Table>
    requires Runs(c, actions) && tx in c.txs && Commits(tx, actions)
    decreases |actions|
  {
    if actions[0] == Commit(tx) then c.txs[tx].pending else PendingAtCommit(Next(c, actions[0]), actions[1..], tx)
  }

  lemma SameTxLater(c: State, a: Action, tx: nat)
    requires Inv(c) && Enabled(c, a) && tx in c.txs && a != Commit(tx) && a != Rollback(tx)
    ensures tx in Next(c, a).txs && Next(c, a).txs[tx].(pending := None) == c.txs[tx].(pending := None)
    ensures NewRows(Next(c, a).jobs, Next(c, a).txs[tx]) == NewRows(c.jobs, c.txs[tx])
  {
    assert TxOk(c.jobs, c.txs[tx]);
    OthersStayOk(c, a, tx);
    forall id | id in c.txs[tx].rows
      ensures id in Next(c, a).jobs && Next(c, a).jobs[id] == c.jobs[id]
    {
      HeldRowStays(c, a, tx, id);
    }
  }

  /** A transaction commits the rows it locked, rewritten as they were when it locked them. */
  lemma {:induction false} CommitsWhatItLocked(c: State, actions: seq<Action>, tx: nat)
    requires Inv(c) && Runs(c, actions) && tx in c.txs && Commits(tx, actions)
    ensures PendingAtCommit(c, actions, tx) == Some(NewRows(c.jobs, c.txs[tx]))
    decreases |actions|
  {
    if actions[0] == Commit(tx) {
      assert TxOk(c.jobs, c.txs[tx]);
    } else {
      SameTxLater(c, actions[0], tx);
      ActionKeepsInv(c, actions[0]);
      CommitsWhatItLocked(Next(c, actions[0]), actions[1..], tx);
    }
  }

  lemma LockedRows(c: State, actions: seq<Action>)
    requires Inv(c) && Runs(c, actions) && actions != [] && actions[0].Lock? && Commits(actions[0].tx, actions[1..])
    ensures var t := Tx(actions[0].work, Selected(c.jobs, actions[0].work, Held(c)), None);
            PendingAtCommit(Next(c, actions[0]), actions[1..], actions[0].tx) == Some(NewRows(c.jobs, t)) &&
            forall id :: id in t.rows ==> id in c.jobs && Promised(c, actions[1..])[id] == c.jobs[id]
  {
    ActionKeepsInv(c, actions[0]);
    CommitsWhatItLocked(Next(c, actions[0]), actions[1..], actions[0].tx);
    LockedTxIsOk(c, actions[0].work);
  }

  lemma ClaimAnswersSelected(jobs: Table, w: Work, locked: set<nat>)
    requires w.Claiming? && ValidWork(w) && Selected(jobs, w, locked) != []
    requires RowsFit(jobs, Tx(w, Selected(jobs, w, locked), None))
    ensures var id := Selected(jobs, w, locked)[0];
            id in jobs && Claim(jobs, w.worker, w.now, w.deadline, locked).1 == Scan(Rewritten(w, jobs[id]))
  {
    var id := Selected(jobs, w, locked)[0];
    assert id in Selected(jobs, w, locked) && id in ClaimKeys(jobs, w.now, locked);
  }

  /** The whole claim that a committing split one amounts to answers the row that is committed. */
  lemma ClaimAnswers(c: State, actions: seq<Action>)
    requires Inv(c) && Runs(c, actions) && actions != [] && actions[0].Lock? && actions[0].work.Claiming?
    requires Commits(actions[0].tx, actions[1..])
    ensures var w, rest := actions[0].work, actions[1..];
            var id := Next(c, actions[0]).txs[actions[0].tx].rows[0];
            var written := PendingAtCommit(Next(c, actions[0]), rest, actions[0].tx);
            written.Some? && id in written.value &&
            Claim(Promised(c, rest), w.worker, w.now, w.deadline, Skipped(c, rest, w)).1 == Scan(written.value[id])
  {
    var w, rest := actions[0].work, actions[1..];
    LockedRows(c, actions);
    LockedRowsFit(c, actions);
    SelectedAlike(c, rest, w);
    ClaimAnswersSelected(Promised(c, rest), w, Skipped(c, rest, w));
    assert Selected(c.jobs, w, Held(c))[0] in Selected(c.jobs, w, Held(c));
  }

  lemma RecoveryAnswersSelected(jobs: Table, w: Work, locked: set<nat>)
    requires w.Recovering? && ValidWork(w)
    requires RowsFit(jobs, Tx(w, Selected(jobs, w, locked), None))
    ensures var t := Tx(w, Selected(jobs, w, locked), None);
            Recover(jobs, w.now, w.retryAt, w.limit, locked).1 == Ok(Counted(NewRows(jobs, t), t.rows))
  {
    var t := Tx(w, Selected(jobs, w, locked), None);
    var after := RecoverAll(jobs, Members(t.rows), w.now, w.retryAt);
    assert forall id :: id in Members(t.rows) <==> id in t.rows;
    SameCounts(after, NewRows(jobs, t), t.rows);
  }

  lemma NewRowsAlike(jobs: Table, p: Table, t: Tx)
    requires forall id :: id in t.rows ==> id in jobs && id in p && p[id] == jobs[id]
    ensures NewRows(p, t) == NewRows(jobs, t)
  {
  }

  lemma RecoveryAnswersAlike(jobs: Table, p: Table, w: Work, held: set<nat>)
    requires w.Recovering? && ValidWork(w) && Selected(p, w, held) == Selected(jobs, w, held)
    requires var t := Tx(w, Selected(jobs, w, held), None); RowsFit(p, t) && NewRows(p, t) == NewRows(jobs, t)
    ensures var t := Tx(w, Selected(jobs, w, held), None); Answer(p, w, held) == Ok(Counted(NewRows(jobs, t), t.rows))
  {
    RecoveryAnswersSelected(p, w, held);
  }

  /** What a recovery pass over a table answers. */
  ghost function Answer(jobs: Table, w: Work, locked: set<nat>): Result<Recovery, JobError>
    requires w.Recovering?
  {
    Recover(jobs, w.now, w.retryAt, w.limit, locked).1
  }

  /** The whole recovery pass that a committing split one amounts to answers its counts. */
  lemma PassAnswers(c: State, actions: seq<Action>)
    requires Inv(c) && Runs(c, actions) && actions != [] && actions[0].Lock? && actions[0].work.Recovering?
    requires Commits(actions[0].tx, actions[1..])
    ensures var w, rest := actions[0].work, actions[1..];
            var rows := Next(c, actions[0]).txs[actions[0].tx].rows;
            var written := PendingAtCommit(Next(c, actions[0]), rest, actions[0].tx);
            written.Some? && Answer(Promised(c, rest), w, Held(c)) == Ok(Counted(written.value, rows))
  {
    var w, rest := actions[0].work, actions[1..];
    LockedRows(c, actions);
    LockedRowsFit(c, actions);
    SelectedAlike(c, rest, w);
    NewRowsAlike(c.jobs, Promised(c, rest), Tx(w, Selected(c.jobs, w, Held(c)), None));
    RecoveryAnswersAlike(c.jobs, Promised(c, rest), w, Held(c));
  }

  /** Both tables give a call the same answer. */
  ghost predicate SameAnswer(store: UT.Tables, a: Table, b: Table, e: JobEvent) {
    match e
    case Created(seed) => Create(store.uploads, a, seed).1 == Create(store.uploads, b, seed).1
    case ClaimAsked(worker, now, deadline, locked) =>
      Claim(a, worker, now, deadline, locked).1 == Claim(b, worker, now, deadline, locked).1
    case BeatSent(id, worker, now, deadline) =>
      Heartbeat(a, id, worker, now, deadline).1 == Heartbeat(b, id, worker, now, deadline).1
    case MoveSent(t) => Move(a, t).1 == Move(b, t).1
    case RecoverAsked(now, retryAt, limit, locked) =>
      Recover(a, now, retryAt, limit, locked).1 == Recover(b, now, retryAt, limit, locked).1
    case CancelSent(id, owner, now) => Cancel(a, id, owner, now).1 == Cancel(b, id, owner, now).1
    case DeleteSent(id, owner, now) => Delete(a, id, owner, now).1 == Delete(b, id, owner, now).1
  }

  lemma UnheldRowIsPromised(c: State, actions: seq<Action>, id: nat)
    requires id !in Held(c)
    ensures id in Promised(c, actions) <==> id in c.jobs
    ensures id in c.jobs ==> Promised(c, actions)[id] == c.jobs[id]
  {
  }

  lemma CreationAnswersAlike(c: State, actions: seq<Action>, seed: Seed)
    requires OneJobPerUpload(c.jobs) && MayRun(c, R.OnJobs(Created(seed)))
    ensures Create(c.store.uploads, c.jobs, seed).1 == Create(c.store.uploads, Promised(c, actions), seed).1
  {
    var p := Promised(c, actions);
    forall id | id in c.jobs
      ensures p[id].fixed == c.jobs[id].fixed
    {
      SameFixed(c, actions, id);
    }
    assert forall upload, id :: UploadHasJob(p, upload, id) <==> UploadHasJob(c.jobs, upload, id);
    if ValidSeed(seed) && HasJob(c.jobs, seed.uploadId.id) {
      var id := JobOf(c.jobs, seed.uploadId.id);
      assert HasJob(p, seed.uploadId.id) && JobOf(p, seed.uploadId.id) == id;
      UnheldRowIsPromised(c, actions, id);
    } else if ValidSeed(seed) {
      assert !HasJob(p, seed.uploadId.id);
    }
  }

  /** Every call that is not split gets the answer that the promised table gives it. */
  lemma OtherAnswersAlike(c: State, actions: seq<Action>, e: JobEvent)
    requires OneJobPerUpload(c.jobs) && MayRun(c, R.OnJobs(e))
    ensures SameAnswer(c.store, c.jobs, Promised(c, actions), e)
  {
    match e
    case Created(seed) => CreationAnswersAlike(c, actions, seed);
    case BeatSent(id, _, _, _) => if id.Uuid? { UnheldRowIsPromised(c, actions, id.id); }
    case MoveSent(t) => if t.jobId.Uuid? { UnheldRowIsPromised(c, actions, t.jobId.id); }
    case CancelSent(id, _, _) => if id.Uuid? { UnheldRowIsPromised(c, actions, id.id); }
    case DeleteSent(id, _, _) => if id.Uuid? { UnheldRowIsPromised(c, actions, id.id); }
  }

  lemma PassCountsItsRows(jobs: Table, t: Tx)
    requires TxOk(jobs, t) && t.work.Recovering?
    ensures Changed(Counts(t, jobs)) == |t.rows|
  {
    forall i | 0 <= i < |t.rows|
      ensures t.rows[i] in NewRows(jobs, t) && D.Recoverable(NewRows(jobs, t)[t.rows[i]].status)
    {
      assert t.rows[i] in t.rows;
    }
    D.CountsAddUp(NewRows(jobs, t), t.rows);
  }

  lemma {:induction false} DistinctCount(ids: seq<nat>)
    requires Distinct(ids)
    ensures |Members(ids)| == |ids|
    decreases |ids|
  {
    if ids != [] {
      var front := ids[..|ids| - 1];
      DistinctCount(front);
      assert Members(ids) == Members(front) + {ids[|ids| - 1]};
    }
  }

  /** Two recovery passes in flight share no row, and their counts add up to the rows that the two
      change together. */
  lemma ConcurrentPassesAddUp(c: State, s: nat, t: nat)
    requires Inv(c) && s in c.txs && t in c.txs && s != t && c.txs[s].work.Recovering? && c.txs[t].work.Recovering?
    ensures Members(c.txs[s].rows) !! Members(c.txs[t].rows)
    ensures Changed(Counts(c.txs[s], c.jobs)) + Changed(Counts(c.txs[t], c.jobs)) ==
            |Members(c.txs[s].rows) + Members(c.txs[t].rows)|
  {
    assert TxOk(c.jobs, c.txs[s]) && TxOk(c.jobs, c.txs[t]);
    PassCountsItsRows(c.jobs, c.txs[s]);
    PassCountsItsRows(c.jobs, c.txs[t]);
    DistinctCount(c.txs[s].rows);
    DistinctCount(c.txs[t].rows);
  }
}
