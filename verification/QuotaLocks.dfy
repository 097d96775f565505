/** Concurrent quota transactions, interleaved at every lock, read, check, write and commit. A
    consumption locks its session row, then its address row; a session creation locks only the
    address row. Each write keeps its new row pending; both become visible at commit. */
module QuotaLocks {
  import opened Common
  import opened Quota

  datatype Ask =
    | Spend(request: Request)
    | NewSession(ip: nat, window: Window)

  datatype Phase = NeedSession | NeedIp | NeedSum | Deciding | UsageWritten | Written

  /** A transaction with what it has read, and the rows it has written but not committed. */
  datatype Tx = Tx(ask: Ask, phase: Phase, ip: IpRow, session: Counters,
                   newUsage: Option<Counters>, newIp: Option<IpRow>)

  /** One accepted consumption. */
  datatype Entry = Entry(session: nat, ip: nat, window: Time, at: Time, delta: Counters)

  datatype State = State(db: Db, txs: map<nat, Tx>, log: seq<Entry>)

  function AddressOf(ask: Ask): IpCell {
    match ask
    case Spend(r) => IpCell(r.ip, r.window.start)
    case NewSession(ip, w) => IpCell(ip, w.start)
  }

  predicate HoldsSession(t: Tx, session: nat) {
    t.ask.Spend? && t.ask.request.session == Uuid(session) && t.phase != NeedSession
  }

  predicate HoldsIp(t: Tx, cell: IpCell) {
    AddressOf(t.ask) == cell &&
    (t.phase == NeedSum || t.phase == Deciding || t.phase == UsageWritten || t.phase == Written)
  }

  predicate SessionFree(c: State, tx: nat, session: nat) {
    forall other :: other in c.txs && other != tx ==> !HoldsSession(c.txs[other], session)
  }

  predicate IpFree(c: State, tx: nat, cell: IpCell) {
    forall other :: other in c.txs && other != tx ==> !HoldsIp(c.txs[other], cell)
  }

  predicate ValidAsk(ask: Ask, l: Limits) {
    match ask
    case Spend(r) => ValidRequest(r) && r.limits == l
    case NewSession(_, w) => ValidCreation(w, l.sessionsPerIp)
  }

  /** The decision a transaction takes on what it read. */
  predicate Passes(t: Tx, l: Limits) {
    match t.ask
    case Spend(r) => t.session.Plus(r.delta).AtMost(l.session) && t.ip.usage.Plus(r.delta).AtMost(l.ip)
    case NewSession(_, _) => t.ip.sessions + 1 <= l.sessionsPerIp
  }

  datatype Action =
    | Begin(tx: nat, ask: Ask)
    | LockSession(tx: nat)
    | FindInactive(tx: nat)
    | LockIp(tx: nat)
    | ReadSum(tx: nat)
    | Reject(tx: nat)
    | WriteUsage(tx: nat)
    | WriteIp(tx: nat)
    | Commit(tx: nat)
    | Abort(tx: nat)

  predicate Enabled(c: State, l: Limits, a: Action) {
    match a
    case Begin(tx, ask) => tx !in c.txs && ValidAsk(ask, l)
    case LockSession(tx) =>
      tx in c.txs && c.txs[tx].phase == NeedSession && c.txs[tx].ask.Spend? &&
      c.txs[tx].ask.request.session.Uuid? && SessionFree(c, tx, c.txs[tx].ask.request.session.id)
    case FindInactive(tx) => tx in c.txs && c.txs[tx].phase == NeedSession
    case LockIp(tx) => tx in c.txs && c.txs[tx].phase == NeedIp && IpFree(c, tx, AddressOf(c.txs[tx].ask))
    case ReadSum(tx) =>
      tx in c.txs && c.txs[tx].phase == NeedSum && c.txs[tx].ask.Spend? && c.txs[tx].ask.request.session.Uuid?
    case Reject(tx) => tx in c.txs && c.txs[tx].phase == Deciding && !Passes(c.txs[tx], l)
    case WriteUsage(tx) =>
      tx in c.txs && c.txs[tx].phase == Deciding && Passes(c.txs[tx], l) && c.txs[tx].ask.Spend? &&
      c.txs[tx].ask.request.session.Uuid? && FitsSessionRow(UsageAfter(c.db, c.txs[tx].ask.request))
    case WriteIp(tx) =>
      tx in c.txs && c.txs[tx].phase == (if c.txs[tx].ask.Spend? then UsageWritten else Deciding) &&
      Passes(c.txs[tx], l) && IpRowFits(c.txs[tx].ask, IpAfter(c.db, c.txs[tx].ask))
    case Commit(tx) =>
      tx in c.txs && c.txs[tx].phase == Written && c.txs[tx].newIp.Some? &&
      (c.txs[tx].ask.Spend? ==> c.txs[tx].ask.request.session.Uuid? && c.txs[tx].newUsage.Some?)
    case Abort(tx) => tx in c.txs
  }

  ghost function Next(c: State, l: Limits, a: Action): State
    requires Enabled(c, l, a)
  {
    match a
    case Begin(tx, ask) =>
      c.(txs := c.txs[tx := Tx(ask, if ask.Spend? then NeedSession else NeedIp, IpRow(0, ZERO), ZERO, None, None)])
    case LockSession(tx) => c.(txs := c.txs[tx := c.txs[tx].(phase := NeedIp)])
    case LockIp(tx) =>
      var t := c.txs[tx];
      var next := if t.ask.Spend? then NeedSum else Deciding;
      c.(txs := c.txs[tx := t.(phase := next, ip := IpAt(c.db.ips, AddressOf(t.ask)))])
    case ReadSum(tx) =>
      var t := c.txs[tx];
      c.(txs := c.txs[tx := t.(phase := Deciding, session := Sum(c.db.usage, SessionScope(t.ask.request)))])
    case WriteUsage(tx) =>
      var t := c.txs[tx];
      c.(txs := c.txs[tx := t.(phase := UsageWritten, newUsage := Some(UsageAfter(c.db, t.ask.request)))])
    case WriteIp(tx) =>
      var t := c.txs[tx];
      c.(txs := c.txs[tx := t.(phase := Written, newIp := Some(IpAfter(c.db, t.ask)))])
    case Commit(tx) =>
      var t := c.txs[tx];
      var ips := c.db.ips[AddressOf(t.ask) := t.newIp.value];
      (match t.ask
       case Spend(r) => State(Db(c.db.usage[CellOf(r) := t.newUsage.value], ips), c.txs - {tx}, c.log + [EntryOf(r)])
       case NewSession(_, _) => State(c.db.(ips := ips), c.txs - {tx}, c.log))
    case _ => c.(txs := c.txs - {a.tx})
  }

  /** The usage row as the upsert rewrites it. */
  function UsageAfter(db: Db, r: Request): Counters
    requires r.session.Uuid?
  {
    RowAt(db.usage, CellOf(r)).Plus(r.delta)
  }

  /** The columns that the update of an address row writes fit their int8 width. */
  predicate IpRowFits(ask: Ask, row: IpRow) {
    match ask
    case Spend(_) => FitsInt64(row.usage)
    case NewSession(_, _) => 0 <= row.sessions <= MAX_INT64
  }

  /** The address row as either update rewrites it. */
  function IpAfter(db: Db, ask: Ask): IpRow {
    var row := IpAt(db.ips, AddressOf(ask));
    match ask
    case Spend(r) => row.(usage := row.usage.Plus(r.delta))
    case NewSession(_, _) => row.(sessions := row.sessions + 1)
  }

  function SessionScope(r: Request): Scope
    requires r.session.Uuid?
  {
    BySession(r.session.id, r.window.start)
  }

  function CellOf(r: Request): Cell
    requires r.session.Uuid?
  {
    Cell(r.session.id, r.ip, r.window.start)
  }

  function EntryOf(r: Request): Entry
    requires r.session.Uuid?
  {
    Entry(r.session.id, r.ip, r.window.start, r.at, r.delta)
  }

  // ---------------------------------------------------------------- invariant

  ghost predicate LocksExclusive(c: State) {
    (forall s, t, session :: s in c.txs && t in c.txs && s != t ==>
      !(HoldsSession(c.txs[s], session) && HoldsSession(c.txs[t], session))) &&
    (forall s, t, cell :: s in c.txs && t in c.txs && s != t ==>
      !(HoldsIp(c.txs[s], cell) && HoldsIp(c.txs[t], cell)))
  }

  /** The limits were checked on what the transaction read. */
  predicate Checked(t: Tx) { t.phase == UsageWritten || t.phase == Written }

  /** What a transaction has read under its locks is what the tables still hold, and what it has
      written is what the tables should become. */
  ghost predicate Current(c: State, l: Limits, t: Tx) {
    ValidAsk(t.ask, l) &&
    (t.phase == NeedSession || t.phase == NeedSum || t.phase == UsageWritten ==> t.ask.Spend?) &&
    (HoldsIp(t, AddressOf(t.ask)) ==> t.ip == IpAt(c.db.ips, AddressOf(t.ask))) &&
    (t.ask.Spend? && (t.phase == Deciding || Checked(t)) ==>
      t.session == Sum(c.db.usage, SessionScope(t.ask.request))) &&
    (Checked(t) ==> Passes(t, l)) &&
    (t.ask.Spend? && Checked(t) ==> t.newUsage == Some(UsageAfter(c.db, t.ask.request))) &&
    (t.phase == Written ==> t.newIp == Some(IpAfter(c.db, t.ask)))
  }

  ghost predicate AllCurrent(c: State, l: Limits) {
    forall tx :: tx in c.txs ==> Current(c, l, c.txs[tx])
  }

  function CellOfEntry(e: Entry): Cell { Cell(e.session, e.ip, e.window) }

  /** One more entry, counted where it belongs to the scope. */
  function Booked(before: Counters, e: Entry, scope: Scope): Counters {
    if InScope(scope, CellOfEntry(e)) then before.Plus(e.delta) else before
  }

  /** The accepted consumptions of a scope. */
  function Logged(log: seq<Entry>, scope: Scope): Counters {
    if log == [] then ZERO else Booked(Logged(log[..|log| - 1], scope), log[|log| - 1], scope)
  }

  ghost predicate LogIsUsage(c: State) {
    (forall scope: Scope :: Logged(c.log, scope) == Sum(c.db.usage, scope)) &&
    forall i :: 0 <= i < |c.log| ==> NonNegative(c.log[i].delta)
  }

  ghost predicate SystemInv(c: State, l: Limits) {
    Inv(c.db, l) && LocksExclusive(c) && AllCurrent(c, l) && LogIsUsage(c)
  }

  /** A lock is held from before, or was just taken while free. */
  lemma HeldSince(c: State, l: Limits, a: Action, tx: nat)
    requires Enabled(c, l, a) && tx in Next(c, l, a).txs
    ensures forall session :: HoldsSession(Next(c, l, a).txs[tx], session) ==>
              (tx in c.txs && HoldsSession(c.txs[tx], session)) || (a == LockSession(tx) && SessionFree(c, tx, session))
    ensures forall cell :: HoldsIp(Next(c, l, a).txs[tx], cell) ==>
              (tx in c.txs && HoldsIp(c.txs[tx], cell)) || (a == LockIp(tx) && IpFree(c, tx, cell))
  {
  }

  lemma LocksStayExclusive(c: State, l: Limits, a: Action)
    requires LocksExclusive(c) && Enabled(c, l, a)
    ensures LocksExclusive(Next(c, l, a))
  {
    forall tx | tx in Next(c, l, a).txs
      ensures forall session :: HoldsSession(Next(c, l, a).txs[tx], session) ==>
                (tx in c.txs && HoldsSession(c.txs[tx], session)) ||
                (a == LockSession(tx) && SessionFree(c, tx, session))
      ensures forall cell :: HoldsIp(Next(c, l, a).txs[tx], cell) ==>
                (tx in c.txs && HoldsIp(c.txs[tx], cell)) || (a == LockIp(tx) && IpFree(c, tx, cell))
    {
      HeldSince(c, l, a, tx);
    }
  }

  /** A commit installs exactly the rows that the locks protected: the increments of an undivided
      call on the tables as they are at that instant. */
  lemma CommitInstalls(c: State, l: Limits, tx: nat)
    requires AllCurrent(c, l) && Enabled(c, l, Commit(tx))
    ensures var t := c.txs[tx];
            Next(c, l, Commit(tx)).db ==
              match t.ask
              case Spend(r) => Spent(c.db, CellOf(r), r.delta)
              case NewSession(_, _) => c.db.(ips := c.db.ips[AddressOf(t.ask) := IpAfter(c.db, t.ask)])
  {
    assert Current(c, l, c.txs[tx]);
  }

  /** A committed consumption is logged with the session, address, window, instant and delta of its
      request, and nothing else is ever logged. */
  lemma LogRecordsRequests(c: State, l: Limits, a: Action)
    requires Enabled(c, l, a)
    ensures Next(c, l, a).log ==
            if a.Commit? && c.txs[a.tx].ask.Spend? then
              var r := c.txs[a.tx].ask.request;
              c.log + [Entry(r.session.id, r.ip, r.window.start, r.at, r.delta)]
            else c.log
  {
  }

  /** A commit changes only sums and rows that the committing transaction has locked, so what the
      others read and wrote stays current. */
  lemma CommitSparesOthers(c: State, l: Limits, tx: nat, other: nat)
    requires SystemInv(c, l) && Enabled(c, l, Commit(tx)) && other in c.txs && other != tx
    ensures Current(Next(c, l, Commit(tx)), l, c.txs[other])
  {
    var t, u := c.txs[tx], c.txs[other];
    CommitInstalls(c, l, tx);
    assert Current(c, l, t) && Current(c, l, u);
    assert HoldsIp(t, AddressOf(t.ask));
    if HoldsIp(u, AddressOf(u.ask)) {
      assert AddressOf(u.ask) != AddressOf(t.ask);
    }
    if t.ask.Spend? && u.ask.Spend? && (u.phase == Deciding || Checked(u)) {
      var r, q := t.ask.request, u.ask.request;
      assert HoldsSession(t, r.session.id) && HoldsSession(u, q.session.id);
      SumAfterAdding(c.db.usage, CellOf(r), r.delta, SessionScope(q));
    }
  }

  lemma SpendKeepsTables(c: State, l: Limits, tx: nat)
    requires ValidLimits(l) && SystemInv(c, l) && Enabled(c, l, Commit(tx)) && c.txs[tx].ask.Spend?
    ensures Inv(Next(c, l, Commit(tx)).db, l) && LogIsUsage(Next(c, l, Commit(tx)))
  {
    var t := c.txs[tx];
    var r, d := t.ask.request, Next(c, l, Commit(tx));
    CommitInstalls(c, l, tx);
    assert Current(c, l, t) && HoldsIp(t, AddressOf(t.ask));
    SpendingKeepsInv(c.db, l, CellOf(r), r.delta);
    forall scope: Scope
      ensures Logged(d.log, scope) == Sum(d.db.usage, scope)
    {
      assert d.log[..|d.log| - 1] == c.log;
      SumAfterAdding(c.db.usage, CellOf(r), r.delta, scope);
      assert Logged(c.log, scope) == Sum(c.db.usage, scope);
    }
  }

  lemma CreationKeepsTables(c: State, l: Limits, tx: nat)
    requires ValidLimits(l) && SystemInv(c, l) && Enabled(c, l, Commit(tx)) && c.txs[tx].ask.NewSession?
    ensures Inv(Next(c, l, Commit(tx)).db, l) && LogIsUsage(Next(c, l, Commit(tx)))
  {
    var d := Next(c, l, Commit(tx));
    CommitInstalls(c, l, tx);
    assert Current(c, l, c.txs[tx]) && HoldsIp(c.txs[tx], AddressOf(c.txs[tx].ask));
    forall cell: IpCell
      ensures IpAt(d.db.ips, cell).usage == Sum(d.db.usage, ByIp(cell.ip, cell.window))
      ensures 0 <= IpAt(d.db.ips, cell).sessions <= l.sessionsPerIp
    {
      assert IpAt(c.db.ips, cell).usage == Sum(c.db.usage, ByIp(cell.ip, cell.window));
      assert 0 <= IpAt(c.db.ips, cell).sessions <= l.sessionsPerIp;
    }
  }

  /** Whatever the interleaving: locks exclude, what was checked is still current, no aggregate
      passes its limit, and the address counters stay the sums of their rows. */
  lemma ActionKeepsInv(c: State, l: Limits, a: Action)
    requires ValidLimits(l) && SystemInv(c, l) && Enabled(c, l, a)
    ensures SystemInv(Next(c, l, a), l)
  {
    var d := Next(c, l, a);
    LocksStayExclusive(c, l, a);
    if a.Commit? {
      if c.txs[a.tx].ask.Spend? {
        SpendKeepsTables(c, l, a.tx);
      } else {
        CreationKeepsTables(c, l, a.tx);
      }
    }
    forall tx | tx in d.txs
      ensures Current(d, l, d.txs[tx])
    {
      if a.Commit? {
        CommitSparesOthers(c, l, a.tx, tx);
      } else {
        PhaseKeepsCurrent(c, l, a, tx);
      }
    }
  }

  /** Before its commit a transaction changes nothing that others can see. */
  lemma PhaseKeepsCurrent(c: State, l: Limits, a: Action, tx: nat)
    requires AllCurrent(c, l) && Enabled(c, l, a) && !a.Commit? && tx in Next(c, l, a).txs
    ensures Next(c, l, a).db == c.db && Current(Next(c, l, a), l, Next(c, l, a).txs[tx])
  {
    if tx in c.txs {
      assert Current(c, l, c.txs[tx]);
    }
  }

  lemma InitiallyInv(l: Limits)
    requires ValidLimits(l)
    ensures SystemInv(State(Db(map[], map[]), map[], []), l)
  {
    EmptyInv(l);
    forall scope: Scope
      ensures Logged([], scope) == Sum(map[], scope)
    {
      assert Cells(map[], scope) == {};
    }
  }

  ghost predicate Runs(c: State, l: Limits, actions: seq<Action>)
    decreases |actions|
  {
    actions == [] || (Enabled(c, l, actions[0]) && Runs(Next(c, l, actions[0]), l, actions[1..]))
  }

  ghost function Final(c: State, l: Limits, actions: seq<Action>): State
    requires Runs(c, l, actions)
    decreases |actions|
  {
    if actions == [] then c else Final(Next(c, l, actions[0]), l, actions[1..])
  }

  lemma {:induction false} RunKeepsInv(c: State, l: Limits, actions: seq<Action>)
    requires ValidLimits(l) && SystemInv(c, l) && Runs(c, l, actions)
    ensures SystemInv(Final(c, l, actions), l)
    decreases |actions|
  {
    if actions != [] {
      ActionKeepsInv(c, l, actions[0]);
      RunKeepsInv(Next(c, l, actions[0]), l, actions[1..]);
    }
  }

  /** In every state of every run from empty tables no session and no address is over its limit in
      any window, and every cell fits its column. */
  lemma LimitsHoldInEveryRun(l: Limits, actions: seq<Action>, session: nat, ip: nat, window: Time)
    requires ValidLimits(l) && Runs(State(Db(map[], map[]), map[], []), l, actions)
    ensures var db := Final(State(Db(map[], map[]), map[], []), l, actions).db;
            Sum(db.usage, BySession(session, window)).AtMost(l.session) &&
            IpAt(db.ips, IpCell(ip, window)).usage.AtMost(l.ip) &&
            IpAt(db.ips, IpCell(ip, window)).sessions <= l.sessionsPerIp &&
            IpAt(db.ips, IpCell(ip, window)).usage == Sum(db.usage, ByIp(ip, window)) &&
            FitsSessionRow(RowAt(db.usage, Cell(session, ip, window))) &&
            FitsInt64(IpAt(db.ips, IpCell(ip, window)).usage)
  {
    InitiallyInv(l);
    RunKeepsInv(State(Db(map[], map[]), map[], []), l, actions);
    var db := Final(State(Db(map[], map[]), map[], []), l, actions).db;
    CellsFit(db, l, Cell(session, ip, window));
    assert Sum(db.usage, BySession(session, window)).AtMost(LimitOf(l, BySession(session, window)));
    assert Sum(db.usage, ByIp(ip, window)).AtMost(LimitOf(l, ByIp(ip, window)));
    assert IpAt(db.ips, IpCell(ip, window)).usage == Sum(db.usage, ByIp(ip, window));
    assert IpAt(db.ips, IpCell(ip, window)).sessions <= l.sessionsPerIp;
  }

  // ---------------------------------------------------------------- serial equivalence

  /** A transaction that commits or is rejected does at that instant exactly what the undivided
      call would do. */
  lemma CommitIsSerial(c: State, l: Limits, tx: nat)
    requires ValidLimits(l) && SystemInv(c, l) && Enabled(c, l, Commit(tx)) && c.txs[tx].ask.Spend?
    ensures var r := c.txs[tx].ask.request;
            Consume(c.db, r, true).1 ==
              Ok(Decision(r.window, c.txs[tx].session.Plus(r.delta),
                          c.txs[tx].ip.(usage := c.txs[tx].ip.usage.Plus(r.delta)))) &&
            Next(c, l, Commit(tx)).db == Consume(c.db, r, true).0
  {
    var t := c.txs[tx];
    CommitInstalls(c, l, tx);
    assert Current(c, l, t) && HoldsIp(t, AddressOf(t.ask));
    ConsumeOutcome(c.db, l, t.ask.request);
    assert t.ip.usage == Sum(c.db.usage, ByIp(t.ask.request.ip, t.ask.request.window.start));
  }

  lemma RejectIsSerial(c: State, l: Limits, tx: nat)
    requires ValidLimits(l) && SystemInv(c, l) && Enabled(c, l, Reject(tx)) && c.txs[tx].ask.Spend?
    ensures Consume(c.db, c.txs[tx].ask.request, true).1.Err? &&
            Consume(c.db, c.txs[tx].ask.request, true).1.error.Exceeded? &&
            Next(c, l, Reject(tx)).db == c.db
  {
    var t := c.txs[tx];
    assert Current(c, l, t) && HoldsIp(t, AddressOf(t.ask));
    ConsumeOutcome(c.db, l, t.ask.request);
    assert t.ip.usage == Sum(c.db.usage, ByIp(t.ask.request.ip, t.ask.request.window.start));
  }

  /** A session creation as well, whether it commits or is turned away. */
  lemma CreationIsSerial(c: State, l: Limits, tx: nat)
    requires ValidLimits(l) && SystemInv(c, l) && tx in c.txs && c.txs[tx].ask.NewSession?
    ensures var ask := c.txs[tx].ask;
            var (db, result) := ConsumeCreation(c.db, ask.ip, ask.window, l.sessionsPerIp);
            (Enabled(c, l, Commit(tx)) ==> result.Ok? && Next(c, l, Commit(tx)).db == db) &&
            (Enabled(c, l, Reject(tx)) ==> result.Err? && db == c.db)
  {
    var t := c.txs[tx];
    assert Current(c, l, t);
    CreationKeepsInv(c.db, l, t.ask.ip, t.ask.window);
    assert 0 <= IpAt(c.db.ips, AddressOf(t.ask)).sessions <= l.sessionsPerIp;
    if Enabled(c, l, Commit(tx)) {
      CommitInstalls(c, l, tx);
    }
    if Enabled(c, l, Commit(tx)) || Enabled(c, l, Reject(tx)) {
      assert HoldsIp(t, AddressOf(t.ask));
    }
  }

  /** The call that a transaction stands for, made as a whole. */
  ghost function Undivided(db: Db, ask: Ask, l: Limits): Db {
    match ask
    case Spend(r) => Consume(db, r, true).0
    case NewSession(ip, w) => ConsumeCreation(db, ip, w, l.sessionsPerIp).0
  }

  /** Calls made one after another. */
  ghost function Serial(db: Db, asks: seq<Ask>, l: Limits): Db
    decreases |asks|
  {
    if asks == [] then db else Serial(Undivided(db, asks[0], l), asks[1..], l)
  }

  /** The calls of a run that commit or are turned away, in the order in which they do. */
  ghost function Decided(c: State, l: Limits, actions: seq<Action>): seq<Ask>
    requires Runs(c, l, actions)
    decreases |actions|
  {
    if actions == [] then []
    else
      var rest := Decided(Next(c, l, actions[0]), l, actions[1..]);
      if Decides(actions[0]) then [c.txs[actions[0].tx].ask] + rest else rest
  }

  predicate Decides(a: Action) { a.Commit? || a.Reject? }

  lemma DecisionIsSerial(c: State, l: Limits, a: Action)
    requires ValidLimits(l) && SystemInv(c, l) && Enabled(c, l, a)
    ensures Next(c, l, a).db == if Decides(a) then Undivided(c.db, c.txs[a.tx].ask, l) else c.db
  {
    if Decides(a) {
      if c.txs[a.tx].ask.NewSession? {
        CreationIsSerial(c, l, a.tx);
      } else if a.Commit? {
        CommitIsSerial(c, l, a.tx);
      } else {
        RejectIsSerial(c, l, a.tx);
        RejectionChangesNothing(c.db, c.txs[a.tx].ask.request);
      }
    }
  }

  lemma RejectionChangesNothing(db: Db, r: Request)
    requires Consume(db, r, true).1.Err?
    ensures Consume(db, r, true).0 == db
  {
  }

  /** Interleaved transactions are serializable: the tables of any run are those that the undivided
      calls leave when they are made one after another in the order of their decisions. */
  lemma {:induction false} RunIsSerial(c: State, l: Limits, actions: seq<Action>)
    requires ValidLimits(l) && SystemInv(c, l) && Runs(c, l, actions)
    ensures Final(c, l, actions).db == Serial(c.db, Decided(c, l, actions), l)
    decreases |actions|
  {
    if actions != [] {
      DecisionIsSerial(c, l, actions[0]);
      ActionKeepsInv(c, l, actions[0]);
      RunIsSerial(Next(c, l, actions[0]), l, actions[1..]);
      OneMoreDecision(c, l, actions);
    }
  }

  lemma OneMoreDecision(c: State, l: Limits, actions: seq<Action>)
    requires actions != [] && Runs(c, l, actions)
    requires Next(c, l, actions[0]).db ==
             if Decides(actions[0]) then Undivided(c.db, c.txs[actions[0].tx].ask, l) else c.db
    ensures Serial(c.db, Decided(c, l, actions), l) ==
            Serial(Next(c, l, actions[0]).db, Decided(Next(c, l, actions[0]), l, actions[1..]), l)
  {
    if Decides(actions[0]) {
      assert Decided(c, l, actions)[1..] == Decided(Next(c, l, actions[0]), l, actions[1..]);
    }
  }

  // ---------------------------------------------------------------- no deadlock

  /** With the session lock always taken before the address lock, some unfinished transaction can
      always take its next step without anybody aborting. */
  lemma SomeTransactionCanStep(c: State, l: Limits) returns (a: Action)
    requires SystemInv(c, l) && c.txs != map[]
    ensures Enabled(c, l, a) && !a.Begin? && !a.FindInactive? && !a.Abort?
  {
    if tx :| tx in c.txs && HoldsIp(c.txs[tx], AddressOf(c.txs[tx].ask)) {
      a := StepUnderIpLock(c, l, tx);
    } else if tx :| tx in c.txs && c.txs[tx].phase == NeedIp {
      a := StepToIpLock(c, l, tx);
    } else {
      var tx :| tx in c.txs;
      a := StepToSessionLock(c, l, tx);
    }
  }

  /** Nobody holds an address row: whoever needs one can have it. */
  lemma StepToIpLock(c: State, l: Limits, tx: nat) returns (a: Action)
    requires tx in c.txs && c.txs[tx].phase == NeedIp
    requires forall t :: t in c.txs ==> !HoldsIp(c.txs[t], AddressOf(c.txs[t].ask))
    ensures a == LockIp(tx) && Enabled(c, l, a)
  {
    a := LockIp(tx);
  }

  /** Nobody holds any row: whoever needs a session row can have it. */
  lemma StepToSessionLock(c: State, l: Limits, tx: nat) returns (a: Action)
    requires AllCurrent(c, l) && tx in c.txs
    requires forall t :: t in c.txs ==> !HoldsIp(c.txs[t], AddressOf(c.txs[t].ask)) && c.txs[t].phase != NeedIp
    ensures a == LockSession(tx) && Enabled(c, l, a)
  {
    forall t | t in c.txs
      ensures c.txs[t].phase == NeedSession
    {
      assert !HoldsIp(c.txs[t], AddressOf(c.txs[t].ask));
    }
    assert Current(c, l, c.txs[tx]);
    a := LockSession(tx);
  }

  lemma StepUnderIpLock(c: State, l: Limits, tx: nat) returns (a: Action)
    requires SystemInv(c, l) && tx in c.txs && HoldsIp(c.txs[tx], AddressOf(c.txs[tx].ask))
    ensures Enabled(c, l, a) && !a.Begin? && !a.FindInactive? && !a.Abort?
  {
    var t := c.txs[tx];
    assert Current(c, l, t);
    if t.ask.Spend? && (t.phase == Deciding || t.phase == UsageWritten) && Passes(t, l) {
      PassingSpendFits(c, l, tx);
    }
    match t.phase
    case NeedSum => a := ReadSum(tx);
    case Deciding =>
      if !Passes(t, l) {
        a := Reject(tx);
      } else if t.ask.Spend? {
        a := WriteUsage(tx);
      } else {
        CreationFits(c, l, tx);
        a := WriteIp(tx);
      }
    case UsageWritten => a := WriteIp(tx);
    case Written => a := Commit(tx);
  }

  /** A consumption within its limits never overflows a column. */
  lemma PassingSpendFits(c: State, l: Limits, tx: nat)
    requires SystemInv(c, l) && tx in c.txs && c.txs[tx].ask.Spend? && Passes(c.txs[tx], l)
    requires c.txs[tx].phase == Deciding || c.txs[tx].phase == UsageWritten
    ensures c.txs[tx].ask.request.session.Uuid?
    ensures FitsSessionRow(UsageAfter(c.db, c.txs[tx].ask.request)) &&
            IpRowFits(c.txs[tx].ask, IpAfter(c.db, c.txs[tx].ask))
  {
    var t := c.txs[tx];
    var r := t.ask.request;
    assert Current(c, l, t) && HoldsIp(t, AddressOf(t.ask));
    SpendingKeepsInv(c.db, l, CellOf(r), r.delta);
    CellsFit(Spent(c.db, CellOf(r), r.delta), l, CellOf(r));
  }

  lemma CreationFits(c: State, l: Limits, tx: nat)
    requires SystemInv(c, l) && tx in c.txs && c.txs[tx].ask.NewSession? && c.txs[tx].phase == Deciding
    requires Passes(c.txs[tx], l)
    ensures IpRowFits(c.txs[tx].ask, IpAfter(c.db, c.txs[tx].ask))
  {
    var t := c.txs[tx];
    assert Current(c, l, t) && HoldsIp(t, AddressOf(t.ask));
    assert 0 <= IpAt(c.db.ips, AddressOf(t.ask)).sessions;
  }

  // ---------------------------------------------------------------- any interval

  datatype Subject = OfSession(session: nat) | OfIp(ip: nat)

  predicate Concerns(s: Subject, e: Entry) {
    match s
    case OfSession(session) => e.session == session
    case OfIp(ip) => e.ip == ip
  }

  function ScopeOf(s: Subject, window: Time): Scope {
    match s
    case OfSession(session) => BySession(session, window)
    case OfIp(ip) => ByIp(ip, window)
  }

  predicate Within(s: Subject, from: Time, length: int, e: Entry) {
    Concerns(s, e) && from <= e.at < from + length
  }

  /** Accepted usage of a subject observed in [from, from + length). */
  function UsedIn(log: seq<Entry>, s: Subject, from: Time, length: int): Counters {
    if log == [] then ZERO
    else
      var before := UsedIn(log[..|log| - 1], s, from, length);
      if Within(s, from, length, log[|log| - 1]) then before.Plus(log[|log| - 1].delta) else before
  }

  /** Every entry was booked in the window that the manager derives from its instant. */
  predicate ManagerWindows(log: seq<Entry>, length: int)
    requires length > 0
  {
    forall i :: 0 <= i < |log| ==> log[i].window == WindowAt(log[i].at, length).start
  }

  /** An entry of the interval was booked in one of the two windows that the interval meets. */
  lemma BookedInOneWindow(e: Entry, s: Subject, from: Time, length: int)
    requires length > 0 && e.window == WindowAt(e.at, length).start && Within(s, from, length, e)
    ensures var w := WindowAt(from, length);
            InScope(ScopeOf(s, w.start), CellOfEntry(e)) ||
            InScope(ScopeOf(s, w.end), CellOfEntry(e))
  {
    IntervalMeetsTwoWindows(from, e.at, length);
  }

  /** A bound by two scopes survives one more entry that belongs to one of them if it is counted. */
  lemma BoundGrows(used: Counters, a: Counters, b: Counters, e: Entry, counted: bool, first: Scope, second: Scope)
    requires used.AtMost(a.Plus(b)) && NonNegative(e.delta)
    requires counted ==> InScope(first, CellOfEntry(e)) || InScope(second, CellOfEntry(e))
    ensures (if counted then used.Plus(e.delta) else used).AtMost(Booked(a, e, first).Plus(Booked(b, e, second)))
  {
  }

  /** Every entry within the interval belongs to one of two scopes. */
  predicate Covered(log: seq<Entry>, s: Subject, from: Time, length: int, first: Scope, second: Scope) {
    log == [] ||
    (Covered(log[..|log| - 1], s, from, length, first, second) && NonNegative(log[|log| - 1].delta) &&
     (Within(s, from, length, log[|log| - 1]) ==>
        InScope(first, CellOfEntry(log[|log| - 1])) || InScope(second, CellOfEntry(log[|log| - 1]))))
  }

  lemma UsedStep(log: seq<Entry>, s: Subject, from: Time, length: int)
    requires log != []
    ensures var before := UsedIn(log[..|log| - 1], s, from, length);
            UsedIn(log, s, from, length) ==
              if Within(s, from, length, log[|log| - 1]) then before.Plus(log[|log| - 1].delta) else before
  {
  }

  lemma LoggedStep(log: seq<Entry>, scope: Scope)
    requires log != []
    ensures Logged(log, scope) == Booked(Logged(log[..|log| - 1], scope), log[|log| - 1], scope)
  {
  }

  lemma OneMoreEntry(log: seq<Entry>, s: Subject, from: Time, length: int, first: Scope, second: Scope)
    requires log != [] && Covered(log, s, from, length, first, second)
    requires var front := log[..|log| - 1];
             UsedIn(front, s, from, length).AtMost(Logged(front, first).Plus(Logged(front, second)))
    ensures UsedIn(log, s, from, length).AtMost(Logged(log, first).Plus(Logged(log, second)))
  {
    var front, e := log[..|log| - 1], log[|log| - 1];
    UsedStep(log, s, from, length);
    LoggedStep(log, first);
    LoggedStep(log, second);
    BoundGrows(UsedIn(front, s, from, length), Logged(front, first), Logged(front, second), e,
               Within(s, from, length, e), first, second);
  }

  lemma {:induction false} UsedWithinScopes(log: seq<Entry>, s: Subject, from: Time, length: int, first: Scope,
                                            second: Scope)
    requires Covered(log, s, from, length, first, second)
    ensures UsedIn(log, s, from, length).AtMost(Logged(log, first).Plus(Logged(log, second)))
    decreases |log|
  {
    if log != [] {
      UsedWithinScopes(log[..|log| - 1], s, from, length, first, second);
      OneMoreEntry(log, s, from, length, first, second);
    }
  }

  lemma {:induction false} WindowsCover(log: seq<Entry>, s: Subject, from: Time, length: int)
    requires length > 0 && ManagerWindows(log, length)
    requires forall i :: 0 <= i < |log| ==> NonNegative(log[i].delta)
    ensures var w := WindowAt(from, length); Covered(log, s, from, length, ScopeOf(s, w.start), ScopeOf(s, w.end))
    decreases |log|
  {
    if log != [] {
      WindowsCover(log[..|log| - 1], s, from, length);
      if Within(s, from, length, log[|log| - 1]) {
        BookedInOneWindow(log[|log| - 1], s, from, length);
      }
    }
  }

  /** The usage in an interval of one window length is what its two windows booked, at most. */
  lemma IntervalWithinTwoWindows(log: seq<Entry>, s: Subject, from: Time, length: int)
    requires length > 0 && ManagerWindows(log, length)
    requires forall i :: 0 <= i < |log| ==> NonNegative(log[i].delta)
    ensures var w := WindowAt(from, length);
            UsedIn(log, s, from, length).AtMost(Logged(log, ScopeOf(s, w.start)).Plus(Logged(log, ScopeOf(s, w.end))))
  {
    WindowsCover(log, s, from, length);
    var w := WindowAt(from, length);
    UsedWithinScopes(log, s, from, length, ScopeOf(s, w.start), ScopeOf(s, w.end));
  }

  lemma TwiceTheLimitAt(c: State, l: Limits, s: Subject, from: Time)
    requires ValidLimits(l) && SystemInv(c, l) && ManagerWindows(c.log, l.window)
    ensures UsedIn(c.log, s, from, l.window).AtMost((if s.OfSession? then l.session else l.ip).Twice())
  {
    var w := WindowAt(from, l.window);
    IntervalWithinTwoWindows(c.log, s, from, l.window);
    assert Sum(c.db.usage, ScopeOf(s, w.start)).AtMost(LimitOf(l, ScopeOf(s, w.start)));
    assert Sum(c.db.usage, ScopeOf(s, w.end)).AtMost(LimitOf(l, ScopeOf(s, w.end)));
    assert Logged(c.log, ScopeOf(s, w.start)) == Sum(c.db.usage, ScopeOf(s, w.start));
    assert Logged(c.log, ScopeOf(s, w.end)) == Sum(c.db.usage, ScopeOf(s, w.end));
  }

  /** The request carries the window that the manager derives from its clock reading. */
  predicate Managed(ask: Ask, length: int)
    requires length > 0
  {
    ask.Spend? ==> ask.request.window == WindowAt(ask.request.at, length)
  }

  /** Every consumption of the run was asked by the manager. */
  predicate AskedByManager(actions: seq<Action>, length: int)
    requires length > 0
  {
    forall i :: 0 <= i < |actions| && actions[i].Begin? ==> Managed(actions[i].ask, length)
  }

  ghost predicate ManagedState(c: State, length: int)
    requires length > 0
  {
    ManagerWindows(c.log, length) && forall tx :: tx in c.txs ==> Managed(c.txs[tx].ask, length)
  }

  lemma ActionKeepsManaged(c: State, l: Limits, a: Action, length: int)
    requires length > 0 && ManagedState(c, length) && Enabled(c, l, a) && (a.Begin? ==> Managed(a.ask, length))
    ensures ManagedState(Next(c, l, a), length)
  {
    var d := Next(c, l, a);
    forall tx | tx in d.txs
      ensures Managed(d.txs[tx].ask, length)
    {
      assert tx in c.txs ==> Managed(c.txs[tx].ask, length);
    }
    if a.Commit? && c.txs[a.tx].ask.Spend? {
      LogGrowsManaged(c.log, EntryOf(c.txs[a.tx].ask.request), length);
    }
  }

  lemma LogGrowsManaged(log: seq<Entry>, e: Entry, length: int)
    requires length > 0 && ManagerWindows(log, length) && e.window == WindowAt(e.at, length).start
    ensures ManagerWindows(log + [e], length)
  {
  }

  lemma {:induction false} RunKeepsManaged(c: State, l: Limits, actions: seq<Action>, length: int)
    requires length > 0 && ManagedState(c, length) && Runs(c, l, actions) && AskedByManager(actions, length)
    ensures ManagedState(Final(c, l, actions), length)
    decreases |actions|
  {
    if actions != [] {
      ActionKeepsManaged(c, l, actions[0], length);
      RunKeepsManaged(Next(c, l, actions[0]), l, actions[1..], length);
    }
  }

  /** Over any run of the manager's requests from empty tables, the usage a session or an address is
      granted in any half-open interval of one window length is at most twice its limit. */
  lemma AtMostTwiceTheLimit(l: Limits, actions: seq<Action>, s: Subject, from: Time)
    requires ValidLimits(l) && Runs(State(Db(map[], map[]), map[], []), l, actions)
    requires AskedByManager(actions, l.window)
    ensures var log := Final(State(Db(map[], map[]), map[], []), l, actions).log;
            UsedIn(log, s, from, l.window).AtMost((if s.OfSession? then l.session else l.ip).Twice())
  {
    var c := State(Db(map[], map[]), map[], []);
    InitiallyInv(l);
    RunKeepsInv(c, l, actions);
    RunKeepsManaged(c, l, actions, l.window);
    TwiceTheLimitAt(Final(c, l, actions), l, s, from);
  }
}
