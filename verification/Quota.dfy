/** Anonymous quotas: fixed windows, limits checked without overflow, and the two counter tables
    that one consumption increments together. */
module Quota {
  import opened Common

  const MINUTE: int := 60_000_000
  const SECOND: int := 1_000_000

  /** Uploads, jobs and bytes: a usage, a delta or a triple of limits. */
  datatype Counters = Counters(uploads: int, jobs: int, bytes: int) {
    function Plus(other: Counters): Counters {
      Counters(uploads + other.uploads, jobs + other.jobs, bytes + other.bytes)
    }

    predicate AtMost(other: Counters) {
      uploads <= other.uploads && jobs <= other.jobs && bytes <= other.bytes
    }

    function Twice(): Counters { Plus(this) }
  }

  const ZERO: Counters := Counters(0, 0, 0)

  /** int4 counts and an int8 byte total, as in anonymous_usage. */
  predicate FitsSessionRow(c: Counters) {
    0 <= c.uploads <= MAX_INT32 && 0 <= c.jobs <= MAX_INT32 && 0 <= c.bytes <= MAX_INT64
  }

  /** int8 everywhere, as in anonymous_ip_usage and in the scanned sums. */
  predicate FitsInt64(c: Counters) {
    0 <= c.uploads <= MAX_INT64 && 0 <= c.jobs <= MAX_INT64 && 0 <= c.bytes <= MAX_INT64
  }

  datatype Limits = Limits(window: int, sessionsPerIp: int, session: Counters, ip: Counters)

  predicate CountLimitOk(limit: int) { 0 < limit <= MAX_INT32 }

  predicate ScopeLimitsOk(c: Counters) {
    CountLimitOk(c.uploads) && CountLimitOk(c.jobs) && 0 < c.bytes <= MAX_INT64
  }

  predicate ValidLimits(l: Limits) {
    l.window >= MINUTE && l.window % SECOND == 0 && CountLimitOk(l.sessionsPerIp) &&
    ScopeLimitsOk(l.session) && ScopeLimitsOk(l.ip)
  }

  predicate ValidDelta(d: Counters) {
    d.uploads >= 0 && d.jobs >= 0 && d.bytes >= 0 && d != ZERO &&
    d.uploads <= MAX_INT32 && d.jobs <= MAX_INT32 && d.bytes <= MAX_INT64
  }

  // ---------------------------------------------------------------- fixed windows

  datatype Window = Window(start: Time, end: Time)

  /** Truncate rounds down to a multiple of the window since the zero time. */
  function WindowAt(at: Time, length: int): Window
    requires length > 0
  {
    Window(at - at % length, at - at % length + length)
  }

  predicate ValidWindow(w: Window, length: int, at: Time) {
    w.start != ZERO_TIME && w.end != ZERO_TIME && w.end == w.start + length && w.start <= at < w.end
  }

  lemma WindowStartIsMultiple(at: Time, length: int) returns (k: int)
    requires length > 0
    ensures WindowAt(at, length).start == k * length && k * length <= at < k * length + length
  {
    k := at / length;
    assert at == k * length + at % length;
  }

  lemma MultiplesAreSpaced(j: int, k: int, length: int)
    requires length > 0 && j < k
    ensures j * length + length <= k * length
  {
    assert (k - j - 1) * length >= 0;
    assert (k - j - 1) * length == k * length - j * length - length;
  }

  /** A window contains its instant, and is accepted by the store unless the instant is within one
      window of Go's zero time. */
  lemma WindowContainsItsInstant(at: Time, length: int)
    requires length > 0
    ensures WindowAt(at, length).start <= at < WindowAt(at, length).end
    ensures ValidWindow(WindowAt(at, length), length, at) <==> !(-length <= at < length)
  {
    var k := WindowStartIsMultiple(at, length);
    if k > 0 {
      MultiplesAreSpaced(0, k, length);
    } else if k < -1 {
      MultiplesAreSpaced(k, -1, length);
    }
  }

  lemma SameMultiple(j: int, k: int, length: int, t: int)
    requires length > 0 && j * length <= t < j * length + length && k * length <= t < k * length + length
    ensures j == k
  {
    if j < k {
      MultiplesAreSpaced(j, k, length);
    } else if k < j {
      MultiplesAreSpaced(k, j, length);
    }
  }

  /** Windows partition time: every instant of a window has that window. */
  lemma WindowsPartitionTime(at: Time, other: Time, length: int)
    requires length > 0 && WindowAt(at, length).start <= other < WindowAt(at, length).end
    ensures WindowAt(other, length) == WindowAt(at, length)
  {
    var j := WindowStartIsMultiple(at, length);
    var k := WindowStartIsMultiple(other, length);
    SameMultiple(j, k, length, other);
  }

  /** Two windows are equal or disjoint. */
  lemma WindowsEqualOrDisjoint(a: Time, b: Time, t: Time, length: int)
    requires length > 0
    requires WindowAt(a, length).start <= t < WindowAt(a, length).end
    requires WindowAt(b, length).start <= t < WindowAt(b, length).end
    ensures WindowAt(a, length) == WindowAt(b, length)
  {
    WindowsPartitionTime(a, t, length);
    WindowsPartitionTime(b, t, length);
  }

  /** An interval of one window length meets at most two windows: its start's and the next. */
  lemma IntervalMeetsTwoWindows(from: Time, at: Time, length: int)
    requires length > 0 && from <= at < from + length
    ensures WindowAt(at, length).start == WindowAt(from, length).start ||
            WindowAt(at, length).start == WindowAt(from, length).end
  {
    var first := WindowAt(from, length);
    WindowContainsItsInstant(from, length);
    if at < first.end {
      WindowsPartitionTime(from, at, length);
    } else {
      var k := WindowStartIsMultiple(from, length);
      var j := WindowStartIsMultiple(at, length);
      NextMultiple(k, length);
      SameMultiple(j, k + 1, length, at);
    }
  }

  lemma NextMultiple(k: int, length: int)
    ensures (k + 1) * length == k * length + length
  {
  }

  // ---------------------------------------------------------------- limits

  /** The comparison of the source on int64: the subtraction cannot overflow, and on non-negative
      values it decides the sum over the unbounded integers. */
  function Exceeds(current: int64, delta: int64, limit: int64): (over: bool)
    ensures current >= 0 && delta >= 0 && limit >= 0 ==>
              (over <==> current as int + delta as int > limit as int)
    ensures current < 0 || delta < 0 || limit < 0 ==> over
  {
    if current < 0 || delta < 0 || limit < 0 then true
    else current > limit || delta > limit - current
  }

  datatype Scope = BySession(session: nat, window: Time) | ByIp(ip: nat, window: Time)

  datatype Metric = Sessions | Uploads | Jobs | Bytes

  datatype QuotaError =
    | Invalid | SessionInactive | StorageFailure
    | Exceeded(bySession: bool, metric: Metric, limit: int, retryAt: Time)

  /** The first metric that the delta would push over its limit. */
  function CheckLimits(bySession: bool, usage: Counters, delta: Counters, limit: Counters, retryAt: Time)
    : (error: Option<QuotaError>)
    requires FitsInt64(usage) && FitsInt64(delta) && FitsInt64(limit)
    ensures error.None? <==> usage.Plus(delta).AtMost(limit)
    ensures error == Some(Exceeded(bySession, Uploads, limit.uploads, retryAt)) <==>
            usage.uploads + delta.uploads > limit.uploads
    ensures error == Some(Exceeded(bySession, Jobs, limit.jobs, retryAt)) <==>
            usage.uploads + delta.uploads <= limit.uploads && usage.jobs + delta.jobs > limit.jobs
    ensures error == Some(Exceeded(bySession, Bytes, limit.bytes, retryAt)) <==>
            usage.uploads + delta.uploads <= limit.uploads && usage.jobs + delta.jobs <= limit.jobs &&
            usage.bytes + delta.bytes > limit.bytes
  {
    if Exceeds(usage.uploads as int64, delta.uploads as int64, limit.uploads as int64) then
      Some(Exceeded(bySession, Uploads, limit.uploads, retryAt))
    else if Exceeds(usage.jobs as int64, delta.jobs as int64, limit.jobs as int64) then
      Some(Exceeded(bySession, Jobs, limit.jobs, retryAt))
    else if Exceeds(usage.bytes as int64, delta.bytes as int64, limit.bytes as int64) then
      Some(Exceeded(bySession, Bytes, limit.bytes, retryAt))
    else None
  }

  // ---------------------------------------------------------------- the two tables

  /** Primary keys of anonymous_usage and anonymous_ip_usage. */
  datatype Cell = Cell(session: nat, ip: nat, window: Time)

  datatype IpCell = IpCell(ip: nat, window: Time)

  datatype IpRow = IpRow(sessions: int, usage: Counters)

  datatype Db = Db(usage: map<Cell, Counters>, ips: map<IpCell, IpRow>)

  function RowAt(usage: map<Cell, Counters>, cell: Cell): Counters {
    if cell in usage then usage[cell] else ZERO
  }

  /** The row that INSERT ... ON CONFLICT DO NOTHING guarantees. */
  function IpAt(ips: map<IpCell, IpRow>, cell: IpCell): IpRow {
    if cell in ips then ips[cell] else IpRow(0, ZERO)
  }

  predicate InScope(scope: Scope, cell: Cell) {
    match scope
    case BySession(session, window) => cell.session == session && cell.window == window
    case ByIp(ip, window) => cell.ip == ip && cell.window == window
  }

  function Cells(usage: map<Cell, Counters>, scope: Scope): set<Cell> {
    set cell | cell in usage && InScope(scope, cell)
  }

  ghost function Pick(cells: set<Cell>): (cell: Cell)
    requires cells != {}
    ensures cell in cells
  {
    var cell :| cell in cells;
    cell
  }

  ghost function SumOver(usage: map<Cell, Counters>, cells: set<Cell>): Counters
    requires cells <= usage.Keys
    decreases |cells|
  {
    if cells == {} then ZERO
    else
      usage[Pick(cells)].Plus(SumOver(usage, cells - {Pick(cells)}))
  }

  /** SELECT SUM(...) over one scope. */
  ghost function Sum(usage: map<Cell, Counters>, scope: Scope): Counters {
    SumOver(usage, Cells(usage, scope))
  }

  /** The sum does not depend on the order of its rows. */
  lemma {:induction false} SumTakes(usage: map<Cell, Counters>, cells: set<Cell>, cell: Cell)
    requires cells <= usage.Keys && cell in cells
    ensures SumOver(usage, cells) == usage[cell].Plus(SumOver(usage, cells - {cell}))
    decreases |cells|
  {
    var first := Pick(cells);
    if first != cell {
      SumTakes(usage, cells - {first}, cell);
      SumTakes(usage, cells - {cell}, first);
      assert cells - {first} - {cell} == cells - {cell} - {first};
    }
  }

  lemma {:induction false} SumElsewhere(usage: map<Cell, Counters>, cells: set<Cell>, cell: Cell, row: Counters)
    requires cells <= usage.Keys && cell !in cells
    ensures SumOver(usage[cell := row], cells) == SumOver(usage, cells)
    decreases |cells|
  {
    if cells != {} {
      var first := Pick(cells);
      SumTakes(usage[cell := row], cells, first);
      SumElsewhere(usage, cells - {first}, cell, row);
    }
  }

  /** Adding a delta to one cell adds it to the sums of the scopes that contain the cell, and to
      no other. */
  lemma SumAfterAdding(usage: map<Cell, Counters>, cell: Cell, delta: Counters, scope: Scope)
    ensures Sum(usage[cell := RowAt(usage, cell).Plus(delta)], scope) ==
            if InScope(scope, cell) then Sum(usage, scope).Plus(delta) else Sum(usage, scope)
  {
    var row := RowAt(usage, cell).Plus(delta);
    var grown := usage[cell := row];
    var rest := Cells(usage, scope) - {cell};
    SumElsewhere(usage, rest, cell, row);
    if InScope(scope, cell) {
      assert Cells(grown, scope) == rest + {cell};
      SumTakes(grown, Cells(grown, scope), cell);
      assert Cells(grown, scope) - {cell} == rest;
      if cell in usage {
        SumTakes(usage, Cells(usage, scope), cell);
      } else {
        assert Cells(usage, scope) == rest;
      }
    } else {
      assert Cells(grown, scope) == rest == Cells(usage, scope);
    }
  }

  predicate NonNegative(c: Counters) { c.uploads >= 0 && c.jobs >= 0 && c.bytes >= 0 }

  ghost predicate RowsNonNegative(usage: map<Cell, Counters>) {
    forall cell :: cell in usage ==> NonNegative(usage[cell])
  }

  lemma {:induction false} SumOverNonNegative(usage: map<Cell, Counters>, cells: set<Cell>)
    requires cells <= usage.Keys && RowsNonNegative(usage)
    ensures NonNegative(SumOver(usage, cells))
    decreases |cells|
  {
    if cells != {} {
      var first := Pick(cells);
      SumOverNonNegative(usage, cells - {first});
    }
  }

  /** No row exceeds the sum of a scope it belongs to. */
  lemma RowAtMostSum(usage: map<Cell, Counters>, cell: Cell, scope: Scope)
    requires RowsNonNegative(usage) && InScope(scope, cell)
    ensures RowAt(usage, cell).AtMost(Sum(usage, scope)) && NonNegative(Sum(usage, scope))
  {
    SumOverNonNegative(usage, Cells(usage, scope));
    if cell in usage {
      SumTakes(usage, Cells(usage, scope), cell);
      SumOverNonNegative(usage, Cells(usage, scope) - {cell});
    }
  }

  // ---------------------------------------------------------------- one consumption

  datatype Request = Request(session: IdText, ip: nat, window: Window, at: Time, delta: Counters, limits: Limits)

  datatype Decision = Decision(window: Window, session: Counters, ip: IpRow)

  predicate ValidRequest(r: Request) {
    r.session.Uuid? && ValidLimits(r.limits) && ValidWindow(r.window, r.limits.window, r.at) && ValidDelta(r.delta)
  }

  function Spent(db: Db, cell: Cell, delta: Counters): Db {
    var ip := IpCell(cell.ip, cell.window);
    Db(db.usage[cell := RowAt(db.usage, cell).Plus(delta)],
       db.ips[ip := IpAt(db.ips, ip).(usage := IpAt(db.ips, ip).usage.Plus(delta))])
  }

  /** Both scopes are checked before either is incremented; active says that the session row could
      be locked as unrevoked and unexpired. */
  ghost function Consume(db: Db, r: Request, active: bool): (Db, Result<Decision, QuotaError>) {
    if !ValidRequest(r) then (db, Err(Invalid))
    else if !active then (db, Err(SessionInactive))
    else
      var cell := Cell(r.session.id, r.ip, r.window.start);
      var session := Sum(db.usage, BySession(r.session.id, r.window.start));
      var ip := IpAt(db.ips, IpCell(r.ip, r.window.start));
      if !FitsInt64(session) || !FitsInt64(ip.usage) then (db, Err(StorageFailure))
      else
        var overSession := CheckLimits(true, session, r.delta, r.limits.session, r.window.end);
        var overIp := CheckLimits(false, ip.usage, r.delta, r.limits.ip, r.window.end);
        if overSession.Some? then (db, Err(overSession.value))
        else if overIp.Some? then (db, Err(overIp.value))
        else if !FitsSessionRow(RowAt(db.usage, cell).Plus(r.delta)) || !FitsInt64(ip.usage.Plus(r.delta)) then
          (db, Err(StorageFailure))
        else
          (Spent(db, cell, r.delta),
           Ok(Decision(r.window, session.Plus(r.delta), ip.(usage := ip.usage.Plus(r.delta)))))
  }

  predicate ValidCreation(w: Window, limit: int) {
    w.start != ZERO_TIME && w.end != ZERO_TIME && w.end > w.start && CountLimitOk(limit)
  }

  /** One session creation is spent from the address alone. */
  function ConsumeCreation(db: Db, ip: nat, w: Window, limit: int): (Db, Result<IpRow, QuotaError>) {
    if !ValidCreation(w, limit) then (db, Err(Invalid))
    else
      var row := IpAt(db.ips, IpCell(ip, w.start));
      if row.sessions < 0 || row.sessions > MAX_INT64 then (db, Err(StorageFailure))
      else if Exceeds(row.sessions as int64, 1, limit as int64) then (db, Err(Exceeded(false, Sessions, limit, w.end)))
      else
        var next := row.(sessions := row.sessions + 1);
        (db.(ips := db.ips[IpCell(ip, w.start) := next]), Ok(next))
  }

  // ---------------------------------------------------------------- what every call keeps

  ghost function LimitOf(l: Limits, scope: Scope): Counters {
    if scope.BySession? then l.session else l.ip
  }

  /** Under one set of limits: no aggregate is over its limit, and each address counter is the sum
      of the rows of its address over all sessions. */
  ghost predicate Inv(db: Db, l: Limits) {
    RowsNonNegative(db.usage) &&
    (forall scope: Scope :: Sum(db.usage, scope).AtMost(LimitOf(l, scope))) &&
    (forall cell: IpCell :: IpAt(db.ips, cell).usage == Sum(db.usage, ByIp(cell.ip, cell.window))) &&
    (forall cell: IpCell :: 0 <= IpAt(db.ips, cell).sessions <= l.sessionsPerIp)
  }

  lemma EmptyInv(l: Limits)
    requires ValidLimits(l)
    ensures Inv(Db(map[], map[]), l)
  {
    forall scope: Scope
      ensures Sum(map[], scope) == ZERO
    {
      assert Cells(map[], scope) == {};
    }
  }

  /** Every stored cell fits its column. */
  lemma CellsFit(db: Db, l: Limits, cell: Cell)
    requires ValidLimits(l) && Inv(db, l)
    ensures FitsSessionRow(RowAt(db.usage, cell))
    ensures FitsInt64(Sum(db.usage, BySession(cell.session, cell.window)))
    ensures FitsInt64(IpAt(db.ips, IpCell(cell.ip, cell.window)).usage)
  {
    RowAtMostSum(db.usage, cell, BySession(cell.session, cell.window));
    RowAtMostSum(db.usage, cell, ByIp(cell.ip, cell.window));
    assert Sum(db.usage, BySession(cell.session, cell.window)).AtMost(LimitOf(l, BySession(cell.session, cell.window)));
    assert Sum(db.usage, ByIp(cell.ip, cell.window)).AtMost(LimitOf(l, ByIp(cell.ip, cell.window)));
  }

  /** A delta that both scopes admit can be spent without leaving the invariant. */
  lemma SpendingKeepsInv(db: Db, l: Limits, cell: Cell, delta: Counters)
    requires ValidLimits(l) && Inv(db, l) && ValidDelta(delta)
    requires Sum(db.usage, BySession(cell.session, cell.window)).Plus(delta).AtMost(l.session)
    requires IpAt(db.ips, IpCell(cell.ip, cell.window)).usage.Plus(delta).AtMost(l.ip)
    ensures Inv(Spent(db, cell, delta), l)
  {
    var d := Spent(db, cell, delta);
    forall scope: Scope
      ensures Sum(d.usage, scope).AtMost(LimitOf(l, scope))
    {
      SumAfterAdding(db.usage, cell, delta, scope);
      assert Sum(db.usage, scope).AtMost(LimitOf(l, scope));
      if InScope(scope, cell) {
        assert IpAt(db.ips, IpCell(cell.ip, cell.window)).usage == Sum(db.usage, ByIp(cell.ip, cell.window));
      }
    }
    forall other: IpCell
      ensures IpAt(d.ips, other).usage == Sum(d.usage, ByIp(other.ip, other.window))
    {
      SumAfterAdding(db.usage, cell, delta, ByIp(other.ip, other.window));
      assert IpAt(db.ips, other).usage == Sum(db.usage, ByIp(other.ip, other.window));
    }
    forall other: IpCell
      ensures 0 <= IpAt(d.ips, other).sessions <= l.sessionsPerIp
    {
      assert 0 <= IpAt(db.ips, other).sessions <= l.sessionsPerIp;
    }
  }

  /** A consumption is decided by the two sums alone: it succeeds iff both stay within their limits,
      never fails inside, and keeps limits and conservation. */
  lemma ConsumeOutcome(db: Db, l: Limits, r: Request)
    requires Inv(db, l) && ValidRequest(r) && r.limits == l
    ensures var (d, result) := Consume(db, r, true);
            Inv(d, l) && result != Err(StorageFailure) &&
            (result.Ok? <==>
              Sum(db.usage, BySession(r.session.id, r.window.start)).Plus(r.delta).AtMost(l.session) &&
              Sum(db.usage, ByIp(r.ip, r.window.start)).Plus(r.delta).AtMost(l.ip)) &&
            (result.Ok? ==>
              result.value.session == Sum(d.usage, BySession(r.session.id, r.window.start)) &&
              result.value.ip.usage == Sum(d.usage, ByIp(r.ip, r.window.start))) &&
            (result.Err? ==> d == db)
  {
    var cell := Cell(r.session.id, r.ip, r.window.start);
    CellsFit(db, l, cell);
    var (d, result) := Consume(db, r, true);
    assert IpAt(db.ips, IpCell(r.ip, r.window.start)).usage == Sum(db.usage, ByIp(r.ip, r.window.start));
    RowAtMostSum(db.usage, cell, BySession(r.session.id, r.window.start));
    if result.Ok? {
      SpendingKeepsInv(db, l, cell, r.delta);
      SumAfterAdding(db.usage, cell, r.delta, BySession(r.session.id, r.window.start));
      SumAfterAdding(db.usage, cell, r.delta, ByIp(r.ip, r.window.start));
    }
  }

  lemma CreationKeepsInv(db: Db, l: Limits, ip: nat, w: Window)
    requires ValidLimits(l) && Inv(db, l)
    ensures var (d, result) := ConsumeCreation(db, ip, w, l.sessionsPerIp);
            Inv(d, l) && result != Err(StorageFailure) && d.usage == db.usage
    ensures ValidCreation(w, l.sessionsPerIp) ==>
              (ConsumeCreation(db, ip, w, l.sessionsPerIp).1.Ok? <==>
               IpAt(db.ips, IpCell(ip, w.start)).sessions < l.sessionsPerIp)
  {
    var d := ConsumeCreation(db, ip, w, l.sessionsPerIp).0;
    assert 0 <= IpAt(db.ips, IpCell(ip, w.start)).sessions <= l.sessionsPerIp;
    forall cell: IpCell
      ensures IpAt(d.ips, cell).usage == IpAt(db.ips, cell).usage
      ensures 0 <= IpAt(d.ips, cell).sessions <= l.sessionsPerIp
    {
      assert 0 <= IpAt(db.ips, cell).sessions <= l.sessionsPerIp;
    }
  }

  // ---------------------------------------------------------------- answers

  /** Which requests are refused as malformed, and when the session counts as inactive. */
  lemma ConsumeRefusals(db: Db, r: Request, active: bool)
    ensures var (d, answer) := Consume(db, r, active);
            var l, w, delta := r.limits, r.window, r.delta;
            var limitsOk :=
              l.window >= 60_000_000 && l.window % 1_000_000 == 0 && 1 <= l.sessionsPerIp <= 0x7fff_ffff &&
              1 <= l.session.uploads <= 0x7fff_ffff && 1 <= l.session.jobs <= 0x7fff_ffff &&
              1 <= l.ip.uploads <= 0x7fff_ffff && 1 <= l.ip.jobs <= 0x7fff_ffff &&
              1 <= l.session.bytes <= MAX_INT64 && 1 <= l.ip.bytes <= MAX_INT64;
            var windowOk := w.start != 0 && w.end != 0 && w.end == w.start + l.window && w.start <= r.at < w.end;
            var deltaOk :=
              0 <= delta.uploads <= 0x7fff_ffff && 0 <= delta.jobs <= 0x7fff_ffff && 0 <= delta.bytes <= MAX_INT64 &&
              (delta.uploads > 0 || delta.jobs > 0 || delta.bytes > 0);
            (answer == Err(Invalid) <==> !(r.session.Uuid? && limitsOk && windowOk && deltaOk)) &&
            (answer == Err(SessionInactive) <==> r.session.Uuid? && limitsOk && windowOk && deltaOk && !active) &&
            (answer.Err? ==> d == db)
  {
  }

  /** A consumption over a limit is told which scope and metric stopped it; the session comes first. */
  lemma ConsumeStopsAtFirstLimit(db: Db, l: Limits, r: Request)
    requires Inv(db, l) && ValidRequest(r) && r.limits == l && Consume(db, r, true).1.Err?
    ensures var session := Sum(db.usage, BySession(r.session.id, r.window.start));
            var ip := Sum(db.usage, ByIp(r.ip, r.window.start));
            FitsInt64(session) && FitsInt64(ip) &&
            Some(Consume(db, r, true).1.error) ==
              if !session.Plus(r.delta).AtMost(l.session)
              then CheckLimits(true, session, r.delta, l.session, r.window.end)
              else CheckLimits(false, ip, r.delta, l.ip, r.window.end)
  {
    ConsumeOutcome(db, l, r);
    CellsFit(db, l, Cell(r.session.id, r.ip, r.window.start));
    assert IpAt(db.ips, IpCell(r.ip, r.window.start)).usage == Sum(db.usage, ByIp(r.ip, r.window.start));
  }

  /** An accepted consumption adds its delta to the sums of its own session and address in its window,
      to no other sum and to no count of sessions, and answers the new sums. */
  lemma ConsumeSpends(db: Db, l: Limits, r: Request, scope: Scope, cell: IpCell)
    requires Inv(db, l) && ValidRequest(r) && r.limits == l && Consume(db, r, true).1.Ok?
    ensures var (d, answer) := Consume(db, r, true);
            var mine := scope == BySession(r.session.id, r.window.start) || scope == ByIp(r.ip, r.window.start);
            Sum(d.usage, scope) == (if mine then Sum(db.usage, scope).Plus(r.delta) else Sum(db.usage, scope)) &&
            IpAt(d.ips, cell).sessions == IpAt(db.ips, cell).sessions &&
            IpAt(d.ips, cell).usage == Sum(d.usage, ByIp(cell.ip, cell.window)) &&
            answer.value.window == r.window &&
            answer.value.session == Sum(db.usage, BySession(r.session.id, r.window.start)).Plus(r.delta) &&
            answer.value.ip == IpAt(d.ips, IpCell(r.ip, r.window.start))
  {
    ConsumeOutcome(db, l, r);
    SumAfterAdding(db.usage, Cell(r.session.id, r.ip, r.window.start), r.delta, scope);
    assert IpAt(Consume(db, r, true).0.ips, cell).usage ==
           Sum(Consume(db, r, true).0.usage, ByIp(cell.ip, cell.window));
  }

  /** A session creation adds one to the count of its own address and window and to nothing else, or
      is told the limit it met. */
  lemma CreationAnswers(db: Db, l: Limits, ip: nat, w: Window)
    requires ValidLimits(l) && Inv(db, l)
    ensures var (d, answer) := ConsumeCreation(db, ip, w, l.sessionsPerIp);
            var cell := IpCell(ip, w.start);
            var wellFormed := w.start != 0 && w.end != 0 && w.start < w.end;
            var full := IpAt(db.ips, cell).sessions >= l.sessionsPerIp;
            (answer == Err(Invalid) <==> !wellFormed) &&
            (answer == Err(Exceeded(false, Sessions, l.sessionsPerIp, w.end)) <==> wellFormed && full) &&
            (answer.Ok? <==> wellFormed && !full) && d.usage == db.usage && (answer.Err? ==> d == db) &&
            (answer.Ok? ==>
               d.ips == db.ips[cell := answer.value] &&
               answer.value == IpRow(IpAt(db.ips, cell).sessions + 1, IpAt(db.ips, cell).usage))
  {
    var cell := IpCell(ip, w.start);
    assert 0 <= IpAt(db.ips, cell).sessions <= l.sessionsPerIp;
  }
}
