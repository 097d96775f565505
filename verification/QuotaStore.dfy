/** The PostgreSQL quota store: one transaction per call, proved to be the table function of the
    same name. A rejected consumption leaves both tables as they were. */
module QuotaStore {
  import opened Common
  import opened Quota

  class PostgresQuotaStore {
    var usage: map<Cell, Counters>
    var ips: map<IpCell, IpRow>

    constructor ()
      ensures usage == map[] && ips == map[]
    {
      usage := map[];
      ips := map[];
    }

    ghost function Tables(): Db
      reads this
    {
      Db(usage, ips)
    }

    /** SELECT SUM(...) over the rows of one scope. */
    static method SumRows(rows: map<Cell, Counters>, cells: set<Cell>) returns (total: Counters)
      requires cells <= rows.Keys
      ensures total == SumOver(rows, cells)
    {
      var todo := cells;
      total := ZERO;
      while todo != {}
        invariant todo <= cells
        invariant total.Plus(SumOver(rows, todo)) == SumOver(rows, cells)
        decreases todo
      {
        var cell :| cell in todo;
        SumTakes(rows, todo, cell);
        PlusAssociates(total, rows[cell], SumOver(rows, todo - {cell}));
        total := total.Plus(rows[cell]);
        todo := todo - {cell};
      }
    }

    static lemma PlusAssociates(a: Counters, b: Counters, c: Counters)
      ensures a.Plus(b.Plus(c)) == a.Plus(b).Plus(c)
    {
    }

    method Consume(r: Request, active: bool) returns (result: Result<Decision, QuotaError>)
      modifies this
      ensures (Tables(), result) == Quota.Consume(old(Tables()), r, active)
    {
      if !ValidRequest(r) {
        return Err(Invalid);
      }
      if !active {
        return Err(SessionInactive);
      }
      var ipCell := IpCell(r.ip, r.window.start);
      var cell := Cell(r.session.id, r.ip, r.window.start);
      var ip := IpAt(ips, ipCell);
      var session := SumRows(usage, Cells(usage, BySession(r.session.id, r.window.start)));
      if !FitsInt64(session) || !FitsInt64(ip.usage) {
        return Err(StorageFailure);
      }
      var over := CheckLimits(true, session, r.delta, r.limits.session, r.window.end);
      if over.Some? {
        return Err(over.value);
      }
      over := CheckLimits(false, ip.usage, r.delta, r.limits.ip, r.window.end);
      if over.Some? {
        return Err(over.value);
      }
      var row := RowAt(usage, cell).Plus(r.delta);
      if !FitsSessionRow(row) || !FitsInt64(ip.usage.Plus(r.delta)) {
        return Err(StorageFailure);
      }
      usage := usage[cell := row];
      ips := ips[ipCell := ip.(usage := ip.usage.Plus(r.delta))];
      session := session.Plus(r.delta);
      ip := ip.(usage := ip.usage.Plus(r.delta));
      result := Ok(Decision(r.window, session, ip));
    }

    method ConsumeSessionCreation(ip: nat, w: Window, limit: int) returns (result: Result<IpRow, QuotaError>)
      modifies this
      ensures (Tables(), result) == ConsumeCreation(old(Tables()), ip, w, limit)
    {
      if !ValidCreation(w, limit) {
        return Err(Invalid);
      }
      var cell := IpCell(ip, w.start);
      var row := IpAt(ips, cell);
      if row.sessions < 0 || row.sessions > MAX_INT64 {
        return Err(StorageFailure);
      }
      if Exceeds(row.sessions as int64, 1, limit as int64) {
        return Err(Exceeded(false, Sessions, limit, w.end));
      }
      row := row.(sessions := row.sessions + 1);
      ips := ips[cell := row];
      result := Ok(row);
    }
  }
}
