/** The register of anonymous sessions: guarded updates of last use and of revocation, and the
    read-check-write sequences of the manager with other calls in between. */
module Sessions {
  import opened Common

  datatype Session = Session(
    id: IdText, secret: Digest, initialIp: Digest, lastIp: Digest,
    createdAt: Time, lastSeenAt: Time, expiresAt: Time, revokedAt: Option<Time>)

  datatype SessionError = NotFound | Conflict | InvalidCapability | Expired | Revoked | Inactive | Invalid

  type Table = map<nat, Session>

  predicate ValidNew(s: Session) {
    s.id.Uuid? && s.createdAt != ZERO_TIME && s.lastSeenAt != ZERO_TIME && s.expiresAt != ZERO_TIME &&
    s.expiresAt > s.createdAt && s.revokedAt.None?
  }

  predicate SecretTaken(t: Table, secret: Digest) {
    exists id :: id in t && t[id].secret == secret
  }

  function Create(t: Table, s: Session): (Table, Result<Session, SessionError>) {
    if !ValidNew(s) then (t, Err(Invalid))
    else if s.id.id in t || SecretTaken(t, s.secret) then (t, Err(Conflict))
    else (t[s.id.id := s], Ok(s))
  }

  predicate Touchable(s: Session, at: Time) { s.revokedAt.None? && s.expiresAt > at }

  function TouchRow(s: Session, ip: Digest, at: Time): Session {
    if s.lastSeenAt <= at then s.(lastIp := ip, lastSeenAt := at) else s
  }

  function Touch(t: Table, id: IdText, ip: Digest, at: Time): (Table, Option<SessionError>) {
    if !id.Uuid? then (t, Some(NotFound))
    else if at == ZERO_TIME then (t, Some(Invalid))
    else if id.id !in t || !Touchable(t[id.id], at) then (t, Some(Inactive))
    else (t[id.id := TouchRow(t[id.id], ip, at)], None)
  }

  function Revoke(t: Table, id: IdText, at: Time): (Table, Option<SessionError>) {
    if !id.Uuid? then (t, Some(NotFound))
    else if at == ZERO_TIME then (t, Some(Invalid))
    else if id.id !in t then (t, Some(NotFound))
    else (t[id.id := t[id.id].(revokedAt := Coalesce(t[id.id].revokedAt, at))], None)
  }

  datatype Event =
    | Created(session: Session)
    | Touched(id: IdText, ip: Digest, at: Time)
    | RevokeAsked(id: IdText, at: Time)

  function Step(t: Table, e: Event): Table {
    match e
    case Created(s) => Create(t, s).0
    case Touched(id, ip, at) => Touch(t, id, ip, at).0
    case RevokeAsked(id, at) => Revoke(t, id, at).0
  }

  function Run(t: Table, es: seq<Event>): Table {
    if es == [] then t else Step(Run(t, es[..|es| - 1]), es[|es| - 1])
  }

  // ---------------------------------------------------------------- revocation

  predicate RevokedIn(es: seq<Event>, id: nat) {
    exists i :: 0 <= i < |es| && Revokes(es[i], id)
  }

  predicate Revokes(e: Event, id: nat) {
    e.RevokeAsked? && e.id == Uuid(id) && e.at != ZERO_TIME
  }

  /** The first revocation in a run, if any, is the one a session keeps. */
  function FirstRevocation(es: seq<Event>, id: nat): Option<Time> {
    if es == [] then None
    else
      var before := FirstRevocation(es[..|es| - 1], id);
      if before.None? && Revokes(es[|es| - 1], id) then Some(es[|es| - 1].at) else before
  }

  /** Over any run a session keeps its identity, digests and deadline; its revocation instant is
      its own if it had one and otherwise the first one of the run, never a later one. */
  lemma {:induction false} RunKeepsFirstRevocation(t: Table, es: seq<Event>, id: nat)
    requires id in t
    ensures id in Run(t, es)
    ensures var s, r := t[id], Run(t, es)[id];
            r == s.(lastIp := r.lastIp, lastSeenAt := r.lastSeenAt, revokedAt := r.revokedAt) &&
            r.revokedAt == (if s.revokedAt.Some? then s.revokedAt else FirstRevocation(es, id)) &&
            r.lastSeenAt >= s.lastSeenAt
    decreases |es|
  {
    if es != [] {
      RunKeepsFirstRevocation(t, es[..|es| - 1], id);
    }
  }

  lemma {:induction false} FirstRevocationExists(es: seq<Event>, id: nat)
    ensures FirstRevocation(es, id).Some? <==> RevokedIn(es, id)
    decreases |es|
  {
    if es != [] {
      var front := es[..|es| - 1];
      FirstRevocationExists(front, id);
      RevokedInFrontOrLast(es, id);
    }
  }

  lemma RevokedInFrontOrLast(es: seq<Event>, id: nat)
    requires es != []
    ensures RevokedIn(es, id) <==> RevokedIn(es[..|es| - 1], id) || Revokes(es[|es| - 1], id)
  {
    var front := es[..|es| - 1];
    if i :| 0 <= i < |es| && Revokes(es[i], id) {
      assert i < |front| ==> Revokes(front[i], id);
    }
    if i :| 0 <= i < |front| && Revokes(front[i], id) {
      assert Revokes(es[i], id);
    }
  }

  // ---------------------------------------------------------------- distinct capabilities

  /** Every session sits under its own identifier, and no two have the same secret. */
  ghost predicate RegisterInv(t: Table) {
    (forall id :: id in t ==> t[id].id == Uuid(id)) &&
    forall a, b :: a in t && b in t && a != b ==> t[a].secret != t[b].secret
  }

  lemma StepKeepsRegisterInv(t: Table, e: Event)
    requires RegisterInv(t)
    ensures RegisterInv(Step(t, e))
  {
    if e.Created? && Create(t, e.session).1.Ok? {
      assert forall id :: id in t ==> t[id].secret != e.session.secret;
    }
  }

  /** In every reachable register a secret belongs to one session only. */
  lemma {:induction false} RunKeepsRegisterInv(t: Table, es: seq<Event>)
    requires RegisterInv(t)
    ensures RegisterInv(Run(t, es))
    decreases |es|
  {
    if es != [] {
      RunKeepsRegisterInv(t, es[..|es| - 1]);
      StepKeepsRegisterInv(Run(t, es[..|es| - 1]), es[|es| - 1]);
    }
  }

  // ---------------------------------------------------------------- convergence of touches

  datatype Use = Use(ip: Digest, at: Time)

  function AfterUses(s: Session, uses: seq<Use>): Session
    decreases |uses|
  {
    if uses == [] then s else TouchRow(AfterUses(s, uses[..|uses| - 1]), uses[|uses| - 1].ip, uses[|uses| - 1].at)
  }

  /** The register ends at the latest of the initial instant and the uses, with the address seen
      then; a use at the initial instant replaces its address. */
  predicate IsLatest(s: Session, uses: seq<Use>, r: Session) {
    s.lastSeenAt <= r.lastSeenAt &&
    (forall u :: u in uses ==> u.at <= r.lastSeenAt) &&
    (Use(r.lastIp, r.lastSeenAt) in uses ||
     (r.lastSeenAt == s.lastSeenAt && r.lastIp == s.lastIp && forall u :: u in uses ==> u.at < s.lastSeenAt))
  }

  lemma {:induction false} UsesReachTheLatest(s: Session, uses: seq<Use>)
    ensures IsLatest(s, uses, AfterUses(s, uses))
    ensures AfterUses(s, uses) == s.(lastIp := AfterUses(s, uses).lastIp, lastSeenAt := AfterUses(s, uses).lastSeenAt)
    decreases |uses|
  {
    if uses != [] {
      var before := uses[..|uses| - 1];
      UsesReachTheLatest(s, before);
      assert uses == before + [uses[|uses| - 1]];
    }
  }

  lemma SameMembers(a: seq<Use>, b: seq<Use>, u: Use)
    requires multiset(a) == multiset(b)
    ensures u in a <==> u in b
  {
    assert u in multiset(a) <==> u in multiset(b);
  }

  /** No use is later than this one, and the session was not seen after it. */
  ghost predicate Decides(s: Session, uses: seq<Use>, u: Use) {
    u in uses && s.lastSeenAt <= u.at && forall v :: v in uses ==> v.at <= u.at
  }

  /** All uses at the latest instant come from one address. */
  ghost predicate OneLatestAddress(s: Session, uses: seq<Use>) {
    forall u, v :: Decides(s, uses, u) && Decides(s, uses, v) ==> u.ip == v.ip
  }

  /** Successful touches can arrive in any order if those at the latest instant agree on the address:
      the register converges to the same row. */
  lemma TouchesConverge(s: Session, a: seq<Use>, b: seq<Use>)
    requires multiset(a) == multiset(b) && OneLatestAddress(s, a)
    ensures AfterUses(s, a) == AfterUses(s, b)
  {
    UsesReachTheLatest(s, a);
    UsesReachTheLatest(s, b);
    forall u: Use
      ensures u in a <==> u in b
    {
      SameMembers(a, b, u);
    }
    LatestAgree(s, a, b, AfterUses(s, a), AfterUses(s, b));
  }

  lemma LatestAgree(s: Session, a: seq<Use>, b: seq<Use>, p: Session, q: Session)
    requires OneLatestAddress(s, a) && (forall u: Use :: u in a <==> u in b) && IsLatest(s, a, p) && IsLatest(s, b, q)
    ensures p.lastSeenAt == q.lastSeenAt && p.lastIp == q.lastIp
  {
    var u, v := Use(p.lastIp, p.lastSeenAt), Use(q.lastIp, q.lastSeenAt);
    if u in a && v in b {
      assert Decides(s, a, u) && Decides(s, a, v);
    }
  }

  /** Some order of the uses leaves the address of any use at the latest instant: let it come last. */
  lemma AnyLatestUseCanWin(s: Session, uses: seq<Use>, u: Use) returns (other: seq<Use>)
    requires Decides(s, uses, u)
    ensures multiset(other) == multiset(uses) && AfterUses(s, other).lastIp == u.ip
  {
    var i :| 0 <= i < |uses| && uses[i] == u;
    var rest := uses[..i] + uses[i + 1..];
    other := rest + [u];
    assert uses == uses[..i] + [uses[i]] + uses[i + 1..];
    assert other[..|rest|] == rest;
    UsesReachTheLatest(s, rest);
    assert forall v :: v in rest ==> v in uses;
  }

  /** Every order of the uses ends in the same row. */
  ghost predicate Converges(s: Session, uses: seq<Use>) {
    forall other: seq<Use> :: multiset(other) == multiset(uses) ==> AfterUses(s, other) == AfterUses(s, uses)
  }

  /** Touches converge exactly when those at the latest instant agree on the address; ties before it
      do no harm. */
  lemma ConvergesIffOneLatestAddress(s: Session, uses: seq<Use>)
    ensures Converges(s, uses) <==> OneLatestAddress(s, uses)
  {
    if OneLatestAddress(s, uses) {
      forall other: seq<Use> | multiset(other) == multiset(uses)
        ensures AfterUses(s, other) == AfterUses(s, uses)
      {
        TouchesConverge(s, uses, other);
      }
    }
    if Converges(s, uses) {
      forall u, v | Decides(s, uses, u) && Decides(s, uses, v)
        ensures u.ip == v.ip
      {
        var p := AnyLatestUseCanWin(s, uses, u);
        var q := AnyLatestUseCanWin(s, uses, v);
        assert AfterUses(s, p) == AfterUses(s, uses) && AfterUses(s, q) == AfterUses(s, uses);
      }
    }
  }

  predicate DistinctInstants(uses: seq<Use>) {
    forall i, j :: 0 <= i < j < |uses| ==> uses[i].at != uses[j].at
  }

  /** In particular touches with distinct instants always converge. */
  lemma DistinctTouchesConverge(s: Session, uses: seq<Use>)
    requires DistinctInstants(uses)
    ensures Converges(s, uses)
  {
    ConvergesIffOneLatestAddress(s, uses);
  }

  /** Of two uses at one latest instant the later arrival stays. */
  lemma TiesAreDecidedByArrival(s: Session, u: Use, v: Use)
    requires u.at == v.at && s.lastSeenAt <= u.at
    ensures AfterUses(s, [u, v]).lastIp == v.ip && AfterUses(s, [v, u]).lastIp == u.ip
  {
    assert [u, v][..1] == [u] && [v, u][..1] == [v];
    assert [u][..0] == [] && [v][..0] == [];
    assert AfterUses(s, []) == s;
    assert AfterUses(s, [u]) == TouchRow(s, u.ip, u.at) && AfterUses(s, [v]) == TouchRow(s, v.ip, v.at);
  }

  function Touches(id: nat, uses: seq<Use>): seq<Event> {
    seq(|uses|, i requires 0 <= i < |uses| => Touched(Uuid(id), uses[i].ip, uses[i].at))
  }

  /** On an active session every touch before the deadline succeeds, so a run of them is exactly
      the fold that converges. */
  lemma {:induction false} TouchRunIsFold(t: Table, id: nat, uses: seq<Use>)
    requires id in t && t[id].revokedAt.None?
    requires forall u :: u in uses ==> u.at != ZERO_TIME && u.at < t[id].expiresAt
    ensures Run(t, Touches(id, uses)) == t[id := AfterUses(t[id], uses)]
    decreases |uses|
  {
    if uses == [] {
      assert Touches(id, uses) == [];
    } else {
      var n := |uses| - 1;
      var before := uses[..n];
      TouchRunIsFold(t, id, before);
      UsesReachTheLatest(t[id], before);
      assert uses[n] in uses;
      assert Touches(id, uses) == Touches(id, before) + [Touched(Uuid(id), uses[n].ip, uses[n].at)];
      assert Touches(id, uses)[..n] == Touches(id, before);
    }
  }

  // ---------------------------------------------------------------- authentication

  /** A parsed bearer token; its digest was recomputed with the server's pepper. */
  datatype Token = Unparsable | Capability(session: nat, digest: Digest)

  datatype Identity = Identity(session: IdText, createdAt: Time, expiresAt: Time)

  /** The check of the fetched record; now is read after the fetch. */
  function CheckRecord(record: Session, digest: Digest, now: Time): Option<SessionError> {
    if record.secret != digest then Some(InvalidCapability)
    else if record.revokedAt.Some? then Some(Revoked)
    else if record.expiresAt <= now then Some(Expired)
    else None
  }

  predicate Matches(t: Table, token: Token) {
    token.Capability? && token.session in t && t[token.session].secret == token.digest
  }

  /** Authenticate fetches the record from t, then touches it in the table that the events of
      other callers have made of t meanwhile. */
  function Authenticate(t: Table, token: Token, ip: Digest, now: Time, between: seq<Event>)
    : (Table, Result<Identity, SessionError>)
  {
    if token.Unparsable? || token.session !in t then (Run(t, between), Err(InvalidCapability))
    else
      var record := t[token.session];
      var refused := CheckRecord(record, token.digest, now);
      if refused.Some? then (Run(t, between), Err(refused.value))
      else
        var (r, error) := Touch(Run(t, between), Uuid(token.session), ip, now);
        (r, if error.Some? then Err(error.value) else Ok(Identity(record.id, record.createdAt, record.expiresAt)))
  }

  /** Authentication succeeds exactly when the capability matches, the deadline lies ahead, and the
      session is revoked neither before the fetch nor between the fetch and the touch. */
  lemma AuthenticateIff(t: Table, token: Token, ip: Digest, now: Time, between: seq<Event>)
    ensures Authenticate(t, token, ip, now, between).1.Ok? <==>
            token.Capability? && token.session in t && t[token.session].secret == token.digest &&
            t[token.session].revokedAt.None? && !RevokedIn(between, token.session) &&
            now != ZERO_TIME && now < t[token.session].expiresAt
  {
    if token.Capability? && token.session in t {
      RunKeepsFirstRevocation(t, between, token.session);
      FirstRevocationExists(between, token.session);
    }
  }

  /** A revocation that lands between the fetch and the touch always wins the race. */
  lemma ConcurrentRevokeWins(t: Table, token: Token, ip: Digest, now: Time, between: seq<Event>)
    requires token.Capability? && RevokedIn(between, token.session)
    ensures Authenticate(t, token, ip, now, between).1.Err?
    ensures Authenticate(t, token, ip, now, between).0 == Run(t, between)
  {
    AuthenticateIff(t, token, ip, now, between);
  }

  // ---------------------------------------------------------------- answers

  /** A new session is stored as it was handed over, unless its identifier or its secret is taken. */
  lemma CreateAnswers(t: Table, s: Session)
    ensures var (r, answer) := Create(t, s);
            var wellFormed := s.id.Uuid? && s.createdAt != 0 && s.lastSeenAt != 0 && s.expiresAt != 0 &&
                              s.createdAt < s.expiresAt && s.revokedAt.None?;
            var taken := s.id.Uuid? && (s.id.id in t || exists id :: id in t && t[id].secret == s.secret);
            (answer == Err(Invalid) <==> !wellFormed) && (answer == Err(Conflict) <==> wellFormed && taken) &&
            (answer.Ok? <==> wellFormed && !taken) && (answer.Err? ==> r == t) &&
            (answer.Ok? ==> answer == Ok(s) && s.id.Uuid? && r == t[s.id.id := s])
  {
  }

  /** A touch is accepted iff the session is there, unrevoked and unexpired; it moves the last use
      forward and takes the address of a use that is not older. */
  lemma TouchAnswers(t: Table, id: IdText, ip: Digest, at: Time)
    ensures var (r, error) := Touch(t, id, ip, at);
            var live := id.Uuid? && id.id in t && t[id.id].revokedAt.None? && at < t[id.id].expiresAt;
            (error == Some(NotFound) <==> !id.Uuid?) && (error == Some(Invalid) <==> id.Uuid? && at == 0) &&
            (error == Some(Inactive) <==> id.Uuid? && at != 0 && !live) && (error.None? <==> at != 0 && live) &&
            (error.Some? ==> r == t) &&
            (error.None? ==>
               id.id in r && r == t[id.id := r[id.id]] &&
               var s, k := t[id.id], r[id.id];
               k == s.(lastIp := k.lastIp, lastSeenAt := k.lastSeenAt) && IsLater(k.lastSeenAt, s.lastSeenAt, at) &&
               k.lastIp == if at < s.lastSeenAt then s.lastIp else ip)
  {
  }

  /** A revocation is accepted iff the session is there; it sets the instant once. */
  lemma RevokeAnswers(t: Table, id: IdText, at: Time)
    ensures var (r, error) := Revoke(t, id, at);
            (error == Some(NotFound) <==> !id.Uuid? || (at != 0 && id.id !in t)) &&
            (error == Some(Invalid) <==> id.Uuid? && at == 0) && (error.Some? ==> r == t) &&
            (error.None? ==>
               id.id in t && id.id in r && r == t[id.id := r[id.id]] &&
               var s, k := t[id.id], r[id.id];
               k == s.(revokedAt := k.revokedAt) &&
               if s.revokedAt.Some? then k == s else k.revokedAt == Some(at))
  {
  }

  /** Which error a failed authentication reports. */
  lemma AuthenticateErrors(t: Table, token: Token, ip: Digest, now: Time, between: seq<Event>)
    ensures var (r, answer) := Authenticate(t, token, ip, now, between);
            var known := Matches(t, token);
            (answer == Err(InvalidCapability) <==> !known) &&
            (answer == Err(Revoked) <==> known && t[token.session].revokedAt.Some?) &&
            (answer == Err(Expired) <==>
               known && t[token.session].revokedAt.None? && now >= t[token.session].expiresAt) &&
            (answer == Err(Inactive) <==>
               known && t[token.session].revokedAt.None? && now < t[token.session].expiresAt && now != 0 &&
               RevokedIn(between, token.session)) &&
            (answer.Err? ==> r == Run(t, between))
  {
    if Matches(t, token) {
      RunKeepsFirstRevocation(t, between, token.session);
      FirstRevocationExists(between, token.session);
      TouchAnswers(Run(t, between), Uuid(token.session), ip, now);
    }
  }

  /** A successful authentication answers the identity and deadline of the session and records the use
      in the register that the other callers left, and nothing else. */
  lemma AuthenticateRecordsUse(t: Table, token: Token, ip: Digest, now: Time, between: seq<Event>)
    requires Authenticate(t, token, ip, now, between).1.Ok?
    ensures var (r, answer) := Authenticate(t, token, ip, now, between);
            token.Capability? && token.session in t && token.session in r && token.session in Run(t, between) &&
            answer.value.session == t[token.session].id && answer.value.createdAt == t[token.session].createdAt &&
            answer.value.expiresAt == t[token.session].expiresAt &&
            r == Run(t, between)[token.session := r[token.session]] &&
            var s, k := Run(t, between)[token.session], r[token.session];
            k == s.(lastIp := k.lastIp, lastSeenAt := k.lastSeenAt) && IsLater(k.lastSeenAt, s.lastSeenAt, now) &&
            k.lastIp == if now < s.lastSeenAt then s.lastIp else ip
  {
    AuthenticateIff(t, token, ip, now, between);
    RunKeepsFirstRevocation(t, between, token.session);
    TouchAnswers(Run(t, between), Uuid(token.session), ip, now);
  }
}
