/** The session store and the manager in front of it, proved to be the table functions. */
module SessionStore {
  import opened Common
  import S = Sessions
  import opened Sessions

  class PostgresSessionStore {
    var sessions: Table

    constructor ()
      ensures sessions == map[]
    {
      sessions := map[];
    }

    method Create(s: Session) returns (r: Result<Session, SessionError>)
      modifies this
      ensures (sessions, r) == S.Create(old(sessions), s)
    {
      if !ValidNew(s) {
        return Err(Invalid);
      }
      if s.id.id in sessions || SecretTaken(sessions, s.secret) {
        return Err(Conflict);
      }
      sessions := sessions[s.id.id := s];
      r := Ok(s);
    }

    method TouchActive(id: IdText, ip: Digest, at: Time) returns (error: Option<SessionError>)
      modifies this
      ensures (sessions, error) == Touch(old(sessions), id, ip, at)
    {
      if !id.Uuid? {
        return Some(NotFound);
      }
      if at == ZERO_TIME {
        return Some(Invalid);
      }
      if id.id !in sessions || sessions[id.id].revokedAt.Some? || sessions[id.id].expiresAt <= at {
        return Some(Inactive);
      }
      var s := sessions[id.id];
      sessions := sessions[id.id := s.(lastIp := if s.lastSeenAt <= at then ip else s.lastIp,
                                       lastSeenAt := Later(s.lastSeenAt, at))];
      error := None;
    }

    method Revoke(id: IdText, at: Time) returns (error: Option<SessionError>)
      modifies this
      ensures (sessions, error) == S.Revoke(old(sessions), id, at)
    {
      if !id.Uuid? {
        return Some(NotFound);
      }
      if at == ZERO_TIME {
        return Some(Invalid);
      }
      if id.id !in sessions {
        return Some(NotFound);
      }
      var s := sessions[id.id];
      sessions := sessions[id.id := s.(revokedAt := if s.revokedAt.Some? then s.revokedAt else Some(at))];
      error := None;
    }

    /** What other callers do to the store while a sequence of ours is between two statements. */
    method Interleave(es: seq<Event>)
      modifies this
      ensures sessions == Run(old(sessions), es)
    {
      var i := 0;
      while i < |es|
        invariant 0 <= i <= |es|
        invariant sessions == Run(old(sessions), es[..i])
      {
        assert es[..i + 1][..i] == es[..i];
        match es[i] {
          case Created(s) => var _ := Create(s);
          case Touched(id, ip, at) => var _ := TouchActive(id, ip, at);
          case RevokeAsked(id, at) => var _ := Revoke(id, at);
        }
        i := i + 1;
      }
      assert es[..i] == es;
    }
  }

  class Manager {
    const store: PostgresSessionStore

    constructor (store: PostgresSessionStore)
      ensures this.store == store
    {
      this.store := store;
    }

    method Authenticate(token: Token, ip: Digest, now: Time, between: seq<Event>)
        returns (r: Result<Identity, SessionError>)
      modifies store
      ensures (store.sessions, r) == S.Authenticate(old(store.sessions), token, ip, now, between)
    {
      if token.Unparsable? || token.session !in store.sessions {
        store.Interleave(between);
        return Err(InvalidCapability);
      }
      var record := store.sessions[token.session];
      store.Interleave(between);
      if record.secret != token.digest {
        return Err(InvalidCapability);
      }
      if record.revokedAt.Some? {
        return Err(Revoked);
      }
      if now >= record.expiresAt {
        return Err(Expired);
      }
      var error := store.TouchActive(Uuid(token.session), ip, now);
      if error.Some? {
        return Err(error.value);
      }
      r := Ok(Identity(record.id, record.createdAt, record.expiresAt));
    }

    /** The call reaches the store as one more revocation after the other callers' events exactly
        when the capability matches a live, unrevoked record; otherwise it leaves no trace. However
        many calls race, the session ends revoked at the first instant that reached the store. */
    method Revoke(token: Token, now: Time, between: seq<Event>) returns (error: Option<SessionError>)
      modifies store
      ensures var t := old(store.sessions);
              var live := Matches(t, token) && t[token.session].revokedAt.None? && now < t[token.session].expiresAt;
              store.sessions == Run(t, if live then between + [RevokeAsked(Uuid(token.session), now)] else between)
      ensures var t := old(store.sessions);
              error ==
                if !Matches(t, token) then Some(InvalidCapability)
                else if t[token.session].revokedAt.Some? then None
                else if now >= t[token.session].expiresAt then Some(Expired)
                else if now == ZERO_TIME then Some(Invalid)
                else None
      ensures var t := old(store.sessions);
              error.None? ==>
                Matches(t, token) && token.session in store.sessions &&
                store.sessions[token.session].revokedAt ==
                  if t[token.session].revokedAt.Some? then t[token.session].revokedAt
                  else Coalesce(FirstRevocation(between, token.session), now)
    {
      if token.Unparsable? || token.session !in store.sessions {
        store.Interleave(between);
        return Some(InvalidCapability);
      }
      var record := store.sessions[token.session];
      RunKeepsFirstRevocation(store.sessions, between, token.session);
      store.Interleave(between);
      if record.secret != token.digest {
        return Some(InvalidCapability);
      }
      if record.revokedAt.Some? {
        return None;
      }
      if now >= record.expiresAt {
        return Some(Expired);
      }
      assert (between + [RevokeAsked(Uuid(token.session), now)])[..|between|] == between;
      error := store.Revoke(Uuid(token.session), now);
    }
  }
}
