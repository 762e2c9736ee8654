/** Session lifecycle of the authentication layer: a table of sessions keyed
    by the hashed session token, with a 30-day lifetime that slides forward
    when a session is used with 15 days or less left. The clock is the `now`
    parameter (milliseconds since the epoch); the token hash is a function
    the store is built with. */
module Auth {
  import opened Common

  const DayMs: int := 1000 * 60 * 60 * 24
  /** Lifetime of a new or renewed session: 30 days. */
  const SessionLifetimeMs: int := 30 * DayMs
  /** A session this close to expiry (or closer) is renewed: 15 days. */
  const RenewalWindowMs: int := 15 * DayMs

  datatype Session = Session(id: string, userId: string, expiresAt: int)

  /** `{ session, user }` or `{ session: null, user: null }`; the user is
      identified by the session's `userId`. */
  datatype ValidationResult = NoSession | Validated(session: Session, user: string)

  /** What a request does to the "session" cookie. */
  datatype CookieAction = KeepCookie | SetCookie(token: string, expiresAt: int) | DeleteCookie

  type SessionTable = map<string, Session>

  /** Every row is stored under its own id. */
  ghost predicate Keyed(table: SessionTable)
  {
    forall id :: id in table ==> table[id].id == id
  }

  /** The row `createSession` writes. */
  function NewSession(id: string, userId: string, now: int): (s: Session)
    ensures s.id == id && s.userId == userId
    ensures s.expiresAt - now == 2592000000
  {
    Session(id, userId, now + SessionLifetimeMs)
  }

  /** The decision `validateSessionToken` makes for session id `id` at time
      `now`: the result it returns and the table it leaves behind. */
  function ValidateInTable(table: SessionTable, id: string, now: int): (out: (ValidationResult, SessionTable))
    // unknown id: nothing found, nothing changed
    ensures id !in table ==> out == (NoSession, table)
    // expired (the expiry instant itself counts as expired): the row is deleted
    ensures id in table && now >= table[id].expiresAt ==> out == (NoSession, table - {id})
    ensures out.0.Validated? <==> id in table && now < table[id].expiresAt
    ensures out.0.Validated? ==>
      var before := table[id];
      var s := out.0.session;
      && s.id == before.id && s.userId == before.userId && out.0.user == before.userId
      && s.expiresAt > now
      && s.expiresAt >= before.expiresAt
      && out.1 == table[id := s]
      // 15 days or less left (exactly 15 included): renewed to now + 30 days
      && (now >= before.expiresAt - RenewalWindowMs ==> s.expiresAt == now + SessionLifetimeMs)
      // more than 15 days left: returned and stored unchanged
      && (now < before.expiresAt - RenewalWindowMs ==> s == before && out.1 == table)
    ensures out.1.Keys <= table.Keys
    ensures forall k :: k in out.1 && k != id ==> out.1[k] == table[k]
    ensures Keyed(table) ==> Keyed(out.1)
  {
    if id !in table then (NoSession, table)
    else
      var session := table[id];
      if now >= session.expiresAt then (NoSession, table - {id})
      else if now >= session.expiresAt - RenewalWindowMs then
        var renewed := session.(expiresAt := now + SessionLifetimeMs);
        (Validated(renewed, session.userId), table[id := renewed])
      else (Validated(session, session.userId), table)
  }

  /** The table after `deleteMany({ where: { userId } })`. */
  function WithoutUser(table: SessionTable, userId: string): (r: SessionTable)
    ensures forall id :: id in r <==> id in table && table[id].userId != userId
    ensures forall id :: id in r ==> r[id] == table[id]
    ensures Keyed(table) ==> Keyed(r)
  {
    map id | id in table && table[id].userId != userId :: table[id]
  }

  /** A session created at `created` is returned unchanged by every
      validation during its first 15 days, and renewed during the next 15. */
  lemma ValidateFreshSession(table: SessionTable, id: string, userId: string, created: int, now: int)
    requires created <= now
    ensures var t := table[id := NewSession(id, userId, created)];
      && (now < created + SessionLifetimeMs - RenewalWindowMs ==>
            ValidateInTable(t, id, now) == (Validated(NewSession(id, userId, created), userId), t))
      && (created + SessionLifetimeMs - RenewalWindowMs <= now < created + SessionLifetimeMs ==>
            ValidateInTable(t, id, now).0 == Validated(NewSession(id, userId, now), userId))
      && (now >= created + SessionLifetimeMs ==> ValidateInTable(t, id, now).0 == NoSession)
  {
  }

  /** After all sessions of a user are invalidated, no token validates to
      that user any more. */
  lemma NoValidationAfterInvalidateAll(table: SessionTable, userId: string, id: string, now: int)
    ensures var r := ValidateInTable(WithoutUser(table, userId), id, now).0;
      r.Validated? ==> r.user != userId
  {
  }

  /** The session table (the ORM's `session` model) and the operations on it. */
  class SessionStore {
    /** encodeHexLowerCase(sha256(utf8(token))): the id a token is stored under. */
    const sessionIdOf: string -> string
    var sessions: SessionTable

    ghost predicate Valid()
      reads this
    {
      Keyed(sessions)
    }

    constructor (sessionIdOf: string -> string)
      ensures this.sessionIdOf == sessionIdOf
      ensures sessions == map[] && Valid()
    {
      this.sessionIdOf := sessionIdOf;
      sessions := map[];
    }

    /** createSession: inserts a session expiring 30 days from `now`. The
        insert fails (a unique-constraint error) when the id is taken. */
    method CreateSession(token: string, userId: string, now: int) returns (r: Option<Session>)
      requires Valid()
      modifies this
      ensures Valid()
      ensures var id := sessionIdOf(token);
        if id in old(sessions) then r == None && sessions == old(sessions)
        else r == Some(NewSession(id, userId, now)) && sessions == old(sessions)[id := r.value]
    {
      var id := sessionIdOf(token);
      if id in sessions {
        r := None;
      } else {
        var session := NewSession(id, userId, now);
        sessions := sessions[id := session];
        r := Some(session);
      }
    }

    /** validateSessionToken: look the hashed token up, delete the row when
        it has expired, slide its expiry when 15 days or less are left. */
    method ValidateSessionToken(token: string, now: int) returns (r: ValidationResult)
      requires Valid()
      modifies this
      ensures Valid()
      ensures (r, sessions) == ValidateInTable(old(sessions), sessionIdOf(token), now)
    {
      var id := sessionIdOf(token);
      if id !in sessions {
        return NoSession;
      }
      var session := sessions[id];
      if now >= session.expiresAt {
        sessions := sessions - {id};
        return NoSession;
      }
      if now >= session.expiresAt - RenewalWindowMs {
        var newExpiresAt := now + SessionLifetimeMs;
        sessions := sessions[session.id := session.(expiresAt := newExpiresAt)];
        session := session.(expiresAt := newExpiresAt);
      }
      r := Validated(session, session.userId);
    }

    /** invalidateSession: delete one row; deleting a missing row fails. */
    method InvalidateSession(sessionId: string) returns (ok: bool)
      requires Valid()
      modifies this
      ensures Valid()
      ensures ok == (sessionId in old(sessions))
      ensures sessions == old(sessions) - {sessionId}
    {
      ok := sessionId in sessions;
      if ok {
        sessions := sessions - {sessionId};
      }
    }

    /** invalidateAllSessions: delete every row of one user. */
    method InvalidateAllSessions(userId: string)
      requires Valid()
      modifies this
      ensures Valid()
      ensures sessions == WithoutUser(old(sessions), userId)
    {
      sessions := WithoutUser(sessions, userId);
    }

    /** validateRequest: a missing or empty "session" cookie gives no
        session and touches nothing; otherwise the token is validated and the
        cookie is refreshed with the new expiry, or deleted. */
    method ValidateRequest(cookie: Option<string>, now: int) returns (r: ValidationResult, action: CookieAction)
      requires Valid()
      modifies this
      ensures Valid()
      ensures cookie == None || cookie == Some("") ==>
        r == NoSession && action == KeepCookie && sessions == old(sessions)
      ensures cookie.Some? && cookie.value != "" ==>
        && (r, sessions) == ValidateInTable(old(sessions), sessionIdOf(cookie.value), now)
        && action == (if r.Validated? then SetCookie(cookie.value, r.session.expiresAt) else DeleteCookie)
    {
      if cookie == None || cookie == Some("") {
        return NoSession, KeepCookie;
      }
      var token := cookie.value;
      r := ValidateSessionToken(token, now);
      if r.Validated? {
        action := SetCookie(token, r.session.expiresAt);
      } else {
        action := DeleteCookie;
      }
    }
  }
}
