/**
 The repositories and the service that keep the admin tables, one method per
 request. Each method is proved to make the change that AuthTables describes.
 */
module AdminAuth {
  import opened Wrappers
  import opened JsText
  import opened AuthTables
  import opened SessionHistory
  import Lockout

  class AdminUsers {
    var rows: map<nat, Account>
    const byEmail: map<string, nat>

    constructor (rows: map<nat, Account>, byEmail: map<string, nat>)
      ensures this.rows == rows && this.byEmail == byEmail
    {
      this.rows, this.byEmail := rows, byEmail;
    }
  }

  class AdminSessions {
    var rows: map<Digest, Session>

    constructor ()
      ensures rows == map[]
    {
      rows := map[];
    }

    /** INSERT; the unique index on token_hash is met by fresh tokens. */
    method Create(hash: Digest, s: Session)
      modifies this
      ensures rows == old(rows)[hash := s]
    {
      rows := rows[hash := s];
    }

    method Touch(id: string, now: int)
      modifies this
      ensures rows == Touched(old(rows), id, now)
    {
      rows := map h | h in rows :: if rows[h].id == id then rows[h].(lastSeen := now) else rows[h];
    }

    method RevokeByTokenHash(hash: Digest, now: int) returns (revoked: bool)
      modifies this
      ensures revoked <==> hash in old(rows) && old(rows)[hash].revokedAt.None?
      ensures rows == RevokedOne(old(rows), hash, now)
    {
      revoked := hash in rows && rows[hash].revokedAt.None?;
      if revoked {
        rows := rows[hash := rows[hash].(revokedAt := Some(now))];
      }
    }

    method RevokeAllForAdmin(adminId: nat, now: int)
      modifies this
      ensures rows == RevokedAll(old(rows), adminId, now)
      ensures rows.Keys == old(rows).Keys
      ensures forall h :: h in rows && rows[h].adminId == adminId ==>
                rows[h] == old(rows)[h].(revokedAt := if old(rows)[h].revokedAt.Some? then old(rows)[h].revokedAt else Some(now))
      ensures forall h :: h in rows && rows[h].adminId != adminId ==> rows[h] == old(rows)[h]
    {
      rows := map h | h in rows ::
        if rows[h].adminId == adminId && rows[h].revokedAt.None? then rows[h].(revokedAt := Some(now)) else rows[h];
    }

    method Purge(now: int)
      modifies this
      ensures rows == Purged(old(rows), now)
    {
      rows := map h | h in rows && !(rows[h].expiresAt < now
                                     || (rows[h].revokedAt.Some? && rows[h].revokedAt.value < now - 7 * DAY)) :: rows[h];
    }
  }

  class LoginAttempts {
    var rows: seq<Attempt>

    constructor ()
      ensures rows == []
    {
      rows := [];
    }

    method Record(identifier: string, ip: string, ok: bool, now: int)
      modifies this
      ensures rows == old(rows) + [Recorded(identifier, ip, ok, now)]
    {
      rows := rows + [Attempt(Slice(identifier, 254), Slice(ip, 64), ok, now)];
    }

    /** The two counters of the query, one pass over the table. */
    method IsBlockedNow(identifier: string, ip: string, cfg: Config, now: int) returns (blocked: bool)
      ensures forall t: Tables :: t.attempts == rows && t.now == now && (forall a :: a in rows ==> a.at <= now)
                ==> (blocked <==> IsBlocked(cfg, t, identifier, ip))
    {
      var lo := now - cfg.windowMinutes * MINUTE;
      var byIdentifier, byIp := 0, 0;
      for i := 0 to |rows|
        invariant (forall a :: a in rows ==> a.at <= now) ==>
                    && byIdentifier == Failures(rows[..i], ByIdentifier(identifier), lo + 1, now)
                    && byIp == Failures(rows[..i], ByIp(ip), lo + 1, now)
      {
        var a := rows[i];
        assert a in rows && rows[..i + 1][..i] == rows[..i];
        if !a.ok && a.at > lo {
          if a.identifier == identifier {
            byIdentifier := byIdentifier + 1;
          }
          if a.ip == ip {
            byIp := byIp + 1;
          }
        }
      }
      assert rows[..|rows|] == rows;
      blocked := byIdentifier >= cfg.maxPerIdentifier || byIp >= cfg.maxPerIp;
    }

    method PurgeOlderThan(days: nat, now: int)
      modifies this
      ensures rows == KeepFrom(old(rows), now - days * DAY)
    {
      var kept: seq<Attempt> := [];
      for i := 0 to |rows|
        invariant rows == old(rows) && kept == KeepFrom(rows[..i], now - days * DAY)
      {
        assert rows[..i + 1][..i] == rows[..i];
        if !(rows[i].at < now - days * DAY) {
          kept := kept + [rows[i]];
        }
      }
      assert rows[..|rows|] == rows;
      rows := kept;
    }
  }

  class Service {
    const cs: Casing
    const cfg: Config
    const users: AdminUsers
    const sessions: AdminSessions
    const attempts: LoginAttempts
    var now: int

    constructor (cs: Casing, cfg: Config, users: AdminUsers, sessions: AdminSessions, attempts: LoginAttempts, now: int)
      ensures this.cs == cs && this.cfg == cfg && this.users == users && this.sessions == sessions && this.attempts == attempts
      ensures this.now == now
    {
      this.cs, this.cfg, this.users, this.sessions, this.attempts, this.now := cs, cfg, users, sessions, attempts, now;
    }

    /** The four tables and the clock, as one value. */
    ghost function State(): Tables
      reads this, users, sessions, attempts
    {
      Tables(users.rows, users.byEmail, sessions.rows, attempts.rows, now)
    }

    /** No attempt is dated in the future. */
    ghost predicate Valid()
      reads this, attempts
    {
      forall a :: a in attempts.rows ==> a.at <= now
    }

    method Login(email: Option<string>, password: Option<string>, ip: string, mint: Mint) returns (r: LoginResult)
      requires Valid()
      modifies sessions, attempts
      ensures Valid()
      ensures r == old(LoginAnswer(cs, cfg, State(), email, password, ip, mint))
      ensures State() == old(AfterLogin(cs, cfg, State(), email, password, ip, mint))
    {
      var identifier := NormalizeEmail(cs, email);
      hide NormalizeEmail, IsBlocked, RevokedAll;
      var blocked := attempts.IsBlockedNow(identifier, ip, cfg, now);
      assert blocked <==> IsBlocked(cfg, State(), identifier, ip);
      if blocked {
        return Refused(LockedOut);
      }
      if identifier == "" || password.None? || password.value == "" {
        attempts.Record(identifier, ip, false, now);
        return Refused(MissingCredentials);
      }
      var key := cs.ToLower(identifier);
      if key !in users.byEmail || users.byEmail[key] !in users.rows {
        attempts.Record(identifier, ip, false, now);
        return Refused(NoAccount);
      }
      var id := users.byEmail[key];
      var account := users.rows[id];
      var passwordOk := account.passwordHash == Digest(password.value);
      if !passwordOk || !account.active {
        attempts.Record(identifier, ip, false, now);
        return Refused(if passwordOk then Inactive else BadPassword);
      }
      sessions.RevokeAllForAdmin(id, now);
      sessions.Create(Digest(mint.token), Session(mint.id, id, Digest(mint.csrf), now, now + cfg.absoluteHours * HOUR, None));
      attempts.Record(identifier, ip, true, now);
      return LoggedIn(id, mint);
    }

    method LoadSession(token: string, touchWorks: bool) returns (r: Option<Session>)
      modifies sessions
      ensures r == old(LoadAnswer(cfg, State(), token))
      ensures State() == old(AfterLoad(cfg, State(), token, touchWorks))
    {
      if token == "" {
        return None;
      }
      var hash := Digest(token);
      if hash !in sessions.rows {
        return None;
      }
      var s := sessions.rows[hash];
      if s.revokedAt.None? && s.expiresAt > now && s.lastSeen > now - cfg.idleMinutes * MINUTE
         && s.adminId in users.rows && users.rows[s.adminId].active
      {
        if touchWorks {
          sessions.Touch(s.id, now);
        }
        return Some(s);
      }
      return None;
    }

    method Logout(token: string) returns (revoked: bool)
      modifies sessions
      ensures revoked <==> token != "" && old(Revocable(sessions.rows, Digest(token)))
      ensures State() == old(AfterLogout(State(), token))
    {
      if token == "" {
        return false;
      }
      revoked := sessions.RevokeByTokenHash(Digest(token), now);
    }

    /** A request behind loadAdminSession, requireAdminAuth and requireAdminCsrf. */
    method PassGate(verb: Verb, token: string, submitted: Option<string>) returns (answer: GateAnswer)
      modifies sessions
      ensures answer == old(Gate(cfg, State(), verb, token, submitted))
      ensures State() == old(AfterLoad(cfg, State(), token, true))
    {
      var session := LoadSession(token, true);
      if session.None? {
        return if verb.Get? then ToLogin else Unauthenticated;
      }
      if !verb.Write? {
        return Pass;
      }
      if submitted.None? || submitted.value == "" || Digest(submitted.value) != session.value.csrfHash {
        return CsrfInvalid;
      }
      return Pass;
    }

    method Handle(e: Event)
      requires Valid()
      modifies this, users, sessions, attempts
      ensures Valid()
      ensures State() == old(AfterEvent(cs, cfg, State(), e))
    {
      match e
      case Login(email, password, ip, mint) =>
        var _ := Login(email, password, ip, mint);
      case Load(token, touched) =>
        var _ := LoadSession(token, touched);
      case Logout(token) =>
        var _ := Logout(token);
      case SetActive(adminId, active) =>
        if adminId in users.rows {
          users.rows := users.rows[adminId := users.rows[adminId].(active := active)];
        }
      case Tick(ms) =>
        now := now + ms;
      case Purge =>
        sessions.Purge(now);
      case PurgeAttempts(days) =>
        Lockout.KeepFromSubset(attempts.rows, now - days * DAY);
        attempts.PurgeOlderThan(days, now);
    }

    /** A serial run of requests ends in the state that the run theorems speak of. */
    method HandleAll(events: seq<Event>)
      requires Valid()
      modifies this, users, sessions, attempts
      ensures Valid()
      ensures State() == old(AfterRun(cs, cfg, State(), events))
    {
      hide AfterEvent;
      for i := 0 to |events|
        invariant Valid()
        invariant State() == old(AfterRun(cs, cfg, State(), events[..i]))
      {
        assert events[..i + 1][..i] == events[..i];
        Handle(events[i]);
      }
      assert events[..|events|] == events;
    }
  }
}
