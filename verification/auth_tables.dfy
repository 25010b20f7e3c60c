/**
 The admin tables as values, and what each request does to them. Times are in
 milliseconds on one clock. Hashes are injective; minted tokens come from outside.
 */
module AuthTables {
  import opened Wrappers
  import opened JsText

  /** sha256 and Argon2id, as far as equality of hashes goes. */
  datatype Digest = Digest(of: string)

  datatype Account = Account(passwordHash: Digest, active: bool)

  datatype Session = Session(
    id: string, adminId: nat, csrfHash: Digest,
    lastSeen: int, expiresAt: int, revokedAt: Option<int>)

  datatype Attempt = Attempt(identifier: string, ip: string, ok: bool, at: int)

  /** users is keyed by id, byEmail is the unique index on lower(email), sessions is keyed by token_hash. */
  datatype Tables = Tables(
    users: map<nat, Account>, byEmail: map<string, nat>,
    sessions: map<Digest, Session>, attempts: seq<Attempt>, now: int)

  datatype Config = Config(
    absoluteHours: nat, idleMinutes: nat,
    maxPerIdentifier: nat, maxPerIp: nat, windowMinutes: nat)

  const MINUTE: int := 60_000
  const HOUR: int := 60 * MINUTE
  const DAY: int := 24 * HOUR

  function Slice(s: string, n: nat): string {
    if |s| > n then s[..n] else s
  }

  // --------------------------------------------------------- login attempts

  datatype Key = ByIdentifier(identifier: string) | ByIp(ip: string)

  predicate Matches(a: Attempt, key: Key) {
    match key
    case ByIdentifier(identifier) => a.identifier == identifier
    case ByIp(ip) => a.ip == ip
  }

  /** Failed attempts under a key from lo to hi, both included. */
  function Failures(attempts: seq<Attempt>, key: Key, lo: int, hi: int): nat {
    if attempts == [] then 0
    else
      var init, a := attempts[..|attempts| - 1], attempts[|attempts| - 1];
      Failures(init, key, lo, hi) + (if !a.ok && Matches(a, key) && lo <= a.at <= hi then 1 else 0)
  }

  /** A window of w milliseconds ending now: created_at > now() - w. */
  function RecentFailures(t: Tables, key: Key, w: int): nat {
    Failures(t.attempts, key, t.now - w + 1, t.now)
  }

  predicate IsBlocked(cfg: Config, t: Tables, identifier: string, ip: string) {
    var w := cfg.windowMinutes * MINUTE;
    || RecentFailures(t, ByIdentifier(identifier), w) >= cfg.maxPerIdentifier
    || RecentFailures(t, ByIp(ip), w) >= cfg.maxPerIp
  }

  function Recorded(identifier: string, ip: string, ok: bool, at: int): Attempt {
    Attempt(Slice(identifier, 254), Slice(ip, 64), ok, at)
  }

  function KeepFrom(attempts: seq<Attempt>, since: int): seq<Attempt> {
    if attempts == [] then []
    else
      var init, a := attempts[..|attempts| - 1], attempts[|attempts| - 1];
      KeepFrom(init, since) + (if a.at >= since then [a] else [])
  }

  // --------------------------------------------------------- sessions

  predicate Live(cfg: Config, t: Tables, s: Session) {
    && s.revokedAt.None?
    && s.expiresAt > t.now
    && s.lastSeen > t.now - cfg.idleMinutes * MINUTE
    && s.adminId in t.users && t.users[s.adminId].active
  }

  function FindValid(cfg: Config, t: Tables, hash: Digest): Option<Session> {
    if hash in t.sessions && Live(cfg, t, t.sessions[hash]) then Some(t.sessions[hash]) else None
  }

  function Touched(sessions: map<Digest, Session>, id: string, now: int): map<Digest, Session> {
    map h | h in sessions :: if sessions[h].id == id then sessions[h].(lastSeen := now) else sessions[h]
  }

  function RevokedAll(sessions: map<Digest, Session>, adminId: nat, now: int): map<Digest, Session> {
    map h | h in sessions ::
      if sessions[h].adminId == adminId && sessions[h].revokedAt.None? then sessions[h].(revokedAt := Some(now)) else sessions[h]
  }

  predicate Revocable(sessions: map<Digest, Session>, hash: Digest) {
    hash in sessions && sessions[hash].revokedAt.None?
  }

  function RevokedOne(sessions: map<Digest, Session>, hash: Digest, now: int): map<Digest, Session> {
    if Revocable(sessions, hash) then sessions[hash := sessions[hash].(revokedAt := Some(now))] else sessions
  }

  predicate Garbage(s: Session, now: int) {
    s.expiresAt < now || (s.revokedAt.Some? && s.revokedAt.value < now - 7 * DAY)
  }

  function Purged(sessions: map<Digest, Session>, now: int): map<Digest, Session> {
    map h | h in sessions && !Garbage(sessions[h], now) :: sessions[h]
  }

  // --------------------------------------------------------- requests

  /** What randomToken and randomUUID return for one login. */
  datatype Mint = Mint(token: string, csrf: string, id: string)

  datatype Reason = LockedOut | MissingCredentials | NoAccount | BadPassword | Inactive

  datatype LoginResult = LoggedIn(adminId: nat, mint: Mint) | Refused(reason: Reason)

  function NormalizeEmail(cs: Casing, email: Option<string>): string {
    Slice(cs.ToLower(Trim(if email.None? then "" else email.value)), 254)
  }

  /** findForLogin: the comparison is on lower(email). */
  function AccountFor(cs: Casing, t: Tables, identifier: string): Option<nat> {
    var key := cs.ToLower(identifier);
    if identifier != "" && key in t.byEmail && t.byEmail[key] in t.users then Some(t.byEmail[key]) else None
  }

  function LoginAnswer(cs: Casing, cfg: Config, t: Tables,
                       email: Option<string>, password: Option<string>, ip: string, mint: Mint): LoginResult {
    var identifier := NormalizeEmail(cs, email);
    if IsBlocked(cfg, t, identifier, ip) then Refused(LockedOut)
    else if identifier == "" || password.None? || password.value == "" then Refused(MissingCredentials)
    else
      var found := AccountFor(cs, t, identifier);
      if found.None? then Refused(NoAccount)
      else if t.users[found.value].passwordHash != Digest(password.value) then Refused(BadPassword)
      else if !t.users[found.value].active then Refused(Inactive)
      else LoggedIn(found.value, mint)
  }

  function NewSession(cfg: Config, adminId: nat, mint: Mint, now: int): Session {
    Session(mint.id, adminId, Digest(mint.csrf), now, now + cfg.absoluteHours * HOUR, None)
  }

  function AfterLogin(cs: Casing, cfg: Config, t: Tables,
                      email: Option<string>, password: Option<string>, ip: string, mint: Mint): Tables {
    var identifier := NormalizeEmail(cs, email);
    match LoginAnswer(cs, cfg, t, email, password, ip, mint)
    case LoggedIn(adminId, _) =>
      t.(sessions := RevokedAll(t.sessions, adminId, t.now)[Digest(mint.token) := NewSession(cfg, adminId, mint, t.now)],
         attempts := t.attempts + [Recorded(identifier, ip, true, t.now)])
    case Refused(LockedOut) => t
    case Refused(_) => t.(attempts := t.attempts + [Recorded(identifier, ip, false, t.now)])
  }

  function LoadAnswer(cfg: Config, t: Tables, token: string): Option<Session> {
    if token == "" then None else FindValid(cfg, t, Digest(token))
  }

  /** touch runs after the answer; its failure is swallowed. */
  function AfterLoad(cfg: Config, t: Tables, token: string, touched: bool): Tables {
    var found := LoadAnswer(cfg, t, token);
    if found.Some? && touched then t.(sessions := Touched(t.sessions, found.value.id, t.now)) else t
  }

  function AfterLogout(t: Tables, token: string): Tables {
    if token == "" then t else t.(sessions := RevokedOne(t.sessions, Digest(token), t.now))
  }

  /** csrfMatchesSession */
  predicate CsrfMatches(session: Option<Session>, submitted: Option<string>) {
    session.Some? && submitted.Some? && submitted.value != "" && Digest(submitted.value) == session.value.csrfHash
  }

  /** One request, tick of the clock, account change or clean-up. */
  datatype Event =
    | Login(email: Option<string>, password: Option<string>, ip: string, mint: Mint)
    | Load(token: string, touched: bool)
    | Logout(token: string)
    | SetActive(adminId: nat, active: bool)
    | Tick(ms: nat)
    | Purge
    | PurgeAttempts(days: nat)

  function AfterEvent(cs: Casing, cfg: Config, t: Tables, e: Event): Tables {
    match e
    case Login(email, password, ip, mint) => AfterLogin(cs, cfg, t, email, password, ip, mint)
    case Load(token, touched) => AfterLoad(cfg, t, token, touched)
    case Logout(token) => AfterLogout(t, token)
    case SetActive(adminId, active) =>
      if adminId in t.users then t.(users := t.users[adminId := t.users[adminId].(active := active)]) else t
    case Tick(ms) => t.(now := t.now + ms)
    case Purge => t.(sessions := Purged(t.sessions, t.now))
    case PurgeAttempts(days) => t.(attempts := KeepFrom(t.attempts, t.now - days * DAY))
  }

  function AfterRun(cs: Casing, cfg: Config, t: Tables, events: seq<Event>): Tables {
    if events == [] then t
    else AfterEvent(cs, cfg, AfterRun(cs, cfg, t, events[..|events| - 1]), events[|events| - 1])
  }

  /** No token and no session id is minted twice; random tokens are not empty. */
  predicate FreshMints(events: seq<Event>) {
    && (forall i :: 0 <= i < |events| && events[i].Login? ==> events[i].mint.token != "")
    && (forall i, j :: 0 <= i < j < |events| && events[i].Login? && events[j].Login? ==>
          events[i].mint.token != events[j].mint.token && events[i].mint.id != events[j].mint.id)
  }

  /** The tables before anybody has logged in. */
  predicate Initial(t: Tables) {
    t.sessions == map[] && t.attempts == []
  }
}
