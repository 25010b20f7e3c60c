/**
 Admin sessions, specified over the history of what happened, and the proof
 that the session table answers as the history says.
 */
module SessionHistory {
  import opened Wrappers
  import opened JsText
  import opened AuthTables

  /** What can be observed from outside the table. */
  datatype Entry =
    | Minted(token: string, csrf: string, adminId: nat, at: int)   // a successful login
    | Seen(token: string, at: int)                                 // a successful, touched load
    | LoggedOut(token: string)
    | Activity(adminId: nat, active: bool)

  function EntriesOf(cs: Casing, cfg: Config, t: Tables, e: Event): seq<Entry> {
    match e
    case Login(email, password, ip, mint) =>
      var r := LoginAnswer(cs, cfg, t, email, password, ip, mint);
      if r.LoggedIn? then [Minted(mint.token, mint.csrf, r.adminId, t.now)] else []
    case Load(token, touched) =>
      if touched && LoadAnswer(cfg, t, token).Some? then [Seen(token, t.now)] else []
    case Logout(token) => [LoggedOut(token)]
    case SetActive(adminId, active) => [Activity(adminId, active)]
    case _ => []
  }

  function History(cs: Casing, cfg: Config, t: Tables, events: seq<Event>): seq<Entry> {
    if events == [] then []
    else
      var init := events[..|events| - 1];
      History(cs, cfg, t, init) + EntriesOf(cs, cfg, AfterRun(cs, cfg, t, init), events[|events| - 1])
  }

  // --------------------------------------------------------- the specification

  predicate IsMint(log: seq<Entry>, token: string, i: nat) {
    i < |log| && log[i].Minted? && log[i].token == token
  }

  /** A later login of the same admin, or a logout with this token. */
  predicate Ends(e: Entry, mint: Entry)
    requires mint.Minted?
  {
    (e.Minted? && e.adminId == mint.adminId) || e == LoggedOut(mint.token)
  }

  ghost predicate EndedAfter(log: seq<Entry>, i: nat)
    requires i < |log| && log[i].Minted?
  {
    exists j :: i < j < |log| && Ends(log[j], log[i])
  }

  /** When the token was minted and then seen. */
  function Sightings(log: seq<Entry>, token: string): seq<int> {
    if log == [] then []
    else
      var init, e := log[..|log| - 1], log[|log| - 1];
      Sightings(init, token) + (if (e.Minted? || e.Seen?) && e.token == token then [e.at] else [])
  }

  /** No two sightings in a row are idle or more apart. */
  predicate NeverIdle(times: seq<int>, idle: int) {
    forall k :: 0 < k < |times| ==> times[k] - times[k - 1] < idle
  }

  /** The last word on an account, starting from the table of accounts. */
  function ActiveNow(users: map<nat, Account>, log: seq<Entry>, adminId: nat): bool {
    if adminId !in users then false
    else if log == [] then users[adminId].active
    else
      var e := log[|log| - 1];
      if e.Activity? && e.adminId == adminId then e.active else ActiveNow(users, log[..|log| - 1], adminId)
  }

  /**
   The token was minted by a login, that admin has not logged in since, nobody
   logged out with the token, the absolute limit is not reached, no gap between
   sightings up to now reaches the idle limit, and the admin is active.
   */
  predicate AcceptedSince(cfg: Config, users: map<nat, Account>, log: seq<Entry>, token: string, now: int, i: nat)
    requires IsMint(log, token, i)
  {
    && now < log[i].at + cfg.absoluteHours * HOUR
    && NeverIdle(Sightings(log, token) + [now], cfg.idleMinutes * MINUTE)
    && ActiveNow(users, log, log[i].adminId)
  }

  ghost predicate Accepted(cfg: Config, users: map<nat, Account>, log: seq<Entry>, token: string, now: int) {
    exists i: nat :: IsMint(log, token, i) && !EndedAfter(log, i) && AcceptedSince(cfg, users, log, token, now, i)
  }

  // --------------------------------------------------------- the table follows the history

  /** The row is what the history makes of the login at i. */
  ghost predicate Follows(cfg: Config, s: Session, log: seq<Entry>, token: string, i: nat)
    requires IsMint(log, token, i)
  {
    var times := Sightings(log, token);
    && s.adminId == log[i].adminId
    && s.csrfHash == Digest(log[i].csrf)
    && s.expiresAt == log[i].at + cfg.absoluteHours * HOUR
    && (s.revokedAt.Some? <==> EndedAfter(log, i))
    && times != [] && times[|times| - 1] == s.lastSeen
    && NeverIdle(times, cfg.idleMinutes * MINUTE)
  }

  /** Nothing can make the login at i acceptable again. */
  ghost predicate Dead(cfg: Config, log: seq<Entry>, token: string, i: nat, now: int)
    requires IsMint(log, token, i)
  {
    EndedAfter(log, i) || log[i].at + cfg.absoluteHours * HOUR <= now
  }

  ghost predicate TokenOk(cfg: Config, t: Tables, log: seq<Entry>, token: string) {
    var h := Digest(token);
    && (forall i, j :: IsMint(log, token, i) && IsMint(log, token, j) ==> i == j)
    && (h in t.sessions ==> exists i: nat :: IsMint(log, token, i) && Follows(cfg, t.sessions[h], log, token, i))
    && (forall i :: IsMint(log, token, i) ==> h in t.sessions || Dead(cfg, log, token, i, t.now))
  }

  /** Every row has its own id, one that was minted. */
  ghost predicate RowIds(sessions: map<Digest, Session>, ids: set<string>) {
    && (forall h :: h in sessions ==> sessions[h].id in ids)
    && (forall h, g :: h in sessions && g in sessions && h != g ==> sessions[h].id != sessions[g].id)
  }

  predicate KnownTokens(log: seq<Entry>, tokens: set<string>) {
    && (forall i :: 0 <= i < |log| && (log[i].Minted? || log[i].Seen?) ==> log[i].token in tokens)
    && "" !in tokens
  }

  ghost predicate Fresh(t: Tables, log: seq<Entry>, tokens: set<string>, ids: set<string>) {
    RowIds(t.sessions, ids) && KnownTokens(log, tokens)
  }

  ghost predicate AccountsOk(users: map<nat, Account>, t: Tables, log: seq<Entry>) {
    && t.users.Keys == users.Keys
    && forall a :: a in users ==> t.users[a].active == ActiveNow(users, log, a)
  }

  ghost predicate Tracks(cfg: Config, users: map<nat, Account>, t: Tables, log: seq<Entry>,
                         tokens: set<string>, ids: set<string>)
  {
    && (forall token :: TokenOk(cfg, t, log, token))
    && Fresh(t, log, tokens, ids)
    && AccountsOk(users, t, log)
  }

  // --------------------------------------------------------- appending to the history

  lemma MintAppend(log: seq<Entry>, e: Entry, token: string, i: nat)
    ensures IsMint(log + [e], token, i) <==> IsMint(log, token, i) || (i == |log| && e.Minted? && e.token == token)
  {
  }

  lemma EndedAppend(log: seq<Entry>, e: Entry, i: nat)
    requires i < |log| && log[i].Minted?
    ensures EndedAfter(log + [e], i) <==> EndedAfter(log, i) || Ends(e, log[i])
  {
    var l := log + [e];
    if EndedAfter(log, i) {
      var j :| i < j < |log| && Ends(log[j], log[i]);
      assert Ends(l[j], l[i]);
    }
    if Ends(e, log[i]) {
      assert Ends(l[|log|], l[i]);
    }
    if EndedAfter(l, i) {
      var j :| i < j < |l| && Ends(l[j], l[i]);
      assert j < |log| ==> Ends(log[j], log[i]);
    }
  }

  lemma SightingsAppend(log: seq<Entry>, e: Entry, token: string)
    ensures Sightings(log + [e], token)
            == Sightings(log, token) + (if (e.Minted? || e.Seen?) && e.token == token then [e.at] else [])
  {
    assert (log + [e])[..|log|] == log;
  }

  lemma {:induction false} SightingsUnknown(log: seq<Entry>, token: string, tokens: set<string>)
    requires token !in tokens
    requires forall i :: 0 <= i < |log| && (log[i].Minted? || log[i].Seen?) ==> log[i].token in tokens
    ensures Sightings(log, token) == []
  {
    if log != [] {
      var init := log[..|log| - 1];
      assert forall i :: 0 <= i < |init| ==> init[i] == log[i];
      SightingsUnknown(init, token, tokens);
    }
  }

  /** An entry that says nothing about the token, and does not end it. */
  lemma Irrelevant(cfg: Config, t: Tables, log: seq<Entry>, e: Entry, token: string)
    requires TokenOk(cfg, t, log, token)
    requires !((e.Minted? || e.Seen?) && e.token == token)
    requires forall i: nat :: IsMint(log, token, i) ==> !Ends(e, log[i])
    ensures TokenOk(cfg, t, log + [e], token)
  {
    var h := Digest(token);
    SightingsAppend(log, e, token);
    forall i: nat | IsMint(log, token, i)
      ensures IsMint(log + [e], token, i) && (EndedAfter(log + [e], i) <==> EndedAfter(log, i)) && (log + [e])[i] == log[i]
    {
      EndedAppend(log, e, i);
    }
    forall i
      ensures IsMint(log + [e], token, i) <==> IsMint(log, token, i)
    {
      MintAppend(log, e, token, i);
    }
    if h in t.sessions {
      var i: nat :| IsMint(log, token, i) && Follows(cfg, t.sessions[h], log, token, i);
      assert IsMint(log + [e], token, i) && Follows(cfg, t.sessions[h], log + [e], token, i);
    }
  }

  // --------------------------------------------------------- one step

  /** Time passes. */
  lemma TickStep(cfg: Config, t: Tables, log: seq<Entry>, token: string, ms: nat)
    requires TokenOk(cfg, t, log, token)
    ensures TokenOk(cfg, t.(now := t.now + ms), log, token)
  {
  }

  /** Clean-up removes only rows whose login is dead. */
  lemma PurgeStep(cfg: Config, t: Tables, log: seq<Entry>, token: string)
    requires TokenOk(cfg, t, log, token)
    ensures TokenOk(cfg, t.(sessions := Purged(t.sessions, t.now)), log, token)
  {
    hide EndedAfter, Sightings, NeverIdle;
    var h := Digest(token);
    var u := t.(sessions := Purged(t.sessions, t.now));
    if h in t.sessions {
      var i: nat :| IsMint(log, token, i) && Follows(cfg, t.sessions[h], log, token, i);
      assert h in u.sessions ==> u.sessions[h] == t.sessions[h];
      assert h !in u.sessions ==> Dead(cfg, log, token, i, t.now);
    }
  }

  lemma LogoutStep(cfg: Config, t: Tables, log: seq<Entry>, token: string, out: string)
    requires TokenOk(cfg, t, log, token) && (out == "" ==> forall i :: !IsMint(log, "", i))
    ensures TokenOk(cfg, AfterLogout(t, out), log + [LoggedOut(out)], token)
  {
    var e := LoggedOut(out);
    var u := AfterLogout(t, out);
    var h := Digest(token);
    if out != token || out == "" {
      Irrelevant(cfg, t, log, e, token);
      assert h in u.sessions <==> h in t.sessions;
      assert h in t.sessions ==> u.sessions[h] == t.sessions[h];
    } else {
      SightingsAppend(log, e, token);
      forall i
        ensures IsMint(log + [e], token, i) <==> IsMint(log, token, i)
        ensures IsMint(log, token, i) ==> EndedAfter(log + [e], i)
      {
        MintAppend(log, e, token, i);
        if IsMint(log, token, i) {
          EndedAppend(log, e, i);
        }
      }
      if h in t.sessions {
        var i: nat :| IsMint(log, token, i) && Follows(cfg, t.sessions[h], log, token, i);
        assert Follows(cfg, u.sessions[h], log + [e], token, i);
      }
    }
  }

  lemma ActivityStep(cfg: Config, t: Tables, log: seq<Entry>, token: string, a: nat, active: bool, users: map<nat, Account>)
    requires TokenOk(cfg, t, log, token)
    ensures TokenOk(cfg, t.(users := users), log + [Activity(a, active)], token)
  {
    Irrelevant(cfg, t, log, Activity(a, active), token);
  }

  lemma {:induction false} NeverIdleAppend(times: seq<int>, now: int, idle: int)
    requires NeverIdle(times, idle) && times != []
    ensures NeverIdle(times + [now], idle) <==> now - times[|times| - 1] < idle
  {
    var l := times + [now];
    assert l[|times|] == now && l[|times| - 1] == times[|times| - 1];
  }

  /** touch goes by session id, which belongs to one row only. */
  lemma TouchedRows(t: Tables, h: Digest, now: int)
    requires h in t.sessions
    requires forall f, g :: f in t.sessions && g in t.sessions && f != g ==> t.sessions[f].id != t.sessions[g].id
    ensures Touched(t.sessions, t.sessions[h].id, now) == t.sessions[h := t.sessions[h].(lastSeen := now)]
  {
  }

  lemma SeenStep(cfg: Config, t: Tables, log: seq<Entry>, token: string, loaded: string)
    requires TokenOk(cfg, t, log, token) && LoadAnswer(cfg, t, loaded).Some?
    requires forall f, g :: f in t.sessions && g in t.sessions && f != g ==> t.sessions[f].id != t.sessions[g].id
    ensures TokenOk(cfg, AfterLoad(cfg, t, loaded, true), log + [Seen(loaded, t.now)], token)
  {
    hide Touched;
    var e := Seen(loaded, t.now);
    var u := AfterLoad(cfg, t, loaded, true);
    var h := Digest(token);
    TouchedRows(t, Digest(loaded), t.now);
    if loaded != token {
      Irrelevant(cfg, t, log, e, token);
      assert h in u.sessions <==> h in t.sessions;
      assert h in t.sessions ==> u.sessions[h] == t.sessions[h];
    } else {
      var i: nat :| IsMint(log, token, i) && Follows(cfg, t.sessions[h], log, token, i);
      SightingsAppend(log, e, token);
      NeverIdleAppend(Sightings(log, token), t.now, cfg.idleMinutes * MINUTE);
      forall j
        ensures IsMint(log + [e], token, j) <==> IsMint(log, token, j)
      {
        MintAppend(log, e, token, j);
      }
      EndedAppend(log, e, i);
      assert IsMint(log + [e], token, i) && Follows(cfg, u.sessions[h], log + [e], token, i);
    }
  }

  function WithMint(cfg: Config, t: Tables, a: nat, mint: Mint): Tables {
    t.(sessions := RevokedAll(t.sessions, a, t.now)[Digest(mint.token) := NewSession(cfg, a, mint, t.now)])
  }

  /** The login's own token. */
  lemma MintedOwn(cfg: Config, t: Tables, log: seq<Entry>, a: nat, mint: Mint)
    requires (forall i :: !IsMint(log, mint.token, i)) && Sightings(log, mint.token) == []
    ensures TokenOk(cfg, WithMint(cfg, t, a, mint), log + [Minted(mint.token, mint.csrf, a, t.now)], mint.token)
  {
    hide Sightings, RevokedAll;
    var e := Minted(mint.token, mint.csrf, a, t.now);
    var l := log + [e];
    var n := |log|;
    SightingsAppend(log, e, mint.token);
    forall j
      ensures IsMint(l, mint.token, j) <==> j == n
    {
      MintAppend(log, e, mint.token, j);
    }
    assert IsMint(l, mint.token, n) && !EndedAfter(l, n);
    assert Follows(cfg, WithMint(cfg, t, a, mint).sessions[Digest(mint.token)], l, mint.token, n);
  }

  /** Every other token: its row is revoked exactly when it belongs to the same admin. */
  lemma MintedOther(cfg: Config, t: Tables, log: seq<Entry>, token: string, a: nat, mint: Mint)
    requires TokenOk(cfg, t, log, token) && mint.token != token
    ensures TokenOk(cfg, WithMint(cfg, t, a, mint), log + [Minted(mint.token, mint.csrf, a, t.now)], token)
  {
    hide Sightings, NeverIdle, EndedAfter;
    var e := Minted(mint.token, mint.csrf, a, t.now);
    var u, l, h := WithMint(cfg, t, a, mint), log + [e], Digest(token);
    SightingsAppend(log, e, token);
    forall j
      ensures IsMint(l, token, j) <==> IsMint(log, token, j)
    {
      MintAppend(log, e, token, j);
    }
    assert h in u.sessions <==> h in t.sessions;
    forall i: nat | IsMint(log, token, i)
      ensures l[i] == log[i] && (EndedAfter(l, i) <==> EndedAfter(log, i) || log[i].adminId == a)
    {
      EndedAppend(log, e, i);
    }
    if h in t.sessions {
      var i: nat :| IsMint(log, token, i) && Follows(cfg, t.sessions[h], log, token, i);
      var row := t.sessions[h];
      assert h != Digest(mint.token);
      assert u.sessions[h] == if row.adminId == a && row.revokedAt.None? then row.(revokedAt := Some(t.now)) else row;
      assert Sightings(l, token) == Sightings(log, token);
      assert IsMint(l, token, i) && Follows(cfg, u.sessions[h], l, token, i);
    }
  }

  // --------------------------------------------------------- whole runs

  function UsedTokens(events: seq<Event>): set<string> {
    set i | 0 <= i < |events| && events[i].Login? :: events[i].mint.token
  }

  function UsedIds(events: seq<Event>): set<string> {
    set i | 0 <= i < |events| && events[i].Login? :: events[i].mint.id
  }

  lemma UsedAppend(events: seq<Event>, e: Event)
    ensures e.Login? ==> UsedTokens(events + [e]) == UsedTokens(events) + {e.mint.token}
    ensures e.Login? ==> UsedIds(events + [e]) == UsedIds(events) + {e.mint.id}
    ensures !e.Login? ==> UsedTokens(events + [e]) == UsedTokens(events) && UsedIds(events + [e]) == UsedIds(events)
    ensures FreshMints(events + [e]) && e.Login? ==>
              e.mint.token != "" && e.mint.token !in UsedTokens(events) && e.mint.id !in UsedIds(events)
    ensures FreshMints(events + [e]) ==> FreshMints(events)
  {
    var l := events + [e];
    assert l[|events|] == e && forall i :: 0 <= i < |events| ==> l[i] == events[i];
  }

  lemma ActiveAppend(users: map<nat, Account>, log: seq<Entry>, e: Entry, a: nat)
    ensures ActiveNow(users, log + [e], a)
            == if a in users && e.Activity? && e.adminId == a then e.active else ActiveNow(users, log, a)
  {
    assert (log + [e])[..|log|] == log;
  }

  lemma AccountsStep(cs: Casing, cfg: Config, users: map<nat, Account>, t: Tables, log: seq<Entry>, e: Event)
    requires AccountsOk(users, t, log)
    ensures AccountsOk(users, AfterEvent(cs, cfg, t, e), log + EntriesOf(cs, cfg, t, e))
  {
    hide LoginAnswer, LoadAnswer, Touched, RevokedAll, RevokedOne, Purged, KeepFrom, Recorded;
    var more := EntriesOf(cs, cfg, t, e);
    assert log + [] == log;
    if more != [] {
      forall a | a in users
        ensures AfterEvent(cs, cfg, t, e).users[a].active == ActiveNow(users, log + more, a)
      {
        assert more == [more[0]];
        ActiveAppend(users, log, more[0], a);
      }
    }
  }

  lemma RowIdsKept(sessions: map<Digest, Session>, kept: map<Digest, Session>, ids: set<string>)
    requires RowIds(sessions, ids)
    requires forall h :: h in kept ==> h in sessions && kept[h].id == sessions[h].id
    ensures RowIds(kept, ids)
  {
  }

  lemma RowIdsAdded(sessions: map<Digest, Session>, h: Digest, s: Session, ids: set<string>)
    requires RowIds(sessions, ids) && s.id !in ids
    ensures RowIds(sessions[h := s], ids + {s.id})
  {
  }

  lemma RowIdsStep(cs: Casing, cfg: Config, t: Tables, events: seq<Event>, e: Event)
    requires RowIds(t.sessions, UsedIds(events)) && FreshMints(events + [e])
    ensures RowIds(AfterEvent(cs, cfg, t, e).sessions, UsedIds(events + [e]))
  {
    hide LoginAnswer, Recorded, KeepFrom, FreshMints, UsedTokens, UsedIds, RowIds, Live, Garbage;
    UsedAppend(events, e);
    var u := AfterEvent(cs, cfg, t, e).sessions;
    var ids := UsedIds(events);
    if e.Login? {
      LoginAnswerMint(cs, cfg, t, e);
      var r := LoginAnswer(cs, cfg, t, e.email, e.password, e.ip, e.mint);
      if r.LoggedIn? {
        var revoked := RevokedAll(t.sessions, r.adminId, t.now);
        RowIdsKept(t.sessions, revoked, ids);
        RowIdsAdded(revoked, Digest(e.mint.token), NewSession(cfg, r.adminId, e.mint, t.now), ids);
      } else {
        RowIdsWiden(u, ids, UsedIds(events + [e]));
      }
    } else {
      RowIdsKept(t.sessions, u, ids);
    }
  }

  lemma RowIdsWiden(sessions: map<Digest, Session>, ids: set<string>, more: set<string>)
    requires RowIds(sessions, ids) && ids <= more
    ensures RowIds(sessions, more)
  {
  }

  lemma KnownTokensStep(cs: Casing, cfg: Config, t: Tables, log: seq<Entry>, events: seq<Event>, e: Event)
    requires KnownTokens(log, UsedTokens(events)) && FreshMints(events + [e])
    requires e.Load? ==> TokenOk(cfg, t, log, e.token)
    ensures KnownTokens(log + EntriesOf(cs, cfg, t, e), UsedTokens(events + [e]))
  {
    hide LoginAnswer, FreshMints, UsedTokens, UsedIds, Follows, Dead, Live;
    UsedAppend(events, e);
    if e.Load? && LoadAnswer(cfg, t, e.token).Some? {
      var i: nat :| IsMint(log, e.token, i) && Follows(cfg, t.sessions[Digest(e.token)], log, e.token, i);
      assert log[i].token in UsedTokens(events);
    }
  }

  lemma TokenStep(cs: Casing, cfg: Config, t: Tables, log: seq<Entry>, events: seq<Event>, e: Event, token: string)
    requires Fresh(t, log, UsedTokens(events), UsedIds(events)) && FreshMints(events + [e])
    requires TokenOk(cfg, t, log, token)
    ensures TokenOk(cfg, AfterEvent(cs, cfg, t, e), log + EntriesOf(cs, cfg, t, e), token)
  {
    hide LoginAnswer, Recorded, KeepFrom, FreshMints, UsedTokens, UsedIds, Follows, Dead, Live, Garbage;
    hide Touched, RevokedAll, RevokedOne, Purged, NewSession, EndedAfter, Sightings;
    UsedAppend(events, e);
    assert log + [] == log;
    match e
    case Login(email, password, ip, mint) =>
      var r := LoginAnswer(cs, cfg, t, email, password, ip, mint);
      if r.LoggedIn? {
        if mint.token == token {
          SightingsUnknown(log, token, UsedTokens(events));
          MintedOwn(cfg, t, log, r.adminId, mint);
        } else {
          MintedOther(cfg, t, log, token, r.adminId, mint);
        }
        AttemptsIrrelevant(cfg, WithMint(cfg, t, r.adminId, mint), AfterEvent(cs, cfg, t, e), log + EntriesOf(cs, cfg, t, e), token);
        LoginAnswerMint(cs, cfg, t, e);
      }
    case Load(loaded, touched) =>
      if touched && LoadAnswer(cfg, t, loaded).Some? {
        SeenStep(cfg, t, log, token, loaded);
      }
    case Logout(out) =>
      LogoutStep(cfg, t, log, token, out);
    case SetActive(a, active) =>
      ActivityStep(cfg, t, log, token, a, active, AfterEvent(cs, cfg, t, e).users);
    case Tick(ms) =>
      TickStep(cfg, t, log, token, ms);
    case Purge =>
      PurgeStep(cfg, t, log, token);
    case PurgeAttempts(_) =>
  }

  lemma AttemptsIrrelevant(cfg: Config, t: Tables, u: Tables, log: seq<Entry>, token: string)
    requires TokenOk(cfg, t, log, token) && u.sessions == t.sessions && u.now == t.now
    ensures TokenOk(cfg, u, log, token)
  {
  }

  lemma LoginAnswerMint(cs: Casing, cfg: Config, t: Tables, e: Event)
    requires e.Login?
    ensures var r := LoginAnswer(cs, cfg, t, e.email, e.password, e.ip, e.mint); r.LoggedIn? ==> r.mint == e.mint
  {
  }

  lemma {:induction false} RunTracks(cs: Casing, cfg: Config, t: Tables, events: seq<Event>)
    requires Initial(t) && FreshMints(events)
    ensures Tracks(cfg, t.users, AfterRun(cs, cfg, t, events), History(cs, cfg, t, events), UsedTokens(events), UsedIds(events))
  {
    hide AfterEvent, EntriesOf, TokenOk, RowIds, KnownTokens, AccountsOk, FreshMints;
    if events == [] {
      NothingYet(cfg, t);
    } else {
      var init, e := events[..|events| - 1], events[|events| - 1];
      assert events == init + [e];
      UsedAppend(init, e);
      RunTracks(cs, cfg, t, init);
      var before, log := AfterRun(cs, cfg, t, init), History(cs, cfg, t, init);
      assert e.Load? ==> TokenOk(cfg, before, log, e.token);
      RowIdsStep(cs, cfg, before, init, e);
      KnownTokensStep(cs, cfg, before, log, init, e);
      AccountsStep(cs, cfg, t.users, before, log, e);
      forall token
        ensures TokenOk(cfg, AfterRun(cs, cfg, t, events), History(cs, cfg, t, events), token)
      {
        TokenStep(cs, cfg, before, log, init, e, token);
      }
    }
  }

  lemma NothingYet(cfg: Config, t: Tables)
    requires Initial(t)
    ensures Tracks(cfg, t.users, t, [], UsedTokens([]), UsedIds([]))
  {
  }

  // --------------------------------------------------------- main results

  lemma AnswerFromHistory(cfg: Config, users: map<nat, Account>, t: Tables, log: seq<Entry>, token: string)
    requires TokenOk(cfg, t, log, token) && AccountsOk(users, t, log) && (token == "" ==> forall i :: !IsMint(log, token, i))
    ensures LoadAnswer(cfg, t, token).Some? <==> Accepted(cfg, users, log, token, t.now)
    ensures LoadAnswer(cfg, t, token).Some? ==>
              exists i: nat :: IsMint(log, token, i) && Follows(cfg, LoadAnswer(cfg, t, token).value, log, token, i)
  {
    hide EndedAfter;
    var h := Digest(token);
    if h in t.sessions {
      var i: nat :| IsMint(log, token, i) && Follows(cfg, t.sessions[h], log, token, i);
      NeverIdleAppend(Sightings(log, token), t.now, cfg.idleMinutes * MINUTE);
      assert Live(cfg, t, t.sessions[h]) <==> !EndedAfter(log, i) && AcceptedSince(cfg, users, log, token, t.now, i);
    }
  }

  /**
   After every run, loadSession answers exactly as the history says, and the
   session it returns carries the admin and the CSRF hash of that login.
   */
  lemma SessionMatchesHistory(cs: Casing, cfg: Config, t: Tables, events: seq<Event>, token: string)
    requires Initial(t) && FreshMints(events)
    ensures var now, log := AfterRun(cs, cfg, t, events), History(cs, cfg, t, events);
            var answer := LoadAnswer(cfg, now, token);
            && (answer.Some? <==> Accepted(cfg, t.users, log, token, now.now))
            && (answer.Some? ==>
                  exists i: nat :: IsMint(log, token, i) && !EndedAfter(log, i)
                           && answer.value.adminId == log[i].adminId && answer.value.csrfHash == Digest(log[i].csrf))
  {
    var now, log := AfterRun(cs, cfg, t, events), History(cs, cfg, t, events);
    RunTracks(cs, cfg, t, events);
    assert TokenOk(cfg, now, log, token);
    AnswerFromHistory(cfg, t.users, now, log, token);
  }

  // --------------------------------------------------------- who may log in

  /**
   Exactly who logs in: not locked out, an e-mail that trims and lower-cases to the
   one of an existing active administrator, and that administrator's password.
   */
  lemma LoginExactly(cs: Casing, cfg: Config, t: Tables, email: Option<string>, password: Option<string>, ip: string, mint: Mint, a: nat)
    ensures var typed := cs.ToLower(Trim(if email.Some? then email.value else ""));
            var identifier := if |typed| > 254 then typed[..254] else typed;
            && (LoginAnswer(cs, cfg, t, email, password, ip, mint) == Refused(LockedOut) <==> IsBlocked(cfg, t, identifier, ip))
            && (LoginAnswer(cs, cfg, t, email, password, ip, mint) == LoggedIn(a, mint) <==>
              && !IsBlocked(cfg, t, identifier, ip) && identifier != ""
              && cs.ToLower(identifier) in t.byEmail && t.byEmail[cs.ToLower(identifier)] == a
              && a in t.users && t.users[a].active
              && password.Some? && password.value != "" && t.users[a].passwordHash == Digest(password.value))
  {
    hide IsBlocked, Trim;
  }

  /** A login by administrator a, with the right e-mail and password, that minted the token. */
  predicate RightLogin(cs: Casing, t: Tables, e: Event, token: string, a: nat) {
    && e.Login? && e.mint.token == token && e.email.Some? && e.password.Some? && e.password.value != ""
    && a in t.users && t.users[a].passwordHash == Digest(e.password.value)
    && var typed := cs.ToLower(Trim(e.email.value));
       var key := cs.ToLower(if |typed| > 254 then typed[..254] else typed);
       key in t.byEmail && t.byEmail[key] == a
  }

  /** Accounts keep their passwords and e-mails. */
  predicate SameAccounts(t: Tables, u: Tables) {
    && u.byEmail == t.byEmail && u.users.Keys == t.users.Keys
    && forall a :: a in t.users ==> u.users[a].passwordHash == t.users[a].passwordHash
  }

  lemma EventKeepsAccounts(cs: Casing, cfg: Config, t: Tables, e: Event)
    ensures SameAccounts(t, AfterEvent(cs, cfg, t, e))
  {
    hide LoginAnswer, LoadAnswer, Touched, RevokedAll, RevokedOne, Purged, KeepFrom, Recorded;
  }

  lemma {:induction false} RunKeepsAccounts(cs: Casing, cfg: Config, t: Tables, events: seq<Event>)
    ensures SameAccounts(t, AfterRun(cs, cfg, t, events))
  {
    hide AfterEvent;
    if events != [] {
      RunKeepsAccounts(cs, cfg, t, events[..|events| - 1]);
      EventKeepsAccounts(cs, cfg, AfterRun(cs, cfg, t, events[..|events| - 1]), events[|events| - 1]);
    }
  }

  lemma MintingLogin(cs: Casing, cfg: Config, t: Tables, u: Tables, e: Event)
    requires SameAccounts(t, u) && EntriesOf(cs, cfg, u, e) != [] && EntriesOf(cs, cfg, u, e)[0].Minted?
    ensures var m := EntriesOf(cs, cfg, u, e)[0]; EntriesOf(cs, cfg, u, e) == [m] && RightLogin(cs, t, e, m.token, m.adminId)
  {
    hide IsBlocked, Trim, LoadAnswer, LoginAnswer;
    var a := EntriesOf(cs, cfg, u, e)[0].adminId;
    LoginAnswerMint(cs, cfg, u, e);
    LoginExactly(cs, cfg, u, e.email, e.password, e.ip, e.mint, a);
    EmptyEmail(cs);
  }

  lemma EmptyEmail(cs: Casing)
    ensures cs.ToLower(Trim("")) == ""
  {
  }

  lemma {:induction false} MintsAreRightLogins(cs: Casing, cfg: Config, t: Tables, events: seq<Event>, i: nat)
    requires i < |History(cs, cfg, t, events)| && History(cs, cfg, t, events)[i].Minted?
    ensures var m := History(cs, cfg, t, events)[i];
            exists k :: 0 <= k < |events| && RightLogin(cs, t, events[k], m.token, m.adminId)
  {
    hide EntriesOf, AfterRun, RightLogin, SameAccounts;
    var init, e := events[..|events| - 1], events[|events| - 1];
    var log := History(cs, cfg, t, init);
    if i < |log| {
      MintsAreRightLogins(cs, cfg, t, init, i);
      var k :| 0 <= k < |init| && RightLogin(cs, t, init[k], log[i].token, log[i].adminId);
      assert init[k] == events[k];
    } else {
      var u := AfterRun(cs, cfg, t, init);
      RunKeepsAccounts(cs, cfg, t, init);
      OneEntry(cs, cfg, u, e);
      MintingLogin(cs, cfg, t, u, e);
    }
  }

  lemma OneEntry(cs: Casing, cfg: Config, t: Tables, e: Event)
    ensures |EntriesOf(cs, cfg, t, e)| <= 1
  {
    hide LoginAnswer, LoadAnswer;
  }

  /** Behind every session that loads stands a login with that administrator's e-mail and password. */
  lemma SessionHadPassword(cs: Casing, cfg: Config, t: Tables, events: seq<Event>, token: string)
    requires Initial(t) && FreshMints(events) && LoadAnswer(cfg, AfterRun(cs, cfg, t, events), token).Some?
    ensures var a := LoadAnswer(cfg, AfterRun(cs, cfg, t, events), token).value.adminId;
            exists k :: 0 <= k < |events| && RightLogin(cs, t, events[k], token, a)
  {
    hide LoadAnswer, AfterRun, History, RightLogin, FreshMints;
    SessionMatchesHistory(cs, cfg, t, events, token);
    var log := History(cs, cfg, t, events);
    var a := LoadAnswer(cfg, AfterRun(cs, cfg, t, events), token).value.adminId;
    var i: nat :| IsMint(log, token, i) && !EndedAfter(log, i) && a == log[i].adminId;
    MintsAreRightLogins(cs, cfg, t, events, i);
  }

  // --------------------------------------------------------- the gate in front of writes

  datatype Verb = Get | Head | Options | Write

  datatype GateAnswer = Pass | ToLogin | Unauthenticated | CsrfInvalid

  /** loadAdminSession, requireAdminAuth, requireAdminCsrf, in this order. */
  function Gate(cfg: Config, t: Tables, verb: Verb, token: string, submitted: Option<string>): GateAnswer {
    var session := LoadAnswer(cfg, t, token);
    if session.None? then if verb.Get? then ToLogin else Unauthenticated
    else if !verb.Write? then Pass
    else if CsrfMatches(session, submitted) then Pass
    else CsrfInvalid
  }

  /** The login that the history accepts for the token minted this CSRF token. */
  ghost predicate AcceptedWith(cfg: Config, users: map<nat, Account>, log: seq<Entry>, token: string, now: int, csrf: string) {
    exists i: nat :: IsMint(log, token, i) && !EndedAfter(log, i) && AcceptedSince(cfg, users, log, token, now, i)
                     && log[i].csrf == csrf
  }

  /**
   A write passes the gate exactly when the history accepts the session token and
   the submitted CSRF token is the one minted with it; a read needs the session only.
   */
  lemma GateMatchesHistory(cs: Casing, cfg: Config, t: Tables, events: seq<Event>,
                           verb: Verb, token: string, submitted: Option<string>)
    requires Initial(t) && FreshMints(events)
    ensures var now, log := AfterRun(cs, cfg, t, events), History(cs, cfg, t, events);
            Gate(cfg, now, verb, token, submitted).Pass?
            <==> if verb.Write?
                 then submitted.Some? && submitted.value != "" && AcceptedWith(cfg, t.users, log, token, now.now, submitted.value)
                 else Accepted(cfg, t.users, log, token, now.now)
  {
    hide Live, AcceptedSince, EndedAfter, AfterRun, History, FreshMints;
    var now, log := AfterRun(cs, cfg, t, events), History(cs, cfg, t, events);
    SessionMatchesHistory(cs, cfg, t, events, token);
    RunTracks(cs, cfg, t, events);
    assert TokenOk(cfg, now, log, token);
    var answer := LoadAnswer(cfg, now, token);
    if answer.Some? {
      var i: nat :| IsMint(log, token, i) && !EndedAfter(log, i)
        && answer.value.adminId == log[i].adminId && answer.value.csrfHash == Digest(log[i].csrf);
      var j: nat :| IsMint(log, token, j) && !EndedAfter(log, j) && AcceptedSince(cfg, t.users, log, token, now.now, j);
      assert i == j;
    }
  }

  // --------------------------------------------------------- clean-up is invisible

  /** Revoked or past its absolute limit: no later request can use the row. */
  predicate Hopeless(s: Session, now: int) {
    s.revokedAt.Some? || s.expiresAt <= now
  }

  /** u is t without some hopeless rows. */
  ghost predicate Thinner(u: Tables, t: Tables) {
    && u == t.(sessions := u.sessions)
    && (forall h :: h in u.sessions ==> h in t.sessions && u.sessions[h] == t.sessions[h])
    && (forall h :: h in t.sessions && h !in u.sessions ==> Hopeless(t.sessions[h], t.now))
  }

  lemma ThinnerAnswers(cs: Casing, cfg: Config, u: Tables, t: Tables)
    requires Thinner(u, t)
    ensures forall token :: LoadAnswer(cfg, u, token) == LoadAnswer(cfg, t, token)
    ensures forall email, password, ip, mint ::
              LoginAnswer(cs, cfg, u, email, password, ip, mint) == LoginAnswer(cs, cfg, t, email, password, ip, mint)
  {
    forall email, password, ip, mint
      ensures LoginAnswer(cs, cfg, u, email, password, ip, mint) == LoginAnswer(cs, cfg, t, email, password, ip, mint)
    {
      hide NormalizeEmail, Failures;
    }
  }

  lemma ThinnerLogin(cfg: Config, u: Tables, t: Tables, a: nat, mint: Mint, attempts: seq<Attempt>)
    requires Thinner(u, t)
    ensures Thinner(WithMint(cfg, u, a, mint).(attempts := attempts), WithMint(cfg, t, a, mint).(attempts := attempts))
  {
  }

  lemma ThinnerLoad(cfg: Config, u: Tables, t: Tables, token: string, touched: bool)
    requires Thinner(u, t)
    ensures Thinner(AfterLoad(cfg, u, token, touched), AfterLoad(cfg, t, token, touched))
  {
  }

  lemma ThinnerStep(cs: Casing, cfg: Config, u: Tables, t: Tables, e: Event)
    requires Thinner(u, t) && !e.Purge?
    ensures Thinner(AfterEvent(cs, cfg, u, e), AfterEvent(cs, cfg, t, e))
  {
    hide LoginAnswer, LoadAnswer, KeepFrom, Recorded, NormalizeEmail, RevokedAll, NewSession, AfterLoad;
    match e
    case Login(email, password, ip, mint) =>
      ThinnerAnswers(cs, cfg, u, t);
      var r := LoginAnswer(cs, cfg, t, email, password, ip, mint);
      LoginAnswerMint(cs, cfg, t, e);
      if r.LoggedIn? {
        ThinnerLogin(cfg, u, t, r.adminId, mint, t.attempts + [Recorded(NormalizeEmail(cs, email), ip, true, t.now)]);
      }
    case Load(token, touched) =>
      ThinnerLoad(cfg, u, t, token, touched);
    case _ =>
  }

  lemma ThinnerPurge(cs: Casing, cfg: Config, u: Tables, t: Tables)
    requires Thinner(u, t)
    ensures Thinner(AfterEvent(cs, cfg, u, Purge), t)
  {
  }

  /** What the clean-up deletes: rows past their absolute limit, and rows revoked more than 7 days ago. */
  lemma PurgeDeletesExactly(cs: Casing, cfg: Config, t: Tables)
    ensures var u := AfterEvent(cs, cfg, t, Purge);
            && u == t.(sessions := u.sessions)
            && (forall h :: h in u.sessions <==>
                  h in t.sessions && t.sessions[h].expiresAt >= t.now
                  && (t.sessions[h].revokedAt.Some? ==> t.now - t.sessions[h].revokedAt.value <= 7 * 24 * 60 * 60 * 1000))
            && (forall h :: h in u.sessions ==> u.sessions[h] == t.sessions[h])
  {
  }

  function WithoutPurges(events: seq<Event>): seq<Event> {
    if events == [] then []
    else
      var init, e := WithoutPurges(events[..|events| - 1]), events[|events| - 1];
      if e.Purge? then init else init + [e]
  }

  lemma {:induction false} PurgesOnlyThin(cs: Casing, cfg: Config, t: Tables, events: seq<Event>)
    ensures Thinner(AfterRun(cs, cfg, t, events), AfterRun(cs, cfg, t, WithoutPurges(events)))
  {
    hide AfterEvent, Thinner;
    if events == [] {
      ThinnerSelf(t);
    } else {
      var init, e := events[..|events| - 1], events[|events| - 1];
      PurgesOnlyThin(cs, cfg, t, init);
      var u, v := AfterRun(cs, cfg, t, init), AfterRun(cs, cfg, t, WithoutPurges(init));
      if e.Purge? {
        ThinnerPurge(cs, cfg, u, v);
      } else {
        ThinnerStep(cs, cfg, u, v, e);
        assert (WithoutPurges(init) + [e])[..|WithoutPurges(init)|] == WithoutPurges(init);
      }
    }
  }

  lemma ThinnerSelf(t: Tables)
    ensures Thinner(t, t)
  {
  }

  /**
   Two runs that differ only in when sessions are purged give the same answers to
   every later login, load and gate check.
   */
  lemma PurgeInvisible(cs: Casing, cfg: Config, t: Tables, one: seq<Event>, two: seq<Event>)
    requires WithoutPurges(one) == WithoutPurges(two)
    ensures var a, b := AfterRun(cs, cfg, t, one), AfterRun(cs, cfg, t, two);
            && (forall token :: LoadAnswer(cfg, a, token) == LoadAnswer(cfg, b, token))
            && (forall verb, token, submitted :: Gate(cfg, a, verb, token, submitted) == Gate(cfg, b, verb, token, submitted))
            && (forall email, password, ip, mint ::
                  LoginAnswer(cs, cfg, a, email, password, ip, mint) == LoginAnswer(cs, cfg, b, email, password, ip, mint))
  {
    hide AfterRun, LoadAnswer, LoginAnswer, Thinner;
    PurgesOnlyThin(cs, cfg, t, one);
    PurgesOnlyThin(cs, cfg, t, two);
    ThinnerAnswers(cs, cfg, AfterRun(cs, cfg, t, one), AfterRun(cs, cfg, t, WithoutPurges(one)));
    ThinnerAnswers(cs, cfg, AfterRun(cs, cfg, t, two), AfterRun(cs, cfg, t, WithoutPurges(two)));
  }
}
