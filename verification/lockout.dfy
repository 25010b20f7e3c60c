/**
 The sliding-window lockout: a bound over every span of every run.
 */
module Lockout {
  import opened Wrappers
  import opened JsText
  import opened AuthTables
  import opened Format

  lemma {:induction false} FailuresMonotone(attempts: seq<Attempt>, key: Key, lo: int, hi: int, lo': int, hi': int)
    requires lo' <= lo && hi <= hi'
    ensures Failures(attempts, key, lo, hi) <= Failures(attempts, key, lo', hi')
  {
    if attempts != [] {
      FailuresMonotone(attempts[..|attempts| - 1], key, lo, hi, lo', hi');
    }
  }

  lemma {:induction false} FailuresCapped(attempts: seq<Attempt>, key: Key, lo: int, hi: int, cap: int)
    requires cap <= hi && forall a :: a in attempts ==> a.at <= cap
    ensures Failures(attempts, key, lo, hi) == Failures(attempts, key, lo, cap)
  {
    if attempts != [] {
      var init := attempts[..|attempts| - 1];
      assert attempts[|attempts| - 1] in attempts;
      assert forall a :: a in init ==> a in attempts;
      FailuresCapped(init, key, lo, hi, cap);
    }
  }

  lemma {:induction false} KeepFromCounts(attempts: seq<Attempt>, since: int, key: Key, lo: int, hi: int)
    requires since <= lo
    ensures Failures(KeepFrom(attempts, since), key, lo, hi) == Failures(attempts, key, lo, hi)
  {
    if attempts != [] {
      var init, a := attempts[..|attempts| - 1], attempts[|attempts| - 1];
      KeepFromCounts(init, since, key, lo, hi);
      var kept := KeepFrom(init, since);
      assert (kept + [a])[..|kept|] == kept;
      assert kept + [] == kept;
    }
  }

  // --------------------------------------------------------- the whole record

  /** What one event appends to the attempts: at most one row, and only by a login. */
  function RecordedBy(cs: Casing, cfg: Config, t: Tables, e: Event): seq<Attempt> {
    if !e.Login? then []
    else
      var r := LoginAnswer(cs, cfg, t, e.email, e.password, e.ip, e.mint);
      if r == Refused(LockedOut) then []
      else [Recorded(NormalizeEmail(cs, e.email), e.ip, r.LoggedIn?, t.now)]
  }

  lemma RecordedByIsAppended(cs: Casing, cfg: Config, t: Tables, e: Event)
    ensures e.Login? ==> AfterEvent(cs, cfg, t, e).attempts == t.attempts + RecordedBy(cs, cfg, t, e)
    ensures e.Login? ==> AfterEvent(cs, cfg, t, e).now == t.now
  {
  }

  /** The attempts ever recorded, clean-ups disregarded. */
  function Recordings(cs: Casing, cfg: Config, t: Tables, events: seq<Event>): seq<Attempt> {
    if events == [] then []
    else
      var init := events[..|events| - 1];
      Recordings(cs, cfg, t, init) + RecordedBy(cs, cfg, AfterRun(cs, cfg, t, init), events[|events| - 1])
  }

  /** Clean-ups keep at least the lockout window. */
  predicate WindowKept(cfg: Config, events: seq<Event>) {
    forall i :: 0 <= i < |events| && events[i].PurgeAttempts? ==> events[i].days * DAY >= cfg.windowMinutes * MINUTE
  }

  function Limit(cfg: Config, key: Key): nat {
    if key.ByIdentifier? then cfg.maxPerIdentifier else cfg.maxPerIp
  }

  /** An attempt from ip is stored under key only if it is also looked up under key. */
  predicate SeesItself(key: Key, ip: string) {
    key.ByIp? && Slice(ip, 64) == key.ip ==> |ip| <= 64
  }

  predicate AllSeen(key: Key, events: seq<Event>) {
    forall i :: 0 <= i < |events| && events[i].Login? ==> SeesItself(key, events[i].ip)
  }

  /** The table and the full record agree on every window that can still be asked for. */
  ghost predicate Agree(cfg: Config, t: Tables, all: seq<Attempt>) {
    && (forall a :: a in all ==> a.at <= t.now)
    && (forall a :: a in t.attempts ==> a.at <= t.now)
    && forall key, lo, hi :: lo > t.now - cfg.windowMinutes * MINUTE ==>
         Failures(t.attempts, key, lo, hi) == Failures(all, key, lo, hi)
  }

  lemma FailuresAppend(attempts: seq<Attempt>, a: Attempt, key: Key, lo: int, hi: int)
    ensures Failures(attempts + [a], key, lo, hi)
            == Failures(attempts, key, lo, hi) + (if !a.ok && Matches(a, key) && lo <= a.at <= hi then 1 else 0)
  {
    assert (attempts + [a])[..|attempts|] == attempts;
  }

  lemma AgreeAppend(cfg: Config, t: Tables, all: seq<Attempt>, a: Attempt)
    requires Agree(cfg, t, all) && a.at == t.now
    ensures Agree(cfg, t.(attempts := t.attempts + [a]), all + [a])
  {
    forall key, lo, hi | lo > t.now - cfg.windowMinutes * MINUTE
      ensures Failures(t.attempts + [a], key, lo, hi) == Failures(all + [a], key, lo, hi)
    {
      FailuresAppend(t.attempts, a, key, lo, hi);
      FailuresAppend(all, a, key, lo, hi);
    }
  }

  lemma {:induction false} KeepFromSubset(attempts: seq<Attempt>, since: int)
    ensures forall a :: a in KeepFrom(attempts, since) ==> a in attempts
  {
    if attempts != [] {
      KeepFromSubset(attempts[..|attempts| - 1], since);
    }
  }

  lemma AgreeStep(cs: Casing, cfg: Config, before: Tables, all: seq<Attempt>, e: Event)
    requires Agree(cfg, before, all)
    requires e.PurgeAttempts? ==> e.days * DAY >= cfg.windowMinutes * MINUTE
    ensures Agree(cfg, AfterEvent(cs, cfg, before, e), all + RecordedBy(cs, cfg, before, e))
  {
    hide LoginAnswer, AfterLogin, Failures, KeepFrom, Recorded, AfterLoad;
    var rows := RecordedBy(cs, cfg, before, e);
    assert all + [] == all && before.attempts + [] == before.attempts;
    match e
    case Login(email, _, ip, _) =>
      RecordedByIsAppended(cs, cfg, before, e);
      if rows != [] {
        RecordedNow(cs, cfg, before, e);
        AgreeAppend(cfg, before, all, rows[0]);
      }
    case PurgeAttempts(days) =>
      var since := before.now - days * DAY;
      KeepFromSubset(before.attempts, since);
      forall key, lo, hi | lo > before.now - cfg.windowMinutes * MINUTE
        ensures Failures(KeepFrom(before.attempts, since), key, lo, hi) == Failures(all, key, lo, hi)
      {
        KeepFromCounts(before.attempts, since, key, lo, hi);
      }
    case Load(token, touched) =>
      LoadKeepsAttempts(cfg, before, token, touched);
    case _ =>
  }

  lemma RecordedNow(cs: Casing, cfg: Config, t: Tables, e: Event)
    ensures var rows := RecordedBy(cs, cfg, t, e); rows != [] ==> rows == [rows[0]] && rows[0].at == t.now
  {
  }

  lemma LoadKeepsAttempts(cfg: Config, t: Tables, token: string, touched: bool)
    ensures AfterLoad(cfg, t, token, touched) == t.(sessions := AfterLoad(cfg, t, token, touched).sessions)
  {
  }

  lemma {:induction false} RunAgrees(cs: Casing, cfg: Config, t: Tables, events: seq<Event>)
    requires Initial(t) && WindowKept(cfg, events)
    ensures Agree(cfg, AfterRun(cs, cfg, t, events), Recordings(cs, cfg, t, events))
  {
    hide AfterEvent, RecordedBy;
    if events != [] {
      var init, e := events[..|events| - 1], events[|events| - 1];
      RunAgrees(cs, cfg, t, init);
      AgreeStep(cs, cfg, AfterRun(cs, cfg, t, init), Recordings(cs, cfg, t, init), e);
    }
  }

  /**
   Clean-up that keeps the window never changes an isBlocked answer: the answer is
   always the one the full record gives.
   */
  lemma PurgeInvisibleToLockout(cs: Casing, cfg: Config, t: Tables, events: seq<Event>, identifier: string, ip: string)
    requires Initial(t) && WindowKept(cfg, events)
    ensures var now := AfterRun(cs, cfg, t, events);
            IsBlocked(cfg, now, identifier, ip)
            <==> IsBlocked(cfg, now.(attempts := Recordings(cs, cfg, t, events)), identifier, ip)
  {
    hide AfterRun, Recordings, Failures;
    RunAgrees(cs, cfg, t, events);
    var now, all := AfterRun(cs, cfg, t, events), Recordings(cs, cfg, t, events);
    SameFailuresSameAnswer(cfg, now, all, ByIdentifier(identifier));
    SameFailuresSameAnswer(cfg, now, all, ByIp(ip));
  }

  lemma SameFailuresSameAnswer(cfg: Config, t: Tables, all: seq<Attempt>, key: Key)
    requires Agree(cfg, t, all)
    ensures RecentFailures(t, key, cfg.windowMinutes * MINUTE)
            == RecentFailures(t.(attempts := all), key, cfg.windowMinutes * MINUTE)
  {
  }

  // --------------------------------------------------------- exactly when a login is blocked

  ghost predicate Fails(a: Attempt, key: Key, lo: int, hi: int) {
    !a.ok && Matches(a, key) && lo <= a.at <= hi
  }

  /** The places of the failed attempts, each place once. */
  ghost function FailedAt(attempts: seq<Attempt>, key: Key, lo: int, hi: int): set<nat> {
    set i: nat | i < |attempts| && Fails(attempts[i], key, lo, hi)
  }

  lemma NoneFailed(key: Key, lo: int, hi: int)
    ensures FailedAt([], key, lo, hi) == {}
  {
    forall i
      ensures i !in FailedAt([], key, lo, hi)
    {
    }
  }

  lemma FailedLast(attempts: seq<Attempt>, key: Key, lo: int, hi: int)
    requires attempts != []
    ensures var n := |attempts| - 1;
            && FailedAt(attempts, key, lo, hi) == FailedAt(attempts[..n], key, lo, hi) + (if Fails(attempts[n], key, lo, hi) then {n} else {})
            && n !in FailedAt(attempts[..n], key, lo, hi)
  {
    hide Fails;
  }

  lemma {:induction false} FailuresCounted(attempts: seq<Attempt>, key: Key, lo: int, hi: int)
    ensures Failures(attempts, key, lo, hi) == |FailedAt(attempts, key, lo, hi)|
  {
    hide FailedAt;
    if attempts == [] {
      NoneFailed(key, lo, hi);
    } else {
      FailuresCounted(attempts[..|attempts| - 1], key, lo, hi);
      FailedLast(attempts, key, lo, hi);
    }
  }

  /** No attempt is ever dated later than the clock. */
  lemma {:induction false} NoFutureAttempts(cs: Casing, cfg: Config, t: Tables, events: seq<Event>)
    requires Initial(t)
    ensures forall a :: a in AfterRun(cs, cfg, t, events).attempts ==> a.at <= AfterRun(cs, cfg, t, events).now
  {
    hide LoginAnswer, LoadAnswer, KeepFrom, Touched, RevokedAll;
    if events != [] {
      var before := AfterRun(cs, cfg, t, events[..|events| - 1]);
      NoFutureAttempts(cs, cfg, t, events[..|events| - 1]);
      var e := events[|events| - 1];
      if e.PurgeAttempts? {
        KeepFromSubset(before.attempts, before.now - e.days * DAY);
      }
    }
  }

  lemma WindowCounted(cfg: Config, t: Tables, key: Key)
    requires forall a :: a in t.attempts ==> a.at <= t.now
    ensures RecentFailures(t, key, cfg.windowMinutes * MINUTE)
            == |set i: nat | i < |t.attempts| && !t.attempts[i].ok && Matches(t.attempts[i], key)
                             && t.now - t.attempts[i].at < cfg.windowMinutes * 60_000|
  {
    var lo := t.now - cfg.windowMinutes * MINUTE + 1;
    FailuresCounted(t.attempts, key, lo, t.now);
    assert forall i :: 0 <= i < |t.attempts| ==> t.attempts[i] in t.attempts;
    assert FailedAt(t.attempts, key, lo, t.now)
        == set i: nat | i < |t.attempts| && !t.attempts[i].ok && Matches(t.attempts[i], key)
                        && t.now - t.attempts[i].at < cfg.windowMinutes * 60_000;
  }

  /**
   After any run a login is blocked exactly when its identifier or its address has as
   many failed attempts in the past window as the limit allows, or more.
   */
  lemma LockedExactly(cs: Casing, cfg: Config, t: Tables, events: seq<Event>, identifier: string, ip: string)
    requires Initial(t)
    ensures var u := AfterRun(cs, cfg, t, events);
            IsBlocked(cfg, u, identifier, ip) <==>
              || |set i: nat | i < |u.attempts| && !u.attempts[i].ok && u.attempts[i].identifier == identifier
                               && u.now - u.attempts[i].at < cfg.windowMinutes * 60_000| >= cfg.maxPerIdentifier
              || |set i: nat | i < |u.attempts| && !u.attempts[i].ok && u.attempts[i].ip == ip
                               && u.now - u.attempts[i].at < cfg.windowMinutes * 60_000| >= cfg.maxPerIp
  {
    hide AfterRun, RecentFailures;
    var u := AfterRun(cs, cfg, t, events);
    NoFutureAttempts(cs, cfg, t, events);
    WindowCounted(cfg, u, ByIdentifier(identifier));
    WindowCounted(cfg, u, ByIp(ip));
    assert (set i: nat | i < |u.attempts| && !u.attempts[i].ok && Matches(u.attempts[i], ByIdentifier(identifier))
                         && u.now - u.attempts[i].at < cfg.windowMinutes * 60_000)
        == set i: nat | i < |u.attempts| && !u.attempts[i].ok && u.attempts[i].identifier == identifier
                        && u.now - u.attempts[i].at < cfg.windowMinutes * 60_000;
    assert (set i: nat | i < |u.attempts| && !u.attempts[i].ok && Matches(u.attempts[i], ByIp(ip))
                         && u.now - u.attempts[i].at < cfg.windowMinutes * 60_000)
        == set i: nat | i < |u.attempts| && !u.attempts[i].ok && u.attempts[i].ip == ip
                        && u.now - u.attempts[i].at < cfg.windowMinutes * 60_000;
  }

  /** Every login that is not locked out adds one attempt, failed unless it succeeded. */
  lemma LoginRecordsItself(cs: Casing, cfg: Config, t: Tables, e: Event)
    requires e.Login?
    ensures var r := LoginAnswer(cs, cfg, t, e.email, e.password, e.ip, e.mint);
            var rows := AfterEvent(cs, cfg, t, e).attempts;
            if r == Refused(LockedOut) then rows == t.attempts
            else |rows| == |t.attempts| + 1 && rows[..|t.attempts|] == t.attempts
                 && var a := rows[|t.attempts|];
                    && a.ok == r.LoggedIn? && a.at == t.now && a.identifier == NormalizeEmail(cs, e.email)
                    && a.ip == if |e.ip| > 64 then e.ip[..64] else e.ip
  {
    hide LoginAnswer, RevokedAll;
  }

  /** The clean-up of attempts keeps exactly those of the last days, in order. */
  lemma {:induction false} KeptAttempts(attempts: seq<Attempt>, since: int)
    ensures forall a :: multiset(KeepFrom(attempts, since))[a] == if a.at >= since then multiset(attempts)[a] else 0
  {
    if attempts != [] {
      var n := |attempts| - 1;
      KeptAttempts(attempts[..n], since);
      assert attempts == attempts[..n] + [attempts[n]];
    }
  }

  lemma PurgeAttemptsDeletesExactly(cs: Casing, cfg: Config, t: Tables, days: nat)
    ensures var u := AfterEvent(cs, cfg, t, PurgeAttempts(days));
            && u == t.(attempts := u.attempts)
            && forall a :: multiset(u.attempts)[a]
                           == if t.now - a.at <= days * 86_400_000 then multiset(t.attempts)[a] else 0
  {
    hide KeepFrom;
    KeptAttempts(t.attempts, t.now - days * DAY);
  }

  // --------------------------------------------------------- the bound

  ghost predicate Bounded(all: seq<Attempt>, key: Key, window: int, limit: nat) {
    forall lo, hi :: hi - lo < window ==> Failures(all, key, lo, hi) <= limit
  }

  lemma BoundedAppend(all: seq<Attempt>, a: Attempt, key: Key, window: int, limit: nat)
    requires Bounded(all, key, window, limit) && forall b :: b in all ==> b.at <= a.at
    requires !a.ok && Matches(a, key) ==> Failures(all, key, a.at - window + 1, a.at) < limit
    ensures Bounded(all + [a], key, window, limit)
  {
    forall lo, hi | hi - lo < window
      ensures Failures(all + [a], key, lo, hi) <= limit
    {
      FailuresAppend(all, a, key, lo, hi);
      if !a.ok && Matches(a, key) && lo <= a.at <= hi {
        FailuresCapped(all, key, lo, hi, a.at);
        FailuresMonotone(all, key, lo, a.at, a.at - window + 1, a.at);
      }
    }
  }

  lemma {:induction false} EmptyBounded(key: Key, window: int, limit: nat)
    ensures Bounded([], key, window, limit)
  {
  }

  lemma SliceTwice(s: string)
    ensures Slice(Slice(s, 254), 254) == Slice(s, 254)
  {
  }

  /** What a failed, unblocked login records was counted below every limit just before. */
  lemma UnblockedBelowLimit(cs: Casing, cfg: Config, t: Tables, e: Event, key: Key)
    requires e.Login? && SeesItself(key, e.ip)
    ensures var r := LoginAnswer(cs, cfg, t, e.email, e.password, e.ip, e.mint);
            var a := Recorded(NormalizeEmail(cs, e.email), e.ip, r.LoggedIn?, t.now);
            r != Refused(LockedOut) && Matches(a, key)
            ==> RecentFailures(t, key, cfg.windowMinutes * MINUTE) < Limit(cfg, key)
  {
    hide Failures, RecentFailures;
    SliceTwice(cs.ToLower(Trim(if e.email.None? then "" else e.email.value)));
  }

  lemma BoundStep(cs: Casing, cfg: Config, before: Tables, all: seq<Attempt>, e: Event, key: Key)
    requires Agree(cfg, before, all) && (e.Login? ==> SeesItself(key, e.ip))
    requires Bounded(all, key, cfg.windowMinutes * MINUTE, Limit(cfg, key))
    ensures Bounded(all + RecordedBy(cs, cfg, before, e), key, cfg.windowMinutes * MINUTE, Limit(cfg, key))
  {
    hide LoginAnswer, NormalizeEmail, Failures, Bounded;
    var rows := RecordedBy(cs, cfg, before, e);
    assert all + [] == all;
    if rows != [] {
      UnblockedBelowLimit(cs, cfg, before, e, key);
      SameFailuresSameAnswer(cfg, before, all, key);
      BoundedAppend(all, rows[0], key, cfg.windowMinutes * MINUTE, Limit(cfg, key));
    }
  }

  /**
   In every run, every span shorter than the window holds at most the configured
   number of recorded failures: for every identifier, and for every address that
   no login of the run is cut down to.
   */
  lemma {:induction false} LockoutBound(cs: Casing, cfg: Config, t: Tables, events: seq<Event>, key: Key)
    requires Initial(t) && WindowKept(cfg, events) && AllSeen(key, events)
    ensures Bounded(Recordings(cs, cfg, t, events), key, cfg.windowMinutes * MINUTE, Limit(cfg, key))
  {
    hide RecordedBy, Bounded, Agree, AfterEvent, SeesItself;
    if events == [] {
      EmptyBounded(key, cfg.windowMinutes * MINUTE, Limit(cfg, key));
    } else {
      var init, e := events[..|events| - 1], events[|events| - 1];
      LockoutBound(cs, cfg, t, init, key);
      RunAgrees(cs, cfg, t, init);
      assert events[|events| - 1] == e;
      BoundStep(cs, cfg, AfterRun(cs, cfg, t, init), Recordings(cs, cfg, t, init), e, key);
    }
  }

  /** An address shorter than the column cut is bounded in every run, whoever else logs in. */
  lemma ShortAddressBound(cs: Casing, cfg: Config, t: Tables, events: seq<Event>, ip: string)
    requires Initial(t) && WindowKept(cfg, events) && |ip| < 64
    ensures Bounded(Recordings(cs, cfg, t, events), ByIp(ip), cfg.windowMinutes * MINUTE, cfg.maxPerIp)
  {
    hide Bounded;
    LockoutBound(cs, cfg, t, events, ByIp(ip));
  }

  // --------------------------------------------------------- blocked attempts

  /** The login is refused as locked out. */
  predicate Stopped(cs: Casing, cfg: Config, t: Tables, e: Event) {
    e.Login? && LoginAnswer(cs, cfg, t, e.email, e.password, e.ip, e.mint) == Refused(LockedOut)
  }

  /** The run without its locked-out logins. */
  function WithoutStopped(cs: Casing, cfg: Config, t: Tables, events: seq<Event>): seq<Event> {
    if events == [] then []
    else
      var init, e := events[..|events| - 1], events[|events| - 1];
      WithoutStopped(cs, cfg, t, init) + (if Stopped(cs, cfg, AfterRun(cs, cfg, t, init), e) then [] else [e])
  }

  /** A login is refused as locked out exactly when it is blocked, and then, and only then, nothing changes. */
  lemma BlockedChangesNothing(cs: Casing, cfg: Config, t: Tables, e: Event)
    requires e.Login?
    ensures Stopped(cs, cfg, t, e) <==> IsBlocked(cfg, t, NormalizeEmail(cs, e.email), e.ip)
    ensures Stopped(cs, cfg, t, e) <==> AfterEvent(cs, cfg, t, e) == t
    ensures Stopped(cs, cfg, t, e) <==> RecordedBy(cs, cfg, t, e) == []
  {
  }

  /** Blocked attempts leave no trace in any run: they cannot start, prolong or lift a lock, now or later. */
  lemma {:induction false} BlockedAttemptsLeaveNoTrace(cs: Casing, cfg: Config, t: Tables, events: seq<Event>)
    ensures AfterRun(cs, cfg, t, WithoutStopped(cs, cfg, t, events)) == AfterRun(cs, cfg, t, events)
    ensures Recordings(cs, cfg, t, WithoutStopped(cs, cfg, t, events)) == Recordings(cs, cfg, t, events)
  {
    hide AfterEvent, RecordedBy, LoginAnswer;
    if events != [] {
      var init, e := events[..|events| - 1], events[|events| - 1];
      var before, all := AfterRun(cs, cfg, t, init), Recordings(cs, cfg, t, init);
      var kept := WithoutStopped(cs, cfg, t, init);
      BlockedAttemptsLeaveNoTrace(cs, cfg, t, init);
      assert kept + [] == kept && all + [] == all;
      if Stopped(cs, cfg, before, e) {
        BlockedChangesNothing(cs, cfg, before, e);
      } else {
        RunAppend(cs, cfg, t, kept, e);
      }
    }
  }

  // --------------------------------------------------------- when the bound per address fails

  lemma {:induction false} NoFailures(attempts: seq<Attempt>, key: Key, lo: int, hi: int)
    requires forall a :: a in attempts ==> !Matches(a, key)
    ensures Failures(attempts, key, lo, hi) == 0
  {
    if attempts != [] {
      assert attempts[|attempts| - 1] in attempts;
      NoFailures(attempts[..|attempts| - 1], key, lo, hi);
    }
  }

  /** The i-th failed login: its own e-mail, no password. */
  function Guess(ip: string, mint: Mint, i: nat): Event {
    Login(Some(Digits(i)), None, ip, mint)
  }

  function Guesses(ip: string, mint: Mint, n: nat): seq<Event> {
    if n == 0 then [] else Guesses(ip, mint, n - 1) + [Guess(ip, mint, n - 1)]
  }

  /** What they record at one instant. */
  function GuessRows(ip: string, now: int, n: nat): (rows: seq<Attempt>)
    ensures |rows| == n && forall i :: 0 <= i < n ==> rows[i] == Attempt(Digits(i), Slice(ip, 64), false, now)
  {
    if n == 0 then [] else GuessRows(ip, now, n - 1) + [Attempt(Digits(n - 1), Slice(ip, 64), false, now)]
  }

  lemma {:induction false} GuessRowsCount(ip: string, now: int, n: nat)
    ensures Failures(GuessRows(ip, now, n), ByIp(Slice(ip, 64)), now, now) == n
  {
    hide Failures, Digits;
    if n == 0 {
      NoFailures([], ByIp(Slice(ip, 64)), now, now);
    } else {
      GuessRowsCount(ip, now, n - 1);
      FailuresAppend(GuessRows(ip, now, n - 1), Attempt(Digits(n - 1), Slice(ip, 64), false, now),
                     ByIp(Slice(ip, 64)), now, now);
    }
  }

  lemma {:induction false} DigitsGrow(i: nat, n: nat)
    requires i <= n
    ensures |Digits(i)| <= |Digits(n)|
  {
    if i >= 10 {
      DigitsGrow(i / 10, n / 10);
    }
  }

  lemma DigitsAsEmail(cs: Casing, i: nat)
    requires cs.Lawful() && |Digits(i)| <= 254
    ensures NormalizeEmail(cs, Some(Digits(i))) == Digits(i)
  {
    var d := Digits(i);
    assert d[0] in d && d[|d| - 1] in d;
    TrimIdentity(d);
    FlatMapIdentity(cs.lower, d);
  }

  lemma DigitsDiffer(i: nat, n: nat)
    requires i != n
    ensures Digits(i) != Digits(n)
  {
    hide Digits, DigitsValue;
    DigitsRoundTrip(i);
    DigitsRoundTrip(n);
  }

  /** Nothing is counted under the new identifier or under the whole address. */
  lemma GuessUnblocked(cfg: Config, t: Tables, ip: string, n: nat)
    requires |ip| > 64 && cfg.maxPerIp > 0 && cfg.maxPerIdentifier > 0
    requires t.attempts == GuessRows(ip, t.now, n)
    ensures !IsBlocked(cfg, t, Digits(n), ip)
  {
    hide Failures, Digits, GuessRows;
    forall a | a in t.attempts
      ensures !Matches(a, ByIdentifier(Digits(n))) && !Matches(a, ByIp(ip))
    {
      var i: nat :| i < n && t.attempts[i] == a;
      DigitsDiffer(i, n);
    }
    var w := cfg.windowMinutes * MINUTE;
    NoFailures(t.attempts, ByIdentifier(Digits(n)), t.now - w + 1, t.now);
    NoFailures(t.attempts, ByIp(ip), t.now - w + 1, t.now);
  }

  lemma GuessRecorded(cs: Casing, cfg: Config, t: Tables, ip: string, mint: Mint, n: nat)
    requires cs.Lawful() && |Digits(n)| <= 254 && |ip| > 64 && cfg.maxPerIp > 0 && cfg.maxPerIdentifier > 0
    requires t.attempts == GuessRows(ip, t.now, n)
    ensures RecordedBy(cs, cfg, t, Guess(ip, mint, n)) == [Attempt(Digits(n), Slice(ip, 64), false, t.now)]
    ensures AfterEvent(cs, cfg, t, Guess(ip, mint, n)) == t.(attempts := GuessRows(ip, t.now, n + 1))
  {
    hide IsBlocked, NormalizeEmail, Digits, AccountFor;
    DigitsAsEmail(cs, n);
    GuessUnblocked(cfg, t, ip, n);
  }

  lemma EmptyRun(cs: Casing, cfg: Config, t: Tables)
    ensures AfterRun(cs, cfg, t, []) == t && Recordings(cs, cfg, t, []) == []
  {
  }

  lemma RunAppend(cs: Casing, cfg: Config, t: Tables, events: seq<Event>, e: Event)
    ensures AfterRun(cs, cfg, t, events + [e]) == AfterEvent(cs, cfg, AfterRun(cs, cfg, t, events), e)
    ensures Recordings(cs, cfg, t, events + [e])
            == Recordings(cs, cfg, t, events) + RecordedBy(cs, cfg, AfterRun(cs, cfg, t, events), e)
  {
    hide AfterEvent, RecordedBy;
    assert (events + [e])[..|events|] == events;
  }

  lemma {:induction false} GuessesRecorded(cs: Casing, cfg: Config, t: Tables, ip: string, mint: Mint, n: nat)
    requires Initial(t) && cs.Lawful() && |ip| > 64 && cfg.maxPerIp > 0 && cfg.maxPerIdentifier > 0
    requires n > 0 ==> |Digits(n - 1)| <= 254
    ensures Recordings(cs, cfg, t, Guesses(ip, mint, n)) == GuessRows(ip, t.now, n)
    ensures AfterRun(cs, cfg, t, Guesses(ip, mint, n)) == t.(attempts := GuessRows(ip, t.now, n))
  {
    hide AfterEvent, RecordedBy, Guess, Digits, AfterRun, Recordings;
    if n == 0 {
      EmptyRun(cs, cfg, t);
    } else {
      if n > 1 {
        DigitsGrow(n - 2, n - 1);
      }
      GuessesRecorded(cs, cfg, t, ip, mint, n - 1);
      RunAppend(cs, cfg, t, Guesses(ip, mint, n - 1), Guess(ip, mint, n - 1));
      GuessRecorded(cs, cfg, t.(attempts := GuessRows(ip, t.now, n - 1)), ip, mint, n - 1);
    }
  }

  /** Every login of the run comes from one of the given addresses. */
  predicate LoginsFrom(addresses: string -> bool, events: seq<Event>) {
    forall i :: 0 <= i < |events| && events[i].Login? ==> addresses(events[i].ip)
  }

  lemma {:induction false} GuessesFrom(ip: string, mint: Mint, n: nat)
    ensures |Guesses(ip, mint, n)| == n && forall i :: 0 <= i < n ==> Guesses(ip, mint, n)[i].Login? && Guesses(ip, mint, n)[i].ip == ip
  {
    if n > 0 {
      GuessesFrom(ip, mint, n - 1);
    }
  }

  /** Guesses from a long address, one more than the limit, overrun the limit of the address they are stored under. */
  lemma LongAddressEscapesLimit(cs: Casing, cfg: Config, t: Tables, ip: string, mint: Mint)
    requires Initial(t) && cs.Lawful() && |ip| > 64
    requires cfg.maxPerIp > 0 && cfg.maxPerIdentifier > 0 && cfg.windowMinutes > 0 && |Digits(cfg.maxPerIp)| <= 254
    ensures !Bounded(Recordings(cs, cfg, t, Guesses(ip, mint, cfg.maxPerIp + 1)), ByIp(Slice(ip, 64)),
                     cfg.windowMinutes * MINUTE, cfg.maxPerIp)
  {
    hide Failures, Digits;
    GuessesRecorded(cs, cfg, t, ip, mint, cfg.maxPerIp + 1);
    GuessRowsCount(ip, t.now, cfg.maxPerIp + 1);
    assert t.now - t.now < cfg.windowMinutes * MINUTE;
  }

  /** The bound of an address over every run whose logins come from the given addresses. */
  ghost predicate AlwaysBounded(cs: Casing, cfg: Config, t: Tables, addresses: string -> bool, ip: string) {
    forall events :: WindowKept(cfg, events) && LoginsFrom(addresses, events) ==>
      Bounded(Recordings(cs, cfg, t, events), ByIp(ip), cfg.windowMinutes * MINUTE, cfg.maxPerIp)
  }

  /**
   Exactly when the limit per address holds: an address is bounded in all runs with
   logins from the given addresses if and only if none of them is longer than 64
   characters and cut down to it. (A limit of more than 254 digits is left aside:
   there are not enough identifiers to reach it.)
   */
  lemma AddressBoundExactly(cs: Casing, cfg: Config, t: Tables, addresses: string -> bool, ip: string)
    requires Initial(t) && cs.Lawful()
    requires cfg.maxPerIp > 0 && cfg.maxPerIdentifier > 0 && cfg.windowMinutes > 0 && |Digits(cfg.maxPerIp)| <= 254
    ensures AlwaysBounded(cs, cfg, t, addresses, ip) <==> forall other :: addresses(other) ==> SeesItself(ByIp(ip), other)
  {
    hide Bounded, Recordings, Digits, SeesItself;
    if forall other :: addresses(other) ==> SeesItself(ByIp(ip), other) {
      forall events | WindowKept(cfg, events) && LoginsFrom(addresses, events)
        ensures Bounded(Recordings(cs, cfg, t, events), ByIp(ip), cfg.windowMinutes * MINUTE, cfg.maxPerIp)
      {
        LockoutBound(cs, cfg, t, events, ByIp(ip));
      }
    } else {
      var other :| addresses(other) && !SeesItself(ByIp(ip), other);
      LongAddressRun(cs, cfg, t, addresses, ip, other);
    }
  }

  lemma LongAddressRun(cs: Casing, cfg: Config, t: Tables, addresses: string -> bool, ip: string, other: string)
    requires Initial(t) && cs.Lawful() && addresses(other) && !SeesItself(ByIp(ip), other)
    requires cfg.maxPerIp > 0 && cfg.maxPerIdentifier > 0 && cfg.windowMinutes > 0 && |Digits(cfg.maxPerIp)| <= 254
    ensures !AlwaysBounded(cs, cfg, t, addresses, ip)
  {
    hide Bounded, Recordings, Digits;
    var mint := Mint("t", "c", "i");
    var run := Guesses(other, mint, cfg.maxPerIp + 1);
    GuessesFrom(other, mint, cfg.maxPerIp + 1);
    LongAddressEscapesLimit(cs, cfg, t, other, mint);
    assert WindowKept(cfg, run) && LoginsFrom(addresses, run);
  }
}
