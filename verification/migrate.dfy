/**
 The migration runner as a protocol between any number of runners and one
 PostgreSQL server. Every statement of runMigrations is one step; a step may
 fail, a connection may drop at any moment, and a COMMIT may take effect
 although the runner only sees an error.
 */
module Migrate {
  import opened Wrappers
  import opened MigrationFiles

  type Id = nat

  datatype Phase =
    | Waiting                       // pg_advisory_lock not granted yet
    | Locked                        // lock granted
    | Ready                         // schema_migrations exists
    | Looping                       // between two files
    | InTransaction(ran: bool, inserted: bool)
    | RollingBack                   // in the catch block of a file
    | Unlocking(ok: bool)           // in the finally block
    | Returned
    | Threw

  datatype Runner = Runner(
    phase: Phase, connected: bool,
    done: set<File>, files: seq<File>, next: nat, applied: seq<File>, skipped: seq<File>)

  /** effects lists the migrations whose schema changes are committed, in commit order. */
  datatype Server = Server(effects: seq<File>, recorded: set<File>, tableExists: bool, lock: Option<Id>)

  datatype System = System(server: Server, runners: map<Id, Runner>)

  datatype Action =
    | Connect
    | AcquireLock
    | CreateTable(acknowledged: bool)
    | ReadDone(listing: seq<File>)
    | Fail                          // a statement before the loop, or reading a file, throws
    | Skip
    | Begin
    | RunSql
    | Insert
    | SqlError                      // BEGIN, the file, INSERT or COMMIT fails; nothing is committed
    | Commit(acknowledged: bool)
    | Rollback                      // whether it succeeds or not, the error propagates
    | FinishLoop
    | Unlock(released: bool)
    | Drop                          // crash of the runner or loss of its connection

  type Step = (Id, Action)

  function Members(s: seq<File>): set<File> {
    set f | f in s
  }

  const FreshRunner := Runner(Waiting, true, {}, [], 0, [], [])

  /** The control flow of the runner and its connection allow the step. */
  predicate Ripe(r: Runner, a: Action) {
    match a
    case Connect => false
    case AcquireLock => r.phase.Waiting? && r.connected
    case CreateTable(_) => r.phase.Locked? && r.connected
    case ReadDone(listing) => r.phase.Ready? && r.connected && Listing(listing)
    case Fail => BeforeLoop(r.phase) || AtUnapplied(r)
    case Skip => r.phase.Looping? && r.next < |r.files| && r.files[r.next] in r.done
    case Begin => r.connected && AtUnapplied(r)
    case RunSql => r.phase == InTransaction(false, false) && r.connected
    case Insert => r.phase == InTransaction(true, false) && r.connected && r.next < |r.files|
    case SqlError => r.phase.InTransaction? || AtUnapplied(r)
    case Commit(_) => r.phase == InTransaction(true, true) && r.connected && r.next < |r.files|
    case Rollback => r.phase.RollingBack?
    case FinishLoop => r.phase.Looping? && r.next == |r.files|
    case Unlock(released) => r.phase.Unlocking? && (released ==> r.connected)
    case Drop => r.connected
  }

  predicate BeforeLoop(p: Phase) {
    p.Waiting? || p.Locked? || p.Ready?
  }

  predicate AtUnapplied(r: Runner) {
    r.phase.Looping? && r.next < |r.files| && r.files[r.next] !in r.done
  }

  /** The server grants the step: a free lock, an existing table, no duplicate key. */
  predicate Granted(server: Server, r: Runner, a: Action) {
    && (a.AcquireLock? ==> server.lock.None?)
    && (a.ReadDone? ==> server.tableExists)
    && (a.Insert? ==> r.next < |r.files| && r.files[r.next] !in server.recorded)
  }

  predicate Enabled(s: System, id: Id, a: Action) {
    if a.Connect? then id !in s.runners
    else id in s.runners && Ripe(s.runners[id], a) && Granted(s.server, s.runners[id], a)
  }

  function Release(server: Server, id: Id): Server {
    if server.lock == Some(id) then server.(lock := None) else server
  }

  function ServerAfter(s: System, id: Id, a: Action): Server
    requires Enabled(s, id, a)
  {
    match a
    case AcquireLock => s.server.(lock := Some(id))
    case CreateTable(_) => s.server.(tableExists := true)
    case Commit(_) =>
      var r := s.runners[id];
      s.server.(effects := s.server.effects + [r.files[r.next]], recorded := s.server.recorded + {r.files[r.next]})
    case Unlock(released) => if released then Release(s.server, id) else s.server
    case Drop => Release(s.server, id)
    case _ => s.server
  }

  function RunnerAfter(r: Runner, recorded: set<File>, a: Action): Runner
    requires Ripe(r, a)
  {
    match a
    case AcquireLock => r.(phase := Locked)
    case CreateTable(acknowledged) => r.(phase := if acknowledged then Ready else Unlocking(false))
    case ReadDone(listing) => r.(phase := Looping, done := recorded, files := listing, next := 0)
    case Fail => r.(phase := Unlocking(false))
    case Skip => r.(skipped := r.skipped + [r.files[r.next]], next := r.next + 1)
    case Begin => r.(phase := InTransaction(false, false))
    case RunSql => r.(phase := InTransaction(true, false))
    case Insert => r.(phase := InTransaction(true, true))
    case SqlError => r.(phase := RollingBack)
    case Commit(acknowledged) =>
      if acknowledged then r.(phase := Looping, applied := r.applied + [r.files[r.next]], next := r.next + 1)
      else r.(phase := RollingBack)
    case Rollback => r.(phase := Unlocking(false))
    case FinishLoop => r.(phase := Unlocking(true))
    case Unlock(_) => r.(phase := if r.phase.ok then Returned else Threw)
    case Drop => r.(connected := false)
  }

  function MovedRunner(s: System, id: Id, a: Action): Runner
    requires Enabled(s, id, a)
  {
    if a.Connect? then FreshRunner else RunnerAfter(s.runners[id], s.server.recorded, a)
  }

  function After(s: System, id: Id, a: Action): System
    requires Enabled(s, id, a)
  {
    System(ServerAfter(s, id, a), s.runners[id := MovedRunner(s, id, a)])
  }

  /** s' comes from s by some steps, any interleaving. */
  predicate Leads(s: System, steps: seq<Step>, s': System)
    decreases |steps|
  {
    if steps == [] then s' == s
    else Enabled(s, steps[0].0, steps[0].1) && Leads(After(s, steps[0].0, steps[0].1), steps[1..], s')
  }

  const Empty := System(Server([], {}, false, None), map[])

  // --------------------------------------------------------- invariant

  function Kept(files: seq<File>, done: set<File>, want: bool): seq<File> {
    if files == [] then []
    else
      var init, f := files[..|files| - 1], files[|files| - 1];
      Kept(init, done, want) + (if (f in done) == want then [f] else [])
  }

  /** What a runner knows about itself, connected or not. */
  predicate RunnerOk(server: Server, r: Runner) {
    && Listing(r.files) && r.next <= |r.files|
    && r.applied == Kept(r.files[..r.next], r.done, false)
    && r.skipped == Kept(r.files[..r.next], r.done, true)
    && r.done <= server.recorded && Members(r.applied) <= server.recorded
    && (BeforeLoop(r.phase) ==> r.files == [] && r.done == {})
    && (r.phase.InTransaction? ==> r.next < |r.files| && r.files[r.next] !in r.done)
    && (r.phase.Returned? || r.phase == Unlocking(true) ==> r.next == |r.files|)
    && (r.phase == Ready && r.connected ==> server.tableExists)
  }

  /** The phases of a connected runner that needs the lock. */
  predicate Critical(p: Phase) {
    p.Locked? || p.Ready? || p.Looping? || p.InTransaction? || p.RollingBack? || p == Unlocking(true)
  }

  /** Between lock and unlock, on a live connection. */
  predicate InCritical(s: System, id: Id) {
    id in s.runners && s.runners[id].connected && Critical(s.runners[id].phase)
  }

  /** What the lock holder knows about the table. */
  predicate HolderOk(server: Server, r: Runner) {
    && r.connected && !r.phase.Waiting?
    && (r.phase.Looping? || r.phase.InTransaction? || r.phase == Unlocking(true)
        ==> server.recorded == r.done + Members(r.applied))
    && (r.phase.RollingBack? ==>
          || server.recorded == r.done + Members(r.applied)
          || (r.next < |r.files| && server.recorded == r.done + Members(r.applied) + {r.files[r.next]}))
  }

  predicate TablesOk(server: Server) {
    Distinct(server.effects) && Members(server.effects) == server.recorded
  }

  ghost predicate RunnersOk(s: System) {
    forall id :: id in s.runners ==> RunnerOk(s.server, s.runners[id])
  }

  /** Only the lock holder is between lock and unlock. */
  ghost predicate LockOk(s: System) {
    forall id: Id :: InCritical(s, id) ==> s.server.lock == Some(id)
  }

  predicate HolderKnows(s: System) {
    s.server.lock.Some? ==> s.server.lock.value in s.runners && HolderOk(s.server, s.runners[s.server.lock.value])
  }

  ghost predicate Inv(s: System) {
    TablesOk(s.server) && RunnersOk(s) && LockOk(s) && HolderKnows(s)
  }

  lemma {:induction false} KeptMember(files: seq<File>, done: set<File>, want: bool, f: File)
    ensures f in Kept(files, done, want) <==> f in files && (f in done) == want
  {
    if files != [] {
      KeptMember(files[..|files| - 1], done, want, f);
      assert files == files[..|files| - 1] + [files[|files| - 1]];
    }
  }

  lemma KeptNext(files: seq<File>, done: set<File>, want: bool, n: nat)
    requires n < |files|
    ensures Kept(files[..n + 1], done, want)
            == Kept(files[..n], done, want) + (if (files[n] in done) == want then [files[n]] else [])
  {
    assert files[..n + 1][..n] == files[..n];
  }

  /** In a transaction of the holder, the current file is not recorded yet. */
  lemma CurrentIsNew(server: Server, r: Runner)
    requires RunnerOk(server, r) && HolderOk(server, r) && r.phase.InTransaction?
    ensures r.files[r.next] !in server.recorded
  {
    var f := r.files[r.next];
    SortedIsDistinct(r.files);
    assert f !in r.files[..r.next];
    KeptMember(r.files[..r.next], r.done, false, f);
  }

  lemma CommitExtends(server: Server, f: File)
    requires Distinct(server.effects) && Members(server.effects) == server.recorded && f !in server.recorded
    ensures Distinct(server.effects + [f]) && Members(server.effects + [f]) == server.recorded + {f}
  {
    assert forall g :: g in server.effects ==> g in Members(server.effects);
  }

  /** Steps other than a commit leave the two tables alone. */
  lemma OnlyCommitWrites(s: System, id: Id, a: Action)
    requires Enabled(s, id, a)
    ensures !a.Commit? ==> var t := ServerAfter(s, id, a); t.effects == s.server.effects && t.recorded == s.server.recorded
    ensures s.server.recorded <= ServerAfter(s, id, a).recorded
    ensures s.server.tableExists ==> ServerAfter(s, id, a).tableExists
  {
  }

  lemma NewRunnerOk(server: Server)
    ensures RunnerOk(server, FreshRunner)
    ensures forall done: set<File>, want :: Kept([], done, want) == []
  {
  }

  lemma RunnerStep(s: System, id: Id, a: Action)
    requires Inv(s) && Enabled(s, id, a)
    ensures RunnerOk(ServerAfter(s, id, a), MovedRunner(s, id, a))
  {
    hide TablesOk, LockOk, HolderOk, Kept;
    OnlyCommitWrites(s, id, a);
    if a.Connect? {
      NewRunnerOk(s.server);
    } else {
      var r := s.runners[id];
      if a.ReadDone? {
        NewRunnerOk(s.server);
      }
      if a.Skip? || a.Commit? {
        KeptNext(r.files, r.done, true, r.next);
        KeptNext(r.files, r.done, false, r.next);
      }
    }
  }

  lemma NothingAppliedYet(server: Server, r: Runner)
    requires RunnerOk(server, r) && BeforeLoop(r.phase)
    ensures r.applied == []
  {
  }

  lemma HolderStep(s: System, id: Id, a: Action)
    requires Inv(s) && Enabled(s, id, a) && ServerAfter(s, id, a).lock == Some(id)
    ensures HolderOk(ServerAfter(s, id, a), MovedRunner(s, id, a))
  {
    hide Listing, Kept;
    if !a.AcquireLock? {
      assert !a.Connect?;
      var r := s.runners[id];
      assert s.server.lock == Some(id);
      if a.Commit? {
        CurrentIsNew(s.server, r);
      } else if a.ReadDone? {
        NothingAppliedYet(s.server, r);
      }
    }
  }

  lemma TablesStep(s: System, id: Id, a: Action)
    requires Inv(s) && Enabled(s, id, a)
    ensures TablesOk(ServerAfter(s, id, a))
  {
    OnlyCommitWrites(s, id, a);
    if a.Commit? {
      var r := s.runners[id];
      assert InCritical(s, id);
      CurrentIsNew(s.server, r);
      CommitExtends(s.server, r.files[r.next]);
    }
  }

  lemma LockStep(s: System, id: Id, a: Action)
    requires Inv(s) && Enabled(s, id, a)
    ensures LockOk(After(s, id, a))
  {
    hide RunnerOk, HolderOk, TablesOk, RunnersOk;
    var t := After(s, id, a);
    forall other: Id | InCritical(t, other)
      ensures t.server.lock == Some(other)
    {
      if other != id {
        assert InCritical(s, other);
      } else if !a.Connect? && !a.AcquireLock? {
        assert InCritical(s, id);
      }
    }
  }

  lemma OthersStep(s: System, id: Id, a: Action, other: Id)
    requires Inv(s) && Enabled(s, id, a) && other != id && other in s.runners
    ensures RunnerOk(ServerAfter(s, id, a), s.runners[other])
    ensures ServerAfter(s, id, a).lock == Some(other) ==> HolderOk(ServerAfter(s, id, a), s.runners[other])
  {
    hide Kept;
    OnlyCommitWrites(s, id, a);
    if a.Commit? {
      assert InCritical(s, id);
    }
  }

  lemma InvStep(s: System, id: Id, a: Action)
    requires Inv(s) && Enabled(s, id, a)
    ensures Inv(After(s, id, a))
  {
    hide RunnerOk, HolderOk, TablesOk, LockOk, Enabled, ServerAfter, MovedRunner;
    var t := After(s, id, a);
    TablesStep(s, id, a);
    LockStep(s, id, a);
    RunnerStep(s, id, a);
    forall other | other in t.runners
      ensures RunnerOk(t.server, t.runners[other])
    {
      if other != id {
        OthersStep(s, id, a, other);
      }
    }
    if t.server.lock.Some? {
      var holder := t.server.lock.value;
      LockHolderExists(s, id, a);
      if holder == id {
        HolderStep(s, id, a);
      } else {
        OthersStep(s, id, a, holder);
      }
    }
  }

  lemma LockHolderExists(s: System, id: Id, a: Action)
    requires Inv(s) && Enabled(s, id, a)
    ensures var lock := ServerAfter(s, id, a).lock; lock == None || lock == Some(id) || lock == s.server.lock
  {
  }

  lemma {:induction false} InvRun(s: System, steps: seq<Step>, s': System)
    requires Inv(s) && Leads(s, steps, s')
    ensures Inv(s')
    decreases |steps|
  {
    if steps != [] {
      InvStep(s, steps[0].0, steps[0].1);
      InvRun(After(s, steps[0].0, steps[0].1), steps[1..], s');
    }
  }

  // --------------------------------------------------------- exactly once

  /** What the events so far say of the last COMMIT of a runner that is rolling back. */
  ghost predicate DoubtIs(s: System, id: Id, lost: bool) {
    if id !in s.runners then !lost
    else
      var r := s.runners[id];
      && (lost ==> r.phase.RollingBack? || r.phase == Unlocking(false) || r.phase.Threw?)
      && (r.connected && r.phase.RollingBack? ==> (lost <==> s.server.recorded != r.done + Members(r.applied)))
  }

  lemma DoubtStep(s: System, id: Id, lost: bool, mover: Id, a: Action)
    requires Inv(s) && DoubtIs(s, id, lost) && Enabled(s, mover, a)
    ensures DoubtIs(After(s, mover, a), id, lost || (mover, a) == (id, Commit(false)))
  {
    hide Kept;
    OnlyCommitWrites(s, mover, a);
    assert id in s.runners && s.runners[id].connected && s.runners[id].phase.RollingBack? ==> InCritical(s, id);
    assert a.Commit? ==> InCritical(s, mover);
    if mover == id && !a.Connect? {
      var r := s.runners[id];
      assert r.connected && (r.phase.InTransaction? || AtUnapplied(r)) ==> InCritical(s, id);
      if a.Commit? {
        CurrentIsNew(s.server, r);
      }
    }
  }

  lemma {:induction false} DoubtRun(s: System, steps: seq<Step>, s': System, id: Id, lost: bool)
    requires Inv(s) && DoubtIs(s, id, lost) && Leads(s, steps, s')
    ensures DoubtIs(s', id, lost || (id, Commit(false)) in steps)
    decreases |steps|
  {
    hide Inv, DoubtIs, Enabled;
    if steps != [] {
      var step := steps[0];
      assert steps == [step] + steps[1..];
      DoubtStep(s, id, lost, step.0, step.1);
      InvStep(s, step.0, step.1);
      DoubtRun(After(s, step.0, step.1), steps[1..], s', id, lost || step == (id, Commit(false)));
    }
  }

  /**
   A live runner between reading the done-set and leaving its loop knows the table
   exactly if and only if no acknowledgement of its COMMIT was lost; if one was,
   the table is ahead by its current file.
   */
  lemma KnownExactly(steps: seq<Step>, s: System, id: Id)
    requires Leads(Empty, steps, s) && id in s.runners && s.runners[id].connected
    requires var p := s.runners[id].phase; p.Looping? || p.InTransaction? || p.RollingBack? || p == Unlocking(true)
    ensures var r := s.runners[id]; var known := r.done + Members(r.applied);
            && (s.server.recorded == known <==> (id, Commit(false)) !in steps)
            && (s.server.recorded != known ==> r.next < |r.files| && s.server.recorded == known + {r.files[r.next]})
  {
    hide Kept;
    InvRun(Empty, steps, s);
    DoubtRun(Empty, steps, s, id, false);
    assert InCritical(s, id);
  }

  /**
   In every reachable state: no file is applied twice, the committed schema
   changes are those of the recorded files, two runners are never both between
   lock and unlock, and the live runner in the loop knows the table exactly,
   unless the acknowledgement of its own COMMIT was lost.
   */
  lemma ExactlyOnce(steps: seq<Step>, s: System, a: Id, b: Id)
    requires Leads(Empty, steps, s)
    ensures Distinct(s.server.effects) && Members(s.server.effects) == s.server.recorded
    ensures InCritical(s, a) ==> s.server.lock == Some(a)
    ensures InCritical(s, a) && InCritical(s, b) ==> a == b
    ensures a in s.runners && s.runners[a].connected ==>
              var r := s.runners[a];
              var known := r.done + Members(r.applied);
              && (r.phase.Looping? || r.phase.InTransaction? || r.phase == Unlocking(true) ==> s.server.recorded == known)
              && (r.phase.RollingBack? ==>
                    s.server.recorded
                    == known + if r.next < |r.files| && (a, Commit(false)) in steps then {r.files[r.next]} else {})
  {
    hide Leads, Kept;
    InvRun(Empty, steps, s);
    if a in s.runners && s.runners[a].connected && s.runners[a].phase.RollingBack? {
      KnownExactly(steps, s, a);
    }
  }

  function LostAckSteps(id: Id, f: File): seq<Step> {
    [(id, Connect), (id, AcquireLock), (id, CreateTable(true)), (id, ReadDone([f])),
     (id, Begin), (id, RunSql), (id, Insert), (id, Commit(false))]
  }

  /** The doubt is real: a run in which a file is recorded that its live runner does not know of. */
  lemma LostAcknowledgement(id: Id, f: File) returns (s: System)
    requires EndsInSql(f)
    ensures Leads(Empty, LostAckSteps(id, f), s)
    ensures id in s.runners && s.runners[id].connected && s.runners[id].phase.RollingBack?
    ensures s.server.recorded == {f} && s.runners[id].done + Members(s.runners[id].applied) == {}
  {
    hide Leads;
    var steps := LostAckSteps(id, f);
    s := Empty;
    LeadsNowhere(s);
    for i := 0 to |steps|
      invariant Leads(Empty, steps[..i], s)
      invariant i > 0 ==> id in s.runners && s.runners[id].connected
      invariant i == 0 ==> s == Empty
      invariant i == 1 ==> s == System(Empty.server, map[id := FreshRunner])
      invariant i == 2 ==> s == System(Server([], {}, false, Some(id)), map[id := FreshRunner.(phase := Locked)])
      invariant i == 3 ==> s == System(Server([], {}, true, Some(id)), map[id := FreshRunner.(phase := Ready)])
      invariant i == 4 ==> s == System(Server([], {}, true, Some(id)), map[id := FreshRunner.(phase := Looping, files := [f])])
      invariant i == 5 ==> s == System(Server([], {}, true, Some(id)),
                                       map[id := FreshRunner.(phase := InTransaction(false, false), files := [f])])
      invariant i == 6 ==> s == System(Server([], {}, true, Some(id)),
                                       map[id := FreshRunner.(phase := InTransaction(true, false), files := [f])])
      invariant i == 7 ==> s == System(Server([], {}, true, Some(id)),
                                       map[id := FreshRunner.(phase := InTransaction(true, true), files := [f])])
      invariant i == 8 ==> s == System(Server([f], {f}, true, Some(id)),
                                       map[id := FreshRunner.(phase := RollingBack, files := [f])])
    {
      LeadsAppend(Empty, steps[..i], s, steps[i]);
      s := After(s, steps[i].0, steps[i].1);
      assert steps[..i + 1] == steps[..i] + [steps[i]];
    }
    assert steps[..8] == steps;
  }

  lemma LeadsNowhere(s: System)
    ensures Leads(s, [], s)
  {
  }

  // --------------------------------------------------------- order

  /** Every runner lists the same directory. */
  predicate FixedListing(steps: seq<Step>, files: seq<File>) {
    forall i :: 0 <= i < |steps| && steps[i].1.ReadDone? ==> steps[i].1.listing == files
  }

  ghost predicate InOrder(s: System, files: seq<File>) {
    && |s.server.effects| <= |files| && s.server.effects == files[..|s.server.effects|]
    && (s.server.effects != [] ==> Listing(files))
    && forall id :: id in s.runners && !BeforeLoop(s.runners[id].phase) && s.runners[id].files != []
         ==> s.runners[id].files == files
  }

  lemma PrefixMember(files: seq<File>, i: nat, k: nat)
    requires Distinct(files) && i < |files| && k <= |files|
    ensures files[i] in files[..k] <==> i < k
  {
    if i < k {
      assert files[..k][i] == files[i];
    }
  }

  /** The holder stands exactly at the first file that is not recorded. */
  lemma HolderPosition(s: System, id: Id, files: seq<File>)
    requires Inv(s) && InOrder(s, files) && s.server.lock == Some(id)
    requires s.runners[id].phase.InTransaction?
    ensures s.runners[id].next == |s.server.effects| && s.runners[id].files == files && Listing(files)
  {
    hide Kept, Before, EndsInSql;
    var r := s.runners[id];
    var k := |s.server.effects|;
    CurrentIsNew(s.server, r);
    assert r.files == files;
    SortedIsDistinct(files);
    PrefixMember(files, r.next, k);
    assert forall f :: f in s.server.recorded <==> f in files[..k];
    PrefixMember(files, k, k);
    PrefixMember(files, k, r.next);
    KeptMember(files[..r.next], r.done, false, files[k]);
  }

  lemma OrderStep(s: System, id: Id, a: Action, files: seq<File>)
    requires Inv(s) && InOrder(s, files) && Enabled(s, id, a)
    requires a.ReadDone? ==> a.listing == files
    ensures InOrder(After(s, id, a), files)
  {
    hide Kept, HolderOk, Listing;
    OnlyCommitWrites(s, id, a);
    if a.Commit? {
      assert InCritical(s, id);
      HolderPosition(s, id, files);
      var k := |s.server.effects|;
      assert files[..k + 1] == files[..k] + [files[k]];
    }
  }

  /** With one fixed directory, the committed changes are always a prefix of it, in order. */
  lemma {:induction false} AppliedInOrder(s: System, steps: seq<Step>, s': System, files: seq<File>)
    requires Inv(s) && InOrder(s, files) && Leads(s, steps, s') && FixedListing(steps, files)
    ensures InOrder(s', files)
    decreases |steps|
  {
    if steps != [] {
      OrderStep(s, steps[0].0, steps[0].1, files);
      InvStep(s, steps[0].0, steps[0].1);
      assert forall i :: 0 <= i < |steps[1..]| ==> steps[1..][i] == steps[i + 1];
      AppliedInOrder(After(s, steps[0].0, steps[0].1), steps[1..], s', files);
    }
  }

  lemma MigrationOrder(steps: seq<Step>, s: System, files: seq<File>)
    requires Leads(Empty, steps, s) && FixedListing(steps, files)
    ensures |s.server.effects| <= |files| && s.server.effects == files[..|s.server.effects|]
    ensures s.server.recorded == Members(files[..|s.server.effects|])
    ensures s.server.effects != [] ==> Listing(files)
    ensures forall i, j :: 0 <= i < j < |s.server.effects| ==> ComesFirst(s.server.effects[i], s.server.effects[j])
  {
    AppliedInOrder(Empty, steps, s, files);
    InvRun(Empty, steps, s);
    if s.server.effects != [] {
      SortedByCode(files);
    }
  }

  // --------------------------------------------------------- results

  lemma {:induction false} KeptSplits(files: seq<File>, done: set<File>)
    ensures multiset(Kept(files, done, true)) + multiset(Kept(files, done, false)) == multiset(files)
  {
    if files != [] {
      KeptSplits(files[..|files| - 1], done);
      assert files == files[..|files| - 1] + [files[|files| - 1]];
    }
  }

  /** A normal return splits the listing into applied and skipped, and all of it is recorded. */
  lemma NormalReturn(s: System, id: Id)
    requires Inv(s) && id in s.runners && s.runners[id].phase.Returned?
    ensures var r := s.runners[id];
            && multiset(r.applied) + multiset(r.skipped) == multiset(r.files)
            && r.applied == Kept(r.files, r.done, false)
            && r.skipped == Kept(r.files, r.done, true)
            && Members(r.files) <= s.server.recorded
  {
    var r := s.runners[id];
    assert r.files[..r.next] == r.files;
    KeptSplits(r.files, r.done);
    forall f | f in r.files
      ensures f in s.server.recorded
    {
      KeptMember(r.files, r.done, false, f);
      assert f in r.done || f in Members(r.applied);
    }
  }

  /** A runner that starts its loop after all files are recorded applies none of them. */
  ghost predicate NothingLeft(s: System, id: Id, files: seq<File>) {
    && Members(files) <= s.server.recorded
    && (id in s.runners ==>
          var r := s.runners[id];
          r.applied == [] && !r.phase.InTransaction?
          && (BeforeLoop(r.phase) || (r.files != [] ==> r.files == files && Members(files) <= r.done)))
  }

  lemma NothingLeftStep(s: System, id: Id, files: seq<File>, other: Id, a: Action)
    requires Inv(s) && NothingLeft(s, id, files) && Enabled(s, other, a)
    requires other == id && a.ReadDone? ==> a.listing == files
    ensures NothingLeft(After(s, other, a), id, files)
  {
    OnlyCommitWrites(s, other, a);
    if other == id && !a.Connect? {
      var r := s.runners[id];
      if r.phase.Looping? && r.next < |r.files| {
        assert r.files[r.next] in Members(files);
      }
    }
  }

  lemma {:induction false} NothingLeftRun(s: System, steps: seq<Step>, s': System, id: Id, files: seq<File>)
    requires Inv(s) && NothingLeft(s, id, files) && Leads(s, steps, s') && FixedListing(steps, files)
    ensures NothingLeft(s', id, files)
    decreases |steps|
  {
    if steps != [] {
      NothingLeftStep(s, id, files, steps[0].0, steps[0].1);
      InvStep(s, steps[0].0, steps[0].1);
      assert forall i :: 0 <= i < |steps[1..]| ==> steps[1..][i] == steps[i + 1];
      NothingLeftRun(After(s, steps[0].0, steps[0].1), steps[1..], s', id, files);
    }
  }

  lemma CompleteMeansAll(s: System, files: seq<File>)
    requires Inv(s) && InOrder(s, files) && Listing(files) && Members(files) <= s.server.recorded
    ensures s.server.effects == files
  {
    var k := |s.server.effects|;
    assert files[..|files|] == files;
    if files != [] {
      var last := |files| - 1;
      assert files[last] in Members(files) && files[last] in Members(s.server.effects);
      SortedIsDistinct(files);
      PrefixMember(files, last, k);
    }
  }

  /**
   Once a run over a fixed directory has returned, the whole directory has been
   applied in order, and no later run applies anything.
   */
  lemma SecondRunAppliesNothing(steps: seq<Step>, s: System, first: Id, later: seq<Step>, s': System, second: Id)
    requires Leads(Empty, steps, s) && first in s.runners && s.runners[first].phase.Returned?
    requires second in s.runners ==> BeforeLoop(s.runners[second].phase)
    requires FixedListing(steps, s.runners[first].files) && FixedListing(later, s.runners[first].files)
    requires Leads(s, later, s')
    ensures second in s'.runners ==> s'.runners[second].applied == []
    ensures s.server.effects == s'.server.effects == s.runners[first].files
  {
    var files := s.runners[first].files;
    InvRun(Empty, steps, s);
    InvRun(s, later, s');
    NormalReturn(s, first);
    NothingLeftRun(s, later, s', second, files);
    AppliedInOrder(Empty, steps, s, files);
    AppliedInOrder(s, later, s', files);
    CompleteMeansAll(s, files);
    CompleteMeansAll(s', files);
  }

  // --------------------------------------------------------- the runner itself

  /** The cluster as the runner sees it: one state, changed by everybody's steps. */
  class Cluster {
    var st: System
    ghost const origin: System
    ghost var trace: seq<Step>

    ghost predicate Valid()
      reads this
    {
      Inv(st) && Inv(origin) && Leads(origin, trace, st)
    }

    constructor ()
      ensures Valid() && st == Empty
    {
      st, origin, trace := Empty, Empty, [];
    }

    lemma InsertEnabled(id: Id)
      requires Valid() && id in st.runners && st.runners[id].connected && st.runners[id].phase == InTransaction(true, false)
      ensures Enabled(st, id, Insert)
    {
      assert InCritical(st, id);
      CurrentIsNew(st.server, st.runners[id]);
    }

    lemma TableIsThere(id: Id)
      requires Valid() && id in st.runners && st.runners[id].connected && st.runners[id].phase.Ready?
      ensures st.server.tableExists
    {
    }

    lemma WaiterHasNoLock(id: Id)
      requires Valid() && id in st.runners && st.runners[id].phase.Waiting?
      ensures st.server.lock != Some(id)
    {
    }

    lemma LockNeedsConnection(id: Id)
      requires Valid() && id in st.runners
      ensures st.server.lock == Some(id) ==> st.runners[id].connected
      ensures st.runners[id].connected && st.runners[id].phase == Unlocking(true) ==> st.server.lock == Some(id)
    {
      assert st.runners[id].connected && st.runners[id].phase == Unlocking(true) ==> InCritical(st, id);
    }

    /** The results of a finished run, and that all its files are recorded. */
    lemma Results(id: Id)
      requires Valid() && id in st.runners && st.runners[id].phase.Returned?
      ensures var r := st.runners[id];
              r.applied == Kept(r.files, r.done, false) && r.skipped == Kept(r.files, r.done, true)
              && Members(r.files) <= st.server.recorded
    {
      NormalReturn(st, id);
    }

    method Do(id: Id, a: Action)
      requires Valid() && Enabled(st, id, a)
      modifies this
      ensures Valid() && st == After(old(st), id, a) && trace == old(trace) + [(id, a)]
    {
      InvStep(st, id, a);
      LeadsAppend(origin, trace, st, (id, a));
      st := After(st, id, a);
      trace := trace + [(id, a)];
    }

    /** Between two statements of one runner, the others may take any steps. */
    method Interfere(id: Id, steps: seq<Step>)
      requires Valid()
      modifies this
      ensures Valid() && old(trace) <= trace
      ensures id in st.runners <==> id in old(st.runners)
      ensures id in st.runners ==> st.runners[id] == old(st.runners[id])
      ensures old(st.server.recorded) <= st.server.recorded
      ensures old(st.server.tableExists) ==> st.server.tableExists
      ensures steps == [] ==> st == old(st)
    {
      for i := 0 to |steps|
        invariant Valid() && old(trace) <= trace
        invariant id in st.runners <==> id in old(st.runners)
        invariant id in st.runners ==> st.runners[id] == old(st.runners[id])
        invariant old(st.server.recorded) <= st.server.recorded
        invariant old(st.server.tableExists) ==> st.server.tableExists
        invariant i == 0 ==> st == old(st)
      {
        if steps[i].0 != id && Enabled(st, steps[i].0, steps[i].1) {
          OnlyCommitWrites(st, steps[i].0, steps[i].1);
          Do(steps[i].0, steps[i].1);
        }
      }
    }
  }

  lemma {:induction false} LeadsAppend(s: System, steps: seq<Step>, s': System, step: Step)
    requires Leads(s, steps, s') && Enabled(s', step.0, step.1)
    ensures Leads(s, steps + [step], After(s', step.0, step.1))
    decreases |steps|
  {
    if steps != [] {
      LeadsAppend(After(s, steps[0].0, steps[0].1), steps[1..], s', step);
      assert (steps + [step])[1..] == steps[1..] + [step];
    }
  }

  // --------------------------------------------------------- runMigrations

  /** What befalls a statement of this runner. */
  datatype Fault = Fine | Broken | LostAck | Dropped

  datatype Outcome = Blocked | Done(applied: seq<File>, skipped: seq<File>) | Failed

  /** A statement of the runner: the others move first, then it may be hit. */
  method Statement(c: Cluster, id: Id, fault: Fault, others: seq<Step>) returns (ok: bool)
    requires c.Valid() && id in c.st.runners
    modifies c
    ensures c.Valid() && old(c.trace) <= c.trace
    ensures id in c.st.runners && c.st.runners[id] == old(c.st.runners[id]).(connected := c.st.runners[id].connected)
    ensures ok ==> c.st.runners[id].connected && !fault.Broken?
    ensures !ok ==> !c.st.runners[id].connected || fault.Broken?
    ensures fault.Fine? && old(c.st.runners[id].connected) ==> ok
    ensures ok && others == [] ==> c.st == old(c.st)
  {
    hide Inv, Leads;
    c.Interfere(id, others);
    if fault.Dropped? && c.st.runners[id].connected {
      c.Do(id, Drop);
    }
    ok := c.st.runners[id].connected && !fault.Broken?;
  }

  /** A statement with its effect; without it the record only may lose its connection. */
  method Query(c: Cluster, id: Id, a: Action, fault: Fault, others: seq<Step>) returns (ok: bool)
    requires c.Valid() && id in c.st.runners && Ripe(c.st.runners[id].(connected := true), a)
    requires a.CreateTable? || a.Begin? || a.RunSql? || a.Insert? || a.Commit?
    modifies c
    ensures c.Valid() && old(c.trace) <= c.trace && id in c.st.runners
    ensures ok ==> c.st.runners[id] == RunnerAfter(old(c.st.runners[id]).(connected := true), {}, a)
    ensures !ok ==> c.st.runners[id] == old(c.st.runners[id]).(connected := c.st.runners[id].connected)
    ensures fault.Fine? && old(c.st.runners[id].connected) ==> ok
  {
    hide Inv, Leads;
    ok := Statement(c, id, fault, others);
    if ok {
      if a.Insert? {
        c.InsertEnabled(id);
      }
      c.Do(id, a);
    }
  }

  /** The catch block of a file whose transaction did not commit. */
  method Rescue(c: Cluster, id: Id, others: seq<Step>)
    requires c.Valid() && id in c.st.runners && (Ripe(c.st.runners[id], SqlError) || c.st.runners[id].phase.RollingBack?)
    modifies c
    ensures c.Valid() && old(c.trace) <= c.trace && id in c.st.runners
    ensures c.st.runners[id].phase == Unlocking(false)
  {
    hide Inv, Leads;
    if !c.st.runners[id].phase.RollingBack? {
      c.Do(id, SqlError);
    }
    c.Interfere(id, others);
    c.Do(id, Rollback);
  }

  /** BEGIN and the SQL of the file. */
  method OpenTransaction(c: Cluster, id: Id, faults: nat -> Fault, others: nat -> seq<Step>, clock: nat) returns (ok: bool)
    requires c.Valid() && id in c.st.runners && AtUnapplied(c.st.runners[id])
    modifies c
    ensures c.Valid() && old(c.trace) <= c.trace && id in c.st.runners
    ensures ok ==> c.st.runners[id] == old(c.st.runners[id]).(connected := true, phase := InTransaction(true, false))
    ensures !ok ==> Ripe(c.st.runners[id], SqlError)
    ensures !ok && old(c.st.runners[id].connected) ==> exists k :: !faults(k).Fine?
  {
    hide Inv, Leads;
    ok := Query(c, id, Begin, faults(clock), others(clock));
    if ok {
      ok := Query(c, id, RunSql, faults(clock + 1), others(clock + 1));
    }
  }

  /** The bookkeeping row and COMMIT. */
  method CloseTransaction(c: Cluster, id: Id, faults: nat -> Fault, others: nat -> seq<Step>, clock: nat) returns (ok: bool)
    requires c.Valid() && id in c.st.runners && c.st.runners[id].phase == InTransaction(true, false)
    requires c.st.runners[id].next < |c.st.runners[id].files|
    modifies c
    ensures c.Valid() && old(c.trace) <= c.trace && id in c.st.runners
    ensures ok ==> c.st.runners[id]
                   == RunnerAfter(old(c.st.runners[id]).(connected := true, phase := InTransaction(true, true)), {}, Commit(true))
    ensures !ok ==> Ripe(c.st.runners[id], SqlError) || c.st.runners[id].phase.RollingBack?
    ensures !ok && old(c.st.runners[id].connected) ==> exists k :: !faults(k).Fine?
  {
    hide Inv, Leads;
    ok := Query(c, id, Insert, faults(clock), others(clock));
    if ok {
      var acknowledged := !faults(clock + 1).LostAck?;
      ok := Query(c, id, Commit(acknowledged), faults(clock + 1), others(clock + 1));
      ok := ok && acknowledged;
    }
  }

  /** One file in its transaction; false means that the error propagates. */
  method ApplyFile(c: Cluster, id: Id, faults: nat -> Fault, others: nat -> seq<Step>, clock: nat) returns (ok: bool)
    requires c.Valid() && id in c.st.runners && AtUnapplied(c.st.runners[id])
    modifies c
    ensures c.Valid() && old(c.trace) <= c.trace && id in c.st.runners
    ensures ok ==> c.st.runners[id]
                   == old(var r := c.st.runners[id];
                          r.(connected := true, applied := r.applied + [r.files[r.next]], next := r.next + 1))
    ensures !ok ==> c.st.runners[id].phase == Unlocking(false)
    ensures !ok && old(c.st.runners[id].connected) ==> exists k :: !faults(k).Fine?
  {
    hide Inv, Leads;
    ok := OpenTransaction(c, id, faults, others, clock);
    if ok {
      ok := CloseTransaction(c, id, faults, others, clock + 2);
    }
    if !ok {
      Rescue(c, id, others(clock + 4));
    }
  }

  predicate HeldByAnother(server: Server, id: Id) {
    server.lock.Some? && server.lock.value != id
  }

  datatype Entry = StillWaiting | Entered(done: set<File>) | Aborted

  datatype LockAnswer = Ours | Held | Lost

  /** A new connection asks for the lock. */
  method TakeLock(c: Cluster, id: Id, fault: Fault, others: seq<Step>) returns (answer: LockAnswer)
    requires c.Valid() && id !in c.st.runners
    modifies c
    ensures c.Valid() && old(c.trace) <= c.trace && id in c.st.runners
    ensures answer.Ours? ==> c.st.runners[id] == FreshRunner.(phase := Locked)
    ensures answer.Held? ==> c.st.runners[id].phase.Waiting? && HeldByAnother(c.st.server, id)
    ensures answer.Held? ==> !(old(c.st.server.lock).None? && others == [])
    ensures answer.Lost? ==> !fault.Fine? && c.st.runners[id] == FreshRunner.(connected := c.st.runners[id].connected)
  {
    hide Inv, Leads;
    c.Do(id, Connect);
    var ok := Statement(c, id, fault, others);
    if !ok {
      return Lost;
    }
    if c.st.server.lock.Some? {
      c.WaiterHasNoLock(id);
      return Held;
    }
    c.Do(id, AcquireLock);
    return Ours;
  }

  /** Lock, table, done-set. */
  method Prologue(c: Cluster, id: Id, listing: seq<File>, faults: nat -> Fault, others: nat -> seq<Step>)
    returns (entry: Entry)
    requires c.Valid() && id !in c.st.runners && Listing(listing)
    modifies c
    ensures c.Valid() && old(c.trace) <= c.trace && id in c.st.runners
    ensures entry.StillWaiting? ==> c.st.runners[id].phase.Waiting? && HeldByAnother(c.st.server, id)
    ensures entry.StillWaiting? ==> !(old(c.st.server.lock).None? && others(0) == [])
    ensures entry.Aborted? ==> c.st.runners[id].phase == Unlocking(false) && exists k :: !faults(k).Fine?
    ensures entry.Entered? ==> c.st.runners[id] == Runner(Looping, true, entry.done, listing, 0, [], [])
  {
    hide Inv, Leads, Listing;
    var answer := TakeLock(c, id, faults(0), others(0));
    if answer.Held? {
      return StillWaiting;
    }
    var ok := answer.Ours?;
    if ok {
      ok := Query(c, id, CreateTable(!faults(1).LostAck?), faults(1), others(1));
      if ok && faults(1).LostAck? {
        return Aborted;
      }
    }
    if ok {
      ok := Statement(c, id, faults(2), others(2));
    }
    if !ok {
      c.Do(id, Fail);
      return Aborted;
    }
    c.TableIsThere(id);
    entry := Entered(c.st.server.recorded);
    c.Do(id, ReadDone(listing));
  }

  /**
   runMigrations against a live cluster: the other runners may move between any
   two statements, and every statement may fail. Its two result lists are those
   of the protocol, so everything proved of the protocol holds of it.
   */
  method RunMigrations(c: Cluster, id: Id, directory: Option<seq<string>>, faults: nat -> Fault, others: nat -> seq<Step>)
    returns (outcome: Outcome)
    requires c.Valid() && id !in c.st.runners && (directory.Some? ==> Distinct(directory.value))
    modifies c
    ensures c.Valid() && old(c.trace) <= c.trace && id in c.st.runners
    ensures outcome.Blocked? ==> c.st.runners[id].phase.Waiting? && HeldByAnother(c.st.server, id)
    ensures old(c.st.server.lock).None? && others(0) == [] ==> !outcome.Blocked?
    ensures !outcome.Blocked? && (forall k :: !faults(k).Broken?) ==> c.st.server.lock != Some(id)
    ensures (forall k :: faults(k).Fine?) ==> !outcome.Failed? && (outcome.Done? ==> c.st.server.lock.None?)
    ensures outcome.Failed? ==> c.st.runners[id].phase.Threw? && exists k :: !faults(k).Fine?
    ensures outcome.Done? ==>
              var r, listing := c.st.runners[id], ListMigrationFiles(directory);
              && r.phase.Returned? && r.files == listing
              && outcome.applied == r.applied == Kept(listing, r.done, false)
              && outcome.skipped == r.skipped == Kept(listing, r.done, true)
              && Members(listing) <= c.st.server.recorded
  {
    hide Inv, Leads, Kept, ListMigrationFiles, Listing, Distinct;
    var applied, skipped := [], [];
    var listing := ListMigrationFiles(directory);
    ListsADirectory(directory);
    var entry := Prologue(c, id, listing, faults, others);
    if entry.StillWaiting? {
      return Blocked;
    }
    var clock := 3;
    if entry.Aborted? {
      outcome := Finally(c, id, faults(clock), others(clock), applied, skipped);
      return;
    }
    for i := 0 to |listing|
      invariant c.Valid() && old(c.trace) <= c.trace && id in c.st.runners
      invariant c.st.runners[id] == Runner(Looping, c.st.runners[id].connected, entry.done, listing, i, applied, skipped)
      invariant (forall k :: faults(k).Fine?) ==> c.st.runners[id].connected
    {
      var filename := listing[i];
      if filename in entry.done {
        c.Do(id, Skip);
        skipped := skipped + [filename];
        continue;
      }
      if faults(clock).Broken? {                                   // readFileSync throws
        c.Do(id, Fail);
        outcome := Finally(c, id, faults(clock), others(clock), applied, skipped);
        return;
      }
      var ok := ApplyFile(c, id, faults, others, clock + 1);
      clock := clock + 6;
      if !ok {
        outcome := Finally(c, id, faults(clock), others(clock), applied, skipped);
        return;
      }
      applied := applied + [filename];
    }
    c.Do(id, FinishLoop);
    outcome := Finally(c, id, faults(clock), others(clock), applied, skipped);
    c.Results(id);
  }

  /** The finally block: the unlock may fail, and its failure is swallowed. */
  method Finally(c: Cluster, id: Id, fault: Fault, others: seq<Step>, applied: seq<File>, skipped: seq<File>)
    returns (outcome: Outcome)
    requires c.Valid() && id in c.st.runners && c.st.runners[id].phase.Unlocking?
    modifies c
    ensures c.Valid() && old(c.trace) <= c.trace && id in c.st.runners
    ensures c.st.runners[id] == old(c.st.runners[id]).(connected := c.st.runners[id].connected,
                                                       phase := if old(c.st.runners[id].phase.ok) then Returned else Threw)
    ensures outcome == if old(c.st.runners[id].phase.ok) then Done(applied, skipped) else Failed
    ensures !fault.Broken? ==> c.st.server.lock != Some(id)
    ensures fault.Fine? && old(c.st.runners[id].connected && c.st.runners[id].phase.ok) ==> c.st.server.lock.None?
  {
    hide Inv, Leads;
    var success := c.st.runners[id].phase.ok;
    var released := Statement(c, id, fault, others);
    c.LockNeedsConnection(id);
    c.Do(id, Unlock(released));
    return if success then Done(applied, skipped) else Failed;
  }
}
