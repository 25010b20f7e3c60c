/**
 Parent links between categories: the bounded upward walk that looks for cycles,
 and when setting a parent keeps the table a forest.
 */
module CategoryForest {
  import opened Wrappers
  import opened Schema
  import Format

  type Id = int
  type Table = map<Id, CategoryRow>

  const MAX_DEPTH: nat := 100

  /** The rows of the recursive query: at most depth rows, from the start upwards. */
  function Walk(t: Table, from: Id, depth: nat): seq<Id>
    decreases depth
  {
    if depth == 0 || from !in t then []
    else [from] + (if t[from].parentId.None? then [] else Walk(t, t[from].parentId.value, depth - 1))
  }

  predicate WouldCreateCycle(t: Table, id: Id, parentId: Id) {
    id != 0 && parentId != 0 && (id == parentId || id in Walk(t, parentId, MAX_DEPTH))
  }

  // --------------------------------------------------------- specification

  /** The row n links above, if the chain is that long. */
  function Climb(t: Table, from: Id, n: nat): Option<Id>
    decreases n
  {
    if from !in t then None
    else if n == 0 then Some(from)
    else if t[from].parentId.None? then None
    else Climb(t, t[from].parentId.value, n - 1)
  }

  /** id is from itself or one of its ancestors. */
  ghost predicate Above(t: Table, id: Id, from: Id) {
    exists n: nat :: Climb(t, from, n) == Some(id)
  }

  /** The chain from id has at most n rows and ends at a root; every link exists. */
  predicate Rooted(t: Table, id: Id, n: nat)
    decreases n
  {
    && n > 0 && id in t
    && (t[id].parentId.Some? ==> Rooted(t, t[id].parentId.value, n - 1))
  }

  /** Every upward walk ends at a root. */
  ghost predicate Forest(t: Table) {
    forall id :: id in t ==> exists n: nat :: Rooted(t, id, n)
  }

  /** Every chain has at most MAX_DEPTH rows. */
  predicate Short(t: Table) {
    forall id :: id in t ==> Rooted(t, id, MAX_DEPTH)
  }

  // --------------------------------------------------------- the walk

  /** Every row fewer than depth links above the start is visited. */
  lemma {:induction false} WalkReaches(t: Table, from: Id, depth: nat, n: nat)
    requires n < depth && Climb(t, from, n).Some?
    ensures Climb(t, from, n).value in Walk(t, from, depth)
    decreases depth
  {
    if n == 0 {
      assert Walk(t, from, depth)[0] == from;
    } else {
      WalkReaches(t, t[from].parentId.value, depth - 1, n - 1);
    }
  }

  /** Every visited row stands fewer than depth links above the start. */
  lemma {:induction false} WalkVisits(t: Table, from: Id, depth: nat, i: nat)
    requires i < |Walk(t, from, depth)|
    ensures |Walk(t, from, depth)| <= depth
    ensures i < depth && Climb(t, from, i) == Some(Walk(t, from, depth)[i])
    decreases depth
  {
    if i > 0 {
      WalkVisits(t, t[from].parentId.value, depth - 1, i - 1);
    } else if t[from].parentId.Some? && Walk(t, t[from].parentId.value, depth - 1) != [] {
      WalkVisits(t, t[from].parentId.value, depth - 1, 0);
    }
  }

  lemma WalkMember(t: Table, from: Id, depth: nat, id: Id)
    ensures |Walk(t, from, depth)| <= depth
    ensures id in Walk(t, from, depth) <==> exists n: nat :: n < depth && Climb(t, from, n) == Some(id)
  {
    var w := Walk(t, from, depth);
    if w != [] {
      WalkVisits(t, from, depth, 0);
    }
    if id in w {
      var i :| 0 <= i < |w| && w[i] == id;
      WalkVisits(t, from, depth, i);
    }
    if n: nat :| n < depth && Climb(t, from, n) == Some(id) {
      WalkReaches(t, from, depth, n);
    }
  }

  lemma {:induction false} RootedMonotone(t: Table, id: Id, n: nat, m: nat)
    requires Rooted(t, id, n) && n <= m
    ensures Rooted(t, id, m)
    decreases n
  {
    if t[id].parentId.Some? {
      RootedMonotone(t, t[id].parentId.value, n - 1, m - 1);
    }
  }

  lemma {:induction false} ClimbRooted(t: Table, from: Id, n: nat, k: nat, id: Id)
    requires Rooted(t, from, n) && Climb(t, from, k) == Some(id)
    ensures k < n && Rooted(t, id, n - k)
    decreases n
  {
    if k > 0 {
      ClimbRooted(t, t[from].parentId.value, n - 1, k - 1, id);
    }
  }

  /**
   The check visits at most 100 rows of any table, cyclic or not. It answers true
   exactly when id is the parent or stands fewer than 100 links above it; on a
   chain of at most 100 rows that is every ancestor.
   */
  lemma CycleCheckExact(t: Table, id: Id, parentId: Id)
    ensures |Walk(t, parentId, MAX_DEPTH)| <= MAX_DEPTH
    ensures WouldCreateCycle(t, id, parentId)
            <==> id != 0 && parentId != 0
                 && (id == parentId || exists n: nat :: n < MAX_DEPTH && Climb(t, parentId, n) == Some(id))
    ensures id != 0 && parentId != 0 && Rooted(t, parentId, MAX_DEPTH) ==>
              (WouldCreateCycle(t, id, parentId) <==> Above(t, id, parentId))
  {
    WalkMember(t, parentId, MAX_DEPTH, id);
    if Rooted(t, parentId, MAX_DEPTH) {
      assert Climb(t, parentId, 0) == Some(parentId);
      if Above(t, id, parentId) {
        var n: nat :| Climb(t, parentId, n) == Some(id);
        ClimbRooted(t, parentId, MAX_DEPTH, n, id);
      }
    }
  }

  // --------------------------------------------------------- setting a parent

  /** Nothing on the way up from a rooted row leads back to it. */
  lemma {:induction false} NoLoop(t: Table, id: Id, n: nat, k: nat)
    requires Rooted(t, id, n) && k > 0 && Climb(t, id, k) == Some(id)
    ensures false
    decreases n
  {
    ClimbRooted(t, id, n, k, id);
    NoLoop(t, id, n - k, k);
  }

  lemma {:induction false} FirstHit(t: Table, from: Id, id: Id, n: nat) returns (m: nat)
    requires Climb(t, from, n) == Some(id)
    ensures m <= n && Climb(t, from, m) == Some(id)
    ensures forall j: nat :: j < m ==> Climb(t, from, j) != Some(id)
    decreases n
  {
    m := 0;
    if from != id {
      var q := FirstHit(t, t[from].parentId.value, id, n - 1);
      m := q + 1;
      forall j: nat | j < m
        ensures Climb(t, from, j) != Some(id)
      {
        if j > 0 {
          assert Climb(t, from, j) == Climb(t, t[from].parentId.value, j - 1);
        }
      }
    }
  }

  /** u differs from t in the row of id only. */
  predicate OnlyRow(t: Table, u: Table, id: Id) {
    && id in t && t.Keys == u.Keys
    && forall x :: x in t && x != id ==> u[x].parentId == t[x].parentId
  }

  lemma {:induction false} ClimbUnchanged(t: Table, u: Table, id: Id, from: Id, n: nat)
    requires OnlyRow(t, u, id)
    requires forall j: nat :: j < n ==> Climb(t, from, j) != Some(id)
    ensures Climb(u, from, n) == Climb(t, from, n)
    decreases n
  {
    if from in t && n > 0 {
      assert Climb(t, from, 0) == Some(from);
      var p := t[from].parentId;
      if p.Some? {
        assert forall j: nat :: j < n - 1 ==> Climb(t, p.value, j) == Climb(t, from, j + 1);
        ClimbUnchanged(t, u, id, p.value, n - 1);
      }
    }
  }

  /** A chain that avoids id is still there. */
  lemma {:induction false} RootedUnchanged(t: Table, u: Table, id: Id, from: Id, n: nat)
    requires OnlyRow(t, u, id) && Rooted(t, from, n) && !Above(t, id, from)
    ensures Rooted(u, from, n)
    decreases n
  {
    assert Climb(t, from, 0) == Some(from);
    var p := t[from].parentId;
    if p.Some? {
      forall k: nat
        ensures Climb(t, p.value, k) != Some(id)
      {
        assert Climb(t, from, k + 1) == Climb(t, p.value, k);
      }
      RootedUnchanged(t, u, id, p.value, n - 1);
    }
  }

  /** A chain that meets id goes on above it. */
  lemma {:induction false} RootedThrough(t: Table, u: Table, id: Id, from: Id, n: nat, m: nat)
    requires OnlyRow(t, u, id) && Rooted(t, from, n) && Rooted(u, id, m)
    ensures Rooted(u, from, n + m)
    decreases n
  {
    if from == id {
      RootedMonotone(u, id, m, n + m);
    } else if t[from].parentId.Some? {
      RootedThrough(t, u, id, t[from].parentId.value, n - 1, m);
    }
  }

  /** Giving a row of a forest an existing parent keeps a forest unless the parent is below the row. */
  lemma SetParentForest(t: Table, u: Table, id: Id, parentId: Id)
    requires Forest(t) && OnlyRow(t, u, id) && parentId in t && u[id].parentId == Some(parentId)
    ensures Forest(u) <==> !Above(t, id, parentId)
  {
    var n: nat :| Rooted(t, parentId, n);
    if Above(t, id, parentId) {
      var k: nat :| Climb(t, parentId, k) == Some(id);
      var m := FirstHit(t, parentId, id, k);
      ClimbUnchanged(t, u, id, parentId, m);
      ClimbOneMore(u, id, parentId, m);
      if Forest(u) {
        var h: nat :| Rooted(u, id, h);
        NoLoop(u, id, h, m + 1);
      }
    } else {
      RootedUnchanged(t, u, id, parentId, n);
      assert Rooted(u, id, n + 1);
      forall x | x in u
        ensures exists h: nat :: Rooted(u, x, h)
      {
        var h: nat :| Rooted(t, x, h);
        RootedThrough(t, u, id, x, h, n + 1);
      }
    }
  }

  lemma ClimbOneMore(u: Table, id: Id, parentId: Id, m: nat)
    requires id in u && u[id].parentId == Some(parentId) && Climb(u, parentId, m) == Some(id)
    ensures Climb(u, id, m + 1) == Some(id)
  {
  }

  /** A row without a parent is a root; the rows below it stay rooted. */
  lemma ClearParentForest(t: Table, u: Table, id: Id)
    requires Forest(t) && OnlyRow(t, u, id) && u[id].parentId == None
    ensures Forest(u)
  {
    assert Rooted(u, id, 1);
    forall x | x in u
      ensures exists h: nat :: Rooted(u, x, h)
    {
      var h: nat :| Rooted(t, x, h);
      RootedThrough(t, u, id, x, h, 1);
    }
  }

  lemma {:induction false} RootedInLarger(t: Table, u: Table, id: Id, n: nat)
    requires Rooted(t, id, n) && forall x :: x in t ==> x in u && u[x].parentId == t[x].parentId
    ensures Rooted(u, id, n)
    decreases n
  {
    if t[id].parentId.Some? {
      RootedInLarger(t, u, t[id].parentId.value, n - 1);
    }
  }

  /** A new row under an existing parent, or a new root. */
  lemma AddForest(t: Table, id: Id, row: CategoryRow)
    requires Forest(t) && id !in t
    requires row.parentId.Some? ==> row.parentId.value in t
    ensures Forest(t[id := row])
  {
    var u := t[id := row];
    forall x | x in u
      ensures exists h: nat :: Rooted(u, x, h)
    {
      if x != id {
        var h: nat :| Rooted(t, x, h);
        RootedInLarger(t, u, x, h);
      } else if row.parentId.Some? {
        var h: nat :| Rooted(t, row.parentId.value, h);
        RootedInLarger(t, u, row.parentId.value, h);
        assert Rooted(u, id, h + 1);
      } else {
        assert Rooted(u, id, 1);
      }
    }
  }

  lemma {:induction false} RootedWithout(t: Table, gone: Id, id: Id, n: nat)
    requires Rooted(t, id, n) && id != gone && forall x :: x in t ==> t[x].parentId != Some(gone)
    ensures Rooted(t - {gone}, id, n)
    decreases n
  {
    if t[id].parentId.Some? {
      RootedWithout(t, gone, t[id].parentId.value, n - 1);
    }
  }

  /** Removing a row without children. */
  lemma RemoveForest(t: Table, gone: Id)
    requires Forest(t) && forall x :: x in t ==> t[x].parentId != Some(gone)
    ensures Forest(t - {gone})
  {
    forall x | x in t - {gone}
      ensures exists h: nat :: Rooted(t - {gone}, x, h)
    {
      var h: nat :| Rooted(t, x, h);
      RootedWithout(t, gone, x, h);
    }
  }

  // --------------------------------------------------------- the bound is tight

  function LinkName(k: nat): string {
    "c" + Format.Digits(k)
  }

  function Link(k: nat): CategoryRow {
    CategoryRow(LinkName(k), LinkName(k), if k == 1 then None else Some(k - 1), None, 0, true)
  }

  /** n categories in one chain, 1 at the root. */
  function Chain(n: nat): Table {
    map k: int | 1 <= k <= n :: Link(k)
  }

  lemma {:induction false} ChainRooted(n: nat, k: nat, m: nat)
    requires 1 <= k <= n
    ensures Rooted(Chain(n), k, m) <==> m >= k
    decreases k
  {
    if k > 1 && m > 0 {
      ChainRooted(n, k - 1, m - 1);
    }
  }

  lemma {:induction false} ChainClimb(n: nat, k: nat, j: nat)
    requires j < k <= n
    ensures Climb(Chain(n), k, j) == Some(k - j)
    decreases j
  {
    if j > 0 {
      ChainClimb(n, k - 1, j - 1);
    }
  }

  /** In a chain of n rows the check sees the root from the last row exactly when n <= 100. */
  lemma ChainBound(n: nat)
    requires n >= 2
    ensures Forest(Chain(n)) && Above(Chain(n), 1, n)
    ensures WouldCreateCycle(Chain(n), 1, n) <==> n <= MAX_DEPTH
    ensures Short(Chain(n)) <==> n <= MAX_DEPTH
  {
    var t := Chain(n);
    forall k | k in t
      ensures exists m: nat :: Rooted(t, k, m)
      ensures Rooted(t, k, MAX_DEPTH) <==> k <= MAX_DEPTH
    {
      ChainRooted(n, k, k);
      ChainRooted(n, k, MAX_DEPTH);
    }
    assert n in t;
    ChainClimb(n, n, n - 1);
    CycleCheckExact(t, 1, n);
    if n > MAX_DEPTH {
      forall j: nat
        ensures j < MAX_DEPTH ==> Climb(t, n, j) != Some(1)
      {
        if j < MAX_DEPTH {
          ChainClimb(n, n, j);
        }
      }
    }
  }
}
