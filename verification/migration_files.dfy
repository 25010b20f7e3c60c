/**
 The directory listing of the migration runner: which files, in which order.
 */
module MigrationFiles {
  import opened Wrappers

  type File = string

  predicate EndsInSql(f: File) {
    |f| >= 4 && f[|f| - 4..] == ".sql"
  }

  /** The default order of sort(): by character codes. */
  predicate Before(a: string, b: string) {
    if b == "" then false
    else if a == "" then true
    else if a[0] != b[0] then a[0] < b[0]
    else Before(a[1..], b[1..])
  }

  lemma {:induction false} BeforeIsStrict(a: string, b: string, c: string)
    ensures !Before(a, a)
    ensures a == b || Before(a, b) || Before(b, a)
    ensures Before(a, b) && Before(b, c) ==> Before(a, c)
  {
    if a != "" {
      BeforeIsStrict(a[1..], if b == "" then "" else b[1..], if c == "" then "" else c[1..]);
      assert a == [a[0]] + a[1..];
      assert b != "" ==> b == [b[0]] + b[1..];
    }
  }

  predicate Sorted(files: seq<File>) {
    forall i, j :: 0 <= i < j < |files| ==> Before(files[i], files[j])
  }

  predicate Distinct(files: seq<File>) {
    forall i, j :: 0 <= i < j < |files| ==> files[i] != files[j]
  }

  /** What listMigrationFiles may return. */
  predicate Listing(files: seq<File>) {
    Sorted(files) && forall f :: f in files ==> EndsInSql(f)
  }

  lemma SortedIsDistinct(files: seq<File>)
    requires Sorted(files)
    ensures Distinct(files)
  {
    forall i, j | 0 <= i < j < |files|
      ensures files[i] != files[j]
    {
      BeforeIsStrict(files[i], files[i], files[i]);
    }
  }

  function SqlFiles(names: seq<string>): seq<File> {
    if names == [] then []
    else (if EndsInSql(names[0]) then [names[0]] else []) + SqlFiles(names[1..])
  }

  function Placed(f: File, files: seq<File>): seq<File> {
    if files == [] then [f]
    else if Before(f, files[0]) then [f] + files
    else [files[0]] + Placed(f, files[1..])
  }

  function SortFiles(files: seq<File>): seq<File> {
    if files == [] then [] else Placed(files[0], SortFiles(files[1..]))
  }

  /** listMigrationFiles; the directory may be missing, and its names come in any order. */
  function ListMigrationFiles(directory: Option<seq<string>>): seq<File> {
    if directory.None? then [] else SortFiles(SqlFiles(directory.value))
  }

  lemma {:induction false} SqlFilesMembers(names: seq<string>)
    requires Distinct(names)
    ensures Distinct(SqlFiles(names))
    ensures forall f :: f in SqlFiles(names) <==> f in names && EndsInSql(f)
  {
    if names != [] {
      assert names == [names[0]] + names[1..];
      SqlFilesMembers(names[1..]);
      assert names[0] !in names[1..];
    }
  }

  lemma {:induction false} PlacedSorted(f: File, files: seq<File>)
    requires Sorted(files) && f !in files
    ensures Sorted(Placed(f, files))
    ensures forall g :: g in Placed(f, files) <==> g == f || g in files
  {
    hide Before;
    if files != [] {
      assert files == [files[0]] + files[1..];
      if Before(f, files[0]) {
        forall i | 0 <= i < |files|
          ensures Before(f, files[i])
        {
          BeforeIsStrict(f, files[0], files[i]);
        }
      } else {
        var rest := Placed(f, files[1..]);
        PlacedSorted(f, files[1..]);
        forall i | 0 <= i < |rest|
          ensures Before(files[0], rest[i])
        {
          assert rest[i] in rest;
          BeforeIsStrict(f, files[0], f);
        }
      }
    }
  }

  lemma {:induction false} SortFilesSorted(files: seq<File>)
    requires Distinct(files)
    ensures Sorted(SortFiles(files))
    ensures forall f :: f in SortFiles(files) <==> f in files
  {
    hide Before, Placed;
    if files != [] {
      assert files == [files[0]] + files[1..];
      assert files[0] !in files[1..];
      SortFilesSorted(files[1..]);
      PlacedSorted(files[0], SortFiles(files[1..]));
    }
  }

  lemma HeadIsMember(files: seq<File>)
    ensures files != [] ==> files[0] in files
  {
  }

  lemma {:induction false} OneSorting(a: seq<File>, b: seq<File>)
    requires Sorted(a) && Sorted(b) && forall f :: f in a <==> f in b
    ensures a == b
  {
    hide Before;
    HeadIsMember(a);
    HeadIsMember(b);
    if a != [] {
      SameFirst(a, b);
      SortedIsDistinct(a);
      SortedIsDistinct(b);
      assert a == [a[0]] + a[1..] && b == [b[0]] + b[1..];
      assert a[0] !in a[1..] && b[0] !in b[1..];
      forall f
        ensures f in a[1..] <==> f in b[1..]
      {
        assert f in a <==> f in b;
      }
      OneSorting(a[1..], b[1..]);
    }
  }

  lemma SameFirst(a: seq<File>, b: seq<File>)
    requires Sorted(a) && Sorted(b) && a != [] && b != [] && a[0] in b && b[0] in a
    ensures a[0] == b[0]
  {
    hide Before;
    var i :| 0 <= i < |b| && b[i] == a[0];
    var j :| 0 <= j < |a| && a[j] == b[0];
    BeforeIsStrict(a[0], b[0], a[0]);
  }

  // --------------------------------------------------------- the order, by character codes

  /** The first difference decides, the smaller code first; a proper beginning comes before the whole. */
  ghost predicate ComesFirst(a: string, b: string) {
    exists k: nat :: k <= |a| && k < |b| && a[..k] == b[..k] && (k == |a| || a[k] < b[k])
  }

  lemma {:induction false} FirstDifferenceDecides(p: string, c: char, x: string, d: char, y: string)
    ensures Before(p + [c] + x, p + [d] + y) <==> c < d || (c == d && Before(x, y))
    ensures Before(p, p + [c] + x) && !Before(p + [c] + x, p)
  {
    var a, b := p + [c] + x, p + [d] + y;
    if p == "" {
      assert a[1..] == x && b[1..] == y;
    } else {
      assert a[1..] == p[1..] + [c] + x && b[1..] == p[1..] + [d] + y;
      FirstDifferenceDecides(p[1..], c, x, d, y);
    }
  }

  lemma ComesFirstAt(a: string, b: string, k: nat)
    requires k <= |a| && k < |b| && a[..k] == b[..k] && (k == |a| || a[k] < b[k])
    ensures Before(a, b)
  {
    var p := a[..k];
    assert b == p + [b[k]] + b[k + 1..];
    if k == |a| {
      assert a == p;
      FirstDifferenceDecides(p, b[k], b[k + 1..], b[k], "");
    } else {
      assert a == p + [a[k]] + a[k + 1..];
      FirstDifferenceDecides(p, a[k], a[k + 1..], b[k], b[k + 1..]);
    }
  }

  lemma {:induction false} BeforeFindsDifference(a: string, b: string) returns (k: nat)
    requires Before(a, b)
    ensures k <= |a| && k < |b| && a[..k] == b[..k] && (k == |a| || a[k] < b[k])
  {
    k := 0;
    if a != "" && a[0] == b[0] {
      var j := BeforeFindsDifference(a[1..], b[1..]);
      k := j + 1;
      assert a[..k] == [a[0]] + a[1..][..j] && b[..k] == [b[0]] + b[1..][..j];
    }
  }

  lemma BeforeIsByCode(a: string, b: string)
    ensures Before(a, b) <==> ComesFirst(a, b)
  {
    hide Before;
    if Before(a, b) {
      var k := BeforeFindsDifference(a, b);
    }
    if k: nat :| k <= |a| && k < |b| && a[..k] == b[..k] && (k == |a| || a[k] < b[k]) {
      ComesFirstAt(a, b, k);
    }
  }

  lemma SortedByCode(files: seq<File>)
    requires Sorted(files)
    ensures forall i, j :: 0 <= i < j < |files| ==> ComesFirst(files[i], files[j])
  {
    hide Before, ComesFirst;
    forall i, j | 0 <= i < j < |files|
      ensures ComesFirst(files[i], files[j])
    {
      BeforeIsByCode(files[i], files[j]);
    }
  }

  /** In a sorted list, the name with the smaller code at the first difference has the smaller index. */
  lemma AscendingAt(files: seq<File>, i: nat, j: nat, p: string, c: char, x: string, d: char, y: string)
    requires Sorted(files) && i < |files| && j < |files| && c < d
    requires files[i] == p + [c] + x && files[j] == p + [d] + y
    ensures i < j
  {
    hide Before;
    FirstDifferenceDecides(p, c, x, d, y);
    BeforeIsStrict(files[i], files[j], files[i]);
  }

  // --------------------------------------------------------- the listing

  /**
   The listing ascends by character codes, holds exactly the names of the directory
   that end in .sql, and depends on the directory's contents only.
   */
  lemma ListingIsTheDirectory(names: seq<string>, again: seq<string>)
    requires Distinct(names) && Distinct(again)
    ensures Listing(ListMigrationFiles(Some(names)))
    ensures var r := ListMigrationFiles(Some(names));
            forall i, j :: 0 <= i < j < |r| ==> ComesFirst(r[i], r[j])
    ensures forall f: string :: f in ListMigrationFiles(Some(names)) <==> f in names && |f| >= 4 && f[|f| - 4..] == ".sql"
    ensures (forall f :: f in names <==> f in again) ==> ListMigrationFiles(Some(names)) == ListMigrationFiles(Some(again))
  {
    hide SqlFiles, SortFiles, Sorted, Distinct, ComesFirst;
    SqlFilesMembers(names);
    SqlFilesMembers(again);
    SortFilesSorted(SqlFiles(names));
    SortFilesSorted(SqlFiles(again));
    SortedByCode(ListMigrationFiles(Some(names)));
    if forall f :: f in names <==> f in again {
      OneSorting(ListMigrationFiles(Some(names)), ListMigrationFiles(Some(again)));
    }
  }

  /** Of two .sql names that first differ at c < d, the one with c is listed first. */
  lemma SmallerCodeListedFirst(names: seq<string>, p: string, c: char, x: string, d: char, y: string) returns (i: nat, j: nat)
    requires Distinct(names) && p + [c] + x in names && p + [d] + y in names && c < d
    requires |p + [c] + x| >= 4 && (p + [c] + x)[|p + [c] + x| - 4..] == ".sql"
    requires |p + [d] + y| >= 4 && (p + [d] + y)[|p + [d] + y| - 4..] == ".sql"
    ensures i < j < |ListMigrationFiles(Some(names))|
    ensures ListMigrationFiles(Some(names))[i] == p + [c] + x && ListMigrationFiles(Some(names))[j] == p + [d] + y
  {
    hide ListMigrationFiles, Sorted, ComesFirst;
    var r := ListMigrationFiles(Some(names));
    ListingIsTheDirectory(names, names);
    assert p + [c] + x in r && p + [d] + y in r;
    i :| 0 <= i < |r| && r[i] == p + [c] + x;
    j :| 0 <= j < |r| && r[j] == p + [d] + y;
    AscendingAt(r, i, j, p, c, x, d, y);
  }

  lemma ListsADirectory(directory: Option<seq<string>>)
    requires directory.Some? ==> Distinct(directory.value)
    ensures Listing(ListMigrationFiles(directory))
  {
    hide SortFiles, SqlFiles;
    if directory.Some? {
      ListingIsTheDirectory(directory.value, directory.value);
    }
  }
}
