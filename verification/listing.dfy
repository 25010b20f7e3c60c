/**
 Ordered, paged product lists: the sort orders, LIMIT and OFFSET, and the page bar.
 */
module Listing {
  import opened Wrappers
  import opened JsText
  import opened Schema
  import opened ProductFilter
  import opened Slug
  import opened SqlLike

  // --------------------------------------------------------- page numbers

  /** A JavaScript number. */
  datatype Number = NaN | Infinite(positive: bool) | Finite(r: real)

  const DEFAULT_PER_PAGE: nat := 12
  const MAX_PER_PAGE: nat := 60

  function Min(a: int, b: int): int { if a < b then a else b }
  function Max(a: int, b: int): int { if a < b then b else a }

  /** Nonsense falls back to the default; the rest is cut to 1 .. 60. */
  function ClampPerPage(n: Number): (perPage: nat)
    ensures 1 <= perPage <= MAX_PER_PAGE
    ensures n.Finite? && n.r >= 1.0 ==> perPage as real <= n.r && (n.r < perPage as real + 1.0 || perPage == MAX_PER_PAGE)
    ensures !n.Finite? || n.r < 1.0 ==> perPage == DEFAULT_PER_PAGE
  {
    if !n.Finite? || n.r < 1.0 then DEFAULT_PER_PAGE else Min(n.r.Floor, MAX_PER_PAGE)
  }

  function ClampPage(n: Number): (page: nat)
    ensures page >= 1
    ensures n.Finite? && n.r >= 1.0 ==> page as real <= n.r < page as real + 1.0
    ensures !n.Finite? || n.r < 1.0 ==> page == 1
  {
    if !n.Finite? || n.r < 1.0 then 1 else n.r.Floor
  }

  function PageCount(total: nat, perPage: nat): nat
    requires perPage > 0
  {
    Max(1, (total + perPage - 1) / perPage)
  }

  // --------------------------------------------------------- sort orders

  datatype Sort = Newest | PriceAsc | PriceDesc | ByName

  function SortOf(key: string): Sort {
    if key == "price-asc" then PriceAsc
    else if key == "price-desc" then PriceDesc
    else if key == "name" then ByName
    else Newest
  }

  type NameOrder = (string, string) -> bool

  /** The collation of names: any total preorder. */
  ghost predicate Preorder(le: NameOrder) {
    && (forall a, b :: le(a, b) || le(b, a))
    && (forall a, b, c :: le(a, b) && le(b, c) ==> le(a, c))
  }

  /** COALESCE(sale_price_toman, price_toman) */
  function ShownPrice(r: ProductRow): int {
    if r.sale.Some? then r.sale.value else r.price
  }

  /** The first sort column puts a no later than b. */
  predicate KeyLe(le: NameOrder, sort: Sort, a: Candidate, b: Candidate) {
    match sort
    case Newest => a.createdAt >= b.createdAt
    case PriceAsc => ShownPrice(a.product) <= ShownPrice(b.product)
    case PriceDesc => ShownPrice(a.product) >= ShownPrice(b.product)
    case ByName => le(a.product.name, b.product.name)
  }

  /** ORDER BY key, id DESC */
  predicate Before(le: NameOrder, sort: Sort, a: Candidate, b: Candidate) {
    KeyLe(le, sort, a, b) && (KeyLe(le, sort, b, a) ==> a.id > b.id)
  }

  /** On rows with different ids every sort key gives a strict total order. */
  lemma StrictTotalOrder(le: NameOrder, sort: Sort, a: Candidate, b: Candidate, c: Candidate)
    requires Preorder(le)
    ensures !Before(le, sort, a, a)
    ensures a.id != b.id ==> Before(le, sort, a, b) != Before(le, sort, b, a)
    ensures Before(le, sort, a, b) && Before(le, sort, b, c) ==> Before(le, sort, a, c)
  {
  }

  predicate Ordered(le: NameOrder, sort: Sort, rows: seq<Candidate>) {
    forall i, j :: 0 <= i < j < |rows| ==> Before(le, sort, rows[i], rows[j])
  }

  predicate DistinctIds(rows: seq<Candidate>) {
    forall i, j :: 0 <= i < j < |rows| ==> rows[i].id != rows[j].id
  }

  /** rows is an answer to ORDER BY over the given table rows: the same rows, in order. */
  ghost predicate Answers(le: NameOrder, sort: Sort, rows: seq<Candidate>, table: seq<Candidate>) {
    Ordered(le, sort, rows) && multiset(rows) == multiset(table)
  }

  /** However the database sorts, there is one answer. */
  lemma {:induction false} OneAnswer(le: NameOrder, sort: Sort, a: seq<Candidate>, b: seq<Candidate>)
    requires Preorder(le) && Ordered(le, sort, a) && Ordered(le, sort, b) && multiset(a) == multiset(b)
    ensures a == b
  {
    if a == [] {
      assert b == [] by { assert |multiset(b)| == 0; }
    } else {
      assert |b| > 0 by { assert |multiset(a)| == |multiset(b)|; }
      SameFirst(le, sort, a, b);
      assert a == [a[0]] + a[1..] && b == [b[0]] + b[1..];
      assert multiset(a[1..]) == multiset(a) - multiset{a[0]};
      assert multiset(b[1..]) == multiset(b) - multiset{b[0]};
      OneAnswer(le, sort, a[1..], b[1..]);
    }
  }

  lemma SameFirst(le: NameOrder, sort: Sort, a: seq<Candidate>, b: seq<Candidate>)
    requires Preorder(le) && Ordered(le, sort, a) && Ordered(le, sort, b) && multiset(a) == multiset(b)
    requires a != [] && b != []
    ensures a[0] == b[0]
  {
    hide Before;
    assert a[0] in multiset(a) && b[0] in multiset(b);
    assert a[0] in multiset(b) && b[0] in multiset(a);
    var i :| 0 <= i < |b| && b[i] == a[0];
    var j :| 0 <= j < |a| && a[j] == b[0];
    if i > 0 && j > 0 {
      assert Before(le, sort, b[0], a[0]) && Before(le, sort, a[0], b[0]);
      StrictTotalOrder(le, sort, a[0], b[0], a[0]);
      assert false;
    }
  }

  // --------------------------------------------------------- an ORDER BY

  function Placed(le: NameOrder, sort: Sort, row: Candidate, rows: seq<Candidate>): seq<Candidate> {
    if rows == [] then [row]
    else if Before(le, sort, row, rows[0]) then [row] + rows
    else [rows[0]] + Placed(le, sort, row, rows[1..])
  }

  function SortRows(le: NameOrder, sort: Sort, rows: seq<Candidate>): seq<Candidate> {
    if rows == [] then [] else Placed(le, sort, rows[0], SortRows(le, sort, rows[1..]))
  }

  lemma {:induction false} PlacedRows(le: NameOrder, sort: Sort, row: Candidate, rows: seq<Candidate>)
    ensures multiset(Placed(le, sort, row, rows)) == multiset{row} + multiset(rows)
  {
    if rows != [] {
      assert rows == [rows[0]] + rows[1..];
      PlacedRows(le, sort, row, rows[1..]);
    }
  }

  lemma OrderedCons(le: NameOrder, sort: Sort, head: Candidate, tail: seq<Candidate>)
    requires Ordered(le, sort, tail) && forall i :: 0 <= i < |tail| ==> Before(le, sort, head, tail[i])
    ensures Ordered(le, sort, [head] + tail)
  {
    hide Before;
    var r := [head] + tail;
    forall i, j | 0 <= i < j < |r|
      ensures Before(le, sort, r[i], r[j])
    {
      assert r[j] == tail[j - 1];
      assert i > 0 ==> r[i] == tail[i - 1];
    }
  }

  lemma {:induction false} PlacedOrdered(le: NameOrder, sort: Sort, row: Candidate, rows: seq<Candidate>)
    requires Preorder(le) && Ordered(le, sort, rows) && forall i :: 0 <= i < |rows| ==> rows[i].id != row.id
    ensures Ordered(le, sort, Placed(le, sort, row, rows))
  {
    hide Before, Preorder;
    if rows != [] {
      StrictTotalOrder(le, sort, row, rows[0], row);
      if Before(le, sort, row, rows[0]) {
        forall i | 0 <= i < |rows|
          ensures Before(le, sort, row, rows[i])
        {
          StrictTotalOrder(le, sort, row, rows[0], rows[i]);
        }
        OrderedCons(le, sort, row, rows);
      } else {
        var rest := Placed(le, sort, row, rows[1..]);
        PlacedOrdered(le, sort, row, rows[1..]);
        PlacedRows(le, sort, row, rows[1..]);
        forall i | 0 <= i < |rest|
          ensures Before(le, sort, rows[0], rest[i])
        {
          assert rest[i] in multiset(rest);
          assert rest[i] == row || rest[i] in rows[1..];
        }
        OrderedCons(le, sort, rows[0], rest);
      }
    }
  }

  lemma {:induction false} SortRowsAnswers(le: NameOrder, sort: Sort, table: seq<Candidate>)
    requires Preorder(le) && DistinctIds(table)
    ensures Answers(le, sort, SortRows(le, sort, table), table)
  {
    hide Before, Preorder;
    if table != [] {
      var rest := SortRows(le, sort, table[1..]);
      SortRowsAnswers(le, sort, table[1..]);
      forall i | 0 <= i < |rest|
        ensures rest[i].id != table[0].id
      {
        assert rest[i] in multiset(rest);
        assert rest[i] in table[1..];
      }
      PlacedOrdered(le, sort, table[0], rest);
      PlacedRows(le, sort, table[0], rest);
      assert table == [table[0]] + table[1..];
    }
  }

  // --------------------------------------------------------- LIMIT and OFFSET

  function Slice(rows: seq<Candidate>, limit: nat, offset: nat): seq<Candidate> {
    if offset >= |rows| then [] else rows[offset..Min(offset + limit, |rows|)]
  }

  function PageRows(rows: seq<Candidate>, page: nat, perPage: nat): seq<Candidate>
    requires page >= 1
  {
    Slice(rows, perPage, (page - 1) * perPage)
  }

  function Concatenated(pages: seq<seq<Candidate>>): seq<Candidate> {
    if pages == [] then [] else Concatenated(pages[..|pages| - 1]) + pages[|pages| - 1]
  }

  lemma {:induction false} PagesMakePrefix(rows: seq<Candidate>, perPage: nat, pages: seq<seq<Candidate>>)
    requires perPage > 0
    requires forall k :: 0 <= k < |pages| ==> pages[k] == PageRows(rows, k + 1, perPage)
    ensures Concatenated(pages) == rows[..Min(|pages| * perPage, |rows|)]
  {
    hide PageRows;
    if pages != [] {
      var n := |pages| - 1;
      PagesMakePrefix(rows, perPage, pages[..n]);
      assert pages[n] == PageRows(rows, n + 1, perPage);
      NextPage(rows, perPage, n);
    } else {
      assert |pages| * perPage == 0;
    }
  }

  lemma NextPage(rows: seq<Candidate>, perPage: nat, n: nat)
    ensures n * perPage >= 0
    ensures rows[..Min(n * perPage, |rows|)] + PageRows(rows, n + 1, perPage) == rows[..Min((n + 1) * perPage, |rows|)]
  {
    var offset := n * perPage;
    assert (n + 1) * perPage == offset + perPage && (n + 1 - 1) * perPage == offset;
  }

  lemma CeilingCovers(total: nat, perPage: nat)
    requires perPage > 0
    ensures PageCount(total, perPage) * perPage >= total
    ensures total > 0 ==> (PageCount(total, perPage) - 1) * perPage < total
  {
    var q, r := (total + perPage - 1) / perPage, (total + perPage - 1) % perPage;
    assert total + perPage - 1 == q * perPage + r;
    if total > 0 {
      assert q != 0;
      assert (q - 1) * perPage == q * perPage - perPage;
    }
  }

  lemma MulMonotone(a: nat, b: nat, c: nat)
    requires a <= b
    ensures a * c <= b * c
  {
  }

  /** Exactly the pages up to the count have rows. */
  lemma PageHasRows(rows: seq<Candidate>, page: nat, perPage: nat)
    requires page >= 1 && perPage > 0
    ensures PageRows(rows, page, perPage) != [] <==> rows != [] && page <= PageCount(|rows|, perPage)
  {
    hide PageCount;
    var n := PageCount(|rows|, perPage);
    CeilingCovers(|rows|, perPage);
    if page <= n {
      MulMonotone(page - 1, n - 1, perPage);
    } else {
      MulMonotone(n, page - 1, perPage);
    }
  }

  /** What one run of the page query may return: the page of some answer to its ORDER BY. */
  ghost predicate PageAnswer(le: NameOrder, sort: Sort, table: seq<Candidate>, page: nat, perPage: nat, rows: seq<Candidate>)
    requires page >= 1
  {
    exists all :: Answers(le, sort, all, table) && rows == PageRows(all, page, perPage)
  }

  /** Pages cut from separate runs of one query are pages of one sequence. */
  lemma PagesOfOne(le: NameOrder, sort: Sort, table: seq<Candidate>, perPage: nat, pages: seq<seq<Candidate>>)
    requires Preorder(le) && DistinctIds(table)
    requires forall k :: 0 <= k < |pages| ==>
               PageAnswer(le, sort, table, k + 1, perPage, pages[k])
    ensures var rows := SortRows(le, sort, table);
            Answers(le, sort, rows, table) && |rows| == |table|
            && forall k :: 0 <= k < |pages| ==> pages[k] == PageRows(rows, k + 1, perPage)
  {
    hide Ordered, Preorder, PageRows;
    var rows := SortRows(le, sort, table);
    SortRowsAnswers(le, sort, table);
    assert |rows| == |table| by { assert |multiset(rows)| == |multiset(table)|; }
    forall k | 0 <= k < |pages|
      ensures pages[k] == PageRows(rows, k + 1, perPage)
    {
      assert PageAnswer(le, sort, table, k + 1, perPage, pages[k]);
      var all :| Answers(le, sort, all, table) && pages[k] == PageRows(all, k + 1, perPage);
      OneAnswer(le, sort, all, rows);
    }
  }

  /**
   Pages 1 to pageCount, each cut from its own run of the query, give every row
   once and in order; pages past the last are empty, the others are not.
   */
  lemma PagesPartition(le: NameOrder, sort: Sort, table: seq<Candidate>, perPage: nat, pages: seq<seq<Candidate>>)
    requires Preorder(le) && DistinctIds(table) && perPage > 0 && |pages| >= PageCount(|table|, perPage)
    requires forall k :: 0 <= k < |pages| ==>
               PageAnswer(le, sort, table, k + 1, perPage, pages[k])
    ensures Answers(le, sort, Concatenated(pages[..PageCount(|table|, perPage)]), table)
    ensures forall k :: 0 <= k < |pages| ==> (pages[k] != [] <==> table != [] && k < PageCount(|table|, perPage))
  {
    hide Ordered, Preorder, PageCount, PageRows, SortRows, PageAnswer;
    var rows, n := SortRows(le, sort, table), PageCount(|table|, perPage);
    PagesOfOne(le, sort, table, perPage, pages);
    CeilingCovers(|table|, perPage);
    PagesMakePrefix(rows, perPage, pages[..n]);
    assert rows[..|rows|] == rows;
    forall k | 0 <= k < |pages|
      ensures pages[k] != [] <==> table != [] && k < n
    {
      PageHasRows(rows, k + 1, perPage);
    }
  }

  // --------------------------------------------------------- the list queries

  datatype ListResult = ListResult(items: seq<Candidate>, total: nat, page: nat, perPage: nat, pageCount: nat)

  function FilterRows(keep: Candidate -> bool, table: seq<Candidate>): seq<Candidate> {
    if table == [] then []
    else FilterRows(keep, table[..|table| - 1]) + (if keep(table[|table| - 1]) then [table[|table| - 1]] else [])
  }

  lemma {:induction false} FilterMembers(keep: Candidate -> bool, table: seq<Candidate>, row: Candidate)
    ensures row in FilterRows(keep, table) <==> row in table && keep(row)
  {
    if table != [] {
      FilterMembers(keep, table[..|table| - 1], row);
      assert table == table[..|table| - 1] + [table[|table| - 1]];
    }
  }

  lemma {:induction false} FilterDistinct(keep: Candidate -> bool, table: seq<Candidate>)
    requires DistinctIds(table)
    ensures DistinctIds(FilterRows(keep, table))
  {
    if table != [] {
      var init, last := table[..|table| - 1], table[|table| - 1];
      FilterDistinct(keep, init);
      forall i | 0 <= i < |FilterRows(keep, init)|
        ensures FilterRows(keep, init)[i].id != last.id
      {
        FilterMembers(keep, init, FilterRows(keep, init)[i]);
      }
    }
  }

  lemma {:induction false} FilterSame(keep: Candidate -> bool, keep': Candidate -> bool, table: seq<Candidate>)
    requires forall row :: keep(row) == keep'(row)
    ensures FilterRows(keep, table) == FilterRows(keep', table)
  {
    if table != [] {
      FilterSame(keep, keep', table[..|table| - 1]);
    }
  }

  /** The page that the filter, the sort key and the clamped numbers ask for. */
  function ListSpec(le: NameOrder, keep: Candidate -> bool, sort: Sort, page: Number, perPage: Number,
                    table: seq<Candidate>): ListResult
  {
    var rows := FilterRows(keep, table);
    ListResult(PageRows(SortRows(le, sort, rows), ClampPage(page), ClampPerPage(perPage)), |rows|,
               ClampPage(page), ClampPerPage(perPage), PageCount(|rows|, ClampPerPage(perPage)))
  }

  /** FROM ... WHERE: the joined rows for which the condition is true. */
  method SelectWhere(db: Collation, clauses: seq<Cond>, params: seq<Value>, table: seq<Candidate>) returns (rows: seq<Candidate>)
    ensures rows == FilterRows(row => Selects(db, clauses, params, row), table)
  {
    hide Selects;
    ghost var keep := row => Selects(db, clauses, params, row);
    rows := [];
    for i := 0 to |table|
      invariant rows == FilterRows(keep, table[..i])
    {
      assert table[..i + 1][..i] == table[..i];
      if Selects(db, clauses, params, table[i]) {
        rows := rows + [table[i]];
      }
    }
    assert table[..|table|] == table;
  }

  lemma MeansStable(clauses: seq<Cond>, params: seq<Value>, more: seq<Value>, w: Meaning)
    requires Means(clauses, params, w)
    ensures Means(clauses, params + more, w)
  {
    hide Eval, Bound;
    forall i | 0 <= i < |clauses|
      ensures Bound(clauses[i], |params + more|)
    {
      BoundGrows(clauses[i], |params|, |params + more|);
    }
    forall db: Collation, row: Candidate
      ensures Selects(db, clauses, params + more, row) <==> w(db, row)
    {
      JoinedBound(clauses, |params|);
      EvalStable(db, Joined(clauses), row, params, more);
    }
  }

  /** The count query and the page query; LIMIT and OFFSET are the last two parameters. */
  method RunList(db: Collation, le: NameOrder, clauses: seq<Cond>, params: Params, ghost w: Meaning,
                 sort: string, page: Number, perPage: Number, table: seq<Candidate>)
    returns (r: ListResult)
    requires Means(clauses, params.values, w)
    ensures r == ListSpec(le, row => w(db, row), SortOf(sort), page, perPage, table)
  {
    hide Selects, FilterRows, SortRows, PageCount, Means, Slice;
    var safePerPage, safePage := ClampPerPage(perPage), ClampPage(page);
    var counted := SelectWhere(db, clauses, params.values, table);
    var listParams := new Params();
    listParams.values := params.values;
    var limitAt := listParams.Push(Int(safePerPage));
    var offsetAt := listParams.Push(Int((safePage - 1) * safePerPage));
    var all := listParams.values;
    assert all == params.values + [Int(safePerPage), Int((safePage - 1) * safePerPage)];
    MeansStable(clauses, params.values, [Int(safePerPage), Int((safePage - 1) * safePerPage)], w);
    var rows := SelectWhere(db, clauses, all, table);
    SelectedRows(db, clauses, params.values, w, table);
    SelectedRows(db, clauses, all, w, table);
    assert all[limitAt - 1] == Int(safePerPage) && all[offsetAt - 1] == Int((safePage - 1) * safePerPage);
    var items := Slice(SortRows(le, SortOf(sort), rows), all[limitAt - 1].n, all[offsetAt - 1].n);
    r := ListResult(items, |counted|, safePage, safePerPage, PageCount(|counted|, safePerPage));
  }

  lemma SelectedRows(db: Collation, clauses: seq<Cond>, params: seq<Value>, w: Meaning, table: seq<Candidate>)
    requires Means(clauses, params, w)
    ensures FilterRows(row => Selects(db, clauses, params, row), table) == FilterRows(row => w(db, row), table)
  {
    hide Selects;
    FilterSame(row => Selects(db, clauses, params, row), row => w(db, row), table);
  }

  /** list() */
  method List(db: Collation, le: NameOrder, f: Filters, sort: string, page: Number, perPage: Number, table: seq<Candidate>)
    returns (r: ListResult)
    ensures r == ListSpec(le, row => Wanted(f, row), SortOf(sort), page, perPage, table)
  {
    hide Means, ListSpec, Wanted;
    var params := new Params();
    var clauses := BuildWhere(f, params);
    ghost var w: Meaning := (db, row) => Wanted(f, row);
    r := RunList(db, le, clauses, params, w, sort, page, perPage, table);
    SameList(le, row => w(db, row), row => Wanted(f, row), SortOf(sort), page, perPage, table);
  }

  /** adminList() */
  method AdminList(cs: Casing, db: Collation, le: NameOrder, f: Filters, sort: string, page: Number, perPage: Number,
                   table: seq<Candidate>)
    returns (r: ListResult)
    ensures r == ListSpec(le, row => AdminWanted(cs, db, f, row), SortOf(sort), page, perPage, table)
  {
    hide Means, ListSpec, AdminWanted;
    var params := new Params();
    var clauses := BuildAdminWhere(cs, f, params);
    ghost var w: Meaning := (db, row) => AdminWanted(cs, db, f, row);
    r := RunList(db, le, clauses, params, w, sort, page, perPage, table);
    SameList(le, row => w(db, row), row => AdminWanted(cs, db, f, row), SortOf(sort), page, perPage, table);
  }

  lemma SameList(le: NameOrder, keep: Candidate -> bool, keep': Candidate -> bool, sort: Sort,
                 page: Number, perPage: Number, table: seq<Candidate>)
    requires forall row :: keep(row) == keep'(row)
    ensures ListSpec(le, keep, sort, page, perPage, table) == ListSpec(le, keep', sort, page, perPage, table)
  {
    FilterSame(keep, keep', table);
  }

  function PageNumber(k: int): Number {
    Finite(k as real)
  }

  /** The items of pages 1 .. n of one list, one request each. */
  function ListedPages(le: NameOrder, keep: Candidate -> bool, sort: Sort, perPage: Number,
                       table: seq<Candidate>, n: nat): seq<seq<Candidate>>
  {
    seq(n, k requires 0 <= k < n => ListSpec(le, keep, sort, PageNumber(k + 1), perPage, table).items)
  }

  /** Walking the list from page 1 to pageCount shows every wanted row once, in the order of the sort key. */
  lemma ListShowsEverything(le: NameOrder, keep: Candidate -> bool, sort: Sort, perPage: Number, table: seq<Candidate>)
    requires Preorder(le) && DistinctIds(table)
    ensures var n := ListSpec(le, keep, sort, PageNumber(1), perPage, table).pageCount;
            Answers(le, sort, Concatenated(ListedPages(le, keep, sort, perPage, table, n)), FilterRows(keep, table))
    ensures forall page: int :: page > ListSpec(le, keep, sort, PageNumber(1), perPage, table).pageCount ==>
              ListSpec(le, keep, sort, PageNumber(page), perPage, table).items == []
  {
    hide FilterRows, SortRows, PageCount, PageRows, Preorder, Ordered, Answers;
    var rows, size := FilterRows(keep, table), ClampPerPage(perPage);
    var n := PageCount(|rows|, size);
    FilterDistinct(keep, table);
    SortRowsAnswers(le, sort, rows);
    SortedLength(le, sort, rows);
    var pages := ListedPages(le, keep, sort, perPage, table, n);
    forall k | 0 <= k < n
      ensures PageAnswer(le, sort, rows, k + 1, size, pages[k])
    {
      assert pages[k] == PageRows(SortRows(le, sort, rows), k + 1, size);
    }
    PagesPartition(le, sort, rows, size, pages);
    assert pages[..n] == pages;
    forall page: int | page > n
      ensures ListSpec(le, keep, sort, PageNumber(page), perPage, table).items == []
    {
      PageHasRows(SortRows(le, sort, rows), page, size);
    }
  }

  lemma SortedLength(le: NameOrder, sort: Sort, table: seq<Candidate>)
    requires Answers(le, sort, SortRows(le, sort, table), table)
    ensures |SortRows(le, sort, table)| == |table|
  {
    assert |multiset(SortRows(le, sort, table))| == |multiset(table)|;
  }

  // --------------------------------------------------------- what a list shows, in which order

  lemma PageKeepsOrder(le: NameOrder, sort: Sort, rows: seq<Candidate>, page: nat, perPage: nat)
    requires Ordered(le, sort, rows) && page >= 1
    ensures Ordered(le, sort, PageRows(rows, page, perPage))
  {
    hide Before;
    var offset := (page - 1) * perPage;
    var r := PageRows(rows, page, perPage);
    forall i, j | 0 <= i < j < |r|
      ensures Before(le, sort, r[i], r[j])
    {
      assert r[i] == rows[offset + i] && r[j] == rows[offset + j];
    }
  }

  /**
   The order of the items of one page, for every sort key: cheapest or dearest first
   by the price shown, by name, or, for any other key, newest first; equals by
   descending id.
   */
  lemma ItemsInOrder(le: NameOrder, keep: Candidate -> bool, key: string, page: Number, perPage: Number, table: seq<Candidate>, i: nat, j: nat)
    requires Preorder(le) && DistinctIds(table)
    requires i < j < |ListSpec(le, keep, SortOf(key), page, perPage, table).items|
    ensures var a := ListSpec(le, keep, SortOf(key), page, perPage, table).items[i];
            var b := ListSpec(le, keep, SortOf(key), page, perPage, table).items[j];
            var pa := if a.product.sale.Some? then a.product.sale.value else a.product.price;
            var pb := if b.product.sale.Some? then b.product.sale.value else b.product.price;
            if key == "price-asc" then pa < pb || (pa == pb && a.id > b.id)
            else if key == "price-desc" then pa > pb || (pa == pb && a.id > b.id)
            else if key == "name" then le(a.product.name, b.product.name) && (le(b.product.name, a.product.name) ==> a.id > b.id)
            else a.createdAt > b.createdAt || (a.createdAt == b.createdAt && a.id > b.id)
  {
    hide FilterRows, SortRows, PageRows, PageCount, Preorder;
    var rows := FilterRows(keep, table);
    FilterDistinct(keep, table);
    SortRowsAnswers(le, SortOf(key), rows);
    PageKeepsOrder(le, SortOf(key), SortRows(le, SortOf(key), rows), ClampPage(page), ClampPerPage(perPage));
  }

  lemma ConcatenatedMembers(le: NameOrder, keep: Candidate -> bool, sort: Sort, perPage: Number, table: seq<Candidate>, row: Candidate)
    requires Preorder(le) && DistinctIds(table)
    ensures var n := ListSpec(le, keep, sort, PageNumber(1), perPage, table).pageCount;
            row in Concatenated(ListedPages(le, keep, sort, perPage, table, n)) <==> row in table && keep(row)
  {
    hide ListSpec, Preorder, Concatenated, ListedPages, Ordered, FilterRows;
    ListShowsEverything(le, keep, sort, perPage, table);
    FilterMembers(keep, table, row);
    var all := Concatenated(ListedPages(le, keep, sort, perPage, table, ListSpec(le, keep, sort, PageNumber(1), perPage, table).pageCount));
    assert row in multiset(all) <==> row in multiset(FilterRows(keep, table));
  }

  /** The pages of the public list together show exactly the visible rows that meet every filter given. */
  lemma PublicListShows(le: NameOrder, f: Filters, sort: Sort, perPage: Number, table: seq<Candidate>, row: Candidate)
    requires Preorder(le) && DistinctIds(table)
    ensures var n := ListSpec(le, row => Wanted(f, row), sort, PageNumber(1), perPage, table).pageCount;
            row in Concatenated(ListedPages(le, row => Wanted(f, row), sort, perPage, table, n)) <==>
              && row in table && row.product.isActive && row.categoryActive
              && (f.categoryId.None? || f.categoryId.value == 0 || row.product.categoryId == f.categoryId.value)
              && (f.brandId.None? || f.brandId.value == 0 || row.product.brandId == f.brandId)
              && (f.availability.None? || f.availability.value !in ["in_stock", "out_of_stock", "on_order", "discontinued"]
                  || row.product.availability == f.availability.value)
              && (f.vehicleId.None? || f.vehicleId.value == 0 || f.vehicleId.value in row.vehicles)
              && (f.isFeatured == Some(true) ==> row.product.isFeatured)
              && (f.isNew == Some(true) ==> row.product.isNew)
  {
    hide ListSpec, Preorder, Concatenated, ListedPages;
    ConcatenatedMembers(le, row => Wanted(f, row), sort, perPage, table, row);
  }

  /** The same for the admin list: inactive rows too, and the search box. */
  lemma AdminListShows(cs: Casing, db: Collation, le: NameOrder, f: Filters, sort: Sort, perPage: Number, table: seq<Candidate>, row: Candidate)
    requires Preorder(le) && DistinctIds(table)
    ensures var n := ListSpec(le, row => AdminWanted(cs, db, f, row), sort, PageNumber(1), perPage, table).pageCount;
            row in Concatenated(ListedPages(le, row => AdminWanted(cs, db, f, row), sort, perPage, table, n)) <==>
              && row in table
              && (f.categoryId.None? || f.categoryId.value == 0 || row.product.categoryId == f.categoryId.value)
              && (f.brandId.None? || f.brandId.value == 0 || row.product.brandId == f.brandId)
              && (f.availability.None? || f.availability.value !in ["in_stock", "out_of_stock", "on_order", "discontinued"]
                  || row.product.availability == f.availability.value)
              && (f.isActive.None? || row.product.isActive == f.isActive.value)
              && (f.term.None? || f.term.value == ""
                  || Matches(db.alike, "%" + SearchForm(cs, f.term.value) + "%", row.product.searchText)
                  || (OemKey(cs, f.term.value) != ""
                      && ((row.product.oemNormalized.Some? && OemKey(cs, f.term.value) <= row.product.oemNormalized.value)
                          || OemKey(cs, f.term.value) <= db.upper(row.product.sku))))
  {
    hide ListSpec, Preorder, Concatenated, ListedPages, Matches, SearchForm, OemKey;
    ConcatenatedMembers(le, row => AdminWanted(cs, db, f, row), sort, perPage, table, row);
  }

  /** The total is the number of rows shown, and the page count is the smallest that holds them. */
  lemma TotalsAgree(le: NameOrder, keep: Candidate -> bool, sort: Sort, page: Number, perPage: Number, table: seq<Candidate>)
    ensures var r := ListSpec(le, keep, sort, page, perPage, table);
            && r.total == |set i: nat | i < |table| && keep(table[i])|
            && r.pageCount >= 1 && r.pageCount * r.perPage >= r.total
            && (r.pageCount > 1 ==> (r.pageCount - 1) * r.perPage < r.total)
  {
    hide PageRows, SortRows, PageCount;
    FilterCount(keep, table);
    CeilingCovers(|FilterRows(keep, table)|, ClampPerPage(perPage));
    PageCountPositive(|FilterRows(keep, table)|, ClampPerPage(perPage));
  }

  lemma PageCountPositive(total: nat, perPage: nat)
    requires perPage > 0
    ensures PageCount(total, perPage) >= 1 && (total == 0 ==> PageCount(total, perPage) == 1)
  {
  }

  lemma {:induction false} FilterCount(keep: Candidate -> bool, table: seq<Candidate>)
    ensures |FilterRows(keep, table)| == |set i: nat | i < |table| && keep(table[i])|
  {
    var all := set i: nat | i < |table| && keep(table[i]);
    if table == [] {
      forall i
        ensures i !in all
      {
      }
      assert all == {};
    } else {
      var n := |table| - 1;
      var init := table[..n];
      var before := set i: nat | i < |init| && keep(init[i]);
      FilterCount(keep, init);
      if n in all {
        assert all == before + {n};
      } else {
        assert all == before;
      }
    }
  }

  // --------------------------------------------------------- the page bar

  /** pageWindow: the pages at most span away that exist. */
  method PageWindow(current: int, pageCount: int, span: nat) returns (pages: seq<int>)
    ensures forall p :: p in pages <==> 1 <= p <= pageCount && current - span <= p <= current + span
    ensures forall i :: 0 <= i < |pages| ==> pages[i] == Max(1, current - span) + i
    ensures |pages| == Max(0, Min(pageCount, current + span) - Max(1, current - span) + 1) <= 2 * span + 1
    ensures current in pages <==> 1 <= current <= pageCount
  {
    var first, last := Max(1, current - span), Min(pageCount, current + span);
    pages := [];
    var i := first;
    while i <= last
      invariant first <= i && |pages| == i - first && (i <= last + 1 || pages == [])
      invariant forall k :: 0 <= k < |pages| ==> pages[k] == first + k
      decreases last - i
    {
      pages := pages + [i];
      i := i + 1;
    }
    forall p | 1 <= p <= pageCount && current - span <= p <= current + span
      ensures p in pages
    {
      assert pages[p - first] == p;
    }
  }

  datatype PageLink = PageLink(number: int, isCurrent: bool)

  /** The numbers of the page bar; the links are left to the templates. */
  datatype PageBar = PageBar(page: int, pageCount: int, total: nat, prev: Option<int>, next: Option<int>, pages: seq<PageLink>)

  /** buildPagination */
  method BuildPagination(page: int, pageCount: int, total: nat) returns (bar: Option<PageBar>)
    ensures bar.None? <==> pageCount <= 1
    ensures bar.Some? ==>
              && bar.value.page == page && bar.value.pageCount == pageCount && bar.value.total == total
              && bar.value.prev == (if page > 1 then Some(page - 1) else None)
              && bar.value.next == (if page < pageCount then Some(page + 1) else None)
    ensures bar.Some? ==>
              && (forall i :: 0 <= i < |bar.value.pages| ==>
                    bar.value.pages[i] == PageLink(Max(1, page - 2) + i, Max(1, page - 2) + i == page))
              && |bar.value.pages| == Max(0, Min(pageCount, page + 2) - Max(1, page - 2) + 1)
  {
    if pageCount <= 1 {
      return None;
    }
    var window := PageWindow(page, pageCount, 2);
    var pages := seq(|window|, i requires 0 <= i < |window| => PageLink(window[i], window[i] == page));
    bar := Some(PageBar(page, pageCount, total, if page > 1 then Some(page - 1) else None,
                        if page < pageCount then Some(page + 1) else None, pages));
  }
}
