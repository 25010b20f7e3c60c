/**
 The WHERE clauses of the product lists: clauses with numbered placeholders,
 their SQL meaning with NULLs, and the filter they are built from.
 */
module ProductFilter {
  import opened Wrappers
  import opened JsText
  import opened Slug
  import opened Schema
  import opened SqlLike

  // --------------------------------------------------------- SQL

  datatype Value = Null | Int(n: int) | Text(s: string) | Bool(b: bool)

  datatype Column =
    | ProductActive | CategoryActive | CategoryId | BrandId | Availability | Featured | New | SearchText | OemNormalized | Sku

  /** Placeholders count from 1. */
  datatype Expr =
    | Param(k: nat)
    | Col(column: Column)
    | Const(value: Value)
    | Concat(left: Expr, right: Expr)
    | Upper(arg: Expr)

  datatype Cond =
    | True
    | Eq(left: Expr, right: Expr)
    | NotNull(arg: Expr)
    | Like(arg: Expr, pattern: Expr)
    | ILike(arg: Expr, pattern: Expr)
    | InVehicles(arg: Expr)
    | And(a: Cond, b: Cond)
    | Or(a: Cond, b: Cond)

  datatype Truth = Yes | No | Unknown

  /** A row of products joined with its category and its product_vehicle rows. */
  datatype Candidate = Candidate(id: int, createdAt: int, product: ProductRow, categoryActive: bool, vehicles: set<int>)

  /** The database's own text functions: upper(), and which characters ILIKE identifies. */
  datatype Collation = Collation(upper: string -> string, alike: (char, char) -> bool) {

    /** ILIKE identifies a character with itself, and ASCII characters that differ in case only. */
    ghost predicate Lawful() {
      && Reflexive(alike)
      && (forall a, b :: a < 128 as char && b < 128 as char ==> (alike(a, b) <==> AsciiLower(a) == AsciiLower(b)))
      && (forall c :: c < 128 as char ==> upper([c]) == [AsciiUpper(c)])
    }
  }

  function MaybeInt(n: Option<int>): Value { if n.None? then Null else Int(n.value) }
  function MaybeText(s: Option<string>): Value { if s.None? then Null else Text(s.value) }

  function Cell(row: Candidate, c: Column): Value {
    match c
    case ProductActive => Bool(row.product.isActive)
    case CategoryActive => Bool(row.categoryActive)
    case CategoryId => Int(row.product.categoryId)
    case BrandId => MaybeInt(row.product.brandId)
    case Availability => Text(row.product.availability)
    case Featured => Bool(row.product.isFeatured)
    case New => Bool(row.product.isNew)
    case SearchText => Text(row.product.searchText)
    case OemNormalized => MaybeText(row.product.oemNormalized)
    case Sku => Text(row.product.sku)
  }

  function ValueOf(db: Collation, e: Expr, row: Candidate, params: seq<Value>): Value {
    match e
    case Param(k) => if 1 <= k <= |params| then params[k - 1] else Null
    case Col(c) => Cell(row, c)
    case Const(v) => v
    case Concat(l, r) =>
      var a, b := ValueOf(db, l, row, params), ValueOf(db, r, row, params);
      if a.Text? && b.Text? then Text(a.s + b.s) else Null
    case Upper(arg) =>
      var a := ValueOf(db, arg, row, params);
      if a.Text? then Text(db.upper(a.s)) else Null
  }

  function FromBool(b: bool): Truth { if b then Yes else No }

  function Both(a: Truth, b: Truth): Truth {
    if a == No || b == No then No else if a == Yes && b == Yes then Yes else Unknown
  }

  function Either(a: Truth, b: Truth): Truth {
    if a == Yes || b == Yes then Yes else if a == No && b == No then No else Unknown
  }

  function TextMatch(same: (char, char) -> bool, text: Value, pattern: Value): Truth {
    if text.Text? && pattern.Text? then FromBool(Matches(same, pattern.s, text.s)) else Unknown
  }

  function Equal(a: char, b: char): bool { a == b }

  /** A comparison with NULL is unknown. */
  function Eval(db: Collation, c: Cond, row: Candidate, params: seq<Value>): Truth {
    match c
    case True => Yes
    case Eq(l, r) =>
      var a, b := ValueOf(db, l, row, params), ValueOf(db, r, row, params);
      if a.Null? || b.Null? then Unknown else FromBool(a == b)
    case NotNull(e) => FromBool(!ValueOf(db, e, row, params).Null?)
    case Like(e, p) => TextMatch(Equal, ValueOf(db, e, row, params), ValueOf(db, p, row, params))
    case ILike(e, p) => TextMatch(db.alike, ValueOf(db, e, row, params), ValueOf(db, p, row, params))
    case InVehicles(e) =>
      var v := ValueOf(db, e, row, params);
      FromBool(v.Int? && v.n in row.vehicles)
    case And(a, b) => Both(Eval(db, a, row, params), Eval(db, b, row, params))
    case Or(a, b) => Either(Eval(db, a, row, params), Eval(db, b, row, params))
  }

  /** clauses.join(' AND ') */
  function Joined(clauses: seq<Cond>): Cond {
    if clauses == [] then True
    else if |clauses| == 1 then clauses[0]
    else And(Joined(clauses[..|clauses| - 1]), clauses[|clauses| - 1])
  }

  /** WHERE keeps the rows for which the condition is true, not unknown. */
  predicate Selects(db: Collation, clauses: seq<Cond>, params: seq<Value>, row: Candidate) {
    Eval(db, Joined(clauses), row, params) == Yes
  }

  predicate ExprBound(e: Expr, n: nat) {
    match e
    case Param(k) => 1 <= k <= n
    case Col(_) => true
    case Const(_) => true
    case Concat(l, r) => ExprBound(l, n) && ExprBound(r, n)
    case Upper(arg) => ExprBound(arg, n)
  }

  /** Every placeholder points at one of the first n parameters. */
  predicate Bound(c: Cond, n: nat) {
    match c
    case True => true
    case Eq(l, r) => ExprBound(l, n) && ExprBound(r, n)
    case NotNull(e) => ExprBound(e, n)
    case Like(e, p) => ExprBound(e, n) && ExprBound(p, n)
    case ILike(e, p) => ExprBound(e, n) && ExprBound(p, n)
    case InVehicles(e) => ExprBound(e, n)
    case And(a, b) => Bound(a, n) && Bound(b, n)
    case Or(a, b) => Bound(a, n) && Bound(b, n)
  }

  predicate AllBound(clauses: seq<Cond>, n: nat) {
    forall i :: 0 <= i < |clauses| ==> Bound(clauses[i], n)
  }

  lemma {:induction false} ValueStable(db: Collation, e: Expr, row: Candidate, params: seq<Value>, more: seq<Value>)
    requires ExprBound(e, |params|)
    ensures ValueOf(db, e, row, params + more) == ValueOf(db, e, row, params)
    decreases e
  {
    match e
    case Concat(l, r) =>
      ValueStable(db, l, row, params, more);
      ValueStable(db, r, row, params, more);
    case Upper(arg) => ValueStable(db, arg, row, params, more);
    case _ =>
  }

  /** Pushing further parameters does not disturb the clauses already built. */
  lemma {:induction false} EvalStable(db: Collation, c: Cond, row: Candidate, params: seq<Value>, more: seq<Value>)
    requires Bound(c, |params|)
    ensures Eval(db, c, row, params + more) == Eval(db, c, row, params)
    decreases c
  {
    match c
    case True =>
    case Eq(l, r) =>
      ValueStable(db, l, row, params, more);
      ValueStable(db, r, row, params, more);
    case NotNull(e) => ValueStable(db, e, row, params, more);
    case Like(e, p) =>
      ValueStable(db, e, row, params, more);
      ValueStable(db, p, row, params, more);
    case ILike(e, p) =>
      ValueStable(db, e, row, params, more);
      ValueStable(db, p, row, params, more);
    case InVehicles(e) => ValueStable(db, e, row, params, more);
    case And(a, b) =>
      EvalStable(db, a, row, params, more);
      EvalStable(db, b, row, params, more);
    case Or(a, b) =>
      EvalStable(db, a, row, params, more);
      EvalStable(db, b, row, params, more);
  }

  lemma {:induction false} JoinedBound(clauses: seq<Cond>, n: nat)
    requires AllBound(clauses, n)
    ensures Bound(Joined(clauses), n)
  {
    if |clauses| > 1 {
      JoinedBound(clauses[..|clauses| - 1], n);
    }
  }

  /** One more clause is one more condition. */
  lemma OneMoreClause(db: Collation, clauses: seq<Cond>, params: seq<Value>, c: Cond, more: seq<Value>, row: Candidate)
    requires AllBound(clauses, |params|)
    ensures Selects(db, clauses + [c], params + more, row)
            <==> Selects(db, clauses, params, row) && Eval(db, c, row, params + more) == Yes
  {
    var all := clauses + [c];
    assert all[..|all| - 1] == clauses;
    JoinedBound(clauses, |params|);
    EvalStable(db, Joined(clauses), row, params, more);
  }

  // --------------------------------------------------------- filters

  datatype Filters = Filters(
    categoryId: Option<int>, brandId: Option<int>, availability: Option<string>, vehicleId: Option<int>,
    isFeatured: Option<bool>, isNew: Option<bool>, isActive: Option<bool>, term: Option<string>)

  /** 0 is falsy: it counts as no filter. */
  predicate Given(id: Option<int>) {
    id.Some? && id.value != 0
  }

  predicate KnownAvailability(a: Option<string>) {
    a.Some? && a.value in AVAILABILITY
  }

  predicate CommonWanted(f: Filters, row: Candidate) {
    && (Given(f.categoryId) ==> row.product.categoryId == f.categoryId.value)
    && (Given(f.brandId) ==> row.product.brandId == f.brandId)
    && (KnownAvailability(f.availability) ==> row.product.availability == f.availability.value)
  }

  predicate OnShow(row: Candidate) {
    row.product.isActive && row.categoryActive
  }

  /** What the public list shows. */
  predicate Wanted(f: Filters, row: Candidate) {
    && OnShow(row)
    && CommonWanted(f, row)
    && (Given(f.vehicleId) ==> f.vehicleId.value in row.vehicles)
    && (f.isFeatured == Some(true) ==> row.product.isFeatured)
    && (f.isNew == Some(true) ==> row.product.isNew)
  }

  /** By search text, or by the start of the part-number key or of the upper-cased code. */
  predicate TermFound(cs: Casing, db: Collation, term: string, row: Candidate) {
    || Matches(db.alike, "%" + SearchForm(cs, term) + "%", row.product.searchText)
    || (OemKey(cs, term) != ""
        && ((row.product.oemNormalized.Some? && OemKey(cs, term) <= row.product.oemNormalized.value)
            || OemKey(cs, term) <= db.upper(row.product.sku)))
  }

  /** What the admin list shows: inactive rows too, unless asked otherwise. */
  predicate AdminWanted(cs: Casing, db: Collation, f: Filters, row: Candidate) {
    && CommonWanted(f, row)
    && (f.isActive.Some? ==> row.product.isActive == f.isActive.value)
    && (f.term.Some? && f.term.value != "" ==> TermFound(cs, db, f.term.value, row))
  }

  // --------------------------------------------------------- building

  /** The array of parameters that clauses and page limits are pushed onto. */
  class Params {
    var values: seq<Value>

    constructor ()
      ensures values == []
    {
      values := [];
    }

    /** Push, and the number of the new placeholder. */
    method Push(v: Value) returns (k: nat)
      modifies this
      ensures values == old(values) + [v] && k == |values|
    {
      values := values + [v];
      k := |values|;
    }
  }

  type Meaning = (Collation, Candidate) -> bool

  /** All placeholders are bound, and the clauses select exactly the rows that w wants. */
  ghost predicate Means(clauses: seq<Cond>, params: seq<Value>, w: Meaning) {
    && AllBound(clauses, |params|)
    && forall db: Collation, row: Candidate :: Selects(db, clauses, params, row) <==> w(db, row)
  }

  lemma {:induction false} ExprBoundGrows(e: Expr, n: nat, m: nat)
    requires ExprBound(e, n) && n <= m
    ensures ExprBound(e, m)
    decreases e
  {
    match e
    case Concat(l, r) =>
      ExprBoundGrows(l, n, m);
      ExprBoundGrows(r, n, m);
    case Upper(arg) => ExprBoundGrows(arg, n, m);
    case _ =>
  }

  lemma {:induction false} BoundGrows(c: Cond, n: nat, m: nat)
    requires Bound(c, n) && n <= m
    ensures Bound(c, m)
    decreases c
  {
    match c
    case True =>
    case Eq(l, r) =>
      ExprBoundGrows(l, n, m);
      ExprBoundGrows(r, n, m);
    case NotNull(e) => ExprBoundGrows(e, n, m);
    case Like(e, p) =>
      ExprBoundGrows(e, n, m);
      ExprBoundGrows(p, n, m);
    case ILike(e, p) =>
      ExprBoundGrows(e, n, m);
      ExprBoundGrows(p, n, m);
    case InVehicles(e) => ExprBoundGrows(e, n, m);
    case And(a, b) =>
      BoundGrows(a, n, m);
      BoundGrows(b, n, m);
    case Or(a, b) =>
      BoundGrows(a, n, m);
      BoundGrows(b, n, m);
  }

  lemma AndCondition(clauses: seq<Cond>, params: seq<Value>, w: Meaning, c: Cond, values: seq<Value>, w': Meaning)
    requires Means(clauses, params, w) && Bound(c, |params + values|)
    requires forall db: Collation, row: Candidate :: w'(db, row) <==> w(db, row) && Eval(db, c, row, params + values) == Yes
    ensures Means(clauses + [c], params + values, w')
  {
    hide Eval, Selects, Bound;
    forall i | 0 <= i < |clauses|
      ensures Bound(clauses[i], |params + values|)
    {
      BoundGrows(clauses[i], |params|, |params + values|);
    }
    forall db: Collation, row: Candidate
      ensures Selects(db, clauses + [c], params + values, row) <==> w'(db, row)
    {
      OneMoreClause(db, clauses, params, c, values, row);
    }
  }

  lemma SameMeaning(clauses: seq<Cond>, params: seq<Value>, w: Meaning, w': Meaning)
    requires Means(clauses, params, w) && forall db: Collation, row: Candidate :: w'(db, row) <==> w(db, row)
    ensures Means(clauses, params, w')
  {
    hide Selects;
  }

  ghost function AndCell(w: Meaning, filtered: bool, column: Column, value: Value): Meaning {
    (db, row) => w(db, row) && (filtered ==> Cell(row, column) == value)
  }

  /** if (filter) { params.push(value); clauses.push(`column = $n`) } */
  method AndEquals(clauses: seq<Cond>, filtered: bool, column: Column, value: Value, params: Params, ghost w: Meaning)
    returns (more: seq<Cond>)
    requires Means(clauses, params.values, w) && !value.Null?
    modifies params
    ensures params.values == old(params.values) + if filtered then [value] else []
    ensures Means(more, params.values, AndCell(w, filtered, column, value))
  {
    hide Means, Selects;
    more := clauses;
    if filtered {
      var k := params.Push(value);
      more := clauses + [Eq(Col(column), Param(k))];
      AndCondition(clauses, old(params.values), w, Eq(Col(column), Param(k)), [value], AndCell(w, true, column, value));
    } else {
      SameMeaning(clauses, params.values, w, AndCell(w, false, column, value));
      assert params.values + [] == params.values;
    }
  }

  /** if (flag) clauses.push('column = TRUE'), or FALSE */
  method AndFlag(clauses: seq<Cond>, filtered: bool, column: Column, want: bool, params: Params, ghost w: Meaning)
    returns (more: seq<Cond>)
    requires Means(clauses, params.values, w)
    ensures Means(more, params.values, AndCell(w, filtered, column, Bool(want)))
  {
    hide Means, Selects;
    more := clauses;
    if filtered {
      more := clauses + [Eq(Col(column), Const(Bool(want)))];
      assert params.values + [] == params.values;
      AndCondition(clauses, params.values, w, Eq(Col(column), Const(Bool(want))), [], AndCell(w, true, column, Bool(want)));
    } else {
      SameMeaning(clauses, params.values, w, AndCell(w, false, column, Bool(want)));
    }
  }

  /** The three filters both lists share. */
  method AndCommon(clauses: seq<Cond>, f: Filters, params: Params, ghost w: Meaning) returns (more: seq<Cond>)
    requires Means(clauses, params.values, w)
    modifies params
    ensures old(params.values) <= params.values
    ensures Means(more, params.values, (db, row) => w(db, row) && CommonWanted(f, row))
  {
    hide Means, Selects;
    var category := if f.categoryId.Some? then f.categoryId.value else 0;
    var brand := if f.brandId.Some? then f.brandId.value else 0;
    var availability := if f.availability.Some? then f.availability.value else "";
    more := AndEquals(clauses, Given(f.categoryId), CategoryId, Int(category), params, w);
    ghost var w1 := AndCell(w, Given(f.categoryId), CategoryId, Int(category));
    more := AndEquals(more, Given(f.brandId), BrandId, Int(brand), params, w1);
    ghost var w2 := AndCell(w1, Given(f.brandId), BrandId, Int(brand));
    more := AndEquals(more, KnownAvailability(f.availability), Availability, Text(availability), params, w2);
    ghost var w3 := AndCell(w2, KnownAvailability(f.availability), Availability, Text(availability));
    ghost var all: Meaning := (db, row) => w(db, row) && CommonWanted(f, row);
    forall db: Collation, row: Candidate
      ensures all(db, row) <==> w3(db, row)
    {
      assert w2(db, row) <==> w1(db, row) && (Given(f.brandId) ==> Cell(row, BrandId) == Int(brand));
      assert w1(db, row) <==> w(db, row) && (Given(f.categoryId) ==> Cell(row, CategoryId) == Int(category));
    }
    SameMeaning(more, params.values, w3, all);
  }

  /** buildWhere */
  method BuildWhere(f: Filters, params: Params) returns (clauses: seq<Cond>)
    modifies params
    ensures old(params.values) <= params.values
    ensures Means(clauses, params.values, (db, row) => Wanted(f, row))
  {
    hide Means, Selects;
    clauses := StartPublic(params);
    ghost var w0: Meaning := (db, row) => OnShow(row);
    clauses := AndCommon(clauses, f, params, w0);
    ghost var w1: Meaning := (db, row) => w0(db, row) && CommonWanted(f, row);
    ghost var w2: Meaning := (db, row) => w1(db, row) && (Given(f.vehicleId) ==> f.vehicleId.value in row.vehicles);
    if Given(f.vehicleId) {
      ghost var before := params.values;
      var k := params.Push(Int(f.vehicleId.value));
      AndCondition(clauses, before, w1, InVehicles(Param(k)), [Int(f.vehicleId.value)], w2);
      clauses := clauses + [InVehicles(Param(k))];
    } else {
      SameMeaning(clauses, params.values, w1, w2);
    }
    clauses := AndFlag(clauses, f.isFeatured == Some(true), Featured, true, params, w2);
    ghost var w3 := AndCell(w2, f.isFeatured == Some(true), Featured, Bool(true));
    clauses := AndFlag(clauses, f.isNew == Some(true), New, true, params, w3);
    ghost var w4 := AndCell(w3, f.isNew == Some(true), New, Bool(true));
    ghost var w: Meaning := (db, row) => Wanted(f, row);
    forall db: Collation, row: Candidate
      ensures w(db, row) <==> w4(db, row)
    {
      assert w3(db, row) <==> w2(db, row) && (f.isFeatured == Some(true) ==> row.product.isFeatured);
      assert w2(db, row) <==> w1(db, row) && (Given(f.vehicleId) ==> f.vehicleId.value in row.vehicles);
    }
    SameMeaning(clauses, params.values, w4, w);
  }

  method StartPublic(params: Params) returns (clauses: seq<Cond>)
    ensures Means(clauses, params.values, (db, row) => OnShow(row))
  {
    var active, shown := Eq(Col(ProductActive), Const(Bool(true))), Eq(Col(CategoryActive), Const(Bool(true)));
    clauses := [active, shown];
    assert clauses[..1] == [active];
    assert Joined(clauses) == And(active, shown);
    forall db: Collation, row: Candidate
      ensures Selects(db, clauses, params.values, row) <==> OnShow(row)
    {
      assert Eval(db, active, row, params.values) == FromBool(row.product.isActive);
      assert Eval(db, shown, row, params.values) == FromBool(row.categoryActive);
    }
  }

  function Anywhere(k: nat): Expr {
    Concat(Concat(Const(Text("%")), Param(k)), Const(Text("%")))
  }

  function AtStart(k: nat): Expr {
    Concat(Param(k), Const(Text("%")))
  }

  function ByKey(o: nat): Cond {
    Or(Like(Col(OemNormalized), AtStart(o)), Like(Upper(Col(Sku)), AtStart(o)))
  }

  function TermClause(n: nat, o: nat): Cond {
    Or(ILike(Col(SearchText), Anywhere(n)), And(NotNull(Param(o)), ByKey(o)))
  }

  lemma TermClauseBound(n: nat, o: nat, m: nat)
    requires 1 <= n <= m && 1 <= o <= m
    ensures Bound(TermClause(n, o), m)
  {
    assert ExprBound(Param(n), m) && ExprBound(Param(o), m) && ExprBound(Const(Text("%")), m);
    assert ExprBound(Concat(Const(Text("%")), Param(n)), m) && ExprBound(Upper(Col(Sku)), m);
    assert ExprBound(Anywhere(n), m) && ExprBound(AtStart(o), m);
    assert Bound(Like(Upper(Col(Sku)), AtStart(o)), m) && Bound(Like(Col(OemNormalized), AtStart(o)), m);
    assert Bound(ByKey(o), m) && Bound(NotNull(Param(o)), m);
    assert Bound(And(NotNull(Param(o)), ByKey(o)), m) && Bound(ILike(Col(SearchText), Anywhere(n)), m);
  }

  lemma KeyIsPlain(cs: Casing, term: string)
    ensures forall c :: c in OemKey(cs, term) ==> !IsWild(c)
  {
    OemKeyChars(cs, term);
  }

  lemma PrefixMeans(key: string, s: string)
    requires forall c :: c in key ==> !IsWild(c)
    ensures Matches(Equal, key + "%", s) <==> key <= s
  {
    PlainPrefix(Equal, key, s);
    EqualPrefix(key, s);
  }

  lemma {:induction false} EqualPrefix(key: string, s: string)
    ensures StartsAlike(Equal, key, s) <==> key <= s
  {
    if key != "" && s != "" {
      EqualPrefix(key[1..], s[1..]);
      assert key == [key[0]] + key[1..] && s == [s[0]] + s[1..];
    }
  }

  lemma ByKeyMeans(db: Collation, o: nat, row: Candidate, params: seq<Value>, key: string)
    requires 1 <= o <= |params| && params[o - 1] == Text(key) && forall c :: c in key ==> !IsWild(c)
    ensures Eval(db, ByKey(o), row, params) == Yes
            <==> (row.product.oemNormalized.Some? && key <= row.product.oemNormalized.value) || key <= db.upper(row.product.sku)
  {
    hide Matches, IsWild;
    var pattern := Text(key + "%");
    assert ValueOf(db, AtStart(o), row, params) == pattern;
    assert ValueOf(db, Upper(Col(Sku)), row, params) == Text(db.upper(row.product.sku));
    assert Eval(db, ByKey(o), row, params)
           == Either(TextMatch(Equal, MaybeText(row.product.oemNormalized), pattern),
                     TextMatch(Equal, Text(db.upper(row.product.sku)), pattern));
    PrefixMeans(key, db.upper(row.product.sku));
    if row.product.oemNormalized.Some? {
      PrefixMeans(key, row.product.oemNormalized.value);
    }
  }

  /** The term clause, with an absent part-number key bound as NULL. */
  lemma TermClauseMeans(cs: Casing, db: Collation, term: string, row: Candidate, params: seq<Value>)
    ensures Eval(db, TermClause(|params| + 1, |params| + 2), row,
                 params + [Text(SearchForm(cs, term)), MaybeText(NormalizeOem(cs, Some(term)))]) == Yes
            <==> TermFound(cs, db, term, row)
  {
    hide Matches, OemKey, SearchForm, ByKey, IsWild;
    var needle, oem := Text(SearchForm(cs, term)), MaybeText(NormalizeOem(cs, Some(term)));
    var all, n, o := params + [needle, oem], |params| + 1, |params| + 2;
    assert all[n - 1] == needle && all[o - 1] == oem;
    assert ValueOf(db, Param(n), row, all) == needle;
    assert ValueOf(db, Concat(Const(Text("%")), Param(n)), row, all) == Text("%" + needle.s);
    assert ValueOf(db, Anywhere(n), row, all) == Text("%" + needle.s + "%");
    assert Eval(db, TermClause(n, o), row, all)
           == Either(Eval(db, ILike(Col(SearchText), Anywhere(n)), row, all),
                     Both(Eval(db, NotNull(Param(o)), row, all), Eval(db, ByKey(o), row, all)));
    KeyIsPlain(cs, term);
    if OemKey(cs, term) != "" {
      ByKeyMeans(db, o, row, all, OemKey(cs, term));
    }
  }

  /** The search box of the admin list. */
  method AndTerm(cs: Casing, clauses: seq<Cond>, term: string, params: Params, ghost w: Meaning, ghost w': Meaning)
    returns (more: seq<Cond>)
    requires Means(clauses, params.values, w)
    requires forall db: Collation, row: Candidate :: w'(db, row) <==> w(db, row) && TermFound(cs, db, term, row)
    modifies params
    ensures old(params.values) <= params.values
    ensures Means(more, params.values, w')
  {
    hide Means, Selects, TermFound, Eval, TermClause, NormalizeOem, SearchForm, Bound;
    var needle, oem := SearchForm(cs, term), NormalizeOem(cs, Some(term));
    ghost var before := params.values;
    var n := params.Push(Text(needle));
    var o := params.Push(MaybeText(oem));
    ghost var pushed := [Text(needle), MaybeText(oem)];
    assert params.values == before + pushed;
    TermClauseBound(n, o, |before + pushed|);
    forall db: Collation, row: Candidate
      ensures w'(db, row) <==> w(db, row) && Eval(db, TermClause(n, o), row, before + pushed) == Yes
    {
      TermClauseMeans(cs, db, term, row, before);
    }
    AndCondition(clauses, before, w, TermClause(n, o), pushed, w');
    more := clauses + [TermClause(n, o)];
  }

  /** buildAdminWhere */
  method BuildAdminWhere(cs: Casing, f: Filters, params: Params) returns (clauses: seq<Cond>)
    modifies params
    ensures old(params.values) <= params.values
    ensures Means(clauses, params.values, (db, row) => AdminWanted(cs, db, f, row))
  {
    hide Means, Selects, TermFound, Eval, TermClause;
    clauses := [True];
    ghost var w0: Meaning := (db, row) => true;
    TrueMeans(params.values, w0);
    clauses := AndCommon(clauses, f, params, w0);
    ghost var w1: Meaning := (db, row) => w0(db, row) && CommonWanted(f, row);
    clauses := AndFlag(clauses, f.isActive == Some(true), ProductActive, true, params, w1);
    ghost var w2 := AndCell(w1, f.isActive == Some(true), ProductActive, Bool(true));
    clauses := AndFlag(clauses, f.isActive == Some(false), ProductActive, false, params, w2);
    ghost var w3 := AndCell(w2, f.isActive == Some(false), ProductActive, Bool(false));
    forall db: Collation, row: Candidate
      ensures w3(db, row) <==> CommonWanted(f, row) && (f.isActive.Some? ==> row.product.isActive == f.isActive.value)
    {
      assert w2(db, row) <==> w1(db, row) && (f.isActive == Some(true) ==> row.product.isActive);
      assert w1(db, row) <==> CommonWanted(f, row);
    }
    ghost var w: Meaning := (db, row) => AdminWanted(cs, db, f, row);
    if f.term.Some? && f.term.value != "" {
      clauses := AndTerm(cs, clauses, f.term.value, params, w3, w);
    } else {
      SameMeaning(clauses, params.values, w3, w);
    }
  }

  lemma TrueMeans(params: seq<Value>, w: Meaning)
    requires forall db: Collation, row: Candidate :: w(db, row)
    ensures Means([True], params, w)
  {
  }
}
