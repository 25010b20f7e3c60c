/**
 The catalogue repositories and the handlers in front of them, statement by
 statement over the tables.
 */
module CatalogueStore {
  import opened Wrappers
  import opened JsText
  import opened Slug
  import opened Validate
  import opened Schema
  import opened CatalogForm
  import opened CategoryForest
  import opened Catalogue

  /** What a write statement gives back: the row's key, no row, or an error. */
  datatype Write = Done(id: int) | NoRow | Failed(error: WriteError)

  class Store {
    var categories: map<int, CategoryRow>
    var brands: map<int, BrandRow>
    var products: map<int, ProductRow>
    var nextCategory: int
    var nextBrand: int
    var nextProduct: int

    function View(): Shop
      reads this
    {
      Shop(categories, brands, products, nextCategory, nextBrand, nextProduct)
    }

    constructor ()
      ensures View() == EMPTY_SHOP
    {
      categories, brands, products := map[], map[], map[];
      nextCategory, nextBrand, nextProduct := 1, 1, 1;
    }

    // ------------------------------------------------------- category statements

    /** The recursive query, row by row; then WHERE id = $2. */
    method WalkUp(id: int, parentId: int) returns (found: bool)
      requires id != 0 && parentId != 0 && id != parentId
      ensures found == WouldCreateCycle(categories, id, parentId)
    {
      var at, depth := parentId, 0;
      found := false;
      while depth < MAX_DEPTH && at in categories
        invariant 0 <= depth <= MAX_DEPTH
        invariant (found || id in Walk(categories, at, MAX_DEPTH - depth)) == WouldCreateCycle(categories, id, parentId)
        decreases MAX_DEPTH - depth
      {
        ghost var rest := Walk(categories, at, MAX_DEPTH - depth);
        assert rest == [at] + rest[1..];
        found := found || at == id;
        if categories[at].parentId.None? {
          return;
        }
        at, depth := categories[at].parentId.value, depth + 1;
      }
    }

    /** wouldCreateCycle */
    method CreatesCycle(id: int, parentId: int) returns (found: bool)
      ensures found == WouldCreateCycle(categories, id, parentId)
    {
      if id == 0 || parentId == 0 {
        return false;
      }
      if id == parentId {
        return true;
      }
      found := WalkUp(id, parentId);
    }

    method InsertCategory(row: CategoryRow) returns (w: Write)
      modifies this
      ensures var s := old(View()); var fault := CategoryFault(s, s.nextCategory, row);
              var t := s.(nextCategory := s.nextCategory + 1);
              if fault.Some? then w == Failed(fault.value) && View() == t
              else w == Done(s.nextCategory) && View() == t.(categories := s.categories[s.nextCategory := row])
    {
      hide CategoryChecks;
      var id := nextCategory;
      nextCategory := nextCategory + 1;
      if !CategoryChecks(id, row) {
        return Failed(CheckFailed);
      }
      if !CategorySlugFree(categories, id, row.slug) {
        return Failed(Duplicate);
      }
      if row.parentId.Some? && row.parentId.value !in categories {
        return Failed(FkMissing);
      }
      categories := categories[id := row];
      w := Done(id);
    }

    method UpdateCategory(id: int, row: CategoryRow) returns (w: Write)
      modifies this
      ensures var s := old(View()); var fault := CategoryFault(s, id, row);
              if id !in s.categories then w == NoRow && View() == s
              else if fault.Some? then w == Failed(fault.value) && View() == s
              else w == Done(id) && View() == s.(categories := s.categories[id := row])
    {
      hide CategoryChecks;
      if id !in categories {
        return NoRow;
      }
      if !CategoryChecks(id, row) {
        return Failed(CheckFailed);
      }
      if !CategorySlugFree(categories, id, row.slug) {
        return Failed(Duplicate);
      }
      if row.parentId.Some? && row.parentId.value !in categories {
        return Failed(FkMissing);
      }
      categories := categories[id := row];
      w := Done(id);
    }

    method RemoveCategory(id: int) returns (w: Write)
      modifies this
      ensures var s := old(View());
              if id !in s.categories then w == NoRow && View() == s
              else if CategoryInUse(s, id) then w == Failed(FkRestrict) && View() == s
              else w == Done(id) && View() == s.(categories := s.categories - {id})
    {
      if id !in categories {
        return NoRow;
      }
      if CategoryInUse(View(), id) {
        return Failed(FkRestrict);
      }
      categories := categories - {id};
      w := Done(id);
    }

    // ------------------------------------------------------- category handlers

    method CategoryCreate(cs: Casing, b: CategoryBody) returns (reply: Reply)
      modifies this
      ensures Step(reply, View()) == AfterCategoryCreate(cs, old(View()), b)
    {
      hide CategoryFault, CategoryParsed, CategoryVerdicts, NoteAll;
      var values, errors := ParseCategoryForm(cs, b);
      if errors != map[] {
        return Invalid(errors);
      }
      var w := InsertCategory(values);
      reply := if w.Failed? then Rejected(w.error) else Saved;
    }

    method CategoryUpdate(cs: Casing, id: int, b: CategoryBody) returns (reply: Reply)
      modifies this
      ensures Step(reply, View()) == AfterCategoryUpdate(cs, old(View()), id, b)
    {
      hide CategoryFault, CategoryParsed, CategoryVerdicts, NoteAll, WouldCreateCycle;
      if id == 0 || id !in categories {
        return NotFound;
      }
      var values, errors := ParseCategoryForm(cs, b);
      if values.parentId.Some? && values.parentId.value != 0 {
        if values.parentId.value == id {
          errors := errors[ForParent := OwnParent];
        } else {
          var cycle := CreatesCycle(id, values.parentId.value);
          if cycle {
            errors := errors[ForParent := Cycle];
          }
        }
      }
      if errors != map[] {
        return Invalid(errors);
      }
      var w := UpdateCategory(id, values);
      reply := if w.Failed? then Rejected(w.error) else Saved;
    }

    method CategorySetActive(id: int, wanted: bool) returns (reply: Reply)
      modifies this
      ensures Step(reply, View()) == AfterCategorySetActive(old(View()), id, wanted)
    {
      if id !in categories {
        return NotFound;
      }
      categories := categories[id := categories[id].(isActive := wanted)];
      reply := Saved;
    }

    method CategoryDelete(id: int, confirmed: bool) returns (reply: Reply)
      modifies this
      ensures Step(reply, View()) == AfterCategoryDelete(old(View()), id, confirmed)
    {
      hide CategoryInUse;
      if id == 0 || id !in categories {
        return NotFound;
      }
      if !confirmed {
        return Unconfirmed;
      }
      var w := RemoveCategory(id);
      reply := if w.Failed? then Rejected(w.error) else Saved;
    }

    // ------------------------------------------------------- brand statements

    method InsertBrand(row: BrandRow) returns (w: Write)
      modifies this
      ensures var s := old(View()); var fault := BrandFault(s, s.nextBrand, row);
              var t := s.(nextBrand := s.nextBrand + 1);
              if fault.Some? then w == Failed(fault.value) && View() == t
              else w == Done(s.nextBrand) && View() == t.(brands := s.brands[s.nextBrand := row])
    {
      hide BrandChecks;
      var id := nextBrand;
      nextBrand := nextBrand + 1;
      if !BrandChecks(row) {
        return Failed(CheckFailed);
      }
      if !BrandSlugFree(brands, id, row.slug) {
        return Failed(Duplicate);
      }
      brands := brands[id := row];
      w := Done(id);
    }

    method UpdateBrand(id: int, row: BrandRow) returns (w: Write)
      modifies this
      ensures var s := old(View()); var fault := BrandFault(s, id, row);
              if id !in s.brands then w == NoRow && View() == s
              else if fault.Some? then w == Failed(fault.value) && View() == s
              else w == Done(id) && View() == s.(brands := s.brands[id := row])
    {
      hide BrandChecks;
      if id !in brands {
        return NoRow;
      }
      if !BrandChecks(row) {
        return Failed(CheckFailed);
      }
      if !BrandSlugFree(brands, id, row.slug) {
        return Failed(Duplicate);
      }
      brands := brands[id := row];
      w := Done(id);
    }

    // ------------------------------------------------------- the search index of a brand

    method NameOfBrand(brandId: Option<int>) returns (name: Option<string>)
      ensures name == BrandNameFor(brands, brandId)
    {
      if brandId.None? || brandId.value == 0 {
        return None;
      }
      name := if brandId.value in brands then Some(brands[brandId.value].name) else None;
    }

    /** SELECT ... FROM products WHERE brand_id = $1, in whatever order the rows come. */
    method SelectByBrand(brandId: int) returns (rows: seq<int>)
      ensures forall i, j :: 0 <= i < j < |rows| ==> rows[i] != rows[j]
      ensures forall p :: p in rows <==> p in products && products[p].brandId == Some(brandId)
      ensures forall i :: 0 <= i < |rows| ==> rows[i] in products
    {
      rows := [];
      var left: set<int> := products.Keys;
      while exists p :: p in left
        invariant left <= products.Keys
        invariant forall i :: 0 <= i < |rows| ==> rows[i] in products && rows[i] !in left
        invariant forall i, j :: 0 <= i < j < |rows| ==> rows[i] != rows[j]
        invariant forall p :: p in rows <==> p in products && p !in left && products[p].brandId == Some(brandId)
        decreases |left|
      {
        var p :| p in left;
        left := left - {p};
        if products[p].brandId == Some(brandId) {
          rows := rows + [p];
        }
      }
    }

    /** The statement joins products with the two parallel arrays, unnested together. */
    method WriteSearchTexts(ids: seq<int>, texts: seq<string>) returns (count: nat)
      requires |ids| == |texts|
      requires forall i, j :: 0 <= i < j < |ids| ==> ids[i] != ids[j]
      requires forall i :: 0 <= i < |ids| ==> ids[i] in products
      modifies this`products
      ensures count == |ids|
      ensures products.Keys == old(products).Keys
      ensures forall i :: 0 <= i < |ids| ==> products[ids[i]] == old(products)[ids[i]].(searchText := texts[i])
      ensures forall p :: p in products && p !in ids ==> products[p] == old(products)[p]
    {
      count := 0;
      while count < |ids|
        invariant 0 <= count <= |ids|
        invariant products.Keys == old(products).Keys
        invariant forall i :: 0 <= i < count ==> products[ids[i]] == old(products)[ids[i]].(searchText := texts[i])
        invariant forall i :: count <= i < |ids| ==> products[ids[i]] == old(products)[ids[i]]
        invariant forall p :: p in products && p !in ids ==> products[p] == old(products)[p]
      {
        var p := ids[count];
        products := products[p := products[p].(searchText := texts[count])];
        count := count + 1;
      }
    }

    /** refreshSearchTextForBrand */
    method RefreshSearchTextForBrand(cs: Casing, brandId: int) returns (count: nat)
      modifies this`products
      ensures View() == old(View()).(products :=
                if brandId == 0 then old(products)
                else Refreshed(cs, old(products), brandId, BrandNameFor(old(brands), Some(brandId))))
      ensures count == if brandId == 0 then 0 else |BrandRows(old(products), brandId)|
    {
      hide BuildSearchText;
      if brandId == 0 {
        return 0;
      }
      ghost var before := products;
      var name := NameOfBrand(Some(brandId));
      var rows := SelectByBrand(brandId);
      if rows == [] {
        assert forall p :: p in products ==> products[p].brandId != Some(brandId);
        assert Refreshed(cs, products, brandId, name) == products && BrandRows(products, brandId) == {};
        return 0;
      }
      var ids: seq<int>, texts: seq<string> := [], [];
      for i := 0 to |rows|
        invariant ids == rows[..i] && |texts| == i && products == before
        invariant forall j :: 0 <= j < i ==> texts[j] == BuildSearchText(cs, Indexable(products[rows[j]], name))
      {
        var row := products[rows[i]];
        ids := ids + [rows[i]];
        texts := texts + [BuildSearchText(cs, SearchParts(row.name, row.sku, row.oemNumber, name, row.shortDescription))];
      }
      assert ids == rows;
      count := WriteSearchTexts(ids, texts);
      DistinctCount(rows, BrandRows(before, brandId));
      forall p | p in before
        ensures products[p] == Refreshed(cs, before, brandId, name)[p]
      {
        if p in rows {
          var i :| 0 <= i < |rows| && rows[i] == p;
          assert products[ids[i]] == before[ids[i]].(searchText := texts[i]);
        }
      }
      assert products == Refreshed(cs, before, brandId, name);
    }

    // ------------------------------------------------------- brand handlers

    method BrandCreate(cs: Casing, b: BrandBody) returns (reply: Reply)
      modifies this
      ensures Step(reply, View()) == AfterBrandCreate(cs, old(View()), b)
    {
      hide BrandFault, BrandParsed, BrandVerdicts, NoteAll;
      var values, errors := ParseBrandForm(cs, b);
      if errors != map[] {
        return Invalid(errors);
      }
      var w := InsertBrand(values);
      reply := if w.Failed? then Rejected(w.error) else Saved;
    }

    method BrandUpdate(cs: Casing, id: int, b: BrandBody) returns (reply: Reply)
      modifies this
      ensures Step(reply, View()) == AfterBrandUpdate(cs, old(View()), id, b)
    {
      hide BrandFault, BrandParsed, BrandVerdicts, NoteAll, Differing, BrandRecord, Refreshed;
      if id == 0 || id !in brands {
        return NotFound;
      }
      var previous := brands[id];
      var values, errors := ParseBrandForm(cs, b);
      if errors != map[] {
        return Invalid(errors);
      }
      var changed := ChangedFields(Some(BrandRecord(previous)), BrandRecord(values), BRAND_FIELDS);
      NameChanged(previous, values);
      var w := UpdateBrand(id, values);
      if w.Failed? {
        return Rejected(w.error);
      }
      if ForName in changed {
        var count := RefreshSearchTextForBrand(cs, id);
      }
      reply := Saved;
    }

    method BrandSetActive(id: int, wanted: bool) returns (reply: Reply)
      modifies this
      ensures Step(reply, View()) == AfterBrandSetActive(old(View()), id, wanted)
    {
      if id !in brands {
        return NotFound;
      }
      brands := brands[id := brands[id].(isActive := wanted)];
      reply := Saved;
    }

    method BrandDelete(id: int, confirmed: bool) returns (reply: Reply)
      modifies this
      ensures Step(reply, View()) == AfterBrandDelete(old(View()), id, confirmed)
    {
      if id == 0 || id !in brands {
        return NotFound;
      }
      if !confirmed {
        return Unconfirmed;
      }
      if BrandInUse(View(), id) {
        return Rejected(FkRestrict);
      }
      brands := brands - {id};
      reply := Saved;
    }

    // ------------------------------------------------------- products

    /** writeValues */
    method WriteValues(cs: Casing, v: ProductValues) returns (row: ProductRow)
      ensures row == Written(cs, View(), v)
    {
      hide BuildSearchText, NormalizeOem;
      var brandName := NameOfBrand(v.brandId);
      row := ProductStored(v, NormalizeOem(cs, v.oemNumber),
                           BuildSearchText(cs, SearchParts(v.name, v.sku, v.oemNumber, brandName, v.shortDescription)));
    }

    method InsertProduct(cs: Casing, v: ProductValues) returns (w: Write)
      modifies this
      ensures var s := old(View()); var row := Written(cs, s, v); var fault := ProductFault(s, s.nextProduct, row);
              var t := s.(nextProduct := s.nextProduct + 1);
              if fault.Some? then w == Failed(fault.value) && View() == t
              else w == Done(s.nextProduct) && View() == t.(products := s.products[s.nextProduct := row])
    {
      hide ProductChecks, Written;
      var row := WriteValues(cs, v);
      var id := nextProduct;
      nextProduct := nextProduct + 1;
      if !ProductChecks(row) {
        return Failed(CheckFailed);
      }
      if !ProductKeysFree(products, id, row.slug, row.sku) {
        return Failed(Duplicate);
      }
      if row.categoryId !in categories || (row.brandId.Some? && row.brandId.value !in brands) {
        return Failed(FkMissing);
      }
      products := products[id := row];
      w := Done(id);
    }

    method UpdateProduct(cs: Casing, id: int, v: ProductValues) returns (w: Write)
      modifies this
      ensures var s := old(View()); var row := Written(cs, s, v); var fault := ProductFault(s, id, row);
              if id !in s.products then w == NoRow && View() == s
              else if fault.Some? then w == Failed(fault.value) && View() == s
              else w == Done(id) && View() == s.(products := s.products[id := row])
    {
      hide ProductChecks, Written;
      var row := WriteValues(cs, v);
      if id !in products {
        return NoRow;
      }
      if !ProductChecks(row) {
        return Failed(CheckFailed);
      }
      if !ProductKeysFree(products, id, row.slug, row.sku) {
        return Failed(Duplicate);
      }
      if row.categoryId !in categories || (row.brandId.Some? && row.brandId.value !in brands) {
        return Failed(FkMissing);
      }
      products := products[id := row];
      w := Done(id);
    }

    method ProductCreate(cs: Casing, b: ProductBody) returns (reply: Reply)
      modifies this
      ensures Step(reply, View()) == AfterProductCreate(cs, old(View()), b)
    {
      hide ProductFault, ProductParsed, ProductVerdicts, NoteAll, Written;
      var values, errors := ParseProductForm(cs, b);
      if errors != map[] {
        return Invalid(errors);
      }
      var w := InsertProduct(cs, values);
      reply := if w.Failed? then Rejected(w.error) else Saved;
    }

    method ProductUpdate(cs: Casing, id: int, b: ProductBody) returns (reply: Reply)
      modifies this
      ensures Step(reply, View()) == AfterProductUpdate(cs, old(View()), id, b)
    {
      hide ProductFault, ProductParsed, ProductVerdicts, NoteAll, Written;
      if !ProductFound(View(), id) {
        return NotFound;
      }
      var values, errors := ParseProductForm(cs, b);
      if errors != map[] {
        return Invalid(errors);
      }
      var w := UpdateProduct(cs, id, values);
      reply := if w.Failed? then Rejected(w.error) else Saved;
    }

    method ProductSetActive(id: int, wanted: bool) returns (reply: Reply)
      modifies this
      ensures Step(reply, View()) == AfterProductSetActive(old(View()), id, wanted)
    {
      if id !in products {
        return NotFound;
      }
      products := products[id := products[id].(isActive := wanted)];
      reply := Saved;
    }

    method ProductStock(id: int, stock: Raw, availability: Raw) returns (reply: Reply)
      modifies this
      ensures Step(reply, View()) == AfterProductStock(old(View()), id, stock, availability)
    {
      hide Integer, OneOf, ProductChecks;
      var qty, avail := StockCheck(stock), OneOf(availability, AVAILABILITY, false);
      if qty.error.Some? || avail.error.Some? {
        return BadStock;
      }
      if id !in products {
        return NotFound;
      }
      var row := Restocked(products[id], qty.value, avail.value);
      if !ProductChecks(row) {
        return Rejected(CheckFailed);
      }
      products := products[id := row];
      reply := Saved;
    }

    method ProductDelete(id: int, confirmed: bool) returns (reply: Reply)
      modifies this
      ensures Step(reply, View()) == AfterProductDelete(old(View()), id, confirmed)
    {
      if !ProductFound(View(), id) {
        return NotFound;
      }
      if !confirmed {
        return Unconfirmed;
      }
      products := products - {id};
      reply := Saved;
    }

    // ------------------------------------------------------- the panel

    method Handle(cs: Casing, r: Request) returns (reply: Reply)
      modifies this
      ensures Step(reply, View()) == Handled(cs, old(View()), r)
    {
      hide AfterCategoryCreate, AfterCategoryUpdate, AfterCategorySetActive, AfterCategoryDelete;
      hide AfterBrandCreate, AfterBrandUpdate, AfterBrandSetActive, AfterBrandDelete;
      hide AfterProductCreate, AfterProductUpdate, AfterProductSetActive, AfterProductStock, AfterProductDelete;
      match r
      case CategoryCreate(b) => reply := CategoryCreate(cs, b);
      case CategoryUpdate(id, b) => reply := CategoryUpdate(cs, id, b);
      case CategorySetActive(id, wanted) => reply := CategorySetActive(id, wanted);
      case CategoryDelete(id, confirmed) => reply := CategoryDelete(id, confirmed);
      case BrandCreate(b) => reply := BrandCreate(cs, b);
      case BrandUpdate(id, b) => reply := BrandUpdate(cs, id, b);
      case BrandSetActive(id, wanted) => reply := BrandSetActive(id, wanted);
      case BrandDelete(id, confirmed) => reply := BrandDelete(id, confirmed);
      case ProductCreate(b) => reply := ProductCreate(cs, b);
      case ProductUpdate(id, b) => reply := ProductUpdate(cs, id, b);
      case ProductSetActive(id, wanted) => reply := ProductSetActive(id, wanted);
      case ProductStock(id, stock, availability) => reply := ProductStock(id, stock, availability);
      case ProductDelete(id, confirmed) => reply := ProductDelete(id, confirmed);
    }

    /** Requests one after another. */
    method HandleAll(cs: Casing, run: seq<Request>)
      modifies this
      ensures View() == AfterRun(cs, old(View()), run)
    {
      hide Handled;
      for i := 0 to |run|
        invariant View() == AfterRun(cs, old(View()), run[..i])
      {
        var reply := Handle(cs, run[i]);
        assert run[..i + 1][..i] == run[..i];
      }
      assert run[..|run|] == run;
    }
  }

  ghost function BrandRows(t: map<int, ProductRow>, brandId: int): set<int> {
    set p | p in t && t[p].brandId == Some(brandId)
  }

  lemma {:induction false} DistinctCount(rows: seq<int>, keys: set<int>)
    requires forall i, j :: 0 <= i < j < |rows| ==> rows[i] != rows[j]
    requires forall p :: p in rows <==> p in keys
    ensures |rows| == |keys|
  {
    if rows == [] {
      forall p
        ensures p !in keys
      {
        assert p !in rows;
      }
      assert keys == {};
    } else {
      var last := rows[|rows| - 1];
      DistinctCount(rows[..|rows| - 1], keys - {last});
    }
  }

  /** The changed-field report names the name exactly when the name changed. */
  lemma NameChanged(previous: BrandRow, next: BrandRow)
    ensures ForName in Differing(BrandRecord(previous), BrandRecord(next), BRAND_FIELDS) <==> previous.name != next.name
  {
    DifferingMember(BrandRecord(previous), BrandRecord(next), BRAND_FIELDS, ForName);
  }
}
