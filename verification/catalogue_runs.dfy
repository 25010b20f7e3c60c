/**
 What every run of catalogue requests keeps: the constraints of the tables, the
 search index, and the category forest.
 */
module CatalogueRuns {
  import opened Wrappers
  import opened JsText
  import opened Slug
  import opened Validate
  import opened Schema
  import opened CatalogForm
  import opened CategoryForest
  import opened Catalogue

  // --------------------------------------------------------- what the tables keep

  /** Keys come from the identity counters. */
  ghost predicate Numbered(s: Shop) {
    && (forall x :: x in s.categories ==> 1 <= x < s.nextCategory)
    && (forall x :: x in s.brands ==> 1 <= x < s.nextBrand)
    && (forall x :: x in s.products ==> 1 <= x < s.nextProduct)
    && s.nextCategory >= 1 && s.nextBrand >= 1 && s.nextProduct >= 1
  }

  ghost predicate CategoriesHold(s: Shop) {
    forall x :: x in s.categories ==> CategoryFault(s, x, s.categories[x]) == None
  }

  ghost predicate BrandsHold(s: Shop) {
    forall x :: x in s.brands ==> BrandFault(s, x, s.brands[x]) == None
  }

  ghost predicate ProductsHold(s: Shop) {
    forall x :: x in s.products ==> ProductFault(s, x, s.products[x]) == None
  }

  ghost predicate IndexedRow(cs: Casing, s: Shop, r: ProductRow) {
    && r.searchText == BuildSearchText(cs, Indexable(r, BrandNameFor(s.brands, r.brandId)))
    && r.oemNormalized == NormalizeOem(cs, r.oemNumber)
  }

  /** The two cached columns are what a rebuild from the current tables would give. */
  ghost predicate Indexed(cs: Casing, s: Shop) {
    forall x :: x in s.products ==> IndexedRow(cs, s, s.products[x])
  }

  /** Every CHECK, unique index and foreign key holds, and the search index is fresh. */
  ghost predicate Sound(cs: Casing, s: Shop) {
    Numbered(s) && CategoriesHold(s) && BrandsHold(s) && ProductsHold(s) && Indexed(cs, s)
  }

  // --------------------------------------------------------- one table write

  lemma PutCategory(cs: Casing, s: Shop, id: int, row: CategoryRow, t: Shop)
    requires Sound(cs, s) && CategoryFault(s, id, row) == None
    requires t == s.(categories := s.categories[id := row], nextCategory := t.nextCategory)
    requires t.nextCategory >= s.nextCategory && 1 <= id < t.nextCategory
    ensures Sound(cs, t)
  {
    hide CategoryChecks, ProductChecks, BrandChecks, BuildSearchText, NormalizeOem;
  }

  lemma DropCategory(cs: Casing, s: Shop, id: int)
    requires Sound(cs, s) && !CategoryInUse(s, id)
    ensures Sound(cs, s.(categories := s.categories - {id}))
  {
    hide CategoryChecks, ProductChecks, BrandChecks, BuildSearchText, NormalizeOem;
  }

  lemma PutBrand(cs: Casing, s: Shop, id: int, row: BrandRow, t: Shop)
    requires Sound(cs, s) && BrandFault(s, id, row) == None
    requires id in s.brands ==> s.brands[id].name == row.name
    requires t == s.(brands := s.brands[id := row], nextBrand := t.nextBrand)
    requires t.nextBrand >= s.nextBrand && 1 <= id < t.nextBrand
    ensures Sound(cs, t)
  {
    hide CategoryChecks, ProductChecks, BrandChecks, BuildSearchText, NormalizeOem;
  }

  lemma TextIsUnchecked(r: ProductRow, text: string)
    ensures ProductChecks(r.(searchText := text)) <==> ProductChecks(r)
  {
  }

  lemma RenamedProductHolds(cs: Casing, s: Shop, id: int, row: BrandRow, t: Shop, p: int)
    requires Sound(cs, s) && id in s.brands && id != 0 && p in s.products
    requires t == s.(brands := s.brands[id := row], products := Refreshed(cs, s.products, id, Some(row.name)))
    ensures ProductFault(t, p, t.products[p]) == None && IndexedRow(cs, t, t.products[p])
  {
    hide CategoryChecks, BrandChecks, ProductChecks, BuildSearchText, NormalizeOem, CategoriesHold, BrandsHold;
    assert ProductFault(s, p, s.products[p]) == None && IndexedRow(cs, s, s.products[p]);
    TextIsUnchecked(s.products[p], t.products[p].searchText);
  }

  /** Renaming a brand and refreshing its products. */
  lemma RenameBrand(cs: Casing, s: Shop, id: int, row: BrandRow)
    requires Sound(cs, s) && BrandFault(s, id, row) == None && id in s.brands
    ensures Sound(cs, s.(brands := s.brands[id := row], products := Refreshed(cs, s.products, id, Some(row.name))))
  {
    hide CategoryChecks, BrandChecks, ProductFault, IndexedRow;
    var t := s.(brands := s.brands[id := row], products := Refreshed(cs, s.products, id, Some(row.name)));
    forall p | p in s.products
      ensures ProductFault(t, p, t.products[p]) == None && IndexedRow(cs, t, t.products[p])
    {
      RenamedProductHolds(cs, s, id, row, t, p);
    }
  }

  lemma DropBrand(cs: Casing, s: Shop, id: int)
    requires Sound(cs, s) && !BrandInUse(s, id)
    ensures Sound(cs, s.(brands := s.brands - {id}))
  {
    hide CategoryChecks, ProductChecks, BrandChecks, BuildSearchText, NormalizeOem;
  }

  lemma PutProduct(cs: Casing, s: Shop, id: int, row: ProductRow, t: Shop)
    requires Sound(cs, s) && ProductFault(s, id, row) == None && IndexedRow(cs, s, row)
    requires t == s.(products := s.products[id := row], nextProduct := t.nextProduct)
    requires t.nextProduct >= s.nextProduct && 1 <= id < t.nextProduct
    ensures Sound(cs, t)
  {
    hide CategoryChecks, ProductChecks, BrandChecks, BuildSearchText, NormalizeOem;
  }

  lemma DropProduct(cs: Casing, s: Shop, id: int)
    requires Sound(cs, s)
    ensures Sound(cs, s.(products := s.products - {id}))
  {
    hide CategoryChecks, ProductChecks, BrandChecks, BuildSearchText, NormalizeOem;
  }

  /** Counters may skip values. */
  lemma SkipNumbers(cs: Casing, s: Shop, t: Shop)
    requires Sound(cs, s) && t == s.(nextCategory := t.nextCategory, nextBrand := t.nextBrand, nextProduct := t.nextProduct)
    requires t.nextCategory >= s.nextCategory && t.nextBrand >= s.nextBrand && t.nextProduct >= s.nextProduct
    ensures Sound(cs, t)
  {
    hide CategoryChecks, ProductChecks, BrandChecks, BuildSearchText, NormalizeOem;
  }

  // --------------------------------------------------------- one request

  lemma CategoryRequestKeeps(cs: Casing, s: Shop, r: Request)
    requires Sound(cs, s) && (r.CategoryCreate? || r.CategoryUpdate? || r.CategorySetActive? || r.CategoryDelete?)
    ensures Sound(cs, Handled(cs, s, r).shop)
  {
    hide Sound, CategoryParsed, CategoryErrors, WouldCreateCycle, CategoryInUse, NotBlank;
    var t := Handled(cs, s, r).shop;
    assert Numbered(s) && CategoriesHold(s) by { Held(cs, s); }
    match r
    case CategoryCreate(b) =>
      if t.categories == s.categories {
        SkipNumbers(cs, s, t);
      } else {
        PutCategory(cs, s, s.nextCategory, CategoryParsed(cs, b), t);
      }
    case CategoryUpdate(id, b) =>
      if t != s {
        PutCategory(cs, s, id, CategoryParsed(cs, b), t);
      }
    case CategorySetActive(id, wanted) =>
      if t != s {
        PutCategory(cs, s, id, s.categories[id].(isActive := wanted), t);
      }
    case CategoryDelete(id, confirmed) =>
      if t != s {
        DropCategory(cs, s, id);
      }
  }

  lemma Held(cs: Casing, s: Shop)
    requires Sound(cs, s)
    ensures Numbered(s) && CategoriesHold(s) && BrandsHold(s) && ProductsHold(s) && Indexed(cs, s)
  {
  }

  lemma BrandRequestKeeps(cs: Casing, s: Shop, r: Request)
    requires Sound(cs, s) && (r.BrandCreate? || r.BrandUpdate? || r.BrandSetActive? || r.BrandDelete?)
    ensures Sound(cs, Handled(cs, s, r).shop)
  {
    hide Sound, BrandParsed, BrandErrors, BrandInUse, NotBlank, BuildSearchText;
    var t := Handled(cs, s, r).shop;
    assert Numbered(s) && BrandsHold(s) by { Held(cs, s); }
    match r
    case BrandCreate(b) =>
      if t.brands == s.brands {
        SkipNumbers(cs, s, t);
      } else {
        PutBrand(cs, s, s.nextBrand, BrandParsed(cs, b), t);
      }
    case BrandUpdate(id, b) =>
      if t != s {
        if s.brands[id].name == BrandParsed(cs, b).name {
          PutBrand(cs, s, id, BrandParsed(cs, b), t);
        } else {
          RenameBrand(cs, s, id, BrandParsed(cs, b));
        }
      }
    case BrandSetActive(id, wanted) =>
      if t != s {
        PutBrand(cs, s, id, s.brands[id].(isActive := wanted), t);
      }
    case BrandDelete(id, confirmed) =>
      if t != s {
        DropBrand(cs, s, id);
      }
  }

  /** writeValues fills both cached columns of the row it lays out. */
  lemma WrittenIsIndexed(cs: Casing, s: Shop, v: ProductValues)
    ensures IndexedRow(cs, s, Written(cs, s, v))
  {
    hide BuildSearchText, NormalizeOem;
  }

  lemma ProductWriteKeeps(cs: Casing, s: Shop, r: Request)
    requires Sound(cs, s) && (r.ProductCreate? || r.ProductUpdate?)
    ensures Sound(cs, Handled(cs, s, r).shop)
  {
    hide Sound, ProductParsed, ProductErrors, ProductFault, IndexedRow, Written;
    var t := Handled(cs, s, r).shop;
    assert Numbered(s) by { Held(cs, s); }
    WrittenIsIndexed(cs, s, ProductParsed(cs, r.product));
    match r
    case ProductCreate(b) =>
      if t.products == s.products {
        SkipNumbers(cs, s, t);
      } else {
        PutProduct(cs, s, s.nextProduct, Written(cs, s, ProductParsed(cs, b)), t);
      }
    case ProductUpdate(id, b) =>
      if t != s {
        PutProduct(cs, s, id, Written(cs, s, ProductParsed(cs, b)), t);
      }
  }

  lemma ProductTouchKeeps(cs: Casing, s: Shop, r: Request)
    requires Sound(cs, s) && (r.ProductSetActive? || r.ProductStock? || r.ProductDelete?)
    ensures Sound(cs, Handled(cs, s, r).shop)
  {
    hide Sound, NotBlank, BuildSearchText, NormalizeOem, StockCheck, OneOf;
    var t := Handled(cs, s, r).shop;
    assert Numbered(s) && ProductsHold(s) && Indexed(cs, s) by { Held(cs, s); }
    match r
    case ProductSetActive(id, wanted) =>
      if t != s {
        PutProduct(cs, s, id, s.products[id].(isActive := wanted), t);
      }
    case ProductStock(id, stock, availability) =>
      if t != s {
        PutProduct(cs, s, id, t.products[id], t);
      }
    case ProductDelete(id, confirmed) =>
      if t != s {
        DropProduct(cs, s, id);
      }
  }

  lemma RequestKeepsSound(cs: Casing, s: Shop, r: Request)
    requires Sound(cs, s)
    ensures Sound(cs, Handled(cs, s, r).shop)
  {
    hide Sound, Handled;
    if r.CategoryCreate? || r.CategoryUpdate? || r.CategorySetActive? || r.CategoryDelete? {
      CategoryRequestKeeps(cs, s, r);
    } else if r.BrandCreate? || r.BrandUpdate? || r.BrandSetActive? || r.BrandDelete? {
      BrandRequestKeeps(cs, s, r);
    } else if r.ProductCreate? || r.ProductUpdate? {
      ProductWriteKeeps(cs, s, r);
    } else {
      ProductTouchKeeps(cs, s, r);
    }
  }

  /**
   After every request of every run from an empty shop, all constraints hold and
   each product is indexed under its own columns and its brand's current name.
   */
  lemma {:induction false} SoundRun(cs: Casing, run: seq<Request>)
    ensures Sound(cs, AfterRun(cs, EMPTY_SHOP, run))
  {
    hide Handled;
    if run != [] {
      SoundRun(cs, run[..|run| - 1]);
      RequestKeepsSound(cs, AfterRun(cs, EMPTY_SHOP, run[..|run| - 1]), run[|run| - 1]);
    }
  }

  // --------------------------------------------------------- what a request can do

  /** A request that is not saved leaves the three tables alone. */
  lemma UnsavedChangesNothing(cs: Casing, s: Shop, r: Request)
    ensures var step := Handled(cs, s, r);
            step.reply != Saved ==> step.shop == s.(nextCategory := step.shop.nextCategory,
                                                    nextBrand := step.shop.nextBrand, nextProduct := step.shop.nextProduct)
  {
    hide CategoryErrors, CategoryFault, WouldCreateCycle, CategoryInUse, CategoryParsed;
    hide BrandErrors, BrandFault, BrandInUse, BrandParsed, ProductErrors, ProductFault, ProductParsed, Written, StockCheck, OneOf;
  }

  /**
   A quick stock edit is saved exactly when both fields are accepted and the product
   exists. Then the sent quantity is set, the availability is the sent one or stays,
   and nothing else of the shop changes.
   */
  lemma StockEditExactly(cs: Casing, s: Shop, id: int, stock: Raw, availability: Raw)
    requires Sound(cs, s)
    ensures var step := Handled(cs, s, ProductStock(id, stock, availability));
            && (step.reply == Saved <==>
                  StockCheck(stock).error.None? && OneOf(availability, AVAILABILITY, false).error.None? && id in s.products)
            && (step.reply == Saved ==>
                  && step.shop == s.(products := step.shop.products) && step.shop.products.Keys == s.products.Keys
                  && (forall p :: p in s.products && p != id ==> step.shop.products[p] == s.products[p])
                  && var before, after := s.products[id], step.shop.products[id];
                     && after == before.(stock := after.stock, availability := after.availability)
                     && StockCheck(stock).value == Some(after.stock) && 0 <= after.stock <= STOCK_MAX
                     && after.availability == if CleanText(availability) == "" then before.availability else CleanText(availability))
  {
    hide Integer, NotBlank, Sound, ProductChecks, CleanText;
    IntegerInRange(stock, true, 0, STOCK_MAX);
    if id in s.products && StockCheck(stock).error.None? && OneOf(availability, AVAILABILITY, false).error.None? {
      RestockPasses(cs, s, id, stock, availability);
    }
  }

  /** A saved brand edit rebuilds the search text of that brand's products and touches no other product. */
  lemma BrandUpdateTouches(cs: Casing, s: Shop, id: int, b: BrandBody)
    requires Sound(cs, s) && Handled(cs, s, BrandUpdate(id, b)).reply == Saved
    ensures var t := Handled(cs, s, BrandUpdate(id, b)).shop;
            && t == s.(brands := s.brands[id := BrandParsed(cs, b)], products := t.products)
            && t.products.Keys == s.products.Keys
            && (forall p :: p in s.products && s.products[p].brandId != Some(id) ==> t.products[p] == s.products[p])
            && (forall p :: p in s.products && s.products[p].brandId == Some(id) ==>
                  t.products[p] == s.products[p].(searchText :=
                    BuildSearchText(cs, Indexable(s.products[p], Some(BrandParsed(cs, b).name)))))
  {
    hide BrandErrors, BrandFault, BrandParsed, BuildSearchText, NormalizeOem, CategoriesHold, BrandsHold, ProductFault;
  }

  lemma ParentIdIsPositive(cs: Casing, b: CategoryBody)
    requires CategoryErrors(cs, b) == map[]
    ensures var p := CategoryParsed(cs, b).parentId; p.Some? ==> p.value >= 1
  {
    hide NoteAll, Integer, RequiredText, SlugField, OptionalText, Checkbox;
    var v := CategoryVerdicts(cs, b);
    NoErrorsMeansAllPass(v);
    assert v[2].1.None?;
    IntegerInRange(b.parentId, false, 1, Format.MAX_SAFE_INTEGER);
  }

  lemma CategoryCheckFailed(cs: Casing, s: Shop, r: Request)
    requires cs.Lawful() && (r.CategoryCreate? || r.CategoryUpdate? || r.CategorySetActive? || r.CategoryDelete?)
    ensures Handled(cs, s, r).reply == Rejected(CheckFailed)
            <==> r.CategoryCreate? && CategoryErrors(cs, r.category) == map[]
                 && CategoryParsed(cs, r.category).parentId == Some(s.nextCategory)
  {
    hide CategoryParsed, NoteAll, CategoryVerdicts, CategoryChecks, WouldCreateCycle, CategorySlugFree, CategoryInUse;
    hide Casing.Lawful;
    match r
    case CategoryCreate(b) =>
      if CategoryErrors(cs, b) == map[] {
        AcceptedCategoryMeetsChecks(cs, b, s.nextCategory);
      }
    case CategoryUpdate(id, b) =>
      if CategoryErrors(cs, b) == map[] {
        var parentId := CategoryParsed(cs, b).parentId;
        ParentIdIsPositive(cs, b);
        AcceptedCategoryMeetsChecks(cs, b, id);
        assert parentId == Some(id) ==> ForParent in ParentTest(s.categories, id, parentId, map[]);
      }
    case _ =>
  }

  lemma BrandCheckPasses(cs: Casing, s: Shop, r: Request)
    requires r.BrandCreate? || r.BrandUpdate? || r.BrandSetActive? || r.BrandDelete?
    ensures Handled(cs, s, r).reply != Rejected(CheckFailed)
  {
    hide BrandParsed, NoteAll, BrandVerdicts, BrandChecks, BrandSlugFree, BrandInUse, Refreshed;
    match r
    case BrandCreate(b) =>
      if BrandErrors(cs, b) == map[] {
        AcceptedBrandMeetsChecks(cs, b);
      }
    case BrandUpdate(id, b) =>
      if BrandErrors(cs, b) == map[] {
        AcceptedBrandMeetsChecks(cs, b);
      }
    case _ =>
  }

  lemma ProductCheckPasses(cs: Casing, s: Shop, r: Request)
    requires Sound(cs, s)
    requires r.ProductCreate? || r.ProductUpdate? || r.ProductSetActive? || r.ProductStock? || r.ProductDelete?
    ensures Handled(cs, s, r).reply != Rejected(CheckFailed)
  {
    hide ProductParsed, ProductErrors, ProductChecks, ProductKeysFree, Sound, StockCheck, OneOf, Written, Restocked;
    match r
    case ProductCreate(b) =>
      AcceptedWritten(cs, s, b);
    case ProductUpdate(id, b) =>
      AcceptedWritten(cs, s, b);
    case ProductStock(id, stock, availability) =>
      if id in s.products && StockCheck(stock).error.None? && OneOf(availability, AVAILABILITY, false).error.None? {
        RestockPasses(cs, s, id, stock, availability);
      }
    case _ =>
  }

  /**
   The database answers check_failed in one case only: an accepted new category
   that names, as its parent, the identity value it is about to receive.
   */
  lemma CheckFailedExactly(cs: Casing, s: Shop, r: Request)
    requires cs.Lawful() && Sound(cs, s)
    ensures Handled(cs, s, r).reply == Rejected(CheckFailed)
            <==> r.CategoryCreate? && CategoryErrors(cs, r.category) == map[]
                 && CategoryParsed(cs, r.category).parentId == Some(s.nextCategory)
  {
    hide CategoryParsed, CategoryErrors, Sound, Handled, Casing.Lawful;
    if r.CategoryCreate? || r.CategoryUpdate? || r.CategorySetActive? || r.CategoryDelete? {
      CategoryCheckFailed(cs, s, r);
    } else if r.BrandCreate? || r.BrandUpdate? || r.BrandSetActive? || r.BrandDelete? {
      BrandCheckPasses(cs, s, r);
    } else {
      ProductCheckPasses(cs, s, r);
    }
  }

  lemma AcceptedWritten(cs: Casing, s: Shop, b: ProductBody)
    ensures ProductErrors(cs, b) == map[] ==> ProductChecks(Written(cs, s, ProductParsed(cs, b)))
  {
    hide ProductParsed, NoteAll, ProductVerdicts, ProductChecks, BuildSearchText, NormalizeOem;
    if ProductErrors(cs, b) == map[] {
      var row := Written(cs, s, ProductParsed(cs, b));
      AcceptedProductMeetsChecks(cs, b, row.oemNormalized, row.searchText);
    }
  }

  /** A quick stock edit cannot trip a CHECK either. */
  lemma RestockPasses(cs: Casing, s: Shop, id: int, stock: Raw, availability: Raw)
    requires Sound(cs, s) && id in s.products
    requires StockCheck(stock).error.None? && OneOf(availability, AVAILABILITY, false).error.None?
    ensures ProductChecks(Restocked(s.products[id], StockCheck(stock).value, OneOf(availability, AVAILABILITY, false).value))
  {
    hide Integer, NotBlank, Sound, CategoryFault, BrandFault, BuildSearchText;
    assert ProductFault(s, id, s.products[id]) == None by { Held(cs, s); }
    IntegerInRange(stock, true, 0, STOCK_MAX);
  }
}
