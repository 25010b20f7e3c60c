/**
 The catalogue requests of the admin panel: what each one answers and what it
 leaves in the tables, and the handlers that do it statement by statement.
 */
module Catalogue {
  import opened Wrappers
  import opened JsText
  import opened Slug
  import opened Validate
  import opened Schema
  import opened CatalogForm
  import opened CategoryForest

  datatype Shop = Shop(
    categories: map<int, CategoryRow>, brands: map<int, BrandRow>, products: map<int, ProductRow>,
    nextCategory: int, nextBrand: int, nextProduct: int)

  const EMPTY_SHOP := Shop(map[], map[], map[], 1, 1, 1)

  /** The write errors the repositories recognise. */
  datatype WriteError = Duplicate | FkMissing | FkRestrict | CheckFailed

  datatype Reply = Saved | Invalid(errors: Errors) | NotFound | Unconfirmed | BadStock | Rejected(error: WriteError)

  datatype Request =
    | CategoryCreate(category: CategoryBody)
    | CategoryUpdate(id: int, category: CategoryBody)
    | CategorySetActive(id: int, wanted: bool)
    | CategoryDelete(id: int, confirmed: bool)
    | BrandCreate(brand: BrandBody)
    | BrandUpdate(id: int, brand: BrandBody)
    | BrandSetActive(id: int, wanted: bool)
    | BrandDelete(id: int, confirmed: bool)
    | ProductCreate(product: ProductBody)
    | ProductUpdate(id: int, product: ProductBody)
    | ProductSetActive(id: int, wanted: bool)
    | ProductStock(id: int, stock: Raw, availability: Raw)
    | ProductDelete(id: int, confirmed: bool)

  datatype Step = Step(reply: Reply, shop: Shop)

  // --------------------------------------------------------- constraints

  /** The order in which PostgreSQL meets them: CHECK, unique index, foreign key. */
  function Fault(checks: bool, unique: bool, linked: bool): Option<WriteError> {
    if !checks then Some(CheckFailed) else if !unique then Some(Duplicate) else if !linked then Some(FkMissing) else None
  }

  predicate CategorySlugFree(t: map<int, CategoryRow>, id: int, slug: string) {
    forall x :: x in t && x != id ==> t[x].slug != slug
  }

  predicate BrandSlugFree(t: map<int, BrandRow>, id: int, slug: string) {
    forall x :: x in t && x != id ==> t[x].slug != slug
  }

  predicate ProductKeysFree(t: map<int, ProductRow>, id: int, slug: string, sku: string) {
    forall x :: x in t && x != id ==> t[x].slug != slug && t[x].sku != sku
  }

  function CategoryFault(s: Shop, id: int, row: CategoryRow): Option<WriteError> {
    Fault(CategoryChecks(id, row), CategorySlugFree(s.categories, id, row.slug),
          row.parentId.Some? ==> row.parentId.value in s.categories)
  }

  function BrandFault(s: Shop, id: int, row: BrandRow): Option<WriteError> {
    Fault(BrandChecks(row), BrandSlugFree(s.brands, id, row.slug), true)
  }

  function ProductFault(s: Shop, id: int, row: ProductRow): Option<WriteError> {
    Fault(ProductChecks(row), ProductKeysFree(s.products, id, row.slug, row.sku),
          row.categoryId in s.categories && (row.brandId.Some? ==> row.brandId.value in s.brands))
  }

  predicate CategoryInUse(s: Shop, id: int) {
    || (exists x :: x in s.categories && s.categories[x].parentId == Some(id))
    || (exists p :: p in s.products && s.products[p].categoryId == id)
  }

  predicate BrandInUse(s: Shop, id: int) {
    exists p :: p in s.products && s.products[p].brandId == Some(id)
  }

  // --------------------------------------------------------- categories

  function CategoryErrors(cs: Casing, b: CategoryBody): Errors { NoteAll(CategoryVerdicts(cs, b)) }
  function BrandErrors(cs: Casing, b: BrandBody): Errors { NoteAll(BrandVerdicts(cs, b)) }
  function ProductErrors(cs: Casing, b: ProductBody): Errors { NoteAll(ProductVerdicts(cs, b)) }

  function AfterCategoryCreate(cs: Casing, s: Shop, b: CategoryBody): Step {
    if CategoryErrors(cs, b) != map[] then Step(Invalid(CategoryErrors(cs, b)), s)
    else
      var id, row := s.nextCategory, CategoryParsed(cs, b);
      var t := s.(nextCategory := id + 1);
      var fault := CategoryFault(s, id, row);
      if fault.Some? then Step(Rejected(fault.value), t) else Step(Saved, t.(categories := s.categories[id := row]))
  }

  /** The parent test of the update form; it overrides an earlier parent problem. */
  function ParentTest(t: map<int, CategoryRow>, id: int, parentId: Option<int>, errors: Errors): Errors {
    if parentId.None? || parentId.value == 0 then errors
    else if parentId.value == id then errors[ForParent := OwnParent]
    else if WouldCreateCycle(t, id, parentId.value) then errors[ForParent := Cycle]
    else errors
  }

  function AfterCategoryUpdate(cs: Casing, s: Shop, id: int, b: CategoryBody): Step {
    if id == 0 || id !in s.categories then Step(NotFound, s)
    else
      var row := CategoryParsed(cs, b);
      var errors := ParentTest(s.categories, id, row.parentId, CategoryErrors(cs, b));
      var fault := CategoryFault(s, id, row);
      if errors != map[] then Step(Invalid(errors), s)
      else if fault.Some? then Step(Rejected(fault.value), s)
      else Step(Saved, s.(categories := s.categories[id := row]))
  }

  function AfterCategorySetActive(s: Shop, id: int, wanted: bool): Step {
    if id !in s.categories then Step(NotFound, s)
    else Step(Saved, s.(categories := s.categories[id := s.categories[id].(isActive := wanted)]))
  }

  function AfterCategoryDelete(s: Shop, id: int, confirmed: bool): Step {
    if id == 0 || id !in s.categories then Step(NotFound, s)
    else if !confirmed then Step(Unconfirmed, s)
    else if CategoryInUse(s, id) then Step(Rejected(FkRestrict), s)
    else Step(Saved, s.(categories := s.categories - {id}))
  }

  // --------------------------------------------------------- brands

  function AfterBrandCreate(cs: Casing, s: Shop, b: BrandBody): Step {
    if BrandErrors(cs, b) != map[] then Step(Invalid(BrandErrors(cs, b)), s)
    else
      var id, row := s.nextBrand, BrandParsed(cs, b);
      var t := s.(nextBrand := id + 1);
      var fault := BrandFault(s, id, row);
      if fault.Some? then Step(Rejected(fault.value), t) else Step(Saved, t.(brands := s.brands[id := row]))
  }

  const BRAND_FIELDS: seq<Field> := [ForName, ForSlug, ForCountry, ForActive]

  function BrandCell(r: BrandRow, f: Field): Cell {
    match f
    case ForName => Text(r.name)
    case ForSlug => Text(r.slug)
    case ForCountry => MaybeText(r.country)
    case ForActive => Flag(r.isActive)
    case _ => Null
  }

  function BrandRecord(r: BrandRow): Record {
    Record(BRAND_FIELDS, f => BrandCell(r, f))
  }

  function Indexable(r: ProductRow, brandName: Option<string>): SearchParts {
    SearchParts(r.name, r.sku, r.oemNumber, brandName, r.shortDescription)
  }

  /** The rows of one brand get their search text rebuilt, nothing else. */
  function Refreshed(cs: Casing, t: map<int, ProductRow>, brandId: int, brandName: Option<string>): map<int, ProductRow> {
    map p | p in t ::
      if t[p].brandId == Some(brandId) then t[p].(searchText := BuildSearchText(cs, Indexable(t[p], brandName))) else t[p]
  }

  function AfterBrandUpdate(cs: Casing, s: Shop, id: int, b: BrandBody): Step {
    if id == 0 || id !in s.brands then Step(NotFound, s)
    else if BrandErrors(cs, b) != map[] then Step(Invalid(BrandErrors(cs, b)), s)
    else
      var row := BrandParsed(cs, b);
      var fault := BrandFault(s, id, row);
      if fault.Some? then Step(Rejected(fault.value), s)
      else
        var t := s.(brands := s.brands[id := row]);
        if s.brands[id].name == row.name then Step(Saved, t)
        else Step(Saved, t.(products := Refreshed(cs, s.products, id, Some(row.name))))
  }

  function AfterBrandSetActive(s: Shop, id: int, wanted: bool): Step {
    if id !in s.brands then Step(NotFound, s)
    else Step(Saved, s.(brands := s.brands[id := s.brands[id].(isActive := wanted)]))
  }

  function AfterBrandDelete(s: Shop, id: int, confirmed: bool): Step {
    if id == 0 || id !in s.brands then Step(NotFound, s)
    else if !confirmed then Step(Unconfirmed, s)
    else if BrandInUse(s, id) then Step(Rejected(FkRestrict), s)
    else Step(Saved, s.(brands := s.brands - {id}))
  }

  // --------------------------------------------------------- products

  function BrandNameFor(t: map<int, BrandRow>, brandId: Option<int>): Option<string> {
    if brandId.None? || brandId.value == 0 || brandId.value !in t then None else Some(t[brandId.value].name)
  }

  /** The row that writeValues lays out. */
  function Written(cs: Casing, s: Shop, v: ProductValues): ProductRow {
    ProductStored(v, NormalizeOem(cs, v.oemNumber),
                  BuildSearchText(cs, SearchParts(v.name, v.sku, v.oemNumber,
                                                  BrandNameFor(s.brands, v.brandId), v.shortDescription)))
  }

  /** findById joins the category, so a product without one is not found. */
  predicate ProductFound(s: Shop, id: int) {
    id != 0 && id in s.products && s.products[id].categoryId in s.categories
  }

  function AfterProductCreate(cs: Casing, s: Shop, b: ProductBody): Step {
    if ProductErrors(cs, b) != map[] then Step(Invalid(ProductErrors(cs, b)), s)
    else
      var id, row := s.nextProduct, Written(cs, s, ProductParsed(cs, b));
      var t := s.(nextProduct := id + 1);
      var fault := ProductFault(s, id, row);
      if fault.Some? then Step(Rejected(fault.value), t) else Step(Saved, t.(products := s.products[id := row]))
  }

  function AfterProductUpdate(cs: Casing, s: Shop, id: int, b: ProductBody): Step {
    if !ProductFound(s, id) then Step(NotFound, s)
    else if ProductErrors(cs, b) != map[] then Step(Invalid(ProductErrors(cs, b)), s)
    else
      var row := Written(cs, s, ProductParsed(cs, b));
      var fault := ProductFault(s, id, row);
      if fault.Some? then Step(Rejected(fault.value), s) else Step(Saved, s.(products := s.products[id := row]))
  }

  function AfterProductSetActive(s: Shop, id: int, wanted: bool): Step {
    if id !in s.products then Step(NotFound, s)
    else Step(Saved, s.(products := s.products[id := s.products[id].(isActive := wanted)]))
  }

  /** COALESCE($3, availability) keeps the old availability when none is sent. */
  function Restocked(r: ProductRow, qty: Option<int>, availability: Option<string>): ProductRow {
    r.(stock := if qty.Some? then qty.value else 0,
       availability := if availability.Some? then availability.value else r.availability)
  }

  function AfterProductStock(s: Shop, id: int, stock: Raw, availability: Raw): Step {
    var qty, avail := StockCheck(stock), OneOf(availability, AVAILABILITY, false);
    if qty.error.Some? || avail.error.Some? then Step(BadStock, s)
    else if id !in s.products then Step(NotFound, s)
    else
      var row := Restocked(s.products[id], qty.value, avail.value);
      if !ProductChecks(row) then Step(Rejected(CheckFailed), s) else Step(Saved, s.(products := s.products[id := row]))
  }

  function AfterProductDelete(s: Shop, id: int, confirmed: bool): Step {
    if !ProductFound(s, id) then Step(NotFound, s)
    else if !confirmed then Step(Unconfirmed, s)
    else Step(Saved, s.(products := s.products - {id}))
  }

  // --------------------------------------------------------- requests and runs

  function Handled(cs: Casing, s: Shop, r: Request): Step {
    match r
    case CategoryCreate(b) => AfterCategoryCreate(cs, s, b)
    case CategoryUpdate(id, b) => AfterCategoryUpdate(cs, s, id, b)
    case CategorySetActive(id, wanted) => AfterCategorySetActive(s, id, wanted)
    case CategoryDelete(id, confirmed) => AfterCategoryDelete(s, id, confirmed)
    case BrandCreate(b) => AfterBrandCreate(cs, s, b)
    case BrandUpdate(id, b) => AfterBrandUpdate(cs, s, id, b)
    case BrandSetActive(id, wanted) => AfterBrandSetActive(s, id, wanted)
    case BrandDelete(id, confirmed) => AfterBrandDelete(s, id, confirmed)
    case ProductCreate(b) => AfterProductCreate(cs, s, b)
    case ProductUpdate(id, b) => AfterProductUpdate(cs, s, id, b)
    case ProductSetActive(id, wanted) => AfterProductSetActive(s, id, wanted)
    case ProductStock(id, stock, availability) => AfterProductStock(s, id, stock, availability)
    case ProductDelete(id, confirmed) => AfterProductDelete(s, id, confirmed)
  }

  function AfterRun(cs: Casing, s: Shop, run: seq<Request>): Shop {
    if run == [] then s else Handled(cs, AfterRun(cs, s, run[..|run| - 1]), run[|run| - 1]).shop
  }

  lemma RunAppend(cs: Casing, s: Shop, run: seq<Request>, r: Request)
    ensures AfterRun(cs, s, run + [r]) == Handled(cs, AfterRun(cs, s, run), r).shop
  {
    hide Handled;
    assert (run + [r])[..|run|] == run;
  }
}
