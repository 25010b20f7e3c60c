/**
 From the submitted form to the row, and back: parsing, the changed-field
 report, and what an edit form sends when nothing was edited.
 */
module CatalogForm {
  import opened Wrappers
  import opened JsText
  import opened Format
  import opened Slug
  import opened Validate
  import opened Schema
  import Specs

  datatype Field =
    | ForName | ForSlug | ForSku | ForOem | ForCategory | ForBrand | ForPrice | ForSale | ForStock
    | ForAvailability | ForShort | ForDescription | ForNote | ForSpecs | ForWeight
    | ForFeatured | ForNew | ForActive | ForParent | ForSortOrder | ForCountry

  type Errors = map<Field, Problem>
  type Verdict = (Field, Option<Problem>)

  // --------------------------------------------------------- error collector

  /** The first problem of a field stays. */
  function Note(errors: Errors, v: Verdict): Errors {
    if v.1.Some? && v.0 !in errors then errors[v.0 := v.1.value] else errors
  }

  function NoteAll(verdicts: seq<Verdict>): Errors {
    if verdicts == [] then map[]
    else Note(NoteAll(verdicts[..|verdicts| - 1]), verdicts[|verdicts| - 1])
  }

  predicate AllPass(verdicts: seq<Verdict>) {
    forall i :: 0 <= i < |verdicts| ==> verdicts[i].1.None?
  }

  /** A field is reported with its first problem, and only if it has one. */
  lemma {:induction false} NoteAllFirst(verdicts: seq<Verdict>, f: Field)
    ensures f in NoteAll(verdicts) <==> exists i :: 0 <= i < |verdicts| && verdicts[i].0 == f && verdicts[i].1.Some?
    ensures f in NoteAll(verdicts) ==>
              exists i :: 0 <= i < |verdicts| && verdicts[i] == (f, Some(NoteAll(verdicts)[f]))
                       && forall j :: 0 <= j < i && verdicts[j].0 == f ==> verdicts[j].1.None?
  {
    if verdicts != [] {
      var n := |verdicts| - 1;
      var init := verdicts[..n];
      NoteAllFirst(init, f);
      assert forall i :: 0 <= i < n ==> init[i] == verdicts[i];
      if f in NoteAll(init) {
        var i :| 0 <= i < n && init[i] == (f, Some(NoteAll(init)[f]))
          && forall j :: 0 <= j < i && init[j].0 == f ==> init[j].1.None?;
        assert verdicts[i] == (f, Some(NoteAll(verdicts)[f]));
      } else if f in NoteAll(verdicts) {
        assert verdicts[n] == (f, Some(NoteAll(verdicts)[f]));
      }
    }
  }

  lemma NoErrorsMeansAllPass(verdicts: seq<Verdict>)
    ensures NoteAll(verdicts) == map[] <==> AllPass(verdicts)
  {
    if NoteAll(verdicts) == map[] {
      forall i | 0 <= i < |verdicts|
        ensures verdicts[i].1.None?
      {
        NoteAllFirst(verdicts, verdicts[i].0);
      }
    } else {
      var f :| f in NoteAll(verdicts);
      NoteAllFirst(verdicts, f);
    }
  }

  class FieldErrors {
    var errors: Errors
    ghost var verdicts: seq<Verdict>

    ghost predicate Valid()
      reads this
    {
      errors == NoteAll(verdicts)
    }

    constructor ()
      ensures Valid() && verdicts == []
    {
      errors, verdicts := map[], [];
    }

    /** Keeps the value of a check and files its problem. */
    method Take<T>(field: Field, result: Checked<T>) returns (value: T)
      requires Valid()
      modifies this
      ensures Valid() && verdicts == old(verdicts) + [(field, result.error)] && value == result.value
    {
      Add(field, result.error);
      value := result.value;
    }

    method Add(field: Field, problem: Option<Problem>)
      requires Valid()
      modifies this
      ensures Valid() && verdicts == old(verdicts) + [(field, problem)]
    {
      if problem.Some? && field !in errors {
        errors := errors[field := problem.value];
      }
      verdicts := verdicts + [(field, problem)];
      assert verdicts[..|verdicts| - 1] == old(verdicts);
    }
  }

  // --------------------------------------------------------- product form

  datatype ProductBody = ProductBody(
    name: Raw, slug: Raw, sku: Raw, oemNumber: Raw, categoryId: Raw, brandId: Raw,
    price: Raw, sale: Raw, stock: Raw, availability: Raw, weight: Raw,
    shortDescription: Raw, description: Raw, compatibilityNote: Raw,
    specKeys: seq<string>, specValues: seq<string>,
    isFeatured: Raw, isNew: Raw, isActive: Raw)

  datatype ProductValues = ProductValues(
    name: string, slug: string, sku: string, oemNumber: Option<string>,
    categoryId: Option<int>, brandId: Option<int>, price: Option<int>, sale: Option<int>,
    stock: Option<int>, availability: Option<string>,
    shortDescription: Option<string>, description: Option<string>, compatibilityNote: Option<string>,
    specs: Specs.Object, weight: Option<int>,
    isFeatured: bool, isNew: bool, isActive: bool)

  function NameCheck(b: ProductBody): Checked<string> { RequiredText(b.name, 2, 200) }
  function SlugCheck(cs: Casing, b: ProductBody): Checked<string> { SlugField(cs, b.slug, NameCheck(b).value) }
  function SkuCheck(b: ProductBody): Checked<string> { RequiredText(b.sku, 1, 64) }
  function OemCheck(b: ProductBody): Checked<Option<string>> { OptionalText(b.oemNumber, 120, false) }
  function CategoryCheck(b: ProductBody): Checked<Option<int>> { IdRef(b.categoryId, true) }
  function BrandCheck(b: ProductBody): Checked<Option<int>> { IdRef(b.brandId, false) }
  function PriceCheck(b: ProductBody): Checked<Option<int>> { Money(b.price, true) }
  function SaleCheck(b: ProductBody): Checked<Option<int>> { Money(b.sale, false) }
  function StockCheck(raw: Raw): Checked<Option<int>> { Integer(raw, true, Some(0), Some(STOCK_MAX)) }
  function AvailabilityCheck(b: ProductBody): Checked<Option<string>> { OneOf(b.availability, AVAILABILITY, true) }
  function WeightCheck(b: ProductBody): Checked<Option<int>> { Integer(b.weight, false, Some(1), Some(WEIGHT_MAX)) }
  function ShortCheck(b: ProductBody): Checked<Option<string>> { OptionalText(b.shortDescription, 500, false) }
  function DescriptionCheck(b: ProductBody): Checked<Option<string>> { OptionalText(b.description, 20000, true) }
  function NoteCheck(b: ProductBody): Checked<Option<string>> { OptionalText(b.compatibilityNote, 1000, true) }
  function SpecsCheck(b: ProductBody): Checked<Specs.Object> { Specs.ReadSpecs(b.specKeys, b.specValues) }

  function IdentityVerdicts(cs: Casing, b: ProductBody): seq<Verdict> {
    [ (ForName, NameCheck(b).error),
      (ForSlug, SlugCheck(cs, b).error),
      (ForSku, SkuCheck(b).error),
      (ForOem, OemCheck(b).error),
      (ForCategory, CategoryCheck(b).error),
      (ForBrand, BrandCheck(b).error) ]
  }

  function StockVerdicts(b: ProductBody): seq<Verdict> {
    [ (ForPrice, PriceCheck(b).error),
      (ForSale, SaleCheck(b).error),
      (ForSale, SalePriceRule(SaleCheck(b).value, PriceCheck(b).value)),
      (ForStock, StockCheck(b.stock).error),
      (ForAvailability, AvailabilityCheck(b).error),
      (ForWeight, WeightCheck(b).error) ]
  }

  function TextVerdicts(b: ProductBody): seq<Verdict> {
    [ (ForShort, ShortCheck(b).error),
      (ForDescription, DescriptionCheck(b).error),
      (ForNote, NoteCheck(b).error),
      (ForSpecs, SpecsCheck(b).error) ]
  }

  /** Every check of the form, in the order it is made. */
  function ProductVerdicts(cs: Casing, b: ProductBody): seq<Verdict> {
    IdentityVerdicts(cs, b) + StockVerdicts(b) + TextVerdicts(b)
  }

  function ProductParsed(cs: Casing, b: ProductBody): ProductValues {
    ProductValues(
      NameCheck(b).value, SlugCheck(cs, b).value, SkuCheck(b).value, OemCheck(b).value,
      CategoryCheck(b).value, BrandCheck(b).value, PriceCheck(b).value, SaleCheck(b).value,
      StockCheck(b.stock).value, AvailabilityCheck(b).value,
      ShortCheck(b).value, DescriptionCheck(b).value, NoteCheck(b).value,
      SpecsCheck(b).value, WeightCheck(b).value,
      Checkbox(cs, b.isFeatured), Checkbox(cs, b.isNew), Checkbox(cs, b.isActive))
  }

  method TakeIdentity(cs: Casing, b: ProductBody, f: FieldErrors)
    returns (name: string, slug: string, sku: string, oemNumber: Option<string>, categoryId: Option<int>, brandId: Option<int>)
    requires f.Valid()
    modifies f
    ensures f.Valid() && f.verdicts == old(f.verdicts) + IdentityVerdicts(cs, b)
    ensures name == NameCheck(b).value && slug == SlugCheck(cs, b).value && sku == SkuCheck(b).value
    ensures oemNumber == OemCheck(b).value && categoryId == CategoryCheck(b).value && brandId == BrandCheck(b).value
  {
    hide RequiredText, SlugField, OptionalText, IdRef;
    name := f.Take(ForName, NameCheck(b));
    slug := f.Take(ForSlug, SlugField(cs, b.slug, name));
    sku := f.Take(ForSku, SkuCheck(b));
    oemNumber := f.Take(ForOem, OemCheck(b));
    categoryId := f.Take(ForCategory, CategoryCheck(b));
    brandId := f.Take(ForBrand, BrandCheck(b));
  }

  method TakeStock(b: ProductBody, f: FieldErrors)
    returns (price: Option<int>, sale: Option<int>, stock: Option<int>, availability: Option<string>, weight: Option<int>)
    requires f.Valid()
    modifies f
    ensures f.Valid() && f.verdicts == old(f.verdicts) + StockVerdicts(b)
    ensures price == PriceCheck(b).value && sale == SaleCheck(b).value && stock == StockCheck(b.stock).value
    ensures availability == AvailabilityCheck(b).value && weight == WeightCheck(b).value
  {
    hide Money, Integer, OneOf, SalePriceRule;
    price := f.Take(ForPrice, PriceCheck(b));
    sale := f.Take(ForSale, SaleCheck(b));
    f.Add(ForSale, SalePriceRule(sale, price));
    stock := f.Take(ForStock, StockCheck(b.stock));
    availability := f.Take(ForAvailability, AvailabilityCheck(b));
    weight := f.Take(ForWeight, WeightCheck(b));
  }

  method TakeTexts(b: ProductBody, f: FieldErrors)
    returns (shortDescription: Option<string>, description: Option<string>, compatibilityNote: Option<string>,
             specs: Specs.Object)
    requires f.Valid()
    modifies f
    ensures f.Valid() && f.verdicts == old(f.verdicts) + TextVerdicts(b)
    ensures shortDescription == ShortCheck(b).value && description == DescriptionCheck(b).value
    ensures compatibilityNote == NoteCheck(b).value && specs == SpecsCheck(b).value
  {
    hide OptionalText, Specs.ReadSpecs;
    shortDescription := f.Take(ForShort, ShortCheck(b));
    description := f.Take(ForDescription, DescriptionCheck(b));
    compatibilityNote := f.Take(ForNote, NoteCheck(b));
    var read := Specs.SpecsField(b.specKeys, b.specValues);
    specs := f.Take(ForSpecs, read);
  }

  /** parseProductForm */
  method ParseProductForm(cs: Casing, b: ProductBody) returns (values: ProductValues, errors: Errors)
    ensures values == ProductParsed(cs, b)
    ensures errors == NoteAll(ProductVerdicts(cs, b))
  {
    hide IdentityVerdicts, StockVerdicts, TextVerdicts, RequiredText, SlugField, OptionalText, IdRef, Money, Integer, OneOf;
    hide Specs.ReadSpecs, Checkbox, NoteAll;
    var f := new FieldErrors();
    var name, slug, sku, oemNumber, categoryId, brandId := TakeIdentity(cs, b, f);
    var price, sale, stock, availability, weight := TakeStock(b, f);
    var shortDescription, description, compatibilityNote, specs := TakeTexts(b, f);
    values := ProductValues(
      name, slug, sku, oemNumber, categoryId, brandId, price, sale, stock, availability,
      shortDescription, description, compatibilityNote, specs, weight,
      Checkbox(cs, b.isFeatured), Checkbox(cs, b.isNew), Checkbox(cs, b.isActive));
    errors := f.errors;
    assert f.verdicts == ProductVerdicts(cs, b);
  }

  // --------------------------------------------------------- category and brand forms

  datatype CategoryBody = CategoryBody(name: Raw, slug: Raw, parentId: Raw, description: Raw, sortOrder: Raw, isActive: Raw)

  datatype BrandBody = BrandBody(name: Raw, slug: Raw, country: Raw, isActive: Raw)

  function ParentCheck(b: CategoryBody): Checked<Option<int>> { IdRef(b.parentId, false) }

  function SortOrderCheck(b: CategoryBody): Checked<Option<int>> {
    Integer(b.sortOrder, false, Some(SORT_ORDER_MIN), Some(SORT_ORDER_MAX))
  }

  function CategoryVerdicts(cs: Casing, b: CategoryBody): seq<Verdict> {
    var name := RequiredText(b.name, 2, 120);
    [ (ForName, name.error),
      (ForSlug, SlugField(cs, b.slug, name.value).error),
      (ForParent, ParentCheck(b).error),
      (ForDescription, OptionalText(b.description, 2000, true).error),
      (ForSortOrder, SortOrderCheck(b).error) ]
  }

  /** The form values have the shape of a row: a missing sort order counts as 0. */
  function CategoryParsed(cs: Casing, b: CategoryBody): CategoryRow {
    var name := RequiredText(b.name, 2, 120);
    var sortOrder := SortOrderCheck(b).value;
    CategoryRow(
      name.value, SlugField(cs, b.slug, name.value).value, ParentCheck(b).value,
      OptionalText(b.description, 2000, true).value,
      if sortOrder.Some? then sortOrder.value else 0, Checkbox(cs, b.isActive))
  }

  /** parseCategoryForm */
  method ParseCategoryForm(cs: Casing, b: CategoryBody) returns (values: CategoryRow, errors: Errors)
    ensures values == CategoryParsed(cs, b)
    ensures errors == NoteAll(CategoryVerdicts(cs, b))
  {
    hide RequiredText, SlugField, OptionalText, IdRef, Integer, Checkbox, NoteAll;
    var f := new FieldErrors();
    var name := f.Take(ForName, RequiredText(b.name, 2, 120));
    var slug := f.Take(ForSlug, SlugField(cs, b.slug, name));
    var parentId := f.Take(ForParent, IdRef(b.parentId, false));
    var description := f.Take(ForDescription, OptionalText(b.description, 2000, true));
    var sortOrder := f.Take(ForSortOrder, Integer(b.sortOrder, false, Some(SORT_ORDER_MIN), Some(SORT_ORDER_MAX)));
    values := CategoryRow(name, slug, parentId, description,
                          if sortOrder.Some? then sortOrder.value else 0, Checkbox(cs, b.isActive));
    errors := f.errors;
    assert f.verdicts == CategoryVerdicts(cs, b);
  }

  function BrandVerdicts(cs: Casing, b: BrandBody): seq<Verdict> {
    var name := RequiredText(b.name, 2, 120);
    [ (ForName, name.error),
      (ForSlug, SlugField(cs, b.slug, name.value).error),
      (ForCountry, OptionalText(b.country, 80, false).error) ]
  }

  function BrandParsed(cs: Casing, b: BrandBody): BrandRow {
    var name := RequiredText(b.name, 2, 120);
    BrandRow(name.value, SlugField(cs, b.slug, name.value).value,
             OptionalText(b.country, 80, false).value, Checkbox(cs, b.isActive))
  }

  /** parseBrandForm */
  method ParseBrandForm(cs: Casing, b: BrandBody) returns (values: BrandRow, errors: Errors)
    ensures values == BrandParsed(cs, b)
    ensures errors == NoteAll(BrandVerdicts(cs, b))
  {
    hide RequiredText, SlugField, OptionalText, Checkbox, NoteAll;
    var f := new FieldErrors();
    var name := f.Take(ForName, RequiredText(b.name, 2, 120));
    var slug := f.Take(ForSlug, SlugField(cs, b.slug, name));
    var country := f.Take(ForCountry, OptionalText(b.country, 80, false));
    values := BrandRow(name, slug, country, Checkbox(cs, b.isActive));
    errors := f.errors;
    assert f.verdicts == BrandVerdicts(cs, b);
  }

  // --------------------------------------------------------- accepted forms meet the CHECKs

  /** The row that create and update write for accepted values. */
  function ProductStored(v: ProductValues, oemNormalized: Option<string>, searchText: string): ProductRow {
    ProductRow(
      v.name, v.slug, v.sku, v.oemNumber, oemNormalized,
      if v.categoryId.Some? then v.categoryId.value else 0, v.brandId,
      if v.price.Some? then v.price.value else 0, v.sale,
      if v.stock.Some? then v.stock.value else 0,
      if v.availability.Some? then v.availability.value else "in_stock",
      v.shortDescription, v.description, v.specs, v.compatibilityNote, v.weight,
      v.isFeatured, v.isNew, v.isActive, searchText)
  }

  lemma RequiredTextNotBlank(raw: Raw, min: nat, max: nat)
    requires RequiredText(raw, min, max).error == None
    ensures NotBlank(RequiredText(raw, min, max).value)
  {
    CleanTextShape(raw);
    var v := CleanText(raw);
    assert v[0] != ' ';
  }

  lemma SlugNotBlank(cs: Casing, raw: Raw, fallback: string)
    requires cs.Lawful() && SlugField(cs, raw, fallback).error == None
    ensures NotBlank(SlugField(cs, raw, fallback).value)
  {
    var v := SlugField(cs, raw, fallback).value;
    SlugFieldAccepts(cs, raw, fallback);
    SlugifyFixed(cs, v);
    assert v[0] in v && v[0] != ' ';
  }

  lemma IntegerInRange(raw: Raw, required: bool, min: int, max: int)
    ensures var r := Integer(raw, required, Some(min), Some(max));
            r.error == None ==> (required ==> r.value.Some?) && (r.value.Some? ==> min <= r.value.value <= max)
  {
  }

  /** No CHECK constraint of the product table can reject an accepted form. */
  lemma AcceptedProductMeetsChecks(cs: Casing, b: ProductBody, oemNormalized: Option<string>, searchText: string)
    requires NoteAll(ProductVerdicts(cs, b)) == map[]
    ensures ProductChecks(ProductStored(ProductParsed(cs, b), oemNormalized, searchText))
  {
    hide NoteAll, Integer, RequiredText, SlugField, OptionalText, Specs.ReadSpecs, NotBlank, CleanText, Checkbox;
    var v := ProductVerdicts(cs, b);
    NoErrorsMeansAllPass(v);
    assert v[0].1.None? && v[4].1.None? && v[5].1.None? && v[6].1.None?;
    assert v[7].1.None? && v[8].1.None? && v[9].1.None? && v[10].1.None? && v[11].1.None?;
    RequiredTextNotBlank(b.name, 2, 200);
    IntegerInRange(b.categoryId, true, 1, MAX_SAFE_INTEGER);
    IntegerInRange(b.brandId, false, 1, MAX_SAFE_INTEGER);
    IntegerInRange(b.price, true, 0, MONEY_MAX);
    IntegerInRange(b.sale, false, 0, MONEY_MAX);
    IntegerInRange(b.stock, true, 0, STOCK_MAX);
    IntegerInRange(b.weight, false, 1, WEIGHT_MAX);
  }

  /** The same for categories, provided the parent is not the row itself. */
  lemma AcceptedCategoryMeetsChecks(cs: Casing, b: CategoryBody, id: int)
    requires cs.Lawful() && NoteAll(CategoryVerdicts(cs, b)) == map[]
    ensures CategoryChecks(id, CategoryParsed(cs, b)) <==> CategoryParsed(cs, b).parentId != Some(id)
  {
    hide NoteAll, Integer, RequiredText, SlugField, OptionalText, NotBlank, Checkbox;
    var v := CategoryVerdicts(cs, b);
    NoErrorsMeansAllPass(v);
    assert v[0].1.None? && v[1].1.None? && v[2].1.None? && v[4].1.None?;
    RequiredTextNotBlank(b.name, 2, 120);
    SlugNotBlank(cs, b.slug, RequiredText(b.name, 2, 120).value);
    IntegerInRange(b.parentId, false, 1, MAX_SAFE_INTEGER);
    IntegerInRange(b.sortOrder, false, SORT_ORDER_MIN, SORT_ORDER_MAX);
  }

  lemma AcceptedBrandMeetsChecks(cs: Casing, b: BrandBody)
    requires NoteAll(BrandVerdicts(cs, b)) == map[]
    ensures BrandChecks(BrandParsed(cs, b))
  {
    hide NoteAll, RequiredText, SlugField, OptionalText, NotBlank, Checkbox;
    var v := BrandVerdicts(cs, b);
    NoErrorsMeansAllPass(v);
    assert v[0].1.None?;
    RequiredTextNotBlank(b.name, 2, 120);
  }

  // --------------------------------------------------------- changed fields

  /** A JavaScript value as it meets sameValue. */
  datatype Cell = Null | Num(n: int) | Text(s: string) | Flag(b: bool) | Object(o: Specs.Object)

  function CellString(c: Cell): string
    requires !c.Null? && !c.Object?
  {
    match c
    case Num(n) => PrintInt(n)
    case Text(s) => s
    case Flag(b) => if b then "true" else "false"
  }

  /** Objects compare by JSON text, so the order of entries matters; the rest by String(). */
  predicate SameValue(a: Cell, b: Cell) {
    if a.Null? || b.Null? then a.Null? && b.Null?
    else if a.Object? || b.Object? then a == b
    else CellString(a) == CellString(b)
  }

  /** An object seen through its property names. */
  datatype Record = Record(fields: seq<Field>, cell: Field -> Cell)

  /** The fields of the column map that the next values have and that differ. */
  function Differing(previous: Record, next: Record, columns: seq<Field>): seq<Field> {
    if columns == [] then []
    else
      var init, f := columns[..|columns| - 1], columns[|columns| - 1];
      Differing(previous, next, init)
      + (if f in next.fields && !SameValue(previous.cell(f), next.cell(f)) then [f] else [])
  }

  lemma {:induction false} DifferingMember(previous: Record, next: Record, columns: seq<Field>, f: Field)
    ensures f in Differing(previous, next, columns) <==>
            f in columns && f in next.fields && !SameValue(previous.cell(f), next.cell(f))
  {
    if columns != [] {
      DifferingMember(previous, next, columns[..|columns| - 1], f);
      assert columns == columns[..|columns| - 1] + [columns[|columns| - 1]];
    }
  }

  /** changedFields */
  method ChangedFields(previous: Option<Record>, next: Record, columns: seq<Field>) returns (changed: seq<Field>)
    ensures previous.None? ==> changed == next.fields
    ensures previous.Some? ==> changed == Differing(previous.value, next, columns)
  {
    if previous.None? {
      return next.fields;
    }
    changed := [];
    for i := 0 to |columns|
      invariant changed == Differing(previous.value, next, columns[..i])
    {
      var field := columns[i];
      assert columns[..i + 1][..i] == columns[..i];
      if field !in next.fields {
        continue;
      }
      if !SameValue(previous.value.cell(field), next.cell(field)) {
        changed := changed + [field];
      }
    }
    assert columns[..|columns|] == columns;
  }

  const PRODUCT_FIELDS: seq<Field> :=
    [ ForName, ForSlug, ForSku, ForOem, ForCategory, ForBrand, ForPrice, ForSale, ForStock, ForAvailability,
      ForShort, ForDescription, ForNote, ForSpecs, ForWeight, ForFeatured, ForNew, ForActive ]

  function MaybeText(t: Option<string>): Cell { if t.None? then Null else Text(t.value) }
  function MaybeNum(n: Option<int>): Cell { if n.None? then Null else Num(n.value) }

  function ValueCell(v: ProductValues, f: Field): Cell {
    match f
    case ForName => Text(v.name)
    case ForSlug => Text(v.slug)
    case ForSku => Text(v.sku)
    case ForOem => MaybeText(v.oemNumber)
    case ForCategory => MaybeNum(v.categoryId)
    case ForBrand => MaybeNum(v.brandId)
    case ForPrice => MaybeNum(v.price)
    case ForSale => MaybeNum(v.sale)
    case ForStock => MaybeNum(v.stock)
    case ForAvailability => MaybeText(v.availability)
    case ForShort => MaybeText(v.shortDescription)
    case ForDescription => MaybeText(v.description)
    case ForNote => MaybeText(v.compatibilityNote)
    case ForSpecs => Object(v.specs)
    case ForWeight => MaybeNum(v.weight)
    case ForFeatured => Flag(v.isFeatured)
    case ForNew => Flag(v.isNew)
    case ForActive => Flag(v.isActive)
    case _ => Null
  }

  function RowCell(r: ProductRow, f: Field): Cell {
    match f
    case ForName => Text(r.name)
    case ForSlug => Text(r.slug)
    case ForSku => Text(r.sku)
    case ForOem => MaybeText(r.oemNumber)
    case ForCategory => Num(r.categoryId)
    case ForBrand => MaybeNum(r.brandId)
    case ForPrice => Num(r.price)
    case ForSale => MaybeNum(r.sale)
    case ForStock => Num(r.stock)
    case ForAvailability => Text(r.availability)
    case ForShort => MaybeText(r.shortDescription)
    case ForDescription => MaybeText(r.description)
    case ForNote => MaybeText(r.compatibilityNote)
    case ForSpecs => Object(r.specs)
    case ForWeight => MaybeNum(r.weight)
    case ForFeatured => Flag(r.isFeatured)
    case ForNew => Flag(r.isNew)
    case ForActive => Flag(r.isActive)
    case _ => Null
  }

  function ProductChanges(r: ProductRow, v: ProductValues): seq<Field> {
    Differing(Record(PRODUCT_FIELDS, f => RowCell(r, f)), Record(PRODUCT_FIELDS, f => ValueCell(v, f)), PRODUCT_FIELDS)
  }

  // --------------------------------------------------------- saving an unedited form

  function ShownText(t: Option<string>): Raw { Some(if t.None? then "" else t.value) }
  function ShownNumber(n: Option<int>): Raw { Some(if n.None? then "" else PrintInt(n.value)) }
  function ShownBox(on: bool): Raw { if on then Some("on") else None }

  function ShownArea(t: Option<string>, crlf: bool): Raw {
    Some(if t.None? then "" else if crlf then WithCrlf(t.value) else t.value)
  }

  /** The empty specification rows the edit form adds. */
  const BLANK_ROWS: nat := 3

  /** productToForm, rendered by the edit page and submitted untouched. */
  function UneditedBody(r: ProductRow, crlf: bool): ProductBody {
    ProductBody(
      Some(r.name), Some(r.slug), Some(r.sku), ShownText(r.oemNumber),
      ShownNumber(Some(r.categoryId)), ShownNumber(r.brandId),
      ShownNumber(Some(r.price)), ShownNumber(r.sale), ShownNumber(Some(r.stock)),
      Some(r.availability), ShownNumber(r.weight),
      ShownArea(r.shortDescription, crlf), ShownArea(r.description, crlf), ShownArea(r.compatibilityNote, crlf),
      Specs.FormKeys(r.specs, BLANK_ROWS), Specs.FormValues(r.specs, BLANK_ROWS),
      ShownBox(r.isFeatured), ShownBox(r.isNew), ShownBox(r.isActive))
  }

  /**
   r is the row read back after storing v. JSONB keeps the entries of an object
   but not their order; the driver rebuilds it as a JavaScript object.
   */
  ghost predicate StoredAs(r: ProductRow, v: ProductValues) {
    && r == ProductStored(v, r.oemNormalized, r.searchText).(specs := r.specs)
    && Specs.WellFormed(r.specs) && multiset(r.specs) == multiset(v.specs)
  }

  lemma RequiredTextAgain(raw: Raw, min: nat, max: nat)
    requires RequiredText(raw, min, max).error == None
    ensures RequiredText(Some(RequiredText(raw, min, max).value), min, max) == RequiredText(raw, min, max)
  {
    hide Squeezed;
    CleanTextShape(raw);
  }

  lemma OptionalLineAgain(raw: Raw, max: nat, crlf: bool)
    requires OptionalText(raw, max, false).error == None
    ensures OptionalText(ShownText(OptionalText(raw, max, false).value), max, false) == OptionalText(raw, max, false)
    ensures OptionalText(ShownArea(OptionalText(raw, max, false).value, crlf), max, false) == OptionalText(raw, max, false)
  {
    CleanTextShape(raw);
    CleanTextShape(None);
    var v := CleanText(raw);
    assert forall c :: c in v ==> CrlfText(c) == [c];
    FlatMapIdentity(CrlfText, v);
  }

  lemma OptionalAreaAgain(raw: Raw, max: nat, crlf: bool)
    requires OptionalText(raw, max, true).error == None
    ensures OptionalText(ShownArea(OptionalText(raw, max, true).value, crlf), max, true) == OptionalText(raw, max, true)
  {
    hide MultilineClean;
    CleanMultilineShape(raw);
    CleanMultilineSurvivesBrowser(CleanMultiline(raw));
    CleanMultilineShape(None);
    CleanMultilineSurvivesBrowser("");
  }

  lemma IntegerAgain(raw: Raw, required: bool, min: int, max: int)
    requires Integer(raw, required, Some(min), Some(max)).error == None
    ensures Integer(ShownNumber(Integer(raw, required, Some(min), Some(max)).value), required, Some(min), Some(max))
            == Integer(raw, required, Some(min), Some(max))
  {
    var r := Integer(raw, required, Some(min), Some(max));
    if r.value.Some? {
      PlainIntegerReread(r.value.value);
    } else {
      TrimIdentity("");
    }
  }

  lemma OneOfAgain(raw: Raw, allowed: seq<string>)
    requires OneOf(raw, allowed, true).error == None
    ensures OneOf(Some(OneOf(raw, allowed, true).value.value), allowed, true) == OneOf(raw, allowed, true)
  {
    hide Squeezed;
    CleanTextShape(raw);
  }

  lemma CheckboxAgain(cs: Casing, on: bool)
    requires cs.Lawful()
    ensures Checkbox(cs, ShownBox(on)) == on
  {
    hide Trim, FlatMap;
    if on {
      assert Trim("on") == "on" by { TrimIdentity("on"); }
      assert cs.ToLower("on") == "on" by { FlatMapIdentity(cs.lower, "on"); }
    }
  }

  lemma SpecsAgain(keys: seq<string>, values: seq<string>, stored: Specs.Object)
    requires Specs.ReadSpecs(keys, values).error == None
    requires Specs.WellFormed(stored) && multiset(stored) == multiset(Specs.ReadSpecs(keys, values).value)
    ensures var r := Specs.ReadSpecs(Specs.FormKeys(stored, BLANK_ROWS), Specs.FormValues(stored, BLANK_ROWS));
            r == if |stored| <= 37 then Checked(stored, None) else Checked([], Some(TooManyRows))
  {
    var o := Specs.ReadSpecs(keys, values).value;
    Specs.ReadRowsShape(keys, values, |keys|);
    forall e | e in stored
      ensures Specs.CleanEntry(e)
    {
      assert e in multiset(o);
    }
    Specs.ResubmittedSpecs(stored, BLANK_ROWS);
  }

  /** The fields of the form, checked one by one against an accepted first submission. */
  lemma UneditedNames(cs: Casing, b: ProductBody, r: ProductRow, crlf: bool)
    requires cs.Lawful() && NoteAll(ProductVerdicts(cs, b)) == map[] && StoredAs(r, ProductParsed(cs, b))
    ensures var again := UneditedBody(r, crlf);
            && NameCheck(b).error.None? && SlugCheck(cs, b).error.None? && SkuCheck(b).error.None? && OemCheck(b).error.None?
            && NameCheck(again) == NameCheck(b) && SlugCheck(cs, again) == SlugCheck(cs, b)
            && SkuCheck(again) == SkuCheck(b) && OemCheck(again) == OemCheck(b)
  {
    hide NoteAll, Integer, RequiredText, SlugField, OptionalText, Specs.ReadSpecs, Checkbox, CleanText, PrintInt;
    hide IsValidSlug, NormalizeSlugParam, Specs.WellFormed;
    var v := ProductVerdicts(cs, b);
    NoErrorsMeansAllPass(v);
    assert v[0].1.None? && v[1].1.None? && v[2].1.None? && v[3].1.None?;
    RequiredTextAgain(b.name, 2, 200);
    SlugFieldAccepts(cs, b.slug, NameCheck(b).value);
    RequiredTextAgain(b.sku, 1, 64);
    OptionalLineAgain(b.oemNumber, 120, crlf);
  }

  lemma UneditedRefs(cs: Casing, b: ProductBody, r: ProductRow, crlf: bool)
    requires NoteAll(ProductVerdicts(cs, b)) == map[] && StoredAs(r, ProductParsed(cs, b))
    ensures var again := UneditedBody(r, crlf);
            && CategoryCheck(b).error.None? && BrandCheck(b).error.None?
            && CategoryCheck(again) == CategoryCheck(b) && BrandCheck(again) == BrandCheck(b)
  {
    hide NoteAll, Integer, RequiredText, SlugField, OptionalText, Specs.ReadSpecs, Checkbox, CleanText, PrintInt, Specs.WellFormed;
    var v := ProductVerdicts(cs, b);
    NoErrorsMeansAllPass(v);
    assert v[4].1.None? && v[5].1.None?;
    IntegerInRange(b.categoryId, true, 1, MAX_SAFE_INTEGER);
    IntegerAgain(b.categoryId, true, 1, MAX_SAFE_INTEGER);
    IntegerAgain(b.brandId, false, 1, MAX_SAFE_INTEGER);
  }

  lemma UneditedStock(cs: Casing, b: ProductBody, r: ProductRow, crlf: bool)
    requires NoteAll(ProductVerdicts(cs, b)) == map[] && StoredAs(r, ProductParsed(cs, b))
    ensures var again := UneditedBody(r, crlf);
            && AllPass(StockVerdicts(again))
            && PriceCheck(again) == PriceCheck(b) && SaleCheck(again) == SaleCheck(b)
            && StockCheck(again.stock) == StockCheck(b.stock)
            && AvailabilityCheck(again) == AvailabilityCheck(b) && WeightCheck(again) == WeightCheck(b)
  {
    hide NoteAll, Integer, RequiredText, SlugField, OptionalText, Specs.ReadSpecs, Checkbox, CleanText, PrintInt;
    var v := ProductVerdicts(cs, b);
    NoErrorsMeansAllPass(v);
    assert v[6].1.None? && v[7].1.None? && v[8].1.None? && v[9].1.None? && v[10].1.None? && v[11].1.None?;
    IntegerInRange(b.price, true, 0, MONEY_MAX);
    IntegerAgain(b.price, true, 0, MONEY_MAX);
    IntegerAgain(b.sale, false, 0, MONEY_MAX);
    IntegerInRange(b.stock, true, 0, STOCK_MAX);
    IntegerAgain(b.stock, true, 0, STOCK_MAX);
    OneOfAgain(b.availability, AVAILABILITY);
    IntegerAgain(b.weight, false, 1, WEIGHT_MAX);
  }

  lemma UneditedTexts(cs: Casing, b: ProductBody, r: ProductRow, crlf: bool)
    requires NoteAll(ProductVerdicts(cs, b)) == map[] && StoredAs(r, ProductParsed(cs, b))
    ensures var again := UneditedBody(r, crlf);
            && ShortCheck(again) == ShortCheck(b) && DescriptionCheck(again) == DescriptionCheck(b)
            && NoteCheck(again) == NoteCheck(b)
            && ShortCheck(b).error.None? && DescriptionCheck(b).error.None? && NoteCheck(b).error.None?
            && SpecsCheck(again) == if |r.specs| <= 37 then Checked(r.specs, None) else Checked([], Some(TooManyRows))
  {
    hide NoteAll, Integer, RequiredText, SlugField, OptionalText, Specs.ReadSpecs, Checkbox, PrintInt, Specs.WellFormed;
    var v := ProductVerdicts(cs, b);
    NoErrorsMeansAllPass(v);
    assert v[12].1.None? && v[13].1.None? && v[14].1.None? && v[15].1.None?;
    OptionalLineAgain(b.shortDescription, 500, crlf);
    OptionalAreaAgain(b.description, 20000, crlf);
    OptionalAreaAgain(b.compatibilityNote, 1000, crlf);
    SpecsAgain(b.specKeys, b.specValues, r.specs);
  }

  /**
   Saving the edit form untouched reports no error and no changed field, for every
   accepted product, exactly when the three blank rows still fit under the row limit.
   */
  lemma ResaveIsNoOp(cs: Casing, b: ProductBody, r: ProductRow, crlf: bool)
    requires cs.Lawful() && NoteAll(ProductVerdicts(cs, b)) == map[] && StoredAs(r, ProductParsed(cs, b))
    ensures var again := UneditedBody(r, crlf);
            && (NoteAll(ProductVerdicts(cs, again)) == map[] <==> |r.specs| <= 37)
            && (|r.specs| <= 37 ==> ProductChanges(r, ProductParsed(cs, again)) == [])
  {
    hide NoteAll, NameCheck, SlugCheck, SkuCheck, OemCheck, CategoryCheck, BrandCheck, PriceCheck, SaleCheck, StockCheck;
    hide AvailabilityCheck, WeightCheck, ShortCheck, DescriptionCheck, NoteCheck, SpecsCheck, Checkbox;
    hide StockVerdicts, Differing, SameValue, Specs.WellFormed, Casing.Lawful, PrintInt;
    var again := UneditedBody(r, crlf);
    var v, w := ProductVerdicts(cs, again), ProductParsed(cs, again);
    UneditedNames(cs, b, r, crlf);
    UneditedRefs(cs, b, r, crlf);
    UneditedStock(cs, b, r, crlf);
    UneditedTexts(cs, b, r, crlf);
    CheckboxAgain(cs, r.isFeatured);
    CheckboxAgain(cs, r.isNew);
    CheckboxAgain(cs, r.isActive);
    NoErrorsMeansAllPass(v);
    assert v == IdentityVerdicts(cs, again) + StockVerdicts(again) + TextVerdicts(again);
    assert v[|v| - 1] == (ForSpecs, SpecsCheck(again).error);
    if |r.specs| <= 37 {
      assert AllPass(v);
      assert w == ProductParsed(cs, b).(specs := r.specs);
      UnchangedCells(cs, b, r, w);
    }
  }

  /** Cell by cell, a row equals the values it was written from. */
  lemma UnchangedCells(cs: Casing, b: ProductBody, r: ProductRow, w: ProductValues)
    requires NoteAll(ProductVerdicts(cs, b)) == map[] && StoredAs(r, ProductParsed(cs, b))
    requires w == ProductParsed(cs, b).(specs := r.specs)
    ensures ProductChanges(r, w) == []
  {
    hide NoteAll, Integer, RequiredText, SlugField, OptionalText, Specs.ReadSpecs, Checkbox, OneOf, Specs.WellFormed, Differing;
    var v := ProductVerdicts(cs, b);
    NoErrorsMeansAllPass(v);
    assert v[4].1.None? && v[6].1.None? && v[9].1.None? && v[10].1.None?;
    IntegerInRange(b.categoryId, true, 1, MAX_SAFE_INTEGER);
    IntegerInRange(b.price, true, 0, MONEY_MAX);
    IntegerInRange(b.stock, true, 0, STOCK_MAX);
    OneOfAccepted(b.availability, AVAILABILITY);
    forall f | f in PRODUCT_FIELDS
      ensures RowCell(r, f) == ValueCell(w, f)
    {
    }
    var changes := ProductChanges(r, w);
    assert changes != [] ==> changes[0] in changes;
    forall f
      ensures f !in changes
    {
      DifferingMember(Record(PRODUCT_FIELDS, f => RowCell(r, f)), Record(PRODUCT_FIELDS, f => ValueCell(w, f)),
                      PRODUCT_FIELDS, f);
    }
  }

  lemma OneOfAccepted(raw: Raw, allowed: seq<string>)
    ensures var c := OneOf(raw, allowed, true); c.error == None ==> c.value.Some? && c.value.value in allowed
  {
  }
}
