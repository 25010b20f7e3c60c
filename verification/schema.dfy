/**
 The catalogue tables: rows, CHECK constraints and column ranges.
 */
module Schema {
  import opened Wrappers
  import Specs

  const AVAILABILITY: seq<string> := ["in_stock", "out_of_stock", "on_order", "discontinued"]

  datatype CategoryRow = CategoryRow(
    name: string, slug: string, parentId: Option<int>, description: Option<string>,
    sortOrder: int, isActive: bool)

  datatype BrandRow = BrandRow(name: string, slug: string, country: Option<string>, isActive: bool)

  datatype ProductRow = ProductRow(
    name: string, slug: string, sku: string,
    oemNumber: Option<string>, oemNormalized: Option<string>,
    categoryId: int, brandId: Option<int>,
    price: int, sale: Option<int>, stock: int, availability: string,
    shortDescription: Option<string>, description: Option<string>,
    specs: Specs.Object, compatibilityNote: Option<string>, weight: Option<int>,
    isFeatured: bool, isNew: bool, isActive: bool, searchText: string)

  /** length(btrim(s)) > 0: btrim strips the ASCII space only. */
  predicate NotBlank(s: string) {
    exists i :: 0 <= i < |s| && s[i] != ' '
  }

  predicate FitsInteger(n: int) {
    -0x8000_0000 <= n <= 0x7FFF_FFFF
  }

  predicate FitsBigint(n: int) {
    -0x8000_0000_0000_0000 <= n <= 0x7FFF_FFFF_FFFF_FFFF
  }

  predicate ProductChecks(r: ProductRow) {
    && NotBlank(r.name)
    && 0 <= r.price && FitsBigint(r.price)
    && (r.sale.Some? ==> 0 <= r.sale.value < r.price)
    && 0 <= r.stock && FitsInteger(r.stock)
    && (r.weight.Some? ==> 0 < r.weight.value && FitsInteger(r.weight.value))
    && r.availability in AVAILABILITY
    && FitsBigint(r.categoryId)
    && (r.brandId.Some? ==> FitsBigint(r.brandId.value))
  }

  predicate CategoryChecks(id: int, r: CategoryRow) {
    && NotBlank(r.name) && NotBlank(r.slug)
    && r.parentId != Some(id)
    && FitsInteger(r.sortOrder)
    && (r.parentId.Some? ==> FitsBigint(r.parentId.value))
  }

  predicate BrandChecks(r: BrandRow) {
    NotBlank(r.name)
  }
}
