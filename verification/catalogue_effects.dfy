/**
 What each catalogue request of the panel leaves behind: exactly when it is saved,
 what is stored then, and that nothing else changes.
 */
module CatalogueEffects {
  import opened Wrappers
  import opened JsText
  import opened Slug
  import opened Validate
  import opened Schema
  import opened CatalogForm
  import opened CategoryForest
  import opened Catalogue
  import opened CatalogueRuns
  import Format
  import Specs

  // --------------------------------------------------------- categories

  lemma CategoryCreated(cs: Casing, s: Shop, b: CategoryBody)
    requires cs.Lawful() && Sound(cs, s)
    ensures var row := CategoryParsed(cs, b);
            var step := Handled(cs, s, CategoryCreate(b));
            && (step.reply == Saved <==>
                  CategoryErrors(cs, b) == map[] && (forall x :: x in s.categories ==> s.categories[x].slug != row.slug)
                  && (row.parentId.Some? ==> row.parentId.value in s.categories))
            && (step.reply == Saved ==>
                  step.shop == s.(categories := s.categories[s.nextCategory := row], nextCategory := s.nextCategory + 1))
            && s.nextCategory !in s.categories
  {
    hide CategoryParsed, CategoryErrors, CategoryChecks, NoteAll, Sound, Casing.Lawful;
    assert Numbered(s) by { Held(cs, s); }
    if CategoryErrors(cs, b) == map[] {
      AcceptedCategory(cs, b, s.nextCategory);
    }
  }

  lemma AcceptedCategory(cs: Casing, b: CategoryBody, id: int)
    requires cs.Lawful() && CategoryErrors(cs, b) == map[]
    ensures CategoryChecks(id, CategoryParsed(cs, b)) <==> CategoryParsed(cs, b).parentId != Some(id)
    ensures CategoryParsed(cs, b).parentId.Some? ==> CategoryParsed(cs, b).parentId.value >= 1
  {
    hide NoteAll, CategoryVerdicts, CategoryParsed, CategoryChecks, Casing.Lawful;
    AcceptedCategoryMeetsChecks(cs, b, id);
    ParentIdIsPositive(cs, b);
  }

  lemma CategoryUpdated(cs: Casing, s: Shop, id: int, b: CategoryBody)
    requires cs.Lawful() && Sound(cs, s)
    ensures var row := CategoryParsed(cs, b);
            var step := Handled(cs, s, CategoryUpdate(id, b));
            && (step.reply == Saved <==>
                  id in s.categories && CategoryErrors(cs, b) == map[]
                  && (forall x :: x in s.categories && x != id ==> s.categories[x].slug != row.slug)
                  && (row.parentId.Some? ==>
                        row.parentId.value in s.categories && row.parentId.value != id
                        && !WouldCreateCycle(s.categories, id, row.parentId.value)))
            && (step.reply == Saved ==> step.shop == s.(categories := s.categories[id := row]))
  {
    hide CategoryParsed, CategoryErrors, CategoryChecks, NoteAll, Sound, WouldCreateCycle, Casing.Lawful;
    assert Numbered(s) by { Held(cs, s); }
    var parentId := CategoryParsed(cs, b).parentId;
    if CategoryErrors(cs, b) == map[] {
      AcceptedCategory(cs, b, id);
      assert ParentTest(s.categories, id, parentId, map[]) != map[] ==> ForParent in ParentTest(s.categories, id, parentId, map[]);
      assert parentId.Some? && (parentId.value == id || WouldCreateCycle(s.categories, id, parentId.value)) ==>
          ForParent in ParentTest(s.categories, id, parentId, map[]);
    } else {
      ErrorsStay(s.categories, id, parentId, CategoryErrors(cs, b));
    }
  }

  lemma ErrorsStay(t: map<int, CategoryRow>, id: int, parentId: Option<int>, errors: Errors)
    requires errors != map[]
    ensures ParentTest(t, id, parentId, errors) != map[]
  {
    hide WouldCreateCycle;
    var f :| f in errors;
    assert f in ParentTest(t, id, parentId, errors);
  }

  lemma CategorySwitched(cs: Casing, s: Shop, id: int, wanted: bool)
    ensures var step := Handled(cs, s, CategorySetActive(id, wanted));
            && (step.reply == Saved <==> id in s.categories)
            && (step.reply == Saved ==>
                  && step.shop == s.(categories := step.shop.categories) && step.shop.categories.Keys == s.categories.Keys
                  && step.shop.categories[id].isActive == wanted
                  && step.shop.categories[id].(isActive := s.categories[id].isActive) == s.categories[id]
                  && forall x :: x in s.categories && x != id ==> step.shop.categories[x] == s.categories[x])
  {
  }

  lemma CategoryDeleted(cs: Casing, s: Shop, id: int, confirmed: bool)
    requires Sound(cs, s)
    ensures var step := Handled(cs, s, CategoryDelete(id, confirmed));
            && (step.reply == Saved <==>
                  && id in s.categories && confirmed
                  && (forall x :: x in s.categories ==> s.categories[x].parentId != Some(id))
                  && (forall p :: p in s.products ==> s.products[p].categoryId != id))
            && (step.reply == Saved ==>
                  && step.shop == s.(categories := step.shop.categories) && step.shop.categories.Keys == s.categories.Keys - {id}
                  && forall x :: x in step.shop.categories ==> step.shop.categories[x] == s.categories[x])
  {
    hide Sound;
    assert Numbered(s) by { Held(cs, s); }
  }

  // --------------------------------------------------------- brands

  lemma BrandCreated(cs: Casing, s: Shop, b: BrandBody)
    requires Sound(cs, s)
    ensures var row := BrandParsed(cs, b);
            var step := Handled(cs, s, BrandCreate(b));
            && (step.reply == Saved <==>
                  BrandErrors(cs, b) == map[] && forall x :: x in s.brands ==> s.brands[x].slug != row.slug)
            && (step.reply == Saved ==> step.shop == s.(brands := s.brands[s.nextBrand := row], nextBrand := s.nextBrand + 1))
            && s.nextBrand !in s.brands
  {
    hide BrandParsed, BrandVerdicts, BrandChecks, NoteAll, Sound;
    assert Numbered(s) by { Held(cs, s); }
    if BrandErrors(cs, b) == map[] {
      AcceptedBrandMeetsChecks(cs, b);
    }
  }

  /** What happens to the products of a renamed brand is BrandUpdateTouches. */
  lemma BrandUpdated(cs: Casing, s: Shop, id: int, b: BrandBody)
    requires Sound(cs, s)
    ensures var row := BrandParsed(cs, b);
            var step := Handled(cs, s, BrandUpdate(id, b));
            && (step.reply == Saved <==>
                  id in s.brands && BrandErrors(cs, b) == map[]
                  && forall x :: x in s.brands && x != id ==> s.brands[x].slug != row.slug)
            && (step.reply == Saved ==> step.shop == s.(brands := s.brands[id := row], products := step.shop.products))
  {
    hide BrandParsed, BrandVerdicts, BrandChecks, NoteAll, Sound, Refreshed;
    assert Numbered(s) by { Held(cs, s); }
    if BrandErrors(cs, b) == map[] {
      AcceptedBrandMeetsChecks(cs, b);
    }
  }

  lemma BrandSwitched(cs: Casing, s: Shop, id: int, wanted: bool)
    ensures var step := Handled(cs, s, BrandSetActive(id, wanted));
            && (step.reply == Saved <==> id in s.brands)
            && (step.reply == Saved ==>
                  && step.shop == s.(brands := step.shop.brands) && step.shop.brands.Keys == s.brands.Keys
                  && step.shop.brands[id].isActive == wanted
                  && step.shop.brands[id].(isActive := s.brands[id].isActive) == s.brands[id]
                  && forall x :: x in s.brands && x != id ==> step.shop.brands[x] == s.brands[x])
  {
  }

  lemma BrandDeleted(cs: Casing, s: Shop, id: int, confirmed: bool)
    requires Sound(cs, s)
    ensures var step := Handled(cs, s, BrandDelete(id, confirmed));
            && (step.reply == Saved <==>
                  id in s.brands && confirmed && forall p :: p in s.products ==> s.products[p].brandId != Some(id))
            && (step.reply == Saved ==>
                  && step.shop == s.(brands := step.shop.brands) && step.shop.brands.Keys == s.brands.Keys - {id}
                  && forall x :: x in step.shop.brands ==> step.shop.brands[x] == s.brands[x])
  {
    hide Sound;
    assert Numbered(s) by { Held(cs, s); }
  }

  // --------------------------------------------------------- products

  /** Every column of the form, as it was accepted. */
  predicate Holds(r: ProductRow, v: ProductValues) {
    && r.name == v.name && r.slug == v.slug && r.sku == v.sku && r.oemNumber == v.oemNumber
    && Some(r.categoryId) == v.categoryId && r.brandId == v.brandId
    && Some(r.price) == v.price && r.sale == v.sale && Some(r.stock) == v.stock && Some(r.availability) == v.availability
    && r.shortDescription == v.shortDescription && r.description == v.description
    && r.compatibilityNote == v.compatibilityNote && r.specs == v.specs && r.weight == v.weight
    && r.isFeatured == v.isFeatured && r.isNew == v.isNew && r.isActive == v.isActive
  }

  /** Nobody else has the slug or the code, and the category and the brand exist. */
  predicate Fits(s: Shop, id: int, v: ProductValues) {
    && (forall x :: x in s.products && x != id ==> s.products[x].slug != v.slug && s.products[x].sku != v.sku)
    && v.categoryId.Some? && v.categoryId.value in s.categories
    && (v.brandId.Some? ==> v.brandId.value in s.brands)
  }

  lemma WrittenHolds(cs: Casing, s: Shop, b: ProductBody)
    requires ProductErrors(cs, b) == map[]
    ensures Holds(Written(cs, s, ProductParsed(cs, b)), ProductParsed(cs, b))
  {
    hide NoteAll, Integer, RequiredText, SlugField, OptionalText, Specs.ReadSpecs, Checkbox, OneOf, BuildSearchText, NormalizeOem;
    var v := ProductVerdicts(cs, b);
    NoErrorsMeansAllPass(v);
    assert v[4].1.None? && v[6].1.None? && v[9].1.None? && v[10].1.None?;
    IntegerInRange(b.categoryId, true, 1, Format.MAX_SAFE_INTEGER);
    IntegerInRange(b.price, true, 0, MONEY_MAX);
    IntegerInRange(b.stock, true, 0, STOCK_MAX);
    OneOfAccepted(b.availability, AVAILABILITY);
  }

  lemma WrittenFits(cs: Casing, s: Shop, id: int, b: ProductBody)
    requires ProductErrors(cs, b) == map[]
    ensures ProductFault(s, id, Written(cs, s, ProductParsed(cs, b))) == None <==> Fits(s, id, ProductParsed(cs, b))
  {
    hide ProductErrors, ProductParsed, Written, ProductChecks;
    WrittenHolds(cs, s, b);
    AcceptedWritten(cs, s, b);
  }

  lemma ProductCreated(cs: Casing, s: Shop, b: ProductBody)
    requires Sound(cs, s)
    ensures var v := ProductParsed(cs, b);
            var step := Handled(cs, s, ProductCreate(b));
            && (step.reply == Saved <==> ProductErrors(cs, b) == map[] && Fits(s, s.nextProduct, v))
            && (step.reply == Saved ==>
                  && step.shop == s.(products := step.shop.products, nextProduct := s.nextProduct + 1)
                  && s.nextProduct !in s.products && step.shop.products.Keys == s.products.Keys + {s.nextProduct}
                  && Holds(step.shop.products[s.nextProduct], v)
                  && forall x :: x in s.products ==> step.shop.products[x] == s.products[x])
  {
    hide ProductErrors, ProductParsed, Written, ProductFault, Sound, Fits, Holds;
    assert Numbered(s) by { Held(cs, s); }
    if ProductErrors(cs, b) == map[] {
      WrittenHolds(cs, s, b);
      WrittenFits(cs, s, s.nextProduct, b);
    }
  }

  lemma ProductUpdated(cs: Casing, s: Shop, id: int, b: ProductBody)
    requires Sound(cs, s)
    ensures var v := ProductParsed(cs, b);
            var step := Handled(cs, s, ProductUpdate(id, b));
            && (step.reply == Saved <==> id in s.products && ProductErrors(cs, b) == map[] && Fits(s, id, v))
            && (step.reply == Saved ==>
                  && step.shop == s.(products := step.shop.products) && step.shop.products.Keys == s.products.Keys
                  && Holds(step.shop.products[id], v)
                  && forall x :: x in s.products && x != id ==> step.shop.products[x] == s.products[x])
  {
    hide ProductErrors, ProductParsed, Written, ProductChecks, ProductKeysFree, Sound, Fits, Holds;
    assert Numbered(s) && ProductsHold(s) by { Held(cs, s); }
    if ProductErrors(cs, b) == map[] {
      WrittenHolds(cs, s, b);
      WrittenFits(cs, s, id, b);
    }
  }

  lemma ProductSwitched(cs: Casing, s: Shop, id: int, wanted: bool)
    ensures var step := Handled(cs, s, ProductSetActive(id, wanted));
            && (step.reply == Saved <==> id in s.products)
            && (step.reply == Saved ==>
                  && step.shop == s.(products := step.shop.products) && step.shop.products.Keys == s.products.Keys
                  && step.shop.products[id].isActive == wanted
                  && step.shop.products[id].(isActive := s.products[id].isActive) == s.products[id]
                  && forall x :: x in s.products && x != id ==> step.shop.products[x] == s.products[x])
  {
  }

  lemma ProductDeleted(cs: Casing, s: Shop, id: int, confirmed: bool)
    requires Sound(cs, s)
    ensures var step := Handled(cs, s, ProductDelete(id, confirmed));
            && (step.reply == Saved <==> id in s.products && confirmed)
            && (step.reply == Saved ==>
                  && step.shop == s.(products := step.shop.products) && step.shop.products.Keys == s.products.Keys - {id}
                  && forall x :: x in step.shop.products ==> step.shop.products[x] == s.products[x])
  {
    hide Sound, ProductChecks, ProductKeysFree;
    assert Numbered(s) && ProductsHold(s) by { Held(cs, s); }
  }
}
