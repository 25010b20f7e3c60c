/**
 Exactly which submissions the three forms accept, and what they make of them.
 */
module FormAcceptance {
  import opened Wrappers
  import opened JsText
  import opened Format
  import opened Slug
  import opened Validate
  import opened Schema
  import opened CatalogForm
  import Specs

  /** The field holds a number from lo to hi. */
  ghost predicate Within(raw: Raw, lo: int, hi: int) {
    exists n :: lo <= n <= hi && ReadsAs(raw, n)
  }

  /** An optional number field is blank or reads as the value. */
  predicate ReadsMaybe(raw: Raw, value: Option<int>) {
    if value.None? then CleanNumeric(raw) == "" else ReadsAs(raw, value.value)
  }

  function Given(text: string): Option<string> {
    if text == "" then None else Some(text)
  }

  /** The slug the form asks for: the typed one, else the name's. */
  function AskedSlug(cs: Casing, slug: Raw, name: Raw): string {
    Slugify(cs, if CleanText(slug) != "" then CleanText(slug) else CleanText(name))
  }

  predicate Ticked(cs: Casing, raw: Raw) {
    raw.Some? && cs.ToLower(Trim(raw.value)) != "" && cs.ToLower(Trim(raw.value)) != "0"
    && cs.ToLower(Trim(raw.value)) != "false" && cs.ToLower(Trim(raw.value)) != "off"
  }

  lemma NumberAccepted(raw: Raw, required: bool, min: int, max: int)
    requires -0x1F_FFFF_FFFF_FFFF <= min && max <= 0x1F_FFFF_FFFF_FFFF
    ensures var c := Integer(raw, required, Some(min), Some(max));
            && (c.error == None <==> Within(raw, min, max) || (!required && CleanNumeric(raw) == ""))
            && (c.error == None ==> ReadsMaybe(raw, c.value) && (required ==> c.value.Some?)
                                    && (c.value.Some? ==> min <= c.value.value <= max))
  {
    hide CleanNumeric, ReadsAs;
    var c := Integer(raw, required, Some(min), Some(max));
    IntegerExactly(raw, required, min, max, if c.value.Some? then c.value.value else 0);
    IntegerShapes(raw, required, min, max);
    if n :| min <= n <= max && ReadsAs(raw, n) {
      IntegerExactly(raw, required, min, max, n);
    }
  }

  lemma IntegerShapes(raw: Raw, required: bool, min: int, max: int)
    ensures var c := Integer(raw, required, Some(min), Some(max));
            c.error == None && c.value.None? ==> c == Checked(None, None)
  {
  }

  lemma TextAccepted(raw: Raw, min: nat, max: nat)
    requires min >= 1
    ensures RequiredText(raw, min, max).value == CleanText(raw)
    ensures RequiredText(raw, min, max).error == None <==> min <= |CleanText(raw)| <= max
  {
    hide CleanText;
  }

  lemma MaybeTextAccepted(raw: Raw, max: nat, multiline: bool)
    ensures var text := if multiline then CleanMultiline(raw) else CleanText(raw);
            && OptionalText(raw, max, multiline).value == Given(text)
            && (OptionalText(raw, max, multiline).error == None <==> |text| <= max)
  {
    hide CleanText, CleanMultiline;
  }

  lemma SlugAccepted(cs: Casing, slug: Raw, name: Raw)
    ensures var c := SlugField(cs, slug, CleanText(name));
            && c.value == AskedSlug(cs, slug, name)
            && (c.error == None <==> 1 <= |AskedSlug(cs, slug, name)| <= 200)
  {
    hide CleanText, Slugify;
  }

  lemma ChoiceAccepted(raw: Raw)
    ensures var c := OneOf(raw, AVAILABILITY, true);
            && (c.error == None <==> CleanText(raw) in ["in_stock", "out_of_stock", "on_order", "discontinued"])
            && (c.error == None ==> c.value == Some(CleanText(raw)))
  {
    hide CleanText;
    var a := AVAILABILITY;
    assert a[0] != "" && a[1] != "" && a[2] != "" && a[3] != "";
  }

  // --------------------------------------------------------- brands and categories

  lemma BrandAccepted(cs: Casing, b: BrandBody)
    ensures NoteAll(BrandVerdicts(cs, b)) == map[] <==>
              && 2 <= |CleanText(b.name)| <= 120 && 1 <= |AskedSlug(cs, b.slug, b.name)| <= 200
              && |CleanText(b.country)| <= 80
    ensures BrandParsed(cs, b)
            == BrandRow(CleanText(b.name), AskedSlug(cs, b.slug, b.name), Given(CleanText(b.country)), Ticked(cs, b.isActive))
  {
    hide NoteAll, RequiredText, SlugField, OptionalText, CleanText, Slugify, Trim, FlatMap;
    var v := BrandVerdicts(cs, b);
    NoErrorsMeansAllPass(v);
    TextAccepted(b.name, 2, 120);
    SlugAccepted(cs, b.slug, b.name);
    MaybeTextAccepted(b.country, 80, false);
    assert AllPass(v) <==> v[0].1.None? && v[1].1.None? && v[2].1.None?;
  }

  lemma CategoryAccepted(cs: Casing, b: CategoryBody)
    ensures NoteAll(CategoryVerdicts(cs, b)) == map[] <==>
              && 2 <= |CleanText(b.name)| <= 120 && 1 <= |AskedSlug(cs, b.slug, b.name)| <= 200
              && (CleanNumeric(b.parentId) == "" || Within(b.parentId, 1, 0x1F_FFFF_FFFF_FFFF))
              && |CleanMultiline(b.description)| <= 2000
              && (CleanNumeric(b.sortOrder) == "" || Within(b.sortOrder, -10_000, 10_000))
    ensures var row := CategoryParsed(cs, b);
            NoteAll(CategoryVerdicts(cs, b)) == map[] ==>
              && row.name == CleanText(b.name) && row.slug == AskedSlug(cs, b.slug, b.name)
              && ReadsMaybe(b.parentId, row.parentId) && row.description == Given(CleanMultiline(b.description))
              && (if CleanNumeric(b.sortOrder) == "" then row.sortOrder == 0 else ReadsAs(b.sortOrder, row.sortOrder))
              && row.isActive == Ticked(cs, b.isActive)
  {
    hide NoteAll, RequiredText, SlugField, OptionalText, Integer, CleanText, CleanMultiline, CleanNumeric, Slugify, Trim, FlatMap;
    hide ReadsAs, Within;
    var v := CategoryVerdicts(cs, b);
    NoErrorsMeansAllPass(v);
    TextAccepted(b.name, 2, 120);
    SlugAccepted(cs, b.slug, b.name);
    NumberAccepted(b.parentId, false, 1, MAX_SAFE_INTEGER);
    MaybeTextAccepted(b.description, 2000, true);
    NumberAccepted(b.sortOrder, false, SORT_ORDER_MIN, SORT_ORDER_MAX);
    BlankReadsNothing(b.sortOrder);
    assert AllPass(v) <==> v[0].1.None? && v[1].1.None? && v[2].1.None? && v[3].1.None? && v[4].1.None?;
  }

  lemma BlankReadsNothing(raw: Raw)
    ensures CleanNumeric(raw) == "" ==> forall n :: !ReadsAs(raw, n)
  {
    hide CleanNumeric, IntegerShaped;
    NothingIsShaped();
  }

  // --------------------------------------------------------- products

  /** Name, address, code, part number, category and brand are as the form wants them. */
  ghost predicate IdentityFits(cs: Casing, b: ProductBody) {
    && 2 <= |CleanText(b.name)| <= 200 && 1 <= |AskedSlug(cs, b.slug, b.name)| <= 200
    && 1 <= |CleanText(b.sku)| <= 64 && |CleanText(b.oemNumber)| <= 120
    && Within(b.categoryId, 1, 0x1F_FFFF_FFFF_FFFF)
    && (CleanNumeric(b.brandId) == "" || Within(b.brandId, 1, 0x1F_FFFF_FFFF_FFFF))
  }

  /** Prices, stock, availability and weight; a sale price is below the price. */
  ghost predicate StockFits(b: ProductBody) {
    && Within(b.price, 0, 999_999_999_999)
    && (CleanNumeric(b.sale) == "" || Within(b.sale, 0, 999_999_999_999))
    && (forall p, q :: ReadsAs(b.price, p) && ReadsAs(b.sale, q) ==> q < p)
    && Within(b.stock, 0, 1_000_000)
    && CleanText(b.availability) in ["in_stock", "out_of_stock", "on_order", "discontinued"]
    && (CleanNumeric(b.weight) == "" || Within(b.weight, 1, 1_000_000))
  }

  predicate TextsFit(b: ProductBody) {
    && |CleanText(b.shortDescription)| <= 500 && |CleanMultiline(b.description)| <= 20_000
    && |CleanMultiline(b.compatibilityNote)| <= 1_000
    && |b.specKeys| <= 40 && forall i :: 0 <= i < |b.specKeys| ==> Specs.RowFits(b.specKeys, b.specValues, i)
  }

  lemma IdentityAccepted(cs: Casing, b: ProductBody)
    ensures AllPass(IdentityVerdicts(cs, b)) <==> IdentityFits(cs, b)
  {
    hide RequiredText, SlugField, OptionalText, Integer, CleanText, CleanNumeric, Slugify, Within, AskedSlug;
    var v := IdentityVerdicts(cs, b);
    TextAccepted(b.name, 2, 200);
    SlugAccepted(cs, b.slug, b.name);
    TextAccepted(b.sku, 1, 64);
    MaybeTextAccepted(b.oemNumber, 120, false);
    NumberAccepted(b.categoryId, true, 1, MAX_SAFE_INTEGER);
    NumberAccepted(b.brandId, false, 1, MAX_SAFE_INTEGER);
    assert AllPass(v) <==>
        v[0].1.None? && v[1].1.None? && v[2].1.None? && v[3].1.None? && v[4].1.None? && v[5].1.None?;
  }

  lemma SaleAccepted(b: ProductBody)
    requires PriceCheck(b).error.None? && SaleCheck(b).error.None?
    ensures SalePriceRule(SaleCheck(b).value, PriceCheck(b).value).None?
            <==> forall p, q :: ReadsAs(b.price, p) && ReadsAs(b.sale, q) ==> q < p
  {
    hide Integer, CleanNumeric, ReadsAs, Within;
    NumberAccepted(b.price, true, 0, MONEY_MAX);
    NumberAccepted(b.sale, false, 0, MONEY_MAX);
    BlankReadsNothing(b.sale);
    var price, sale := PriceCheck(b).value.value, SaleCheck(b).value;
    forall p
      ensures ReadsAs(b.price, p) <==> p == price
    {
      OneReading(b.price, p, price);
    }
    if sale.Some? {
      forall q
        ensures ReadsAs(b.sale, q) <==> q == sale.value
      {
        OneReading(b.sale, q, sale.value);
      }
      assert ReadsAs(b.price, price) && ReadsAs(b.sale, sale.value);
    }
  }

  lemma OneReading(raw: Raw, p: int, q: int)
    requires ReadsAs(raw, q)
    ensures ReadsAs(raw, p) <==> p == q
  {
    hide CleanNumeric, IntegerShaped, IntegerValue;
  }

  lemma StockAccepted(b: ProductBody)
    ensures AllPass(StockVerdicts(b)) <==> StockFits(b)
  {
    hide Integer, OneOf, CleanText, CleanNumeric, Within, SalePriceRule, ReadsAs;
    var v := StockVerdicts(b);
    NumberAccepted(b.price, true, 0, MONEY_MAX);
    NumberAccepted(b.sale, false, 0, MONEY_MAX);
    NumberAccepted(b.stock, true, 0, STOCK_MAX);
    NumberAccepted(b.weight, false, 1, WEIGHT_MAX);
    ChoiceAccepted(b.availability);
    if PriceCheck(b).error.None? && SaleCheck(b).error.None? {
      SaleAccepted(b);
    }
    assert AllPass(v) <==>
        v[0].1.None? && v[1].1.None? && v[2].1.None? && v[3].1.None? && v[4].1.None? && v[5].1.None?;
  }

  lemma TextsAccepted(b: ProductBody)
    ensures AllPass(TextVerdicts(b)) <==> TextsFit(b)
  {
    hide OptionalText, CleanText, CleanMultiline, Specs.ReadSpecs, Specs.RowFits;
    var v := TextVerdicts(b);
    MaybeTextAccepted(b.shortDescription, 500, false);
    MaybeTextAccepted(b.description, 20000, true);
    MaybeTextAccepted(b.compatibilityNote, 1000, true);
    Specs.SpecsAccepted(b.specKeys, b.specValues);
    assert AllPass(v) <==> v[0].1.None? && v[1].1.None? && v[2].1.None? && v[3].1.None?;
  }

  lemma AllPassConcat(a: seq<Verdict>, b: seq<Verdict>)
    ensures AllPass(a + b) <==> AllPass(a) && AllPass(b)
  {
    if AllPass(a + b) {
      forall i | 0 <= i < |a|
        ensures a[i].1.None?
      {
        assert (a + b)[i].1.None?;
      }
      forall i | 0 <= i < |b|
        ensures b[i].1.None?
      {
        assert (a + b)[|a| + i].1.None?;
      }
    }
  }

  /** Exactly which product forms are accepted. */
  lemma ProductAccepted(cs: Casing, b: ProductBody)
    ensures NoteAll(ProductVerdicts(cs, b)) == map[] <==> IdentityFits(cs, b) && StockFits(b) && TextsFit(b)
  {
    hide IdentityFits, StockFits, TextsFit, IdentityVerdicts, StockVerdicts, TextVerdicts, NoteAll, AllPass;
    NoErrorsMeansAllPass(ProductVerdicts(cs, b));
    AllPassConcat(IdentityVerdicts(cs, b) + StockVerdicts(b), TextVerdicts(b));
    AllPassConcat(IdentityVerdicts(cs, b), StockVerdicts(b));
    IdentityAccepted(cs, b);
    StockAccepted(b);
    TextsAccepted(b);
  }

  lemma NumbersRead(cs: Casing, b: ProductBody)
    requires NoteAll(ProductVerdicts(cs, b)) == map[]
    ensures var v := ProductParsed(cs, b);
            && v.categoryId.Some? && ReadsAs(b.categoryId, v.categoryId.value) && ReadsMaybe(b.brandId, v.brandId)
            && v.price.Some? && ReadsAs(b.price, v.price.value) && ReadsMaybe(b.sale, v.sale)
            && v.stock.Some? && ReadsAs(b.stock, v.stock.value) && ReadsMaybe(b.weight, v.weight)
            && v.availability == Some(CleanText(b.availability))
  {
    hide RequiredText, SlugField, OptionalText, Integer, OneOf, CleanText, CleanMultiline, CleanNumeric;
    hide NoteAll, ReadsAs, Within, Checkbox;
    var v := ProductVerdicts(cs, b);
    NoErrorsMeansAllPass(v);
    assert v[4].1.None? && v[5].1.None? && v[6].1.None? && v[7].1.None? && v[9].1.None? && v[10].1.None? && v[11].1.None?;
    NumberAccepted(b.categoryId, true, 1, MAX_SAFE_INTEGER);
    NumberAccepted(b.brandId, false, 1, MAX_SAFE_INTEGER);
    NumberAccepted(b.price, true, 0, MONEY_MAX);
    NumberAccepted(b.sale, false, 0, MONEY_MAX);
    NumberAccepted(b.stock, true, 0, STOCK_MAX);
    NumberAccepted(b.weight, false, 1, WEIGHT_MAX);
    ChoiceAccepted(b.availability);
  }

  lemma TextsRead(cs: Casing, b: ProductBody)
    ensures var v := ProductParsed(cs, b);
            && v.name == CleanText(b.name) && v.slug == AskedSlug(cs, b.slug, b.name) && v.sku == CleanText(b.sku)
            && v.oemNumber == Given(CleanText(b.oemNumber))
            && v.shortDescription == Given(CleanText(b.shortDescription))
            && v.description == Given(CleanMultiline(b.description))
            && v.compatibilityNote == Given(CleanMultiline(b.compatibilityNote))
            && v.isFeatured == Ticked(cs, b.isFeatured) && v.isNew == Ticked(cs, b.isNew) && v.isActive == Ticked(cs, b.isActive)
  {
    hide RequiredText, SlugField, OptionalText, Integer, OneOf, CleanText, CleanMultiline, Trim, Given, AskedSlug, FlatMap;
    TextAccepted(b.name, 2, 200);
    SlugAccepted(cs, b.slug, b.name);
    TextAccepted(b.sku, 1, 64);
    MaybeTextAccepted(b.oemNumber, 120, false);
    MaybeTextAccepted(b.shortDescription, 500, false);
    MaybeTextAccepted(b.description, 20000, true);
    MaybeTextAccepted(b.compatibilityNote, 1000, true);
  }

  /** What an accepted form is read as, field by field. */
  lemma ProductRead(cs: Casing, b: ProductBody)
    requires NoteAll(ProductVerdicts(cs, b)) == map[]
    ensures var v := ProductParsed(cs, b);
            && v.name == CleanText(b.name) && v.slug == AskedSlug(cs, b.slug, b.name) && v.sku == CleanText(b.sku)
            && v.oemNumber == Given(CleanText(b.oemNumber))
            && v.categoryId.Some? && ReadsAs(b.categoryId, v.categoryId.value) && ReadsMaybe(b.brandId, v.brandId)
            && v.price.Some? && ReadsAs(b.price, v.price.value) && ReadsMaybe(b.sale, v.sale)
            && v.stock.Some? && ReadsAs(b.stock, v.stock.value) && ReadsMaybe(b.weight, v.weight)
            && v.availability == Some(CleanText(b.availability))
            && v.shortDescription == Given(CleanText(b.shortDescription))
            && v.description == Given(CleanMultiline(b.description))
            && v.compatibilityNote == Given(CleanMultiline(b.compatibilityNote))
            && v.isFeatured == Ticked(cs, b.isFeatured) && v.isNew == Ticked(cs, b.isNew) && v.isActive == Ticked(cs, b.isActive)
            && (forall k, t :: (k, t) in v.specs <==>
                  k != "" && k != "__proto__" && exists i: nat :: Specs.LastRow(b.specKeys, b.specValues, |b.specKeys|, k, t, i))
  {
    hide Given, Ticked, AskedSlug, ReadsAs, ReadsMaybe, CleanText, CleanMultiline, NoteAll, Specs.LastRow, Specs.ReadSpecs;
    hide RequiredText, SlugField, OptionalText, Integer, OneOf;
    TextsRead(cs, b);
    NumbersRead(cs, b);
    assert Specs.ReadSpecs(b.specKeys, b.specValues).error == None by {
      NoErrorsMeansAllPass(ProductVerdicts(cs, b));
      assert ProductVerdicts(cs, b)[15].1.None?;
    }
    forall k, t
      ensures (k, t) in ProductParsed(cs, b).specs <==>
              k != "" && k != "__proto__" && exists i: nat :: Specs.LastRow(b.specKeys, b.specValues, |b.specKeys|, k, t, i)
    {
      SpecsRead(b.specKeys, b.specValues, k, t);
    }
  }

  lemma SpecsRead(keys: seq<string>, values: seq<string>, k: string, v: string)
    requires Specs.ReadSpecs(keys, values).error == None
    ensures (k, v) in Specs.ReadSpecs(keys, values).value
            <==> k != "" && k != "__proto__" && exists i: nat :: Specs.LastRow(keys, values, |keys|, k, v, i)
  {
    hide Specs.LastRow, Specs.ReadRows;
    Specs.SpecsKept(keys, values, |keys|, k, v);
  }

  // --------------------------------------------------------- the changed-field report

  lemma PrintsApart(m: int, n: int)
    requires PrintInt(m) == PrintInt(n)
    ensures m == n
  {
    hide PrintInt, CleanNumeric, IntegerShaped, IntegerValue;
    PlainIntegerReread(m);
    PlainIntegerReread(n);
  }

  lemma SameKind(r: ProductRow, v: ProductValues, f: Field)
    ensures var a, b := RowCell(r, f), ValueCell(v, f);
            || a.Null? || b.Null? || (a.Num? && b.Num?) || (a.Text? && b.Text?) || (a.Flag? && b.Flag?) || (a.Object? && b.Object?)
  {
  }

  /** The report names exactly the columns whose value changes. */
  lemma ChangesExactly(r: ProductRow, v: ProductValues, f: Field)
    requires f in PRODUCT_FIELDS
    ensures f in ProductChanges(r, v) <==> RowCell(r, f) != ValueCell(v, f)
  {
    hide PrintInt, Differing, RowCell, ValueCell;
    DifferingMember(Record(PRODUCT_FIELDS, f => RowCell(r, f)), Record(PRODUCT_FIELDS, f => ValueCell(v, f)), PRODUCT_FIELDS, f);
    var a, b := RowCell(r, f), ValueCell(v, f);
    SameKind(r, v, f);
    if a.Num? && b.Num? && PrintInt(a.n) == PrintInt(b.n) {
      PrintsApart(a.n, b.n);
    }
  }
}
