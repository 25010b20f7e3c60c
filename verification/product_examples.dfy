/**
 Concrete products at the edges: one whose name has a backslash, and one with many
 specification rows. Both come from forms that are accepted.
 */
module ProductExamples {
  import opened Wrappers
  import opened JsText
  import opened Format
  import opened Slug
  import opened Validate
  import opened Schema
  import opened CatalogForm
  import opened CategoryForest
  import opened Catalogue
  import opened CatalogueForest
  import opened SqlLike
  import opened ProductFilter
  import opened ProductSearch
  import Specs
  import CatalogueRuns

  /** A form for a product in category 1 at price 1: code "x", no brand, no texts. */
  function PlainBody(name: string, specs: Specs.Object): ProductBody {
    ProductBody(Some(name), None, Some("x"), None, Some(PrintInt(1)), None, Some(PrintInt(1)), None, Some(PrintInt(1)),
                Some("in_stock"), None, None, None, None,
                Specs.FormKeys(specs, 0), Specs.FormValues(specs, 0), None, None, Some("on"))
  }

  function PlainValues(name: string, slug: string, specs: Specs.Object): ProductValues {
    ProductValues(name, slug, "x", None, Some(1), None, Some(1), None, Some(1), Some("in_stock"), None, None, None,
                  specs, None, false, false, true)
  }

  lemma PlainTexts()
    ensures RequiredText(Some("x"), 1, 64) == Checked("x", None)
    ensures OneOf(Some("in_stock"), AVAILABILITY, true) == Checked(Some("in_stock"), None)
  {
    hide Squeeze;
    assert Squeezed("x") && Squeezed("in_stock");
    SqueezeFixed("x");
    SqueezeFixed("in_stock");
    assert AVAILABILITY[0] == "in_stock";
  }

  lemma AbsentTexts(cs: Casing)
    ensures forall max, multiline :: OptionalText(None, max, multiline) == Checked(None, None)
    ensures !Checkbox(cs, None)
  {
  }

  lemma PlainNumbers()
    ensures IdRef(Some(PrintInt(1)), true) == Checked(Some(1), None) && IdRef(None, false) == Checked(None, None)
    ensures Money(Some(PrintInt(1)), true) == Checked(Some(1), None) && Money(None, false) == Checked(None, None)
    ensures StockCheck(Some(PrintInt(1))) == Checked(Some(1), None)
    ensures Integer(None, false, Some(1), Some(WEIGHT_MAX)) == Checked(None, None)
  {
    hide CleanNumeric, PrintInt, IntegerShaped, IntegerValue;
    PlainIntegerReread(1);
    NothingTyped();
  }

  lemma PlainBodyParsed(cs: Casing, name: string, slug: string, specs: Specs.Object)
    requires cs.Lawful() && RequiredText(Some(name), 2, 200) == Checked(name, None) && SlugField(cs, None, name) == Checked(slug, None)
    requires Specs.WellFormed(specs) && (forall e :: e in specs ==> Specs.CleanEntry(e)) && |specs| <= Specs.MAX_ROWS
    ensures ProductErrors(cs, PlainBody(name, specs)) == map[]
    ensures ProductParsed(cs, PlainBody(name, specs)) == PlainValues(name, slug, specs)
  {
    hide RequiredText, SlugField, OptionalText, OneOf, IdRef, Money, Integer, Checkbox, NoteAll, PrintInt;
    hide Specs.WellFormed, Specs.CleanEntry, Specs.ReadSpecs;
    Specs.ResubmittedSpecs(specs, 0);
    PlainTexts();
    AbsentTexts(cs);
    PlainNumbers();
    CheckboxAgain(cs, true);
    NoErrorsMeansAllPass(ProductVerdicts(cs, PlainBody(name, specs)));
  }

  // --------------------------------------------------------- many specification rows

  /** n entries c0, c1, ... without text. */
  function ManySpecs(n: nat): Specs.Object {
    seq(n, i requires 0 <= i < n => (LinkName(i), ""))
  }

  lemma ManySpecsClean(n: nat)
    requires n <= Specs.MAX_ROWS
    ensures Specs.WellFormed(ManySpecs(n)) && forall e :: e in ManySpecs(n) ==> Specs.CleanEntry(e)
  {
    hide CleanText, SlugShaped;
    var o := ManySpecs(n);
    forall i | 0 <= i < n
      ensures Specs.CleanEntry(o[i]) && o[i].0 != "__proto__" && !Specs.IsIndexKey(o[i].0)
    {
      ShortDigits(i);
      LinkNameIsSlug(i);
      SlugIsCleanText(LinkName(i));
      CleanTextShape(None);
      CleanNothing();
      assert LinkName(i)[0] in LinkName(i);
    }
    forall i, j | 0 <= i < j < n
      ensures o[i].0 != o[j].0
    {
      DifferentNames(i, j);
    }
  }

  /**
   A product with n specifications, n up to 40, is accepted when first sent. Its
   edit form, sent back untouched, is accepted exactly when n is at most 37.
   */
  lemma ManySpecsResaved(cs: Casing, n: nat, crlf: bool, oemNormalized: Option<string>, searchText: string)
    requires cs.Lawful() && n <= 40
    ensures var b := PlainBody(LinkName(1), ManySpecs(n));
            var r := ProductStored(ProductParsed(cs, b), oemNormalized, searchText);
            && ProductErrors(cs, b) == map[] && r.specs == ManySpecs(n)
            && (ProductErrors(cs, UneditedBody(r, crlf)) == map[] <==> n <= 37)
  {
    hide NoteAll, ProductVerdicts, ProductParsed, Specs.WellFormed, Specs.CleanEntry, UneditedBody, PlainBody, LinkName;
    var b := PlainBody(LinkName(1), ManySpecs(n));
    var r := ProductStored(ProductParsed(cs, b), oemNormalized, searchText);
    ManySpecsClean(n);
    LinkNameFits(cs, 1);
    PlainBodyParsed(cs, LinkName(1), LinkName(1), ManySpecs(n));
    ResaveIsNoOp(cs, b, r, crlf);
  }

  lemma LinkNameFits(cs: Casing, k: nat)
    requires cs.Lawful() && k < 1_000_000
    ensures RequiredText(Some(LinkName(k)), 2, 200) == Checked(LinkName(k), None)
    ensures SlugField(cs, None, LinkName(k)) == Checked(LinkName(k), None)
  {
    hide CleanText, Slugify, LinkName;
    LinkNameAccepted(cs, k);
    assert CleanText(None) == "" by { CleanNothing(); }
  }

  lemma CleanNothing()
    ensures CleanText(None) == ""
  {
  }

  // --------------------------------------------------------- a name with a backslash

  const AWKWARD_NAME := "a\\b"
  const AWKWARD_SLUG := "a-b"
  const AWKWARD_TEXT := "a\\b x"

  /** Creates a category and in it a product named a\b. */
  function AwkwardRun(): seq<Request> {
    GrowChain(1) + [ProductCreate(PlainBody(AWKWARD_NAME, []))]
  }

  lemma PlainForm(cs: Casing, s: string)
    requires cs.Lawful() && cs.Ascii() && Squeezed(s)
    requires forall c :: c in s ==> c < 128 as char && Folded(c) && !('A' <= c <= 'Z')
    ensures NormalizePersian(s) == s && SearchForm(cs, s) == s
  {
    hide Squeezed;
    FlatMapIdentity(FoldLetter, s);
    SqueezeFixed(s);
    FlatMapIdentity(cs.lower, s);
  }

  lemma AwkwardChars()
    ensures forall c :: c in AWKWARD_TEXT ==> c < 128 as char && Folded(c) && !('A' <= c <= 'Z')
    ensures Squeezed(AWKWARD_TEXT) && Squeezed(AWKWARD_NAME) && Squeezed("x")
  {
    assert AWKWARD_TEXT[3] == ' ';
  }

  lemma AwkwardShape(cs: Casing)
    requires cs.Lawful() && cs.Ascii()
    ensures NormalizePersian(AWKWARD_NAME) == AWKWARD_NAME
    ensures SearchForm(cs, AWKWARD_NAME) == AWKWARD_NAME && SearchForm(cs, "x") == "x"
    ensures Squeezed(AWKWARD_NAME) && Squeezed(AWKWARD_TEXT)
  {
    hide SearchForm, NormalizePersian, Squeezed, Folded, Casing.Lawful, Casing.Ascii;
    AwkwardChars();
    assert AWKWARD_TEXT == AWKWARD_NAME + " " + "x";
    PlainForm(cs, AWKWARD_NAME);
    PlainForm(cs, "x");
  }

  lemma AwkwardSlug(cs: Casing)
    requires cs.Lawful() && cs.Ascii()
    ensures RequiredText(Some(AWKWARD_NAME), 2, 200) == Checked(AWKWARD_NAME, None)
    ensures SlugField(cs, None, AWKWARD_NAME) == Checked(AWKWARD_SLUG, None)
  {
    hide Squeeze, Squeezed, NormalizePersian;
    AwkwardShape(cs);
    SqueezeFixed(AWKWARD_NAME);
    CleanNothing();
    assert Slugify(cs, AWKWARD_NAME) == DashWords(AWKWARD_NAME);
    AwkwardDashes();
  }

  lemma AwkwardDashes()
    ensures DashWords(AWKWARD_NAME) == AWKWARD_SLUG
  {
    assert AWKWARD_NAME[1..] == "\\b" && "\\b"[1..] == "b" && "b"[1..] == "";
    assert Runs(Disallowed, '-', "b") == "b";
    assert Runs(Disallowed, '-', "\\b") == "-b";
    assert Runs(Disallowed, '-', AWKWARD_NAME) == AWKWARD_SLUG;
    RunsIdentity(IsDash, '-', AWKWARD_SLUG);
  }

  lemma AwkwardFields(cs: Casing)
    ensures SearchFields(cs, SearchParts(AWKWARD_NAME, "x", None, None, None)) == [AWKWARD_NAME, "x"]
  {
  }

  lemma AwkwardText(cs: Casing)
    requires cs.Lawful() && cs.Ascii()
    ensures BuildSearchText(cs, SearchParts(AWKWARD_NAME, "x", None, None, None)) == AWKWARD_TEXT
  {
    hide SearchForm, Squeezed, Squeeze, SearchFields, Casing.Lawful, Casing.Ascii;
    var fields := SearchFields(cs, SearchParts(AWKWARD_NAME, "x", None, None, None));
    AwkwardFields(cs);
    AwkwardShape(cs);
    var forms := SearchForms(cs, fields);
    assert forms == [AWKWARD_NAME, "x"];
    assert forms[1..] == ["x"];
    assert Join(forms, " ") == AWKWARD_NAME + " " + "x" == AWKWARD_TEXT;
    SqueezeFixed(AWKWARD_TEXT);
  }

  lemma AwkwardKey(cs: Casing)
    requires cs.Lawful() && cs.Ascii()
    ensures OemKey(cs, AWKWARD_NAME) == "AB"
  {
    hide NormalizePersian;
    AwkwardShape(cs);
    var name := AWKWARD_NAME;
    assert name[1..] == "\\b" && "\\b"[1..] == "b" && "b"[1..] == "";
    assert cs.ToUpper(name) == "A\\B";
    assert "A\\B"[1..] == "\\B" && "\\B"[1..] == "B" && "B"[1..] == "";
  }

  /** The pattern made from the name asks for "ab", which stands in neither the name nor the search text. */
  lemma AwkwardPattern(db: Collation)
    requires db.Lawful()
    ensures !Matches(db.alike, "%" + AWKWARD_NAME + "%", AWKWARD_TEXT) && !FindsItself(db.alike, AWKWARD_NAME)
  {
    hide Matches, StartsAlike;
    AwkwardUnquoted();
    QuotedContains(db.alike, AWKWARD_NAME, AWKWARD_TEXT);
    QuotedContains(db.alike, AWKWARD_NAME, AWKWARD_NAME);
    forall k: nat
      ensures !SameAt(db.alike, "ab", AWKWARD_TEXT, k) && !SameAt(db.alike, "ab", AWKWARD_NAME, k)
    {
      NoAb(db, AWKWARD_TEXT, k);
      NoAb(db, AWKWARD_NAME, k);
    }
  }

  lemma AwkwardUnquoted()
    ensures Closed(AWKWARD_NAME) && Bare(AWKWARD_NAME) && Unquoted(AWKWARD_NAME) == "ab"
  {
    assert AWKWARD_NAME[1..] == "\\b" && "\\b"[2..] == "";
  }

  lemma NoAb(db: Collation, t: string, k: nat)
    requires db.Lawful() && t <= AWKWARD_TEXT
    ensures !SameAt(db.alike, "ab", t, k)
  {
    if k < |t| {
      var u := t[k..];
      assert "ab"[1..] == "b" && u[0] == AWKWARD_TEXT[k];
      assert StartsAlike(db.alike, "ab", u) <==> db.alike('a', u[0]) && StartsAlike(db.alike, "b", u[1..]);
      assert |u| > 1 ==> u[1..][0] == AWKWARD_TEXT[k + 1];
    }
  }

  lemma AwkwardAccepted(cs: Casing)
    requires cs.Lawful() && cs.Ascii()
    ensures ProductErrors(cs, PlainBody(AWKWARD_NAME, [])) == map[]
    ensures ProductParsed(cs, PlainBody(AWKWARD_NAME, [])) == PlainValues(AWKWARD_NAME, AWKWARD_SLUG, [])
  {
    hide PlainBody, RequiredText, SlugField, NoteAll;
    AwkwardSlug(cs);
    PlainBodyParsed(cs, AWKWARD_NAME, AWKWARD_SLUG, []);
  }

  lemma AwkwardCreated(cs: Casing)
    requires cs.Lawful() && cs.Ascii()
    ensures var row := Written(cs, ChainShop(1), PlainValues(AWKWARD_NAME, AWKWARD_SLUG, []));
            AfterProductCreate(cs, ChainShop(1), PlainBody(AWKWARD_NAME, [])) == Step(Saved,
              ChainShop(1).(products := map[1 := row], nextProduct := 2))
  {
    hide PlainBody, ProductErrors, ProductParsed, ProductChecks, BuildSearchText, NormalizeOem;
    AwkwardAccepted(cs);
    CatalogueRuns.AcceptedWritten(cs, ChainShop(1), PlainBody(AWKWARD_NAME, []));
    assert 1 in Chain(1);
  }

  lemma AwkwardShop(cs: Casing)
    requires cs.Lawful() && cs.Ascii()
    ensures var row := Written(cs, ChainShop(1), PlainValues(AWKWARD_NAME, AWKWARD_SLUG, []));
            AfterRun(cs, EMPTY_SHOP, AwkwardRun()).products == map[1 := row]
  {
    hide *;
    GrownChain(cs, 1);
    AwkwardLastStep(cs, ChainShop(1));
    RunAppend(cs, EMPTY_SHOP, GrowChain(1), ProductCreate(PlainBody(AWKWARD_NAME, [])));
    AwkwardCreated(cs);
  }

  lemma AwkwardLastStep(cs: Casing, s: Shop)
    ensures AwkwardRun() == GrowChain(1) + [ProductCreate(PlainBody(AWKWARD_NAME, []))]
    ensures Handled(cs, s, ProductCreate(PlainBody(AWKWARD_NAME, []))) == AfterProductCreate(cs, s, PlainBody(AWKWARD_NAME, []))
  {
    hide AfterProductCreate, PlainBody, GrowChain;
  }

  /** The row the run leaves behind. */
  lemma AwkwardStored(cs: Casing)
    requires cs.Lawful() && cs.Ascii()
    ensures var s := AfterRun(cs, EMPTY_SHOP, AwkwardRun());
            && s.products.Keys == {1}
            && var row := s.products[1];
               && row.name == AWKWARD_NAME && row.sku == "x" && row.isActive
               && row.oemNormalized == None && row.searchText == AWKWARD_TEXT
  {
    hide AfterRun, AwkwardRun, ChainShop, Written, PlainValues, BuildSearchText;
    AwkwardShop(cs);
    AwkwardText(cs);
    AwkwardRow(cs);
  }

  lemma AwkwardRow(cs: Casing)
    ensures var row := Written(cs, ChainShop(1), PlainValues(AWKWARD_NAME, AWKWARD_SLUG, []));
            && row.name == AWKWARD_NAME && row.sku == "x" && row.isActive && row.oemNormalized == None
            && row.searchText == BuildSearchText(cs, SearchParts(AWKWARD_NAME, "x", None, None, None))
  {
    hide BuildSearchText;
  }

  /** Neither the text nor a key leads to the row. */
  lemma AwkwardNotFound(cs: Casing, db: Collation, row: Candidate)
    requires cs.Lawful() && cs.Ascii() && db.Lawful()
    requires row.product.sku == "x" && row.product.oemNormalized == None && row.product.searchText == AWKWARD_TEXT
    ensures !TermFound(cs, db, AWKWARD_NAME, row)
    ensures !Matches(db.alike, "%" + SearchForm(cs, AWKWARD_NAME) + "%", row.product.searchText)
  {
    hide Matches, SearchForm, OemKey, FindsItself, Squeezed, NormalizePersian;
    AwkwardShape(cs);
    AwkwardKey(cs);
    AwkwardPattern(db);
    assert db.upper("x") == "X" by { assert db.upper(['x']) == [AsciiUpper('x')]; }
  }

  lemma AwkwardSearch(cs: Casing, db: Collation, similar: (string, string) -> bool, table: map<int, Candidate>)
    requires cs.Lawful() && cs.Ascii()
    ensures Search(cs, db, similar, table, Some(AWKWARD_NAME)) == Found(Name, NameHits(db, similar, AWKWARD_NAME, table))
  {
    hide SearchForm, OemKey, Squeezed, NormalizePersian, NameHits, PartHits, Trim;
    AwkwardShape(cs);
    AwkwardKey(cs);
    assert Trim(AWKWARD_NAME) == AWKWARD_NAME by { AwkwardTrimmed(); }
  }

  lemma AwkwardTrimmed()
    ensures Trim(AWKWARD_NAME) == AWKWARD_NAME
  {
    TrimIdentity(AWKWARD_NAME);
  }

  /**
   A product named a\b, created by an accepted form, is not found by its own full
   name: the admin list misses it under every lawful casing and collation, and the
   public search has it only if the trigram operator happens to find it similar.
   */
  lemma BackslashMissed(cs: Casing, db: Collation, similar: (string, string) -> bool, table: map<int, Candidate>, id: int)
    requires cs.Lawful() && cs.Ascii() && db.Lawful()
    requires id in table && OnShow(table[id])
    requires var s := AfterRun(cs, EMPTY_SHOP, AwkwardRun()); 1 in s.products && table[id].product == s.products[1]
    ensures table[id].product.name == AWKWARD_NAME
    ensures !AdminWanted(cs, db, Filters(None, None, None, None, None, None, None, Some(AWKWARD_NAME)), table[id])
    ensures var found := Search(cs, db, similar, table, Some(AWKWARD_NAME));
            found.matchedBy == Name && (id in found.hits <==> similar(AWKWARD_TEXT, AWKWARD_NAME))
  {
    hide Matches, SearchForm, AfterRun, TermFound, Search, AwkwardRun;
    AwkwardStored(cs);
    AwkwardShape(cs);
    AwkwardNotFound(cs, db, table[id]);
    AwkwardSearch(cs, db, similar, table);
  }
}
