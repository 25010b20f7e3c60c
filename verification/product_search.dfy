/**
 What the two product searches find: nothing is missed by name, and part numbers
 are matched by prefix whatever the separators and digits they are typed with.
 */
module ProductSearch {
  import opened Wrappers
  import opened JsText
  import opened Format
  import opened Slug
  import opened Schema
  import opened SqlLike
  import opened ProductFilter
  import Catalogue
  import CatalogueRuns

  datatype MatchedBy = NoTerm | PartNumber | Name

  datatype Found = Found(matchedBy: MatchedBy, hits: set<int>)

  const MIN_KEY: nat := 4

  predicate PartHit(db: Collation, key: string, row: Candidate) {
    && OnShow(row)
    && ((row.product.oemNormalized.Some?
         && (row.product.oemNormalized.value == key || Matches(Equal, key + "%", row.product.oemNormalized.value)))
        || db.upper(row.product.sku) == key)
  }

  /** similar is the trigram operator, left open. */
  predicate NameHit(db: Collation, similar: (string, string) -> bool, needle: string, row: Candidate) {
    && OnShow(row)
    && (Matches(db.alike, "%" + needle + "%", row.product.searchText) || similar(row.product.searchText, needle))
  }

  function PartHits(db: Collation, key: string, table: map<int, Candidate>): set<int> {
    set id | id in table && PartHit(db, key, table[id])
  }

  function NameHits(db: Collation, similar: (string, string) -> bool, needle: string, table: map<int, Candidate>): set<int> {
    set id | id in table && NameHit(db, similar, needle, table[id])
  }

  /** search(), before ordering and paging. */
  function Search(cs: Casing, db: Collation, similar: (string, string) -> bool, table: map<int, Candidate>,
                  term: Option<string>): Found
  {
    var raw := if term.None? then "" else Trim(term.value);
    if raw == "" then Found(NoTerm, {})
    else
      var key := NormalizeOem(cs, Some(raw));
      if key.Some? && |key.value| >= MIN_KEY && exists id :: id in table && PartHit(db, key.value, table[id])
      then Found(PartNumber, PartHits(db, key.value, table))
      else Found(Name, NameHits(db, similar, SearchForm(cs, raw), table))
  }

  /**
   Which way a search goes, and what it finds: the part-number path exactly when the
   key has at least 4 characters and some visible row matches it; otherwise, unless
   the term is blank, the name path with all its hits.
   */
  lemma SearchExactly(cs: Casing, db: Collation, similar: (string, string) -> bool, table: map<int, Candidate>, term: Option<string>)
    ensures var raw := if term.Some? then Trim(term.value) else "";
            var key := OemKey(cs, raw);
            var found := Search(cs, db, similar, table, term);
            && (found.matchedBy == NoTerm <==> raw == "") && (raw == "" ==> found.hits == {})
            && (found.matchedBy == PartNumber <==>
                  raw != "" && |key| >= 4 && exists id :: id in table && PartHit(db, key, table[id]))
            && (found.matchedBy == PartNumber ==> forall id :: id in found.hits <==> id in table && PartHit(db, key, table[id]))
            && (found.matchedBy == Name ==>
                  forall id :: id in found.hits <==>
                    id in table && table[id].product.isActive && table[id].categoryActive
                    && (Matches(db.alike, "%" + cs.ToLower(NormalizePersian(raw)) + "%", table[id].product.searchText)
                        || similar(table[id].product.searchText, cs.ToLower(NormalizePersian(raw)))))
  {
    hide Trim, OemKey, NormalizePersian, FlatMap, PartHit, Matches;
  }

  // --------------------------------------------------------- part numbers

  /** A separator between the characters of a part number makes no difference, and nothing else is a separator. */
  lemma SeparatorBlind(cs: Casing, x: string, sep: string, y: string)
    requires cs.Lawful()
    ensures OemKey(cs, x + sep + y) == OemKey(cs, x + y) <==> OemKey(cs, sep) == ""
  {
    hide OemKey;
    OemKeyConcat(cs, x + sep, y);
    OemKeyConcat(cs, x, sep);
    OemKeyConcat(cs, x, y);
    assert OemKey(cs, x + sep + y) == OemKey(cs, x) + OemKey(cs, sep) + OemKey(cs, y);
    if OemKey(cs, sep) == "" {
      assert OemKey(cs, x) + OemKey(cs, sep) == OemKey(cs, x);
    }
  }

  /** Digits are folded first, so folding them beforehand changes nothing. */
  lemma {:induction false} FoldEnglishDigits(s: string)
    ensures FlatMap(FoldLetter, ToEnglishDigits(s)) == FlatMap(FoldLetter, s)
  {
    hide FoldLetter;
    if s != "" {
      FoldEnglishDigits(s[1..]);
      var d := EnglishDigitText(s[0]);
      assert ToEnglishDigits(s) == d + ToEnglishDigits(s[1..]);
      FlatMapConcat(FoldLetter, d, ToEnglishDigits(s[1..]));
      assert FlatMap(FoldLetter, d) == FoldLetter(d[0]) + FlatMap(FoldLetter, d[1..]);
      FoldsAsEnglish(s[0]);
    }
  }

  lemma FoldsAsEnglish(c: char)
    ensures FoldLetter(EnglishDigit(c)) == FoldLetter(c)
  {
  }

  /** ASCII, Persian and Arabic-Indic digits, mixed as one likes, give the same key. */
  lemma DigitScriptBlind(cs: Casing, s: string, t: string)
    requires cs.Lawful() && ToEnglishDigits(s) == ToEnglishDigits(t)
    ensures OemKey(cs, s) == OemKey(cs, t)
  {
    hide OemKey, ToEnglishDigits, KeyOf;
    FoldEnglishDigits(s);
    FoldEnglishDigits(t);
    OemKeyIsPerCharacter(cs, s);
    OemKeyIsPerCharacter(cs, t);
  }

  /** The part-number path finds exactly the visible rows whose key starts with the sought one, or whose code is it. */
  lemma PartHitMeans(cs: Casing, db: Collation, term: string, row: Candidate)
    ensures PartHit(db, OemKey(cs, term), row)
            <==> row.product.isActive && row.categoryActive
                 && ((row.product.oemNormalized.Some? && OemKey(cs, term) <= row.product.oemNormalized.value)
                     || db.upper(row.product.sku) == OemKey(cs, term))
  {
    hide OemKey, Matches;
    KeyIsPlain(cs, term);
    if row.product.oemNormalized.Some? {
      PrefixMeans(OemKey(cs, term), row.product.oemNormalized.value);
    }
  }

  /**
   Typing any first part of a stored part number, with any separators and digits,
   as long as it has four key characters, takes the part-number path and finds
   the product.
   */
  lemma PartNumberFound(cs: Casing, db: Collation, similar: (string, string) -> bool, table: map<int, Candidate>,
                        id: int, a: string, b: string, term: string)
    requires cs.Lawful() && id in table && OnShow(table[id])
    requires table[id].product.oemNumber == Some(a + b)
    requires table[id].product.oemNormalized == NormalizeOem(cs, table[id].product.oemNumber)
    requires OemKey(cs, term) == OemKey(cs, a) && |OemKey(cs, a)| >= MIN_KEY
    ensures Search(cs, db, similar, table, Some(term)) == Found(PartNumber, PartHits(db, OemKey(cs, term), table))
    ensures id in PartHits(db, OemKey(cs, term), table)
  {
    hide OemKey, Matches, Trim, PartHit;
    var row := table[id];
    OemKeyConcat(cs, a, b);
    OemKeyTrim(cs, term);
    BlankHasNoKey(cs, "");
    PartHitMeans(cs, db, term, row);
    assert id in PartHits(db, OemKey(cs, term), table);
  }

  // --------------------------------------------------------- names

  lemma NeedleHasNoEscape(cs: Casing, piece: string)
    requires cs.Lawful() && ESCAPE !in piece
    ensures ESCAPE !in SearchForm(cs, piece)
  {
    hide FoldLetter, IsSpace;
    var base := NormalizePersian(piece);
    NormalizeAddsNoEscape(piece);
    forall d | d in SearchForm(cs, piece)
      ensures d != ESCAPE
    {
      var c := FlatMapSource(cs.lower, base, d);
    }
  }

  lemma NormalizeAddsNoEscape(piece: string)
    ensures ESCAPE in NormalizePersian(piece) ==> ESCAPE in piece
  {
    hide Squeeze;
    var t := FlatMap(FoldLetter, piece);
    SqueezeIsSqueezed(t);
    if ESCAPE in NormalizePersian(piece) {
      var c := FlatMapSource(FoldLetter, piece, ESCAPE);
    }
  }

  /** The row's search text is what buildSearchText makes of its columns and its brand's name. */
  predicate Fresh(cs: Casing, row: ProductRow, brandName: Option<string>) {
    row.searchText == BuildSearchText(cs, Catalogue.Indexable(row, brandName))
  }

  /** A piece without a backslash makes a needle that finds itself, even when it contains % or _. */
  lemma PlainPieceFindsItself(cs: Casing, db: Collation, piece: string)
    requires cs.Lawful() && db.Lawful() && ESCAPE !in piece
    ensures FindsItself(db.alike, SearchForm(cs, piece))
  {
    hide FindsItself, SearchForm;
    NeedleHasNoEscape(cs, piece);
    FoundEverywhere(db.alike, SearchForm(cs, piece));
  }

  /** A text of the product that a search can ask for. */
  predicate IsFieldOf(cs: Casing, row: ProductRow, brandName: Option<string>, field: string) {
    || field == row.name || field == row.sku || row.oemNumber == Some(field)
    || (row.oemNumber.Some? && field == OemKey(cs, row.oemNumber.value))
    || brandName == Some(field) || row.shortDescription == Some(field)
  }

  /** Any contiguous piece of any indexed field is found in the search text, if its needle finds itself. */
  lemma PieceMatches(cs: Casing, db: Collation, row: ProductRow, brandName: Option<string>, field: string, piece: string)
    requires cs.Lawful() && db.Lawful() && Fresh(cs, row, brandName)
    requires IsFieldOf(cs, row, brandName, field) && Infix(piece, field)
    requires FindsItself(db.alike, SearchForm(cs, piece))
    ensures Matches(db.alike, "%" + SearchForm(cs, piece) + "%", row.searchText)
  {
    hide Matches, SearchForm, BuildSearchText, OemKey, Infix, FindsItself;
    PieceOccursInSearchText(cs, Catalogue.Indexable(row, brandName), field, piece);
    SelfFoundIsFound(db.alike, SearchForm(cs, piece), row.searchText);
  }

  /** The admin list with only a term finds the product. */
  lemma AdminListFinds(cs: Casing, db: Collation, row: Candidate, brandName: Option<string>, field: string, piece: string)
    requires cs.Lawful() && db.Lawful() && Fresh(cs, row.product, brandName)
    requires IsFieldOf(cs, row.product, brandName, field) && Infix(piece, field)
    requires FindsItself(db.alike, SearchForm(cs, piece))
    ensures AdminWanted(cs, db, Filters(None, None, None, None, None, None, None, Some(piece)), row)
  {
    hide Matches, SearchForm, BuildSearchText, IsFieldOf, Infix, OemKey, FindsItself;
    PieceMatches(cs, db, row.product, brandName, field, piece);
  }

  /** The public search finds it too whenever it takes the name path. */
  lemma SearchFinds(cs: Casing, db: Collation, similar: (string, string) -> bool, table: map<int, Candidate>,
                    id: int, brandName: Option<string>, field: string, piece: string)
    requires cs.Lawful() && db.Lawful() && id in table && OnShow(table[id]) && Fresh(cs, table[id].product, brandName)
    requires IsFieldOf(cs, table[id].product, brandName, field)
    requires Infix(piece, field) && FindsItself(db.alike, SearchForm(cs, Trim(piece)))
    requires Trim(piece) != ""
    requires |OemKey(cs, piece)| < 4 || forall other :: other in table ==> !PartHit(db, OemKey(cs, piece), table[other])
    ensures var found := Search(cs, db, similar, table, Some(piece)); found.matchedBy == Name && id in found.hits
  {
    hide Matches, SearchForm, BuildSearchText, IsFieldOf, Infix, OemKey, Trim, PartHit, Fresh, FindsItself;
    OemKeyTrim(cs, piece);
    TrimOccurs(piece);
    InfixTransitive(Trim(piece), piece, field);
    PieceMatches(cs, db, table[id].product, brandName, field, Trim(piece));
  }

  lemma TrimOccurs(s: string)
    ensures Infix(Trim(s), s)
  {
    var a, b := TrimSplit(s);
    assert s == a + Trim(s) + b;
    InfixOfParts(a, Trim(s), b);
  }

  /**
   After any run of catalogue requests, every piece of any indexed field, the
   brand's current name included, finds its product in the admin list, if the
   needle made from it finds itself.
   */
  lemma EveryProductCanBeFound(cs: Casing, db: Collation, run: seq<Catalogue.Request>,
                               id: int, row: Candidate, field: string, piece: string)
    requires cs.Lawful() && db.Lawful() && FindsItself(db.alike, SearchForm(cs, piece))
    requires var s := Catalogue.AfterRun(cs, Catalogue.EMPTY_SHOP, run);
             var r := row.product;
             && id in s.products && r == s.products[id] && Infix(piece, field)
             && (field == r.name || field == r.sku || r.oemNumber == Some(field)
                 || (r.oemNumber.Some? && field == OemKey(cs, r.oemNumber.value))
                 || (r.brandId.Some? && r.brandId.value in s.brands && s.brands[r.brandId.value].name == field)
                 || r.shortDescription == Some(field))
    ensures AdminWanted(cs, db, Filters(None, None, None, None, None, None, None, Some(piece)), row)
  {
    hide Matches, SearchForm, BuildSearchText, Infix, OemKey, AdminWanted, FindsItself, Catalogue.AfterRun;
    var s := Catalogue.AfterRun(cs, Catalogue.EMPTY_SHOP, run);
    CatalogueRuns.SoundRun(cs, run);
    CatalogueRuns.Held(cs, s);
    AdminListFinds(cs, db, row, Catalogue.BrandNameFor(s.brands, row.product.brandId), field, piece);
  }

  /** The same for part numbers in the public search, whatever else the joined table holds. */
  lemma EveryPartNumberCanBeFound(cs: Casing, db: Collation, similar: (string, string) -> bool, run: seq<Catalogue.Request>,
                                  table: map<int, Candidate>, id: int, a: string, b: string, term: string)
    requires cs.Lawful() && id in table && OnShow(table[id])
    requires var s := Catalogue.AfterRun(cs, Catalogue.EMPTY_SHOP, run);
             id in s.products && table[id].product == s.products[id] && s.products[id].oemNumber == Some(a + b)
    requires OemKey(cs, term) == OemKey(cs, a) && |OemKey(cs, a)| >= MIN_KEY
    ensures var found := Search(cs, db, similar, table, Some(term)); found.matchedBy == PartNumber && id in found.hits
  {
    hide Matches, SearchForm, BuildSearchText, OemKey, Catalogue.AfterRun, Search, PartHits, NormalizeOem;
    var s := Catalogue.AfterRun(cs, Catalogue.EMPTY_SHOP, run);
    CatalogueRuns.SoundRun(cs, run);
    CatalogueRuns.Held(cs, s);
    assert CatalogueRuns.IndexedRow(cs, s, s.products[id]);
    PartNumberFound(cs, db, similar, table, id, a, b, term);
  }
}
