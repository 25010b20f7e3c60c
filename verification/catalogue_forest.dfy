/**
 The category tree over whole runs of requests: when it stays a forest, and the
 run that shows the depth limit of the cycle check is reached exactly.
 */
module CatalogueForest {
  import opened Wrappers
  import opened JsText
  import opened Format
  import opened Slug
  import opened Validate
  import opened Schema
  import opened CatalogForm
  import opened CategoryForest
  import opened Catalogue
  import opened CatalogueRuns

  lemma SameParentsForest(t: Table, u: Table, id: Id)
    requires Forest(t) && OnlyRow(t, u, id) && u[id].parentId == t[id].parentId
    ensures Forest(u)
  {
    forall x | x in u
      ensures exists n: nat :: Rooted(u, x, n)
    {
      var n: nat :| Rooted(t, x, n);
      RootedInLarger(t, u, x, n);
    }
  }

  /** A saved edit keeps a forest unless the new parent stands below the row. */
  lemma UpdateForest(cs: Casing, s: Shop, id: int, b: CategoryBody)
    requires Forest(s.categories) && AfterCategoryUpdate(cs, s, id, b).reply == Saved
    ensures var parentId := CategoryParsed(cs, b).parentId;
            Forest(AfterCategoryUpdate(cs, s, id, b).shop.categories)
            <==> parentId.None? || !Above(s.categories, id, parentId.value)
  {
    hide CategoryParsed, CategoryErrors, CategoryChecks, CategorySlugFree, WouldCreateCycle, Forest, Above;
    var row := CategoryParsed(cs, b);
    var u := s.categories[id := row];
    if row.parentId.Some? {
      SetParentForest(s.categories, u, id, row.parentId.value);
    } else {
      ClearParentForest(s.categories, u, id);
    }
  }

  /** While chains have at most 100 rows, the form reports a cycle exactly when there would be one. */
  lemma CycleReported(t: Table, id: int, parentId: int, errors: Errors)
    requires Short(t) && id != 0 && parentId in t && parentId != 0 && parentId != id && ForParent !in errors
    ensures ParentTest(t, id, Some(parentId), errors)
            == if Above(t, id, parentId) then errors[ForParent := Cycle] else errors
  {
    hide WouldCreateCycle, Above;
    CycleCheckExact(t, id, parentId);
  }

  lemma RequestKeepsForest(cs: Casing, s: Shop, r: Request)
    requires Sound(cs, s) && Forest(s.categories) && Short(s.categories)
    ensures Forest(Handled(cs, s, r).shop.categories)
  {
    hide CategoryParsed, CategoryErrors, CategoryChecks, CategorySlugFree, WouldCreateCycle, Forest, Above, Short;
    hide BrandErrors, BrandFault, BrandInUse, BrandParsed, ProductErrors, ProductFault, ProductParsed, Written, StockCheck, OneOf;
    hide Sound, CategoryFault, CategoryInUse;
    var t := s.categories;
    match r
    case CategoryCreate(b) =>
      if Handled(cs, s, r).shop.categories != t {
        CreateForest(cs, s, b);
      }
    case CategoryUpdate(id, b) =>
      if AfterCategoryUpdate(cs, s, id, b).reply == Saved {
        UpdateForest(cs, s, id, b);
        SavedIsNotBelow(cs, s, id, b);
      }
    case CategorySetActive(id, wanted) =>
      if id in t {
        SameParentsForest(t, t[id := t[id].(isActive := wanted)], id);
      }
    case CategoryDelete(id, confirmed) =>
      if Handled(cs, s, r).shop.categories != t {
        DeleteForest(s, id);
      }
    case _ =>
  }

  lemma CreateForest(cs: Casing, s: Shop, b: CategoryBody)
    requires Sound(cs, s) && Forest(s.categories) && CategoryFault(s, s.nextCategory, CategoryParsed(cs, b)) == None
    ensures Forest(s.categories[s.nextCategory := CategoryParsed(cs, b)])
  {
    hide CategoryParsed, CategoryChecks, CategorySlugFree, Forest, Sound;
    Held(cs, s);
    AddForest(s.categories, s.nextCategory, CategoryParsed(cs, b));
  }

  lemma DeleteForest(s: Shop, id: int)
    requires Forest(s.categories) && !CategoryInUse(s, id)
    ensures Forest(s.categories - {id})
  {
    hide Forest;
    RemoveForest(s.categories, id);
  }

  lemma SavedIsNotBelow(cs: Casing, s: Shop, id: int, b: CategoryBody)
    requires Short(s.categories) && AfterCategoryUpdate(cs, s, id, b).reply == Saved
    ensures var parentId := CategoryParsed(cs, b).parentId;
            parentId.None? || !Above(s.categories, id, parentId.value)
  {
    hide CategoryParsed, CategoryChecks, CategorySlugFree, NoteAll, WouldCreateCycle, Above;
    var parentId := CategoryParsed(cs, b).parentId;
    var errors := ParentTest(s.categories, id, parentId, CategoryErrors(cs, b));
    assert errors == map[];
    assert ForParent !in errors;
    assert CategoryErrors(cs, b) == map[];
    ParentIdIsPositive(cs, b);
    if parentId.Some? {
      CycleCheckExact(s.categories, id, parentId.value);
    }
  }

  /**
   A run from an empty shop keeps every upward walk ending at a root, unless at
   some earlier point the forest had grown a chain of more than 100 rows.
   */
  lemma {:induction false} ForestRun(cs: Casing, run: seq<Request>)
    ensures Forest(AfterRun(cs, EMPTY_SHOP, run).categories)
            || exists k :: 0 <= k < |run|
                 && Forest(AfterRun(cs, EMPTY_SHOP, run[..k]).categories) && !Short(AfterRun(cs, EMPTY_SHOP, run[..k]).categories)
  {
    hide Handled, Forest, Short, Sound;
    if run == [] {
      assert Forest(EMPTY_SHOP.categories) by { EmptyForest(); }
    } else {
      var n := |run| - 1;
      var before := AfterRun(cs, EMPTY_SHOP, run[..n]);
      ForestRun(cs, run[..n]);
      if Forest(before.categories) && Short(before.categories) {
        SoundRun(cs, run[..n]);
        RequestKeepsForest(cs, before, run[n]);
      } else if !Forest(before.categories) {
        var k :| 0 <= k < n && Forest(AfterRun(cs, EMPTY_SHOP, run[..n][..k]).categories)
                 && !Short(AfterRun(cs, EMPTY_SHOP, run[..n][..k]).categories);
        assert run[..n][..k] == run[..k];
      }
    }
  }

  lemma EmptyForest()
    ensures Forest(EMPTY_SHOP.categories)
  {
  }

  // --------------------------------------------------------- the bound is reached

  function LinkBody(k: nat, parentId: Option<int>): CategoryBody {
    CategoryBody(Some(LinkName(k)), Some(LinkName(k)), if parentId.None? then None else Some(PrintInt(parentId.value)),
                 None, None, Some("on"))
  }

  /** Creates n categories, each under the one before. */
  function GrowChain(n: nat): seq<Request> {
    if n == 0 then [] else GrowChain(n - 1) + [CategoryCreate(LinkBody(n, Link(n).parentId))]
  }

  /** Puts the first category under the last one. */
  function CloseChain(n: nat): Request {
    CategoryUpdate(1, LinkBody(1, Some(n)))
  }

  function ChainShop(n: nat): Shop {
    EMPTY_SHOP.(categories := Chain(n), nextCategory := n + 1)
  }

  lemma {:induction false} ShortDigits(k: nat)
    ensures k < 10 ==> |Digits(k)| <= 1
    ensures k < 1_000 ==> |Digits(k)| <= 3
    ensures k < 1_000_000 ==> |Digits(k)| <= 6
  {
    if k >= 10 {
      var a, b := k / 10, k / 100;
      assert |Digits(k)| == |Digits(a)| + 1;
      if a >= 10 {
        assert |Digits(a)| == |Digits(b)| + 1;
        ShortDigits(k / 1000);
        assert b >= 10 ==> |Digits(b)| == |Digits(k / 1000)| + 1;
      }
    }
  }

  lemma LinkNameIsSlug(k: nat)
    ensures SlugShaped(LinkName(k))
  {
    var s := LinkName(k);
    forall c | c in s
      ensures Allowed(c) && Folded(c) && !IsDash(c)
    {
      assert c == 'c' || c in Digits(k);
    }
    assert forall i :: 0 <= i < |s| ==> s[i] in s;
  }

  lemma LinkNameAccepted(cs: Casing, k: nat)
    requires cs.Lawful() && k < 1_000_000
    ensures RequiredText(Some(LinkName(k)), 2, 120) == Checked(LinkName(k), None)
    ensures SlugField(cs, Some(LinkName(k)), LinkName(k)) == Checked(LinkName(k), None)
  {
    hide SlugShaped, CleanText, Slugify, Digits;
    ShortDigits(k);
    LinkNameIsSlug(k);
    SlugIsCleanText(LinkName(k));
    SlugifyFixed(cs, LinkName(k));
  }

  lemma DifferentNames(j: nat, k: nat)
    requires j != k
    ensures LinkName(j) != LinkName(k)
  {
    DigitsRoundTrip(j);
    DigitsRoundTrip(k);
    assert LinkName(j)[1..] == Digits(j) && LinkName(k)[1..] == Digits(k);
  }

  lemma ParentAccepted(n: nat)
    requires 1 <= n < 1_000_000
    ensures IdRef(Some(PrintInt(n)), false) == Checked(Some(n), None)
    ensures IdRef(None, false) == Checked(None, None)
  {
    hide CleanNumeric, PrintInt, IntegerShaped, IntegerValue;
    PlainIntegerReread(n);
    assert CleanNumeric(None) == "" by { NothingTyped(); }
  }

  lemma NothingTyped()
    ensures CleanNumeric(None) == ""
  {
  }

  /** The fields of the form that no link fills in, and the ticked box. */
  lemma UnfilledFields(cs: Casing)
    requires cs.Lawful()
    ensures OptionalText(None, 2000, true) == Checked(None, None)
    ensures Integer(None, false, Some(SORT_ORDER_MIN), Some(SORT_ORDER_MAX)) == Checked(None, None)
    ensures Checkbox(cs, Some("on"))
  {
    NothingTyped();
    CheckboxAgain(cs, true);
  }

  lemma LinkParsed(cs: Casing, k: nat, parentId: Option<int>)
    requires cs.Lawful() && k < 1_000_000 && (parentId.Some? ==> 1 <= parentId.value < 1_000_000)
    ensures CategoryErrors(cs, LinkBody(k, parentId)) == map[]
    ensures CategoryParsed(cs, LinkBody(k, parentId)) == Link(k).(parentId := parentId)
  {
    hide RequiredText, SlugField, IdRef, Integer, OptionalText, Checkbox, PrintInt, LinkName, NoteAll;
    LinkNameAccepted(cs, k);
    ParentAccepted(if parentId.Some? then parentId.value else 1);
    UnfilledFields(cs);
    NoErrorsMeansAllPass(CategoryVerdicts(cs, LinkBody(k, parentId)));
  }

  lemma LinkFits(cs: Casing, n: nat, id: nat, parentId: Option<int>)
    requires cs.Lawful() && 1 <= id < 1_000_000
    requires parentId.Some? ==> 1 <= parentId.value <= n && n < 1_000_000 && parentId.value != id
    ensures CategoryFault(ChainShop(n), id, Link(id).(parentId := parentId)) == None
  {
    hide NotBlank, LinkName, CategoryParsed, CategoryChecks, NoteAll;
    LinkParsed(cs, id, parentId);
    AcceptedCategoryMeetsChecks(cs, LinkBody(id, parentId), id);
    forall x | x in Chain(n) && x != id
      ensures Chain(n)[x].slug != LinkName(id)
    {
      DifferentNames(x, id);
    }
  }

  lemma OneLink(cs: Casing, n: nat)
    requires cs.Lawful() && 1 <= n < 1_000_000
    ensures AfterCategoryCreate(cs, ChainShop(n - 1), LinkBody(n, Link(n).parentId)).shop == ChainShop(n)
  {
    hide CategoryErrors, CategoryParsed, CategoryFault, LinkName, LinkBody;
    LinkParsed(cs, n, Link(n).parentId);
    LinkFits(cs, n - 1, n, Link(n).parentId);
    assert Chain(n - 1)[n := Link(n)] == Chain(n);
  }

  lemma RunOfNothing(cs: Casing)
    ensures AfterRun(cs, EMPTY_SHOP, []) == EMPTY_SHOP
  {
  }

  lemma {:induction false} GrownChain(cs: Casing, n: nat)
    requires cs.Lawful() && n < 1_000_000
    ensures AfterRun(cs, EMPTY_SHOP, GrowChain(n)) == ChainShop(n)
  {
    hide AfterCategoryCreate, LinkBody, AfterRun, Casing.Lawful, Link;
    if n > 0 {
      GrownChain(cs, n - 1);
      RunAppend(cs, EMPTY_SHOP, GrowChain(n - 1), CategoryCreate(LinkBody(n, Link(n).parentId)));
      OneLink(cs, n);
    } else {
      assert AfterRun(cs, EMPTY_SHOP, []) == EMPTY_SHOP by { RunOfNothing(cs); }
      assert Chain(0) == map[];
    }
  }

  lemma ChainClosed(cs: Casing, n: nat)
    requires cs.Lawful() && 2 <= n < 1_000_000
    ensures var step := Handled(cs, ChainShop(n), CloseChain(n));
            && (step.reply == Saved <==> n > MAX_DEPTH)
            && (Forest(step.shop.categories) <==> n <= MAX_DEPTH)
  {
    hide CategoryErrors, CategoryParsed, CategoryFault, LinkName, LinkBody, WouldCreateCycle, Forest, Above, Short, Rooted;
    var s := ChainShop(n);
    var b := LinkBody(1, Some(n));
    var errors := ParentTest(s.categories, 1, Some(n), map[]);
    LinkParsed(cs, 1, Some(n));
    LinkFits(cs, n, 1, Some(n));
    ChainBound(n);
    assert CategoryParsed(cs, b).parentId == Some(n);
    if n > MAX_DEPTH {
      assert AfterCategoryUpdate(cs, s, 1, b).reply == Saved;
      UpdateForest(cs, s, 1, b);
    } else {
      assert ForParent in errors;
    }
  }

  /**
   Growing a chain of n categories and then moving the first under the last: the
   forms are all accepted, and the last one is refused exactly while n <= 100.
   With 101 rows the cycle is saved.
   */
  lemma DeepChainCloses(cs: Casing, n: nat)
    requires cs.Lawful() && 2 <= n < 1_000_000
    ensures Handled(cs, AfterRun(cs, EMPTY_SHOP, GrowChain(n)), CloseChain(n)).reply == Saved <==> n > 100
    ensures Forest(AfterRun(cs, EMPTY_SHOP, GrowChain(n) + [CloseChain(n)]).categories) <==> n <= 100
  {
    hide Handled, Forest, CloseChain, ChainShop;
    GrownChain(cs, n);
    ChainClosed(cs, n);
    var run := GrowChain(n) + [CloseChain(n)];
    assert run[..|run| - 1] == GrowChain(n);
  }

  // --------------------------------------------------------- the next identity value as parent

  lemma LinkUnderOne(cs: Casing, id: int)
    requires cs.Lawful()
    ensures CategoryErrors(cs, LinkBody(1, Some(1))) == map[]
    ensures CategoryParsed(cs, LinkBody(1, Some(1))).parentId == Some(1)
    ensures CategoryChecks(id, CategoryParsed(cs, LinkBody(1, Some(1)))) <==> id != 1
  {
    hide NoteAll, CategoryVerdicts, CategoryParsed, CategoryChecks, LinkName, LinkBody;
    LinkParsed(cs, 1, Some(1));
    AcceptedCategoryMeetsChecks(cs, LinkBody(1, Some(1)), id);
  }

  /**
   On an empty shop an accepted form for a category under "1" trips the CHECK. The
   attempt used up identity 1, so the same form sent again names a missing parent.
   */
  lemma OwnIdentityAsParent(cs: Casing)
    requires cs.Lawful()
    ensures var r := CategoryCreate(LinkBody(1, Some(1)));
            && CategoryErrors(cs, r.category) == map[]
            && Handled(cs, EMPTY_SHOP, r).reply == Rejected(CheckFailed)
            && Handled(cs, Handled(cs, EMPTY_SHOP, r).shop, r).reply == Rejected(FkMissing)
  {
    hide CategoryErrors, CategoryParsed, CategoryChecks, LinkBody;
    LinkUnderOne(cs, 1);
    LinkUnderOne(cs, 2);
  }
}
