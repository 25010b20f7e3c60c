/**
 Persian slugs, part-number keys and the search text of a product.
 */
module Slug {
  import opened Wrappers
  import opened JsText
  import opened Format

  const SLUG_MAX: nat := 200

  /** A character slugify lets through: Arabic block, a-z, 0-9, dash. */
  predicate Allowed(c: char) {
    IsArabic(c) || 'a' <= c <= 'z' || IsDigit(c) || c == '-'
  }

  predicate Disallowed(c: char) {
    !Allowed(c)
  }

  predicate IsDash(c: char) {
    c == '-'
  }

  /** replace(/^-|-$/g, ''): at most one dash at either end. */
  function DropEndDashes(s: string): string {
    var t := if StartsWith(IsDash, s) then s[1..] else s;
    if EndsWith(IsDash, t) then t[..|t| - 1] else t
  }

  /** The three dash rewrites of slugify. */
  function DashWords(s: string): string {
    DropEndDashes(Runs(IsDash, '-', Runs(Disallowed, '-', s)))
  }

  function Slugify(cs: Casing, value: string): string {
    DashWords(cs.ToLower(NormalizePersian(value)))
  }

  lemma DropEndDashesShape(s: string)
    requires Sparse(IsDash, s)
    ensures var r := DropEndDashes(s);
            Sparse(IsDash, r) && !StartsWith(IsDash, r) && !EndsWith(IsDash, r) && forall c :: c in r ==> c in s
  {
    hide IsDash;
    var t := if StartsWith(IsDash, s) then s[1..] else s;
    if StartsWith(IsDash, s) {
      DropFirst(s);
    }
    if EndsWith(IsDash, t) {
      DropLast(t);
    }
  }

  lemma DropFirst(s: string)
    requires Sparse(IsDash, s) && StartsWith(IsDash, s)
    ensures Sparse(IsDash, s[1..]) && !StartsWith(IsDash, s[1..]) && forall c :: c in s[1..] ==> c in s
  {
    hide IsDash;
    var t := s[1..];
    assert forall i :: 0 <= i < |t| ==> t[i] == s[i + 1];
    assert |s| > 1 ==> !(IsDash(s[1 - 1]) && IsDash(s[1]));
    forall i | 0 < i < |t|
      ensures !(IsDash(t[i - 1]) && IsDash(t[i]))
    {
      assert !(IsDash(s[i + 1 - 1]) && IsDash(s[i + 1]));
    }
  }

  lemma DropLast(s: string)
    requires Sparse(IsDash, s) && !StartsWith(IsDash, s) && EndsWith(IsDash, s)
    ensures var t := s[..|s| - 1]; Sparse(IsDash, t) && !StartsWith(IsDash, t) && !EndsWith(IsDash, t) && forall c :: c in t ==> c in s
  {
    hide IsDash;
    var t := s[..|s| - 1];
    assert forall i :: 0 <= i < |t| ==> t[i] == s[i];
    assert |s| - 1 > 0;
    assert !IsDash(s[|s| - 1 - 1]);
  }

  /** Folded allowed characters, single dashes, none at the ends. */
  predicate SlugShaped(s: string) {
    && (forall c :: c in s ==> Allowed(c) && Folded(c))
    && Sparse(IsDash, s)
    && !StartsWith(IsDash, s)
    && !EndsWith(IsDash, s)
  }

  lemma AllowedStaysFolded(cs: Casing, base: string, c: char)
    requires cs.Lawful() && (forall d :: d in base ==> Folded(d))
    requires c in cs.ToLower(base) && Allowed(c)
    ensures Folded(c)
  {
    hide Folded, FlatMap, IsSpace;
    if IsArabic(c) {
      var d := FlatMapSource(cs.lower, base, c);
      assert c in cs.lower(d) && IsArabic(d);
    } else {
      LatinIsFolded(c);
    }
  }

  lemma LatinIsFolded(c: char)
    requires Allowed(c) && !IsArabic(c)
    ensures Folded(c)
  {
  }

  lemma DashWordsShape(s: string)
    ensures var r := DashWords(s);
            Sparse(IsDash, r) && !StartsWith(IsDash, r) && !EndsWith(IsDash, r)
    ensures forall c :: c in DashWords(s) ==> c == '-' || (c in s && Allowed(c))
  {
    var one := Runs(Disallowed, '-', s);
    RunsChars(Disallowed, '-', s);
    RunsChars(IsDash, '-', one);
    RunsSparse(IsDash, '-', one);
    DropEndDashesShape(Runs(IsDash, '-', one));
  }

  lemma SlugifyShape(cs: Casing, value: string)
    requires cs.Lawful()
    ensures SlugShaped(Slugify(cs, value))
  {
    hide Casing.Lawful, NormalizePersian, DashWords, IsArabic;
    var base := NormalizePersian(value);
    var low := cs.ToLower(base);
    var r := DashWords(low);
    assert forall d :: d in base ==> Folded(d) by { NormalizedShape(value); }
    DashWordsShape(low);
    assert Folded('-');
    forall c | c in r
      ensures Allowed(c) && Folded(c)
    {
      if c != '-' {
        assert c in cs.ToLower(base);
        AllowedStaysFolded(cs, base, c);
      }
    }
    assert Slugify(cs, value) == r;
  }

  /** Slugging leaves a string alone exactly when it is already a slug (or empty). */
  lemma SlugifyFixed(cs: Casing, s: string)
    requires cs.Lawful()
    ensures Slugify(cs, s) == s <==> SlugShaped(s)
  {
    hide SlugShaped, Slugify;
    SlugifyShape(cs, s);
    if SlugShaped(s) {
      SlugStays(cs, s);
    }
  }

  lemma SlugStays(cs: Casing, s: string)
    requires cs.Lawful() && SlugShaped(s)
    ensures Slugify(cs, s) == s
  {
    hide DashWords, Squeezed, NormalizePersian;
    assert NormalizePersian(s) == s by { SlugIsNormal(s); }
    assert cs.ToLower(s) == s by { FlatMapIdentity(cs.lower, s); }
    assert DashWords(s) == s by { SlugIsDashed(s); }
  }

  lemma SlugIsNormal(s: string)
    requires SlugShaped(s)
    ensures NormalizePersian(s) == s
  {
    FlatMapIdentity(FoldLetter, s);
    assert forall c :: c in s ==> !IsSpace(c);
    assert Squeezed(s);
    SqueezeFixed(s);
  }

  lemma SlugIsDashed(s: string)
    requires SlugShaped(s)
    ensures DashWords(s) == s
  {
    hide Folded;
    RunsIdentity(Disallowed, '-', s);
    RunsIdentity(IsDash, '-', s);
  }

  lemma SlugifyIdempotent(cs: Casing, value: string)
    requires cs.Lawful()
    ensures Slugify(cs, Slugify(cs, value)) == Slugify(cs, value)
  {
    SlugifyShape(cs, value);
    SlugifyFixed(cs, Slugify(cs, value));
  }

  // ------------------------------------------------- a slug is its words

  /** Between the words of a slug: everything but Arabic-block characters, a-z and 0-9. */
  predicate BetweenWords(c: char) {
    !('\U{600}' <= c <= '\U{6FF}' || 'a' <= c <= 'z' || '0' <= c <= '9')
  }

  lemma DashOrDisallowed(c: char)
    ensures BetweenWords(c) <==> Disallowed(c) || IsDash(c)
  {
  }

  /** The two run rewrites together are one. */
  lemma {:induction false} TwoRuns(s: string)
    ensures Runs(IsDash, '-', Runs(Disallowed, '-', s)) == Runs(BetweenWords, '-', s)
  {
    hide Disallowed, BetweenWords;
    if s != [] {
      var t := s[1..];
      TwoRuns(t);
      DashOrDisallowed(s[0]);
      var inner := Runs(Disallowed, '-', t);
      RunsHead(Disallowed, '-', t);
      assert IsDash('-');
      if |s| > 1 {
        DashOrDisallowed(s[1]);
        assert t[0] == s[1];
      }
      if Disallowed(s[0]) && |s| > 1 && Disallowed(s[1]) {
        assert Runs(Disallowed, '-', s) == inner;
      } else {
        var c := if Disallowed(s[0]) then '-' else s[0];
        assert Runs(Disallowed, '-', s) == [c] + inner;
        assert ([c] + inner)[1..] == inner;
      }
    }
  }

  /** A slug is the words of the lower-cased normal form, joined by single dashes. */
  lemma SlugIsItsWords(cs: Casing, value: string)
    ensures Slugify(cs, value) == Join(Pieces(BetweenWords, cs.ToLower(NormalizePersian(value))), "-")
  {
    hide NormalizePersian, FlatMap;
    DashWordsAreWords(cs.ToLower(NormalizePersian(value)));
  }

  lemma DashWordsAreWords(s: string)
    ensures DashWords(s) == Join(Pieces(BetweenWords, s), "-")
  {
    hide Pieces, Runs, Join, Disallowed;
    var words := Pieces(BetweenWords, s);
    var j := Join(words, "-");
    TwoRuns(s);
    RunsOfPieces(BetweenWords, '-', s);
    PieceShape(BetweenWords, s);
    assert ['-'] == "-";
    var lead := if StartsWith(BetweenWords, s) then "-" else "";
    var tail := if EndsWith(BetweenWords, s) && words != [] then "-" else "";
    if words == [] {
      JoinNothing("-");
    } else {
      JoinEnds(words, "-");
      var last := words[|words| - 1];
      assert words[0][0] in words[0] && last[|last| - 1] in last;
      assert !IsDash(j[0]) && !IsDash(j[|j| - 1]);
    }
    DropsAround(lead, j, tail);
  }

  lemma DropsAround(lead: string, j: string, tail: string)
    requires (lead == "" || lead == "-") && (tail == "" || (tail == "-" && j != ""))
    requires j != "" ==> !IsDash(j[0]) && !IsDash(j[|j| - 1])
    ensures DropEndDashes(lead + j + tail) == j
  {
    var s := lead + j + tail;
    assert lead == "-" ==> s[0] == '-' && s[1..] == j + tail;
    assert lead == "" ==> s == j + tail;
    assert (j + tail)[..|j|] == j;
  }

  /** A slug from the address bar, before it reaches the database. */
  function NormalizeSlugParam(cs: Casing, value: Option<string>): string {
    match value
    case None => ""
    case Some(s) => if |s| > SLUG_MAX then "" else Slugify(cs, s)
  }

  predicate IsValidSlug(cs: Casing, value: Option<string>) {
    value.Some? && 0 < |value.value| <= SLUG_MAX && Slugify(cs, value.value) == value.value
  }

  /** A stored slug is found again under every spelling that normalises like it. */
  lemma SlugParamReachesRow(cs: Casing, slug: string, typed: string)
    requires cs.Lawful() && IsValidSlug(cs, Some(slug))
    ensures NormalizeSlugParam(cs, Some(slug)) == slug
    ensures |typed| <= SLUG_MAX && NormalizePersian(typed) == NormalizePersian(slug)
            ==> NormalizeSlugParam(cs, Some(typed)) == slug
    ensures IsValidSlug(cs, Some(slug)) <==> 0 < |slug| <= SLUG_MAX && SlugShaped(slug)
  {
    SlugifyFixed(cs, slug);
  }

  // ------------------------------------------------- part numbers

  predicate IsKeyChar(c: char) {
    'A' <= c <= 'Z' || IsDigit(c)
  }

  function KeepKeyChar(c: char): string {
    if IsKeyChar(c) then [c] else []
  }

  /** normalizeOem before the empty check: upper-case letters and digits only. */
  function OemKey(cs: Casing, value: string): string {
    FlatMap(KeepKeyChar, cs.ToUpper(NormalizePersian(value)))
  }

  function NormalizeOem(cs: Casing, value: Option<string>): Option<string> {
    if value.None? then None
    else if OemKey(cs, value.value) == "" then None
    else Some(OemKey(cs, value.value))
  }

  /** What one raw character contributes to the key. */
  function KeyOf(cs: Casing, s: string): string {
    FlatMap(KeepKeyChar, cs.ToUpper(s))
  }

  lemma KeyOfConcat(cs: Casing, a: string, b: string)
    ensures KeyOf(cs, a + b) == KeyOf(cs, a) + KeyOf(cs, b)
  {
    FlatMapConcat(cs.upper, a, b);
    FlatMapConcat(KeepKeyChar, cs.ToUpper(a), cs.ToUpper(b));
  }

  lemma KeyOfSpace(cs: Casing, c: char)
    requires cs.Lawful() && IsSpace(c)
    ensures KeyOf(cs, [c]) == []
  {
    FlatMapIdentity(cs.upper, [c]);
    assert cs.ToUpper([c]) == [c];
    assert FlatMap(KeepKeyChar, [c]) == KeepKeyChar(c) + FlatMap(KeepKeyChar, []);
  }

  lemma {:induction false} KeyOfRuns(cs: Casing, s: string)
    requires cs.Lawful()
    ensures KeyOf(cs, Runs(IsSpace, ' ', s)) == KeyOf(cs, s)
  {
    hide KeyOf, Casing.Lawful;
    if s != [] {
      var t := Runs(IsSpace, ' ', s[1..]);
      KeyOfRuns(cs, s[1..]);
      assert s == [s[0]] + s[1..];
      KeyOfConcat(cs, [s[0]], s[1..]);
      KeyOfConcat(cs, [s[0]], t);
      KeyOfConcat(cs, [' '], t);
      KeyOfSpace(cs, ' ');
      if IsSpace(s[0]) {
        KeyOfSpace(cs, s[0]);
      }
    }
  }

  lemma {:induction false} KeyOfBlank(cs: Casing, s: string)
    requires cs.Lawful() && forall c :: c in s ==> IsSpace(c)
    ensures KeyOf(cs, s) == []
  {
    if s != [] {
      assert s == [s[0]] + s[1..];
      KeyOfConcat(cs, [s[0]], s[1..]);
      KeyOfSpace(cs, s[0]);
      KeyOfBlank(cs, s[1..]);
    }
  }

  lemma KeyOfTrim(cs: Casing, s: string)
    requires cs.Lawful()
    ensures KeyOf(cs, Trim(s)) == KeyOf(cs, s)
  {
    var a, b := TrimSplit(s);
    KeyOfConcat(cs, a, Trim(s) + b);
    KeyOfConcat(cs, Trim(s), b);
    KeyOfBlank(cs, a);
    KeyOfBlank(cs, b);
  }

  /** Whitespace collapsing and trimming never reach the key. */
  lemma OemKeyIsPerCharacter(cs: Casing, s: string)
    requires cs.Lawful()
    ensures OemKey(cs, s) == KeyOf(cs, FlatMap(FoldLetter, s))
  {
    var t := FlatMap(FoldLetter, s);
    KeyOfTrim(cs, Runs(IsSpace, ' ', t));
    KeyOfRuns(cs, t);
  }

  /** The key of a concatenation is the concatenation of the keys. */
  lemma OemKeyConcat(cs: Casing, a: string, b: string)
    requires cs.Lawful()
    ensures OemKey(cs, a + b) == OemKey(cs, a) + OemKey(cs, b)
  {
    OemKeyIsPerCharacter(cs, a);
    OemKeyIsPerCharacter(cs, b);
    OemKeyIsPerCharacter(cs, a + b);
    FlatMapConcat(FoldLetter, a, b);
    KeyOfConcat(cs, FlatMap(FoldLetter, a), FlatMap(FoldLetter, b));
  }

  lemma OemKeyChars(cs: Casing, s: string)
    ensures forall c :: c in OemKey(cs, s) ==> IsKeyChar(c)
  {
    forall c | c in OemKey(cs, s)
      ensures IsKeyChar(c)
    {
      var d := FlatMapSource(KeepKeyChar, cs.ToUpper(NormalizePersian(s)), c);
    }
  }

  lemma BlankHasNoKey(cs: Casing, s: string)
    requires cs.Lawful() && forall c :: c in s ==> IsSpace(c)
    ensures OemKey(cs, s) == []
  {
    hide OemKey, KeyOf, FlatMap, Casing.Lawful;
    BlankStays(s);
    OemKeyIsPerCharacter(cs, s);
    KeyOfBlank(cs, FlatMap(FoldLetter, s));
  }

  lemma {:induction false} BlankStays(s: string)
    requires forall c :: c in s ==> IsSpace(c)
    ensures forall c :: c in FlatMap(FoldLetter, s) ==> IsSpace(c)
  {
    hide IsSpace, FoldLetter;
    if s != [] {
      assert s[0] in s;
      SpaceFoldsToSpace(s[0]);
      BlankStays(s[1..]);
    }
  }

  lemma SpaceFoldsToSpace(c: char)
    requires IsSpace(c)
    ensures forall d :: d in FoldLetter(c) ==> IsSpace(d)
  {
  }

  lemma OemKeyTrim(cs: Casing, s: string)
    requires cs.Lawful()
    ensures OemKey(cs, Trim(s)) == OemKey(cs, s)
  {
    var a, b := TrimSplit(s);
    OemKeyConcat(cs, a, Trim(s) + b);
    OemKeyConcat(cs, Trim(s), b);
    BlankHasNoKey(cs, a);
    BlankHasNoKey(cs, b);
  }

  lemma AsciiIsFolded(c: char)
    requires c < 128 as char
    ensures FoldLetter(c) == [c]
  {
  }

  /** On ASCII a key keeps the letters, upper-cased, and the digits, and nothing else. */
  lemma OemKeyOfAscii(cs: Casing, c: char)
    requires cs.Lawful() && cs.Ascii() && c < 128 as char
    ensures OemKey(cs, [c]) == if 'a' <= c <= 'z' then [c - 32 as char]
                               else if 'A' <= c <= 'Z' || '0' <= c <= '9' then [c] else ""
    ensures OemKey(cs, "") == ""
  {
    hide NormalizePersian, FoldLetter;
    OemKeyIsPerCharacter(cs, [c]);
    BlankHasNoKey(cs, "");
    AsciiIsFolded(c);
    assert FlatMap(FoldLetter, [c]) == FoldLetter(c) + FlatMap(FoldLetter, [c][1..]);
    assert FlatMap(FoldLetter, [c]) == [c];
    assert cs.ToUpper([c]) == cs.upper(c) + cs.ToUpper([c][1..]);
    assert cs.ToUpper([c]) == [AsciiUpper(c)];
    assert FlatMap(KeepKeyChar, [AsciiUpper(c)]) == KeepKeyChar(AsciiUpper(c)) + FlatMap(KeepKeyChar, []);
  }

  // ------------------------------------------------- search text

  datatype SearchParts = SearchParts(
    name: string, sku: string, oemNumber: Option<string>,
    brandName: Option<string>, shortDescription: Option<string>)

  /** The lower-cased normal form under which text is stored and sought. */
  function SearchForm(cs: Casing, s: string): string {
    cs.ToLower(NormalizePersian(s))
  }

  /** filter(Boolean): absent and empty parts are dropped. */
  function Present(part: Option<string>): seq<string> {
    if part.None? || part.value == "" then [] else [part.value]
  }

  function SearchFields(cs: Casing, p: SearchParts): seq<string> {
    Present(Some(p.name)) + Present(Some(p.sku)) + Present(p.oemNumber)
    + Present(NormalizeOem(cs, p.oemNumber)) + Present(p.brandName) + Present(p.shortDescription)
  }

  function SearchForms(cs: Casing, fields: seq<string>): seq<string> {
    seq(|fields|, i requires 0 <= i < |fields| => SearchForm(cs, fields[i]))
  }

  function BuildSearchText(cs: Casing, p: SearchParts): string {
    Squeeze(Join(SearchForms(cs, SearchFields(cs, p)), " "))
  }

  lemma {:induction false} WordsOfJoin(parts: seq<string>)
    ensures Words(Join(parts, " ")) == WordsOfAll(parts)
  {
    hide IsSpace, Pieces;
    if parts == [] {
      NoPieces(IsSpace, "");
    } else if |parts| == 1 {
      assert parts[1..] == [];
      assert WordsOfAll(parts) == Words(parts[0]) + WordsOfAll([]);
    } else {
      var rest := Join(parts[1..], " ");
      WordsOfJoin(parts[1..]);
      BlankIsSpace();
      NoPieces(IsSpace, " ");
      PiecesConcat(IsSpace, parts[0] + " ", rest);
      PiecesConcat(IsSpace, parts[0], " ");
    }
  }

  function WordsOfAll(parts: seq<string>): seq<string> {
    if parts == [] then [] else Words(parts[0]) + WordsOfAll(parts[1..])
  }

  function Else(s: Option<string>, default: string): string {
    if s.Some? then s.value else default
  }

  /** The words one field contributes; an absent or empty field none. */
  function FieldWords(cs: Casing, field: Option<string>): seq<string> {
    Words(cs.ToLower(NormalizePersian(Else(field, ""))))
  }

  lemma {:induction false} WordsOfConcat(a: seq<string>, b: seq<string>)
    ensures WordsOfAll(a + b) == WordsOfAll(a) + WordsOfAll(b)
  {
    hide Words;
    if a == [] {
      assert a + b == b;
    } else {
      assert (a + b)[1..] == a[1..] + b;
      WordsOfConcat(a[1..], b);
    }
  }

  lemma PresentWords(cs: Casing, part: Option<string>)
    ensures WordsOfAll(SearchForms(cs, Present(part))) == FieldWords(cs, part)
  {
    hide Pieces;
    var forms := SearchForms(cs, Present(part));
    if part.None? || part.value == "" {
      assert forms == [];
      NothingToIndex(cs);
    } else {
      assert forms == [SearchForm(cs, part.value)] && forms[1..] == [];
      assert WordsOfAll(forms) == Words(forms[0]) + WordsOfAll([]);
    }
  }

  lemma NothingToIndex(cs: Casing)
    ensures SearchForm(cs, "") == "" && Words("") == []
  {
  }

  lemma FormsConcat(cs: Casing, a: seq<string>, b: seq<string>)
    ensures WordsOfAll(SearchForms(cs, a + b)) == WordsOfAll(SearchForms(cs, a)) + WordsOfAll(SearchForms(cs, b))
  {
    hide SearchForm, WordsOfAll;
    assert SearchForms(cs, a + b) == SearchForms(cs, a) + SearchForms(cs, b);
    WordsOfConcat(SearchForms(cs, a), SearchForms(cs, b));
  }

  /**
   The search text is exactly the words, one blank apart, of the name, the code, the
   part number, its key, the brand's name and the short description, in this order.
   */
  lemma SearchTextIsItsWords(cs: Casing, p: SearchParts)
    ensures BuildSearchText(cs, p)
            == Join(FieldWords(cs, Some(p.name)) + FieldWords(cs, Some(p.sku)) + FieldWords(cs, p.oemNumber)
                    + FieldWords(cs, if p.oemNumber.Some? then Some(OemKey(cs, p.oemNumber.value)) else None)
                    + FieldWords(cs, p.brandName) + FieldWords(cs, p.shortDescription), " ")
  {
    hide FieldWords, SearchForms, Present, Words, OemKey, WordsOfAll, Join;
    var a, b, c := Present(Some(p.name)), Present(Some(p.sku)), Present(p.oemNumber);
    var d, e, f := Present(NormalizeOem(cs, p.oemNumber)), Present(p.brandName), Present(p.shortDescription);
    SqueezeIsItsWords(Join(SearchForms(cs, SearchFields(cs, p)), " "));
    WordsOfJoin(SearchForms(cs, SearchFields(cs, p)));
    FormsConcat(cs, a + b + c + d + e, f);
    FormsConcat(cs, a + b + c + d, e);
    FormsConcat(cs, a + b + c, d);
    FormsConcat(cs, a + b, c);
    FormsConcat(cs, a, b);
    PresentWords(cs, Some(p.name));
    PresentWords(cs, Some(p.sku));
    PresentWords(cs, p.oemNumber);
    PresentWords(cs, NormalizeOem(cs, p.oemNumber));
    PresentWords(cs, p.brandName);
    PresentWords(cs, p.shortDescription);
    NoKeyNoWords(cs);
  }

  lemma NoKeyNoWords(cs: Casing)
    ensures FieldWords(cs, Some("")) == FieldWords(cs, None)
  {
  }

  lemma {:induction false} JoinContains(parts: seq<string>, sep: string, k: nat)
    requires k < |parts|
    ensures Infix(parts[k], Join(parts, sep))
  {
    var rest := Join(parts[1..], sep);
    if k == 0 {
      var tail := if |parts| == 1 then "" else sep + rest;
      assert Join(parts, sep) == "" + parts[0] + tail;
      InfixOfParts("", parts[0], tail);
    } else {
      JoinContains(parts[1..], sep, k - 1);
      assert Join(parts, sep) == (parts[0] + sep) + rest + "";
      InfixOfParts(parts[0] + sep, rest, "");
      InfixTransitive(parts[k], rest, Join(parts, sep));
    }
  }

  lemma FieldIsIndexed(cs: Casing, p: SearchParts, field: string)
    requires || field == p.name || field == p.sku || p.oemNumber == Some(field)
             || (p.oemNumber.Some? && field == OemKey(cs, p.oemNumber.value))
             || p.brandName == Some(field) || p.shortDescription == Some(field)
    ensures field != "" ==> field in SearchFields(cs, p)
  {
    hide OemKey;
  }

  /** A needle built from a piece of any indexed field occurs in the search text. */
  lemma PieceOccursInSearchText(cs: Casing, p: SearchParts, field: string, piece: string)
    requires cs.Lawful() && Infix(piece, field)
    requires || field == p.name || field == p.sku || p.oemNumber == Some(field)
             || (p.oemNumber.Some? && field == OemKey(cs, p.oemNumber.value))
             || p.brandName == Some(field) || p.shortDescription == Some(field)
    ensures Infix(SearchForm(cs, piece), BuildSearchText(cs, p))
  {
    hide SearchForm, BuildSearchText, SearchFields, OemKey;
    FieldIsIndexed(cs, p, field);
    if field == "" {
      assert piece == "";
      NothingToIndex(cs);
      InfixOfParts("", "", BuildSearchText(cs, p));
      assert "" + "" + BuildSearchText(cs, p) == BuildSearchText(cs, p);
    } else {
      IndexedPieceOccurs(cs, p, field, piece);
    }
  }

  lemma IndexedPieceOccurs(cs: Casing, p: SearchParts, field: string, piece: string)
    requires cs.Lawful() && field in SearchFields(cs, p) && Infix(piece, field)
    ensures Infix(SearchForm(cs, piece), BuildSearchText(cs, p))
  {
    var fields := SearchFields(cs, p);
    var k :| 0 <= k < |fields| && fields[k] == field;
    var forms := SearchForms(cs, fields);
    var needle := SearchForm(cs, piece);
    NormalizeKeepsInfix(piece, field);
    FlatMapInfix(cs.lower, NormalizePersian(piece), NormalizePersian(field));
    JoinContains(forms, " ", k);
    InfixTransitive(needle, forms[k], Join(forms, " "));
    SqueezeKeepsInfix(needle, Join(forms, " "));
    NormalizedShape(piece);
    LowerKeepsSqueezed(cs, NormalizePersian(piece));
    SqueezeFixed(needle);
  }
}
