/**
 The form checks. Every check returns a value and, when it is not satisfied,
 the problem; none of them ever fails outright.
 */
module Validate {
  import opened Wrappers
  import opened JsText
  import opened Format
  import opened Slug

  /** A scalar form value: None when the browser sent nothing. */
  type Raw = Option<string>

  const MONEY_MAX: int := 999_999_999_999
  const STOCK_MAX: int := 1_000_000
  const WEIGHT_MAX: int := 1_000_000
  const SORT_ORDER_MIN: int := -10_000
  const SORT_ORDER_MAX: int := 10_000

  datatype Problem =
    | Missing
    | TooShort
    | TooLong
    | NotInteger
    | UnsafeInteger
    | BelowMinimum
    | AboveMaximum
    | NotAllowed
    | NoSlug
    | SaleNotBelowPrice
    | TooManyRows
    | SpecKeyTooLong
    | SpecValueTooLong(key: string)
    | OwnParent
    | Cycle

  datatype Checked<+T> = Checked(value: T, error: Option<Problem>)

  // ------------------------------------------------------------ cleaners

  function CleanText(raw: Raw): string {
    if raw.None? then "" else Squeeze(raw.value)
  }

  lemma CleanTextShape(raw: Raw)
    ensures Squeezed(CleanText(raw))
    ensures CleanText(Some(CleanText(raw))) == CleanText(raw)
  {
    if raw.Some? {
      SqueezeIsSqueezed(raw.value);
    }
    SqueezeFixed(CleanText(raw));
  }

  predicate IsLineEnd(c: char) {
    c == '\n' || c == '\r' || c == '\U{2028}' || c == '\U{2029}'
  }

  predicate IsBlank(c: char) {
    c == ' ' || c == '\t'
  }

  /** replace(/\r\n?/g, '\n') */
  function UnifyNewlines(s: string): string {
    if s == [] then []
    else if s[0] != '\r' then [s[0]] + UnifyNewlines(s[1..])
    else if |s| > 1 && s[1] == '\n' then ['\n'] + UnifyNewlines(s[2..])
    else ['\n'] + UnifyNewlines(s[1..])
  }

  /** replace(/[ \t]+$/gm, '') */
  function StripLineEnds(s: string): string {
    if s == [] then []
    else
      var t := StripLineEnds(s[1..]);
      if IsBlank(s[0]) && (t == [] || IsLineEnd(t[0])) then t else [s[0]] + t
  }

  predicate ThreeNewlines(s: string) {
    |s| >= 3 && s[0] == '\n' && s[1] == '\n' && s[2] == '\n'
  }

  /** replace(/\n{3,}/g, '\n\n') */
  function CapNewlines(s: string): string {
    if s == [] then []
    else if ThreeNewlines(s) then CapNewlines(s[1..])
    else [s[0]] + CapNewlines(s[1..])
  }

  function CleanMultiline(raw: Raw): string {
    if raw.None? then "" else Trim(CapNewlines(StripLineEnds(UnifyNewlines(raw.value))))
  }

  /** Every blank is followed by something other than a line end. */
  predicate NoTrailingBlanks(s: string) {
    forall i :: 0 <= i < |s| && IsBlank(s[i]) ==> i + 1 < |s| && !IsLineEnd(s[i + 1])
  }

  predicate NoThreeNewlines(s: string) {
    forall i :: 0 <= i < |s| ==> !ThreeNewlines(s[i..])
  }

  predicate MultilineClean(s: string) {
    '\r' !in s && NoTrailingBlanks(s) && NoThreeNewlines(s) && Trimmed(s)
  }

  lemma {:induction false} UnifiedHasNoReturn(s: string)
    ensures '\r' !in UnifyNewlines(s)
    decreases |s|
  {
    if s != [] {
      UnifiedHasNoReturn(s[1..]);
      if |s| > 1 {
        UnifiedHasNoReturn(s[2..]);
      }
    }
  }

  lemma {:induction false} StripShape(s: string)
    ensures NoTrailingBlanks(StripLineEnds(s))
    ensures forall c :: c in StripLineEnds(s) ==> c in s
  {
    if s != [] {
      StripShape(s[1..]);
      var t, r := StripLineEnds(s[1..]), StripLineEnds(s);
      if r != t {
        assert r == [s[0]] + t;
        assert forall i :: 0 < i < |r| ==> r[i] == t[i - 1];
      }
    }
  }

  lemma {:induction false} CapFirst(s: string)
    ensures s == [] <==> CapNewlines(s) == []
    ensures s != [] ==> CapNewlines(s)[0] == s[0]
  {
    if s != [] {
      CapFirst(s[1..]);
    }
  }

  lemma {:induction false} CapKeepsNoTrailingBlanks(s: string)
    requires NoTrailingBlanks(s)
    ensures NoTrailingBlanks(CapNewlines(s))
  {
    if s != [] {
      var rest := s[1..];
      assert forall i :: 0 <= i < |rest| ==> rest[i] == s[i + 1];
      CapKeepsNoTrailingBlanks(rest);
      CapFirst(rest);
      var t, r := CapNewlines(rest), CapNewlines(s);
      if !ThreeNewlines(s) {
        assert r == [s[0]] + t;
        assert forall i :: 0 < i < |r| ==> r[i] == t[i - 1];
      }
    }
  }

  lemma {:induction false} CapLeavesNoThreeNewlines(s: string)
    ensures NoThreeNewlines(CapNewlines(s))
  {
    if s != [] {
      var t, r := CapNewlines(s[1..]), CapNewlines(s);
      CapLeavesNoThreeNewlines(s[1..]);
      if !ThreeNewlines(s) {
        assert r == [s[0]] + t;
        CapSecond(s[1..]);
        CapFirst(s[1..]);
        forall i | 0 <= i < |r|
          ensures !ThreeNewlines(r[i..])
        {
          if i > 0 {
            assert r[i..] == t[i - 1..];
          }
        }
      }
    }
  }

  /** Two leading newlines in the result were there before. */
  lemma {:induction false} CapSecond(s: string)
    ensures var r := CapNewlines(s); |r| >= 2 && r[0] == '\n' && r[1] == '\n' ==> |s| >= 2 && s[0] == '\n' && s[1] == '\n'
  {
    if s != [] && !ThreeNewlines(s) {
      CapFirst(s[1..]);
    }
  }

  lemma {:induction false} CapChars(s: string)
    ensures forall c :: c in CapNewlines(s) ==> c in s
  {
    if s != [] {
      CapChars(s[1..]);
    }
  }

  lemma CleanMultilineShape(raw: Raw)
    ensures MultilineClean(CleanMultiline(raw))
  {
    if raw.Some? {
      var a := UnifyNewlines(raw.value);
      var b := StripLineEnds(a);
      var c := CapNewlines(b);
      UnifiedHasNoReturn(raw.value);
      StripShape(a);
      CapKeepsNoTrailingBlanks(b);
      CapLeavesNoThreeNewlines(b);
      CapChars(b);
      var i, j := TrimParts(c);
      var r := c[i..j];
      assert forall k :: 0 <= k < |r| ==> r[k] == c[i + k];
      forall k | 0 <= k < |r| && IsBlank(r[k])
        ensures k + 1 < |r| && !IsLineEnd(r[k + 1])
      {
        assert IsBlank(c[i + k]);
        assert IsSpace(r[k]);
      }
      forall k | 0 <= k < |r|
        ensures !ThreeNewlines(r[k..])
      {
        assert !ThreeNewlines(c[i + k..]);
      }
    }
  }

  lemma {:induction false} UnifyFixed(s: string)
    requires '\r' !in s
    ensures UnifyNewlines(s) == s
  {
    if s != [] {
      UnifyFixed(s[1..]);
    }
  }

  lemma {:induction false} StripFixed(s: string)
    requires NoTrailingBlanks(s)
    ensures StripLineEnds(s) == s
  {
    if s != [] {
      assert forall i :: 0 <= i < |s[1..]| ==> s[1..][i] == s[i + 1];
      StripFixed(s[1..]);
    }
  }

  lemma {:induction false} CapFixed(s: string)
    requires NoThreeNewlines(s)
    ensures CapNewlines(s) == s
  {
    hide ThreeNewlines, CapNewlines;
    if s == [] {
      CapNothing();
    } else {
      assert !ThreeNewlines(s[0..]) && s[0..] == s;
      assert forall i :: 0 <= i < |s[1..]| ==> s[1..][i..] == s[i + 1..];
      CapFixed(s[1..]);
      CapHead(s);
    }
  }

  /** Cleaning leaves a text alone exactly when it is clean. */
  lemma CleanMultilineFixed(s: string)
    ensures CleanMultiline(Some(s)) == s <==> MultilineClean(s)
  {
    CleanMultilineShape(Some(s));
    if MultilineClean(s) {
      UnifyFixed(s);
      StripFixed(s);
      CapFixed(s);
      TrimIdentity(s);
    }
  }

  function CrlfText(c: char): string {
    if c == '\n' then "\r\n" else [c]
  }

  /** The line breaks a browser puts into a submitted text area. */
  function WithCrlf(s: string): string {
    FlatMap(CrlfText, s)
  }

  lemma {:induction false} UnifyUndoesCrlf(s: string)
    requires '\r' !in s
    ensures UnifyNewlines(WithCrlf(s)) == s
  {
    if s != [] {
      var t := WithCrlf(s[1..]);
      UnifyUndoesCrlf(s[1..]);
      if s[0] == '\n' {
        assert WithCrlf(s) == ['\r', '\n'] + t;
        assert WithCrlf(s)[2..] == t;
      } else {
        assert WithCrlf(s) == [s[0]] + t;
        assert WithCrlf(s)[1..] == t;
      }
    }
  }

  /** A clean text comes back unchanged, whichever line breaks the browser sends. */
  lemma CleanMultilineSurvivesBrowser(s: string)
    requires MultilineClean(s)
    ensures CleanMultiline(Some(s)) == s
    ensures CleanMultiline(Some(WithCrlf(s))) == s
  {
    CleanMultilineFixed(s);
    UnifyFixed(s);
    UnifyUndoesCrlf(s);
  }

  /** The separators dropped by replace(/[\s,٬_]/g, ''). */
  function DropSeparator(c: char): string {
    if IsSpace(c) || c == ',' || c == THOUSANDS_MARK || c == '_' then [] else [c]
  }

  function CleanNumeric(raw: Raw): string {
    if raw.None? then "" else Trim(FlatMap(DropSeparator, ToEnglishDigits(raw.value)))
  }

  // ------------------------------------------------------------ checks

  function RequiredText(raw: Raw, min: nat, max: nat): Checked<string> {
    var value := CleanText(raw);
    if value == "" then Checked("", Some(Missing))
    else if |value| < min then Checked(value, Some(TooShort))
    else if |value| > max then Checked(value, Some(TooLong))
    else Checked(value, None)
  }

  function OptionalText(raw: Raw, max: nat, multiline: bool): Checked<Option<string>> {
    var value := if multiline then CleanMultiline(raw) else CleanText(raw);
    if value == "" then Checked(None, None)
    else if |value| > max then Checked(Some(value), Some(TooLong))
    else Checked(Some(value), None)
  }

  /** /^-?\d+$/ */
  predicate IntegerShaped(text: string) {
    var digits := if text != [] && text[0] == '-' then text[1..] else text;
    digits != [] && forall c :: c in digits ==> IsDigit(c)
  }

  function IntegerValue(text: string): int
    requires IntegerShaped(text)
  {
    if text[0] == '-' then 0 - DigitsValue(text[1..]) else DigitsValue(text)
  }

  /**
   The source reads the text as a double and then asks isSafeInteger. Rounding
   to a double is monotone and exact on safe integers, and 2^53 is a double, so
   that test accepts exactly the texts whose true value is safe.
   */
  function Integer(raw: Raw, required: bool, min: Option<int>, max: Option<int>): Checked<Option<int>> {
    var text := CleanNumeric(raw);
    if text == "" then Checked(None, if required then Some(Missing) else None)
    else if !IntegerShaped(text) then Checked(None, Some(NotInteger))
    else
      var n := IntegerValue(text);
      if !(-MAX_SAFE_INTEGER <= n <= MAX_SAFE_INTEGER) then Checked(None, Some(UnsafeInteger))
      else if min.Some? && n < min.value then Checked(Some(n), Some(BelowMinimum))
      else if max.Some? && n > max.value then Checked(Some(n), Some(AboveMaximum))
      else Checked(Some(n), None)
  }

  function Money(raw: Raw, required: bool): Checked<Option<int>> {
    Integer(raw, required, Some(0), Some(MONEY_MAX))
  }

  function IdRef(raw: Raw, required: bool): Checked<Option<int>> {
    Integer(raw, required, Some(1), Some(MAX_SAFE_INTEGER))
  }

  /** Present and not plainly off. */
  function Checkbox(cs: Casing, raw: Raw): bool {
    raw.Some? && cs.ToLower(Trim(raw.value)) !in ["", "0", "false", "off"]
  }

  function OneOf(raw: Raw, allowed: seq<string>, required: bool): Checked<Option<string>> {
    var value := CleanText(raw);
    if value == "" then Checked(None, if required then Some(Missing) else None)
    else if value !in allowed then Checked(None, Some(NotAllowed))
    else Checked(Some(value), None)
  }

  function SlugField(cs: Casing, raw: Raw, fallback: string): Checked<string> {
    var typed := CleanText(raw);
    var value := Slugify(cs, if typed != "" then typed else fallback);
    if value == "" then Checked("", Some(NoSlug))
    else if |value| > SLUG_MAX then Checked(value, Some(TooLong))
    else Checked(value, None)
  }

  function SalePriceRule(sale: Option<int>, price: Option<int>): Option<Problem> {
    if sale.Some? && price.Some? && sale.value >= price.value then Some(SaleNotBelowPrice) else None
  }

  /** A slug the form accepts is valid, and the public address finds it. */
  lemma SlugFieldAccepts(cs: Casing, raw: Raw, fallback: string)
    requires cs.Lawful()
    ensures var r := SlugField(cs, raw, fallback);
            r.error == None <==> r.value != "" && |r.value| <= SLUG_MAX
    ensures var r := SlugField(cs, raw, fallback);
            r.error == None ==>
              && IsValidSlug(cs, Some(r.value))
              && NormalizeSlugParam(cs, Some(r.value)) == r.value
              && forall other: string :: SlugField(cs, Some(r.value), other) == r
  {
    var typed := CleanText(raw);
    var source := if typed != "" then typed else fallback;
    var r := SlugField(cs, raw, fallback);
    SlugifyIdempotent(cs, source);
    if r.error == None {
      SlugifyShape(cs, source);
      SlugIsCleanText(r.value);
    }
  }

  lemma SlugIsCleanText(s: string)
    requires SlugShaped(s)
    ensures CleanText(Some(s)) == s
  {
    assert forall c :: c in s ==> !IsSpace(c);
    SqueezeFixed(s);
  }

  // --------------------------------------------- printing and reading back

  /** formatToman and cleanNumeric together, on one piece of a printed number. */
  function Reread(s: string): string {
    FlatMap(DropSeparator, ToEnglishDigits(FlatMap(ThousandsMarkText, FaDigits(s))))
  }

  lemma RereadConcat(a: string, b: string)
    ensures Reread(a + b) == Reread(a) + Reread(b)
  {
    FlatMapConcat(PersianDigitText, a, b);
    FlatMapConcat(ThousandsMarkText, FaDigits(a), FaDigits(b));
    var u, v := FlatMap(ThousandsMarkText, FaDigits(a)), FlatMap(ThousandsMarkText, FaDigits(b));
    FlatMapConcat(EnglishDigitText, u, v);
    FlatMapConcat(DropSeparator, ToEnglishDigits(u), ToEnglishDigits(v));
  }

  lemma FlatMapOne(f: char -> string, c: char)
    ensures FlatMap(f, [c]) == f(c)
  {
    assert FlatMap(f, [c]) == f(c) + FlatMap(f, []);
  }

  lemma RereadOne(c: char)
    requires IsDigit(c) || c == ',' || c == '-'
    ensures Reread([c]) == if c == ',' then [] else [c]
  {
    var p := PersianDigitText(c)[0];
    var t := ThousandsMarkText(p)[0];
    FlatMapOne(PersianDigitText, c);
    FlatMapOne(ThousandsMarkText, p);
    FlatMapOne(EnglishDigitText, t);
    FlatMapOne(DropSeparator, EnglishDigit(t));
  }

  lemma {:induction false} RereadDigits(s: string)
    requires forall c :: c in s ==> IsDigit(c)
    ensures Reread(s) == s
  {
    if s != [] {
      assert s == [s[0]] + s[1..];
      RereadConcat([s[0]], s[1..]);
      RereadOne(s[0]);
      RereadDigits(s[1..]);
    }
  }

  lemma RereadGroup(head: string, tail: string)
    requires forall c :: c in tail ==> IsDigit(c)
    ensures Reread(head + "," + tail) == Reread(head) + tail
  {
    RereadConcat(head + ",", tail);
    RereadConcat(head, ",");
    RereadOne(',');
    RereadDigits(tail);
  }

  lemma Pad3Value(n: nat)
    requires n < 1000
    ensures var t := Pad3(n);
            100 * (t[0] as int - '0' as int) + 10 * (t[1] as int - '0' as int) + (t[2] as int - '0' as int) == n
  {
    var h, m := n / 100, n / 10;
    assert m / 10 == h && m % 10 == m - 10 * h && n % 10 == n - 10 * m;
  }

  lemma {:induction false} RereadGrouped(n: nat)
    ensures var r := Reread(Grouped(n)); r != [] && (forall c :: c in r ==> IsDigit(c)) && DigitsValue(r) == n
  {
    hide Reread, Digits, Pad3, DigitsValue;
    if n < 1000 {
      RereadDigits(Digits(n));
      DigitsRoundTrip(n);
    } else {
      var head, tail := Reread(Grouped(n / 1000)), Pad3(n % 1000);
      RereadGrouped(n / 1000);
      RereadGroup(Grouped(n / 1000), tail);
      assert tail == [tail[0], tail[1], tail[2]];
      assert tail[0] in tail && tail[1] in tail && tail[2] in tail;
      DigitsValueConcat3(head, tail[0], tail[1], tail[2]);
      Pad3Value(n % 1000);
      assert Reread(Grouped(n)) == head + [tail[0], tail[1], tail[2]];
    }
  }

  /** What the form reads back from a printed amount. */
  lemma FormatTomanReread(n: int)
    ensures var t := CleanNumeric(Some(FormatToman(n))); t != "" && IntegerShaped(t) && IntegerValue(t) == n
  {
    var m: nat := if n < 0 then -n else n;
    var r := Reread(Grouped(m));
    RereadGrouped(m);
    if n < 0 {
      RereadConcat("-", Grouped(m));
      RereadOne('-');
    }
    var t := if n < 0 then "-" + r else r;
    assert Reread(GroupedInt(n)) == t;
    assert r[0] in r && r[|r| - 1] in r;
    TrimIdentity(t);
    assert n < 0 ==> t[1..] == r;
  }

  /** Printing an amount and reading it back is the identity on safe integers. */
  lemma MoneyRoundTrip(n: int, required: bool)
    ensures Integer(Some(FormatToman(n)), required, None, None)
            == if -MAX_SAFE_INTEGER <= n <= MAX_SAFE_INTEGER then Checked(Some(n), None) else Checked(None, Some(UnsafeInteger))
    ensures Money(Some(FormatToman(n)), required) == Checked(Some(n), None) <==> 0 <= n <= MONEY_MAX
  {
    FormatTomanReread(n);
  }

  /** An integer written plainly, as a form shows it, is read back. */
  lemma PlainIntegerReread(n: int)
    ensures var t := CleanNumeric(Some(PrintInt(n))); t != "" && IntegerShaped(t) && IntegerValue(t) == n
  {
    var m: nat := if n < 0 then -n else n;
    var d := Digits(m);
    var p := PrintInt(n);
    assert p == if n < 0 then "-" + d else d;
    forall c | c in p
      ensures EnglishDigitText(c) == [c] && DropSeparator(c) == [c] && !IsSpace(c)
    {
      assert c == '-' || c in d;
    }
    FlatMapIdentity(EnglishDigitText, p);
    FlatMapIdentity(DropSeparator, p);
    assert p[0] in p && p[|p| - 1] in p;
    TrimIdentity(p);
    DigitsRoundTrip(m);
    assert n < 0 ==> p[1..] == d;
    assert d[0] in d;
  }

  // --------------------------------------------- what the cleaners keep

  /** Characters that read the same up to separators leave the same words. */
  lemma SameWordsCons(c: char, a: string, b: string)
    requires Words(a) == Words(b) && (StartsWith(IsSpace, a) || a == "" <==> StartsWith(IsSpace, b) || b == "")
    ensures Words([c] + a) == Words([c] + b)
  {
    hide IsSpace;
    assert ([c] + a)[1..] == a && ([c] + b)[1..] == b;
  }

  predicate BlankAhead(s: string) {
    s == "" || IsSpace(s[0])
  }

  lemma SpaceAddsNoWord(c: char, s: string)
    requires IsSpace(c)
    ensures Words([c] + s) == Words(s)
  {
    hide IsSpace;
    assert ([c] + s)[1..] == s;
  }

  lemma WordsStep(c: char, a: string, b: string)
    requires Words(a) == Words(b) && (BlankAhead(a) <==> BlankAhead(b))
    ensures Words([c] + a) == Words([c] + b) && (BlankAhead([c] + a) <==> BlankAhead([c] + b))
  {
    hide Words, IsSpace;
    SameWordsCons(c, a, b);
  }

  lemma LineEndsAreSpaces()
    ensures IsSpace('\n') && IsSpace('\r') && forall c :: IsBlank(c) || IsLineEnd(c) ==> IsSpace(c)
  {
  }

  lemma {:induction false} UnifyKeepsWords(s: string)
    ensures Words(UnifyNewlines(s)) == Words(s) && (BlankAhead(UnifyNewlines(s)) <==> BlankAhead(s))
    decreases |s|
  {
    hide Words, IsSpace;
    LineEndsAreSpaces();
    if s != [] {
      var n := if s[0] == '\r' && |s| > 1 && s[1] == '\n' then 2 else 1;
      UnifyKeepsWords(s[n..]);
      assert s == [s[0]] + s[1..];
      WordsStep(s[0], UnifyNewlines(s[n..]), s[n..]);
      if s[0] == '\r' {
        SpaceAddsNoWord('\n', UnifyNewlines(s[n..]));
        SpaceAddsNoWord('\r', s[1..]);
        if n == 2 {
          assert s[1..] == ['\n'] + s[2..];
          SpaceAddsNoWord('\n', s[2..]);
        }
      }
    }
  }

  lemma {:induction false} StripKeepsWords(s: string)
    ensures Words(StripLineEnds(s)) == Words(s) && (BlankAhead(StripLineEnds(s)) <==> BlankAhead(s))
  {
    hide Words, IsSpace;
    LineEndsAreSpaces();
    if s != [] {
      var t := StripLineEnds(s[1..]);
      StripKeepsWords(s[1..]);
      assert s == [s[0]] + s[1..];
      WordsStep(s[0], t, s[1..]);
      if IsBlank(s[0]) && (t == [] || IsLineEnd(t[0])) {
        SpaceAddsNoWord(s[0], s[1..]);
      }
    }
  }

  lemma {:induction false} CapKeepsWords(s: string)
    ensures Words(CapNewlines(s)) == Words(s) && (BlankAhead(CapNewlines(s)) <==> BlankAhead(s))
  {
    hide Words, IsSpace;
    LineEndsAreSpaces();
    if s != [] {
      CapKeepsWords(s[1..]);
      assert s == [s[0]] + s[1..];
      WordsStep(s[0], CapNewlines(s[1..]), s[1..]);
      if ThreeNewlines(s) {
        SpaceAddsNoWord(s[0], s[1..]);
      }
    }
  }

  lemma {:induction false} NoWordsInSpaces(s: string)
    requires forall c :: c in s ==> IsSpace(c)
    ensures Words(s) == []
  {
    hide IsSpace, Pieces;
    assert forall i :: 0 <= i < |s| ==> s[i] in s;
    NoPieces(IsSpace, s);
  }

  lemma TrimKeepsWords(s: string)
    ensures Words(Trim(s)) == Words(s)
  {
    hide IsSpace, Trim, Pieces;
    var a, b := TrimSplit(s);
    var x := Trim(s);
    NoWordsInSpaces(a);
    NoWordsInSpaces(b);
    assert a != "" ==> a[|a| - 1] in a;
    assert b != "" ==> b[0] in b;
    PiecesConcat(IsSpace, a, x + b);
    PiecesConcat(IsSpace, x, b);
  }

  /** Cleaning a text area keeps every word, in order and undivided. */
  lemma CleanMultilineKeepsWords(s: string)
    ensures Words(CleanMultiline(Some(s))) == Words(s)
  {
    hide Words, Trim, UnifyNewlines, StripLineEnds, CapNewlines;
    var a := UnifyNewlines(s);
    var b := StripLineEnds(a);
    UnifyKeepsWords(s);
    StripKeepsWords(a);
    CapKeepsWords(b);
    TrimKeepsWords(CapNewlines(b));
  }

  function NewLines(k: nat): string {
    if k == 0 then "" else "\n" + NewLines(k - 1)
  }

  lemma {:induction false} CapOfNewLines(k: nat, b: string)
    requires b == "" || b[0] != '\n'
    ensures CapNewlines(NewLines(k) + b) == NewLines(if k < 2 then k else 2) + CapNewlines(b)
  {
    var s := NewLines(k) + b;
    if k == 0 {
      assert s == b;
      assert NewLines(0) + CapNewlines(b) == CapNewlines(b);
    } else {
      assert s[1..] == NewLines(k - 1) + b;
      CapOfNewLines(k - 1, b);
      if k == 1 {
        assert NewLines(1) == "\n";
        assert !ThreeNewlines(s);
      } else if k == 2 {
        assert NewLines(2) == "\n" + NewLines(1);
        assert !ThreeNewlines(s);
        assert NewLines(2) + CapNewlines(b) == ['\n'] + (NewLines(1) + CapNewlines(b));
      } else {
        assert s[2] == '\n';
      }
    }
  }

  /** What stands before the last line end is cleaned on its own. */
  lemma {:induction false} CapConcat(a: string, x: string)
    requires a == "" || a[|a| - 1] != '\n'
    ensures CapNewlines(a + x) == CapNewlines(a) + CapNewlines(x)
  {
    hide ThreeNewlines, CapNewlines;
    var s := a + x;
    if a == "" {
      assert s == x;
      CapNothing();
    } else {
      assert s[1..] == a[1..] + x;
      CapConcat(a[1..], x);
      SameThree(a, x, s);
      CapHead(s);
      CapHead(a);
    }
  }

  /** Between two lines of text, up to two line ends stay, and more become two. */
  lemma CapBetween(a: string, k: nat, b: string)
    requires a == "" || a[|a| - 1] != '\n'
    requires b == "" || b[0] != '\n'
    ensures CapNewlines(a + NewLines(k) + b) == CapNewlines(a) + NewLines(if k < 2 then k else 2) + CapNewlines(b)
  {
    hide NewLines, CapNewlines;
    assert a + NewLines(k) + b == a + (NewLines(k) + b);
    CapConcat(a, NewLines(k) + b);
    CapOfNewLines(k, b);
  }

  lemma CapNothing()
    ensures CapNewlines("") == ""
  {
  }

  lemma CapHead(s: string)
    requires s != ""
    ensures CapNewlines(s) == (if ThreeNewlines(s) then [] else [s[0]]) + CapNewlines(s[1..])
  {
    hide ThreeNewlines;
  }

  lemma SameThree(a: string, x: string, s: string)
    requires a != "" && a[|a| - 1] != '\n' && s == a + x
    ensures ThreeNewlines(s) <==> ThreeNewlines(a)
  {
  }

  /** Blanks before a line end go; the line before them and the text after stay as they are cleaned. */
  lemma {:induction false} StripBefore(a: string, w: string, e: char, b: string)
    requires (forall c :: c in w ==> IsBlank(c)) && IsLineEnd(e) && (a == "" || !IsBlank(a[|a| - 1]))
    ensures StripLineEnds(a + w + [e] + b) == StripLineEnds(a) + [e] + StripLineEnds(b)
    decreases |a| + |w|
  {
    var s := a + w + [e] + b;
    if a != "" {
      assert s[1..] == a[1..] + w + [e] + b;
      StripBefore(a[1..], w, e, b);
      if a[1..] == "" {
        assert StripLineEnds(a) == a;
      }
      var t := StripLineEnds(a[1..]);
      assert (t + [e] + StripLineEnds(b)) == t + ([e] + StripLineEnds(b));
      StripLast(a);
    } else if w != "" {
      assert w[0] in w && s[1..] == w[1..] + [e] + b;
      StripBefore("", w[1..], e, b);
      assert "" + w[1..] + [e] + b == w[1..] + [e] + b;
    } else {
      assert s[1..] == b && s[0] == e;
    }
  }

  /** A text that ends in something else than a blank keeps its end. */
  lemma {:induction false} StripLast(a: string)
    requires a != "" && !IsBlank(a[|a| - 1])
    ensures StripLineEnds(a) != "" && (|a| > 1 ==> StripLineEnds(a[1..]) != "")
  {
    if |a| > 1 {
      StripLast(a[1..]);
    }
  }

  /** Texts are unified piece by piece, wherever the cut does not part a CRLF. */
  lemma {:induction false} UnifyConcat(a: string, b: string)
    requires !(a != "" && a[|a| - 1] == '\r' && b != "" && b[0] == '\n')
    ensures UnifyNewlines(a + b) == UnifyNewlines(a) + UnifyNewlines(b)
    decreases |a|
  {
    hide UnifyNewlines;
    var s := a + b;
    if a == "" {
      assert s == b;
      assert UnifyNewlines("") == "" by { UnifyNothing(); }
    } else {
      var n := if a[0] == '\r' && |a| > 1 && a[1] == '\n' then 2 else 1;
      assert s[n..] == a[n..] + b && s[0] == a[0];
      assert |a| > 1 ==> s[1] == a[1];
      assert |a| == 1 && b != "" ==> s[1] == b[0];
      UnifyConcat(a[n..], b);
      UnifyFirst(s, n);
      UnifyFirst(a, n);
    }
  }

  lemma UnifyNothing()
    ensures UnifyNewlines("") == ""
  {
  }

  lemma UnifyFirst(s: string, n: nat)
    requires s != "" && n == (if s[0] == '\r' && |s| > 1 && s[1] == '\n' then 2 else 1)
    ensures UnifyNewlines(s) == [if s[0] == '\r' then '\n' else s[0]] + UnifyNewlines(s[n..])
  {
  }

  /** Every way of ending a line becomes one newline. */
  lemma LineEndsUnified()
    ensures UnifyNewlines("\r\n") == "\n" && UnifyNewlines("\r") == "\n" && UnifyNewlines("\n") == "\n"
  {
    assert "\r\n"[2..] == "" && "\r"[1..] == "" && "\n"[1..] == "";
  }

  // --------------------------------------------- numbers as typed

  /**
   A typed number is read character by character: blanks, commas, the Persian
   thousands mark and underscores vanish, digits of all three scripts are read.
   */
  lemma TypedNumber(x: string, c: char, y: string)
    ensures CleanNumeric(Some(x + [c] + y)) == CleanNumeric(Some(x)) + CleanNumeric(Some([c])) + CleanNumeric(Some(y))
    ensures CleanNumeric(Some([c])) ==
            if IsSpace(c) || c in [',', '\U{66C}', '_'] then ""
            else if '\U{6F0}' <= c <= '\U{6F9}' then [(c as int - 0x6F0 + '0' as int) as char]
            else if '\U{660}' <= c <= '\U{669}' then [(c as int - 0x660 + '0' as int) as char]
            else [c]
  {
    hide IsSpace, FlatMap, Trim, DropSeparator, EnglishDigit;
    NumericIsPerCharacter(x + [c] + y);
    NumericIsPerCharacter(x);
    NumericIsPerCharacter([c]);
    NumericIsPerCharacter(y);
    RereadConcatPlain(x + [c], y);
    RereadConcatPlain(x, [c]);
    NumericOfOne(c);
  }

  /** Separators and digits, without the final trim, which has nothing left to do. */
  function NumericChars(s: string): string {
    FlatMap(DropSeparator, ToEnglishDigits(s))
  }

  lemma NumericIsPerCharacter(s: string)
    ensures CleanNumeric(Some(s)) == NumericChars(s)
  {
    hide IsSpace, FlatMap, EnglishDigit;
    var r := NumericChars(s);
    forall c | c in r
      ensures !IsSpace(c)
    {
      var d := FlatMapSource(DropSeparator, ToEnglishDigits(s), c);
    }
    assert r != "" ==> r[0] in r && r[|r| - 1] in r;
    TrimIdentity(r);
  }

  lemma RereadConcatPlain(a: string, b: string)
    ensures NumericChars(a + b) == NumericChars(a) + NumericChars(b)
  {
    FlatMapConcat(EnglishDigitText, a, b);
    FlatMapConcat(DropSeparator, ToEnglishDigits(a), ToEnglishDigits(b));
  }

  lemma NumericOfOne(c: char)
    ensures NumericChars([c]) == if IsSpace(c) || c in [',', '\U{66C}', '_'] then "" else [EnglishDigit(c)]
    ensures '\U{6F0}' <= c <= '\U{6F9}' ==> !IsSpace(c)
    ensures '\U{660}' <= c <= '\U{669}' ==> !IsSpace(c)
    ensures '\U{6F0}' <= c <= '\U{6F9}' ==> EnglishDigit(c) == (c as int - 0x6F0 + '0' as int) as char
    ensures '\U{660}' <= c <= '\U{669}' ==> EnglishDigit(c) == (c as int - 0x660 + '0' as int) as char
    ensures !('\U{6F0}' <= c <= '\U{6F9}' || '\U{660}' <= c <= '\U{669}') ==> EnglishDigit(c) == c
  {
    FlatMapOne(EnglishDigitText, c);
    FlatMapOne(DropSeparator, EnglishDigit(c));
    DigitScripts(c);
  }

  /** An optional minus, then digits. */
  predicate WrittenInteger(text: string) {
    && text != "" && (forall i :: 0 < i < |text| ==> '0' <= text[i] <= '9')
    && ('0' <= text[0] <= '9' || (text[0] == '-' && |text| > 1))
  }

  lemma ShapedIsWritten(text: string)
    ensures IntegerShaped(text) <==> WrittenInteger(text)
  {
    if text != "" && text[0] == '-' {
      AllDigits(text[1..]);
      assert forall i :: 0 < i < |text| ==> text[i] == text[1..][i - 1];
      assert IntegerShaped(text) <==> text[1..] != "" && forall c :: c in text[1..] ==> IsDigit(c) by { NegativeShaped(text); }
      assert (forall i :: 0 < i < |text| ==> '0' <= text[i] <= '9') <==> forall i :: 0 <= i < |text[1..]| ==> IsDigit(text[1..][i]) by {
        Shifted(text);
      }
    } else {
      AllDigits(text);
    }
  }

  lemma NegativeShaped(text: string)
    requires text != "" && text[0] == '-'
    ensures IntegerShaped(text) <==> text[1..] != "" && forall c :: c in text[1..] ==> IsDigit(c)
  {
    if IntegerShaped(text) {
      forall c | c in text[1..]
        ensures IsDigit(c)
      {
      }
    }
  }

  lemma Shifted(text: string)
    requires text != ""
    ensures (forall i :: 0 < i < |text| ==> '0' <= text[i] <= '9') <==> forall i :: 0 <= i < |text[1..]| ==> IsDigit(text[1..][i])
  {
    if forall i :: 0 <= i < |text[1..]| ==> IsDigit(text[1..][i]) {
      forall i | 0 < i < |text|
        ensures '0' <= text[i] <= '9'
      {
        assert IsDigit(text[1..][i - 1]);
      }
    }
    if forall i :: 0 < i < |text| ==> '0' <= text[i] <= '9' {
      forall i | 0 <= i < |text[1..]|
        ensures IsDigit(text[1..][i])
      {
        assert '0' <= text[i + 1] <= '9';
      }
    }
  }

  lemma AllDigits(s: string)
    ensures (forall c :: c in s ==> IsDigit(c)) <==> forall i :: 0 <= i < |s| ==> IsDigit(s[i])
  {
    assert forall i :: 0 <= i < |s| ==> s[i] in s;
  }

  /** The number a field is read as. */
  predicate ReadsAs(raw: Raw, n: int) {
    IntegerShaped(CleanNumeric(raw)) && IntegerValue(CleanNumeric(raw)) == n
  }

  /** A number field is accepted exactly when it is blank and may be, or is a number within its limits. */
  lemma IntegerExactly(raw: Raw, required: bool, min: int, max: int, n: int)
    requires -0x1F_FFFF_FFFF_FFFF <= min && max <= 0x1F_FFFF_FFFF_FFFF
    ensures Integer(raw, required, Some(min), Some(max)) == Checked(Some(n), None) <==> min <= n <= max && ReadsAs(raw, n)
    ensures Integer(raw, required, Some(min), Some(max)) == Checked(None, None) <==> !required && CleanNumeric(raw) == ""
    ensures ReadsAs(raw, n) ==> WrittenInteger(CleanNumeric(raw))
    ensures WrittenInteger(CleanNumeric(raw)) ==> exists m :: ReadsAs(raw, m)
  {
    hide CleanNumeric, IntegerShaped, IntegerValue, WrittenInteger;
    ShapedIsWritten(CleanNumeric(raw));
    NothingIsShaped();
    if IntegerShaped(CleanNumeric(raw)) {
      assert ReadsAs(raw, IntegerValue(CleanNumeric(raw)));
    }
  }

  lemma NothingIsShaped()
    ensures !IntegerShaped("")
  {
  }
}
