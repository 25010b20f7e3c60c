/**
 Persian formatting: digit scripts, text normalisation, and the printed form
 of an amount of money.
 */
module Format {
  import opened JsText

  const PERSIAN_ZERO: char := '\U{6F0}'
  const ARABIC_ZERO: char := '\U{660}'
  const PERSIAN_YEH: char := '\U{6CC}'
  const PERSIAN_KEHEH: char := '\U{6A9}'
  const HEH: char := '\U{647}'
  const TATWEEL: char := '\U{640}'
  const ZWNJ: char := '\U{200C}'
  const THOUSANDS_MARK: char := '\U{66C}'

  predicate IsPersianDigit(c: char) {
    PERSIAN_ZERO <= c <= '\U{6F9}'
  }

  predicate IsArabicDigit(c: char) {
    ARABIC_ZERO <= c <= '\U{669}'
  }

  /** One character of toEnglishDigits. */
  function EnglishDigit(c: char): char {
    if IsPersianDigit(c) then '0' + (c - PERSIAN_ZERO)
    else if IsArabicDigit(c) then '0' + (c - ARABIC_ZERO)
    else c
  }

  function EnglishDigitText(c: char): string {
    [EnglishDigit(c)]
  }

  function ToEnglishDigits(s: string): string {
    FlatMap(EnglishDigitText, s)
  }

  function PersianDigitText(c: char): string {
    [if IsDigit(c) then PERSIAN_ZERO + (c - '0') else c]
  }

  function FaDigits(s: string): string {
    FlatMap(PersianDigitText, s)
  }

  // ------------------------------------------------- text normalisation

  predicate IsDiacritic(c: char) {
    '\U{64B}' <= c <= '\U{652}' || c == '\U{670}'
  }

  /** One character through every replace() of normalizePersian before the whitespace ones. */
  function FoldLetter(c: char): string {
    var d := EnglishDigit(c);
    if d == '\U{64A}' || d == PERSIAN_YEH || d == '\U{649}' then [PERSIAN_YEH]
    else if d == '\U{643}' || d == PERSIAN_KEHEH then [PERSIAN_KEHEH]
    else if d == '\U{629}' then [HEH]
    else if IsDiacritic(d) || d == TATWEEL then []
    else if d == ZWNJ then [' ']
    else [d]
  }

  function NormalizePersian(s: string): string {
    Squeeze(FlatMap(FoldLetter, s))
  }

  /** A character that normalizePersian leaves alone. */
  predicate Folded(c: char) {
    FoldLetter(c) == [c]
  }

  lemma NormalizedShape(s: string)
    ensures Squeezed(NormalizePersian(s))
    ensures forall c :: c in NormalizePersian(s) ==> Folded(c)
  {
    var t := FlatMap(FoldLetter, s);
    SqueezeIsSqueezed(t);
    forall c | c in NormalizePersian(s)
      ensures Folded(c)
    {
      if c != ' ' {
        var d := FlatMapSource(FoldLetter, s, c);
      }
    }
  }

  /** Normalising again changes nothing. */
  lemma NormalizeIdempotent(s: string)
    ensures NormalizePersian(NormalizePersian(s)) == NormalizePersian(s)
  {
    NormalizedShape(s);
    FlatMapIdentity(FoldLetter, NormalizePersian(s));
    SqueezeFixed(NormalizePersian(s));
  }

  /** Normalising a contiguous piece of a text gives a piece of the normalised text. */
  lemma NormalizeKeepsInfix(x: string, y: string)
    requires Infix(x, y)
    ensures Infix(NormalizePersian(x), NormalizePersian(y))
  {
    FlatMapInfix(FoldLetter, x, y);
    SqueezeKeepsInfix(FlatMap(FoldLetter, x), FlatMap(FoldLetter, y));
  }

  /** A text normalises to the words of its folded letters, one blank apart. */
  lemma NormalIsItsWords(s: string)
    ensures NormalizePersian(s) == Join(Words(FlatMap(FoldLetter, s)), " ")
  {
    hide Squeeze, Words, Join;
    SqueezeIsItsWords(FlatMap(FoldLetter, s));
  }

  /** The digits of the three scripts, by code point. */
  lemma DigitScripts(c: char)
    ensures '\U{6F0}' <= c <= '\U{6F9}' ==> EnglishDigit(c) as int == c as int - 0x6F0 + '0' as int
    ensures '\U{660}' <= c <= '\U{669}' ==> EnglishDigit(c) as int == c as int - 0x660 + '0' as int
    ensures !('\U{6F0}' <= c <= '\U{6F9}' || '\U{660}' <= c <= '\U{669}') ==> EnglishDigit(c) == c
  {
  }

  /**
   The letters searches and slugs do not tell apart: the three yehs, the two kafs,
   teh marbuta and heh, a zero-width non-joiner and a blank; vowel signs and the
   tatweel vanish, digits become ASCII, and every other character stays.
   */
  lemma SpellingsFolded(c: char)
    ensures c in ['\U{64A}', '\U{6CC}', '\U{649}'] ==> FoldLetter(c) == ['\U{6CC}']
    ensures c in ['\U{643}', '\U{6A9}'] ==> FoldLetter(c) == ['\U{6A9}']
    ensures c in ['\U{629}', '\U{647}'] ==> FoldLetter(c) == ['\U{647}']
    ensures c in ['\U{200C}', ' '] ==> FoldLetter(c) == " "
    ensures '\U{64B}' <= c <= '\U{652}' || c in ['\U{670}', '\U{640}'] ==> FoldLetter(c) == ""
    ensures '\U{6F0}' <= c <= '\U{6F9}' ==> FoldLetter(c) == [(c as int - 0x6F0 + '0' as int) as char]
    ensures '\U{660}' <= c <= '\U{669}' ==> FoldLetter(c) == [(c as int - 0x660 + '0' as int) as char]
    ensures c !in ['\U{64A}', '\U{649}', '\U{643}', '\U{629}', '\U{200C}', '\U{670}', '\U{640}']
            && !('\U{64B}' <= c <= '\U{652}') && !('\U{6F0}' <= c <= '\U{6F9}') && !('\U{660}' <= c <= '\U{669}')
            ==> FoldLetter(c) == [c]
  {
  }

  // ------------------------------------------------- printing integers

  const MAX_SAFE_INTEGER: int := 0x1F_FFFF_FFFF_FFFF

  function DigitChar(d: nat): char
    requires d < 10
  {
    '0' + d as char
  }

  /** Decimal digits of n, without leading zeros. */
  function Digits(n: nat): (r: string)
    ensures r != [] && forall c :: c in r ==> IsDigit(c)
  {
    if n < 10 then [DigitChar(n)] else Digits(n / 10) + [DigitChar(n % 10)]
  }

  /** String(n) of an integer. */
  function PrintInt(n: int): string {
    if n < 0 then "-" + Digits(-n) else Digits(n)
  }

  /** The three digits of a group, zeros included. */
  function Pad3(n: nat): (r: string)
    requires n < 1000
    ensures |r| == 3 && forall c :: c in r ==> IsDigit(c)
  {
    [DigitChar(n / 100), DigitChar(n / 10 % 10), DigitChar(n % 10)]
  }

  /** toLocaleString('en-US') of a natural number: a comma before every three digits. */
  function Grouped(n: nat): (r: string)
    ensures r != [] && forall c :: c in r ==> IsDigit(c) || c == ','
  {
    if n < 1000 then Digits(n) else Grouped(n / 1000) + "," + Pad3(n % 1000)
  }

  function GroupedInt(n: int): string {
    if n < 0 then "-" + Grouped(-n) else Grouped(n)
  }

  function ThousandsMarkText(c: char): string {
    [if c == ',' then THOUSANDS_MARK else c]
  }

  /** formatToman(n, { withUnit: false }) of an integer amount. */
  function FormatToman(n: int): string {
    FlatMap(ThousandsMarkText, FaDigits(GroupedInt(n)))
  }

  // ------------------------------------------------- reading integers

  /** The number written by a string of ASCII digits. */
  function DigitsValue(s: string): (v: nat)
    requires forall c :: c in s ==> IsDigit(c)
  {
    if s == [] then 0
    else
      var last := s[|s| - 1];
      assert IsDigit(last) by { assert last in s; }
      10 * DigitsValue(s[..|s| - 1]) + (last as int - '0' as int)
  }

  lemma {:induction false} DigitsValueConcat3(s: string, a: char, b: char, c: char)
    requires forall d :: d in s ==> IsDigit(d)
    requires IsDigit(a) && IsDigit(b) && IsDigit(c)
    ensures forall d :: d in s + [a, b, c] ==> IsDigit(d)
    ensures DigitsValue(s + [a, b, c]) ==
            1000 * DigitsValue(s) + 100 * (a as int - '0' as int) + 10 * (b as int - '0' as int) + (c as int - '0' as int)
  {
    var t := s + [a, b, c];
    var u := s + [a, b];
    var v := s + [a];
    assert t[..|t| - 1] == u && u[..|u| - 1] == v && v[..|v| - 1] == s;
    assert DigitsValue(v) == 10 * DigitsValue(s) + (a as int - '0' as int);
    assert DigitsValue(u) == 10 * DigitsValue(v) + (b as int - '0' as int);
  }

  lemma {:induction false} DigitsRoundTrip(n: nat)
    ensures DigitsValue(Digits(n)) == n
  {
    if n >= 10 {
      DigitsRoundTrip(n / 10);
      assert Digits(n)[..|Digits(n)| - 1] == Digits(n / 10);
    }
  }

  lemma AtMostThreeDigits(n: nat)
    requires n < 1000
    ensures |Digits(n)| <= 3
  {
    assert n / 10 >= 10 ==> |Digits(n / 10)| == |Digits(n / 10 / 10)| + 1;
    assert |Digits(n / 10)| <= 2;
  }

  /** A comma stands exactly before every complete group of three digits. */
  lemma {:induction false} GroupedCommas(n: nat, i: nat)
    requires i < |Grouped(n)|
    ensures Grouped(n)[i] == ',' <==> (|Grouped(n)| - 1 - i) % 4 == 3
    ensures Grouped(n)[0] != ','
  {
    hide Digits, Pad3;
    if n < 1000 {
      AtMostThreeDigits(n);
      assert Digits(n)[i] in Digits(n) && Digits(n)[0] in Digits(n);
    } else {
      var head, tail := Grouped(n / 1000), Pad3(n % 1000);
      var g := head + "," + tail;
      if i < |head| {
        GroupedCommas(n / 1000, i);
      } else {
        GroupedCommas(n / 1000, 0);
        assert i > |head| ==> g[i] == tail[i - |head| - 1] && tail[i - |head| - 1] in tail;
      }
    }
  }

  /** A printed amount shows Persian digits and the Persian thousands mark, and no ASCII digit or comma. */
  lemma TomanIsPersian(n: int)
    ensures forall c :: c in FormatToman(n) ==> '\U{6F0}' <= c <= '\U{6F9}' || c == '\U{66C}' || c == '-'
    ensures '-' in FormatToman(n) ==> n < 0
  {
    hide Grouped, GroupedInt;
    var g := GroupedInt(n);
    assert forall c :: c in g ==> IsDigit(c) || c == ',' || (c == '-' && n < 0) by { GroupedIntChars(n); }
    forall c | c in FormatToman(n)
      ensures ('\U{6F0}' <= c <= '\U{6F9}' || c == '\U{66C}' || c == '-') && (c == '-' ==> n < 0)
    {
      var d := FlatMapSource(ThousandsMarkText, FaDigits(g), c);
      var e := FlatMapSource(PersianDigitText, g, d);
    }
  }

  lemma GroupedIntChars(n: int)
    ensures forall c :: c in GroupedInt(n) ==> IsDigit(c) || c == ',' || (c == '-' && n < 0)
  {
    hide Grouped;
  }
}
