/**
 JavaScript string operations shared by the text services: per-character
 rewriting, `replace(/x+/g, r)`, `trim()`, and what survives them.
 Casing is abstract: `Lawful` lists the only facts used about it.
 */
module JsText {

  /** JavaScript's \s, the same set that trim() strips. */
  predicate IsSpace(c: char) {
    || '\t' <= c <= '\r' || c == ' ' || c == '\U{A0}' || c == '\U{1680}'
    || '\U{2000}' <= c <= '\U{200A}' || c == '\U{2028}' || c == '\U{2029}'
    || c == '\U{202F}' || c == '\U{205F}' || c == '\U{3000}' || c == '\U{FEFF}'
  }

  /** The Arabic and Persian block. */
  predicate IsArabic(c: char) {
    '\U{600}' <= c <= '\U{6FF}'
  }

  predicate IsDigit(c: char) {
    '0' <= c <= '9'
  }

  // ------------------------------------------------------------ flat map

  /** replace() with a per-character pattern: each character becomes f(c). */
  function FlatMap(f: char -> string, s: string): string {
    if s == [] then [] else f(s[0]) + FlatMap(f, s[1..])
  }

  lemma {:induction false} FlatMapConcat(f: char -> string, a: string, b: string)
    ensures FlatMap(f, a + b) == FlatMap(f, a) + FlatMap(f, b)
  {
    if a == [] {
      assert a + b == b;
    } else {
      assert (a + b)[1..] == a[1..] + b;
      FlatMapConcat(f, a[1..], b);
    }
  }

  lemma {:induction false} FlatMapIdentity(f: char -> string, s: string)
    requires forall c :: c in s ==> f(c) == [c]
    ensures FlatMap(f, s) == s
  {
    if s != [] {
      FlatMapIdentity(f, s[1..]);
    }
  }

  lemma {:induction false} FlatMapSource(f: char -> string, s: string, d: char) returns (c: char)
    requires d in FlatMap(f, s)
    ensures c in s && d in f(c)
  {
    if d in f(s[0]) {
      c := s[0];
    } else {
      c := FlatMapSource(f, s[1..], d);
    }
  }

  // ------------------------------------------------------------ runs

  /** replace(/p+/g, r): every maximal run of p-characters becomes one r. */
  function Runs(p: char -> bool, r: char, s: string): string {
    if s == [] then []
    else if !p(s[0]) then [s[0]] + Runs(p, r, s[1..])
    else if |s| > 1 && p(s[1]) then Runs(p, r, s[1..])
    else [r] + Runs(p, r, s[1..])
  }

  predicate StartsWith(p: char -> bool, s: string) {
    s != [] && p(s[0])
  }

  predicate EndsWith(p: char -> bool, s: string) {
    s != [] && p(s[|s| - 1])
  }

  /** No two neighbours are both p-characters. */
  predicate Sparse(p: char -> bool, s: string) {
    forall i :: 0 < i < |s| ==> !(p(s[i - 1]) && p(s[i]))
  }

  lemma {:induction false} RunsHead(p: char -> bool, r: char, s: string)
    ensures s != [] ==> Runs(p, r, s) != []
    ensures s != [] ==> Runs(p, r, s)[0] == if p(s[0]) then r else s[0]
  {
    if s != [] && p(s[0]) && |s| > 1 && p(s[1]) {
      RunsHead(p, r, s[1..]);
    }
  }

  lemma {:induction false} RunsChars(p: char -> bool, r: char, s: string)
    ensures forall d :: d in Runs(p, r, s) ==> d == r || (d in s && !p(d))
  {
    if s != [] {
      RunsChars(p, r, s[1..]);
    }
  }

  lemma {:induction false} RunsSparse(p: char -> bool, r: char, s: string)
    requires p(r)
    ensures Sparse(p, Runs(p, r, s))
  {
    if s != [] {
      RunsSparse(p, r, s[1..]);
      RunsHead(p, r, s[1..]);
    }
  }

  lemma {:induction false} RunsIdentity(p: char -> bool, r: char, s: string)
    requires Sparse(p, s) && forall c :: c in s && p(c) ==> c == r
    ensures Runs(p, r, s) == s
  {
    hide Sparse;
    if s != [] {
      SparseTail(p, s);
      RunsIdentity(p, r, s[1..]);
    }
  }

  lemma SparseTail(p: char -> bool, s: string)
    requires Sparse(p, s) && s != []
    ensures Sparse(p, s[1..]) && (|s| > 1 ==> !(p(s[0]) && p(s[1])))
  {
    var t := s[1..];
    assert |s| > 1 ==> !(p(s[1 - 1]) && p(s[1]));
    forall i | 0 < i < |t|
      ensures !(p(t[i - 1]) && p(t[i]))
    {
      assert t[i] == s[i + 1] && t[i - 1] == s[i + 1 - 1];
    }
  }

  lemma {:induction false} RunsConcat(p: char -> bool, r: char, a: string, b: string)
    ensures EndsWith(p, a) && StartsWith(p, b) ==> Runs(p, r, b) != []
    ensures Runs(p, r, a + b) ==
            Runs(p, r, a) + (if EndsWith(p, a) && StartsWith(p, b) then Runs(p, r, b)[1..] else Runs(p, r, b))
  {
    RunsHead(p, r, b);
    if a == [] {
      assert a + b == b;
    } else if |a| == 1 {
      assert (a + b)[1..] == b;
    } else {
      assert (a + b)[1..] == a[1..] + b;
      RunsConcat(p, r, a[1..], b);
    }
  }

  // ------------------------------------------------------------ trim

  function TrimStart(s: string): string {
    if s != [] && IsSpace(s[0]) then TrimStart(s[1..]) else s
  }

  function TrimEnd(s: string): string {
    if s != [] && IsSpace(s[|s| - 1]) then TrimEnd(s[..|s| - 1]) else s
  }

  function Trim(s: string): string {
    TrimEnd(TrimStart(s))
  }

  /** Nothing for trim() to strip. */
  predicate Trimmed(s: string) {
    !StartsWith(IsSpace, s) && !EndsWith(IsSpace, s)
  }

  lemma {:induction false} TrimStartParts(s: string) returns (k: nat)
    ensures k <= |s| && TrimStart(s) == s[k..] && !StartsWith(IsSpace, TrimStart(s))
    ensures forall i :: 0 <= i < k ==> IsSpace(s[i])
  {
    k := 0;
    if s != [] && IsSpace(s[0]) {
      var j := TrimStartParts(s[1..]);
      k := j + 1;
    }
  }

  lemma {:induction false} TrimEndParts(s: string) returns (k: nat)
    ensures k <= |s| && TrimEnd(s) == s[..k] && !EndsWith(IsSpace, TrimEnd(s))
    ensures forall i :: k <= i < |s| ==> IsSpace(s[i])
  {
    k := |s|;
    if s != [] && IsSpace(s[|s| - 1]) {
      k := TrimEndParts(s[..|s| - 1]);
    }
  }

  /** trim() keeps one contiguous piece and drops only whitespace around it. */
  lemma TrimParts(s: string) returns (i: nat, j: nat)
    ensures i <= j <= |s| && Trim(s) == s[i..j] && Trimmed(Trim(s))
    ensures forall k :: 0 <= k < i || j <= k < |s| ==> IsSpace(s[k])
  {
    i := TrimStartParts(s);
    var k := TrimEndParts(s[i..]);
    j := i + k;
    assert s[i..][..k] == s[i..j];
    forall m | 0 <= m < i || j <= m < |s|
      ensures IsSpace(s[m])
    {
      if m >= j {
        assert s[m] == s[i..][m - i];
      }
    }
  }

  lemma TrimSplit(s: string) returns (a: string, b: string)
    ensures s == a + (Trim(s) + b)
    ensures forall c :: c in a || c in b ==> IsSpace(c)
  {
    var i, j := TrimParts(s);
    a, b := s[..i], s[j..];
    forall c | c in a || c in b
      ensures IsSpace(c)
    {
      if c in a {
        var k :| 0 <= k < i && s[k] == c;
      } else {
        var k :| 0 <= k < |b| && b[k] == c;
        assert s[j + k] == c;
      }
    }
  }

  lemma TrimIdentity(s: string)
    requires Trimmed(s)
    ensures Trim(s) == s
  {
  }

  // ------------------------------------------------------------ infix

  predicate OccursAt(x: string, y: string, i: nat) {
    i + |x| <= |y| && y[i..i + |x|] == x
  }

  /** x is a contiguous piece of y. */
  ghost predicate Infix(x: string, y: string) {
    exists i: nat :: OccursAt(x, y, i)
  }

  lemma InfixOfParts(a: string, x: string, b: string)
    ensures Infix(x, a + x + b)
  {
    assert OccursAt(x, a + x + b, |a|);
  }

  lemma InfixSplit(x: string, y: string) returns (a: string, b: string)
    requires Infix(x, y)
    ensures y == a + x + b
  {
    var i: nat :| OccursAt(x, y, i);
    a, b := y[..i], y[i + |x|..];
  }

  lemma InfixTransitive(x: string, y: string, z: string)
    requires Infix(x, y) && Infix(y, z)
    ensures Infix(x, z)
  {
    var a, b := InfixSplit(x, y);
    var c, d := InfixSplit(y, z);
    assert z == (c + a) + x + (b + d);
    InfixOfParts(c + a, x, b + d);
  }

  lemma FlatMapInfix(f: char -> string, x: string, y: string)
    requires Infix(x, y)
    ensures Infix(FlatMap(f, x), FlatMap(f, y))
  {
    var a, b := InfixSplit(x, y);
    FlatMapConcat(f, a + x, b);
    FlatMapConcat(f, a, x);
    InfixOfParts(FlatMap(f, a), FlatMap(f, x), FlatMap(f, b));
  }

  /** Trimming the whole keeps every trimmed piece of it. */
  lemma TrimKeepsInfix(x: string, y: string)
    requires Trimmed(x) && Infix(x, y)
    ensures Infix(x, Trim(y))
  {
    hide IsSpace, Trim;
    var i, j := TrimParts(y);
    if x == [] {
      assert OccursAt(x, Trim(y), 0);
    } else {
      var m: nat :| OccursAt(x, y, m);
      assert y[m] == y[m..m + |x|][0] && y[m + |x| - 1] == y[m..m + |x|][|x| - 1];
      assert !IsSpace(y[m]) && !IsSpace(y[m + |x| - 1]);
      assert i <= m < j && i <= m + |x| - 1 < j;
      var z := y[i..j];
      assert forall k :: m - i <= k < m - i + |x| ==> z[k] == y[k + i];
      assert z[m - i..m - i + |x|] == y[m..m + |x|];
      assert OccursAt(x, z, m - i);
    }
  }

  // ------------------------------------------------------------ squeeze

  /** replace(/\s+/g, ' ').trim() */
  function Squeeze(s: string): string {
    Trim(Runs(IsSpace, ' ', s))
  }

  /** Words separated by single ASCII spaces, none at the ends. */
  predicate Squeezed(s: string) {
    Trimmed(s) && Sparse(IsSpace, s) && forall c :: c in s && IsSpace(c) ==> c == ' '
  }

  lemma SqueezeIsSqueezed(s: string)
    ensures Squeezed(Squeeze(s))
    ensures forall c :: c in Squeeze(s) ==> c == ' ' || (c in s && !IsSpace(c))
  {
    var t := Runs(IsSpace, ' ', s);
    RunsSparse(IsSpace, ' ', s);
    RunsChars(IsSpace, ' ', s);
    var i, j := TrimParts(t);
    var z := t[i..j];
    forall k | 0 < k < |z|
      ensures !(IsSpace(z[k - 1]) && IsSpace(z[k]))
    {
      assert z[k] == t[i + k] && z[k - 1] == t[i + k - 1];
    }
    assert forall c :: c in z ==> c in t;
  }

  /** Squeezing changes a string exactly when it is not squeezed already. */
  lemma SqueezeFixed(s: string)
    ensures Squeeze(s) == s <==> Squeezed(s)
  {
    SqueezeIsSqueezed(s);
    if Squeezed(s) {
      RunsIdentity(IsSpace, ' ', s);
      TrimIdentity(s);
    }
  }

  /** Dropping a leading blank does not lose a trimmed piece. */
  lemma DropBlankKeepsInfix(z: string, t: string)
    requires t != [] && IsSpace(t[0]) && Trimmed(z) && Infix(z, t)
    ensures Infix(z, t[1..])
  {
    var i: nat :| OccursAt(z, t, i);
    if z == [] {
      assert OccursAt(z, t[1..], 0);
    } else {
      assert t[i] == z[0];
      assert t[1..][i - 1..i - 1 + |z|] == t[i..i + |z|];
      assert OccursAt(z, t[1..], i - 1);
    }
  }

  lemma RunsAppendKeepsInfix(z: string, x: string, b: string)
    requires Infix(z, Runs(IsSpace, ' ', x))
    ensures Infix(z, Runs(IsSpace, ' ', x + b))
  {
    var u, v := Runs(IsSpace, ' ', x), Runs(IsSpace, ' ', x + b);
    RunsConcat(IsSpace, ' ', x, b);
    assert v == [] + u + v[|u|..];
    InfixOfParts([], u, v[|u|..]);
    InfixTransitive(z, u, v);
  }

  lemma RunsPrependKeepsInfix(z: string, a: string, x: string)
    requires Trimmed(z) && Infix(z, Runs(IsSpace, ' ', x))
    ensures Infix(z, Runs(IsSpace, ' ', a + x))
  {
    var t, v, u := Runs(IsSpace, ' ', x), Runs(IsSpace, ' ', a + x), Runs(IsSpace, ' ', a);
    RunsConcat(IsSpace, ' ', a, x);
    RunsHead(IsSpace, ' ', x);
    var w := v[|u|..];
    if w != t {
      DropBlankKeepsInfix(z, t);
    }
    assert v == u + w + [];
    InfixOfParts(u, w, []);
    InfixTransitive(z, w, v);
  }

  /** A piece of a text, squeezed, is a piece of the squeezed text. */
  lemma SqueezeKeepsInfix(x: string, y: string)
    requires Infix(x, y)
    ensures Infix(Squeeze(x), Squeeze(y))
  {
    hide IsSpace, Trim, Runs, Infix;
    var a, b := InfixSplit(x, y);
    var cx := Runs(IsSpace, ' ', x);
    var i, j := TrimParts(cx);
    assert cx == cx[..i] + Squeeze(x) + cx[j..];
    InfixOfParts(cx[..i], Squeeze(x), cx[j..]);
    RunsAppendKeepsInfix(Squeeze(x), x, b);
    RunsPrependKeepsInfix(Squeeze(x), a, x + b);
    assert a + (x + b) == y;
    TrimKeepsInfix(Squeeze(x), Runs(IsSpace, ' ', y));
  }

  // ------------------------------------------------------------ casing

  // ------------------------------------------------------------ words

  function Join(parts: seq<string>, sep: string): string {
    if parts == [] then ""
    else if |parts| == 1 then parts[0]
    else parts[0] + sep + Join(parts[1..], sep)
  }

  /** The maximal runs of characters that are not separators. */
  function Pieces(sep: char -> bool, s: string): (r: seq<string>)
    ensures s != [] && !sep(s[0]) ==> r != [] && r[0] != []
  {
    if s == [] then []
    else
      var rest := Pieces(sep, s[1..]);
      if sep(s[0]) then rest
      else if |s| > 1 && !sep(s[1]) then [[s[0]] + rest[0]] + rest[1..]
      else [[s[0]]] + rest
  }

  function Words(s: string): seq<string> {
    Pieces(IsSpace, s)
  }

  lemma {:induction false} PieceShape(sep: char -> bool, s: string)
    ensures forall i :: 0 <= i < |Pieces(sep, s)| ==> |Pieces(sep, s)[i]| > 0 && forall c :: c in Pieces(sep, s)[i] ==> !sep(c)
  {
    if s != [] {
      PieceShape(sep, s[1..]);
    }
  }

  lemma {:induction false} NoPieces(sep: char -> bool, s: string)
    ensures Pieces(sep, s) == [] <==> forall i :: 0 <= i < |s| ==> sep(s[i])
  {
    if s != [] {
      NoPieces(sep, s[1..]);
      assert forall i :: 0 < i < |s| ==> s[i] == s[1..][i - 1];
      assert sep(s[0]) ==> Pieces(sep, s) == Pieces(sep, s[1..]);
    }
  }

  /** Joined pieces, with one separator where s starts or ends with separators. */
  lemma {:induction false} RunsOfPieces(p: char -> bool, r: char, s: string)
    ensures Runs(p, r, s) == (if StartsWith(p, s) then [r] else []) + Join(Pieces(p, s), [r])
                             + (if EndsWith(p, s) && Pieces(p, s) != [] then [r] else [])
  {
    hide Join, Runs, Pieces;
    JoinNothing([r]);
    RunsFirst(p, r, s);
    PiecesFirst(p, s);
    if |s| == 1 {
      assert s[1..] == [];
      RunsFirst(p, r, []);
      PiecesFirst(p, []);
      JoinCons([], [r], s[0]);
    } else if s != [] {
      var t := s[1..];
      assert t[0] == s[1] && t[|t| - 1] == s[|s| - 1];
      RunsOfPieces(p, r, t);
      if !p(s[0]) {
        WordGoesOn(p, r, s);
      }
    }
  }

  /** One more character at the front of a text that starts inside a piece. */
  lemma JoinedFrom(p: char -> bool, r: char, s: string)
    requires |s| > 1 && !p(s[0])
    ensures var rest := Pieces(p, s[1..]);
            Join(Pieces(p, s), [r]) == [s[0]] + ((if p(s[1]) && rest != [] then [r] else []) + Join(rest, [r]))
  {
    hide Join, Runs, Pieces;
    PiecesFirst(p, s);
    JoinNothing([r]);
    JoinCons(Pieces(p, s[1..]), [r], s[0]);
  }

  lemma WordGoesOn(p: char -> bool, r: char, s: string)
    requires |s| > 1 && !p(s[0])
    ensures var t := s[1..];
            var end := if EndsWith(p, t) && Pieces(p, t) != [] then [r] else [];
            [s[0]] + ((if p(s[1]) then [r] else []) + Join(Pieces(p, t), [r]) + end)
            == Join(Pieces(p, s), [r]) + if EndsWith(p, s) then [r] else []
  {
    hide Join, Runs, Pieces;
    var t := s[1..];
    assert t[0] == s[1] && t[|t| - 1] == s[|s| - 1];
    JoinedFrom(p, r, s);
    NoPieces(p, t);
    JoinNothing([r]);
    if Pieces(p, t) == [] {
      assert p(t[0]) && p(t[|t| - 1]);
    }
  }

  lemma RunsFirst(p: char -> bool, r: char, s: string)
    ensures Runs(p, r, s) == if s == [] then [] else (if !p(s[0]) then [s[0]] else if |s| > 1 && p(s[1]) then [] else [r]) + Runs(p, r, s[1..])
  {
  }

  lemma PiecesFirst(p: char -> bool, s: string)
    ensures Pieces(p, s)
            == if s == [] then [] else if p(s[0]) then Pieces(p, s[1..])
               else if |s| > 1 && !p(s[1]) then [[s[0]] + Pieces(p, s[1..])[0]] + Pieces(p, s[1..])[1..]
               else [[s[0]]] + Pieces(p, s[1..])
  {
  }

  lemma JoinNothing(sep: string)
    ensures Join([], sep) == ""
  {
  }

  lemma JoinCons(parts: seq<string>, sep: string, c: char)
    ensures parts != [] ==> Join([[c] + parts[0]] + parts[1..], sep) == [c] + Join(parts, sep)
    ensures Join([[c]] + parts, sep) == if parts == [] then [c] else [c] + sep + Join(parts, sep)
  {
    if parts != [] {
      var q := [[c] + parts[0]] + parts[1..];
      assert q[1..] == parts[1..];
      assert ([[c]] + parts)[1..] == parts;
      assert |parts| > 1 ==> ([c] + parts[0]) + sep + Join(parts[1..], sep) == [c] + (parts[0] + sep + Join(parts[1..], sep));
    }
  }

  lemma {:induction false} JoinEnds(parts: seq<string>, sep: string)
    requires |parts| > 0 && forall i :: 0 <= i < |parts| ==> |parts[i]| > 0
    ensures var j := Join(parts, sep); var last := parts[|parts| - 1];
            j != [] && j[0] == parts[0][0] && j[|j| - 1] == last[|last| - 1]
  {
    if |parts| > 1 {
      JoinEnds(parts[1..], sep);
    }
  }

  /** Cutting at a separator cuts no piece. */
  lemma {:induction false} PiecesConcat(sep: char -> bool, a: string, b: string)
    requires a == "" || b == "" || EndsWith(sep, a) || StartsWith(sep, b)
    ensures Pieces(sep, a + b) == Pieces(sep, a) + Pieces(sep, b)
  {
    if a == "" {
      assert a + b == b;
    } else if b == "" {
      assert a + b == a;
    } else {
      var t := a[1..];
      assert (a + b)[1..] == t + b;
      PiecesConcat(sep, t, b);
      if t == "" {
        assert t + b == b;
      }
    }
  }

  lemma TrimAround(a: string, x: string, b: string)
    requires (forall c :: c in a || c in b ==> IsSpace(c)) && Trimmed(x)
    ensures Trim(a + x + b) == x
  {
    hide IsSpace;
    var y := a + x + b;
    var i, j := TrimParts(y);
    assert forall k :: 0 <= k < |a| ==> y[k] in a;
    assert forall k :: |a| + |x| <= k < |y| ==> y[k] in b;
    if x == [] {
      assert forall k :: 0 <= k < |y| ==> IsSpace(y[k]);
      AllBlank(y, i, j);
    } else {
      assert y[|a|] == x[0] && y[|a| + |x| - 1] == x[|x| - 1];
      assert i < j;
      assert !IsSpace(y[i..j][0]) && !IsSpace(y[i..j][j - i - 1]);
      assert i == |a| && j == |a| + |x|;
    }
  }

  lemma AllBlank(y: string, i: nat, j: nat)
    requires i <= j <= |y| && Trimmed(y[i..j]) && forall k :: 0 <= k < |y| ==> IsSpace(y[k])
    ensures i == j
  {
  }

  /** Collapsing and trimming is: the words of a text, one blank apart. */
  lemma SqueezeIsItsWords(s: string)
    ensures Squeeze(s) == Join(Words(s), " ")
  {
    hide Trim, IsSpace, Pieces;
    var words := Words(s);
    RunsOfPieces(IsSpace, ' ', s);
    PieceShape(IsSpace, s);
    assert [' '] == " " && IsSpace(' ') by { BlankIsSpace(); }
    var j := Join(words, " ");
    if words != [] {
      JoinEnds(words, " ");
      var last := words[|words| - 1];
      assert words[0][0] in words[0] && last[|last| - 1] in last;
    }
    TrimAround(if StartsWith(IsSpace, s) then [' '] else [], j, if EndsWith(IsSpace, s) && words != [] then [' '] else []);
  }

  lemma BlankIsSpace()
    ensures IsSpace(' ')
  {
  }

  function AsciiLower(c: char): char {
    if 'A' <= c <= 'Z' then c + 32 as char else c
  }

  function AsciiUpper(c: char): char {
    if 'a' <= c <= 'z' then c - 32 as char else c
  }

  /** toLowerCase and toUpperCase, per character (a letter may become several). */
  datatype Casing = Casing(lower: char -> string, upper: char -> string) {

    function ToLower(s: string): string {
      FlatMap(lower, s)
    }

    function ToUpper(s: string): string {
      FlatMap(upper, s)
    }

    /** What Unicode guarantees about the case mappings, as far as it is used here. */
    ghost predicate Lawful() {
      && (forall c :: lower(c) != [])
      && (forall c :: IsSpace(c) || IsArabic(c) || IsDigit(c) || 'a' <= c <= 'z' || c == '-' ==> lower(c) == [c])
      && (forall c, d :: d in lower(c) && IsArabic(d) ==> IsArabic(c))
      && (forall c, d :: d in lower(c) && IsSpace(d) ==> IsSpace(c))
      && (forall c :: '\\' in lower(c) ==> c == '\\')
      && (forall c :: IsSpace(c) || IsDigit(c) || 'A' <= c <= 'Z' ==> upper(c) == [c])
    }

    /** The mappings of ASCII. */
    ghost predicate Ascii() {
      forall c :: c < 128 as char ==> lower(c) == [AsciiLower(c)] && upper(c) == [AsciiUpper(c)]
    }
  }

  /** Lower-casing words separated by single blanks leaves them so. */
  lemma {:induction false} LowerKeepsSqueezed(cs: Casing, s: string)
    requires cs.Lawful() && Squeezed(s)
    ensures Squeezed(cs.ToLower(s))
  {
    LowerKeepsSparse(cs, s);
    forall d | d in cs.ToLower(s) && IsSpace(d)
      ensures d == ' '
    {
      var c := FlatMapSource(cs.lower, s, d);
    }
    if s != [] {
      LowerEnds(cs, s);
    }
  }

  lemma {:induction false} LowerEnds(cs: Casing, s: string)
    requires cs.Lawful() && s != []
    ensures var t := cs.ToLower(s); t != [] && t[0] in cs.lower(s[0]) && t[|t| - 1] in cs.lower(s[|s| - 1])
  {
    var h, t := cs.lower(s[0]), cs.ToLower(s[1..]);
    assert cs.ToLower(s) == h + t;
    if |s| > 1 {
      LowerEnds(cs, s[1..]);
      assert (h + t)[|h + t| - 1] == t[|t| - 1];
      assert s[1..][|s| - 2] == s[|s| - 1];
    }
  }

  lemma {:induction false} LowerKeepsSparse(cs: Casing, s: string)
    requires cs.Lawful() && Sparse(IsSpace, s)
    ensures Sparse(IsSpace, cs.ToLower(s))
  {
    if s != [] {
      var h, t := cs.lower(s[0]), cs.ToLower(s[1..]);
      assert forall i :: 0 < i < |s[1..]| ==> s[1..][i] == s[i + 1] && s[1..][i - 1] == s[i];
      LowerKeepsSparse(cs, s[1..]);
      if |s| > 1 {
        LowerEnds(cs, s[1..]);
      }
      if IsSpace(s[0]) {
        assert h == [s[0]];
      } else {
        assert forall d :: d in h ==> !IsSpace(d);
      }
    }
  }
}
